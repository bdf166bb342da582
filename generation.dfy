/** The generation router (apps/api/src/routers/generation.py): starting a
    generation from an episode's content sources, restarting it, and the
    progress stream's stop rule.

    The task queue is abstract: starting a generation appends the request to
    `enqueued` under a task id supplied by the caller. */
module Generation {

  import opened Wrappers
  import opened Http
  import opened Strings
  import opened EpisodeSchema
  import AuthService
  import Json

  const EpisodeNotFoundDetail: string := "Episode not found"
  const NoSourcesDetail: string := "Episode must have at least one content source"
  const InternalErrorDetail: string := "Internal Server Error"
  const StartedMessage: string := "Podcast generation started"
  const TextSeparator: string := "\n\n"

  /** The columns of an `episodes` row the router reads or writes. */
  datatype Episode = Episode(id: string, tenantId: string, generationStatus: string, generationProgress: Json.Object)

  /** A `content_sources` row. `source_type` is a free string column. */
  datatype ContentSource = ContentSource(episodeId: string, sourceType: string, sourceData: Json.Object)

  /** `dict.get(key)`: None for a missing key. */
  function Get(data: Json.Object, key: string): (v: Option<Json.Value>)
    ensures v.Some? <==> key in data
    ensures v.Some? ==> v.value == data[key]
  {
    if key in data then Some(data[key]) else None
  }

  /** The keyword arguments handed to the generation task. */
  datatype GenerationRequest = GenerationRequest(
    episodeId: string,
    urls: Option<seq<Option<Json.Value>>>,
    filePaths: Option<seq<Option<Json.Value>>>,
    textContent: Option<string>)

  datatype EnqueuedTask = EnqueuedTask(taskId: string, request: GenerationRequest)

  /** The 202 body of `generate_podcast`. */
  datatype GenerationAccepted = GenerationAccepted(episodeId: string, taskId: string, status: string, message: string)

  // ---------------------------------------------------------------------
  // Partition of the sources by kind
  // ---------------------------------------------------------------------

  predicate IsUrlKind(t: string) { t == "url" || t == "youtube" }

  predicate IsKnownKind(t: string) { IsUrlKind(t) || t == "file" || t == "text" }

  /** `urls`: `source_data.get("url")` of every url or youtube source, in order. */
  function UrlsOf(sources: seq<ContentSource>): (r: seq<Option<Json.Value>>)
    ensures |r| <= |sources|
  {
    if |sources| == 0 then []
    else
      var init, last := sources[..|sources| - 1], sources[|sources| - 1];
      UrlsOf(init) + (if IsUrlKind(last.sourceType) then [Get(last.sourceData, "url")] else [])
  }

  /** `file_paths`: `source_data.get("s3_key")` of every file source, in order. */
  function FilePathsOf(sources: seq<ContentSource>): (r: seq<Option<Json.Value>>)
    ensures |r| <= |sources|
  {
    if |sources| == 0 then []
    else
      var init, last := sources[..|sources| - 1], sources[|sources| - 1];
      FilePathsOf(init) + (if last.sourceType == "file" then [Get(last.sourceData, "s3_key")] else [])
  }

  /** `text_content`: `source_data.get("content")` of every text source, in order. */
  function TextsOf(sources: seq<ContentSource>): (r: seq<Option<Json.Value>>)
    ensures |r| <= |sources|
  {
    if |sources| == 0 then []
    else
      var init, last := sources[..|sources| - 1], sources[|sources| - 1];
      TextsOf(init) + (if last.sourceType == "text" then [Get(last.sourceData, "content")] else [])
  }

  /** The partition is computed source by source: the lists for a
      concatenation are the concatenations of the lists. */
  lemma {:induction false} PartitionAppend(a: seq<ContentSource>, b: seq<ContentSource>)
    ensures UrlsOf(a + b) == UrlsOf(a) + UrlsOf(b)
    ensures FilePathsOf(a + b) == FilePathsOf(a) + FilePathsOf(b)
    ensures TextsOf(a + b) == TextsOf(a) + TextsOf(b)
    decreases |b|
  {
    if |b| > 0 {
      var b' := b[..|b| - 1];
      assert (a + b)[..|a + b| - 1] == a + b';
      assert (a + b)[|a + b| - 1] == b[|b| - 1];
      PartitionAppend(a, b');
    } else {
      assert a + b == a;
    }
  }

  /** One source goes to at most one list, and to exactly one when its kind
      is known; any other kind is dropped. */
  lemma PartitionSingle(s: ContentSource)
    ensures UrlsOf([s]) == if IsUrlKind(s.sourceType) then [Get(s.sourceData, "url")] else []
    ensures FilePathsOf([s]) == if s.sourceType == "file" then [Get(s.sourceData, "s3_key")] else []
    ensures TextsOf([s]) == if s.sourceType == "text" then [Get(s.sourceData, "content")] else []
    ensures |UrlsOf([s])| + |FilePathsOf([s])| + |TextsOf([s])| == if IsKnownKind(s.sourceType) then 1 else 0
  {
    assert [s][..0] == [];
  }

  /** No source is counted twice, and none of a known kind is lost. */
  lemma {:induction false} PartitionCounts(sources: seq<ContentSource>)
    ensures |UrlsOf(sources)| + |FilePathsOf(sources)| + |TextsOf(sources)| <= |sources|
    ensures (forall k :: 0 <= k < |sources| ==> IsKnownKind(sources[k].sourceType)) ==>
      |UrlsOf(sources)| + |FilePathsOf(sources)| + |TextsOf(sources)| == |sources|
  {
    if |sources| > 0 {
      var init := sources[..|sources| - 1];
      PartitionCounts(init);
      if forall k :: 0 <= k < |sources| ==> IsKnownKind(sources[k].sourceType) {
        assert forall k :: 0 <= k < |init| ==> init[k] == sources[k];
      }
    }
  }

  /** Every source of a kind contributes its value to that kind's list, and
      every entry of a list comes from a source of that kind. */
  lemma {:induction false} PartitionMembers(sources: seq<ContentSource>)
    ensures forall k :: 0 <= k < |sources| && IsUrlKind(sources[k].sourceType) ==> Get(sources[k].sourceData, "url") in UrlsOf(sources)
    ensures forall v :: v in UrlsOf(sources) ==> exists k :: 0 <= k < |sources| && IsUrlKind(sources[k].sourceType) && v == Get(sources[k].sourceData, "url")
    ensures forall k :: 0 <= k < |sources| && sources[k].sourceType == "file" ==> Get(sources[k].sourceData, "s3_key") in FilePathsOf(sources)
    ensures forall v :: v in FilePathsOf(sources) ==> exists k :: 0 <= k < |sources| && sources[k].sourceType == "file" && v == Get(sources[k].sourceData, "s3_key")
    ensures forall k :: 0 <= k < |sources| && sources[k].sourceType == "text" ==> Get(sources[k].sourceData, "content") in TextsOf(sources)
    ensures forall v :: v in TextsOf(sources) ==> exists k :: 0 <= k < |sources| && sources[k].sourceType == "text" && v == Get(sources[k].sourceData, "content")
  {
    if |sources| > 0 {
      var init := sources[..|sources| - 1];
      PartitionMembers(init);
      assert forall k :: 0 <= k < |init| ==> init[k] == sources[k];
    }
  }

  /** `urls` is empty exactly when no source is of a url kind. */
  lemma {:induction false} NoUrlsIff(sources: seq<ContentSource>)
    ensures UrlsOf(sources) == [] <==> forall k :: 0 <= k < |sources| ==> !IsUrlKind(sources[k].sourceType)
  {
    if |sources| > 0 {
      var init := sources[..|sources| - 1];
      NoUrlsIff(init);
      assert forall k :: 0 <= k < |init| ==> init[k] == sources[k];
    }
  }

  /** `text_content` is empty exactly when no source is of kind text. */
  lemma {:induction false} NoTextsIff(sources: seq<ContentSource>)
    ensures TextsOf(sources) == [] <==> forall k :: 0 <= k < |sources| ==> sources[k].sourceType != "text"
  {
    if |sources| > 0 {
      var init := sources[..|sources| - 1];
      NoTextsIff(init);
      assert forall k :: 0 <= k < |init| ==> init[k] == sources[k];
    }
  }

  /** The loop of `generate_podcast` that appends to the three lists. */
  method Partition(sources: seq<ContentSource>) returns (urls: seq<Option<Json.Value>>, filePaths: seq<Option<Json.Value>>, textContent: seq<Option<Json.Value>>)
    ensures urls == UrlsOf(sources) && filePaths == FilePathsOf(sources) && textContent == TextsOf(sources)
  {
    urls, filePaths, textContent := [], [], [];
    for i := 0 to |sources|
      invariant urls == UrlsOf(sources[..i])
      invariant filePaths == FilePathsOf(sources[..i])
      invariant textContent == TextsOf(sources[..i])
    {
      var source := sources[i];
      assert sources[..i + 1][..i] == sources[..i] && sources[..i + 1][i] == source;
      if source.sourceType == "url" {
        urls := urls + [Get(source.sourceData, "url")];
      } else if source.sourceType == "youtube" {
        urls := urls + [Get(source.sourceData, "url")];
      } else if source.sourceType == "file" {
        filePaths := filePaths + [Get(source.sourceData, "s3_key")];
      } else if source.sourceType == "text" {
        textContent := textContent + [Get(source.sourceData, "content")];
      }
    }
    assert sources[..|sources|] == sources;
  }

  // ---------------------------------------------------------------------
  // Joining the text pieces
  // ---------------------------------------------------------------------

  /** `str.join` raises TypeError unless every piece is a string. */
  predicate AllStrings(pieces: seq<Option<Json.Value>>) {
    forall k :: 0 <= k < |pieces| ==> pieces[k].Some? && pieces[k].value.Str?
  }

  /** `"\n\n".join(pieces)` over string pieces. */
  function JoinTexts(pieces: seq<Option<Json.Value>>): (r: string)
    requires |pieces| >= 1 && AllStrings(pieces)
    ensures StartsWith(r, pieces[0].value.s)
    ensures |r| >= |pieces[|pieces| - 1].value.s|
    ensures r[|r| - |pieces[|pieces| - 1].value.s|..] == pieces[|pieces| - 1].value.s
  {
    if |pieces| == 1 then pieces[0].value.s
    else
      var init := JoinTexts(pieces[..|pieces| - 1]);
      assert StartsWith(init, pieces[0].value.s);
      var r := init + TextSeparator + pieces[|pieces| - 1].value.s;
      assert r[..|pieces[0].value.s|] == init[..|pieces[0].value.s|];
      r
  }

  /** One text passes through unchanged; between two consecutive texts
      there is exactly one blank line. */
  lemma JoinTextsSeparates(pieces: seq<Option<Json.Value>>, last: string)
    requires |pieces| >= 1 && AllStrings(pieces)
    ensures JoinTexts([pieces[0]]) == pieces[0].value.s
    ensures AllStrings(pieces + [Some(Json.Str(last))])
    ensures JoinTexts(pieces + [Some(Json.Str(last))]) == JoinTexts(pieces) + "\n\n" + last
  {
    var ext := pieces + [Some(Json.Str(last))];
    assert ext[..|ext| - 1] == pieces;
  }

  /** `"\n\n".join(text_content) if text_content else None`; a piece that is
      not a string makes the join raise, and the request fails with 500. */
  function TextArgument(pieces: seq<Option<Json.Value>>): (r: Result<Option<string>, HttpError>)
    ensures r.Ok? <==> AllStrings(pieces)
    ensures r.Ok? ==> (r.value.None? <==> |pieces| == 0)
    ensures r.Ok? && |pieces| == 1 ==> r.value == Some(pieces[0].value.s)
    ensures r.Ok? && |pieces| > 0 ==> r.value == Some(JoinTexts(pieces))
    ensures r.Err? ==> r.error.status == InternalServerError
  {
    if |pieces| == 0 then Ok(None)
    else if !AllStrings(pieces) then Err(HttpError(InternalServerError, InternalErrorDetail))
    else Ok(Some(JoinTexts(pieces)))
  }

  /** `x if x else None` for a list. */
  function NoneIfEmpty<T>(items: seq<T>): (r: Option<seq<T>>)
    ensures r.None? <==> |items| == 0
    ensures r.Some? ==> r.value == items
  {
    if |items| == 0 then None else Some(items)
  }

  /** Everything `generate_podcast` decides from the episode's sources
      before it touches the episode: 400 when there are none, 500 when the
      text join raises, otherwise the request to enqueue. */
  function Plan(episodeId: string, sources: seq<ContentSource>): (r: Result<GenerationRequest, HttpError>)
    ensures r.Err? ==> r.error.status == BadRequest || r.error.status == InternalServerError
    ensures r.Err? && r.error.status == BadRequest <==> |sources| == 0
    ensures r.Err? && r.error.status == InternalServerError <==> |sources| > 0 && !AllStrings(TextsOf(sources))
    ensures r.Ok? ==>
      && r.value.episodeId == episodeId
      && (r.value.urls.None? <==> forall k :: 0 <= k < |sources| ==> !IsUrlKind(sources[k].sourceType))
      && (r.value.urls.Some? ==> r.value.urls.value == UrlsOf(sources))
      && (r.value.filePaths.None? <==> |FilePathsOf(sources)| == 0)
      && (r.value.filePaths.Some? ==> r.value.filePaths.value == FilePathsOf(sources))
      && (r.value.textContent.Some? ==>
            && AllStrings(TextsOf(sources)) && |TextsOf(sources)| > 0
            && r.value.textContent.value == JoinTexts(TextsOf(sources)))
      && (r.value.textContent.None? <==> forall k :: 0 <= k < |sources| ==> sources[k].sourceType != "text")
  {
    NoUrlsIff(sources);
    NoTextsIff(sources);
    if |sources| == 0 then Err(HttpError(BadRequest, NoSourcesDetail))
    else
      match TextArgument(TextsOf(sources))
      case Err(e) => Err(e)
      case Ok(text) => Ok(GenerationRequest(episodeId, NoneIfEmpty(UrlsOf(sources)), NoneIfEmpty(FilePathsOf(sources)), text))
  }

  /** `select(ContentSource).where(ContentSource.episode_id == episode_id)`. */
  function SourcesOf(sources: seq<ContentSource>, episodeId: string): (r: seq<ContentSource>)
    ensures forall k :: 0 <= k < |r| ==> r[k].episodeId == episodeId && r[k] in sources
    ensures forall k :: 0 <= k < |sources| && sources[k].episodeId == episodeId ==> sources[k] in r
  {
    if |sources| == 0 then []
    else (if sources[0].episodeId == episodeId then [sources[0]] else []) + SourcesOf(sources[1..], episodeId)
  }

  /** The query keeps the matching rows in table order: it distributes over
      concatenation. */
  lemma {:induction false} SourcesOfAppend(a: seq<ContentSource>, b: seq<ContentSource>, episodeId: string)
    ensures SourcesOf(a + b, episodeId) == SourcesOf(a, episodeId) + SourcesOf(b, episodeId)
    decreases |a|
  {
    if |a| > 0 {
      assert (a + b)[1..] == a[1..] + b;
      assert (a + b)[0] == a[0];
      SourcesOfAppend(a[1..], b, episodeId);
    } else {
      assert a + b == b;
    }
  }

  /** A single row is kept exactly when it belongs to the episode. */
  lemma SourcesOfSingle(s: ContentSource, episodeId: string)
    ensures SourcesOf([s], episodeId) == if s.episodeId == episodeId then [s] else []
  {
    assert [s][1..] == [];
  }

  /** `generation_progress` after enqueueing. */
  function QueuedProgress(taskId: string): (p: Json.Object)
    ensures p.Keys == {"stage", "progress", "celery_task_id"}
    ensures p["stage"] == Json.Str(StatusName(Queued)) && p["progress"] == Json.Num(0.0)
    ensures p["celery_task_id"] == Json.Str(taskId)
  {
    map["stage" := Json.Str("queued"), "progress" := Json.Num(0.0), "celery_task_id" := Json.Str(taskId)]
  }

  // ---------------------------------------------------------------------
  // Progress stream
  // ---------------------------------------------------------------------

  /** The payload of one server-sent event. */
  datatype ProgressEvent = ProgressEvent(episodeId: string, status: string, progress: Json.Object)

  /** One refresh of the episode row: its status and progress at that time. */
  datatype Observation = Observation(status: string, progress: Json.Object)

  /** How many polls the stream emits: up to and including the first
      finished status, or all of them. */
  function StopAfter(observed: seq<Observation>): (n: nat)
    ensures n <= |observed|
    ensures forall k :: 0 <= k < n - 1 ==> !IsFinishedName(observed[k].status)
    ensures n < |observed| ==> n >= 1 && IsFinishedName(observed[n - 1].status)
    ensures 0 < n ==> (n == |observed| || IsFinishedName(observed[n - 1].status))
    ensures |observed| > 0 ==> n >= 1
  {
    if |observed| == 0 then 0
    else if IsFinishedName(observed[0].status) then 1
    else 1 + StopAfter(observed[1..])
  }

  function EventsFor(episodeId: string, observed: seq<Observation>): (events: seq<ProgressEvent>)
    ensures |events| == |observed|
    ensures forall k :: 0 <= k < |observed| ==>
      events[k] == ProgressEvent(episodeId, observed[k].status, observed[k].progress)
  {
    if |observed| == 0 then []
    else [ProgressEvent(episodeId, observed[0].status, observed[0].progress)] + EventsFor(episodeId, observed[1..])
  }

  /** The episode tables and the queue the router writes to. */
  class GenerationService {
    var episodes: map<string, Episode>
    var contentSources: seq<ContentSource>
    var enqueued: seq<EnqueuedTask>

    /** Every episode is stored under its own id. */
    ghost predicate Valid()
      reads this
    {
      forall id :: id in episodes ==> episodes[id].id == id
    }

    constructor (episodes: map<string, Episode>, contentSources: seq<ContentSource>)
      requires forall id :: id in episodes ==> episodes[id].id == id
      ensures Valid()
      ensures this.episodes == episodes && this.contentSources == contentSources && enqueued == []
    {
      this.episodes := episodes;
      this.contentSources := contentSources;
      enqueued := [];
    }

    /** The episode lookup shared by all three endpoints: the id must exist
        in the caller's tenant. */
    predicate Visible(episodeId: string, user: AuthService.User)
      reads this
    {
      episodeId in episodes && episodes[episodeId].tenantId == user.tenantId
    }

    /** `generate_podcast`: 404 for an episode outside the caller's tenant,
        400 without sources, 500 when the text join raises, each with
        nothing changed and nothing enqueued; otherwise one request is
        enqueued and the episode becomes queued with a fresh progress. */
    method GeneratePodcast(episodeId: string, user: AuthService.User, taskId: string) returns (r: Result<GenerationAccepted, HttpError>)
      requires Valid()
      modifies this
      ensures Valid()
      ensures contentSources == old(contentSources)
      ensures !old(Visible(episodeId, user)) ==>
        && r == Err(HttpError(NotFound, EpisodeNotFoundDetail))
        && episodes == old(episodes) && enqueued == old(enqueued)
      ensures old(Visible(episodeId, user)) && Plan(episodeId, SourcesOf(old(contentSources), episodeId)).Err? ==>
        && r == Err(Plan(episodeId, SourcesOf(old(contentSources), episodeId)).error)
        && episodes == old(episodes) && enqueued == old(enqueued)
      ensures old(Visible(episodeId, user)) && Plan(episodeId, SourcesOf(old(contentSources), episodeId)).Ok? ==>
        && r == Ok(GenerationAccepted(episodeId, taskId, StatusName(Queued), StartedMessage))
        && enqueued == old(enqueued) + [EnqueuedTask(taskId, Plan(episodeId, SourcesOf(old(contentSources), episodeId)).value)]
        && episodes == old(episodes)[episodeId := old(episodes)[episodeId].(
             generationStatus := StatusName(Queued), generationProgress := QueuedProgress(taskId))]
    {
      if !Visible(episodeId, user) {
        return Err(HttpError(NotFound, EpisodeNotFoundDetail));
      }
      var sources := SourcesOf(contentSources, episodeId);
      if |sources| == 0 {
        return Err(HttpError(BadRequest, NoSourcesDetail));
      }
      var urls, filePaths, textContent := Partition(sources);
      var text := TextArgument(textContent);
      if text.Err? {
        return Err(text.error);
      }
      var request := GenerationRequest(episodeId, NoneIfEmpty(urls), NoneIfEmpty(filePaths), text.value);
      enqueued := enqueued + [EnqueuedTask(taskId, request)];
      var episode := episodes[episodeId];
      episodes := episodes[episodeId := episode.(generationStatus := "queued", generationProgress := QueuedProgress(taskId))];
      r := Ok(GenerationAccepted(episodeId, taskId, "queued", StartedMessage));
    }

    /** `regenerate_podcast`: 404 as above; otherwise the episode is reset
        to draft with empty progress, and that reset is committed before
        generation starts again, so it survives a 400 or a 500. */
    method RegeneratePodcast(episodeId: string, user: AuthService.User, taskId: string) returns (r: Result<GenerationAccepted, HttpError>)
      requires Valid()
      modifies this
      ensures Valid()
      ensures contentSources == old(contentSources)
      ensures !old(Visible(episodeId, user)) ==>
        && r == Err(HttpError(NotFound, EpisodeNotFoundDetail))
        && episodes == old(episodes) && enqueued == old(enqueued)
      ensures old(Visible(episodeId, user)) && Plan(episodeId, SourcesOf(old(contentSources), episodeId)).Err? ==>
        && r == Err(Plan(episodeId, SourcesOf(old(contentSources), episodeId)).error)
        && enqueued == old(enqueued)
        && episodes == old(episodes)[episodeId := old(episodes)[episodeId].(
             generationStatus := StatusName(Draft), generationProgress := map[])]
      ensures old(Visible(episodeId, user)) && Plan(episodeId, SourcesOf(old(contentSources), episodeId)).Ok? ==>
        && r == Ok(GenerationAccepted(episodeId, taskId, StatusName(Queued), StartedMessage))
        && enqueued == old(enqueued) + [EnqueuedTask(taskId, Plan(episodeId, SourcesOf(old(contentSources), episodeId)).value)]
        && episodes == old(episodes)[episodeId := old(episodes)[episodeId].(
             generationStatus := StatusName(Queued), generationProgress := QueuedProgress(taskId))]
    {
      if !Visible(episodeId, user) {
        return Err(HttpError(NotFound, EpisodeNotFoundDetail));
      }
      var episode := episodes[episodeId];
      var reset := episode.(generationStatus := StatusName(Draft), generationProgress := map[]);
      episodes := episodes[episodeId := reset];
      ghost var queued := episode.(generationStatus := StatusName(Queued), generationProgress := QueuedProgress(taskId));
      assert reset.(generationStatus := StatusName(Queued), generationProgress := QueuedProgress(taskId)) == queued;
      assert episodes[episodeId := queued] == old(episodes)[episodeId := queued];
      r := GeneratePodcast(episodeId, user, taskId);
    }

    /** `get_generation_progress_stream`: 404 as above; otherwise one event
        per poll, stopping right after the first event whose status is
        complete or failed. `observed` is what the successive refreshes
        read; the first refresh always happens. */
    method StreamProgress(episodeId: string, user: AuthService.User, observed: seq<Observation>) returns (r: Result<seq<ProgressEvent>, HttpError>)
      requires |observed| >= 1
      ensures !Visible(episodeId, user) ==> r == Err(HttpError(NotFound, EpisodeNotFoundDetail))
      ensures Visible(episodeId, user) ==> r == Ok(EventsFor(episodeId, observed[..StopAfter(observed)]))
      ensures r.Ok? ==>
        && |r.value| >= 1
        && (forall k :: 0 <= k < |r.value| - 1 ==> !IsFinishedName(r.value[k].status))
        && (|r.value| < |observed| ==> IsFinishedName(r.value[|r.value| - 1].status))
    {
      if !Visible(episodeId, user) {
        return Err(HttpError(NotFound, EpisodeNotFoundDetail));
      }
      ghost var n := StopAfter(observed);
      var events: seq<ProgressEvent> := [];
      var i := 0;
      while i < |observed|
        invariant 0 <= i <= n
        invariant forall k :: 0 <= k < i ==> !IsFinishedName(observed[k].status)
        invariant events == EventsFor(episodeId, observed[..i])
        decreases |observed| - i
      {
        var current := observed[i];
        StopAfterReaches(observed, i);
        assert observed[..i + 1] == observed[..i] + [current];
        EventsForAppend(episodeId, observed[..i], current);
        events := events + [ProgressEvent(episodeId, current.status, current.progress)];
        i := i + 1;
        if IsFinishedName(current.status) {
          assert i == n;
          break;
        }
      }
      assert i == n;
      StreamShape(episodeId, observed);
      r := Ok(events);
    }
  }

  /** What a client of the stream sees: at least one event, and a finished
      status only in the last one, which is finished unless the polls ran out. */
  lemma StreamShape(episodeId: string, observed: seq<Observation>)
    requires |observed| >= 1
    ensures var events := EventsFor(episodeId, observed[..StopAfter(observed)]);
      && |events| >= 1
      && (forall k :: 0 <= k < |events| - 1 ==> !IsFinishedName(events[k].status))
      && (|events| < |observed| ==> IsFinishedName(events[|events| - 1].status))
  {
  }

  /** Past a run of unfinished polls the stream goes on at least one more
      poll, and stops right there if that one is finished. */
  lemma {:induction false} StopAfterReaches(observed: seq<Observation>, i: nat)
    requires i < |observed|
    requires forall k :: 0 <= k < i ==> !IsFinishedName(observed[k].status)
    ensures StopAfter(observed) >= i + 1
    ensures IsFinishedName(observed[i].status) ==> StopAfter(observed) == i + 1
  {
    if i > 0 {
      StopAfterReaches(observed[1..], i - 1);
    }
  }

  lemma {:induction false} EventsForAppend(episodeId: string, observed: seq<Observation>, o: Observation)
    ensures EventsFor(episodeId, observed + [o]) == EventsFor(episodeId, observed) + [ProgressEvent(episodeId, o.status, o.progress)]
  {
    var lhs := EventsFor(episodeId, observed + [o]);
    var rhs := EventsFor(episodeId, observed) + [ProgressEvent(episodeId, o.status, o.progress)];
    assert |lhs| == |rhs|;
    forall k | 0 <= k < |lhs|
      ensures lhs[k] == rhs[k]
    {
      if k < |observed| {
        assert (observed + [o])[k] == observed[k];
      }
    }
  }
}
