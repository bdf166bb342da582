/** Episode schemas (apps/api/src/schemas/episode.py): the generation status
    and stage literals, and the field bounds pydantic enforces. */
module EpisodeSchema {

  import opened Wrappers

  /** Instants (`datetime`) are opaque here. */
  type Timestamp = int

  predicate AtMost(s: Option<string>, n: int) {
    s.None? || |s.value| <= n
  }

  predicate AtLeastWhenPresent(x: Option<int>, n: int) {
    x.None? || x.value >= n
  }

  // ---------------------------------------------------------------------
  // GenerationStatus
  // ---------------------------------------------------------------------

  datatype GenerationStatus = Draft | Queued | Extracting | Generating | Synthesizing | Complete | Failed

  function StatusName(st: GenerationStatus): string {
    match st
    case Draft => "draft"
    case Queued => "queued"
    case Extracting => "extracting"
    case Generating => "generating"
    case Synthesizing => "synthesizing"
    case Complete => "complete"
    case Failed => "failed"
  }

  /** The `Literal[...]` check: exactly the seven names are accepted. */
  function ParseStatus(name: string): (r: Option<GenerationStatus>)
    ensures r.Some? ==> StatusName(r.value) == name
    ensures forall st :: StatusName(st) == name ==> r == Some(st)
  {
    if name == "draft" then Some(Draft)
    else if name == "queued" then Some(Queued)
    else if name == "extracting" then Some(Extracting)
    else if name == "generating" then Some(Generating)
    else if name == "synthesizing" then Some(Synthesizing)
    else if name == "complete" then Some(Complete)
    else if name == "failed" then Some(Failed)
    else None
  }

  /** A finished generation: the progress stream stops at these. */
  predicate IsFinishedName(name: string) {
    name == StatusName(Complete) || name == StatusName(Failed)
  }

  // ---------------------------------------------------------------------
  // GenerationProgress
  // ---------------------------------------------------------------------

  datatype Stage = StageExtracting | StageGenerating | StageSynthesizing | StageComplete

  function StageName(stage: Stage): string {
    match stage
    case StageExtracting => "extracting"
    case StageGenerating => "generating"
    case StageSynthesizing => "synthesizing"
    case StageComplete => "complete"
  }

  /** `stage` accepts four names; `queued` and `failed` are statuses but not stages. */
  function ParseStage(name: string): (r: Option<Stage>)
    ensures r.Some? ==> StageName(r.value) == name
    ensures forall stage :: StageName(stage) == name ==> r == Some(stage)
    ensures name == StatusName(Queued) || name == StatusName(Failed) ==> r.None?
  {
    if name == "extracting" then Some(StageExtracting)
    else if name == "generating" then Some(StageGenerating)
    else if name == "synthesizing" then Some(StageSynthesizing)
    else if name == "complete" then Some(StageComplete)
    else None
  }

  datatype GenerationProgress = GenerationProgress(
    stage: Stage,
    progress: int,
    celeryTaskId: Option<string>,
    errorMessage: Option<string>,
    startedAt: Option<Timestamp>,
    completedAt: Option<Timestamp>)
  {
    predicate Valid() { 0 <= progress <= 100 }
  }

  // ---------------------------------------------------------------------
  // EpisodeMetadata, EpisodeCreate, EpisodeUpdate
  // ---------------------------------------------------------------------

  datatype EpisodeMetadata = EpisodeMetadata(
    durationSeconds: Option<int>,
    fileSizeBytes: Option<int>,
    audioFormat: string,
    sampleRate: int,
    transcriptUrl: Option<string>,
    pubDate: Option<Timestamp>)
  {
    predicate Valid() {
      AtLeastWhenPresent(durationSeconds, 0) && AtLeastWhenPresent(fileSizeBytes, 0) && AtMost(transcriptUrl, 1000)
    }
  }

  /** `EpisodeMetadata()` with every default. */
  function DefaultEpisodeMetadata(): (m: EpisodeMetadata)
    ensures m.Valid()
    ensures m.audioFormat == "mp3" && m.sampleRate == 44100
    ensures m.durationSeconds.None? && m.fileSizeBytes.None? && m.transcriptUrl.None? && m.pubDate.None?
  {
    EpisodeMetadata(None, None, "mp3", 44100, None, None)
  }

  predicate ValidTitle(title: string) { 1 <= |title| <= 255 }

  datatype EpisodeCreate = EpisodeCreate(projectId: string, title: string, description: Option<string>, episodeNumber: Option<int>) {
    predicate Valid() {
      ValidTitle(title) && AtMost(description, 2000) && AtLeastWhenPresent(episodeNumber, 1)
    }
  }

  datatype EpisodeUpdate = EpisodeUpdate(title: Option<string>, description: Option<string>, episodeNumber: Option<int>, metadata: Option<EpisodeMetadata>) {
    predicate Valid() {
      && (title.None? || ValidTitle(title.value))
      && AtMost(description, 2000)
      && AtLeastWhenPresent(episodeNumber, 1)
      && (metadata.None? || metadata.value.Valid())
    }
  }

  /** Every field of an update may be left out. */
  function EmptyEpisodeUpdate(): (u: EpisodeUpdate)
    ensures u.Valid()
    ensures u.title.None? && u.description.None? && u.episodeNumber.None? && u.metadata.None?
  {
    EpisodeUpdate(None, None, None, None)
  }

  /** An update carries the same bounds as a create: the fields of a valid
      create, supplied as an update, pass, and every value an update accepts
      for a field a create would accept too. */
  lemma UpdateBoundsMatchCreate(c: EpisodeCreate, u: EpisodeUpdate)
    ensures c.Valid() ==> EpisodeUpdate(Some(c.title), c.description, c.episodeNumber, None).Valid()
    ensures u.Valid() && u.title.Some? ==> EpisodeCreate(c.projectId, u.title.value, u.description, u.episodeNumber).Valid()
  {
  }
}
