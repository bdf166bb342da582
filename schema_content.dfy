/** Content-source schemas (apps/api/src/schemas/content.py): the source
    kinds and the extraction metadata. */
module ContentSchema {

  import opened Wrappers
  import Json

  type Timestamp = int

  datatype SourceType = Url | File | Youtube | Text

  function SourceTypeName(t: SourceType): string {
    match t
    case Url => "url"
    case File => "file"
    case Youtube => "youtube"
    case Text => "text"
  }

  /** The `Literal['url', 'file', 'youtube', 'text']` check. */
  function ParseSourceType(name: string): (r: Option<SourceType>)
    ensures r.Some? ==> SourceTypeName(r.value) == name
    ensures forall t :: SourceTypeName(t) == name ==> r == Some(t)
  {
    if name == "url" then Some(Url)
    else if name == "file" then Some(File)
    else if name == "youtube" then Some(Youtube)
    else if name == "text" then Some(Text)
    else None
  }

  /** All three fields are required: a payload lacking one has no value of this type. */
  datatype ContentSourceCreate = ContentSourceCreate(episodeId: string, sourceType: SourceType, sourceData: Json.Object)

  /** Builds a create payload from optional raw fields, as validation does.
      `isUuid` is pydantic's `UUID` coercion of `episode_id`, which accepts
      several spellings and is given rather than modelled. */
  function ParseContentSourceCreate(episodeId: Option<string>, sourceType: Option<string>, sourceData: Option<Json.Object>, isUuid: string -> bool): (r: Option<ContentSourceCreate>)
    ensures r.Some? <==>
      && episodeId.Some? && isUuid(episodeId.value)
      && sourceData.Some? && sourceType.Some? && ParseSourceType(sourceType.value).Some?
    ensures r.Some? ==>
      && r.value.episodeId == episodeId.value && r.value.sourceData == sourceData.value
      && SourceTypeName(r.value.sourceType) == sourceType.value
  {
    if episodeId.None? || sourceType.None? || sourceData.None? then None
    else if !isUuid(episodeId.value) then None
    else match ParseSourceType(sourceType.value)
      case None => None
      case Some(t) => Some(ContentSourceCreate(episodeId.value, t, sourceData.value))
  }

  datatype ExtractionStatus = Pending | Success | Failed

  function ExtractionStatusName(s: ExtractionStatus): string {
    match s
    case Pending => "pending"
    case Success => "success"
    case Failed => "failed"
  }

  function ParseExtractionStatus(name: string): (r: Option<ExtractionStatus>)
    ensures r.Some? ==> ExtractionStatusName(r.value) == name
    ensures forall s :: ExtractionStatusName(s) == name ==> r == Some(s)
  {
    if name == "pending" then Some(Pending)
    else if name == "success" then Some(Success)
    else if name == "failed" then Some(Failed)
    else None
  }

  datatype ExtractionMetadata = ExtractionMetadata(
    extractedAt: Option<Timestamp>,
    wordCount: Option<int>,
    extractionStatus: ExtractionStatus,
    errorMessage: Option<string>)
  {
    predicate Valid() { wordCount.None? || wordCount.value >= 0 }
  }

  /** `ExtractionMetadata()`: pending, nothing extracted yet. */
  function DefaultExtractionMetadata(): (m: ExtractionMetadata)
    ensures m.Valid() && m.extractionStatus == Pending
    ensures m.extractedAt.None? && m.wordCount.None? && m.errorMessage.None?
  {
    ExtractionMetadata(None, None, Pending, None)
  }
}
