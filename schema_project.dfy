/** Project schemas (apps/api/src/schemas/project.py): podcast RSS metadata,
    create and update payloads, and their length bounds and defaults. */
module ProjectSchema {

  import opened Wrappers

  predicate AtMost(s: Option<string>, n: int) {
    s.None? || |s.value| <= n
  }

  datatype PodcastMetadata = PodcastMetadata(
    author: Option<string>,
    category: Option<string>,
    language: string,
    explicit: bool,
    imageUrl: Option<string>,
    websiteUrl: Option<string>,
    copyright: Option<string>)
  {
    predicate Valid() {
      && AtMost(author, 255) && AtMost(category, 100) && |language| <= 10
      && AtMost(imageUrl, 1000) && AtMost(websiteUrl, 1000) && AtMost(copyright, 255)
    }
  }

  /** `PodcastMetadata()`: language "en", not explicit, nothing else set. */
  function DefaultPodcastMetadata(): (m: PodcastMetadata)
    ensures m.Valid()
    ensures m.language == "en" && !m.explicit
    ensures m.author.None? && m.category.None? && m.imageUrl.None? && m.websiteUrl.None? && m.copyright.None?
  {
    PodcastMetadata(None, None, "en", false, None, None, None)
  }

  predicate ValidTitle(title: string) { 1 <= |title| <= 255 }

  datatype ProjectCreate = ProjectCreate(title: string, description: Option<string>, podcastMetadata: PodcastMetadata) {
    predicate Valid() {
      ValidTitle(title) && AtMost(description, 2000) && podcastMetadata.Valid()
    }
  }

  /** A create payload that leaves `podcast_metadata` out gets the default. */
  function ProjectCreateWithoutMetadata(title: string, description: Option<string>): (c: ProjectCreate)
    ensures c.title == title && c.description == description
    ensures c.podcastMetadata == DefaultPodcastMetadata()
    ensures c.Valid() <==> ValidTitle(title) && AtMost(description, 2000)
  {
    ProjectCreate(title, description, DefaultPodcastMetadata())
  }

  datatype ProjectUpdate = ProjectUpdate(title: Option<string>, description: Option<string>, podcastMetadata: Option<PodcastMetadata>) {
    predicate Valid() {
      && (title.None? || ValidTitle(title.value))
      && AtMost(description, 2000)
      && (podcastMetadata.None? || podcastMetadata.value.Valid())
    }
  }

  /** An update has the bounds of a create, field by field. */
  lemma UpdateBoundsMatchCreate(c: ProjectCreate, u: ProjectUpdate)
    ensures c.Valid() ==> ProjectUpdate(Some(c.title), c.description, Some(c.podcastMetadata)).Valid()
    ensures u.Valid() && u.title.Some? ==>
      ProjectCreate(u.title.value, u.description, if u.podcastMetadata.Some? then u.podcastMetadata.value else DefaultPodcastMetadata()).Valid()
  {
  }

  /** `ProjectResponse`: the stored project plus its episode count. */
  datatype ProjectResponse = ProjectResponse(
    id: string,
    userId: string,
    tenantId: string,
    title: string,
    description: Option<string>,
    podcastMetadata: PodcastMetadata,
    episodeCount: int)

  /** `ProjectResponse.model_validate(project)`: the count takes its default. */
  function ResponseOf(id: string, userId: string, tenantId: string, title: string,
                      description: Option<string>, podcastMetadata: PodcastMetadata): (r: ProjectResponse)
    ensures r.episodeCount == 0
    ensures r.id == id && r.userId == userId && r.tenantId == tenantId
    ensures r.title == title && r.description == description && r.podcastMetadata == podcastMetadata
  {
    ProjectResponse(id, userId, tenantId, title, description, podcastMetadata, 0)
  }
}
