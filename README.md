# podcaststudiohub API core in Dafny

This project models the deterministic logic of the podcaststudiohub API service (`apps/api/src`) and proves properties of it. The service is written in Python with FastAPI. The model covers:

- **Input validators** (`utils/validators.py`):
  - the e-mail and UUID patterns, including the single trailing newline that `re.match` with `$` lets through;
  - the ordered password-strength checks;
  - the filename sanitiser;
  - the S3 key rules.
- **Pagination** (`schemas/common.py`): the query parameters (`offset`, `limit`, defaults and bounds) and the paginated response, with the page count the list endpoint computes.
- **Projects router** (`routers/projects.py`):
  - ownership-guarded get, update and delete;
  - creation;
  - the field-wise patch;
  - the paginated listing with per-project episode counts.
- **Generation router** (`routers/generation.py`):
  - the tenant guard and the empty-sources guard;
  - the split of content sources into URL, file and text lists;
  - the `"\n\n"` text join;
  - the queued state written after enqueueing;
  - the reset performed by regeneration;
  - the stop rule of the progress stream.
- **Authentication service** (`services/auth_service.py`):
  - the 72-byte UTF-8 cut applied before bcrypt on both hashing and verification;
  - the order of the login checks;
  - `authenticate`;
  - registration with its duplicate-e-mail guard.
- **Authentication middleware and dependencies** (`middleware/auth.py`, `dependencies.py`): the `Authorization: Bearer` header parser, the claim guards (a missing or falsy claim gives 401), the optional-user dependency that turns every 401 into `None`, and the current-user lookup.
- **Pydantic schemas** (`schemas/episode.py`, `project.py`, `auth.py`, `content.py`): closed literal sets as datatypes with parsers, and length and number bounds as `Valid()` predicates with the defaults.

How the model represents the system:

- **Database tables** are fields of classes whose methods change them. The classes are `UserStore`, `ProjectStore` and `GenerationService`.
- **Token verification and signing** are parameters. `verifier` is a partial function from a token to its claims, and `sign` turns claims into a token.
- **bcrypt** is an injective function of the truncated password: the constructor `Bcrypt`.
- **The task queue** is a sequence of enqueued requests.
- **Clocks and fresh UUIDs** are parameters.

Each Dafny file follows one source file:

| file | source |
|---|---|
| `validators.dfy` | `utils/validators.py` |
| `pagination.dfy` | `schemas/common.py` |
| `projects.dfy` | `routers/projects.py` |
| `generation.dfy` | `routers/generation.py` |
| `auth_service.dfy` | `services/auth_service.py` (module `Utf8` holds the encoder and the cut) |
| `auth_middleware.dfy` | `middleware/auth.py` |
| `dependencies.dfy` | `dependencies.py` |
| `schema_*.dfy` | the schema modules |

Shared helpers:

- `wrappers.dfy` holds `Option`/`Result`, HTTP errors and JSON values with Python truthiness.
- `strings.dfy` holds `str.split`, `str.startswith` and index search.

## Model

| member | source | states |
|---|---|---|
| Strings.Split | apps/api/src/middleware/auth.py:104 | `str.split` on one character gives at least one field, no field contains the separator, and field 0 is the text before the first separator |
| Strings.JoinSplit | apps/api/src/utils/validators.py:86 | splitting and re-joining on the same character gives back the string, so no character is lost or invented by the split |
| Validators.MatchesEmailIff | apps/api/src/utils/validators.py:19-20 | locating the first `@` and the last `.` accepts exactly the strings of the form local@domain.tld with the pattern's character classes and a TLD of at least two ASCII letters |
| Validators.ValidateEmail | apps/api/src/utils/validators.py:9-20 | `validate_email` is true exactly when the string, or the string minus one final newline, is in the pattern's language |
| Validators.EmailTrailingNewline | apps/api/src/utils/validators.py:19-20 | an accepted address is still accepted with one `"\n"` appended and rejected with two |
| Validators.NewlineEndNotEmail | apps/api/src/utils/validators.py:19-20 | no string ending in `"\n"` is in the pattern's language, because the address ends with letters |
| Validators.ValidatePasswordStrength | apps/api/src/utils/validators.py:40-72 | `(True, None)` exactly when all five requirements hold; otherwise the message is that of the first failing requirement, in the order length, upper, lower, digit, special |
| Validators.ShortPasswordMessage | apps/api/src/utils/validators.py:57-58 | a password under 8 characters gets the length message whatever else is wrong with it |
| Validators.AfterLast | apps/api/src/utils/validators.py:86 | `split(c)[-1]` is the longest suffix without `c`: it is the whole string or is preceded by `c` |
| Validators.KeepAllowed | apps/api/src/utils/validators.py:92 | the `re.sub` keeps only word characters, `-` and `.`, keeps nothing that was not there, and leaves an all-allowed string unchanged |
| Validators.KeepAllowedAppend | apps/api/src/utils/validators.py:92 | the `re.sub` works character by character in order: it distributes over concatenation, and keeps a single character exactly when it is a word character, `-` or `.` |
| Validators.ReplaceSpaces | apps/api/src/utils/validators.py:89 | the length is kept, no space is left, and only spaces change, each into `_` |
| Validators.BaseName | apps/api/src/utils/validators.py:86 | the last path component is a suffix of the path holding neither `/` nor `\`, and it is the longest such suffix: it is the whole path or is preceded by a separator |
| Validators.SanitizeFilename | apps/api/src/utils/validators.py:75-94 | for every word class, the sanitised name contains no `/`, `\` or space, only word characters, `-` and `.`, and is no longer than the last path component |
| Validators.SanitizeReplacesSpaces | apps/api/src/utils/validators.py:85-94 | in a name without separators made of allowed characters and spaces, the length is kept, every space becomes `_` and every other character stays in place |
| Validators.SanitizeKeepsSafe | apps/api/src/utils/validators.py:85-94 | a name that is already safe is returned unchanged, so `..` comes back as `..` |
| Validators.SanitizeIdempotent | apps/api/src/utils/validators.py:85-94 | sanitising twice gives the same as sanitising once |
| Validators.SanitizeIgnoresDirectories | apps/api/src/utils/validators.py:86 | whatever precedes the last `/` or `\` has no effect on the result |
| Validators.ContainsDoubleSlash | apps/api/src/utils/validators.py:108 | true exactly when two consecutive characters are `/` |
| Validators.ContainsControlChar | apps/api/src/utils/validators.py:113 | true exactly when some character has code below 32 |
| Validators.ValidateS3Key | apps/api/src/utils/validators.py:97-116 | a key is refused exactly when it is empty, starts with `/`, contains `//` or contains a character below 32 |
| Validators.S3KeyTrailingSlashAndDelete | apps/api/src/utils/validators.py:107-116 | a trailing `/` and the character 127 are accepted, `a//b` is not |
| Validators.ValidateUuid | apps/api/src/utils/validators.py:119-133 | the positional check accepts exactly the 8-4-4-4-12 hex groups of the pattern, either case, plus one trailing newline |
| Validators.UuidLayoutIff | apps/api/src/utils/validators.py:129-133 | 36 characters with dashes at 8, 13, 18, 23 and hex digits elsewhere is the same language as the grouped pattern |
| Pagination.PaginationParams.Offset | apps/api/src/schemas/common.py:12-15 | the offset of a valid request is non-negative, a multiple of the page size, with quotient `page - 1` |
| Pagination.PaginationParams.Limit | apps/api/src/schemas/common.py:17-20 | the limit lies between 1 and 100 |
| Pagination.DefaultParams | apps/api/src/schemas/common.py:9-10 | the defaults are valid and give offset 0 and limit 20 |
| Pagination.PagesTile | apps/api/src/schemas/common.py:12-20 | page `p + 1` starts exactly where page `p` ends |
| Pagination.RowOnUniquePage | apps/api/src/schemas/common.py:12-20 | every row index lies in the window of exactly one page |
| Pagination.TotalPagesIsCeiling | apps/api/src/routers/projects.py:59 | the page count is the ceiling of total / page size: 0 for no rows, otherwise just enough pages to hold every row |
| Pagination.MakePage | apps/api/src/routers/projects.py:54-60 | the response echoes page and page size, satisfies the response bounds, and its page count is the ceiling |
| EpisodeSchema.ParseStatus | apps/api/src/schemas/episode.py:10 | exactly the seven status names are accepted, each to its own value |
| EpisodeSchema.ParseStage | apps/api/src/schemas/episode.py:36 | exactly the four stage names are accepted; `queued` and `failed` are not stages |
| EpisodeSchema.DefaultEpisodeMetadata | apps/api/src/schemas/episode.py:13-20 | the defaults are valid, `mp3` and 44100, with nothing else set |
| EpisodeSchema.EmptyEpisodeUpdate | apps/api/src/schemas/episode.py:70-75 | every update field may be left out |
| EpisodeSchema.UpdateBoundsMatchCreate | apps/api/src/schemas/episode.py:53-75 | a valid create's fields pass as an update, and an update's fields pass the create bounds |
| ProjectSchema.DefaultPodcastMetadata | apps/api/src/schemas/project.py:9-17 | the defaults are valid: language `en`, not explicit, nothing else set |
| ProjectSchema.ProjectCreateWithoutMetadata | apps/api/src/schemas/project.py:32-36 | a create without metadata gets the default metadata, and its validity is the title and description bounds |
| ProjectSchema.UpdateBoundsMatchCreate | apps/api/src/schemas/project.py:51-55 | update and create share the title, description and metadata bounds |
| ProjectSchema.ResponseOf | apps/api/src/schemas/project.py:60-70 | a response built from a row reports `episode_count` 0 unless overwritten |
| AuthSchema.NewTokenResponse | apps/api/src/schemas/auth.py:53-58 | a token response that omits `token_type` says `bearer` |
| AuthSchema.UserCreateBounds | apps/api/src/schemas/auth.py:9-13 | without a name, registration is valid exactly when the password has 8 to 100 characters; a password outside those bounds is refused whatever the name |
| ContentSchema.ParseSourceType | apps/api/src/schemas/content.py:10 | exactly `url`, `file`, `youtube`, `text` are accepted |
| ContentSchema.ParseContentSourceCreate | apps/api/src/schemas/content.py:13-17 | a payload is accepted exactly when all three fields are present, `episode_id` passes the UUID coercion and the type is one of the four; the accepted fields are carried over unchanged |
| ContentSchema.ParseExtractionStatus | apps/api/src/schemas/content.py:76 | exactly `pending`, `success`, `failed` are accepted |
| ContentSchema.DefaultExtractionMetadata | apps/api/src/schemas/content.py:72-77 | the defaults are valid and pending, with nothing extracted |
| AuthMiddleware.VerifyJwtToken | apps/api/src/middleware/auth.py:27-37 | the payload is returned exactly when the verifier yields a non-empty one; otherwise 401 "Invalid or expired token" |
| AuthMiddleware.GetCurrentUserId | apps/api/src/middleware/auth.py:53-62 | `sub` is returned exactly when present and truthy; otherwise 401, with "User ID not found in token" once the token itself verified |
| AuthMiddleware.GetCurrentTenantId | apps/api/src/middleware/auth.py:78-87 | `tenant_id` is returned exactly when present and truthy; otherwise 401, with "Tenant ID not found in token" once the token verified |
| AuthMiddleware.UserIdGuard | apps/api/src/middleware/auth.py:53-62 | a missing or empty `sub` is refused, a non-empty string `sub` is returned as it is |
| AuthMiddleware.ExtractTokenFromHeader | apps/api/src/middleware/auth.py:100-104 | None without a header or without the case-sensitive `Bearer ` prefix; otherwise the longest space-free prefix of what follows, which always exists |
| AuthMiddleware.BearerToken | apps/api/src/middleware/auth.py:104 | after the prefix, `split(" ")[1]` exists and is the text up to the next space |
| AuthMiddleware.ExtractTokenEmptyAfterPrefix | apps/api/src/middleware/auth.py:100-104 | `Bearer ` gives the empty token |
| AuthMiddleware.ExtractTokenStopsAtSpace | apps/api/src/middleware/auth.py:100-104 | `Bearer a b` gives `a` |
| AuthMiddleware.ExtractTokenDoubleSpace | apps/api/src/middleware/auth.py:100-104 | `Bearer  a` gives the empty token |
| AuthMiddleware.ExtractTokenLowerCaseScheme | apps/api/src/middleware/auth.py:101-102 | `bearer a` gives None |
| Utf8.Truncate | apps/api/src/services/auth_service.py:27-28 | the cut is a prefix whose encoding fits the budget and that the next character would overflow |
| Utf8.TruncateIsLongest | apps/api/src/services/auth_service.py:27-28 | every longer prefix is over the budget |
| Utf8.TruncateFits | apps/api/src/services/auth_service.py:27-28 | a string within the budget is kept whole |
| Utf8.TruncateIgnoresTail | apps/api/src/services/auth_service.py:27-28 | once a prefix reaches the budget, what follows it does not matter |
| Utf8.CutBytes | apps/api/src/services/auth_service.py:27-28 | the first 72 bytes are the encoding of the cut followed by an incomplete piece of the next character, which is what the lenient decode drops |
| AuthService.TruncatePassword | apps/api/src/services/auth_service.py:27-28 | the truncated password encodes to at most 72 bytes, is a prefix of the password, and equals it when it already fits |
| AuthService.VerifyAgainstHash | apps/api/src/services/auth_service.py:23-36 | a password verifies against its own hash, and another verifies exactly when both agree after truncation |
| AuthService.SharedPrefixVerifies | apps/api/src/services/auth_service.py:23-36 | two passwords sharing a prefix of at least 72 bytes verify against each other's hash |
| AuthService.IndexOfFirst | apps/api/src/services/auth_service.py:38-50 | the lookups by e-mail and by id return the position of the first user with that key, or the length when no user has it |
| AuthService.CheckLogin | apps/api/src/services/auth_service.py:79-92 | for the first user with the e-mail: success exactly when the password matches and the account is active, "Invalid email or password" on a wrong password, "User account is disabled" on a matching password of an inactive account; an unknown e-mail gives "Invalid email or password" |
| AuthService.Authenticate | apps/api/src/services/auth_service.py:115-124 | the first user with the e-mail is returned exactly when the password matches, whether active or not; otherwise, and for an unknown e-mail, None |
| AuthService.LoginOutcome | apps/api/src/services/auth_service.py:79-124 | with unique e-mails, the outcome for a stored user is decided by password then activity: wrong password, disabled, or success with that user |
| AuthService.LoginAgreesWithAuthenticate | apps/api/src/services/auth_service.py:79-124 | login succeeds exactly when authenticate finds an active user; a wrong password and an unknown e-mail give the same error |
| AuthService.LoginClaims | apps/api/src/services/auth_service.py:99-103 | the claims are exactly `sub`, `email`, `tenant_id` of the user |
| AuthService.LoginTokens | apps/api/src/services/auth_service.py:98-113 | bearer tokens over those claims, the refresh token present, `expires_in` = minutes × 60 |
| AuthService.NewUser | apps/api/src/services/auth_service.py:59-71 | a new user is active, unverified, with no API keys and a hash its password verifies against |
| AuthService.UserStore.Register | apps/api/src/services/auth_service.py:52-77 | a duplicate e-mail is refused and nothing is inserted; otherwise exactly the new user is appended, and e-mails stay unique |
| AuthService.UserStore.Login | apps/api/src/services/auth_service.py:79-113 | on failure nothing changes; on success only that user's `last_login` is set and the tokens are returned |
| Dependencies.GetOptionalUser | apps/api/src/dependencies.py:128-159 | None without a `Bearer ` header; otherwise the `sub` of the `split(" ")[1]` token when it passes the guard, and None instead of every 401 |
| Dependencies.OptionalUserIsGuardedLookup | apps/api/src/dependencies.py:148-159 | the optional user is exactly the header parser followed by the claim guard, with failures turned into None |
| Dependencies.GetCurrentUser | apps/api/src/dependencies.py:40-52 | claim errors pass through; a `sub` naming no stored user gives 401 "User not found"; a returned user is stored and is the one the token names |
| Dependencies.CurrentUserFound | apps/api/src/dependencies.py:40-52 | with unique ids, a token naming a stored user yields that user |
| Projects.Patched | apps/api/src/routers/projects.py:134-140 | an update never touches `id`, `user_id` or `tenant_id` |
| Projects.PatchNeverClears | apps/api/src/routers/projects.py:135-140 | fields the patch leaves out are unchanged, supplied fields are replaced, and a present description is never cleared |
| Projects.PatchAlgebra | apps/api/src/routers/projects.py:135-140 | the empty patch is the identity, two patches compose into their merge, and a patch is idempotent |
| Projects.PatchKeepsValid | apps/api/src/routers/projects.py:135-140 | a valid patch keeps a valid row valid |
| Projects.EmptyPatch | apps/api/src/schemas/project.py:51-55 | the patch that omits every field is valid |
| Projects.NewProject | apps/api/src/routers/projects.py:70-76 | a new project takes owner and tenant from the current user and its content from the payload, and is valid when the payload is |
| Projects.ResponseWithCount | apps/api/src/routers/projects.py:110-112 | a response carries the row's fields and the given episode count |
| Projects.Window | apps/api/src/routers/projects.py:33-41 | offset/limit returns at most `limit` rows, the rows from `offset` on in order, none past the end |
| Projects.Without | apps/api/src/models/project.py:47 | the cascade removes every episode of the deleted project and no other |
| Projects.ProjectStore.GetProject | apps/api/src/routers/projects.py:87-112 | 404 "Project not found" exactly when the id is missing or owned by another user; otherwise that row with its episode count |
| Projects.ProjectStore.CreateProject | apps/api/src/routers/projects.py:63-84 | exactly one row is added, owned by the current user in that user's tenant, and the response reports 0 episodes |
| Projects.ProjectStore.UpdateProject | apps/api/src/routers/projects.py:115-152 | 404 and no change unless owned; otherwise only that row changes, by the patch |
| Projects.ProjectStore.DeleteProject | apps/api/src/routers/projects.py:155-174 | 404 and no change unless owned; otherwise exactly that row and its episodes go |
| Projects.ProjectStore.PageItems | apps/api/src/routers/projects.py:43-52 | one response per listed id, in order, each with its episode count |
| Projects.ProjectStore.OrderCountsOwned | apps/api/src/routers/projects.py:27-30 | the count query and the listing agree: an ordering that names each of the user's projects once has as many entries as the user has projects |
| Projects.ProjectStore.ListProjects | apps/api/src/routers/projects.py:20-60 | the page holds at most `page_size` of the user's projects, those at positions `offset…` of the ordering, each with its count; total is the user's project count and the page count its ceiling |
| Generation.PartitionAppend | apps/api/src/routers/generation.py:62-70 | the three lists of a concatenation are the concatenations of the lists, so source order is kept |
| Generation.PartitionSingle | apps/api/src/routers/generation.py:62-70 | url and youtube sources add their `url`, file sources their `s3_key`, text sources their `content`, other kinds nothing |
| Generation.PartitionMembers | apps/api/src/routers/generation.py:62-70 | every url or youtube source contributes its `url`, every file source its `s3_key`, every text source its `content`, and every entry of a list comes from a source of that list's kind |
| Generation.UrlsOf | apps/api/src/routers/generation.py:62-66 | `urls` has at most one entry per source |
| Generation.FilePathsOf | apps/api/src/routers/generation.py:62-68 | `file_paths` has at most one entry per source |
| Generation.TextsOf | apps/api/src/routers/generation.py:62-70 | `text_content` has at most one entry per source |
| Generation.PartitionCounts | apps/api/src/routers/generation.py:62-70 | no source lands in two lists, and none of a known kind is lost |
| Generation.NoUrlsIff | apps/api/src/routers/generation.py:62-75 | `urls` is empty exactly when no source is url or youtube |
| Generation.NoTextsIff | apps/api/src/routers/generation.py:69-77 | the text list is empty exactly when no source is text |
| Generation.Partition | apps/api/src/routers/generation.py:57-70 | the loop builds exactly the three specified lists |
| Generation.JoinTexts | apps/api/src/routers/generation.py:77 | the joined text starts with the first piece and ends with the last |
| Generation.JoinTextsSeparates | apps/api/src/routers/generation.py:77 | one piece passes through unchanged, and consecutive pieces are separated by exactly one `"\n\n"` |
| Generation.TextArgument | apps/api/src/routers/generation.py:77 | an empty list gives None; a non-string piece makes the join fail with 500; otherwise the pieces joined with blank lines |
| Generation.Plan | apps/api/src/routers/generation.py:45-78 | 400 exactly when the episode has no sources, 500 exactly when a text piece is not a string; otherwise `urls` and `file_paths` are None exactly when empty and are the partition's lists when present, and the text is None exactly when no text source exists and is the join of the texts when present |
| Generation.SourcesOf | apps/api/src/routers/generation.py:46-49 | every source returned belongs to that episode and is stored, and every stored source of that episode is returned |
| Generation.SourcesOfAppend | apps/api/src/routers/generation.py:46-49 | the query keeps matching rows in table order: it distributes over concatenation |
| Generation.SourcesOfSingle | apps/api/src/routers/generation.py:46-49 | a single row is kept exactly when it belongs to the episode |
| Generation.QueuedProgress | apps/api/src/routers/generation.py:82-86 | the progress is exactly `{stage: "queued", progress: 0, celery_task_id: id}` |
| Generation.StopAfter | apps/api/src/routers/generation.py:122-137 | the number of polls streamed: at least one when any poll exists, every poll before the last streamed one unfinished, and an early stop only right after a complete or failed status |
| Generation.StopAfterReaches | apps/api/src/routers/generation.py:122-137 | past unfinished polls the stream goes on, and it stops right at the first finished one |
| Generation.StreamShape | apps/api/src/routers/generation.py:122-137 | a client receives at least one event, no finished status before the last event, and a finished last event unless the polls ran out |
| Generation.EventsFor | apps/api/src/routers/generation.py:126-133 | one event per poll, carrying that poll's status and progress |
| Generation.GenerationService.GeneratePodcast | apps/api/src/routers/generation.py:22-94 | 404 outside the tenant, 400 without sources, 500 when the join fails, each with nothing changed or enqueued; otherwise one request enqueued and the episode queued with the fresh progress |
| Generation.GenerationService.RegeneratePodcast | apps/api/src/routers/generation.py:153-182 | 404 with no change; otherwise the draft reset is kept even when generation then fails, and success is as for generate |
| Generation.GenerationService.StreamProgress | apps/api/src/routers/generation.py:97-140 | 404 outside the tenant; otherwise the events of the polls up to and including the first complete or failed one |

## Left out

- `validate_url` (apps/api/src/utils/validators.py:23-37): it depends on `urllib.parse.urlparse`, which is not part of this model. Pydantic's `EmailStr` check is also left out.
- Validators.ValidatePasswordStrength: `\d` is taken as the ASCII digits, whereas Python's `\d` also matches other Unicode decimal digits.
- The Unicode-aware `\w` of `sanitize_filename` is not spelled out. It is the parameter `isWord` of `Validators.SanitizeFilename`, and the sanitiser lemmas hold for every word class.
- Utf8.Truncate: strings with lone surrogates cannot be represented (a Dafny `char` is a Unicode scalar value). Python's `encode` raises on them.
- AuthService.VerifyPassword: bcrypt's salt, cost and hash format are not modelled; only injectivity on the truncated password is.
- AuthService.LoginTokens: JWT encoding and signing (apps/api/src/utils/jwt.py) are the parameter `sign`, and the clock is the parameter `now`.
- Verifying a JWT is the parameter `verifier`. The `HTTPBearer` scheme that hands `get_current_user` its credentials is not modelled; the token is an input.
- ContentSchema.ParseContentSourceCreate: pydantic's `UUID` coercion of `episode_id` is the parameter `isUuid`. It accepts more spellings than Validators.ValidateUuid (no dashes, braces, a `urn:uuid:` prefix), so the two are kept apart.
- The other `UUID`-typed schema fields (`project_id` of `EpisodeCreate` and the ids of the response schemas) are plain strings, and their coercion is not modelled.
- Dependencies.GetCurrentUser: a `sub` that is not a string is treated as matching no user. A string that is not a UUID, compared with the UUID column, may make the database raise instead of returning no row.
- `get_current_user_id` and `get_tenant_id` in apps/api/src/dependencies.py only delegate to the middleware functions, so they have no members of their own. `get_db_with_tenant` sets a database session variable and is not modelled.
- Projects.ProjectStore.ListProjects: the `ORDER BY created_at DESC` result is the input `order`, because creation timestamps are not modelled.
- Projects.ProjectStore.CreateProject: the new id from `uuid4` is a parameter assumed fresh.
- Projects.ProjectStore.DeleteProject: the cascade removes the project's episodes. Their content sources and other dependent rows are outside this model.
- Generation.GenerationService.GeneratePodcast: the Celery enqueue is abstract; it records the request under a given task id. apps/api/src/tasks/podcast_generation.py is not part of this model. Its `generate_podcast_task` declares no `file_paths` or `text_content` parameters, and what the queue library does with those keyword arguments is not modelled.
- Generation.UrlsOf: its own contract gives only the length bound. Which values land in the list and in what order is stated by Generation.PartitionSingle, Generation.PartitionAppend and Generation.PartitionMembers.
- Generation.FilePathsOf: as for Generation.UrlsOf, the contents are stated by the partition lemmas.
- Generation.TextsOf: as for Generation.UrlsOf, the contents are stated by the partition lemmas.
- Generation.SourcesOf: the query has no `ORDER BY`, so the model takes the table's own order.
- Generation.GenerationService.StreamProgress: the polls are a finite input sequence. A generation that never finishes (an endless stream) is represented only by its finite prefixes. The 2-second sleep and the `data: …` SSE framing with `json.dumps` are left out.
- The audio composition, podcast generation, S3, distribution and encryption tasks and services call pydub, podcastfy, boto3 and pgcrypto, and are not part of this model.
- The remaining code is not part of this model:
  - `apps/api/src/routers/episodes.py`: its update reads `episode_metadata`, which `EpisodeUpdate` does not declare;
  - `apps/api/src/routers/content.py` and `apps/api/src/routers/auth.py`;
  - the tenant and CORS middleware;
  - the ORM models and migrations;
  - configuration and the Celery worker setup.
- Async sessions, commits and refreshes, and `created_at`/`updated_at` timestamps are not modelled.
