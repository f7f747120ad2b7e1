# fumu API: a verified model of its services

fumu is an AI video studio. A user owns **projects**. Each project holds ordered **scenes**: a prompt, plus an image or a video clip. The user keeps reusable **characters**; a character's seed and embedding keep its appearance the same from scene to scene.

The API is a NestJS server over one relational store (Prisma). Its services:

- create, read, update and delete the user's rows, and touch only rows the user owns;
- use an identity provider (Clerk) for accounts, through a webhook and a bearer-token guard;
- send generation requests to AI providers and record each one as a *generation job*;
- compose a project's completed scenes into one movie with an encoder (ffmpeg).

A composition request is queued; a queue worker (BullMQ) runs it later.

The project models these services as Dafny modules, one per source module:

- `Store.Database` is the store: a class whose tables are `seq` fields, with unique keys as its invariant.
- Each service operation is a method that changes that state or a function that queries it. Its contract states:
  - the rows the operation writes;
  - the rows it leaves alone;
  - the error it reports, with the exact message;
  - for queries, what the result contains and in which order.
- `Files.FileSystem` holds the set of files and directories the encoder writes and the cleanup deletes.
- `VideoQueue.Queue` holds the queue entries with their states, retries, retention and cleaning.
- Pure computations are functions with lemmas about them:
  - the character seed (RFC 4648 base 64 over UTF-8, with a decoding round trip);
  - the encoder command lines;
  - the history limit (JavaScript `parseInt`);
  - the statistics.
- Anything the services cannot see becomes a parameter:
  - the encoder's success on a command (`run: Invocation -> bool`);
  - the AI providers (total functions to a response);
  - clocks, generated ids and uuids;
  - a store or filesystem error where the code handles one.

Modules: `Wrappers`, `Text`, `Base64`, `Entities`, `Tables` (ordered tables with keys, filters and stable sorting), `Store`, `Files`, `Encoder`, `Guard`, `Auth`, `Webhook`, `Projects`, `Scenes`, `Characters`, `AiGeneration`, `VideoService`, `VideoQueue`, `VideoController`.

## Model

| member | source | states |
|---|---|---|
| Guard.Authorize | apps/api/src/modules/auth/clerk-auth.guard.ts:6-28 | A missing header, or one not starting with `Bearer `, gives "No authorization token provided". A token of 10 UTF-16 units or fewer gives "Invalid token". Otherwise the demo user is authorized. Each direction is an if-and-only-if. |
| Guard.SameLengthSameDecision | apps/api/src/modules/auth/clerk-auth.guard.ts:14-21 | The decision depends only on the token's length: two bearer headers whose tokens have the same UTF-16 length are decided alike. |
| Guard.HeaderLength | apps/api/src/modules/auth/clerk-auth.guard.ts:14 | `substring(7)` removes exactly the seven units of `Bearer `. |
| Text.Utf16Length | apps/api/src/modules/auth/clerk-auth.guard.ts:18 | `length` counts UTF-16 units: between one and two per character, and exactly one per character when all lie in the Basic Multilingual Plane. |
| Guard.CanActivate | apps/api/src/modules/auth/clerk-auth.guard.ts:6-28 | It succeeds exactly when `Authorize` does, and then attaches the demo user to the request. Otherwise it fails with `Authorize`'s message and leaves the request's user unchanged. |
| Guard.Request.constructor | apps/api/src/modules/auth/clerk-auth.guard.ts:8 | A request carries its authorization header and no user yet. |
| Auth.AtMostOnePerEmail | apps/api/src/modules/auth/auth.service.ts:11-25 | Under unique emails, exactly one user has an email present in the table, and none has any other email. |
| Auth.Refreshed | apps/api/src/modules/auth/auth.service.ts:13-16 | The upsert's update branch keeps the id, email, provider fields, plan and creation time, stamps `updatedAt`, and writes the supplied name; a `null` name clears the stored one. |
| Auth.UpsertedOnePerEmail | apps/api/src/modules/auth/auth.service.ts:11-25 | After an upsert exactly one user has the email. The table grows by one row only when the email was new. |
| Auth.CreateOrUpdateUser | apps/api/src/modules/auth/auth.service.ts:9-32 | The user with that email is refreshed in place, or a new `clerk` user on the `free` plan is appended. A store error gives "Failed to create or update user" and the table unchanged. Emails and ids stay unique. |
| Auth.UserByClerkId | apps/api/src/modules/auth/auth.service.ts:34-38 | The result is the first user whose provider id matches, or nothing exactly when no user matches. |
| Auth.DeleteUser | apps/api/src/modules/auth/auth.service.ts:54-58 | The user with that id is removed and returned; every other user stays. A missing id gives the store's "Record to delete does not exist." and no change. |
| Auth.RemoveKeyEmails | apps/api/src/modules/auth/auth.service.ts:54-58 | Deleting a user keeps emails unique. |
| Webhook.DisplayName | apps/api/src/modules/auth/auth.controller.ts:19-21 | "first last" when both names are non-empty; the first name when only it is non-empty; otherwise the last name. |
| Webhook.DisplayNameParts | apps/api/src/modules/auth/auth.controller.ts:19-21 | The name is non-empty exactly when one of its parts is. A non-empty first name starts it. |
| Webhook.HandleClerkWebhook | apps/api/src/modules/auth/auth.controller.ts:9-30 | A created or updated event without an email address is refused with the TypeError the code raises on `email_addresses[0].email_address`, and changes nothing. With an email it is an upsert of the first email with the display name. A delete event removes the user whose store id equals the Clerk id and fails when there is none. Any other event succeeds and changes nothing. |
| Projects.OwnedByCount | apps/api/src/modules/projects/projects.service.ts:48-65 | The owner filter `{ id, userId }` matches one project when the user owns it and none otherwise. |
| Projects.CreateProject | apps/api/src/modules/projects/projects.service.ts:8-20 | A new project with a fresh id, the given fields and the user as owner is appended; the other tables are unchanged. |
| Projects.UserProjects | apps/api/src/modules/projects/projects.service.ts:22-31 | The result is a permutation of the user's projects (each exactly as often as the table holds it), newest first. |
| Projects.ProjectById | apps/api/src/modules/projects/projects.service.ts:33-46 | Nothing unless the user owns the project. Otherwise the project; its scenes as a permutation of the project's scenes, in ascending `order`; and its characters as a permutation of the characters attached to it. |
| Projects.UpdateProject | apps/api/src/modules/projects/projects.service.ts:48-56 | The count is 1 when the user owns the project and 0 otherwise. Only the owned row is patched; the title and description change only where supplied. |
| Projects.DeleteProject | apps/api/src/modules/projects/projects.service.ts:58-65 | The count is 1 or 0 as for the update. Exactly the owned row is removed. |
| Scenes.CreateScene | apps/api/src/modules/scenes/scenes.service.ts:8-37 | Refused with "Project not found or access denied" unless the user owns the project. Otherwise a `pending` `openai` scene with the given prompt, order and title and no media is appended. |
| Scenes.ProjectScenes | apps/api/src/modules/scenes/scenes.service.ts:39-56 | Refused unless the user owns the project. Otherwise a permutation of the project's scenes, in ascending `order`. |
| Scenes.SceneById | apps/api/src/modules/scenes/scenes.service.ts:58-71 | A scene is returned only when its project belongs to the user; an unknown id is refused. |
| Scenes.SceneByIdExact | apps/api/src/modules/scenes/scenes.service.ts:58-71 | With unique ids, it returns the stored scene exactly when its project is the user's, and "Scene not found or access denied" otherwise. |
| Scenes.ApplyPatch | apps/api/src/modules/scenes/scenes.service.ts:89-94 | The update keeps the id, project, order, model and creation time and stamps `updatedAt`. Each of title, prompt, image URL, video URL, thumbnail, duration, metadata and status takes the supplied value and keeps the stored one when none is supplied. |
| Scenes.UpdateScene | apps/api/src/modules/scenes/scenes.service.ts:73-99 | Fails exactly when the scene lookup fails, and then changes nothing. Otherwise only that scene's row becomes the patched scene. |
| Scenes.DeleteScene | apps/api/src/modules/scenes/scenes.service.ts:101-107 | Returns the lookup's result. On success exactly that scene is removed. |
| Scenes.DeleteRow | apps/api/src/modules/scenes/scenes.service.ts:101-107 | Removing a stored row by its unique id removes that row and only it. |
| Scenes.LastOrder | apps/api/src/modules/scenes/scenes.service.ts:120-127 | No order applies to a scene exactly when no update names it. |
| Scenes.ReorderedAt | apps/api/src/modules/scenes/scenes.service.ts:120-127 | After the updates, each scene has the order of the last update naming it, or its old order. Nothing else about it changes. |
| Scenes.ReorderScenes | apps/api/src/modules/scenes/scenes.service.ts:109-131 | Refused unless the user owns the project. Otherwise every update is sent at once (`Promise.all`): each update naming an existing scene is written, and one naming a missing scene makes the call fail with "Record to update not found.". On success the result is the project's scenes in their new order. |
| Scenes.ApplyOrderUpdates | apps/api/src/modules/scenes/scenes.service.ts:120-127 | The loop computes the sequential reordering, keeps the ids, and reports a missing scene exactly when one is named. |
| Scenes.SetOrder | apps/api/src/modules/scenes/scenes.service.ts:120-125 | One `scene.update({ where: { id }, data: { order } })`: the scene with that id gets the order, and every other scene is unchanged. |
| Scenes.Reordered | apps/api/src/modules/scenes/scenes.service.ts:120-127 | All the updates together keep the number of scenes and change nothing but the `order` column. |
| Scenes.Durations | apps/api/src/modules/scenes/scenes.service.ts:156 | Each scene contributes `duration \|\| 0`. |
| Scenes.StatusCounts | apps/api/src/modules/scenes/scenes.service.ts:150-155 | The four status counts never exceed the scene count. They add up to it when every status is one of the four. |
| Scenes.StatsOf | apps/api/src/modules/scenes/scenes.service.ts:148-159 | The total is the number of scenes and the duration is the sum of the durations. Each of the completed, pending, processing and failed counts is the number of scenes with that status. |
| Scenes.ProjectSceneStats | apps/api/src/modules/scenes/scenes.service.ts:133-160 | Refused unless the user owns the project. Otherwise the result is `StatsOf` the project's own scenes: their number, total duration and count per status. |
| Characters.SeedOfBytes | apps/api/src/modules/characters/characters.service.ts:192 | The seed is at most 16 base 64 characters: 16 once the text has 12 bytes, else the padded length. |
| Characters.SeedOfBytesDecodes | apps/api/src/modules/characters/characters.service.ts:192 | Once the text has 12 bytes, the 16-character seed decodes to exactly its first 12 bytes. |
| Characters.Seed | apps/api/src/modules/characters/characters.service.ts:189-193 | The seed of `name-description-now` is 4 to 16 characters of the base 64 alphabet. |
| Characters.SeedDecodes | apps/api/src/modules/characters/characters.service.ts:189-193 | When the seed text has at least 12 UTF-8 bytes, the seed has 16 characters and decodes to its first 12 bytes. |
| Characters.SeedOfLongName | apps/api/src/modules/characters/characters.service.ts:189-193 | A name of 12 or more UTF-8 bytes fixes the seed: the description and the clock do not affect it. This shows the seed is only as distinctive as the name allows. |
| Characters.SameNameSameSeed | apps/api/src/modules/characters/characters.service.ts:191-192 | Texts sharing a 12-byte prefix have the same seed. |
| Characters.CreationEmbedding | apps/api/src/modules/characters/characters.service.ts:27-33 | The embedding holds the seed, name and creation time. It holds a description and an image URL exactly when those are given, each with the given text, and nothing else. |
| Characters.CreateCharacter | apps/api/src/modules/characters/characters.service.ts:8-39 | An unlocked character with a fresh id, the given fields, the computed seed and the creation embedding is appended. |
| Characters.UserCharacters | apps/api/src/modules/characters/characters.service.ts:41-49 | A permutation of the user's characters, newest first. |
| Characters.ProjectCharacters | apps/api/src/modules/characters/characters.service.ts:51-73 | Refused unless the user owns the project. Otherwise a permutation of the characters attached to the project plus the user's unattached ones, newest first. |
| Characters.CharacterById | apps/api/src/modules/characters/characters.service.ts:75-88 | Only one of the user's characters with that id is returned. An unknown id gives "Character not found or access denied". |
| Characters.CharacterByIdExact | apps/api/src/modules/characters/characters.service.ts:75-88 | With unique ids, a stored character is returned exactly when it is the user's. |
| Characters.MergedEmbedding | apps/api/src/modules/characters/characters.service.ts:111-117 | The new embedding keeps every other stored member. Seed, name and `updatedAt` are overwritten. The description is always written: the given text, or `null` when there is none. Its keys are exactly the stored keys plus these four. |
| Characters.UpdatedCharacter | apps/api/src/modules/characters/characters.service.ts:90-130 | Identity, owner, project and creation time are kept, and `updatedAt` is stamped. Name, description, image URL and lock take the supplied value or keep the stored one. The seed and embedding are regenerated exactly when a non-empty name or description is supplied: the seed from the winning name and description, and the embedding merged from the stored one with that seed, name and description. Otherwise the seed is kept and the embedding is the supplied one or the stored one. |
| Characters.UpdateCharacter | apps/api/src/modules/characters/characters.service.ts:90-130 | Fails exactly when the lookup fails, and then changes nothing. Otherwise only that row becomes the updated character. |
| Characters.DeleteCharacter | apps/api/src/modules/characters/characters.service.ts:132-138 | Returns the lookup's result. On success exactly that character is removed. |
| Characters.SetLocked | apps/api/src/modules/characters/characters.service.ts:140-168 | Lock and unlock fail exactly when the lookup fails. Otherwise they set only `isLocked` and `updatedAt` on that row. |
| Characters.CharacterEmbedding | apps/api/src/modules/characters/characters.service.ts:170-173 | Fails exactly when the lookup fails; otherwise returns the stored embedding. |
| Characters.BuildCharacterPrompt | apps/api/src/modules/characters/characters.service.ts:195-211 | The prompt starts with `Character: name` and ends with the consistency sentence and `Scene: prompt`. It has `, description` after the name exactly when the description is non-empty, and the exact total length. |
| Characters.GenerateCharacterPrompt | apps/api/src/modules/characters/characters.service.ts:175-187 | Fails exactly when the lookup fails. Otherwise it returns the character's seed, name and embedding, and its prompt is exactly `BuildCharacterPrompt` of the character's name and description and the scene prompt. |
| Characters.ProjectsOf | apps/api/src/modules/characters/characters.service.ts:229 | The distinct projects of the scenes, each once, in the order in which each first occurs among the scenes (`[...new Set(...)]`). |
| Characters.LastUsed | apps/api/src/modules/characters/characters.service.ts:230 | The latest creation time among the scenes, and none exactly when there are none. |
| Characters.CharacterUsageStats | apps/api/src/modules/characters/characters.service.ts:213-232 | Fails exactly when the lookup fails. Otherwise it counts every scene whose metadata mentions the character's id, lists their distinct projects in order of first occurrence, and gives the latest use time, or none exactly when the count is 0. |
| Encoder.DownloadInvocation | apps/api/src/modules/video/video.service.ts:202-210 | A download reads the URL and writes the scene file, with no options. |
| Encoder.ImageInvocation | apps/api/src/modules/video/video.service.ts:215-237 | An image becomes a 3-second looped clip (`-loop 1`, `-t 3`), encoded as H.264 in `yuv420p` and scaled to 1280x720, at the requested frame rate, or 24 when none is given. |
| Encoder.Crf | apps/api/src/modules/video/video.service.ts:268-283 | The quality maps to a CRF in {15, 18, 23, 28}; any other quality, a missing one included, gives 23. |
| Encoder.CrfOrder | apps/api/src/modules/video/video.service.ts:268-283 | Higher quality gives a strictly lower CRF. An unknown quality encodes like `medium` and like no quality. |
| Encoder.TransitionSeconds | apps/api/src/modules/video/video.service.ts:287 | A missing or zero duration gives a transition of `0.5` seconds; any other duration is written as its decimal text. |
| Encoder.XfadeFilter | apps/api/src/modules/video/video.service.ts:286-289 | The filter starts by cross-fading inputs 0 and 1 into `[v01]` and ends by cross-fading `[v01]` with input 2 into `[v02]`, both with the requested type and duration. |
| Encoder.XfadeNamesThirdInput | apps/api/src/modules/video/video.service.ts:286-289 | The crossfade filter always names a third video input `[2:v]`, whatever the clip count. |
| Encoder.MusicOptions | apps/api/src/modules/video/video.service.ts:292-301 | Background music adds five options and maps the audio of the input after the clips. |
| Encoder.OutputOptions | apps/api/src/modules/video/video.service.ts:256-301 | The options come in the source's order: the base options, then the optional scale, the CRF, the optional crossfade and the optional music. The total count is stated. |
| Encoder.OptionsIgnoreClipCount | apps/api/src/modules/video/video.service.ts:256-301 | Without music the options do not depend on the number of clips. |
| Encoder.FinalInvocation | apps/api/src/modules/video/video.service.ts:242-310 | The inputs are the clips in order, followed by the music URL when there is one. The output options are as above, writing to the output path. |
| Encoder.ComposeFinalVideo | apps/api/src/modules/video/video.service.ts:242-310 | The command the method assembles step by step is the final invocation. |
| Files.Dirname | apps/api/src/modules/video/video.service.ts:315-325 | `path.dirname`: `.`, `/`, or a proper prefix of the path ending before its last `/`. |
| Files.DirnameOfJoin | apps/api/src/modules/video/video.service.ts:101 | Joining a directory with a plain file name and taking the directory again gives the directory back. |
| Files.InDir | apps/api/src/modules/video/video.service.ts:318-320 | Exactly the files whose directory is the given one. |
| Files.FileSystem.MakeDir | apps/api/src/modules/video/video.service.ts:99 | `mkdir` adds the directory and nothing else. |
| Files.FileSystem.Write | apps/api/src/modules/video/video.service.ts:202-237 | An encoder run adds its output file and nothing else. |
| Files.FileSystem.CleanupTempFiles | apps/api/src/modules/video/video.service.ts:315-325 | When the directory exists, its files and the directory are removed and nothing else. Otherwise nothing changes, because the error is swallowed. |
| VideoService.SceneSource | apps/api/src/modules/video/video.service.ts:167-175 | A scene with a video URL is downloaded. One with only an image URL becomes an image clip. One with neither is skipped. |
| VideoService.SceneFile | apps/api/src/modules/video/video.service.ts:165 | Each clip is written in the temporary directory. |
| VideoService.ClipIndices | apps/api/src/modules/video/video.service.ts:163-176 | The clip positions are scene positions. |
| VideoService.ClipIndicesSelect | apps/api/src/modules/video/video.service.ts:163-176 | Exactly the scenes with a source yield a clip, in scene order. |
| VideoService.ClipJobsShape | apps/api/src/modules/video/video.service.ts:163-176 | The `j`-th clip command is the command for the `j`-th scene with a source, written to that scene's file name. |
| VideoService.RunCommand | apps/api/src/modules/video/video.service.ts:202-237 | One encoder command succeeds or fails; a successful one has written its output. |
| VideoService.RenderClip | apps/api/src/modules/video/video.service.ts:167-175 | A scene without a source is skipped and counts as done; otherwise its command is run. |
| VideoService.RenderClips | apps/api/src/modules/video/video.service.ts:163-176 | The loop succeeds exactly when every clip command does, and then returns the clip files in order. Every file it writes is in the temporary directory. |
| VideoService.FailedClipStops | apps/api/src/modules/video/video.service.ts:163-176 | One failed clip makes the whole run fail. |
| VideoService.ClipJobAt | apps/api/src/modules/video/video.service.ts:163-176 | A scene with a source has its clip command in the full list, right after the commands of the scenes before it. |
| VideoService.ProcessScenesToVideo | apps/api/src/modules/video/video.service.ts:152-197 | A movie is produced exactly when every clip succeeds, at least one clip exists and the final command succeeds. A produced movie is returned at the output path. On success the temporary directory, the movie in it included, is removed. |
| VideoService.CompletedScenes | apps/api/src/modules/video/video.service.ts:65-73 | A permutation of the project's `completed` scenes (each exactly once as stored), in ascending `order`. |
| VideoService.ComposeRecord | apps/api/src/modules/video/video.service.ts:84-95 | The record the composition creates: a video job of the user in `processing`, not yet started or finished, with no output and no error, whose input holds the project, the scene count and the options. |
| VideoService.OutputPath | apps/api/src/modules/video/video.service.ts:101 | The movie is written in the temporary directory. |
| VideoService.TempDir | apps/api/src/modules/video/video.service.ts:98 | The temporary directory name is never empty. |
| VideoService.Failure | apps/api/src/modules/video/video.service.ts:76-81 | A failed composition has an error and no URL. |
| VideoService.FinishedComposition | apps/api/src/modules/video/video.service.ts:111-139 | On success the record becomes `completed` with the URL object; on a failed render it becomes `failed` with "Failed to process scenes to video". The completion time is set and every other column is kept. |
| VideoService.CompositionResult | apps/api/src/modules/video/video.service.ts:111-139 | A successful render returns the URL and the record id; a failed one returns "Failed to process scenes to video". |
| VideoService.RunComposition | apps/api/src/modules/video/video.service.ts:97-146 | A `mkdir` error is returned, leaves the record `processing` and touches no file. Otherwise the render's outcome settles the record and is returned, and the file system ends as `RenderEffect` says. |
| VideoService.SettleComposition | apps/api/src/modules/video/video.service.ts:108-139 | Only the new record is rewritten, to its finished state. |
| VideoService.Render | apps/api/src/modules/video/video.service.ts:102-108 | A URL is returned exactly when the scenes render, and it is the output path. On success (with the movie named directly in the temporary directory) the cleanup has removed that directory and every file in it, the movie included, so the returned path names no file; on failure the directory stays, and every file added (the partial clips) lies in it. |
| VideoService.OutputPathInTempDir | apps/api/src/modules/video/video.service.ts:101 | When the uuid and the format hold no `/`, the movie's directory is exactly the temporary directory, the one `cleanupTempFiles` removes. |
| VideoService.ComposeMovie | apps/api/src/modules/video/video.service.ts:51-147 | Without an owned project it returns "Project not found"; without completed scenes, "No completed scenes found". Neither writes a record or a file. Otherwise a `processing` record with a fresh id is appended and settled by the render's outcome, and the file system ends as `RenderEffect` says for that record's temporary directory. |
| VideoService.OutputVideoUrl | apps/api/src/modules/video/video.service.ts:347 | The URL is read from an output object. Output stored as text (by the worker), or no output, gives no URL. |
| VideoService.OwnedJob | apps/api/src/modules/video/video.service.ts:337-339 | A job is found only when both its id and its owner match. |
| VideoService.StatusOf | apps/api/src/modules/video/video.service.ts:330-354 | An unowned or unknown job reports `not_found`. Otherwise it reports the job's status name, its error and the URL from its output. |
| VideoService.WorkerOutputHidesUrl | apps/api/src/modules/video/video.service.ts:347 | A job the queue worker completed reports no URL, because the worker stores its output as text. |
| VideoService.ProcessingHistory | apps/api/src/modules/video/video.service.ts:359-375 | Only the user's video jobs, each at most as often as the store holds it, newest first. Its length is the limit (10 by default) or the number of the user's video jobs, whichever is smaller; a negative limit takes that many from the oldest end. A non-negative limit keeps the newest: no job left out is newer than one returned. |
| Store.NewestJobs | apps/api/src/modules/video/video.service.ts:360-367 | `findMany` with a filter, `createdAt` descending and `take`: only matching jobs, each at most as often as stored, newest first; a non-negative `take` returns that many or all matching jobs, and keeps the newest. |
| Store.NewestKept | apps/api/src/modules/video/video.service.ts:365-366 | No job left out of a non-negative page is newer than one taken. |
| Tables.TopBy | apps/api/src/modules/video/video.service.ts:360-367 | Filter, stable ascending sort by a key, then `take`: the rows returned satisfy the filter, are sorted, are each at most as often as stored, and a non-negative page takes the first rows of the order. |
| Tables.Take | apps/api/src/modules/video/video.service.ts:367 | Prisma's `take`: a non-negative `n` keeps the first `n` rows (all of them when fewer), a negative `n` keeps the last `-n`. |
| VideoService.DeleteProcessingJob | apps/api/src/modules/video/video.service.ts:380-399 | Returns false and changes nothing unless the user owns the job. Otherwise exactly that job is removed. |
| VideoController.ComposeMovie | apps/api/src/modules/video/video.controller.ts:29-79 | A missing or empty project id is refused with 400 and writes nothing. Otherwise a `queued` video record with the request as text is appended. A `waiting` queue entry with the request's priority and delay is added under a fresh queue id, and it points at that record. |
| VideoController.HistoryLimit | apps/api/src/modules/video/video.controller.ts:116 | `parseInt(limit) \|\| 10`: never 0, and 10 when no limit is given. |
| VideoController.HistoryLimitOfNumeral | apps/api/src/modules/video/video.controller.ts:116 | A decimal numeral gives its value, except `0`, which gives the default. |
| VideoController.HistoryLimitWithoutDigits | apps/api/src/modules/video/video.controller.ts:116 | Every limit with no digit after its leading white space and optional sign (empty, `abc`, `-x`, ` +`) gives the default of 10. |
| Text.ParseIntWithoutDigit | apps/api/src/modules/video/video.controller.ts:116 | `parseInt` gives `NaN` when no digit follows the leading white space and optional sign. |
| Text.ParseInt | apps/api/src/modules/video/video.controller.ts:116 | `parseInt` without a radix; a negative result only comes from a leading `-` after the white space. Its value on numerals is stated by `ParseIntOfNumeral` and `ParseIntOfHexNumeral`. |
| VideoController.History | apps/api/src/modules/video/video.controller.ts:109-130 | Only the user's video jobs, each at most as often as the store holds it, newest first. With a positive parsed limit, exactly that many or all of them when fewer, and the newest of them; a negative one takes the oldest. |
| VideoController.StatusCountsBounded | apps/api/src/modules/video/video.controller.ts:206-212 | The completed, failed and processing counts never exceed the number of jobs. |
| VideoController.Stats | apps/api/src/modules/video/video.controller.ts:206-225 | The counts are the jobs of each status and the total is the number of jobs. The average is 0 when no completed job has both timestamps; otherwise it is their mean: times their number it gives their total processing time. |
| VideoController.Mean | apps/api/src/modules/video/video.controller.ts:219-225 | The mean of no values is 0; otherwise the mean times the number of values gives their total back. |
| VideoController.AverageWithinBounds | apps/api/src/modules/video/video.controller.ts:215-225 | When every timed job took between `lo` and `hi`, so does the average. |
| VideoController.UserStats | apps/api/src/modules/video/video.controller.ts:199-237 | The statistics of `ProcessingHistory` with limit 100: the user's newest 100 video jobs, or all of them when fewer. The status counts stay within the total. |
| VideoController.ExportOptionsList | apps/api/src/modules/video/video.controller.ts:164-194 | The offered values, in order: resolutions 1280x720, 1920x1080, 2560x1440 and 3840x2160; qualities low, medium, high and ultra; formats mp4, mov and webm; transitions none, fade, slide and dissolve. |
| VideoController.OfferedQualitiesHaveCrf | apps/api/src/modules/video/video.controller.ts:177-182 | The offered qualities are low, medium, high and ultra, in order. Each has a strictly lower CRF than the one before. |
| VideoController.DeleteJob | apps/api/src/modules/video/video.controller.ts:135-159 | Fails with "Job not found or access denied" exactly when the user does not own the job. Otherwise the job is removed and the success message is returned. |
| VideoQueue.Backoff | apps/api/src/modules/video/queue/video-queue.service.ts:38-41 | Retry delays start at 2000 ms and double with each attempt. |
| VideoQueue.StatesPartition | apps/api/src/modules/video/queue/video-queue.service.ts:147-160 | Every entry is in exactly one of the four states. |
| VideoQueue.Queue.constructor | apps/api/src/modules/video/queue/video-queue.service.ts:27-44 | A new queue is empty and running. |
| VideoQueue.Queue.Add | apps/api/src/modules/video/queue/video-queue.service.ts:75-84 | Adds a `waiting` entry under a fresh id, with `priority \|\| 0` and `delay \|\| 0`; the other entries are unchanged. |
| VideoQueue.Queue.Start | apps/api/src/modules/video/queue/video-queue.service.ts:46-60 | A waiting entry becomes active exactly when the queue is running and fewer than 2 entries are active. |
| VideoQueue.Queue.Complete | apps/api/src/modules/video/queue/video-queue.service.ts:35 | The active entry becomes `completed` with its value and finish time. Only other completed entries are evicted, and exactly min(completed before + 1, 10) completed entries remain. |
| VideoQueue.Queue.Fail | apps/api/src/modules/video/queue/video-queue.service.ts:36-41 | Before the third attempt, the entry goes back to `waiting` with an exponential delay and nothing is evicted. At the third attempt it becomes `failed`; only other failed entries are evicted, and exactly min(failed before + 1, 5) remain. |
| VideoQueue.Queue.Evict | apps/api/src/modules/video/queue/video-queue.service.ts:35-36 | Exactly `n` of the candidate entries are removed; no other entry and no other queue state changes. |
| VideoQueue.Queue.Retain | apps/api/src/modules/video/queue/video-queue.service.ts:35-36 | `removeOnComplete`/`removeOnFail`: only entries of the given state are removed, never the one just settled, and exactly min(count, limit) of that state remain. |
| VideoQueue.Queue.Status | apps/api/src/modules/video/queue/video-queue.service.ts:147-160 | Each of the waiting, active, completed and failed counts is the number of entries in that state, and the total is the number of entries. |
| VideoQueue.Queue.JobStatus | apps/api/src/modules/video/queue/video-queue.service.ts:162-180 | An entry is reported exactly when its id is present, and `null` otherwise. |
| VideoQueue.Queue.Pause | apps/api/src/modules/video/queue/video-queue.service.ts:182-185 | The queue becomes paused and no entry changes. |
| VideoQueue.Queue.Resume | apps/api/src/modules/video/queue/video-queue.service.ts:187-190 | The queue runs again and no entry changes. |
| VideoQueue.Queue.Expired | apps/api/src/modules/video/queue/video-queue.service.ts:192-196 | Exactly the entries of a state that finished longer ago than the grace period. |
| VideoQueue.Queue.Clean | apps/api/src/modules/video/queue/video-queue.service.ts:192-196 | Up to 100 completed entries older than 24 hours and up to 50 failed entries older than 7 days are removed. Waiting and active entries are untouched. |
| VideoQueue.NextKeyFresh | apps/api/src/modules/video/queue/video-queue.service.ts:78 | A new queue id differs from every id handed out. |
| VideoQueue.ProcessVideoJob | apps/api/src/modules/video/queue/video-queue.service.ts:86-145 | A missing record makes the worker throw and changes nothing. Otherwise the record is marked `processing` with its start time and ends `completed` with the URL as text, or `failed` with the thrown message; no other record changes, and the record never stays `processing`. "Project not found" and "no completed scenes" are thrown without an extra record. Past those checks the composition appends its own record and (`WorkerComposed`) a failed temporary directory is thrown as its error, leaving that record `processing`; otherwise the worker returns exactly when every scene rendered, with the movie's path and that record's id, and throws "Failed to process scenes to video" when they did not, settling that record the same way. |
| VideoQueue.ProcessRecord | apps/api/src/modules/video/queue/video-queue.service.ts:89-144 | For the record at a known position, the worker's outcome settles it and the composition as `WorkerProcessed` states, the same facts as for `ProcessVideoJob`. |
| VideoQueue.MarkAndCompose | apps/api/src/modules/video/queue/video-queue.service.ts:93-102 | The record is marked `processing` with its start time and the composition runs. A successful composition carries a URL, and past the checks the result and appended record are those `ComposedAfterChecks` gives. |
| VideoQueue.Compose | apps/api/src/modules/video/queue/video-queue.service.ts:102 | The composition leaves earlier records untouched and adds at most its own; its two early failures add nothing. Past the checks it appends one record and returns the mkdir error, or whether the scenes rendered into the output path (`ComposedAfterChecks`). |
| VideoQueue.SettledComposition | apps/api/src/modules/video/queue/video-queue.service.ts:104-131 | Settling a composition result as the worker does (return on success, throw `result.error \|\| 'Video processing failed'` otherwise) gives exactly the outcome `WorkerComposed` describes. |
| VideoQueue.ProcessedFromSteps | apps/api/src/modules/video/queue/video-queue.service.ts:89-144 | Marking, composing and then writing the derived outcome to the record yields all of `WorkerProcessed`. |
| VideoQueue.RecordOnlySettled | apps/api/src/modules/video/queue/video-queue.service.ts:106-113 | Writing the outcome to the worker's record leaves every other record, and the composition's own appended record, unchanged. |
| VideoQueue.Finish | apps/api/src/modules/video/queue/video-queue.service.ts:104-144 | Success writes `completed` and the URL as text. Failure writes `failed` with `result.error \|\| 'Video processing failed'`, which overrides the error written first (line 123). |
| VideoQueue.MarkedThenFinished | apps/api/src/modules/video/queue/video-queue.service.ts:93-144 | Marking and then finishing a record gives the settled record the worker promises. |
| AiGeneration.SelectProvider | apps/api/src/modules/ai/services/ai-generation.service.ts:96-120 | `google-veo` selects Veo; every other model, a missing one included, selects Runway. |
| AiGeneration.ClipDuration | apps/api/src/modules/ai/services/ai-generation.service.ts:104-111 | The requested duration is used when non-zero; otherwise 4 seconds for Runway and 5 for Veo. |
| AiGeneration.Record | apps/api/src/modules/ai/services/ai-generation.service.ts:39-64 | One record with a fresh id is appended and finished with the provider's answer: `completed` with the result, or `failed` with its error. The answer is returned. |
| AiGeneration.GenerateTextToImage | apps/api/src/modules/ai/services/ai-generation.service.ts:36-74 | The image provider is called with the prompt and with the resolution and quality or their defaults. Its answer is recorded and returned. |
| AiGeneration.VideoCall | apps/api/src/modules/ai/services/ai-generation.service.ts:96-120 | The selected provider's image-to-video or extension call gets the URL, the prompt and the duration or the provider's default. |
| AiGeneration.GenerateVideo | apps/api/src/modules/ai/services/ai-generation.service.ts:76-208 | A missing or empty image URL (video URL when extending) is refused with its message and writes nothing. Otherwise the provider's answer is recorded as an image-to-video or extension job and returned. |
| AiGeneration.CheckJobStatus | apps/api/src/modules/ai/services/ai-generation.service.ts:210-226 | The status is asked of Veo for `google-veo` and of Runway otherwise. |
| AiGeneration.GenerationHistory | apps/api/src/modules/ai/services/ai-generation.service.ts:228-234 | Only the user's jobs, each at most as often as the store holds it, newest first. Its length is the limit (20 by default) or the number of the user's jobs, whichever is smaller; a negative limit takes that many from the oldest end. A non-negative limit keeps the newest: no job left out is newer than one returned. |
| Entities.StatusName | apps/api/src/modules/video/video.service.ts:346 | A job status is written as one of the four lower-case names. |
| Store.OwnedProject | apps/api/src/modules/video/video.service.ts:65-73 | The project found is one with that id and owner, and none is found exactly when none exists. |
| Store.CreateJob | apps/api/src/modules/video/video.service.ts:84-95 | A job record with a fresh id and the given columns is appended. |
| Store.SetJob | apps/api/src/modules/video/queue/video-queue.service.ts:93-99 | An update rewrites the record at its position and keeps the ids unique. |
| Store.NewKey | apps/api/src/modules/video/video.service.ts:84 | A generated primary key is not already in the table. |
| Base64.Encode | apps/api/src/modules/characters/characters.service.ts:192 | The encoding has four characters per started group of three bytes, all from the alphabet or `=`. |
| Base64.DecodeEncode | apps/api/src/modules/characters/characters.service.ts:192 | Decoding the encoding of any byte string gives it back. |
| Base64.EncodePrefix | apps/api/src/modules/characters/characters.service.ts:192 | The first 16 characters of an encoding depend only on the first 12 bytes. |
| Base64.Utf8Append | apps/api/src/modules/characters/characters.service.ts:192 | The UTF-8 encoding of a concatenation is the concatenation of the encodings. |
| Text.ParseIntOfNatToString | apps/api/src/modules/video/video.controller.ts:116 | `parseInt` of a decimal numeral gives back its number. |
| Text.TrimStart | apps/api/src/modules/video/video.controller.ts:116 | `parseInt` first drops leading JavaScript white space: what remains is a suffix of the input that does not start with white space, and every character dropped is white space. |
| Text.TrimStartOfPadded | apps/api/src/modules/video/video.controller.ts:116 | White space followed by text that does not start with white space trims to exactly that text. |
| Text.ParseIntOfPadded | apps/api/src/modules/video/video.controller.ts:116 | Leading white space does not change what `parseInt` reads: white space followed by text that does not start with white space parses like that text. |
| Text.ParseSignedOfSign | apps/api/src/modules/video/video.controller.ts:116 | A `+`, `-` or no sign is read before the digits: the result is missing exactly when the unsigned rest has no number, and otherwise is that number negated for `-`. |
| Text.ParseIntOfNumeral | apps/api/src/modules/video/video.controller.ts:116 | White space, an optional sign, a decimal numeral and any text that does not continue it (`" 7"`, `"-5"`, `"+3"`, `"12abc"`) parse to the numeral's value with the sign, for every such input. |
| Text.ParseIntOfHexNumeral | apps/api/src/modules/video/video.controller.ts:116 | White space, an optional sign, `0x` or `0X`, hexadecimal digits and any text that does not continue them (`"0x1A"`) parse to the radix-16 value with the sign. |
| Text.StringOr | apps/api/src/modules/ai/services/ai-generation.service.ts:51-52 | `o \|\| fallback` for a string: the value when it is present and non-empty (`Truthy`), otherwise the fallback. |
| Text.NumberOr | apps/api/src/modules/video/queue/video-queue.service.ts:79-80 | `o \|\| fallback` for a number: the value when it is present and non-zero, otherwise the fallback. |

## Left out

- The encoder (ffmpeg), the HTTP downloads and the AI providers are not modelled. They are parameters: a command either succeeds or fails, and a provider call returns a response. Encoder progress, stderr and the actual media are outside the model.
- The store (Prisma/PostgreSQL) is modelled as in-memory tables with unique keys. SQL, transactions, relations' cascades and connection errors are left out. Connection errors are kept only where the code catches them (`createOrUpdateUser`, the `mkdir` of the composition).
- Clocks, database ids (cuid), uuids and the working directory are parameters. Date formatting to ISO text is a parameter string.
- Path handling models only `path.join` by `/` and `path.dirname`; normalisation of `..` and repeated slashes is left out.
- The scheduling in BullMQ's Redis queue is left out: which waiting entry starts next (priority order, the delay timer) and which entries eviction and cleaning pick, beyond how many. Delayed entries are kept as `waiting` with their delay.
- VideoQueue.Queue.Complete: states which state's entries are evicted and exactly how many remain, but not that the oldest go first.
- VideoQueue.Queue.Fail: the same retention weakening as `Complete` for failed entries: how many remain is exact, which are evicted is not.
- VideoQueue.Queue.Clean: states how many expired entries are removed, not which.
- Queue ids are counter strings; BullMQ's id format is left out.
- Job progress and the worker's event logging are left out, as are `onModuleDestroy` and the Redis connection settings. Worker concurrency is kept as the limit of 2 active entries.
- The queue controller endpoints (status, pause, resume, clean) only delegate to the queue. They are the `VideoQueue.Queue` methods, with HTTP replies left out.
- VideoQueue.Finish: a success without a URL is treated as a throw; the composition never produces one.
- `getUserById` (`auth.service.ts:40-52`) and the controller routes that only call a service method and wrap its result are not modelled separately.
- VideoService.StatusOf: the `catch` branch of `getProcessingStatus` is left out, since the lookup it guards raises nothing in the model.
- Store errors inside the AI generation paths and inside `composeMovie` (other than `mkdir`) are left out. In the source they turn into failed responses or rethrown errors.
- VideoController.DeleteJob: the error does not carry the 404 status code, only the message.
- VideoService.ProcessScenesToVideo: on failure it states that only files in the temporary directory were added. It does not state which ones, because the source leaves the partial clips behind.
- Number precision: `parseInt` is modelled on unbounded integers, and the average processing time is a `real` rather than a double.
- Request numbers are integers: the frame rate, the transition duration, the AI video duration, and the queue priority and delay are JavaScript numbers in the source, and the model takes them as `int`. Fractional values are outside the model.
- Scene `order` and `duration` are integers in the model, as in the scene creation, update and reorder requests (`scenes.service.ts:12`, `:82`, `:109`); the source takes JavaScript numbers there, so fractional orders and durations are outside the model.
- Update bodies carry only their declared fields: `Scenes.ApplyPatch`, `Characters.UpdatedCharacter` and `Projects.UpdateProject` take a patch with the fields the request types name. At run time `...data` / `data` forward every key of the request body (`scenes.service.ts:92`, `characters.service.ts:104`, `:123`, `projects.service.ts:54`), so a body could also set a scene's `projectId`, a character's `userId` or `seed`, or a project's `userId`, and an unknown key makes the store reject the update; none of this is modelled.
- TransitionSeconds: a fractional transition duration such as `0.75` cannot be requested, since durations are integers; a non-zero duration is written with `String` of an integer, and the default stays the text `0.5`.
- Auth.Refreshed: `None` is `null`, which clears the stored name. An absent (`undefined`) name, which the update would skip and so keep the stored name, is not distinguished; the webhook's name parts are taken to be present, each a string or `null`.
- Scenes.ReorderScenes: the updates run concurrently, so with one scene id listed twice the source leaves whichever update lands last; the model applies the list in order, so the later entry wins. Which valid updates have landed when a missing id rejects the call is not modelled: the model writes all of them.
- JSON serialization of job inputs and outputs is modelled as tagged values, text versus object. No JSON text is produced or parsed.
- Characters.UpdateCharacter: the `embedding` column is text in the source, and a caller may store any value there through the update's `embedding` field (`characters.service.ts:98`, `:104`). The model keeps only embeddings that are JSON objects with string or `null` members. So it does not capture that `JSON.parse` throws on stored non-JSON text when a later update regenerates the seed (`characters.service.ts:112`); the model's update then fails only when the lookup fails. Nor does it capture that a stored JSON array or string is spread into index keys, or that member values other than strings and `null` are carried over. `Characters.MergedEmbedding` and `Characters.UpdatedCharacter` share this restriction.
- Included relations are not returned: `Projects.CreateProject` and `Projects.UserProjects` return bare project rows without the `include: { scenes: true, characters: true }` of `projects.service.ts:15`, `:25`. The scene and character operations return bare rows without the `include: { project: true }` of `scenes.service.ts:33`, `:52`, `:61`, `:95` and `characters.service.ts:35`, `:44`, `:68`, `:78`, `:126`, `:149`, `:164`. These are `Scenes.CreateScene`, `Scenes.ProjectScenes`, `Scenes.SceneById`, `Scenes.UpdateScene`, `Characters.CreateCharacter`, `Characters.UserCharacters`, `Characters.ProjectCharacters`, `Characters.CharacterById`, `Characters.UpdateCharacter` and `Characters.SetLocked`. Only `Projects.ProjectById` returns its project's scenes and characters.
- Authentication with Clerk itself is left out: the guard's token check is the length test of the source, and the user it attaches is the fixed demo user.
- The web front end, the shared package, the seeds and the test scripts are not part of this model.
