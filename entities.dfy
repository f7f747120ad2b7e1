/** The records the services keep in the relational store (users, projects,
    scenes, characters and generation jobs) and the request and response
    shapes they exchange. Optional columns are `Option`s: `None` is SQL `null`
    on a row, and `undefined` (field not supplied) in a request or a patch. */
module Entities {
  import opened Wrappers

  /** Milliseconds since the epoch (`new Date()`, `Date.now()`). */
  type Time = int

  datatype User = User(
    id: string,
    email: string,
    name: Option<string>,
    provider: string,
    providerId: string,
    subscription: string,
    createdAt: Time,
    updatedAt: Time)

  datatype Project = Project(
    id: string,
    title: string,
    description: Option<string>,
    userId: string,
    createdAt: Time,
    updatedAt: Time)

  /** A scene's `status` column is free text; the services write `pending`,
      and clients write `processing`, `completed` and `failed`. */
  datatype Scene = Scene(
    id: string,
    projectId: string,
    order: int,
    prompt: string,
    title: Option<string>,
    imageUrl: Option<string>,
    videoUrl: Option<string>,
    thumbnail: Option<string>,
    duration: Option<int>,
    status: string,
    metadata: Option<string>,
    aiModel: string,
    createdAt: Time,
    updatedAt: Time)

  /** A member value of the character embedding: a string or `null`. */
  datatype JsonValue = JNull | JString(text: string)

  /** The character `embedding` column is text written by `JSON.stringify`.
      The model keeps only embeddings that are JSON objects whose members are
      strings or `null`, as the object's members. `JSON.stringify` drops a
      member whose value is `undefined` and keeps one whose value is `null`. */
  type Embedding = map<string, JsonValue>

  datatype Character = Character(
    id: string,
    name: string,
    description: Option<string>,
    seed: string,
    imageUrl: Option<string>,
    userId: string,
    projectId: Option<string>,
    isLocked: bool,
    embedding: Option<Embedding>,
    createdAt: Time,
    updatedAt: Time)

  // ---------------------------------------------------------------------------
  // Generation jobs

  datatype JobType = Image | Video | Extension | Merge

  datatype JobStatus = Queued | Processing | Completed | Failed

  function StatusName(s: JobStatus): (name: string)
    ensures name in {"queued", "processing", "completed", "failed"}
  {
    match s
    case Queued => "queued"
    case Processing => "processing"
    case Completed => "completed"
    case Failed => "failed"
  }

  datatype Music = Music(url: string, volume: Option<int>, fadeIn: Option<int>, fadeOut: Option<int>)

  /** `transitions`; `duration` in whole seconds. */
  datatype Transition = Transition(kind: string, duration: Option<int>)

  /** `VideoCompositionOptions`, plus the `priority` and `delay` members the
      queue reads from the same object. */
  datatype CompositionOptions = CompositionOptions(
    resolution: Option<string>,
    fps: Option<int>,
    quality: Option<string>,
    format: Option<string>,
    backgroundMusic: Option<Music>,
    transitions: Option<Transition>,
    priority: Option<int>,
    delay: Option<int>)

  /** The empty options object `{}`. */
  const NoOptions := CompositionOptions(None, None, None, None, None, None, None, None)

  datatype GenerationRequest = GenerationRequest(
    prompt: string,
    imageUrl: Option<string>,
    videoUrl: Option<string>,
    model: Option<string>,
    duration: Option<int>,
    resolution: Option<string>,
    quality: Option<string>)

  datatype GenerationResponse = GenerationResponse(
    success: bool,
    imageUrl: Option<string>,
    videoUrl: Option<string>,
    jobId: Option<string>,
    status: Option<string>,
    error: Option<string>,
    revisedPrompt: Option<string>)

  /** A failed response carrying only an error message. */
  function Failure(message: string): (r: GenerationResponse)
    ensures !r.success && r.error == Some(message)
  {
    GenerationResponse(false, None, None, None, None, Some(message), None)
  }

  /** The job `input` column, by the writer that fills it. */
  datatype JobInput =
    | ComposeRequestText(projectId: string, options: CompositionOptions)
      // the video controller's `JSON.stringify({ projectId, options })`: a string
    | ComposeInput(projectId: string, sceneCount: nat, options: CompositionOptions)
      // the composition's own record: an object
    | GenerationInput(request: GenerationRequest)

  /** The job `output` column, by the writer that fills it. */
  datatype JobOutput =
    | NoOutput
    | VideoUrlText(url: string)
      // the queue worker's `JSON.stringify({ videoUrl })`: a string
    | VideoUrlObject(url: string)
      // the composition's `{ videoUrl }`: an object
    | GenerationResult(response: GenerationResponse)

  datatype Job = Job(
    id: string,
    userId: string,
    jobType: JobType,
    status: JobStatus,
    input: JobInput,
    output: JobOutput,
    error: Option<string>,
    startedAt: Option<Time>,
    completedAt: Option<Time>,
    createdAt: Time)

  // ---------------------------------------------------------------------------
  // Primary and unique keys

  function UserKey(u: User): string { u.id }
  function UserEmail(u: User): string { u.email }
  function ProjectKey(p: Project): string { p.id }
  function SceneKey(s: Scene): string { s.id }
  function CharacterKey(c: Character): string { c.id }
  function JobKey(j: Job): string { j.id }

  // Sort keys: ordering ascending on a `...Recency` key puts the newest row
  // first (`orderBy: { createdAt: 'desc' }`).

  function ProjectRecency(p: Project): int { -p.createdAt }
  function CharacterRecency(c: Character): int { -c.createdAt }
  function JobRecency(j: Job): int { -j.createdAt }
  function SceneOrder(s: Scene): int { s.order }
}
