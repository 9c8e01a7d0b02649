/**
 * The persisted data of the Candle Clicker game server: the progress record,
 * publications, accounts and direct messages, together with the limits their
 * schemas enforce when a document is saved, the two limits the request
 * handlers apply themselves, and the result tags the handlers answer with.
 */
module Schema {

  datatype Option<+T> = None | Some(value: T)

  /** The HTTP status a handler answers with. */
  datatype Status =
    | Ok            // 200
    | Created       // 201
    | BadRequest    // 400
    | Unauthorized  // 401
    | NotFound      // 404
    | Conflict      // 409
    | ServerError   // 500

  /** A read handler's answer: a payload sent with 200, or an error status. */
  datatype Result<+T> = Success(value: T) | Failure(status: Status)

  /** Account identity. Ids are handed out in order by registration and never reused. */
  type UserId = nat

  /** Milliseconds since the epoch, as the server clock reports them. */
  type Millis = nat

  /** Limits the schemas check when a document is saved. */
  const MIN_USERNAME_LENGTH: nat := 3
  const MAX_CONTENT_LENGTH: nat := 200
  /** A message lives for 24 hours after it was created (the TTL index on `createdAt`). */
  const MESSAGE_TTL_MS: nat := 24 * 60 * 60 * 1000

  /** The picture-upload handler refuses images longer than this, before any update. */
  const MAX_PICTURE_LENGTH: nat := 32 * 1024
  /** The user-search query returns at most this many accounts. */
  const SEARCH_LIMIT: nat := 10

  datatype FireCount = FireCount(fireType: string, count: real)

  datatype ArtifactState = ArtifactState(artifactType: string, isUnlocked: bool)

  /**
   * A snapshot of a player's game state. The server never computes with it:
   * it stores whatever the client sends and gives it back unchanged.
   */
  datatype Progress = Progress(
    upgradeCost: real,
    upgradeLevel: real,
    currentFireType: string,
    clickBonus: real,
    adRewardMultiplier: real,
    offlineRewardMultiplier: real,
    fireCounts: seq<FireCount>,
    unlockedArtifacts: seq<ArtifactState>,
    equippedArtifacts: seq<string>)

  /** One entry of an account's public history. */
  datatype Publication = Publication(timestamp: Millis, progress: Progress)

  datatype User = User(
    username: string,
    password: string,
    profilePicture: string,
    publications: seq<Publication>,
    liveProgress: Option<Progress>)

  datatype Message = Message(
    senderId: UserId,
    recipientId: UserId,
    senderUsername: string,
    content: string,
    createdAt: Millis)

  /** A freshly registered account: no picture, no publications, no saved progress. */
  function NewUser(username: string, password: string): User
  {
    User(username, password, "", [], None)
  }

  /** The constraints the user schema checks whenever an account is saved. */
  predicate UserSchemaAccepts(u: User) {
    |u.username| >= MIN_USERNAME_LENGTH && u.password != ""
  }

  /** The constraints the message schema checks whenever a message is saved. */
  predicate MessageSchemaAccepts(m: Message) {
    m.senderUsername != "" && m.content != "" && |m.content| <= MAX_CONTENT_LENGTH
  }
}
