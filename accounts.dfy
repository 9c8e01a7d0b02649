/**
 * The account side of the server as functions of the stored accounts: the
 * request guards, the username lookup behind registration and login, the
 * progress pull, the profile view, the user search, and the updates that the
 * write handlers apply to one account.
 *
 * Accounts are kept in the order they were registered; an account's id is its
 * position in that sequence.
 */
module Accounts {
  import opened Schema

  /** Registration and login answer 400 when either credential is absent or empty. */
  predicate MissingCredentials(username: string, password: string) {
    username == "" || password == ""
  }

  /** A picture upload is refused when the image is absent, empty or over 32 KiB of text. */
  predicate PictureRejected(image: string) {
    image == "" || |image| > MAX_PICTURE_LENGTH
  }

  /** The unique index on usernames. */
  ghost predicate UniqueUsernames(users: seq<User>) {
    forall i, j :: 0 <= i < j < |users| ==> users[i].username != users[j].username
  }

  /** What holds of every stored account: unique names, schema constraints, picture cap. */
  ghost predicate WellFormedAccounts(users: seq<User>) {
    && UniqueUsernames(users)
    && (forall i :: 0 <= i < |users| ==> UserSchemaAccepts(users[i]))
    && (forall i :: 0 <= i < |users| ==> |users[i].profilePicture| <= MAX_PICTURE_LENGTH)
  }

  /** The first account, in store order, whose username is exactly `name`. */
  function FindByUsername(users: seq<User>, name: string): (r: Option<UserId>)
    ensures r.Some? ==> r.value < |users| && users[r.value].username == name
    ensures r.Some? ==> forall j :: 0 <= j < r.value ==> users[j].username != name
    ensures r.None? <==> forall j :: 0 <= j < |users| ==> users[j].username != name
  {
    if |users| == 0 then None
    else if users[0].username == name then Some(0)
    else match FindByUsername(users[1..], name)
      case None => None
      case Some(k) => Some(k + 1)
  }

  /** Looking a name up after appending an account that is the first to carry it finds the new one. */
  lemma {:induction false} FindAfterAppend(users: seq<User>, u: User)
    requires FindByUsername(users, u.username) == None
    ensures FindByUsername(users + [u], u.username) == Some(|users|)
  {
    if |users| > 0 {
      assert (users + [u])[1..] == users[1..] + [u];
      FindAfterAppend(users[1..], u);
    }
  }

  /**
   * Login: 400 on a missing credential, otherwise the id of the account with
   * that exact username provided its stored password is exactly the given
   * one, and 401 in every other case.
   */
  function Login(users: seq<User>, username: string, password: string): (r: Result<UserId>)
    ensures r == Failure(BadRequest) <==> MissingCredentials(username, password)
    ensures r.Success? ==> r.value < |users| && users[r.value].username == username
                           && users[r.value].password == password
    ensures r.Failure? ==> r.status in {BadRequest, Unauthorized}
    ensures !MissingCredentials(username, password) && FindByUsername(users, username) == None
            ==> r == Failure(Unauthorized)
    ensures !MissingCredentials(username, password) && FindByUsername(users, username).Some?
            ==> (r.Success? <==> users[FindByUsername(users, username).value].password == password)
  {
    if MissingCredentials(username, password) then Failure(BadRequest)
    else match FindByUsername(users, username)
      case None => Failure(Unauthorized)
      case Some(id) =>
        if users[id].password != password then Failure(Unauthorized) else Success(id)
  }

  /**
   * With unique usernames, login succeeds exactly when some account has both
   * the given username and the given password, and then returns that account.
   */
  lemma LoginExact(users: seq<User>, username: string, password: string, id: UserId)
    requires UniqueUsernames(users)
    requires !MissingCredentials(username, password)
    requires id < |users| && users[id].username == username
    ensures Login(users, username, password) ==
            if users[id].password == password then Success(id) else Failure(Unauthorized)
  {
    var found := FindByUsername(users, username);
    assert found.Some?;
    var k := found.value;
    assert users[k].username == users[id].username;
  }

  /**
   * After a successful registration, logging in with the same credentials
   * returns the id registration handed out, and any other password is refused.
   */
  lemma LoginAfterRegister(users: seq<User>, username: string, password: string, other: string)
    requires !MissingCredentials(username, password)
    requires FindByUsername(users, username) == None
    requires other != password
    ensures Login(users + [NewUser(username, password)], username, password) == Success(|users|)
    ensures Login(users + [NewUser(username, password)], username, other) ==
            if other == "" then Failure(BadRequest) else Failure(Unauthorized)
  {
    FindAfterAppend(users, NewUser(username, password));
  }

  /** Registration keeps the stored accounts well formed. */
  lemma RegisterKeepsWellFormed(users: seq<User>, username: string, password: string)
    requires WellFormedAccounts(users)
    requires FindByUsername(users, username) == None
    requires UserSchemaAccepts(NewUser(username, password))
    ensures WellFormedAccounts(users + [NewUser(username, password)])
  {
    var users' := users + [NewUser(username, password)];
    forall i, j | 0 <= i < j < |users'| ensures users'[i].username != users'[j].username {
      if j == |users| {
        assert users'[i] == users[i];
      }
    }
  }

  /** Progress pull: the saved live progress, or nothing (sent as `{}`) for an unknown id or an account that never saved. */
  function PullProgress(users: seq<User>, id: UserId): (r: Option<Progress>)
    ensures id >= |users| ==> r == None
    ensures id < |users| ==> r == users[id].liveProgress
  {
    if id < |users| then users[id].liveProgress else None
  }

  /** The state after a progress push: only that account's live progress changes; an unknown id changes nothing. */
  function WithLiveProgress(users: seq<User>, id: UserId, progress: Progress): (r: seq<User>)
    ensures |r| == |users|
    ensures id < |users| ==> r[id] == users[id].(liveProgress := Some(progress))
    ensures forall j :: 0 <= j < |users| && j != id ==> r[j] == users[j]
  {
    if id < |users| then users[id := users[id].(liveProgress := Some(progress))] else users
  }

  /** The state after a publish: the entry is appended after that account's earlier ones; nothing else changes. */
  function WithPublication(users: seq<User>, id: UserId, entry: Publication): (r: seq<User>)
    ensures |r| == |users|
    ensures id < |users| ==> r[id] == users[id].(publications := users[id].publications + [entry])
    ensures forall j :: 0 <= j < |users| && j != id ==> r[j] == users[j]
  {
    if id < |users| then users[id := users[id].(publications := users[id].publications + [entry])] else users
  }

  /** The state after a picture upload: only that account's picture changes. */
  function WithPicture(users: seq<User>, id: UserId, image: string): (r: seq<User>)
    ensures |r| == |users|
    ensures id < |users| ==> r[id] == users[id].(profilePicture := image)
    ensures forall j :: 0 <= j < |users| && j != id ==> r[j] == users[j]
  {
    if id < |users| then users[id := users[id].(profilePicture := image)] else users
  }

  /** Pulling right after a push returns the pushed record verbatim; other accounts read as before. */
  lemma PullAfterPush(users: seq<User>, id: UserId, progress: Progress, other: UserId)
    requires id < |users|
    requires other != id
    ensures PullProgress(WithLiveProgress(users, id, progress), id) == Some(progress)
    ensures PullProgress(WithLiveProgress(users, id, progress), other) == PullProgress(users, other)
  {
  }

  /**
   * A progress push and a publish for the same account touch disjoint fields:
   * in either order both are visible afterwards.
   */
  lemma PushAndPublishCommute(users: seq<User>, id: UserId, progress: Progress, entry: Publication)
    ensures WithPublication(WithLiveProgress(users, id, progress), id, entry)
         == WithLiveProgress(WithPublication(users, id, entry), id, progress)
  {
  }

  /** Account fields a profile request returns. */
  datatype ProfileView = ProfileView(id: UserId, username: string, publications: seq<Publication>, profilePicture: string)

  /** Profile: 404 for an unknown id, otherwise the account's name, publications and picture. */
  function Profile(users: seq<User>, id: UserId): (r: Result<ProfileView>)
    ensures r.Failure? <==> id >= |users|
    ensures r.Failure? ==> r.status == NotFound
    ensures r.Success? ==> r.value.id == id && r.value.username == users[id].username
                           && r.value.publications == users[id].publications
                           && r.value.profilePicture == users[id].profilePicture
  {
    if id < |users| then
      Success(ProfileView(id, users[id].username, users[id].publications, users[id].profilePicture))
    else Failure(NotFound)
  }

  /**
   * A reader of the profile sees each publish as one more entry at the end of
   * the account's publications, after all the earlier ones.
   */
  lemma ProfileAfterPublish(users: seq<User>, id: UserId, entry: Publication)
    requires id < |users|
    ensures Profile(WithPublication(users, id, entry), id).Success?
    ensures Profile(WithPublication(users, id, entry), id).value.publications
            == Profile(users, id).value.publications + [entry]
  {
  }

  /** ASCII case folding. */
  function Lower(c: char): char {
    if 'A' <= c <= 'Z' then (c as int + 32) as char else c
  }

  /** `name` starts with `query`, ignoring ASCII case. */
  predicate MatchesPrefix(name: string, query: string) {
    |query| <= |name| && forall i :: 0 <= i < |query| ==> Lower(name[i]) == Lower(query[i])
  }

  /** The account fields a search result carries. */
  datatype UserSummary = UserSummary(id: UserId, username: string, profilePicture: string)

  function Summary(users: seq<User>, id: UserId): UserSummary
    requires id < |users|
  {
    UserSummary(id, users[id].username, users[id].profilePicture)
  }

  /**
   * Every account from position `from` on whose username starts with `query`
   * ignoring case, in store order.
   */
  function Matching(users: seq<User>, query: string, from: nat): (r: seq<UserSummary>)
    requires from <= |users|
    decreases |users| - from
    ensures forall k :: 0 <= k < |r| ==>
              from <= r[k].id < |users| && r[k] == Summary(users, r[k].id)
              && MatchesPrefix(users[r[k].id].username, query)
    ensures forall k, l :: 0 <= k < l < |r| ==> r[k].id < r[l].id
    ensures forall i :: from <= i < |users| && MatchesPrefix(users[i].username, query) ==>
              Summary(users, i) in r
  {
    if from == |users| then []
    else
      var rest := Matching(users, query, from + 1);
      if MatchesPrefix(users[from].username, query) then
        [Summary(users, from)] + rest
      else rest
  }

  /**
   * User search: 400 for an empty query, otherwise the first ten accounts in
   * store order whose usernames start with the query ignoring case; an account
   * that matches is left out only when ten earlier ones were returned.
   */
  function Search(users: seq<User>, query: string): (r: Result<seq<UserSummary>>)
    ensures query == "" ==> r == Failure(BadRequest)
    ensures query != "" ==> r.Success? && |r.value| <= SEARCH_LIMIT
    ensures r.Success? ==> forall k, l :: 0 <= k < l < |r.value| ==> r.value[k].id < r.value[l].id
    ensures r.Success? ==> forall k :: 0 <= k < |r.value| ==>
              r.value[k].id < |users| && r.value[k] == Summary(users, r.value[k].id)
              && MatchesPrefix(users[r.value[k].id].username, query)
    ensures r.Success? ==> forall i :: 0 <= i < |users| && MatchesPrefix(users[i].username, query) ==>
              Summary(users, i) in r.value
              || (|r.value| == SEARCH_LIMIT && forall k :: 0 <= k < |r.value| ==> r.value[k].id < i)
  {
    if query == "" then Failure(BadRequest)
    else
      var all := Matching(users, query, 0);
      if |all| <= SEARCH_LIMIT then Success(all) else Success(all[..SEARCH_LIMIT])
  }

  /** Matching ignores ASCII case on both sides: "al" finds "alice" and "ALBERT" but not "balice". */
  lemma MatchesPrefixExamples()
    ensures MatchesPrefix("alice", "al") && MatchesPrefix("ALBERT", "al")
    ensures !MatchesPrefix("balice", "al")
  {
    assert "balice"[0] == 'b' && "al"[0] == 'a';
  }
}
