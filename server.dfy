/**
 * The server's persistent state, the accounts collection and the messages
 * collection, and the request handlers that write to it. The read handlers
 * (login, progress pull, search, profile, conversation) change nothing and are
 * the functions of the Accounts and Conversations modules applied to
 * `users` and `messages`.
 *
 * The clock is a parameter (`now`). An update addressed to an id no account
 * has matches nothing: the store is left as it was and the answer is still 200.
 */
module Server {
  import opened Schema
  import opened Accounts
  import opened Conversations

  class Store {
    /** The accounts, in registration order; an account's id is its position. */
    var users: seq<User>
    /** The stored messages, in the order they were saved. */
    var messages: seq<Message>

    ghost predicate Valid()
      reads this
    {
      WellFormedAccounts(users) && WellFormedMessages(messages)
    }

    constructor ()
      ensures Valid()
      ensures users == [] && messages == []
    {
      users := [];
      messages := [];
    }

    /**
     * Registration: 400 on a missing credential, 409 when the username is
     * taken, 500 when the schema refuses the name as shorter than three
     * characters; otherwise one new account with no picture, publications or
     * progress is added and its id returned with 201. Nothing changes on a
     * refusal.
     */
    method Register(username: string, password: string) returns (status: Status, id: Option<UserId>)
      requires Valid()
      modifies this
      ensures Valid()
      ensures messages == old(messages)
      ensures MissingCredentials(username, password) ==>
                status == BadRequest && id == None && users == old(users)
      ensures !MissingCredentials(username, password) && FindByUsername(old(users), username).Some? ==>
                status == Conflict && id == None && users == old(users)
      ensures !MissingCredentials(username, password) && FindByUsername(old(users), username).None?
              && |username| < MIN_USERNAME_LENGTH ==>
                status == ServerError && id == None && users == old(users)
      ensures status == Created <==>
                !MissingCredentials(username, password) && FindByUsername(old(users), username).None?
                && |username| >= MIN_USERNAME_LENGTH
      ensures status == Created ==>
                id == Some(|old(users)|) && users == old(users) + [NewUser(username, password)]
    {
      if MissingCredentials(username, password) {
        return BadRequest, None;
      }
      if FindByUsername(users, username).Some? {
        return Conflict, None;
      }
      var account := NewUser(username, password);
      if !UserSchemaAccepts(account) {
        return ServerError, None;
      }
      RegisterKeepsWellFormed(users, username, password);
      id := Some(|users|);
      users := users + [account];
      status := Created;
    }

    /** Progress push: the account's live progress becomes exactly `progress`; always 200. */
    method PushProgress(id: UserId, progress: Progress) returns (status: Status)
      requires Valid()
      modifies this
      ensures Valid()
      ensures status == Ok
      ensures users == WithLiveProgress(old(users), id, progress)
      ensures messages == old(messages)
    {
      users := WithLiveProgress(users, id, progress);
      status := Ok;
    }

    /** Publish: `progress`, stamped with `now`, is appended to the account's publications; always 200. */
    method Publish(id: UserId, progress: Progress, now: Millis) returns (status: Status)
      requires Valid()
      modifies this
      ensures Valid()
      ensures status == Ok
      ensures users == WithPublication(old(users), id, Publication(now, progress))
      ensures messages == old(messages)
    {
      users := WithPublication(users, id, Publication(now, progress));
      status := Ok;
    }

    /**
     * Picture upload: 400 for an absent, empty or over-32-KiB image, leaving
     * the store unchanged; otherwise the account's picture becomes `image`
     * and the answer is 200.
     */
    method SetProfilePicture(id: UserId, image: string) returns (status: Status)
      requires Valid()
      modifies this
      ensures Valid()
      ensures messages == old(messages)
      ensures PictureRejected(image) ==> status == BadRequest && users == old(users)
      ensures !PictureRejected(image) ==> status == Ok && users == WithPicture(old(users), id, image)
    {
      if PictureRejected(image) {
        return BadRequest;
      }
      users := WithPicture(users, id, image);
      status := Ok;
    }

    /**
     * Sending: 400 when a field is missing, 500 when the schema refuses
     * content over 200 characters, both leaving the store unchanged;
     * otherwise the message is appended with `createdAt = now` and the
     * answer is 201.
     */
    method Send(senderId: Option<UserId>, recipientId: Option<UserId>, senderUsername: string,
                content: string, now: Millis) returns (status: Status)
      requires Valid()
      modifies this
      ensures Valid()
      ensures users == old(users)
      ensures MissingMessageFields(senderId, recipientId, senderUsername, content) ==>
                status == BadRequest && messages == old(messages)
      ensures !MissingMessageFields(senderId, recipientId, senderUsername, content)
              && |content| > MAX_CONTENT_LENGTH ==>
                status == ServerError && messages == old(messages)
      ensures status == Created <==>
                !MissingMessageFields(senderId, recipientId, senderUsername, content)
                && |content| <= MAX_CONTENT_LENGTH
      ensures status == Created ==>
                messages == old(messages) +
                            [Message(senderId.value, recipientId.value, senderUsername, content, now)]
    {
      if MissingMessageFields(senderId, recipientId, senderUsername, content) {
        return BadRequest;
      }
      var message := Message(senderId.value, recipientId.value, senderUsername, content, now);
      if !MessageSchemaAccepts(message) {
        return ServerError;
      }
      messages := messages + [message];
      status := Created;
    }

    /** The 24-hour expiry at time `now`: every message created 24 hours or more ago is deleted. */
    method Expire(now: Millis)
      requires Valid()
      modifies this
      ensures Valid()
      ensures users == old(users)
      ensures messages == Live(old(messages), now)
    {
      ExpiryKeepsWellFormed(messages, now);
      messages := Live(messages, now);
    }
  }
}
