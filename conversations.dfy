/**
 * The direct-message side of the server as functions of the stored messages:
 * the send guard, the two-way conversation query ordered by creation time, and
 * the 24-hour expiry.
 */
module Conversations {
  import opened Schema

  /** Sending answers 400 when any of the four fields is absent or empty. */
  predicate MissingMessageFields(senderId: Option<UserId>, recipientId: Option<UserId>,
                                 senderUsername: string, content: string)
  {
    senderId.None? || recipientId.None? || content == "" || senderUsername == ""
  }

  /** Every stored message passed the message schema when it was saved. */
  ghost predicate WellFormedMessages(ms: seq<Message>) {
    forall k :: 0 <= k < |ms| ==> MessageSchemaAccepts(ms[k])
  }

  /** `m` was sent from `a` to `b` or from `b` to `a`. */
  predicate InConversation(m: Message, a: UserId, b: UserId) {
    (m.senderId == a && m.recipientId == b) || (m.senderId == b && m.recipientId == a)
  }

  /** A message is gone once 24 hours have passed since it was created. */
  predicate Expired(m: Message, now: Millis) {
    m.createdAt + MESSAGE_TTL_MS <= now
  }

  /** The messages of `ms` that satisfy `keep`, in their stored order. */
  function Filter(ms: seq<Message>, keep: Message -> bool): (r: seq<Message>)
    ensures forall m :: multiset(r)[m] == if keep(m) then multiset(ms)[m] else 0
    ensures forall k :: 0 <= k < |r| ==> keep(r[k]) && r[k] in ms
  {
    if ms == [] then []
    else
      var init, last := ms[..|ms| - 1], ms[|ms| - 1];
      assert ms == init + [last];
      var r := Filter(init, keep);
      if keep(last) then r + [last] else r
  }

  /** Filtering with two predicates that agree everywhere gives the same messages. */
  lemma {:induction false} FilterAgrees(ms: seq<Message>, f: Message -> bool, g: Message -> bool)
    requires forall m :: f(m) == g(m)
    ensures Filter(ms, f) == Filter(ms, g)
  {
    if ms != [] {
      FilterAgrees(ms[..|ms| - 1], f, g);
    }
  }

  predicate SortedByCreatedAt(s: seq<Message>) {
    forall i, j :: 0 <= i < j < |s| ==> s[i].createdAt <= s[j].createdAt
  }

  /** A message created no later than the head of a sorted sequence can go in front of it. */
  lemma SortedCons(m: Message, s: seq<Message>)
    requires SortedByCreatedAt(s)
    requires s != [] ==> m.createdAt <= s[0].createdAt
    ensures SortedByCreatedAt([m] + s)
  {
    var r := [m] + s;
    forall i, j | 0 <= i < j < |r| ensures r[i].createdAt <= r[j].createdAt {
      if i == 0 {
        assert r[j] == s[j - 1];
      } else {
        assert r[i] == s[i - 1] && r[j] == s[j - 1];
      }
    }
  }

  /** Puts `m` into sorted `s` before the first message not created earlier than it. */
  function InsertByCreatedAt(m: Message, s: seq<Message>): (r: seq<Message>)
    requires SortedByCreatedAt(s)
    ensures SortedByCreatedAt(r)
    ensures multiset(r) == multiset(s) + multiset{m}
    ensures |r| == |s| + 1
    ensures r[0] == m || (s != [] && r[0] == s[0])
  {
    if s == [] then [m]
    else if m.createdAt <= s[0].createdAt then SortedCons(m, s); [m] + s
    else
      var rest := InsertByCreatedAt(m, s[1..]);
      assert rest[0] == m || rest[0] == s[1];
      SortedCons(s[0], rest);
      assert s == [s[0]] + s[1..];
      assert multiset(s) == multiset{s[0]} + multiset(s[1..]);
      assert multiset([s[0]] + rest) == multiset{s[0]} + multiset(rest);
      [s[0]] + rest
  }

  /** The messages of `s` ordered by creation time, oldest first. */
  function SortByCreatedAt(s: seq<Message>): (r: seq<Message>)
    ensures SortedByCreatedAt(r)
    ensures multiset(r) == multiset(s)
  {
    if s == [] then []
    else
      assert s == [s[0]] + s[1..];
      InsertByCreatedAt(s[0], SortByCreatedAt(s[1..]))
  }

  /**
   * Conversation: 400 when either id is absent; otherwise every stored message
   * between the two accounts, in either direction, each as often as it is
   * stored, oldest first.
   */
  function Conversation(ms: seq<Message>, user1: Option<UserId>, user2: Option<UserId>)
    : (r: Result<seq<Message>>)
    ensures user1.None? || user2.None? ==> r == Failure(BadRequest)
    ensures user1.Some? && user2.Some? ==>
              && r.Success?
              && SortedByCreatedAt(r.value)
              && forall m :: multiset(r.value)[m] ==
                   if InConversation(m, user1.value, user2.value) then multiset(ms)[m] else 0
  {
    if user1.None? || user2.None? then Failure(BadRequest)
    else
      var a, b := user1.value, user2.value;
      Success(SortByCreatedAt(Filter(ms, m => InConversation(m, a, b))))
  }

  /** The conversation between two accounts does not depend on which one asks. */
  lemma ConversationSymmetric(ms: seq<Message>, a: UserId, b: UserId)
    ensures Conversation(ms, Some(a), Some(b)) == Conversation(ms, Some(b), Some(a))
  {
    FilterAgrees(ms, m => InConversation(m, a, b), m => InConversation(m, b, a));
  }

  /** The messages the expiry leaves in place at time `now`. */
  function Live(ms: seq<Message>, now: Millis): (r: seq<Message>)
    ensures forall m :: multiset(r)[m] == if Expired(m, now) then 0 else multiset(ms)[m]
  {
    Filter(ms, m => !Expired(m, now))
  }

  /**
   * A stored message survives expiry exactly while fewer than 24 hours have
   * passed since it was created.
   */
  lemma ExpiryWindow(ms: seq<Message>, m: Message, now: Millis)
    requires m in ms
    ensures m in Live(ms, now) <==> now < m.createdAt + MESSAGE_TTL_MS
  {
    assert multiset(ms)[m] > 0;
    assert m in Live(ms, now) <==> multiset(Live(ms, now))[m] > 0;
  }

  /**
   * Once expiry has run at `now`, a conversation returns exactly the
   * unexpired messages between the two accounts: none older than 24 hours.
   */
  lemma ConversationAfterExpiry(ms: seq<Message>, now: Millis, a: UserId, b: UserId)
    ensures forall m :: m in Conversation(Live(ms, now), Some(a), Some(b)).value ==>
              !Expired(m, now) && InConversation(m, a, b) && m in ms
    ensures forall m :: m in ms && !Expired(m, now) && InConversation(m, a, b) ==>
              m in Conversation(Live(ms, now), Some(a), Some(b)).value
  {
    var live := Live(ms, now);
    var conv := Conversation(live, Some(a), Some(b)).value;
    forall m | m in conv ensures !Expired(m, now) && InConversation(m, a, b) && m in ms {
      assert multiset(conv)[m] > 0;
      assert multiset(live)[m] > 0;
    }
    forall m | m in ms && !Expired(m, now) && InConversation(m, a, b) ensures m in conv {
      assert multiset(ms)[m] > 0;
      assert multiset(live)[m] > 0;
      assert multiset(conv)[m] > 0;
    }
  }

  /** Expiry only removes messages, so every remaining one still passed the schema. */
  lemma ExpiryKeepsWellFormed(ms: seq<Message>, now: Millis)
    requires WellFormedMessages(ms)
    ensures WellFormedMessages(Live(ms, now))
  {
  }
}
