/**
 * `Django-signals_orm-0x04/messaging/models.py`: messages between users, each
 * optionally a reply to a parent message. `Message.get_thread` lists a message
 * followed by the threads of its replies; `MessageManager.get_conversation_thread`
 * loads the messages of a root's thread oldest first; `UnreadMessagesManager.for_user`
 * selects a user's unread messages; `Message.__str__` shows the first 30
 * characters of the content.
 *
 * The table is a map from primary key to row together with the keys in the
 * model's default order (`ordering = ['-timestamp']`, newest first).
 */
module MessagingModels {
  import opened Wrappers
  import opened Sequences

  type MsgId = nat

  /** A user, by username (usernames are unique). */
  type UserName = string

  datatype Message = Message(
    sender: UserName,
    receiver: UserName,
    content: string,
    parent: Option<MsgId>,
    isRead: bool,
    edited: bool,
    timestamp: int)

  /** The `Message` table: the rows by key, and every key in the default (newest first) order. */
  datatype Store = Store(messages: map<MsgId, Message>, newestFirst: seq<MsgId>)

  /**
   * A reply is saved after the message it answers, so its auto-increment key
   * is larger. This is what makes reply chains finite.
   */
  predicate ParentsEarlier(st: Store)
  {
    forall id :: id in st.messages && st.messages[id].parent.Some? ==> st.messages[id].parent.value < id
  }

  /** `r` is stored and its `parent_message` is `x`. */
  predicate IsReplyTo(st: Store, r: MsgId, x: MsgId)
  {
    r in st.messages && st.messages[r].parent == Some(x)
  }

  /** A key above every listed key. */
  function Bound(ids: seq<MsgId>): (b: nat)
    ensures forall i :: 0 <= i < |ids| ==> ids[i] < b
  {
    if ids == [] then 0
    else
      var b := Bound(ids[1..]);
      if ids[0] < b then b else ids[0] + 1
  }

  lemma BoundAbove(ids: seq<MsgId>, x: MsgId)
    requires x in ids
    ensures x < Bound(ids)
  {
    var i :| 0 <= i < |ids| && ids[i] == x;
  }

  /** `x.replies.all()`: the replies to `x`, newest first. */
  function Replies(st: Store, x: MsgId): (rs: seq<MsgId>)
    ensures forall r :: r in rs <==> r in st.newestFirst && IsReplyTo(st, r, x)
    ensures ParentsEarlier(st) ==>
              forall i :: 0 <= i < |rs| ==> x < rs[i] < Bound(st.newestFirst) && IsReplyTo(st, rs[i], x)
    ensures Distinct(st.newestFirst) ==> Distinct(rs)
  {
    var rs := Filter<MsgId>(st.newestFirst, (r: MsgId) => IsReplyTo(st, r, x));
    assert forall i :: 0 <= i < |rs| ==> rs[i] in st.newestFirst;
    forall i | 0 <= i < |rs| ensures rs[i] < Bound(st.newestFirst) {
      BoundAbove(st.newestFirst, rs[i]);
    }
    if Distinct(st.newestFirst) then
      FilterDistinct<MsgId>(st.newestFirst, (r: MsgId) => IsReplyTo(st, r, x));
      rs
    else rs
  }

  /** The measure that falls along every reply edge. */
  function Height(st: Store, x: MsgId): nat
  {
    var b := Bound(st.newestFirst);
    if x < b then b - x else 0
  }

  /** What `x.get_thread()` returns: `x`, then the thread of each reply in turn. */
  function Thread(st: Store, x: MsgId): seq<MsgId>
    requires ParentsEarlier(st)
    decreases Height(st, x), 1
  {
    [x] + ThreadsOf(st, x, Replies(st, x))
  }

  /** The threads of the replies `rs` to `x`, one after the other. */
  function ThreadsOf(st: Store, x: MsgId, rs: seq<MsgId>): seq<MsgId>
    requires ParentsEarlier(st)
    requires forall i :: 0 <= i < |rs| ==> x < rs[i] < Bound(st.newestFirst) && IsReplyTo(st, rs[i], x)
    decreases Height(st, x), 0, |rs|
  {
    if rs == [] then []
    else ThreadsOf(st, x, rs[..|rs| - 1]) + Thread(st, rs[|rs| - 1])
  }

  /** `m` is `root` or a reply, direct or not, to `root`. */
  predicate InSubtree(st: Store, root: MsgId, m: MsgId)
    decreases m
  {
    || m == root
    || (&& m in st.messages && st.messages[m].parent.Some? && st.messages[m].parent.value < m
        && InSubtree(st, root, st.messages[m].parent.value))
  }

  /** `get_thread`: the list starts with the message, then each reply's thread is appended. */
  method GetThread(st: Store, x: MsgId) returns (thread: seq<MsgId>)
    requires ParentsEarlier(st)
    ensures thread == Thread(st, x)
    decreases Height(st, x), 1
  {
    var replies := Replies(st, x);
    var rest := ExtendWithReplies(st, x, replies);
    thread := [x] + rest;
  }

  /** The `for reply in self.replies.all()` loop: `thread.extend(reply.get_thread())` for each reply in turn. */
  method ExtendWithReplies(st: Store, x: MsgId, replies: seq<MsgId>) returns (rest: seq<MsgId>)
    requires ParentsEarlier(st)
    requires forall i :: 0 <= i < |replies| ==> x < replies[i] < Bound(st.newestFirst) && IsReplyTo(st, replies[i], x)
    ensures rest == ThreadsOf(st, x, replies)
    decreases Height(st, x), 0
  {
    rest := [];
    for i := 0 to |replies|
      invariant rest == ThreadsOf(st, x, replies[..i])
    {
      var sub := GetThread(st, replies[i]);
      ThreadsOfStep(st, x, replies, i);
      rest := rest + sub;
    }
    assert replies[..|replies|] == replies;
  }

  lemma ThreadsOfStep(st: Store, x: MsgId, rs: seq<MsgId>, i: nat)
    requires ParentsEarlier(st) && i < |rs|
    requires forall i :: 0 <= i < |rs| ==> x < rs[i] < Bound(st.newestFirst) && IsReplyTo(st, rs[i], x)
    ensures ThreadsOf(st, x, rs[..i + 1]) == ThreadsOf(st, x, rs[..i]) + Thread(st, rs[i])
  {
    assert rs[..i + 1][..i] == rs[..i];
  }

  /** Every message in a thread is its root or a transitive reply to it; the root comes first. */
  lemma ThreadSound(st: Store, x: MsgId)
    requires ParentsEarlier(st)
    ensures Thread(st, x)[0] == x
    ensures forall m :: m in Thread(st, x) ==> InSubtree(st, x, m)
    decreases Height(st, x), 1
  {
    ThreadsOfSound(st, x, Replies(st, x));
  }

  lemma ThreadsOfSound(st: Store, x: MsgId, rs: seq<MsgId>)
    requires ParentsEarlier(st)
    requires forall i :: 0 <= i < |rs| ==> x < rs[i] < Bound(st.newestFirst) && IsReplyTo(st, rs[i], x)
    ensures forall m :: m in ThreadsOf(st, x, rs) ==> InSubtree(st, x, m)
    decreases Height(st, x), 0, |rs|
  {
    if rs != [] {
      var r := rs[|rs| - 1];
      ThreadsOfSound(st, x, rs[..|rs| - 1]);
      ThreadSound(st, r);
      forall m | m in Thread(st, r) ensures InSubtree(st, x, m) {
        SubtreeOfReply(st, x, r, m);
      }
    }
  }

  /** What lies under a reply to `x` lies under `x`. */
  lemma SubtreeOfReply(st: Store, x: MsgId, r: MsgId, m: MsgId)
    requires ParentsEarlier(st) && IsReplyTo(st, r, x) && InSubtree(st, r, m)
    ensures InSubtree(st, x, m)
    decreases m
  {
    if m != r {
      SubtreeOfReply(st, x, r, st.messages[m].parent.value);
    }
  }

  /** Every stored message appears in the default order. */
  predicate AllListed(st: Store)
  {
    forall id :: id in st.messages ==> id in st.newestFirst
  }

  /** The thread of the reply `rs[k]` is part of the threads of `rs`. */
  lemma {:induction false} ThreadsOfContains(st: Store, x: MsgId, rs: seq<MsgId>, k: nat)
    requires ParentsEarlier(st) && k < |rs|
    requires forall i :: 0 <= i < |rs| ==> x < rs[i] < Bound(st.newestFirst) && IsReplyTo(st, rs[i], x)
    ensures forall z :: z in Thread(st, rs[k]) ==> z in ThreadsOf(st, x, rs)
  {
    if k < |rs| - 1 {
      ThreadsOfContains(st, x, rs[..|rs| - 1], k);
    }
  }

  /** The thread of any message under `root` is part of the thread of `root`. */
  lemma SubtreeThreadIncluded(st: Store, root: MsgId, m: MsgId)
    requires ParentsEarlier(st) && AllListed(st) && InSubtree(st, root, m)
    ensures forall z :: z in Thread(st, m) ==> z in Thread(st, root)
    decreases m
  {
    if m != root {
      var p := st.messages[m].parent.value;
      SubtreeThreadIncluded(st, root, p);
      var rs := Replies(st, p);
      assert m in rs;
      var k :| 0 <= k < |rs| && rs[k] == m;
      ThreadsOfContains(st, p, rs, k);
    }
  }

  /**
   * When every stored message is listed, the thread of `root` holds exactly
   * `root` and the stored messages that reply to it, directly or not.
   */
  lemma ThreadIsSubtree(st: Store, root: MsgId)
    requires ParentsEarlier(st) && AllListed(st)
    ensures forall m :: m in Thread(st, root) <==> InSubtree(st, root, m)
  {
    ThreadSound(st, root);
    forall m | InSubtree(st, root, m) ensures m in Thread(st, m) && m in Thread(st, root) {
      SubtreeThreadIncluded(st, root, m);
    }
  }

  /** A key is never below the key of the message it lies under. */
  lemma SubtreeAbove(st: Store, root: MsgId, m: MsgId)
    requires InSubtree(st, root, m)
    ensures root <= m
    decreases m
  {
    if m != root {
      SubtreeAbove(st, root, st.messages[m].parent.value);
    }
  }

  /** Two messages above the same message lie on one reply chain: one is under the other. */
  lemma {:induction false} SubtreesNested(st: Store, a: MsgId, b: MsgId, m: MsgId)
    requires InSubtree(st, a, m) && InSubtree(st, b, m)
    ensures InSubtree(st, a, b) || InSubtree(st, b, a)
    decreases m
  {
    if m != a && m != b {
      SubtreesNested(st, a, b, st.messages[m].parent.value);
    }
  }

  /** Two different replies to the same message have no message under both. */
  lemma SiblingSubtreesDisjoint(st: Store, x: MsgId, r1: MsgId, r2: MsgId, m: MsgId)
    requires ParentsEarlier(st) && IsReplyTo(st, r1, x) && IsReplyTo(st, r2, x) && r1 != r2
    requires InSubtree(st, r1, m)
    ensures !InSubtree(st, r2, m)
  {
    if InSubtree(st, r2, m) {
      SubtreesNested(st, r1, r2, m);
      if InSubtree(st, r1, r2) {
        SubtreeAbove(st, r1, x);
      } else {
        SubtreeAbove(st, r2, x);
      }
    }
  }

  /** Every message in the threads of `rs` lies under one of `rs`. */
  lemma {:induction false} ThreadsOfUnder(st: Store, x: MsgId, rs: seq<MsgId>, m: MsgId)
    requires ParentsEarlier(st)
    requires forall i :: 0 <= i < |rs| ==> x < rs[i] < Bound(st.newestFirst) && IsReplyTo(st, rs[i], x)
    requires m in ThreadsOf(st, x, rs)
    ensures exists k :: 0 <= k < |rs| && InSubtree(st, rs[k], m)
  {
    var n := |rs|;
    if m in Thread(st, rs[n - 1]) {
      ThreadSound(st, rs[n - 1]);
      assert InSubtree(st, rs[n - 1], m);
    } else {
      ThreadsOfUnder(st, x, rs[..n - 1], m);
      var k :| 0 <= k < n - 1 && InSubtree(st, rs[..n - 1][k], m);
      assert rs[..n - 1][k] == rs[k];
    }
  }

  /** When the default order lists no key twice, a thread lists no message twice. */
  lemma {:induction false} ThreadDistinct(st: Store, x: MsgId)
    requires ParentsEarlier(st) && Distinct(st.newestFirst)
    ensures Distinct(Thread(st, x))
    decreases Height(st, x), 1
  {
    var rs := Replies(st, x);
    ThreadsOfDistinct(st, x, rs);
    if x in ThreadsOf(st, x, rs) {
      ThreadsOfUnder(st, x, rs, x);
      var k :| 0 <= k < |rs| && InSubtree(st, rs[k], x);
      SubtreeAbove(st, rs[k], x);
    }
    ConsDistinct(x, ThreadsOf(st, x, rs));
  }

  lemma {:induction false} ThreadsOfDistinct(st: Store, x: MsgId, rs: seq<MsgId>)
    requires ParentsEarlier(st) && Distinct(st.newestFirst) && Distinct(rs)
    requires forall i :: 0 <= i < |rs| ==> x < rs[i] < Bound(st.newestFirst) && IsReplyTo(st, rs[i], x)
    ensures Distinct(ThreadsOf(st, x, rs))
    decreases Height(st, x), 0, |rs|
  {
    if rs != [] {
      var n := |rs|;
      var init, r := rs[..n - 1], rs[n - 1];
      assert Distinct(init) by {
        forall i, j | 0 <= i < j < |init| ensures init[i] != init[j] {
          assert init[i] == rs[i] && init[j] == rs[j];
        }
      }
      ThreadsOfDistinct(st, x, init);
      ThreadDistinct(st, r);
      ThreadSound(st, r);
      forall m | m in ThreadsOf(st, x, init) ensures m !in Thread(st, r) {
        ThreadsOfUnder(st, x, init, m);
        var k :| 0 <= k < |init| && InSubtree(st, init[k], m);
        assert init[k] == rs[k] != r;
        SiblingSubtreesDisjoint(st, x, init[k], r, m);
      }
      AppendDistinct(ThreadsOf(st, x, init), Thread(st, r));
    }
  }

  /** `root` and the stored messages under it. */
  function SubtreeKeys(st: Store, root: MsgId): (keys: set<MsgId>)
    ensures forall m :: m in keys <==> InSubtree(st, root, m)
  {
    forall m | InSubtree(st, root, m) ensures m == root || m in st.messages {}
    {root} + set m | m in st.messages && InSubtree(st, root, m)
  }

  /**
   * When every stored message is listed once, `get_thread` lists each message
   * under `root` exactly once: the thread is as long as the subtree is large.
   */
  lemma ThreadCountsSubtree(st: Store, root: MsgId)
    requires ParentsEarlier(st) && AllListed(st) && Distinct(st.newestFirst)
    ensures Elements(Thread(st, root)) == SubtreeKeys(st, root)
    ensures |Thread(st, root)| == |SubtreeKeys(st, root)|
  {
    ThreadIsSubtree(st, root);
    ThreadDistinct(st, root);
    DistinctIffNoShrink(Thread(st, root));
  }

  /**
   * `get_thread` as written, on any table: `depth` is the number of nested
   * calls Python still allows, and `None` stands for the `RecursionError`
   * raised when they run out.
   */
  function ThreadWithin(st: Store, x: MsgId, depth: nat): (r: Option<seq<MsgId>>)
    ensures r.Some? ==> |r.value| >= 1 && r.value[0] == x
    decreases depth, 0
  {
    if depth == 0 then None
    else
      match ThreadsWithin(st, Replies(st, x), depth - 1)
      case None => None
      case Some(rest) => Some([x] + rest)
  }

  /** The `thread.extend(reply.get_thread())` loop over the replies `rs`, within `depth` nested calls. */
  function ThreadsWithin(st: Store, rs: seq<MsgId>, depth: nat): Option<seq<MsgId>>
    decreases depth, 1, |rs|
  {
    if rs == [] then Some([])
    else
      match ThreadsWithin(st, rs[..|rs| - 1], depth)
      case None => None
      case Some(front) =>
        match ThreadWithin(st, rs[|rs| - 1], depth)
        case None => None
        case Some(last) => Some(front + last)
  }

  /** Two messages, each saved as the reply to the other. */
  function TwoCycle(): (st: Store)
    ensures !ParentsEarlier(st)
  {
    var m := Message("a", "b", "hi", None, false, false, 0);
    var st := Store(map[1 := m.(parent := Some(2)), 2 := m.(parent := Some(1))], [2, 1]);
    assert st.messages[1].parent.value >= 1;
    st
  }

  /** In `TwoCycle`, each message is the only reply to the other. */
  lemma TwoCycleReplies()
    ensures Replies(TwoCycle(), 1) == [2] && Replies(TwoCycle(), 2) == [1]
  {
    var st := TwoCycle();
    assert [2, 1][1..] == [1] && [1][1..] == [];
  }

  /** A message with a single reply fails when its reply's thread fails one call deeper. */
  lemma SingleReplyWithin(st: Store, x: MsgId, r: MsgId, depth: nat)
    requires Replies(st, x) == [r] && depth > 0
    requires ThreadWithin(st, r, depth - 1) == None
    ensures ThreadWithin(st, x, depth) == None
  {
    assert [r][..0] == [] && [r][0] == r;
    assert ThreadsWithin(st, [r], depth - 1) == None;
  }

  /**
   * On a reply cycle `get_thread` never returns: however many nested calls
   * are allowed, they run out.
   */
  lemma {:induction false} CycleNeverEnds(depth: nat)
    ensures ThreadWithin(TwoCycle(), 1, depth) == None
    ensures ThreadWithin(TwoCycle(), 2, depth) == None
  {
    if depth > 0 {
      var st := TwoCycle();
      CycleNeverEnds(depth - 1);
      TwoCycleReplies();
      SingleReplyWithin(st, 1, 2, depth);
      SingleReplyWithin(st, 2, 1, depth);
    }
  }

  /**
   * When replies are saved after their parents, `get_thread` returns the
   * thread of `x` once more than `Height(st, x)` nested calls are allowed.
   */
  lemma {:induction false} ThreadWithinEnds(st: Store, x: MsgId, depth: nat)
    requires ParentsEarlier(st) && depth > Height(st, x)
    ensures ThreadWithin(st, x, depth) == Some(Thread(st, x))
    decreases Height(st, x), 1
  {
    var rs := Replies(st, x);
    ThreadsWithinEnd(st, x, rs, depth - 1);
    ThreadWithinStep(st, x, depth, ThreadsOf(st, x, rs));
  }

  lemma ThreadWithinStep(st: Store, x: MsgId, depth: nat, rest: seq<MsgId>)
    requires depth > 0 && ThreadsWithin(st, Replies(st, x), depth - 1) == Some(rest)
    ensures ThreadWithin(st, x, depth) == Some([x] + rest)
  {
  }

  lemma {:induction false} ThreadsWithinEnd(st: Store, x: MsgId, rs: seq<MsgId>, depth: nat)
    requires ParentsEarlier(st) && depth >= Height(st, x)
    requires forall i :: 0 <= i < |rs| ==> x < rs[i] < Bound(st.newestFirst) && IsReplyTo(st, rs[i], x)
    ensures ThreadsWithin(st, rs, depth) == Some(ThreadsOf(st, x, rs))
    decreases Height(st, x), 0, |rs|
  {
    if rs != [] {
      var init, r := rs[..|rs| - 1], rs[|rs| - 1];
      ThreadsWithinEnd(st, x, init, depth);
      ThreadWithinEnds(st, r, depth);
      assert ThreadsWithin(st, rs, depth) == Some(ThreadsOf(st, x, init) + Thread(st, r));
    }
  }

  datatype LookupError = DoesNotExist

  /**
   * `Message.objects.get_conversation_thread(root_message_id)`: the stored
   * messages whose keys are in the root's thread, oldest first; an unknown
   * root raises `Message.DoesNotExist`.
   */
  function GetConversationThread(st: Store, rootId: MsgId): (r: Result<seq<MsgId>, LookupError>)
    requires ParentsEarlier(st)
    ensures r.Failure? <==> rootId !in st.messages
    ensures r.Success? ==> forall m :: m in r.value <==> m in st.newestFirst && m in Thread(st, rootId)
  {
    if rootId !in st.messages then Failure(DoesNotExist)
    else
      var ids := Thread(st, rootId);
      var oldestFirst := Reverse(st.newestFirst);
      ReverseSameElements(st.newestFirst);
      Success(Filter<MsgId>(oldestFirst, (m: MsgId) => m in ids))
  }

  /** `ids` lists stored messages from the oldest to the newest. */
  predicate OldestFirst(st: Store, ids: seq<MsgId>)
  {
    forall i, j :: 0 <= i < j < |ids| && ids[i] in st.messages && ids[j] in st.messages ==>
      st.messages[ids[i]].timestamp <= st.messages[ids[j]].timestamp
  }

  /** The default order lists the keys newest first. */
  predicate NewestFirst(st: Store)
  {
    forall i, j :: 0 <= i < j < |st.newestFirst| && st.newestFirst[i] in st.messages && st.newestFirst[j] in st.messages ==>
      st.messages[st.newestFirst[i]].timestamp >= st.messages[st.newestFirst[j]].timestamp
  }

  /** `order_by('timestamp')`: the conversation thread comes oldest first. */
  lemma ConversationThreadOldestFirst(st: Store, rootId: MsgId)
    requires ParentsEarlier(st) && NewestFirst(st) && rootId in st.messages
    ensures OldestFirst(st, GetConversationThread(st, rootId).value)
  {
    var ids := Thread(st, rootId);
    var s := Reverse(st.newestFirst);
    ReverseAt(st.newestFirst);
    assert OldestFirst(st, s) by {
      var n := |s|;
      forall i, j | 0 <= i < j < n && s[i] in st.messages && s[j] in st.messages
        ensures st.messages[s[i]].timestamp <= st.messages[s[j]].timestamp
      {
        assert s[i] == st.newestFirst[n - 1 - i] && s[j] == st.newestFirst[n - 1 - j];
      }
    }
    FilterKeepsOldestFirst(st, s, (m: MsgId) => m in ids);
  }

  lemma {:induction false} FilterKeepsOldestFirst(st: Store, s: seq<MsgId>, keep: MsgId -> bool)
    requires OldestFirst(st, s)
    ensures OldestFirst(st, Filter(s, keep))
  {
    if s != [] {
      var rest := Filter(s[1..], keep);
      assert OldestFirst(st, s[1..]) by {
        forall i, j | 0 <= i < j < |s[1..]| ensures s[1..][i] == s[i + 1] && s[1..][j] == s[j + 1] {}
      }
      FilterKeepsOldestFirst(st, s[1..], keep);
      if keep(s[0]) {
        var r := [s[0]] + rest;
        forall i, j | 0 <= i < j < |r| && r[i] in st.messages && r[j] in st.messages
          ensures st.messages[r[i]].timestamp <= st.messages[r[j]].timestamp
        {
          if i == 0 {
            assert r[j] in s[1..];
            var k :| 0 <= k < |s[1..]| && s[1..][k] == r[j];
            assert s[k + 1] == r[j];
          } else {
            assert r[i] == rest[i - 1] && r[j] == rest[j - 1];
          }
        }
      }
    }
  }

  /** `Message.unread.for_user(user)`: the unread messages received by `user`, newest first. */
  function ForUser(st: Store, user: UserName): (r: seq<MsgId>)
    ensures forall m :: m in r <==>
              m in st.newestFirst && m in st.messages && st.messages[m].receiver == user && !st.messages[m].isRead
  {
    Filter<MsgId>(st.newestFirst, (m: MsgId) => m in st.messages && st.messages[m].receiver == user && !st.messages[m].isRead)
  }

  /** `str(message)`: sender, arrow, receiver, then at most the first 30 characters of the content. */
  function MessageStr(m: Message): (r: string)
    ensures var head := m.sender + " \U{2192} " + m.receiver + ": ";
            && |head| <= |r| && r[..|head|] == head
            && |r| - |head| == (if |m.content| < 30 then |m.content| else 30)
            && r[|head|..] == m.content[..|r| - |head|]
  {
    m.sender + " \U{2192} " + m.receiver + ": " + Take(m.content, 30)
  }
}
