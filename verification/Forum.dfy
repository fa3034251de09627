/** The forum (examples/forum/src/server.rs): threads, replies and the counters kept beside them. */
module Forum {
  import opened Wrappers
  import opened MapSums

  datatype Thread = Thread(id: nat, title: string, author: string, authorName: string, createdAt: nat,
                           replyCount: nat, lastActivity: nat)

  datatype Reply = Reply(id: nat, threadId: nat, author: string, authorName: string, body: string, createdAt: nat,
                         parentId: Option<nat>)

  datatype StoredThread = StoredThread(thread: Thread, body: string, replies: seq<Reply>)

  datatype Profile = Profile(displayName: string, postCount: nat, joinedAt: nat)

  datatype State = State(threads: seq<StoredThread>, users: map<string, Profile>, nextThread: nat, nextReply: nat)

  const EMPTY: State := State([], map[], 1, 1)

  /** Identity::local */
  function Local(name: string): string { "local:" + name }

  function ShownName(name: string): string { if name == "" then "Anonymous" else name }

  /** get_or_create_user, then one post more. */
  function CountPost(users: map<string, Profile>, identity: string, name: string, now: nat): map<string, Profile> {
    var user := if identity in users then users[identity] else Profile(name, 0, now);
    users[identity := user.(postCount := user.postCount + 1)]
  }

  /** The index of the first thread with an id. */
  function Lookup(threads: seq<StoredThread>, id: nat): (i: Option<nat>)
    ensures i.Some? ==> i.value < |threads| && threads[i.value].thread.id == id
    ensures i.None? ==> forall j :: 0 <= j < |threads| ==> threads[j].thread.id != id
  {
    if threads == [] then None
    else if threads[0].thread.id == id then Some(0)
    else
      var i := Lookup(threads[1..], id);
      if i.None? then None else Some(i.value + 1)
  }

  function Created(s: State, title: string, body: string, name: string, now: nat): State {
    var t := Thread(s.nextThread, title, Local(name), ShownName(name), now, 0, now);
    State(s.threads + [StoredThread(t, body, [])], CountPost(s.users, Local(name), ShownName(name), now),
          s.nextThread + 1, s.nextReply)
  }

  function NewReply(s: State, threadId: nat, body: string, name: string, parent: Option<nat>, now: nat): Reply {
    Reply(s.nextReply, threadId, Local(name), ShownName(name), body, now, parent)
  }

  function WithReply(st: StoredThread, r: Reply, now: nat): StoredThread {
    st.(thread := st.thread.(replyCount := st.thread.replyCount + 1, lastActivity := now), replies := st.replies + [r])
  }

  function Replied(s: State, threadId: nat, body: string, name: string, parent: Option<nat>, now: nat): State {
    var i := Lookup(s.threads, threadId);
    if i.None? then s
    else
      var r := NewReply(s, threadId, body, name, parent, now);
      State(s.threads[i.value := WithReply(s.threads[i.value], r, now)],
            CountPost(s.users, Local(name), ShownName(name), now), s.nextThread, s.nextReply + 1)
  }

  class ServerState {
    var threads: seq<StoredThread>
    var users: map<string, Profile>
    var nextThread: nat
    var nextReply: nat

    ghost function Abstract(): State
      reads this
    {
      State(threads, users, nextThread, nextReply)
    }

    constructor ()
      ensures Abstract() == EMPTY
    {
      threads, users, nextThread, nextReply := [], map[], 1, 1;
    }

    method PostBy(identity: string, name: string, now: nat)
      modifies this`users
      ensures users == CountPost(old(users), identity, name, now)
    {
      if identity !in users {
        users := users[identity := Profile(name, 0, now)];
      }
      var user := users[identity];
      users := users[identity := user.(postCount := user.postCount + 1)];
    }

    method CreateThread(title: string, body: string, name: string, now: nat) returns (t: Thread)
      modifies this
      ensures Abstract() == Created(old(Abstract()), title, body, name, now)
      ensures |threads| == |old(threads)| + 1 && t == threads[|threads| - 1].thread && t.id == old(nextThread)
    {
      var identity := Local(name);
      var authorName := ShownName(name);
      PostBy(identity, authorName, now);
      t := Thread(nextThread, title, identity, authorName, now, 0, now);
      nextThread := nextThread + 1;
      threads := threads + [StoredThread(t, body, [])];
    }

    /** None is the NOT_FOUND answer. */
    method ReplyToThread(threadId: nat, body: string, name: string, parent: Option<nat>, now: nat)
      returns (r: Option<Reply>)
      modifies this
      ensures Abstract() == Replied(old(Abstract()), threadId, body, name, parent, now)
      ensures r == if Lookup(old(threads), threadId).None? then None
                   else Some(NewReply(old(Abstract()), threadId, body, name, parent, now))
    {
      var found := Lookup(threads, threadId);
      if found.None? {
        return None;
      }
      var identity := Local(name);
      var authorName := ShownName(name);
      var reply := Reply(nextReply, threadId, identity, authorName, body, now, parent);
      nextReply := nextReply + 1;
      var stored := threads[found.value];
      stored := stored.(thread := stored.thread.(replyCount := stored.thread.replyCount + 1));
      stored := stored.(thread := stored.thread.(lastActivity := now));
      stored := stored.(replies := stored.replies + [reply]);
      threads := threads[found.value := stored];
      PostBy(identity, authorName, now);
      r := Some(reply);
    }
  }

  // -------------------------------------------------------------------------
  // What the counters count.
  // -------------------------------------------------------------------------

  function RepliesBy(rs: seq<Reply>, author: string): nat {
    if rs == [] then 0 else RepliesBy(rs[..|rs| - 1], author) + One(rs[|rs| - 1].author == author)
  }

  function PostsIn(st: StoredThread, author: string): nat {
    One(st.thread.author == author) + RepliesBy(st.replies, author)
  }

  /** Threads and replies that a user authored. */
  function Authored(threads: seq<StoredThread>, author: string): nat {
    if threads == [] then 0
    else Authored(threads[..|threads| - 1], author) + PostsIn(threads[|threads| - 1], author)
  }

  /** All threads and replies. */
  function Posts(threads: seq<StoredThread>): nat {
    if threads == [] then 0
    else Posts(threads[..|threads| - 1]) + 1 + |threads[|threads| - 1].replies|
  }

  function PostCount(users: map<string, Profile>, author: string): nat {
    if author in users then users[author].postCount else 0
  }

  function CountOf(): Profile -> nat {
    (p: Profile) => p.postCount
  }

  predicate ThreadInv(st: StoredThread, id: nat, nextReply: nat) {
    && st.thread.id == id && st.thread.replyCount == |st.replies|
    && forall j :: 0 <= j < |st.replies| ==> st.replies[j].threadId == id && 1 <= st.replies[j].id < nextReply
  }

  predicate ThreadsInv(threads: seq<StoredThread>, nextReply: nat) {
    forall t :: 0 <= t < |threads| ==> ThreadInv(threads[t], t + 1, nextReply)
  }

  predicate IsReply(threads: seq<StoredThread>, t: int, i: int) {
    0 <= t < |threads| && 0 <= i < |threads[t].replies|
  }

  ghost predicate UniqueReplies(threads: seq<StoredThread>) {
    forall t, i, u, j | IsReply(threads, t, i) && IsReply(threads, u, j) ::
      threads[t].replies[i].id == threads[u].replies[j].id ==> t == u && i == j
  }

  ghost predicate Inv(s: State) {
    && s.nextThread == |s.threads| + 1 && s.nextReply >= 1
    && ThreadsInv(s.threads, s.nextReply)
    && UniqueReplies(s.threads)
    && (forall a :: PostCount(s.users, a) == Authored(s.threads, a))
    && Sum(s.users, CountOf()) == Posts(s.threads)
  }

  lemma {:induction false} AuthoredUpdate(threads: seq<StoredThread>, t: nat, st: StoredThread, a: string)
    requires t < |threads|
    ensures Authored(threads[t := st], a) + PostsIn(threads[t], a) == Authored(threads, a) + PostsIn(st, a)
    ensures Posts(threads[t := st]) + |threads[t].replies| == Posts(threads) + |st.replies|
  {
    var n := |threads| - 1;
    if t == n {
      assert threads[t := st][..n] == threads[..n];
    } else {
      AuthoredUpdate(threads[..n], t, st, a);
      assert threads[t := st][..n] == threads[..n][t := st];
    }
  }

  lemma CountPostCounts(users: map<string, Profile>, identity: string, name: string, now: nat)
    ensures var users' := CountPost(users, identity, name, now);
            && (forall a :: PostCount(users', a) == PostCount(users, a) + One(a == identity))
            && Sum(users', CountOf()) == Sum(users, CountOf()) + 1
  {
    var users' := CountPost(users, identity, name, now);
    SumUpdate(users, CountOf(), identity, users'[identity]);
  }

  lemma CreatedInv(s: State, title: string, body: string, name: string, now: nat)
    requires Inv(s)
    ensures Inv(Created(s, title, body, name, now))
  {
    var t := Thread(s.nextThread, title, Local(name), ShownName(name), now, 0, now);
    AddThreadInv(s, StoredThread(t, body, []), now);
  }

  lemma AddThreadInv(s: State, st: StoredThread, now: nat)
    requires Inv(s) && st.thread.id == s.nextThread && st.thread.replyCount == 0 && st.replies == []
    ensures Inv(State(s.threads + [st], CountPost(s.users, st.thread.author, st.thread.authorName, now),
                      s.nextThread + 1, s.nextReply))
  {
    NewThread(s.threads, st, s.nextReply);
    hide UniqueReplies, ThreadsInv, Authored, Posts, PostCount, CountPost, Sum;
    CountPostCounts(s.users, st.thread.author, st.thread.authorName, now);
  }

  lemma NewThread(threads: seq<StoredThread>, st: StoredThread, next: nat)
    requires ThreadsInv(threads, next) && UniqueReplies(threads)
    requires st.thread.id == |threads| + 1 && st.thread.replyCount == 0 && st.replies == []
    ensures ThreadsInv(threads + [st], next) && UniqueReplies(threads + [st])
    ensures forall a: string :: Authored(threads + [st], a) == Authored(threads, a) + One(a == st.thread.author)
    ensures Posts(threads + [st]) == Posts(threads) + 1
  {
    assert (threads + [st])[..|threads|] == threads;
    hide Authored, Posts, ThreadInv;
    var threads' := threads + [st];
    forall t, i | IsReply(threads', t, i)
      ensures IsReply(threads, t, i) && threads'[t].replies[i] == threads[t].replies[i]
    {
    }
  }

  /** In a state that keeps the invariant, thread ids are 1..n in order and the lookup finds index id - 1. */
  lemma LookupIsIndex(threads: seq<StoredThread>, id: nat)
    requires forall t :: 0 <= t < |threads| ==> threads[t].thread.id == t + 1
    ensures Lookup(threads, id) == if 1 <= id <= |threads| then Some(id - 1) else None
  {
    var i := Lookup(threads, id);
    if 1 <= id <= |threads| {
      assert threads[id - 1].thread.id == id;
    }
  }

  lemma RepliesSnoc(rs: seq<Reply>, r: Reply, a: string)
    ensures RepliesBy(rs + [r], a) == RepliesBy(rs, a) + One(r.author == a)
  {
    assert (rs + [r])[..|rs|] == rs;
  }

  lemma UniqueWithReply(threads: seq<StoredThread>, t: nat, r: Reply, now: nat, next: nat)
    requires UniqueReplies(threads) && t < |threads| && r.id == next
    requires ThreadsInv(threads, next)
    ensures UniqueReplies(threads[t := WithReply(threads[t], r, now)])
  {
    var threads' := threads[t := WithReply(threads[t], r, now)];
    forall u, i, v, j | IsReply(threads', u, i) && IsReply(threads', v, j)
      ensures threads'[u].replies[i].id == threads'[v].replies[j].id ==> u == v && i == j
    {
      assert IsReply(threads, u, i) ==> threads'[u].replies[i] == threads[u].replies[i];
      assert IsReply(threads, v, j) ==> threads'[v].replies[j] == threads[v].replies[j];
      assert ThreadInv(threads[u], u + 1, next) && ThreadInv(threads[v], v + 1, next);
    }
  }

  lemma ReplyCounts(threads: seq<StoredThread>, t: nat, r: Reply, now: nat, a: string)
    requires t < |threads|
    ensures var threads' := threads[t := WithReply(threads[t], r, now)];
            && Authored(threads', a) == Authored(threads, a) + One(a == r.author)
            && Posts(threads') == Posts(threads) + 1
  {
    AuthoredUpdate(threads, t, WithReply(threads[t], r, now), a);
    RepliesSnoc(threads[t].replies, r, a);
    hide Authored, Posts, RepliesBy;
  }

  lemma ReplyThreads(threads: seq<StoredThread>, t: nat, r: Reply, now: nat, next: nat)
    requires t < |threads| && r.id == next >= 1 && r.threadId == t + 1
    requires ThreadsInv(threads, next)
    ensures ThreadsInv(threads[t := WithReply(threads[t], r, now)], next + 1)
  {
    var threads' := threads[t := WithReply(threads[t], r, now)];
    forall u | 0 <= u < |threads'| ensures ThreadInv(threads'[u], u + 1, next + 1) {
      assert ThreadInv(threads[u], u + 1, next);
    }
  }

  lemma RepliedInv(s: State, threadId: nat, body: string, name: string, parent: Option<nat>, now: nat)
    requires Inv(s)
    ensures Inv(Replied(s, threadId, body, name, parent, now))
  {
    var i := Lookup(s.threads, threadId);
    if i.Some? {
      var r := NewReply(s, threadId, body, name, parent, now);
      assert ThreadInv(s.threads[i.value], i.value + 1, s.nextReply);
      AddReplyInv(s, i.value, r, ShownName(name), now);
    }
  }

  lemma AddReplyInv(s: State, t: nat, r: Reply, name: string, now: nat)
    requires Inv(s) && t < |s.threads| && r.id == s.nextReply && r.threadId == t + 1
    ensures Inv(State(s.threads[t := WithReply(s.threads[t], r, now)], CountPost(s.users, r.author, name, now),
                      s.nextThread, s.nextReply + 1))
  {
    hide UniqueReplies, ThreadsInv, Authored, Posts, WithReply, PostCount, CountPost, Sum;
    CountPostCounts(s.users, r.author, name, now);
    UniqueWithReply(s.threads, t, r, now, s.nextReply);
    ReplyThreads(s.threads, t, r, now, s.nextReply);
    forall a: string {
      ReplyCounts(s.threads, t, r, now, a);
    }
    ReplyCounts(s.threads, t, r, now, "");
  }

  // -------------------------------------------------------------------------
  // Every reachable state.
  // -------------------------------------------------------------------------

  datatype Action =
    | Create(title: string, body: string, name: string, now: nat)
    | Answer(threadId: nat, body: string, name: string, parent: Option<nat>, now: nat)

  function Next(s: State, a: Action): State {
    match a
    case Create(title, body, name, now) => Created(s, title, body, name, now)
    case Answer(threadId, body, name, parent, now) => Replied(s, threadId, body, name, parent, now)
  }

  function Run(actions: seq<Action>): State {
    if actions == [] then EMPTY else Next(Run(actions[..|actions| - 1]), actions[|actions| - 1])
  }

  lemma {:induction false} RunInv(actions: seq<Action>)
    ensures Inv(Run(actions))
  {
    if actions != [] {
      var before := Run(actions[..|actions| - 1]);
      RunInv(actions[..|actions| - 1]);
      match actions[|actions| - 1] {
        case Create(title, body, name, now) => CreatedInv(before, title, body, name, now);
        case Answer(threadId, body, name, parent, now) => RepliedInv(before, threadId, body, name, parent, now);
      }
    }
  }

  /** In every reachable state each user's post count is the number of threads and replies it
      authored, and the counts add up to all posts. */
  lemma PostCountsAreAuthored(actions: seq<Action>, author: string)
    ensures var s := Run(actions);
            && PostCount(s.users, author) == Authored(s.threads, author)
            && Sum(s.users, CountOf()) == Posts(s.threads)
  {
    RunInv(actions);
  }

  /** Thread ids are 1..n in order, so the lookup by id finds index id - 1; a thread's reply count is
      the length of its reply list; reply ids are unique over the whole forum. */
  lemma IdsAndReplyCounts(actions: seq<Action>, id: nat)
    ensures var s := Run(actions);
            && Lookup(s.threads, id) == (if 1 <= id <= |s.threads| then Some(id - 1) else None)
            && (forall t :: 0 <= t < |s.threads| ==>
                  s.threads[t].thread.id == t + 1 && s.threads[t].thread.replyCount == |s.threads[t].replies|)
            && UniqueReplies(s.threads)
  {
    RunInv(actions);
    var s := Run(actions);
    hide Run, UniqueReplies;
    assert forall t :: 0 <= t < |s.threads| ==> ThreadInv(s.threads[t], t + 1, s.nextReply);
    LookupIsIndex(s.threads, id);
  }
}
