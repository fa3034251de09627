/** What the forum holds after a run, from the requests alone (examples/forum/src/server.rs:195-288). */
module ForumRuns {
  import opened Wrappers
  import opened MapSums
  import opened Forum

  /** The name a post is shown under, and the identity it is counted for. */
  function Author(name: string): string { "local:" + name }

  function Shown(name: string): string { if |name| > 0 then name else "Anonymous" }

  /** The requests that create threads. */
  function Creates(actions: seq<Action>): seq<Action> {
    if actions == [] then []
    else
      var a := actions[|actions| - 1];
      Creates(actions[..|actions| - 1]) + if a.Create? then [a] else []
  }

  /** The i-th thread created has id i. */
  predicate Exists(actions: seq<Action>, id: nat) {
    1 <= id <= |Creates(actions)|
  }

  /** Requests that are not refused. */
  predicate Succeeds(before: seq<Action>, a: Action) {
    a.Answer? ==> Exists(before, a.threadId)
  }

  /** How many answers succeeded. */
  function Answered(actions: seq<Action>): nat {
    if actions == [] then 0
    else
      var before, a := actions[..|actions| - 1], actions[|actions| - 1];
      Answered(before) + if a.Answer? && Succeeds(before, a) then 1 else 0
  }

  /** The answers to a thread, in order, numbered over the whole forum. */
  function RepliesTo(actions: seq<Action>, id: nat): seq<Reply> {
    if actions == [] then []
    else
      var before, a := actions[..|actions| - 1], actions[|actions| - 1];
      RepliesTo(before, id) +
      if a.Answer? && a.threadId == id && Succeeds(before, a)
      then [Reply(Answered(before) + 1, id, Author(a.name), Shown(a.name), a.body, a.now, a.parent)]
      else []
  }

  /** When something last happened to a thread. */
  function LastActive(actions: seq<Action>, id: nat): nat {
    if actions == [] then 0
    else
      var before, a := actions[..|actions| - 1], actions[|actions| - 1];
      if a.Create? && |Creates(before)| + 1 == id then a.now
      else if a.Answer? && a.threadId == id && Succeeds(before, a) then a.now
      else LastActive(before, id)
  }

  /** The posts that succeeded under a name. */
  function PostsOf(actions: seq<Action>, name: string): nat {
    if actions == [] then 0
    else
      var before, a := actions[..|actions| - 1], actions[|actions| - 1];
      PostsOf(before, name) + if a.name == name && Succeeds(before, a) then 1 else 0
  }

  /** When the first of them was. */
  function FirstPost(actions: seq<Action>, name: string): nat {
    if actions == [] then 0
    else
      var before, a := actions[..|actions| - 1], actions[|actions| - 1];
      if PostsOf(before, name) == 0 && a.name == name && Succeeds(before, a) then a.now else FirstPost(before, name)
  }

  function ThreadOf(actions: seq<Action>, id: nat): StoredThread
    requires Exists(actions, id)
  {
    CreatesAreCreates(actions);
    var c := Creates(actions)[id - 1];
    var replies := RepliesTo(actions, id);
    StoredThread(Thread(id, c.title, Author(c.name), Shown(c.name), c.now, |replies|, LastActive(actions, id)),
                 c.body, replies)
  }

  lemma {:induction false} CreatesAreCreates(actions: seq<Action>)
    ensures forall i :: 0 <= i < |Creates(actions)| ==> Creates(actions)[i].Create?
  {
    if actions != [] {
      CreatesAreCreates(actions[..|actions| - 1]);
    }
  }

  lemma {:induction false} NothingBeforeCreation(actions: seq<Action>, id: nat)
    requires id > |Creates(actions)|
    ensures RepliesTo(actions, id) == []
  {
    if actions != [] {
      NothingBeforeCreation(actions[..|actions| - 1], id);
    }
  }

  predicate Holds(s: State, actions: seq<Action>) {
    && |s.threads| == |Creates(actions)|
    && (forall i :: 0 <= i < |s.threads| ==> s.threads[i] == ThreadOf(actions, i + 1))
    && s.nextThread == |Creates(actions)| + 1
    && s.nextReply == Answered(actions) + 1
  }

  lemma CreateHolds(s: State, actions: seq<Action>)
    requires actions != [] && actions[|actions| - 1].Create? && Holds(s, actions[..|actions| - 1])
    ensures Holds(Next(s, actions[|actions| - 1]), actions)
  {
    var before, a := actions[..|actions| - 1], actions[|actions| - 1];
    var s' := Next(s, a);
    var n := |s.threads|;
    NothingBeforeCreation(before, n + 1);
    forall i | 0 <= i < |s'.threads| ensures s'.threads[i] == ThreadOf(actions, i + 1) {
      if i < n {
        SameThread(actions, i + 1);
      }
    }
    assert Succeeds(before, a);
  }

  /** A request that neither creates a thread of this id nor answers it leaves it alone. */
  lemma SameThread(actions: seq<Action>, id: nat)
    requires actions != [] && Exists(actions[..|actions| - 1], id)
    requires var a := actions[|actions| - 1]; a.Answer? ==> a.threadId != id
    ensures Exists(actions, id) && ThreadOf(actions, id) == ThreadOf(actions[..|actions| - 1], id)
  {
    var before := actions[..|actions| - 1];
    assert Creates(actions)[id - 1] == Creates(before)[id - 1];
    assert RepliesTo(before, id) + [] == RepliesTo(before, id);
  }

  function ReplyOf(before: seq<Action>, a: Action): Reply
    requires a.Answer?
  {
    Reply(Answered(before) + 1, a.threadId, Author(a.name), Shown(a.name), a.body, a.now, a.parent)
  }

  /** An accepted answer adds its reply to its thread. */
  lemma AnsweredThread(actions: seq<Action>)
    requires actions != []
    requires var a := actions[|actions| - 1]; a.Answer? && Exists(actions[..|actions| - 1], a.threadId)
    ensures var before, a := actions[..|actions| - 1], actions[|actions| - 1];
            && Exists(actions, a.threadId)
            && ThreadOf(actions, a.threadId) == WithReply(ThreadOf(before, a.threadId), ReplyOf(before, a), a.now)
  {
    var before, a := actions[..|actions| - 1], actions[|actions| - 1];
    assert Creates(actions) == Creates(before) + [] == Creates(before);
    assert Succeeds(before, a);
    assert RepliesTo(actions, a.threadId) == RepliesTo(before, a.threadId) + [ReplyOf(before, a)];
  }

  /** What an answer does to the threads. */
  lemma ThreadsOfAnswer(s: State, before: seq<Action>, a: Action)
    requires a.Answer? && Holds(s, before)
    ensures var s' := Next(s, a);
            && s'.nextThread == s.nextThread
            && s'.nextReply == s.nextReply + (if Exists(before, a.threadId) then 1 else 0)
            && s'.threads == if Exists(before, a.threadId)
                             then
                               var i := a.threadId - 1;
                               s.threads[i := WithReply(s.threads[i], ReplyOf(before, a), a.now)]
                             else s.threads
  {
    hide CountPost, WithReply;
    assert forall t :: 0 <= t < |s.threads| ==> s.threads[t].thread.id == t + 1;
    LookupIsIndex(s.threads, a.threadId);
    hide Lookup;
  }

  lemma AnswerHolds(s: State, actions: seq<Action>)
    requires actions != [] && actions[|actions| - 1].Answer? && Holds(s, actions[..|actions| - 1])
    ensures Holds(Next(s, actions[|actions| - 1]), actions)
  {
    var before, a := actions[..|actions| - 1], actions[|actions| - 1];
    var s' := Next(s, a);
    assert Creates(actions) == Creates(before) + [] == Creates(before);
    ThreadsOfAnswer(s, before, a);
    hide Next, ThreadOf, WithReply, ReplyOf;
    forall i | 0 <= i < |s'.threads| ensures s'.threads[i] == ThreadOf(actions, i + 1) {
      assert s.threads[i] == ThreadOf(before, i + 1);
      if i + 1 == a.threadId {
        AnsweredThread(actions);
      } else {
        SameThread(actions, i + 1);
      }
    }
  }

  /** In every run the i-th thread is the i-th one created, with id i, its title, body, author and
      time; its replies are, in order, one for each answer to it after it was created, with the
      answer's body, author, parent and time, numbered from 1 over the whole forum; and nothing else
      is stored. */
  lemma {:induction false} ThreadsAreRequests(actions: seq<Action>)
    ensures Holds(Run(actions), actions)
  {
    if actions != [] {
      var before := actions[..|actions| - 1];
      ThreadsAreRequests(before);
      hide Holds, Next;
      if actions[|actions| - 1].Create? {
        CreateHolds(Run(before), actions);
      } else {
        AnswerHolds(Run(before), actions);
      }
    }
  }

  /** What is kept about users: exactly those with a post, their posts counted, under the name and since
      the time of the first. */
  ghost predicate Counts(users: map<string, Profile>, actions: seq<Action>) {
    && (forall name :: Author(name) in users <==> PostsOf(actions, name) > 0)
    && (forall name :: Author(name) in users ==>
          users[Author(name)] == Profile(Shown(name), PostsOf(actions, name), FirstPost(actions, name)))
    && (forall u :: u in users ==> exists name :: u == Author(name))
  }

  lemma AuthorsDiffer(m: string, n: string)
    requires Author(m) == Author(n)
    ensures m == n
  {
    assert Author(m)[6..] == m && Author(n)[6..] == n;
  }

  /** How a request changes the users. */
  lemma UsersOfNext(s: State, before: seq<Action>, a: Action)
    requires Holds(s, before)
    ensures Next(s, a).users ==
            if Succeeds(before, a) then CountPost(s.users, Author(a.name), Shown(a.name), a.now) else s.users
  {
    hide CountPost;
    if a.Answer? {
      assert forall t :: 0 <= t < |s.threads| ==> s.threads[t].thread.id == t + 1;
      LookupIsIndex(s.threads, a.threadId);
      hide Lookup;
    }
  }

  lemma CountsGrow(users: map<string, Profile>, actions: seq<Action>)
    requires actions != [] && Counts(users, actions[..|actions| - 1])
    requires Succeeds(actions[..|actions| - 1], actions[|actions| - 1])
    ensures var a := actions[|actions| - 1];
            Counts(CountPost(users, Author(a.name), Shown(a.name), a.now), actions)
  {
    var before, a := actions[..|actions| - 1], actions[|actions| - 1];
    var users' := CountPost(users, Author(a.name), Shown(a.name), a.now);
    hide Succeeds, Author;
    forall name
      ensures Author(name) in users' <==> PostsOf(actions, name) > 0
      ensures Author(name) in users' ==>
                users'[Author(name)] == Profile(Shown(name), PostsOf(actions, name), FirstPost(actions, name))
    {
      if name != a.name && Author(name) == Author(a.name) {
        AuthorsDiffer(name, a.name);
      }
    }
  }

  lemma CountsStay(users: map<string, Profile>, actions: seq<Action>)
    requires actions != [] && Counts(users, actions[..|actions| - 1])
    requires !Succeeds(actions[..|actions| - 1], actions[|actions| - 1])
    ensures Counts(users, actions)
  {
    hide Author;
  }

  /** In every run a user's post count is the number of threads and accepted answers under its name. */
  lemma {:induction false} UsersAreAuthors(actions: seq<Action>)
    ensures Counts(Run(actions).users, actions)
  {
    hide Counts, Holds, Succeeds, Next, CountPost;
    if actions == [] {
      NoUsers();
    } else {
      var before, a := actions[..|actions| - 1], actions[|actions| - 1];
      UsersAreAuthors(before);
      ThreadsAreRequests(before);
      UsersOfNext(Run(before), before, a);
      if Succeeds(before, a) {
        CountsGrow(Run(before).users, actions);
      } else {
        CountsStay(Run(before).users, actions);
      }
    }
  }

  lemma NoUsers()
    ensures Counts(map[], [])
  {
  }
}
