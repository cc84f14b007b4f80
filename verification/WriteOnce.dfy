/** Identical writes, from the client to the downstream queues: mecomserver/router.go, handleRoutedClient with the
    command cache and routeFrame.

    Every execution in the cache routes one frame; what it sends are, one after the other, the requests of that
    routing. */
module WriteOnce {
  import opened Wrappers
  import opened MeComFrames
  import opened RouteFrame
  import opened CommandCache

  /** commandIdempotencyKey: the trimmed text; none for an empty frame or a read. */
  function CacheKey(u: Unicode, frame: Text): Option<Text> {
    var s := Trim(u, frame);
    if s == [] || IsRead(u, s) then None else Some(s)
  }

  /** Exactly the non-empty frames that are not reads have a key, and it is their trimmed text. */
  lemma KeyedFrames(u: Unicode, frame: Text)
    requires Library(u)
    ensures CacheKey(u, frame).Some? <==> Trim(u, frame) != [] && !IsRead(u, frame)
    ensures CacheKey(u, frame).Some? ==> CacheKey(u, frame).value == Trim(u, frame)
  {
    TrimIdempotent(u, frame);
  }

  /** What an execution has to route. */
  datatype Task = Task(frame: Text, candidates: seq<Candidate>, policy: Policy,
                       outcome: (nat, nat) -> RouteFrame.Outcome)

  function TaskSends(u: Unicode, c: Catalogue, task: Task): seq<Sent> {
    JobOf(u, c, task.frame, task.candidates, task.policy, task.outcome).Sends()
  }

  /** The client runs the execution `e` of `w`. */
  predicate Runs(w: World, client: nat, e: nat) {
    client in w.clients && w.clients[client].Executing? && w.clients[client].entry == e
  }

  /** A step sends only what the routing of the client's execution sends next, and that execution routes a frame of its
      own key. */
  ghost predicate Routed(u: Unicode, c: Catalogue, tasks: nat -> Task, w: World, a: Action) {
    forall e: nat :: a.Send? && e < |w.table.log| && Runs(w, a.client, e) ==>
      && CacheKey(u, tasks(e).frame) == Some(w.table.log[e].key)
      && |w.table.log[e].sends| < |TaskSends(u, c, tasks(e))|
  }

  ghost predicate AllRouted(u: Unicode, c: Catalogue, tasks: nat -> Task, ttl: int, actions: seq<Action>)
    requires ttl > 0
  {
    forall n {:trigger RoutedAt(u, c, tasks, ttl, actions, n)} ::
      0 <= n < |actions| ==> RoutedAt(u, c, tasks, ttl, actions, n)
  }

  ghost predicate RoutedAt(u: Unicode, c: Catalogue, tasks: nat -> Task, ttl: int, actions: seq<Action>, n: nat)
    requires ttl > 0 && n < |actions|
  {
    Routed(u, c, tasks, After(ttl, actions, n), actions[n])
  }

  lemma TaskSendsOnce(u: Unicode, c: Catalogue, task: Task, key: Text)
    requires Library(u) && CacheKey(u, task.frame) == Some(key)
    ensures |TaskSends(u, c, task)| <= 1
  {
    KeyedFrames(u, task.frame);
    var k := WriteSendsOnce(u, c, task.frame, task.candidates, task.policy, task.outcome);
  }

  /** A step adds a send to the execution its client runs, if it is a send, and to no other. */
  lemma StepSends(w: World, a: Action, e: nat)
    requires Inv(w) && e < |Apply(w, a).table.log|
    ensures var x := Apply(w, a).table.log[e];
            if e >= |w.table.log| then x.sends == []
            else if a.Send? && Runs(w, a.client, e) then |x.sends| == |w.table.log[e].sends| + 1
            else x.sends == w.table.log[e].sends
  {
    if !a.Tick? && a.client in w.clients {
      assert ClientInv(w, a.client);
    }
  }

  lemma SentStep(u: Unicode, c: Catalogue, tasks: nat -> Task, w: World, a: Action, e: nat)
    requires Library(u) && Inv(w) && Routed(u, c, tasks, w, a) && e < |Apply(w, a).table.log|
    requires e < |w.table.log| ==> |w.table.log[e].sends| <= 1
    ensures |Apply(w, a).table.log[e].sends| <= 1
  {
    StepSends(w, a, e);
    if e < |w.table.log| && a.Send? && Runs(w, a.client, e) {
      TaskSendsOnce(u, c, tasks(e), w.table.log[e].key);
    }
  }

  lemma {:induction false} SentOnce(u: Unicode, c: Catalogue, tasks: nat -> Task, ttl: int, actions: seq<Action>,
                                    n: nat, e: nat)
    requires Library(u) && ttl > 0 && AllRouted(u, c, tasks, ttl, actions) && n <= |actions|
    requires e < |After(ttl, actions, n).table.log|
    ensures |After(ttl, actions, n).table.log[e].sends| <= 1
  {
    if n > 0 {
      var w := After(ttl, actions, n - 1);
      if e < |w.table.log| {
        SentOnce(u, c, tasks, ttl, actions, n - 1, e);
      }
      AfterStep(ttl, actions, n - 1);
      assert RoutedAt(u, c, tasks, ttl, actions, n - 1);
      SentStep(u, c, tasks, w, actions[n - 1], e);
    }
  }

  /** After any interleaving of clients whose executions send what their routing sends: in any window of one TTL,
      identical writes are put on a downstream queue at most once. */
  lemma WritesOncePerWindow(u: Unicode, c: Catalogue, tasks: nat -> Task, ttl: int, actions: seq<Action>, n: nat,
                            from: int, e: nat, i: nat, f: nat, j: nat)
    requires Library(u) && ttl > 0 && AllRouted(u, c, tasks, ttl, actions) && n <= |actions|
    requires var log := After(ttl, actions, n).table.log;
             && e < |log| && f < |log| && log[e].key == log[f].key
             && i < |log[e].sends| && from <= log[e].sends[i] < from + ttl
             && j < |log[f].sends| && from <= log[f].sends[j] < from + ttl
    ensures e == f && i == j
  {
    OneSenderPerWindow(ttl, actions, n, from, e, i, f, j);
    SentOnce(u, c, tasks, ttl, actions, n, e);
  }
}
