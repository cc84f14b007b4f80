/** The command idempotency cache shared by concurrent clients: mecomserver/router.go,
    commandIdempotencyCache.Do.

    The part of Do between two lock operations is one atomic step.  A client reads the
    clock before it takes the lock, so the time it looks up with may be stale.
  */
module CommandCache {
  import opened Wrappers
  import MeComFrames

  /** The trimmed frame text. */
  type Key = MeComFrames.Text

  type Reply = Result<string, string>

  datatype Outcome = Outcome(expires: int, reply: Reply)

  /** A cache entry is one execution; its position in the log is its identity.  `sends` lists the times at which its
      routing put the frame on a downstream queue. */
  datatype Execution = Execution(key: Key, owner: nat, started: int, sends: seq<int>, outcome: Option<Outcome>)

  datatype Table = Table(ttl: int, entries: map<Key, nat>, log: seq<Execution>)

  // ---------- The critical sections ----------

  predicate Expired(t: Table, k: Key, now: int)
    requires k in t.entries && t.entries[k] < |t.log|
  {
    t.log[t.entries[k]].outcome.Some? && now > t.log[t.entries[k]].outcome.value.expires
  }

  predicate Wellformed(t: Table) {
    forall k :: k in t.entries ==> t.entries[k] < |t.log| && t.log[t.entries[k]].key == k
  }

  function Pruned(t: Table, now: int): (r: Table)
    requires Wellformed(t)
    ensures Wellformed(r)
  {
    t.(entries := map k | k in t.entries && !Expired(t, k, now) :: t.entries[k])
  }

  /** An entry that a caller with clock reading `now` joins. */
  predicate Joinable(t: Table, k: Key, now: int)
    requires Wellformed(t)
  {
    && k in t.entries
    && (t.log[t.entries[k]].outcome.None? || now < t.log[t.entries[k]].outcome.value.expires)
  }

  /** The lookup section: prune, then join or open an execution. */
  function LookedUp(t: Table, k: Key, client: nat, now: int, clock: int): (r: Table)
    requires Wellformed(t)
  {
    var p := Pruned(t, now);
    if Joinable(p, k, now) then p
    else p.(entries := p.entries[k := |p.log|], log := p.log + [Execution(k, client, clock, [], None)])
  }

  function Finished(t: Table, e: nat, clock: int, reply: Reply): Table
    requires e < |t.log|
  {
    t.(log := t.log[e := t.log[e].(outcome := Some(Outcome(clock + t.ttl, reply)))])
  }

  class Cache {
    var ttl: int
    var entries: map<Key, nat>
    var log: seq<Execution>

    function State(): Table
      reads this
    {
      Table(ttl, entries, log)
    }

    constructor (ttl: int)
      requires ttl > 0
      ensures State() == Table(ttl, map[], [])
    {
      this.ttl, entries, log := ttl, map[], [];
    }

    method Prune(now: int)
      requires Wellformed(State())
      modifies this`entries
      ensures State() == Pruned(old(State()), now)
    {
      var left := entries.Keys;
      while left != {}
        invariant left <= entries.Keys <= old(entries.Keys)
        invariant Wellformed(State())
        invariant forall k :: k in entries ==> entries[k] == old(entries[k])
        invariant forall k :: k in old(entries.Keys) && k !in left ==>
                    (k in entries <==> !Expired(old(State()), k, now))
        invariant forall k :: k in left ==> k in entries
        decreases left
      {
        var k :| k in left;
        left := left - {k};
        var entry := log[entries[k]];
        if entry.outcome.Some? && now > entry.outcome.value.expires {
          entries := entries - {k};
        }
      }
      assert entries == Pruned(old(State()), now).entries;
    }

    /** Do up to the first unlock: the entry this caller waits for, or the one it must execute. */
    method Lookup(key: Key, client: nat, now: int, clock: int) returns (entry: nat, joined: bool)
      requires Wellformed(State())
      modifies this`entries, this`log
      ensures State() == LookedUp(old(State()), key, client, now, clock)
      ensures joined == Joinable(Pruned(old(State()), now), key, now)
      ensures key in entries && entry == entries[key]
    {
      Prune(now);
      if key in entries && (log[entries[key]].outcome.None? || now < log[entries[key]].outcome.value.expires) {
        return entries[key], true;
      }
      entry, joined := |log|, false;
      entries, log := entries[key := |log|], log + [Execution(key, client, clock, [], None)];
    }

    /** Do after the route has answered. */
    method Complete(entry: nat, clock: int, reply: Reply)
      requires entry < |log|
      modifies this`log
      ensures State() == Finished(old(State()), entry, clock, reply)
    {
      log := log[entry := log[entry].(outcome := Some(Outcome(clock + ttl, reply)))];
    }
  }

  // ---------- Interleaved clients ----------

  datatype Phase =
    | Called(key: Key, now: int)
    | Waiting(key: Key, now: int, entry: nat)
    | Executing(key: Key, now: int, entry: nat)
    | Answered(key: Key, now: int, entry: nat, reply: Reply)

  datatype World = World(table: Table, clock: int, clients: map<nat, Phase>)

  /** `Send` puts the frame on a downstream queue; how often an execution does so is up to its routing. */
  datatype Action =
    | Tick(delta: nat)
    | Call(client: nat, key: Key)
    | Look(client: nat)
    | Send(client: nat)
    | Complete(client: nat, reply: Reply)
    | Join(client: nat)
    | Return(client: nat)

  function Start(ttl: int): World {
    World(Table(ttl, map[], []), 0, map[])
  }

  /** One step; an action that is not enabled changes nothing. */
  function Apply(w: World, a: Action): World
    requires Inv(w)
  {
    match a
    case Tick(delta) => w.(clock := w.clock + delta)
    case Call(c, key) => if c in w.clients then w else w.(clients := w.clients[c := Called(key, w.clock)])
    case Look(c) =>
      if c !in w.clients || !w.clients[c].Called? then w
      else
        var Called(key, now) := w.clients[c];
        var t := LookedUp(w.table, key, c, now, w.clock);
        var phase := if Joinable(Pruned(w.table, now), key, now)
                     then Waiting(key, now, t.entries[key]) else Executing(key, now, t.entries[key]);
        w.(table := t, clients := w.clients[c := phase])
    case Send(c) =>
      if c !in w.clients || !w.clients[c].Executing? then w
      else
        var e := w.clients[c].entry;
        var x := w.table.log[e];
        w.(table := w.table.(log := w.table.log[e := x.(sends := x.sends + [w.clock])]))
    case Complete(c, reply) =>
      if c !in w.clients || !w.clients[c].Executing? then w
      else
        var Executing(key, now, e) := w.clients[c];
        w.(table := Finished(w.table, e, w.clock, reply), clients := w.clients[c := Answered(key, now, e, reply)])
    case Join(c) =>
      if c !in w.clients || !w.clients[c].Waiting? then w
      else
        var Waiting(key, now, e) := w.clients[c];
        if w.table.log[e].outcome.None? then w
        else w.(clients := w.clients[c := Answered(key, now, e, w.table.log[e].outcome.value.reply)])
    case Return(c) =>
      if c !in w.clients || !w.clients[c].Answered? then w else w.(clients := w.clients - {c})
  }

  /** What holds of one execution. */
  ghost predicate ExecutionInv(w: World, e: nat)
    requires e < |w.table.log|
  {
    var x := w.table.log[e];
    && x.started <= w.clock
    && (forall i :: 0 <= i < |x.sends| ==> x.started <= x.sends[i] <= w.clock)
    && (x.outcome.Some? ==>
          && x.started + w.table.ttl <= x.outcome.value.expires <= w.clock + w.table.ttl
          && (forall i :: 0 <= i < |x.sends| ==> x.sends[i] + w.table.ttl <= x.outcome.value.expires))
    && (x.outcome.None? ==> x.owner in w.clients && w.clients[x.owner].Executing? && w.clients[x.owner].entry == e)
    && ((x.key in w.table.entries && w.table.entries[x.key] == e) ||
        (x.outcome.Some? && x.outcome.value.expires <= w.clock))
  }

  /** A later execution of a key starts only after the earlier one has finished and its time has passed. */
  ghost predicate Spaced(t: Table, e: nat, f: nat)
    requires e < |t.log| && f < |t.log|
  {
    e < f && t.log[e].key == t.log[f].key ==>
      t.log[e].outcome.Some? && t.log[e].outcome.value.expires <= t.log[f].started
  }

  /** What holds of one client. */
  ghost predicate ClientInv(w: World, c: nat)
    requires c in w.clients
  {
    var p := w.clients[c];
    && p.now <= w.clock
    && match p
       case Called(_, _) => true
       case Waiting(key, now, e) =>
         && e < |w.table.log| && w.table.log[e].key == key
         && (w.table.log[e].outcome.Some? ==> now < w.table.log[e].outcome.value.expires)
       case Executing(key, now, e) =>
         && e < |w.table.log| && w.table.log[e].key == key && w.table.log[e].owner == c
         && w.table.log[e].outcome.None?
       case Answered(key, now, e, reply) =>
         && e < |w.table.log| && w.table.log[e].key == key && w.table.log[e].outcome.Some?
         && w.table.log[e].outcome.value.reply == reply && now < w.table.log[e].outcome.value.expires
  }

  ghost predicate Inv(w: World) {
    && w.table.ttl > 0 && Wellformed(w.table)
    && (forall e :: 0 <= e < |w.table.log| ==> ExecutionInv(w, e))
    && (forall e, f :: 0 <= e < |w.table.log| && 0 <= f < |w.table.log| ==> Spaced(w.table, e, f))
    && (forall c :: c in w.clients ==> ClientInv(w, c))
  }

  // ---------- Every step keeps the invariant ----------

  lemma TickKeeps(w: World, delta: nat)
    requires Inv(w)
    ensures Inv(Apply(w, Tick(delta)))
  {
    var v := Apply(w, Tick(delta));
    forall e | 0 <= e < |v.table.log| ensures ExecutionInv(v, e) { assert ExecutionInv(w, e); }
    forall c | c in v.clients ensures ClientInv(v, c) { assert ClientInv(w, c); }
  }

  /** Changing the phase of one client that executes neither before nor after. */
  lemma PhaseKeeps(w: World, v: World, c: nat)
    requires Inv(w) && v.table == w.table && v.clock == w.clock
    requires c in w.clients ==> !w.clients[c].Executing?
    requires c in v.clients ==> ClientInv(v, c)
    requires forall d :: d != c ==> (d in v.clients <==> d in w.clients)
    requires forall d :: d != c && d in v.clients ==> v.clients[d] == w.clients[d]
    ensures Inv(v)
  {
    forall e | 0 <= e < |v.table.log| ensures ExecutionInv(v, e) { assert ExecutionInv(w, e); }
    forall d | d in v.clients ensures ClientInv(v, d) {
      if d != c { assert ClientInv(w, d); }
    }
  }

  lemma CallKeeps(w: World, c: nat, key: Key)
    requires Inv(w)
    ensures Inv(Apply(w, Call(c, key)))
  {
    if c !in w.clients {
      PhaseKeeps(w, Apply(w, Call(c, key)), c);
    }
  }

  lemma JoinKeeps(w: World, c: nat)
    requires Inv(w)
    ensures Inv(Apply(w, Join(c)))
  {
    if c in w.clients && w.clients[c].Waiting? {
      assert ClientInv(w, c);
      PhaseKeeps(w, Apply(w, Join(c)), c);
    }
  }

  lemma ReturnKeeps(w: World, c: nat)
    requires Inv(w)
    ensures Inv(Apply(w, Return(c)))
  {
    if c in w.clients && w.clients[c].Answered? {
      PhaseKeeps(w, Apply(w, Return(c)), c);
    }
  }

  /** Pruning drops only executions whose time has passed. */
  lemma PruneKeeps(w: World, now: int)
    requires Inv(w) && now <= w.clock
    ensures Inv(w.(table := Pruned(w.table, now)))
  {
    var v := w.(table := Pruned(w.table, now));
    forall e | 0 <= e < |v.table.log| ensures ExecutionInv(v, e) { assert ExecutionInv(w, e); }
    forall e, f | 0 <= e < |v.table.log| && 0 <= f < |v.table.log| ensures Spaced(v.table, e, f) {
      assert Spaced(w.table, e, f);
    }
    forall c | c in v.clients ensures ClientInv(v, c) { assert ClientInv(w, c); }
  }

  /** The world after client `c` has opened an execution. */
  function Opened(w: World, c: nat, key: Key, now: int): World {
    var n := |w.table.log|;
    World(Table(w.table.ttl, w.table.entries[key := n], w.table.log + [Execution(key, c, w.clock, [], None)]),
          w.clock, w.clients[c := Executing(key, now, n)])
  }

  lemma OpenKeeps(w: World, c: nat, key: Key, now: int)
    requires Inv(w) && now <= w.clock && c in w.clients && w.clients[c].Called? && !Joinable(w.table, key, now)
    ensures Inv(Opened(w, c, key, now))
  {
    var v, n := Opened(w, c, key, now), |w.table.log|;
    forall e | 0 <= e < n && w.table.log[e].key == key
      ensures w.table.log[e].outcome.Some? && w.table.log[e].outcome.value.expires <= w.clock
    {
      assert ExecutionInv(w, e);
    }
    forall e | 0 <= e < |v.table.log| ensures ExecutionInv(v, e) {
      if e < n { assert ExecutionInv(w, e); }
    }
    forall e, f | 0 <= e < |v.table.log| && 0 <= f < |v.table.log| ensures Spaced(v.table, e, f) {
      if e < n && f < n { assert Spaced(w.table, e, f); }
    }
    forall d | d in v.clients ensures ClientInv(v, d) {
      if d != c { assert ClientInv(w, d); }
    }
  }

  lemma LookKeeps(w: World, c: nat)
    requires Inv(w)
    ensures Inv(Apply(w, Look(c)))
  {
    if c in w.clients && w.clients[c].Called? {
      assert ClientInv(w, c);
      var Called(key, now) := w.clients[c];
      PruneKeeps(w, now);
      var p := w.(table := Pruned(w.table, now));
      if Joinable(p.table, key, now) {
        PhaseKeeps(p, Apply(w, Look(c)), c);
      } else {
        OpenKeeps(p, c, key, now);
        assert Apply(w, Look(c)) == Opened(p, c, key, now);
      }
    }
  }

  /** Replacing the record of the execution that client `c` runs. */
  lemma UpdateKeeps(w: World, v: World, c: nat, e: nat)
    requires Inv(w) && c in w.clients && w.clients[c].Executing? && w.clients[c].entry == e && e < |w.table.log|
    requires v.clock == w.clock && v.table.ttl == w.table.ttl && v.table.entries == w.table.entries
    requires |v.table.log| == |w.table.log|
    requires forall f :: 0 <= f < |w.table.log| && f != e ==> v.table.log[f] == w.table.log[f]
    requires v.table.log[e].key == w.table.log[e].key && v.table.log[e].started == w.table.log[e].started
    requires v.clients.Keys == w.clients.Keys && forall d :: d in w.clients && d != c ==> v.clients[d] == w.clients[d]
    requires ExecutionInv(v, e) && ClientInv(v, c)
    requires v.table.log[e].outcome.Some? ==> v.table.log[e].outcome.value.expires == w.clock + w.table.ttl
    ensures Inv(v)
  {
    assert ClientInv(w, c);
    forall f | 0 <= f < |v.table.log| ensures ExecutionInv(v, f) {
      if f != e {
        assert ExecutionInv(w, f);
      }
    }
    forall f, g | 0 <= f < |v.table.log| && 0 <= g < |v.table.log| ensures Spaced(v.table, f, g) {
      assert Spaced(w.table, f, g);
    }
    forall d | d in v.clients ensures ClientInv(v, d) {
      if d != c { assert ClientInv(w, d); }
    }
  }

  lemma SendKeeps(w: World, c: nat)
    requires Inv(w)
    ensures Inv(Apply(w, Send(c)))
  {
    if c in w.clients && w.clients[c].Executing? {
      assert ClientInv(w, c);
      var e := w.clients[c].entry;
      assert ExecutionInv(w, e);
      UpdateKeeps(w, Apply(w, Send(c)), c, e);
    }
  }

  lemma CompleteKeeps(w: World, c: nat, reply: Reply)
    requires Inv(w)
    ensures Inv(Apply(w, Complete(c, reply)))
  {
    if c in w.clients && w.clients[c].Executing? {
      assert ClientInv(w, c);
      var e := w.clients[c].entry;
      assert ExecutionInv(w, e);
      UpdateKeeps(w, Apply(w, Complete(c, reply)), c, e);
    }
  }

  lemma StepKeeps(w: World, a: Action)
    requires Inv(w)
    ensures Inv(Apply(w, a))
  {
    match a
    case Tick(delta) => TickKeeps(w, delta);
    case Call(c, key) => CallKeeps(w, c, key);
    case Look(c) => LookKeeps(w, c);
    case Send(c) => SendKeeps(w, c);
    case Complete(c, reply) => CompleteKeeps(w, c, reply);
    case Join(c) => JoinKeeps(w, c);
    case Return(c) => ReturnKeeps(w, c);
  }

  /** Worlds reached from `Start(ttl)` by the first `n` actions. */
  ghost function After(ttl: int, actions: seq<Action>, n: nat): (w: World)
    requires ttl > 0 && n <= |actions|
    ensures Inv(w)
  {
    if n == 0 then Start(ttl)
    else
      StepKeeps(After(ttl, actions, n - 1), actions[n - 1]);
      Apply(After(ttl, actions, n - 1), actions[n - 1])
  }

  // ---------- What clients and devices can rely on, in every reachable world ----------

  /** Per key at most one execution is in flight, and it is being run by its owner. */
  lemma OneInFlight(ttl: int, actions: seq<Action>, n: nat, e: nat, f: nat)
    requires ttl > 0 && n <= |actions|
    requires var log := After(ttl, actions, n).table.log;
             e < |log| && f < |log| && log[e].key == log[f].key && log[e].outcome.None? && log[f].outcome.None?
    ensures e == f
    ensures var w := After(ttl, actions, n); var owner := w.table.log[e].owner;
            owner in w.clients && w.clients[owner].Executing? && w.clients[owner].entry == e
  {
    var w := After(ttl, actions, n);
    assert ExecutionInv(w, e);
    assert Spaced(w.table, e, f) && Spaced(w.table, f, e);
  }

  /** Executions of one key, and hence what they send downstream, are at least the TTL apart. */
  lemma ExecutionsSpaced(ttl: int, actions: seq<Action>, n: nat, e: nat, f: nat)
    requires ttl > 0 && n <= |actions|
    requires var log := After(ttl, actions, n).table.log; e < f < |log| && log[e].key == log[f].key
    ensures var log := After(ttl, actions, n).table.log;
            && log[e].outcome.Some? && log[f].started >= log[e].outcome.value.expires >= log[e].started + ttl
            && forall i, j :: 0 <= i < |log[e].sends| && 0 <= j < |log[f].sends| ==>
                 log[f].sends[j] >= log[e].sends[i] + ttl
  {
    AfterTtl(ttl, actions, n);
    var w := After(ttl, actions, n);
    assert ExecutionInv(w, e) && ExecutionInv(w, f);
    assert Spaced(w.table, e, f);
  }

  /** In any window of one TTL only one execution of a key sends anything downstream. */
  lemma OneSenderPerWindow(ttl: int, actions: seq<Action>, n: nat, from: int, e: nat, i: nat, f: nat, j: nat)
    requires ttl > 0 && n <= |actions|
    requires var log := After(ttl, actions, n).table.log;
             && e < |log| && f < |log| && log[e].key == log[f].key
             && i < |log[e].sends| && from <= log[e].sends[i] < from + ttl
             && j < |log[f].sends| && from <= log[f].sends[j] < from + ttl
    ensures e == f
  {
    if e < f {
      ExecutionsSpaced(ttl, actions, n, e, f);
    } else if f < e {
      ExecutionsSpaced(ttl, actions, n, f, e);
    }
  }

  lemma {:induction false} AfterTtl(ttl: int, actions: seq<Action>, n: nat)
    requires ttl > 0 && n <= |actions|
    ensures After(ttl, actions, n).table.ttl == ttl
  {
    if n > 0 {
      AfterTtl(ttl, actions, n - 1);
    }
  }

  /** A caller gets the reply of an execution of its own key that was in flight or unexpired when it read the clock. */
  lemma AnswerIsFresh(ttl: int, actions: seq<Action>, n: nat, c: nat)
    requires ttl > 0 && n <= |actions|
    requires c in After(ttl, actions, n).clients && After(ttl, actions, n).clients[c].Answered?
    ensures var w := After(ttl, actions, n); var Answered(key, now, e, reply) := w.clients[c];
            && e < |w.table.log| && w.table.log[e].key == key
            && w.table.log[e].outcome.Some? && w.table.log[e].outcome.value.reply == reply
            && now < w.table.log[e].outcome.value.expires
  {
    assert ClientInv(After(ttl, actions, n), c);
  }

  /** A client waits only for an execution that has finished or is being run: no wait is orphaned. */
  lemma WaitIsServed(ttl: int, actions: seq<Action>, n: nat, c: nat)
    requires ttl > 0 && n <= |actions|
    requires c in After(ttl, actions, n).clients && After(ttl, actions, n).clients[c].Waiting?
    ensures var w := After(ttl, actions, n); var e := w.clients[c].entry;
            && e < |w.table.log|
            && (w.table.log[e].outcome.Some? ||
                var owner := w.table.log[e].owner;
                owner in w.clients && w.clients[owner].Executing? && w.clients[owner].entry == e)
  {
    var w := After(ttl, actions, n);
    assert ClientInv(w, c);
    assert ExecutionInv(w, w.clients[c].entry);
  }

  /** The outcome of an execution and what it has sent are never changed afterwards. */
  lemma RecordsArePermanent(w: World, a: Action, e: nat)
    requires Inv(w) && e < |w.table.log|
    ensures var v := Apply(w, a);
            && e < |v.table.log| && v.table.log[e].key == w.table.log[e].key
            && v.table.log[e].owner == w.table.log[e].owner
            && v.table.log[e].started == w.table.log[e].started
            && (w.table.log[e].outcome.Some? ==> v.table.log[e] == w.table.log[e])
            && w.table.log[e].sends <= v.table.log[e].sends
  {
    if !a.Tick? && a.client in w.clients {
      assert ClientInv(w, a.client);
    }
  }

  // ---------- A caller's own execution ----------

  /** The client's call for `key` has opened or joined the entry `e`. */
  ghost predicate Holds(w: World, c: nat, key: Key, e: nat) {
    c in w.clients && !w.clients[c].Called? && w.clients[c].key == key && w.clients[c].entry == e
  }

  lemma HoldsOn(w: World, a: Action, c: nat, key: Key, e: nat)
    requires Inv(w) && Holds(w, c, key, e) && a != Return(c)
    ensures Holds(Apply(w, a), c, key, e)
  {
  }

  lemma AfterStep(ttl: int, actions: seq<Action>, n: nat)
    requires ttl > 0 && n < |actions|
    ensures After(ttl, actions, n + 1) == Apply(After(ttl, actions, n), actions[n])
  {
  }

  lemma {:induction false} HoldsUntil(ttl: int, actions: seq<Action>, m: nat, n: nat, c: nat, key: Key, e: nat)
    requires ttl > 0 && m <= n <= |actions| && Holds(After(ttl, actions, m), c, key, e)
    requires forall i :: m <= i < n ==> actions[i] != Return(c)
    ensures Holds(After(ttl, actions, n), c, key, e)
    decreases n
  {
    if m < n {
      HoldsUntil(ttl, actions, m, n - 1, c, key, e);
      AfterStep(ttl, actions, n - 1);
      HoldsOn(After(ttl, actions, n - 1), actions[n - 1], c, key, e);
    }
  }

  /** The entry `e` is the one a call opens when it looks, or one in flight or unexpired by the clock the call had
      read. */
  ghost predicate OwnOrFresh(w: World, c: nat, e: nat)
    requires c in w.clients
  {
    || e == |w.table.log|
    || (&& e < |w.table.log| && w.table.log[e].key == w.clients[c].key
        && (w.table.log[e].outcome.Some? ==> w.clients[c].now < w.table.log[e].outcome.value.expires))
  }

  lemma LookHolds(w: World, c: nat) returns (e: nat)
    requires Inv(w) && c in w.clients && w.clients[c].Called?
    ensures OwnOrFresh(w, c, e) && Holds(Apply(w, Look(c)), c, w.clients[c].key, e)
  {
    e := Apply(w, Look(c)).clients[c].entry;
  }

  /** The client holds the entry, and once it is answered, it has the reply of that entry. */
  ghost predicate Served(w: World, c: nat, key: Key, e: nat) {
    && Holds(w, c, key, e)
    && (w.clients[c].Answered? ==>
          && e < |w.table.log| && w.table.log[e].key == key && w.table.log[e].outcome.Some?
          && w.clients[c].reply == w.table.log[e].outcome.value.reply)
  }

  lemma LookedEntry(ttl: int, actions: seq<Action>, m: nat, c: nat, key: Key) returns (e: nat)
    requires ttl > 0 && m < |actions| && actions[m] == Look(c) && c in After(ttl, actions, m).clients
    requires After(ttl, actions, m).clients[c].Called? && After(ttl, actions, m).clients[c].key == key
    ensures OwnOrFresh(After(ttl, actions, m), c, e) && Holds(After(ttl, actions, m + 1), c, key, e)
  {
    var w := After(ttl, actions, m);
    e := LookHolds(w, c);
    AfterStep(ttl, actions, m);
  }

  /** A call gets the reply of the very execution it opened itself when it looked, or joined while it was in flight or
      unexpired by the clock the call had read. */
  lemma AnswerIsOwnOrJoined(ttl: int, actions: seq<Action>, m: nat, n: nat, c: nat, key: Key) returns (e: nat)
    requires ttl > 0 && m < n <= |actions| && actions[m] == Look(c) && c in After(ttl, actions, m).clients
    requires After(ttl, actions, m).clients[c].Called? && After(ttl, actions, m).clients[c].key == key
    requires forall i :: m < i < n ==> actions[i] != Return(c)
    ensures OwnOrFresh(After(ttl, actions, m), c, e) && Served(After(ttl, actions, n), c, key, e)
  {
    e := LookedEntry(ttl, actions, m, c, key);
    HoldsUntil(ttl, actions, m + 1, n, c, key, e);
    HeldReply(After(ttl, actions, n), c, key, e);
  }

  lemma HeldReply(w: World, c: nat, key: Key, e: nat)
    requires Inv(w) && Holds(w, c, key, e)
    ensures Served(w, c, key, e)
  {
    assert ClientInv(w, c);
  }

  /** A client opens an execution only if no unexpired one of its key exists at the time it looks. */
  lemma OpensOnlyWhenNeeded(w: World, c: nat)
    requires Inv(w) && c in w.clients && w.clients[c].Called?
    requires Apply(w, Look(c)).clients[c].Executing?
    ensures forall e :: 0 <= e < |w.table.log| && w.table.log[e].key == w.clients[c].key ==>
              w.table.log[e].outcome.Some? && w.table.log[e].outcome.value.expires <= w.clock
  {
    assert ClientInv(w, c);
    forall e | 0 <= e < |w.table.log| && w.table.log[e].key == w.clients[c].key
      ensures w.table.log[e].outcome.Some? && w.table.log[e].outcome.value.expires <= w.clock
    {
      assert ExecutionInv(w, e);
    }
  }

  // ---------- Where the records come from ----------

  /** The client of the action runs execution `e`. */
  ghost predicate ActsFor(w: World, a: Action, e: nat) {
    !a.Tick? && a.client in w.clients && w.clients[a.client].Executing? && w.clients[a.client].entry == e
  }

  /** What one step does to the record of an execution. */
  lemma RecordStep(w: World, a: Action, e: nat)
    requires Inv(w) && e < |w.table.log|
    ensures var x, y := w.table.log[e], Apply(w, a).table.log[e];
            && y.sends == x.sends + (if a.Send? && ActsFor(w, a, e) then [w.clock] else [])
            && y.outcome == if a.Complete? && ActsFor(w, a, e) then Some(Outcome(w.clock + w.table.ttl, a.reply))
                            else x.outcome
  {
    RecordsArePermanent(w, a, e);
    if !a.Tick? && a.client in w.clients { assert ClientInv(w, a.client); }
  }

  /** What one step adds to the log. */
  lemma LogStep(w: World, a: Action)
    requires Inv(w)
    ensures var n, log := |w.table.log|, Apply(w, a).table.log;
            && n <= |log| <= n + 1
            && (|log| > n ==>
                  && a.Look? && a.client in w.clients && w.clients[a.client].Called?
                  && log[n] == Execution(w.clients[a.client].key, a.client, w.clock, [], None))
    ensures forall e :: e >= |w.table.log| ==> !ActsFor(w, a, e)
  {
    if !a.Tick? && a.client in w.clients { assert ClientInv(w, a.client); }
  }

  lemma SendStep(w: World, a: Action, e: nat, i: nat)
    requires Inv(w) && e < |Apply(w, a).table.log| && i < |Apply(w, a).table.log[e].sends|
    ensures var known := e < |w.table.log| && i < |w.table.log[e].sends|;
            && (known ==> Apply(w, a).table.log[e].sends[i] == w.table.log[e].sends[i])
            && (!known ==> a.Send? && ActsFor(w, a, e) && Apply(w, a).table.log[e].sends[i] == w.clock)
  {
    LogStep(w, a);
    if e < |w.table.log| { RecordStep(w, a, e); }
  }

  /** The action is the look of this client, at this time, in its call for the key. */
  ghost predicate Looks(w: World, a: Action, owner: nat, key: Key, started: int) {
    && a == Look(owner) && owner in w.clients && w.clients[owner].Called? && w.clients[owner].key == key
    && w.clock == started
  }

  lemma OpenStep(w: World, a: Action, e: nat)
    requires Inv(w) && e < |Apply(w, a).table.log|
    ensures var x := Apply(w, a).table.log[e];
            if e < |w.table.log| then x.owner == w.table.log[e].owner && x.key == w.table.log[e].key
                                      && x.started == w.table.log[e].started
            else Looks(w, a, x.owner, x.key, x.started)
  {
    LogStep(w, a);
    if e < |w.table.log| { RecordsArePermanent(w, a, e); }
  }

  /** The action completes execution `e` with this reply, good until `expires`. */
  ghost predicate Completes(w: World, a: Action, e: nat, o: Outcome) {
    a.Complete? && ActsFor(w, a, e) && o == Outcome(w.clock + w.table.ttl, a.reply)
  }

  lemma OutcomeStep(w: World, a: Action, e: nat)
    requires Inv(w) && e < |Apply(w, a).table.log| && Apply(w, a).table.log[e].outcome.Some?
    ensures var o := Apply(w, a).table.log[e].outcome.value;
            Completes(w, a, e, o) || (e < |w.table.log| && w.table.log[e].outcome == Some(o))
  {
    LogStep(w, a);
    if e < |w.table.log| { RecordStep(w, a, e); }
  }

  lemma LastStep(ttl: int, actions: seq<Action>, n: nat)
    requires ttl > 0 && 0 < n <= |actions|
    ensures After(ttl, actions, n) == Apply(After(ttl, actions, n - 1), actions[n - 1])
    ensures After(ttl, actions, n - 1).table.ttl == ttl
  {
    AfterTtl(ttl, actions, n - 1);
  }

  /** The outcome on record is the reply that the client running the execution was given, good for one TTL from then. */
  lemma {:induction false} ReplyIsGiven(ttl: int, actions: seq<Action>, n: nat, e: nat) returns (k: nat)
    requires ttl > 0 && n <= |actions| && e < |After(ttl, actions, n).table.log|
    requires After(ttl, actions, n).table.log[e].outcome.Some?
    ensures k < n && After(ttl, actions, k).table.ttl == ttl
    ensures Completes(After(ttl, actions, k), actions[k], e, After(ttl, actions, n).table.log[e].outcome.value)
  {
    assert n > 0;
    var w, a := After(ttl, actions, n - 1), actions[n - 1];
    LastStep(ttl, actions, n);
    OutcomeStep(w, a, e);
    if e < |w.table.log| && w.table.log[e].outcome == After(ttl, actions, n).table.log[e].outcome {
      k := ReplyIsGiven(ttl, actions, n - 1, e);
    } else {
      k := n - 1;
    }
  }

  /** How many times clients running execution `e` have sent something. */
  ghost function SendsOf(ttl: int, actions: seq<Action>, n: nat, e: nat): nat
    requires ttl > 0 && n <= |actions|
  {
    if n == 0 then 0
    else
      SendsOf(ttl, actions, n - 1, e)
      + if actions[n - 1].Send? && ActsFor(After(ttl, actions, n - 1), actions[n - 1], e) then 1 else 0
  }

  /** Every send is on record. */
  lemma {:induction false} SendsAreCounted(ttl: int, actions: seq<Action>, n: nat, e: nat)
    requires ttl > 0 && n <= |actions|
    ensures var log := After(ttl, actions, n).table.log;
            SendsOf(ttl, actions, n, e) == if e < |log| then |log[e].sends| else 0
  {
    if n > 0 {
      var w, a := After(ttl, actions, n - 1), actions[n - 1];
      SendsAreCounted(ttl, actions, n - 1, e);
      LastStep(ttl, actions, n);
      LogStep(w, a);
      if e < |w.table.log| { RecordStep(w, a, e); }
    }
  }

  /** A send on record was made, at that time, by a client running the execution. */
  lemma {:induction false} SendIsMade(ttl: int, actions: seq<Action>, n: nat, e: nat, i: nat) returns (k: nat)
    requires ttl > 0 && n <= |actions| && e < |After(ttl, actions, n).table.log|
    requires i < |After(ttl, actions, n).table.log[e].sends|
    ensures k < n && actions[k].Send? && ActsFor(After(ttl, actions, k), actions[k], e)
    ensures After(ttl, actions, n).table.log[e].sends[i] == After(ttl, actions, k).clock
  {
    assert n > 0;
    var w, a := After(ttl, actions, n - 1), actions[n - 1];
    LastStep(ttl, actions, n);
    SendStep(w, a, e, i);
    if e < |w.table.log| && i < |w.table.log[e].sends| {
      k := SendIsMade(ttl, actions, n - 1, e, i);
    } else {
      k := n - 1;
    }
  }

  /** An execution is on record with the client that opened it, its key, and the time at which it looked. */
  lemma {:induction false} OpenedByLooking(ttl: int, actions: seq<Action>, n: nat, e: nat) returns (k: nat)
    requires ttl > 0 && n <= |actions| && e < |After(ttl, actions, n).table.log|
    ensures k < n
    ensures var x := After(ttl, actions, n).table.log[e];
            Looks(After(ttl, actions, k), actions[k], x.owner, x.key, x.started)
  {
    assert n > 0;
    var w, a := After(ttl, actions, n - 1), actions[n - 1];
    LastStep(ttl, actions, n);
    OpenStep(w, a, e);
    if e < |w.table.log| {
      k := OpenedByLooking(ttl, actions, n - 1, e);
    } else {
      k := n - 1;
    }
  }

  /** Pruning removes an entry exactly if its execution has finished and its time has passed. */
  lemma PrunedExactly(t: Table, now: int, k: Key)
    requires Wellformed(t)
    ensures var p := Pruned(t, now);
            && p.log == t.log && p.ttl == t.ttl
            && (k in p.entries <==>
                  && k in t.entries
                  && (match t.log[t.entries[k]].outcome { case None => true case Some(o) => now <= o.expires }))
            && (k in p.entries ==> p.entries[k] == t.entries[k])
  {
  }
}
