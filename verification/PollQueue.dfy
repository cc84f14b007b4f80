/** Round-robin polling with a priority lane: mecom/pollqueue.go. */
module PollQueue {
  import opened Wrappers
  import Wrapping

  datatype Parameter = Parameter(id: int, instance: int, dataType: string, name: string)

  /** What ParameterKey prints; the printed text determines the three parts. */
  datatype Key = Key(id: int, instance: int, dataType: string)

  function KeyOf(p: Parameter): Key {
    Key(p.id, p.instance, p.dataType)
  }

  /** `value` is the bit pattern of the reading. */
  datatype PollResult = PollResult(parameter: Parameter, value: Option<int>, error: string, observedAt: int)

  datatype Queue = Queue(normal: seq<Parameter>, pos: nat, front: seq<Parameter>,
                         normalSet: set<Key>, frontSet: set<Key>, latest: map<Key, PollResult>)

  const Empty: Queue := Queue([], 0, [], {}, {}, map[])

  function Keys(s: seq<Parameter>): set<Key> {
    set i | 0 <= i < |s| :: KeyOf(s[i])
  }

  ghost predicate DistinctKeys(s: seq<Parameter>) {
    forall i, j :: 0 <= i < j < |s| ==> KeyOf(s[i]) != KeyOf(s[j])
  }

  /** The key sets match the lists, no list repeats a key, and everything queued can be looked up. */
  ghost predicate Valid(q: Queue) {
    && q.normalSet == Keys(q.normal) && q.frontSet == Keys(q.front)
    && DistinctKeys(q.normal) && DistinctKeys(q.front)
    && (if q.normal == [] then q.pos == 0 else q.pos < |q.normal|)
    && q.normalSet <= q.latest.Keys && q.frontSet <= q.latest.Keys
  }

  function Seeded(latest: map<Key, PollResult>, p: Parameter): map<Key, PollResult> {
    if KeyOf(p) in latest then latest else latest[KeyOf(p) := PollResult(p, None, "not_sampled", 0)]
  }

  function Enqueued(q: Queue, p: Parameter): Queue {
    var r := q.(latest := Seeded(q.latest, p));
    if KeyOf(p) in q.normalSet then r
    else r.(normalSet := q.normalSet + {KeyOf(p)}, normal := q.normal + [p])
  }

  function EnqueuedFront(q: Queue, p: Parameter): Queue {
    var r := q.(latest := Seeded(q.latest, p));
    if KeyOf(p) in q.frontSet then r
    else r.(frontSet := q.frontSet + {KeyOf(p)}, front := q.front + [p])
  }

  /** How many front entries a chunk takes. */
  function FrontCount(q: Queue, max: int): nat {
    if max <= 0 then 0 else if max < |q.front| then max else |q.front|
  }

  /** How many normal entries a chunk takes after its front entries. */
  function NormalCount(q: Queue, max: int): nat {
    if max <= 0 then 0
    else if max - FrontCount(q, max) < |q.normal| then max - FrontCount(q, max) else |q.normal|
  }

  /** `k` picks around the list, starting at `pos`. */
  function Cycle(normal: seq<Parameter>, pos: nat, k: nat): (r: seq<Parameter>)
    requires k > 0 ==> normal != []
    ensures |r| == k
  {
    seq(k, i requires 0 <= i < k => normal[Wrapping.Mod(pos + i, |normal|)])
  }

  /** The picks go round the list, starting at `pos`. */
  ghost predicate Cyclic(picks: seq<Parameter>, normal: seq<Parameter>, pos: nat) {
    && normal != []
    && forall i {:trigger picks[i]} :: 0 <= i < |picks| ==> picks[i] == normal[Wrapping.Mod(pos + i, |normal|)]
  }

  lemma CyclicIsCycle(picks: seq<Parameter>, normal: seq<Parameter>, pos: nat)
    requires Cyclic(picks, normal, pos)
    ensures picks == Cycle(normal, pos, |picks|)
  {
  }

  lemma CycleIsCyclic(normal: seq<Parameter>, pos: nat, k: nat)
    requires normal != []
    ensures Cyclic(Cycle(normal, pos, k), normal, pos)
  {
  }

  lemma CyclicJoins(a: seq<Parameter>, b: seq<Parameter>, normal: seq<Parameter>, pos: nat)
    requires Cyclic(a, normal, pos) && Cyclic(b, normal, Wrapping.Mod(pos + |a|, |normal|))
    ensures Cyclic(a + b, normal, pos)
  {
    var c := a + b;
    forall i {:trigger c[i]} | 0 <= i < |c| ensures c[i] == normal[Wrapping.Mod(pos + i, |normal|)] {
      if i < |a| {
        assert c[i] == a[i];
      } else {
        assert c[i] == b[i - |a|];
        Wrapping.ModAdd(pos + |a|, i - |a|, |normal|);
        assert pos + |a| + (i - |a|) == pos + i;
      }
    }
  }

  function Chunk(q: Queue, max: int): seq<Parameter> {
    q.front[..FrontCount(q, max)] + Cycle(q.normal, q.pos, NormalCount(q, max))
  }

  function AfterChunk(q: Queue, max: int): Queue {
    var m, k := FrontCount(q, max), NormalCount(q, max);
    q.(front := q.front[m..], frontSet := q.frontSet - Keys(q.front[..m]),
       pos := if k == 0 then q.pos else Wrapping.Mod(q.pos + k, |q.normal|))
  }

  // ---------- The operations keep the invariant ----------

  lemma KeysAppend(s: seq<Parameter>, p: Parameter)
    ensures Keys(s + [p]) == Keys(s) + {KeyOf(p)}
    ensures DistinctKeys(s) && KeyOf(p) !in Keys(s) ==> DistinctKeys(s + [p])
  {
    var t := s + [p];
    forall k | k in Keys(t) ensures k in Keys(s) + {KeyOf(p)} {
      var i :| 0 <= i < |t| && KeyOf(t[i]) == k;
      if i < |s| { assert t[i] == s[i]; }
    }
    forall k | k in Keys(s) ensures k in Keys(t) {
      var i :| 0 <= i < |s| && KeyOf(s[i]) == k;
      assert t[i] == s[i];
    }
    assert t[|s|] == p;
  }

  lemma KeysMember(s: seq<Parameter>, i: nat)
    requires i < |s|
    ensures KeyOf(s[i]) in Keys(s)
  {
  }

  lemma KeysSplit(s: seq<Parameter>, m: nat)
    requires m <= |s|
    ensures Keys(s) == Keys(s[..m]) + Keys(s[m..])
  {
    forall i | 0 <= i < |s| ensures KeyOf(s[i]) in Keys(s[..m]) + Keys(s[m..]) {
      if i < m { KeysMember(s[..m], i); } else { KeysMember(s[m..], i - m); }
    }
    forall i | 0 <= i < m ensures KeyOf(s[..m][i]) in Keys(s) { KeysMember(s, i); }
    forall i | 0 <= i < |s| - m ensures KeyOf(s[m..][i]) in Keys(s) { KeysMember(s, m + i); }
  }

  lemma KeysDrop(s: seq<Parameter>, m: nat)
    requires m <= |s| && DistinctKeys(s)
    ensures Keys(s[m..]) == Keys(s) - Keys(s[..m]) && DistinctKeys(s[m..])
  {
    KeysSplit(s, m);
    forall i, j | 0 <= i < |s| - m && 0 <= j < m ensures KeyOf(s[m..][i]) != KeyOf(s[..m][j]) {
      assert KeyOf(s[j]) != KeyOf(s[m + i]);
    }
  }

  lemma EnqueueKeeps(q: Queue, p: Parameter)
    requires Valid(q)
    ensures Valid(Enqueued(q, p)) && KeyOf(p) in Enqueued(q, p).normalSet
  {
    KeysAppend(q.normal, p);
  }

  lemma EnqueueFrontKeeps(q: Queue, p: Parameter)
    requires Valid(q)
    ensures Valid(EnqueuedFront(q, p)) && KeyOf(p) in EnqueuedFront(q, p).frontSet
  {
    KeysAppend(q.front, p);
  }

  lemma ChunkKeeps(q: Queue, max: int)
    requires Valid(q)
    ensures Valid(AfterChunk(q, max))
  {
    KeysDrop(q.front, FrontCount(q, max));
  }

  /** Moving one place on. */
  lemma Advance(x: nat, n: nat)
    requires n > 0
    ensures var p := Wrapping.Mod(x, n); Wrapping.Mod(x + 1, n) == if p + 1 >= n then 0 else p + 1
  {
    Wrapping.ModAdd(x, 1, n);
  }

  // ---------- The queue object ----------

  class PollQueue {
    var normal: seq<Parameter>
    var normalPos: nat
    var front: seq<Parameter>
    var normalSet: set<Key>
    var frontSet: set<Key>
    var latest: map<Key, PollResult>

    function State(): Queue
      reads this
    {
      Queue(normal, normalPos, front, normalSet, frontSet, latest)
    }

    ghost predicate Ok()
      reads this
    {
      Valid(State())
    }

    constructor ()
      ensures Ok() && State() == Empty
    {
      normal, normalPos, front, normalSet, frontSet, latest := [], 0, [], {}, {}, map[];
    }

    method SeedLatest(p: Parameter)
      modifies this`latest
      ensures latest == Seeded(old(latest), p)
    {
      if KeyOf(p) !in latest {
        latest := latest[KeyOf(p) := PollResult(p, None, "not_sampled", 0)];
      }
    }

    method Enqueue(p: Parameter)
      requires Ok()
      modifies this
      ensures Ok() && State() == Enqueued(old(State()), p)
    {
      EnqueueKeeps(State(), p);
      SeedLatest(p);
      if KeyOf(p) !in normalSet {
        normalSet := normalSet + {KeyOf(p)};
        normal := normal + [p];
      }
    }

    method EnqueueFront(p: Parameter)
      requires Ok()
      modifies this
      ensures Ok() && State() == EnqueuedFront(old(State()), p)
    {
      EnqueueFrontKeeps(State(), p);
      SeedLatest(p);
      if KeyOf(p) !in frontSet {
        frontSet := frontSet + {KeyOf(p)};
        front := front + [p];
      }
    }

    /** Takes the front entries of a chunk, oldest first. */
    method TakeFront(max: int) returns (out: seq<Parameter>)
      requires max > 0
      modifies this`front, this`frontSet
      ensures out == old(front)[..FrontCount(old(State()), max)]
      ensures front == old(front)[FrontCount(old(State()), max)..]
      ensures frontSet == old(frontSet) - Keys(out)
    {
      out := [];
      while |out| < max && |front| > 0
        invariant |out| <= max && old(front) == out + front
        invariant frontSet == old(frontSet) - Keys(out)
        decreases |front|
      {
        var p := front[0];
        KeysAppend(out, p);
        front := front[1..];
        frontSet := frontSet - {KeyOf(p)};
        out := out + [p];
      }
    }

    /** Takes `count` normal entries, going round. */
    method TakeNormal(count: nat) returns (out: seq<Parameter>)
      requires count > 0 ==> normalPos < |normal|
      modifies this`normalPos
      ensures out == Cycle(normal, old(normalPos), count)
      ensures normalPos == if count == 0 then old(normalPos) else Wrapping.Mod(old(normalPos) + count, |normal|)
    {
      out := [];
      if count == 0 {
        return;
      }
      for taken := 0 to count
        invariant |out| == taken && Cyclic(out, normal, old(normalPos))
        invariant normalPos == Wrapping.Mod(old(normalPos) + taken, |normal|)
      {
        Advance(old(normalPos) + taken, |normal|);
        var p := normal[normalPos];
        normalPos := normalPos + 1;
        if normalPos >= |normal| {
          normalPos := 0;
        }
        out := out + [p];
      }
      CyclicIsCycle(out, normal, old(normalPos));
    }

    method NextChunk(max: int) returns (out: seq<Parameter>)
      requires Ok()
      modifies this
      ensures Ok() && out == Chunk(old(State()), max) && State() == AfterChunk(old(State()), max)
    {
      ChunkKeeps(State(), max);
      if max <= 0 {
        assert Keys([]) == {};
        return [];
      }
      out := TakeFront(max);
      if |normal| == 0 {
        return out;
      }
      var count := if max - |out| < |normal| then max - |out| else |normal|;
      var picks := TakeNormal(count);
      out := out + picks;
    }

    method Record(result: PollResult)
      requires Ok()
      modifies this`latest
      ensures Ok() && latest == old(latest)[KeyOf(result.parameter) := result]
    {
      latest := latest[KeyOf(result.parameter) := result];
    }

    /** Records a bulk read; the last entry of a key wins and no other key is touched. */
    method RecordBulk(params: seq<Parameter>, values: seq<int>, observedAt: int, error: string)
      requires Ok()
      modifies this`latest
      ensures Ok() && forall k :: k in old(latest) && k !in Keys(params) ==> k in latest && latest[k] == old(latest[k])
      ensures forall i :: 0 <= i < |params| && KeyOf(params[i]) !in Keys(params[i + 1..]) ==>
                KeyOf(params[i]) in latest && latest[KeyOf(params[i])]
                == PollResult(params[i], if i < |values| then Some(values[i]) else Some(0), error, observedAt)
    {
      for i := 0 to |params|
        invariant Ok() && latest.Keys >= old(latest).Keys
        invariant forall k :: k in old(latest) && k !in Keys(params) ==> k in latest && latest[k] == old(latest[k])
        invariant forall j :: 0 <= j < i && KeyOf(params[j]) !in Keys(params[j + 1..i]) ==>
                    KeyOf(params[j]) in latest && latest[KeyOf(params[j])]
                    == PollResult(params[j], if j < |values| then Some(values[j]) else Some(0), error, observedAt)
      {
        var p := params[i];
        forall j | 0 <= j < i
          ensures KeyOf(params[j]) !in Keys(params[j + 1..i + 1]) ==>
                    KeyOf(params[j]) !in Keys(params[j + 1..i]) && KeyOf(params[j]) != KeyOf(p)
        {
          assert params[j + 1..i + 1] == params[j + 1..i] + [p];
          KeysAppend(params[j + 1..i], p);
        }
        Record(PollResult(p, if i < |values| then Some(values[i]) else Some(0), error, observedAt));
      }
    }

    method Latest(p: Parameter) returns (r: Option<PollResult>)
      requires Ok()
      ensures KeyOf(p) in normalSet || KeyOf(p) in frontSet ==> r.Some?
      ensures r.Some? <==> KeyOf(p) in latest
      ensures r.Some? ==> r.value == latest[KeyOf(p)]
    {
      r := if KeyOf(p) in latest then Some(latest[KeyOf(p)]) else None;
    }
  }

  // ---------- Whole runs with a fixed normal list ----------

  datatype Action = DoFront(parameter: Parameter) | DoChunk(max: int)

  /** A queue together with what it has handed out and the front entries it has accepted. */
  datatype Trace = Trace(queue: Queue, normalPicks: seq<Parameter>, frontPicks: seq<Parameter>,
                         accepted: seq<Parameter>)

  function Step(t: Trace, a: Action): Trace {
    var q := t.queue;
    match a
    case DoFront(p) =>
      Trace(EnqueuedFront(q, p), t.normalPicks, t.frontPicks,
            if KeyOf(p) in q.frontSet then t.accepted else t.accepted + [p])
    case DoChunk(max) =>
      Trace(AfterChunk(q, max), t.normalPicks + Cycle(q.normal, q.pos, NormalCount(q, max)),
            t.frontPicks + q.front[..FrontCount(q, max)], t.accepted)
  }

  function After(q: Queue, actions: seq<Action>, n: nat): Trace
    requires n <= |actions|
  {
    if n == 0 then Trace(q, [], [], q.front) else Step(After(q, actions, n - 1), actions[n - 1])
  }

  /** The normal picks are one cyclic sequence, and accepted front entries have left in order or are pending. */
  ghost predicate Fair(q: Queue, t: Trace) {
    && Valid(t.queue) && t.queue.normal == q.normal
    && t.accepted == t.frontPicks + t.queue.front
    && (q.normal == [] ==> t.normalPicks == [])
    && (q.normal != [] ==>
          && Cyclic(t.normalPicks, q.normal, q.pos)
          && t.queue.pos == Wrapping.Mod(q.pos + |t.normalPicks|, |q.normal|))
  }

  lemma PicksStep(s: Queue, normal: seq<Parameter>, pos: nat, before: seq<Parameter>, max: int)
    requires Cyclic(before, normal, pos) && s.normal == normal && s.pos == Wrapping.Mod(pos + |before|, |normal|)
    ensures var more := Cycle(s.normal, s.pos, NormalCount(s, max));
            && Cyclic(before + more, normal, pos)
            && AfterChunk(s, max).pos == Wrapping.Mod(pos + |before + more|, |normal|)
  {
    var k := NormalCount(s, max);
    CycleIsCyclic(normal, s.pos, k);
    CyclicJoins(before, Cycle(normal, s.pos, k), normal, pos);
    Wrapping.ModAdd(pos + |before|, k, |normal|);
  }

  lemma FrontStep(accepted: seq<Parameter>, out: seq<Parameter>, front: seq<Parameter>, m: nat)
    requires accepted == out + front && m <= |front|
    ensures accepted == out + front[..m] + front[m..]
  {
  }

  lemma StepKeepsFair(q: Queue, t: Trace, a: Action)
    requires Fair(q, t)
    ensures Fair(q, Step(t, a))
  {
    match a
    case DoFront(p) => EnqueueFrontKeeps(t.queue, p);
    case DoChunk(max) =>
      ChunkKeeps(t.queue, max);
      FrontStep(t.accepted, t.frontPicks, t.queue.front, FrontCount(t.queue, max));
      if q.normal != [] {
        PicksStep(t.queue, q.normal, q.pos, t.normalPicks, max);
      }
  }

  /** Every run is fair: see the two consequences below. */
  lemma {:induction false} RunIsFair(q: Queue, actions: seq<Action>, n: nat)
    requires Valid(q) && n <= |actions|
    ensures Fair(q, After(q, actions, n))
  {
    if n > 0 {
      RunIsFair(q, actions, n - 1);
      StepKeepsFair(q, After(q, actions, n - 1), actions[n - 1]);
    }
  }

  /** The distance from position `from` forward to position `to` of a cycle of `n`. */
  function Ahead(from: nat, to: nat, n: nat): nat
    requires from < n && to < n
  {
    if to >= from then to - from else to + n - from
  }

  lemma AheadReaches(start: nat, to: nat, n: nat)
    requires to < n
    ensures Wrapping.Mod(start + Ahead(Wrapping.Mod(start, n), to, n), n) == to
  {
    var from := Wrapping.Mod(start, n);
    Wrapping.ModAdd(start, Ahead(from, to, n), n);
  }

  /** One full turn of a cyclic sequence meets entry `e` exactly once. */
  lemma TurnMeetsOnce(picks: seq<Parameter>, normal: seq<Parameter>, pos: nat, w: nat, e: nat) returns (k: nat)
    requires Cyclic(picks, normal, pos) && DistinctKeys(normal) && e < |normal| && w + |normal| <= |picks|
    ensures w <= k < w + |normal| && picks[k] == normal[e]
    ensures forall j :: w <= j < w + |normal| && j != k ==> KeyOf(picks[j]) != KeyOf(normal[e])
  {
    var m := |normal|;
    k := w + Ahead(Wrapping.Mod(pos + w, m), e, m);
    AheadReaches(pos + w, e, m);
    assert Wrapping.Mod(pos + k, m) == e;
    forall j | w <= j < w + m && j != k ensures KeyOf(picks[j]) != KeyOf(normal[e]) {
      OtherPlace(pos + j, pos + k, m);
      assert picks[j] == normal[Wrapping.Mod(pos + j, m)];
    }
  }

  lemma OtherPlace(a: nat, b: nat, n: nat)
    requires a != b && a < b + n && b < a + n
    ensures Wrapping.Mod(a, n) != Wrapping.Mod(b, n)
  {
    if a < b { Wrapping.ModDistinct(a, b, n); } else { Wrapping.ModDistinct(b, a, n); }
  }

  /** Any as many consecutive normal picks as there are entries cover every entry exactly once. */
  lemma EveryEntryOnce(q: Queue, actions: seq<Action>, n: nat, w: nat, e: nat) returns (k: nat)
    requires Valid(q) && n <= |actions| && e < |q.normal|
    requires w + |q.normal| <= |After(q, actions, n).normalPicks|
    ensures var picks := After(q, actions, n).normalPicks;
            && w <= k < w + |q.normal| && picks[k] == q.normal[e]
            && forall j :: w <= j < w + |q.normal| && j != k ==> KeyOf(picks[j]) != KeyOf(q.normal[e])
  {
    RunIsFair(q, actions, n);
    k := TurnMeetsOnce(After(q, actions, n).normalPicks, q.normal, q.pos, w, e);
  }

  /** Front entries leave first in, first out, and no key is pending twice. */
  lemma FrontIsFifo(q: Queue, actions: seq<Action>, n: nat)
    requires Valid(q) && n <= |actions|
    ensures var t := After(q, actions, n);
            t.accepted == t.frontPicks + t.queue.front && DistinctKeys(t.queue.front)
  {
    RunIsFair(q, actions, n);
  }

  // ---------- What a chunk holds ----------

  /** A chunk is as long as it may be: all pending front entries first, then the entries of the rotation that are next,
      one turn at most. */
  lemma ChunkFills(q: Queue, max: int)
    requires Valid(q)
    ensures var out, n := Chunk(q, max), |q.front|;
            && |out| == (if max <= 0 then 0 else if max < n + |q.normal| then max else n + |q.normal|)
            && (forall i :: 0 <= i < |out| && i < n ==> out[i] == q.front[i])
            && (forall i :: n <= i < |out| ==> out[i] == q.normal[(q.pos + i - n) % |q.normal|])
    ensures var after, m := AfterChunk(q, max), |Chunk(q, max)|;
            && after.front == q.front[if m < |q.front| then m else |q.front|..] && after.normal == q.normal
            && (m > |q.front| ==> after.pos == (q.pos + m - |q.front|) % |q.normal|)
            && (m <= |q.front| ==> after.pos == q.pos)
  {
    var out, n := Chunk(q, max), |q.front|;
    forall i | n <= i < |out| ensures out[i] == q.normal[(q.pos + i - n) % |q.normal|] {
      Wrapping.ModIsRemainder(q.pos + (i - n), |q.normal|);
    }
    if |out| > n { Wrapping.ModIsRemainder(q.pos + (|out| - n), |q.normal|); }
  }

  /** Queueing puts an entry at the end, once per key, and gives it a place for its result. */
  lemma QueueingAppends(q: Queue, p: Parameter)
    requires Valid(q)
    ensures Enqueued(q, p).normal == if KeyOf(p) in Keys(q.normal) then q.normal else q.normal + [p]
    ensures EnqueuedFront(q, p).front == if KeyOf(p) in Keys(q.front) then q.front else q.front + [p]
    ensures Enqueued(q, p).front == q.front && EnqueuedFront(q, p).normal == q.normal
    ensures Enqueued(q, p).latest == EnqueuedFront(q, p).latest
    ensures KeyOf(p) in Enqueued(q, p).latest
    ensures forall k :: k in q.latest ==> k in Enqueued(q, p).latest && Enqueued(q, p).latest[k] == q.latest[k]
  {
  }
}
