/** The readout scheduler: mecom/readout.go, NewReadout, EnqueueFront, Poll and their helpers.

    What the client returns is a parameter of each poll.  Reduction of ring samples and the derived
    channel model are not part of this module.
  */
module Readout {
  import opened Wrappers
  import opened Polling = PollQueue
  import Wrapping

  const RingCaptureLimit := 16
  const DefaultRingCaptureLimit := 4
  const MaxRingReadMaxBytes := 279
  const DefaultInhibit := 1000

  datatype Spec = Spec(parameter: Parameter, sensor: string, highPriority: bool)

  datatype RingItem = RingItem(spec: Spec, configIndex: nat)

  datatype RingCapture = RingCapture(parameter: Parameter, inhibit: nat)

  /** A sensor without a name is named after its parameter. */
  function Named(spec: Spec): Spec {
    if spec.sensor == "" then spec.(sensor := spec.parameter.name) else spec
  }

  datatype RingStatus = AllDataRead | HasMoreData | Overlap

  datatype RingReply = RingReply(status: RingStatus, bytesAdded: nat, data: seq<int>)

  /** What the client does during one poll of the ring. */
  datatype RingClient = RingClient(supported: bool, configured: bool, pointer: Option<nat>, chunk: Option<RingReply>,
                                   parse: seq<int> -> Option<seq<int>>)

  datatype ReadoutValue = ReadoutValue(parameter: Parameter, sensor: string, value: Option<int>)

  // ---------- The ring window ----------

  function Clamp(maxBytes: nat): (r: nat)
    ensures 0 < r <= MaxRingReadMaxBytes && (0 < maxBytes <= MaxRingReadMaxBytes ==> r == maxBytes)
  {
    if maxBytes == 0 || maxBytes > MaxRingReadMaxBytes then MaxRingReadMaxBytes else maxBytes
  }

  /** Grow while the device has more, shrink while it has little; the window never leaves its bounds. */
  function Tuned(window: nat, min: nat, limit: nat, reply: RingReply): (r: nat)
    requires min <= window <= limit
    ensures min <= r <= limit && r <= 2 * window && window <= 2 * r + 1
    ensures r > window ==> r == 2 * window || r == limit
    ensures r < window ==> r == window / 2 || r == min
    ensures r > window <==> 0 < window < limit && (reply.status == HasMoreData || reply.bytesAdded >= window * 3 / 4)
    ensures r < window <==>
              && window > min && reply.status == AllDataRead
              && reply.bytesAdded < window / 4 && reply.bytesAdded < window * 3 / 4
  {
    if reply.status == HasMoreData || reply.bytesAdded >= window * 3 / 4 then
      if window < limit then (if window * 2 > limit then limit else window * 2) else window
    else if reply.status == AllDataRead && reply.bytesAdded < window / 4 && window > min then
      (if window / 2 < min then min else window / 2)
    else window
  }

  // ---------- The plan ----------

  /** The ring plan and the background plan. */
  datatype Plan = Plan(ringItems: seq<RingItem>, ringConfig: seq<RingCapture>, items: map<Key, Spec>)

  /** The position of every ring item is its configuration index, and its slot captures its parameter. */
  ghost predicate RingAligned(p: Plan) {
    && |p.ringItems| == |p.ringConfig| <= RingCaptureLimit
    && forall i :: 0 <= i < |p.ringItems| ==>
         p.ringItems[i].configIndex == i && p.ringConfig[i].parameter == p.ringItems[i].spec.parameter
  }

  /** Every key queued in the background has a specification of that key. */
  ghost predicate Specified(p: Plan, q: Queue) {
    && (forall k :: k in q.normalSet || k in q.frontSet ==> k in p.items)
    && (forall k :: k in p.items ==> KeyOf(p.items[k].parameter) == k)
  }

  ghost predicate InRing(p: Plan, k: Key) {
    exists i :: 0 <= i < |p.ringItems| && KeyOf(p.ringItems[i].spec.parameter) == k
  }

  /** Every configured parameter is in the ring plan or in the background rotation. */
  ghost predicate Conserved(p: Plan, q: Queue, configured: set<Key>) {
    forall k :: k in configured ==> InRing(p, k) || k in q.normalSet
  }

  ghost predicate PlanInv(p: Plan, q: Queue, configured: set<Key>) {
    Valid(q) && RingAligned(p) && Specified(p, q) && Conserved(p, q, configured)
  }

  function AddRing(p: Plan, spec: Spec, inhibit: nat): Plan {
    p.(ringItems := p.ringItems + [RingItem(spec, |p.ringConfig|)],
       ringConfig := p.ringConfig + [RingCapture(spec.parameter, inhibit)])
  }

  lemma AddRingKeeps(p: Plan, q: Queue, configured: set<Key>, spec: Spec, inhibit: nat)
    requires PlanInv(p, q, configured) && |p.ringConfig| < RingCaptureLimit
    ensures PlanInv(AddRing(p, spec, inhibit), q, configured + {KeyOf(spec.parameter)})
  {
    var v := AddRing(p, spec, inhibit);
    assert v.ringItems[|p.ringItems|].spec == spec;
    forall k | k in configured && InRing(p, k) ensures InRing(v, k) {
      var i :| 0 <= i < |p.ringItems| && KeyOf(p.ringItems[i].spec.parameter) == k;
      assert v.ringItems[i] == p.ringItems[i];
    }
  }

  function AddItem(p: Plan, spec: Spec): Plan {
    p.(items := p.items[KeyOf(spec.parameter) := spec])
  }

  lemma AddBackgroundKeeps(p: Plan, q: Queue, configured: set<Key>, spec: Spec)
    requires PlanInv(p, q, configured)
    ensures PlanInv(AddItem(p, spec), Enqueued(q, spec.parameter), configured + {KeyOf(spec.parameter)})
  {
    EnqueueKeeps(q, spec.parameter);
    var v := AddItem(p, spec);
    forall k | InRing(p, k) ensures InRing(v, k) {
      var i :| 0 <= i < |p.ringItems| && KeyOf(p.ringItems[i].spec.parameter) == k;
      assert v.ringItems[i] == p.ringItems[i];
    }
  }

  lemma AddFrontKeeps(p: Plan, q: Queue, configured: set<Key>, spec: Spec)
    requires PlanInv(p, q, configured)
    ensures PlanInv(AddItem(p, spec), EnqueuedFront(q, spec.parameter), configured)
  {
    EnqueueFrontKeeps(q, spec.parameter);
    var v := AddItem(p, spec);
    forall k | InRing(p, k) ensures InRing(v, k) {
      var i :| 0 <= i < |p.ringItems| && KeyOf(p.ringItems[i].spec.parameter) == k;
      assert v.ringItems[i] == p.ringItems[i];
    }
  }

  lemma MoveKeeps(p: Plan, q: Queue, configured: set<Key>, spec: Spec)
    requires PlanInv(p, q, configured)
    ensures var v, r := AddItem(p, spec), EnqueuedFront(Enqueued(q, spec.parameter), spec.parameter);
            && PlanInv(v, r, configured)
            && KeyOf(spec.parameter) in r.normalSet && KeyOf(spec.parameter) in r.frontSet
            && r.normalSet >= q.normalSet && r.frontSet >= q.frontSet
  {
    AddBackgroundKeeps(p, q, configured, spec);
    AddFrontKeeps(AddItem(p, spec), Enqueued(q, spec.parameter), configured, spec);
    assert AddItem(AddItem(p, spec), spec) == AddItem(p, spec);
  }

  /** Once all ring keys rotate in the background, the ring plan can be dropped. */
  lemma DropRingKeeps(p: Plan, q: Queue, configured: set<Key>)
    requires PlanInv(p, q, configured)
    requires forall i :: 0 <= i < |p.ringItems| ==> KeyOf(p.ringItems[i].spec.parameter) in q.normalSet
    ensures PlanInv(p.(ringItems := [], ringConfig := []), q, configured)
    ensures configured <= q.normalSet
  {
    forall k | k in configured ensures k in q.normalSet {
      if InRing(p, k) {
        var i :| 0 <= i < |p.ringItems| && KeyOf(p.ringItems[i].spec.parameter) == k;
      }
    }
  }

  lemma ChunkKeepsPlan(p: Plan, q: Queue, configured: set<Key>, max: int)
    requires PlanInv(p, q, configured)
    ensures PlanInv(p, AfterChunk(q, max), configured)
    ensures forall x :: x in Chunk(q, max) ==> KeyOf(x) in p.items
  {
    ChunkKeeps(q, max);
    forall x | x in Chunk(q, max) ensures KeyOf(x) in p.items {
      var i :| 0 <= i < |Chunk(q, max)| && Chunk(q, max)[i] == x;
      var m := FrontCount(q, max);
      if i < m {
        assert q.front[i] == x;
        KeysMember(q.front, i);
      } else {
        var j := Wrapped(q, i - m);
        assert q.normal[j] == x;
        KeysMember(q.normal, j);
      }
    }
  }

  function Wrapped(q: Queue, i: nat): nat
    requires q.normal != []
  {
    Wrapping.Mod(q.pos + i, |q.normal|)
  }

  /** The first `limit` high-priority specifications among the first `n`. */
  function RingSpecs(specs: seq<Spec>, limit: nat, n: nat): seq<Spec>
    requires n <= |specs|
  {
    if n == 0 then []
    else
      var before := RingSpecs(specs, limit, n - 1);
      if specs[n - 1].highPriority && |before| < limit then before + [Named(specs[n - 1])] else before
  }

  /** The keys of the other specifications among the first `n`. */
  function RestKeys(specs: seq<Spec>, limit: nat, n: nat): set<Key>
    requires n <= |specs|
  {
    if n == 0 then {}
    else if specs[n - 1].highPriority && |RingSpecs(specs, limit, n - 1)| < limit then RestKeys(specs, limit, n - 1)
    else RestKeys(specs, limit, n - 1) + {KeyOf(specs[n - 1].parameter)}
  }

  function CaptureLimit(requested: int): nat {
    if requested <= 0 then DefaultRingCaptureLimit
    else if requested > RingCaptureLimit then RingCaptureLimit
    else requested
  }

  ghost predicate Captures(p: Plan, specs: seq<Spec>, inhibit: nat) {
    && |p.ringItems| == |p.ringConfig| == |specs|
    && (forall i :: 0 <= i < |specs| ==> p.ringItems[i].spec == specs[i])
    && (forall i :: 0 <= i < |specs| ==> p.ringConfig[i] == RingCapture(specs[i].parameter, inhibit))
  }

  function SpecKeys(specs: seq<Spec>, n: nat): set<Key>
    requires n <= |specs|
  {
    set j | 0 <= j < n :: KeyOf(specs[j].parameter)
  }

  /** The plan and the queue after distributing the first `n` specifications. */
  ghost predicate Built(p: Plan, q: Queue, specs: seq<Spec>, limit: nat, inhibit: nat, n: nat)
    requires n <= |specs|
  {
    && PlanInv(p, q, SpecKeys(specs, n)) && q.front == [] && |p.ringConfig| <= limit
    && Captures(p, RingSpecs(specs, limit, n), inhibit) && q.normalSet == RestKeys(specs, limit, n)
  }

  lemma RingStep(p: Plan, q: Queue, specs: seq<Spec>, limit: nat, inhibit: nat, n: nat)
    requires n < |specs| && limit <= RingCaptureLimit && Built(p, q, specs, limit, inhibit, n)
    requires specs[n].highPriority && |p.ringConfig| < limit
    ensures Built(AddRing(p, Named(specs[n]), inhibit), q, specs, limit, inhibit, n + 1)
  {
    AddRingKeeps(p, q, SpecKeys(specs, n), Named(specs[n]), inhibit);
    assert SpecKeys(specs, n + 1) == SpecKeys(specs, n) + {KeyOf(specs[n].parameter)};
  }

  lemma RestStep(p: Plan, q: Queue, specs: seq<Spec>, limit: nat, inhibit: nat, n: nat)
    requires n < |specs| && Built(p, q, specs, limit, inhibit, n)
    requires !(specs[n].highPriority && |p.ringConfig| < limit)
    ensures Built(AddItem(p, Named(specs[n])), Enqueued(q, specs[n].parameter), specs, limit, inhibit, n + 1)
  {
    AddBackgroundKeeps(p, q, SpecKeys(specs, n), Named(specs[n]));
    assert SpecKeys(specs, n + 1) == SpecKeys(specs, n) + {KeyOf(specs[n].parameter)};
  }

  /** The loop of NewReadout. */
  method Distribute(parameters: seq<Spec>, limit: nat, inhibit: nat) returns (plan: Plan, queue: Polling.PollQueue)
    requires limit <= RingCaptureLimit
    ensures fresh(queue) && Built(plan, queue.State(), parameters, limit, inhibit, |parameters|)
  {
    queue := new Polling.PollQueue();
    plan := Plan([], [], map[]);
    assert queue.State() == Empty && SpecKeys(parameters, 0) == {};
    for i := 0 to |parameters|
      invariant fresh(queue) && Built(plan, queue.State(), parameters, limit, inhibit, i)
    {
      var spec := Named(parameters[i]);
      if spec.highPriority && |plan.ringConfig| < limit {
        RingStep(plan, queue.State(), parameters, limit, inhibit, i);
        plan := AddRing(plan, spec, inhibit);
      } else {
        RestStep(plan, queue.State(), parameters, limit, inhibit, i);
        plan := AddItem(plan, spec);
        queue.Enqueue(spec.parameter);
      }
    }
  }

  /** One value per parameter, in order, under the specification of its key; a missing value is reported as such. */
  ghost predicate Reports(out: seq<ReadoutValue>, params: seq<Parameter>, values: seq<int>, items: map<Key, Spec>) {
    && |out| == |params|
    && forall i :: 0 <= i < |out| ==>
         && KeyOf(params[i]) in items
         && out[i] == ReadoutValue(items[KeyOf(params[i])].parameter, items[KeyOf(params[i])].sensor,
                                   if i < |values| then Some(values[i]) else None)
  }

  /** The last result of every parameter of the chunk is on record: its value or, if the read failed, its error. */
  ghost predicate Noted(latest: map<Key, PollResult>, params: seq<Parameter>, values: Result<seq<int>, string>,
                        observedAt: int)
  {
    forall i :: 0 <= i < |params| && KeyOf(params[i]) !in Keys(params[i + 1..]) ==>
      && KeyOf(params[i]) in latest
      && latest[KeyOf(params[i])].parameter == params[i] && latest[KeyOf(params[i])].observedAt == observedAt
      && (values.Ok? && i < |values.value| ==> latest[KeyOf(params[i])].value == Some(values.value[i]))
      && latest[KeyOf(params[i])].error == if values.Err? then values.error else ""
  }

  /** The queue after the first `n` ring parameters have moved to its rotation and its front lane. */
  function Moved(q: Queue, items: seq<RingItem>, n: nat): Queue
    requires n <= |items|
  {
    if n == 0 then q
    else
      var p := items[n - 1].spec.parameter;
      EnqueuedFront(Enqueued(Moved(q, items, n - 1), p), p)
  }

  lemma MovedStep(q: Queue, items: seq<RingItem>, n: nat)
    requires n < |items|
    ensures var p := items[n].spec.parameter;
            Moved(q, items, n + 1) == EnqueuedFront(Enqueued(Moved(q, items, n), p), p)
  {
  }

  lemma MoveHas(q: Queue, p: Parameter)
    ensures var r := EnqueuedFront(Enqueued(q, p), p);
            && q.normalSet <= r.normalSet && q.frontSet <= r.frontSet
            && KeyOf(p) in r.normalSet && KeyOf(p) in r.frontSet
  {
  }

  lemma {:induction false} MovedHas(q: Queue, items: seq<RingItem>, n: nat)
    requires n <= |items|
    ensures q.normalSet <= Moved(q, items, n).normalSet && q.frontSet <= Moved(q, items, n).frontSet
    ensures forall j :: 0 <= j < n ==> KeyOf(items[j].spec.parameter) in Moved(q, items, n).normalSet
    ensures forall j :: 0 <= j < n ==> KeyOf(items[j].spec.parameter) in Moved(q, items, n).frontSet
  {
    if n > 0 {
      MovedHas(q, items, n - 1);
      MoveHas(Moved(q, items, n - 1), items[n - 1].spec.parameter);
    }
  }

  method ReportAll(params: seq<Parameter>, values: seq<int>, items: map<Key, Spec>) returns (out: seq<ReadoutValue>)
    requires forall x :: x in params ==> KeyOf(x) in items
    ensures Reports(out, params, values, items)
  {
    out := [];
    for i := 0 to |params|
      invariant |out| == i && Reports(out, params[..i], values, items)
    {
      var spec := items[KeyOf(params[i])];
      var sample := if i < |values| then Some(values[i]) else None;
      out := out + [ReadoutValue(spec.parameter, spec.sensor, sample)];
    }
    assert params[..|params|] == params;
  }

  class Readout {
    const bulkChunk: int
    const ringInhibit: nat
    const ringMinBytes: nat
    const ringMaxLimit: nat
    var ringMaxBytes: nat
    var ringItems: seq<RingItem>
    var ringConfig: seq<RingCapture>
    var ringConfigured: bool
    var ringCursor: nat
    var ringTail: seq<int>
    const background: Polling.PollQueue
    var backgroundItems: map<Key, Spec>
    /** The keys of the parameters given to NewReadout. */
    ghost var configured: set<Key>

    function View(): Plan
      reads this
    {
      Plan(ringItems, ringConfig, backgroundItems)
    }

    ghost predicate Ok()
      reads this, background
    {
      && PlanInv(View(), background.State(), configured)
      && 0 < ringMinBytes <= ringMaxBytes <= ringMaxLimit <= MaxRingReadMaxBytes
      && bulkChunk > 0
    }

    constructor (parameters: seq<Spec>, chunk: int, captureLimit: int, inhibit: nat, minBytes: nat, maxBytes: nat)
      ensures Ok() && fresh(background)
      ensures configured == set i | 0 <= i < |parameters| :: KeyOf(parameters[i].parameter)
      ensures Captures(View(), RingSpecs(parameters, CaptureLimit(captureLimit), |parameters|), ringInhibit)
      ensures background.normalSet == RestKeys(parameters, CaptureLimit(captureLimit), |parameters|)
      ensures ringMinBytes == ringMaxBytes == Clamp(minBytes)
      ensures ringMaxLimit == if Clamp(maxBytes) < Clamp(minBytes) then Clamp(minBytes) else Clamp(maxBytes)
      ensures !ringConfigured && ringTail == [] && background.front == []
    {
      bulkChunk := if chunk <= 0 then 8 else chunk;
      var limit := CaptureLimit(captureLimit);
      var slotInhibit := if inhibit == 0 then DefaultInhibit else inhibit;
      ringInhibit := slotInhibit;
      var lowest := Clamp(minBytes);
      var highest := Clamp(maxBytes);
      ringMinBytes, ringMaxBytes := lowest, lowest;
      ringMaxLimit := if highest < lowest then lowest else highest;
      var plan, queue := Distribute(parameters, limit, slotInhibit);
      ringItems, ringConfig, backgroundItems := plan.ringItems, plan.ringConfig, plan.items;
      ringConfigured, ringCursor, ringTail := false, 0, [];
      background := queue;
      configured := SpecKeys(parameters, |parameters|);
    }

    method EnqueueFront(spec: Spec)
      requires Ok()
      modifies this`backgroundItems, background
      ensures Ok() && View() == AddItem(old(View()), Named(spec))
      ensures background.State() == EnqueuedFront(old(background.State()), spec.parameter)
    {
      AddFrontKeeps(View(), background.State(), configured, Named(spec));
      backgroundItems := backgroundItems[KeyOf(spec.parameter) := Named(spec)];
      background.EnqueueFront(spec.parameter);
    }

    method MoveItem(spec: Spec)
      requires Ok()
      modifies this`backgroundItems, background
      ensures Ok() && KeyOf(spec.parameter) in background.normalSet && KeyOf(spec.parameter) in background.frontSet
      ensures background.normalSet >= old(background.normalSet) && background.frontSet >= old(background.frontSet)
      ensures background.State() == EnqueuedFront(Enqueued(old(background.State()), spec.parameter), spec.parameter)
    {
      MoveKeeps(View(), background.State(), configured, Named(spec));
      backgroundItems := backgroundItems[KeyOf(spec.parameter) := Named(spec)];
      background.Enqueue(spec.parameter);
      background.EnqueueFront(spec.parameter);
    }

    method MoveItems()
      requires Ok()
      modifies this`backgroundItems, background
      ensures Ok() && background.State() == Moved(old(background.State()), ringItems, |ringItems|)
    {
      for i := 0 to |ringItems|
        invariant Ok() && background.State() == Moved(old(background.State()), ringItems, i)
      {
        MovedStep(old(background.State()), ringItems, i);
        MoveItem(ringItems[i].spec);
      }
    }

    /** Without ring support every ring parameter moves to the rotation, and to the front lane. */
    method MoveRingCaptureToBackground()
      requires Ok()
      modifies this`ringItems, this`ringConfig, this`ringConfigured, this`ringTail, this`backgroundItems, background
      ensures Ok() && ringItems == [] && ringConfig == [] && !ringConfigured && ringTail == []
      ensures configured <= background.normalSet
      ensures forall i :: 0 <= i < |old(ringItems)| ==>
                KeyOf(old(ringItems)[i].spec.parameter) in background.frontSet
      ensures background.State() == Moved(old(background.State()), old(ringItems), |old(ringItems)|)
    {
      MoveItems();
      MovedHas(old(background.State()), ringItems, |ringItems|);
      DropRingKeeps(View(), background.State(), configured);
      ringItems, ringConfig, ringConfigured, ringTail := [], [], false, [];
    }

    method PollRing(client: RingClient)
      requires Ok()
      modifies this`ringItems, this`ringConfig, this`ringConfigured, this`ringTail, this`backgroundItems,
               this`ringCursor, this`ringMaxBytes, background
      ensures Ok()
      ensures !client.supported && old(|ringConfig|) > 0 ==> ringItems == [] && configured <= background.normalSet
      ensures client.supported ==> ringItems == old(ringItems) && background.State() == old(background.State())
      ensures old(|ringConfig|) == 0 ==> background.State() == old(background.State())
      ensures !client.supported && old(|ringConfig|) > 0 ==>
                background.State() == Moved(old(background.State()), old(ringItems), |old(ringItems)|)
      ensures old(|ringConfig|) > 0 && client.supported && old(ringConfigured) && client.chunk.Some? ==>
                var reply := client.chunk.value;
                if reply.status == Overlap then
                  ringMaxBytes == ringMaxLimit && ringTail == [] && ringCursor == client.pointer.GetOr(old(ringCursor))
                else
                  && ringCursor == (old(ringCursor) + reply.bytesAdded) % 0x1_0000_0000
                  && ringMaxBytes == Tuned(old(ringMaxBytes), ringMinBytes, ringMaxLimit, reply)
                  && ringTail == client.parse(old(ringTail) + reply.data).GetOr([])
      ensures old(|ringConfig|) > 0 && client.supported ==>
                ringConfigured == if old(ringConfigured) then client.chunk.Some?
                                  else client.configured && client.pointer.Some?
    {
      if |ringConfig| == 0 {
        return;
      }
      if !client.supported {
        MoveRingCaptureToBackground();
        return;
      }
      if !ringConfigured {
        if client.configured && client.pointer.Some? {
          ringCursor, ringConfigured := client.pointer.value, true;
        }
        return;
      }
      if client.chunk.None? {
        ringConfigured := false;
        return;
      }
      var reply := client.chunk.value;
      if reply.status == Overlap {
        if client.pointer.Some? {
          ringCursor := client.pointer.value;
        }
        ringTail, ringMaxBytes := [], ringMaxLimit;
        return;
      }
      ringCursor := (ringCursor + reply.bytesAdded) % 0x1_0000_0000;
      ringMaxBytes := Tuned(ringMaxBytes, ringMinBytes, ringMaxLimit, reply);
      var tail := client.parse(ringTail + reply.data);
      ringTail := tail.GetOr([]);
    }

    /** One bulk read of the rotation: every parameter of the chunk is reported, in order, under its specification, and
        its result is kept. */
    method PollBackground(values: Result<seq<int>, string>, observedAt: int) returns (out: seq<ReadoutValue>)
      requires Ok()
      modifies background
      ensures Ok()
      ensures values.Err? ==> out == []
      ensures values.Ok? ==> Reports(out, Chunk(old(background.State()), bulkChunk), values.value, backgroundItems)
      ensures Noted(background.latest, Chunk(old(background.State()), bulkChunk), values, observedAt)
      ensures background.State() == AfterChunk(old(background.State()), bulkChunk).(latest := background.latest)
    {
      ChunkKeepsPlan(View(), background.State(), configured, bulkChunk);
      var params := background.NextChunk(bulkChunk);
      out := [];
      if params == [] {
        return;
      }
      if values.Err? {
        background.RecordBulk(params, [], observedAt, values.error);
        return;
      }
      background.RecordBulk(params, values.value, observedAt, "");
      out := ReportAll(params, values.value, backgroundItems);
    }

    method Poll(client: RingClient, values: Result<seq<int>, string>, observedAt: int) returns (out: seq<ReadoutValue>)
      requires Ok()
      modifies this, background
      ensures Ok() && configured == old(configured)
      ensures !client.supported && old(|ringConfig|) > 0 ==> ringItems == [] && configured <= background.normalSet
      ensures client.supported ==> ringItems == old(ringItems)
      ensures values.Err? ==> out == []
      ensures var queue := if client.supported || old(|ringConfig|) == 0 then old(background.State())
                           else Moved(old(background.State()), old(ringItems), |old(ringItems)|);
              && (values.Ok? ==> Reports(out, Chunk(queue, bulkChunk), values.value, backgroundItems))
              && Noted(background.latest, Chunk(queue, bulkChunk), values, observedAt)
    {
      PollRing(client);
      out := PollBackground(values, observedAt);
    }
  }

  // ---------- Which parameters are captured ----------

  /** The positions of the parameters that the ring captures. */
  function RingPlaces(specs: seq<Spec>, limit: nat, n: nat): seq<nat>
    requires n <= |specs|
  {
    if n == 0 then []
    else
      var before := RingPlaces(specs, limit, n - 1);
      if specs[n - 1].highPriority && |before| < limit then before + [n - 1] else before
  }

  /** The places ascend. */
  lemma {:induction false} PlacesAscend(specs: seq<Spec>, limit: nat, n: nat)
    requires n <= |specs|
    ensures var places := RingPlaces(specs, limit, n);
            && |places| == |RingSpecs(specs, limit, n)| <= limit
            && (forall a :: 0 <= a < |places| ==> places[a] < n)
            && (forall a, b :: 0 <= a < b < |places| ==> places[a] < places[b])
  {
    if n > 0 {
      PlacesAscend(specs, limit, n - 1);
    }
  }

  /** What the ring captures: high-priority parameters, in their order, each under its name. */
  lemma {:induction false} RingCaptures(specs: seq<Spec>, limit: nat, n: nat, a: nat)
    requires n <= |specs| && a < |RingPlaces(specs, limit, n)|
    ensures var i := RingPlaces(specs, limit, n)[a];
            && a < |RingSpecs(specs, limit, n)| && i < n && specs[i].highPriority
            && var x := RingSpecs(specs, limit, n)[a];
               && x.parameter == specs[i].parameter
               && x.sensor == if specs[i].sensor == "" then specs[i].parameter.name else specs[i].sensor
  {
    PlacesAscend(specs, limit, n);
    PlacesAscend(specs, limit, n - 1);
    if a < |RingPlaces(specs, limit, n - 1)| {
      RingCaptures(specs, limit, n - 1, a);
    }
  }

  /** A high-priority parameter is left out only when the ring is full of earlier ones, and whatever is left out is in
      the rotation. */
  lemma {:induction false} RingTakesFirst(specs: seq<Spec>, limit: nat, n: nat, i: nat)
    requires n <= |specs| && i < n && i !in RingPlaces(specs, limit, n)
    ensures KeyOf(specs[i].parameter) in RestKeys(specs, limit, n)
    ensures var places := RingPlaces(specs, limit, n);
            specs[i].highPriority ==> |places| == limit && forall a :: 0 <= a < |places| ==> places[a] < i
  {
    PlacesAscend(specs, limit, n - 1);
    if i < n - 1 {
      RingTakesFirst(specs, limit, n - 1, i);
    }
  }

  /** Nothing else is in the rotation. */
  lemma {:induction false} RestIsRest(specs: seq<Spec>, limit: nat, n: nat, k: Key) returns (i: nat)
    requires n <= |specs| && k in RestKeys(specs, limit, n)
    ensures i < n && KeyOf(specs[i].parameter) == k && i !in RingPlaces(specs, limit, n)
  {
    PlacesAscend(specs, limit, n - 1);
    var taken := specs[n - 1].highPriority && |RingSpecs(specs, limit, n - 1)| < limit;
    if !taken && k == KeyOf(specs[n - 1].parameter) {
      i := n - 1;
    } else {
      i := RestIsRest(specs, limit, n - 1, k);
    }
  }
}
