/** Choosing a downstream route and falling back between routes: mecomserver/router.go,
    orderRouteCandidates, preferNativeMeComRouteForVirtualRead and routeFrame.

    What a route does with one attempt (its queue, its answer, timeouts, cancellation) is an
    arbitrary function of the position of the route and the number of the attempt.
  */
module RouteFrame {
  import opened Wrappers
  import opened MeComFrames
  import opened RankSort

  /** One downstream route; `native` says that its target speaks MeCom itself. */
  datatype Candidate = Candidate(address: nat, priority: int, native: bool, pending: nat, connected: bool, errors: nat)

  datatype Policy = FixedPreference | Dynamic

  // ---------- Ordering ----------

  function Score(c: Candidate, read: bool): int {
    c.priority * 200 + c.pending
    - (if c.connected then 25 else 0)
    + (if c.errors > 0 then
         250 + (if c.connected then 0 else 250) + c.errors * (if read then 25 else 50)
       else 0)
    - (if c.priority == 0 then 25 else 0)
  }

  function Rank(policy: Policy, read: bool): Candidate -> int {
    (c: Candidate) => if policy != Dynamic || !read then c.priority else Score(c, read)
  }

  function Ordered(candidates: seq<Candidate>, policy: Policy, read: bool): (r: seq<Candidate>)
    ensures |r| == |candidates|
  {
    if |candidates| <= 1 then candidates else SortFrom(Rank(policy, read), candidates, 0)
  }

  /** Ordering permutes the routes, ranks them and keeps the configured order of equally ranked ones. */
  lemma OrderedIsStable(candidates: seq<Candidate>, policy: Policy, read: bool, v: int)
    ensures var r, rank := Ordered(candidates, policy, read), Rank(policy, read);
            && multiset(r) == multiset(candidates) && Ranked(rank, r)
            && OfRank(rank, v, r, 0) == OfRank(rank, v, candidates, 0)
  {
    if |candidates| > 1 {
      SortPermutes(Rank(policy, read), candidates, 0);
      assert candidates[0..] == candidates;
      SortRanked(Rank(policy, read), candidates, 0);
      SortStable(Rank(policy, read), candidates, 0, v);
    }
  }

  /** A write goes first to the configured primary, whatever the policy and the load. */
  lemma WritePrimary(candidates: seq<Candidate>, policy: Policy) returns (k: nat)
    requires candidates != []
    ensures k < |candidates| && Ordered(candidates, policy, false)[0] == candidates[k]
    ensures forall j :: 0 <= j < k ==> candidates[j].priority > candidates[k].priority
    ensures forall j :: k < j < |candidates| ==> candidates[j].priority >= candidates[k].priority
  {
    var rank := Rank(policy, false);
    k := LeastFrom(rank, candidates, 0);
    SortHead(rank, candidates, 0);
    forall j | 0 <= j < k ensures candidates[j].priority > candidates[k].priority {
      assert rank(candidates[j]) > rank(candidates[k]);
    }
    forall j | k < j < |candidates| ensures candidates[j].priority >= candidates[k].priority {
      assert rank(candidates[j]) >= rank(candidates[k]);
    }
  }

  // ---------- Native routes first ----------

  /** The routes among the first `n` that are native, or that are not. */
  function Natives(s: seq<Candidate>, native: bool, n: nat): seq<Candidate>
    requires n <= |s|
  {
    if n == 0 then []
    else if s[n - 1].native == native then Natives(s, native, n - 1) + [s[n - 1]]
    else Natives(s, native, n - 1)
  }

  method Select(candidates: seq<Candidate>, native: bool) returns (out: seq<Candidate>)
    ensures out == Natives(candidates, native, |candidates|)
  {
    out := [];
    for i := 0 to |candidates|
      invariant out == Natives(candidates, native, i)
    {
      if candidates[i].native == native {
        out := out + [candidates[i]];
      }
    }
  }

  /** Adding `x` to one side of a partition and to the whole. */
  lemma PartitionStep(a: seq<Candidate>, b: seq<Candidate>, whole: seq<Candidate>, x: Candidate,
                      a': seq<Candidate>, b': seq<Candidate>, whole': seq<Candidate>)
    requires multiset(a) + multiset(b) == multiset(whole) && whole' == whole + [x]
    requires (a' == a + [x] && b' == b) || (a' == a && b' == b + [x])
    ensures multiset(a') + multiset(b') == multiset(whole')
  {
  }

  lemma PrefixStep(s: seq<Candidate>, n: nat)
    requires 0 < n <= |s|
    ensures s[..n] == s[..n - 1] + [s[n - 1]]
  {
  }

  lemma {:induction false} NativesPartition(s: seq<Candidate>, n: nat)
    requires n <= |s|
    ensures multiset(Natives(s, true, n)) + multiset(Natives(s, false, n)) == multiset(s[..n])
  {
    if n > 0 {
      NativesPartition(s, n - 1);
      PrefixStep(s, n);
      PartitionStep(Natives(s, true, n - 1), Natives(s, false, n - 1), s[..n - 1], s[n - 1],
                    Natives(s, true, n), Natives(s, false, n), s[..n]);
    }
  }

  lemma {:induction false} NativesSelect(s: seq<Candidate>, native: bool, n: nat)
    requires n <= |s|
    ensures forall c :: c in Natives(s, native, n) ==> c.native == native
  {
    if n > 0 {
      NativesSelect(s, native, n - 1);
    }
  }

  lemma {:induction false} NoNatives(s: seq<Candidate>, n: nat)
    requires n <= |s| && Natives(s, true, n) == []
    ensures Natives(s, false, n) == s[..n]
  {
    if n > 0 {
      assert Natives(s, true, n - 1) == [];
      NoNatives(s, n - 1);
      PrefixStep(s, n);
    }
  }

  function NativeFirst(s: seq<Candidate>): seq<Candidate> {
    Natives(s, true, |s|) + Natives(s, false, |s|)
  }

  lemma SameSize(s: seq<Candidate>, t: seq<Candidate>)
    requires multiset(s) == multiset(t)
    ensures |s| == |t|
  {
    assert |multiset(s)| == |s|;
  }

  lemma NativeFirstPermutes(s: seq<Candidate>)
    ensures multiset(NativeFirst(s)) == multiset(s) && |NativeFirst(s)| == |s|
  {
    NativesPartition(s, |s|);
    assert s[..|s|] == s;
    SameSize(NativeFirst(s), s);
  }

  lemma NativeFirstUnchanged(s: seq<Candidate>)
    requires Natives(s, true, |s|) == [] || |s| < 2
    ensures NativeFirst(s) == s
  {
    if Natives(s, true, |s|) == [] {
      NoNatives(s, |s|);
      assert s[..|s|] == s;
    } else {
      assert |s| == 1;
      assert Natives(s, true, 1) == [s[0]];
      assert Natives(s, false, 1) == Natives(s, false, 0) == [];
    }
  }

  /** Native routes first, each group in its order; all routes stay candidates. */
  method PreferNative(virtualRead: bool, candidates: seq<Candidate>) returns (out: seq<Candidate>)
    ensures out == if virtualRead then NativeFirst(candidates) else candidates
    ensures multiset(out) == multiset(candidates) && |out| == |candidates|
  {
    NativeFirstPermutes(candidates);
    if |candidates| < 2 || !virtualRead {
      if |candidates| < 2 { NativeFirstUnchanged(candidates); }
      return candidates;
    }
    out := Select(candidates, true);
    if out == [] {
      NativeFirstUnchanged(candidates);
      return candidates;
    }
    var rest := Select(candidates, false);
    out := out + rest;
  }

  // ---------- Falling back ----------

  /** The text rules that routing consults. */
  datatype Rules = Rules(rewrite: (Text, nat) -> Text, restore: (Text, Text) -> Text, falls: (Text, Text) -> bool)

  /** What becomes of one attempt; `alive` says that the caller's own context is still live. */
  datatype Outcome =
    | QueueTimeout(alive: bool, err: string)
    | CancelledBefore(err: string)
    | Answered(frame: Text)
    | Failed(alive: bool, transient: bool, err: string)
    | AnswerTimeout(alive: bool, err: string)
    | CancelledAfter(err: string)
  {
    predicate Enqueued() {
      !QueueTimeout? && !CancelledBefore?
    }

    predicate Abandoned() {
      CancelledBefore? || CancelledAfter? || ((QueueTimeout? || AnswerTimeout?) && !alive)
    }
  }

  /** A request put on the queue of the route at position `index`. */
  datatype Sent = Sent(index: nat, attempt: nat, route: Candidate, frame: Text)

  predicate Earlier(a: Sent, b: Sent) {
    a.index < b.index || (a.index == b.index && a.attempt < b.attempt)
  }

  /** Requests go out route by route, the second attempt after the first. */
  ghost predicate InOrder(sent: seq<Sent>) {
    forall i, j :: 0 <= i < j < |sent| ==> Earlier(sent[i], sent[j])
  }

  /** What routing one frame depends on. */
  datatype Job = Job(rules: Rules, read: bool, routed: Text, routes: seq<Candidate>, outcome: (nat, nat) -> Outcome) {

    function FrameFor(i: nat): Text
      requires i < |routes|
    {
      rules.rewrite(routed, routes[i].address)
    }

    /** The outcome that decides about route `i`: a read repeats a transient failure once. */
    function Decisive(i: nat): Outcome {
      if Retries(i) then outcome(i, 1) else outcome(i, 0)
    }

    /** A read passes over an answer of route `i` that another route may improve on. */
    predicate PassesOver(i: nat, answer: Text)
      requires i < |routes|
    {
      read && i + 1 < |routes| && rules.falls(FrameFor(i), answer)
    }

    /** Route `i` settles the request with an answer. */
    predicate Settles(i: nat)
      requires i < |routes|
    {
      Decisive(i).Answered? && !PassesOver(i, Decisive(i).frame)
    }

    /** No further route is asked after route `i`. */
    predicate StopsAt(i: nat)
      requires i < |routes|
    {
      !read || i + 1 == |routes| || Settles(i) || GivesUp(i)
    }

    /** A read repeats a transient failure once. */
    predicate Retries(i: nat) {
      read && outcome(i, 0).Failed? && outcome(i, 0).transient && outcome(i, 0).alive
    }

    function SendAt(i: nat, attempt: nat): seq<Sent>
      requires i < |routes|
    {
      if outcome(i, attempt).Enqueued() then [Sent(i, attempt, routes[i], FrameFor(i))] else []
    }

    /** The requests put on the queue of route `i`. */
    function SendsAt(i: nat): seq<Sent>
      requires i < |routes|
    {
      if Retries(i) then SendAt(i, 0) + SendAt(i, 1) else SendAt(i, 0)
    }

    /** The loop over the routes ends at route `i`: it stops there, and at no route before it. */
    predicate EndsAt(i: nat) {
      i < |routes| && StopsAt(i) && forall j :: 0 <= j < i ==> !StopsAt(j)
    }

    /** What the client gets when route `i` settles its request. */
    function ReplyOf(i: nat): Text
      requires i < |routes| && Settles(i)
    {
      rules.restore(routed, Decisive(i).frame)
    }

    /** The requests sent from route `i` on. */
    function SendsFrom(i: nat): seq<Sent>
      requires i <= |routes|
      decreases |routes| - i
    {
      if i == |routes| then []
      else if StopsAt(i) then SendsAt(i)
      else SendsAt(i) + SendsFrom(i + 1)
    }

    function Sends(): seq<Sent> {
      SendsFrom(0)
    }

    /** `e` is a real request: the rewritten frame, put on the queue of the route it names. */
    predicate Genuine(e: Sent) {
      && e.index < |routes| && e.attempt < 2 && e.route == routes[e.index] && e.frame == FrameFor(e.index)
      && outcome(e.index, e.attempt).Enqueued() && (!read ==> e.attempt == 0)
    }

    /** Route `i` ends the request without an answer because its caller has gone. */
    predicate GivesUp(i: nat) {
      Decisive(i).Abandoned()
    }
  }

  datatype Verdict = Next(err: string) | Done(reply: Result<Text, string>)

  /** The attempts on one route. */
  method TryRoute(job: Job, i: nat) returns (verdict: Verdict, sent: seq<Sent>)
    requires i < |job.routes|
    ensures sent == job.SendsAt(i)
    ensures verdict.Done? <==> job.StopsAt(i)
    ensures verdict.Done? ==> (verdict.reply.Ok? <==> job.Settles(i))
    ensures verdict.Done? && verdict.reply.Ok? ==> verdict.reply.value == job.ReplyOf(i)
  {
    sent := [];
    var frame := job.FrameFor(i);
    var more := i + 1 < |job.routes|;
    var attempts := if job.read then 2 else 1;
    var attempt := 0;
    while attempt < attempts
      invariant attempt <= 1 && (attempt == 0 ==> sent == [])
      invariant attempt == 1 ==> job.read && sent == job.SendAt(i, 0) && job.Retries(i)
      decreases attempts - attempt
    {
      var o := job.outcome(i, attempt);
      if o.Enqueued() {
        sent := sent + [Sent(i, attempt, job.routes[i], frame)];
      }
      match o {
        case QueueTimeout(alive, err) =>
          return if job.read && more && alive then Next(err) else Done(Err(err)), sent;
        case CancelledBefore(err) =>
          return Done(Err(err)), sent;
        case Answered(answer) =>
          if job.read && more && job.rules.falls(frame, answer) {
            return Next("route candidate NACK"), sent;
          }
          return Done(Ok(job.rules.restore(job.routed, answer))), sent;
        case Failed(alive, transient, err) =>
          if !(job.read && transient && attempt + 1 < attempts && alive) {
            return if job.read && more then Next(err) else Done(Err(err)), sent;
          }
        case AnswerTimeout(alive, err) =>
          return if job.read && more && alive then Next(err) else Done(Err(err)), sent;
        case CancelledAfter(err) =>
          return Done(Err(err)), sent;
      }
      attempt := attempt + 1;
    }
    assert false;
  }

  /** The loop ends at route `i`, and the reply is the answer of that route exactly if it settles the request. */
  ghost predicate RepliesAt(job: Job, reply: Result<Text, string>, i: nat) {
    job.EndsAt(i) && (reply.Ok? <==> job.Settles(i)) && (reply.Ok? ==> reply.value == job.ReplyOf(i))
  }

  ghost predicate PassesTo(job: Job, i: nat)
    requires i <= |job.routes|
  {
    forall j :: 0 <= j < i ==> !job.StopsAt(j)
  }

  lemma VisitEnds(job: Job, reply: Result<Text, string>, i: nat)
    requires i < |job.routes| && job.StopsAt(i) && PassesTo(job, i) && (reply.Ok? <==> job.Settles(i))
    requires reply.Ok? ==> reply.value == job.ReplyOf(i)
    ensures RepliesAt(job, reply, i) && Served(job, reply, job.Sends())
  {
    JobLaw(job, reply, i);
  }

  lemma PassesOn(job: Job, i: nat)
    requires i < |job.routes| && PassesTo(job, i) && !job.StopsAt(i)
    ensures PassesTo(job, i + 1) && i + 1 < |job.routes|
  {
  }

  method VisitRoutes(job: Job) returns (reply: Result<Text, string>, sent: seq<Sent>, ghost end: nat)
    ensures sent == job.Sends()
    ensures job.routes == [] ==> reply.Err?
    ensures job.routes != [] ==>
              && end < |job.routes| && job.StopsAt(end) && PassesTo(job, end)
              && (reply.Ok? <==> job.Settles(end)) && (reply.Ok? ==> reply.value == job.ReplyOf(end))
  {
    sent, end := [], 0;
    var lastErr := "no downstream route candidates";
    for i := 0 to |job.routes|
      invariant sent + job.SendsFrom(i) == job.Sends() && PassesTo(job, i)
      invariant i == |job.routes| ==> i == 0
    {
      var verdict, more := TryRoute(job, i);
      SendsStep(job, i, sent, more);
      sent := sent + more;
      match verdict {
        case Next(err) =>
          PassesOn(job, i);
          lastErr := err;
        case Done(r) =>
          return r, sent, i;
      }
    }
    return Err(lastErr), sent, end;
  }

  /** The routes one after the other, until one ends it. */
  method Visit(job: Job) returns (reply: Result<Text, string>, sent: seq<Sent>)
    ensures sent == job.Sends()
    ensures job.routes == [] ==> reply.Err?
    ensures job.routes != [] ==> exists i :: RepliesAt(job, reply, i)
    ensures Served(job, reply, sent)
  {
    ghost var end;
    reply, sent, end := VisitRoutes(job);
    if job.routes != [] {
      VisitEnds(job, reply, end);
    }
  }

  lemma SendsStep(job: Job, i: nat, sent: seq<Sent>, more: seq<Sent>)
    requires i < |job.routes| && more == job.SendsAt(i) && sent + job.SendsFrom(i) == job.Sends()
    ensures job.StopsAt(i) ==> sent + more == job.Sends()
    ensures !job.StopsAt(i) ==> sent + more + job.SendsFrom(i + 1) == job.Sends()
  {
    if !job.StopsAt(i) {
      assert sent + more + job.SendsFrom(i + 1) == sent + (more + job.SendsFrom(i + 1));
    }
  }

  /** Requests go out route by route, the second attempt after the first, and each is the rewritten frame on the
      queue of the route it names. */
  lemma {:induction false} SendsInOrder(job: Job, i: nat)
    requires i <= |job.routes|
    ensures InOrder(job.SendsFrom(i))
    ensures forall k :: 0 <= k < |job.SendsFrom(i)| ==>
              job.SendsFrom(i)[k].index >= i && job.Genuine(job.SendsFrom(i)[k])
    decreases |job.routes| - i
  {
    if i < |job.routes| && !job.StopsAt(i) {
      SendsInOrder(job, i + 1);
      SendsAtOrder(job, i);
      InOrderJoin(job.SendsAt(i), job.SendsFrom(i + 1), i);
    } else if i < |job.routes| {
      SendsAtOrder(job, i);
    }
  }

  lemma SendsAtOrder(job: Job, i: nat)
    requires i < |job.routes|
    ensures InOrder(job.SendsAt(i))
    ensures forall k :: 0 <= k < |job.SendsAt(i)| ==> job.SendsAt(i)[k].index == i && job.Genuine(job.SendsAt(i)[k])
  {
  }

  lemma InOrderJoin(sent: seq<Sent>, more: seq<Sent>, i: nat)
    requires InOrder(sent) && InOrder(more) && (forall k :: 0 <= k < |sent| ==> sent[k].index == i)
    requires forall k :: 0 <= k < |more| ==> more[k].index > i
    ensures InOrder(sent + more)
  {
  }

  lemma {:induction false} RankGrows(sent: seq<Sent>, k: nat)
    requires InOrder(sent) && k < |sent| && forall j :: 0 <= j < |sent| ==> sent[j].attempt < 2
    ensures 2 * sent[k].index + sent[k].attempt >= k
  {
    if k > 0 {
      RankGrows(sent, k - 1);
      assert Earlier(sent[k - 1], sent[k]);
    }
  }

  function Last(s: seq<Sent>): Sent
    requires s != []
  {
    s[|s| - 1]
  }

  lemma AnsweredIsSent(job: Job, i: nat) returns (e: Sent)
    requires i < |job.routes| && job.Settles(i)
    ensures e in job.SendsAt(i) && e.index == i && e.attempt == (if job.Retries(i) then 1 else 0)
  {
    e := Sent(i, if job.Retries(i) then 1 else 0, job.routes[i], job.FrameFor(i));
    assert job.SendAt(i, e.attempt) == [e] && e in job.SendAt(i, e.attempt);
  }

  /** The answer a client gets is that of the last request sent. */
  lemma AnswerOfLastSend(job: Job, i: nat)
    requires job.EndsAt(i) && job.Settles(i)
    ensures var sent := job.Sends();
            && sent != []
            && var e := Last(sent); e.index == i && job.outcome(i, e.attempt) == job.Decisive(i)
  {
    var e := AnsweredIsSent(job, i);
    SendsUpTo(job, 0, i);
    SendsInOrder(job, 0);
    var sent := job.Sends();
    var p :| 0 <= p < |sent| && sent[p] == e;
    LastInOrder(sent, p);
    assert Last(sent) in sent && job.Genuine(sent[|sent| - 1]);
  }

  lemma LastInOrder(sent: seq<Sent>, p: nat)
    requires InOrder(sent) && p < |sent|
    ensures Last(sent) == sent[p] || Earlier(sent[p], Last(sent))
  {
  }

  /** At most two requests per route, whatever the routes do. */
  lemma AtMostTwoEach(job: Job)
    ensures |job.Sends()| <= 2 * |job.routes|
    ensures forall k :: 0 <= k < |job.Sends()| - 2 ==> job.Sends()[k].index < job.Sends()[k + 2].index
  {
    SendsInOrder(job, 0);
    var sent := job.Sends();
    if sent != [] {
      assert job.Genuine(sent[|sent| - 1]);
      RankGrows(sent, |sent| - 1);
    }
    forall k | 0 <= k < |sent| - 2 ensures sent[k].index < sent[k + 2].index {
      assert Earlier(sent[k], sent[k + 1]) && Earlier(sent[k + 1], sent[k + 2]);
      assert job.Genuine(sent[k + 2]);
    }
  }

  // ---------- What falling back means ----------

  /** The frame that goes to route `i`. */
  predicate Asks(job: Job, i: nat, frame: Text) {
    i < |job.routes| && frame == job.rules.rewrite(job.routed, job.routes[i].address)
  }

  /** A read goes on after this outcome of its last attempt at a route that is not the last one: the queue or the answer
      took too long while the caller waited, the route failed, or its answer is one to fall through. */
  predicate GoesOn(o: Outcome, falls: Text -> bool) {
    match o
    case QueueTimeout(alive, _) => alive
    case CancelledBefore(_) => false
    case Answered(answer) => falls(answer)
    case Failed(_, _, _) => true
    case AnswerTimeout(alive, _) => alive
    case CancelledAfter(_) => false
  }

  /** The last attempt at route `i` of a read: the first one, unless that failed in passing while the caller waited. */
  predicate LastAttempt(outcome: (nat, nat) -> Outcome, i: nat, k: nat) {
    k == match outcome(i, 0)
         case Failed(alive, transient, _) => if alive && transient then 1 else 0
         case _ => 0
  }

  predicate FallsAt(job: Job, i: nat, answer: Text)
    requires i < |job.routes|
  {
    job.rules.falls(job.rules.rewrite(job.routed, job.routes[i].address), answer)
  }

  /** A read passes route `i` by. */
  ghost predicate PassedBy(job: Job, i: nat)
    requires i < |job.routes|
  {
    exists k: nat :: k < 2 && LastAttempt(job.outcome, i, k) && GoesOn(job.outcome(i, k), a => FallsAt(job, i, a))
  }

  ghost predicate AllPassedBy(job: Job, i: nat)
    requires i <= |job.routes|
  {
    forall j :: 0 <= j < i ==> PassedBy(job, j)
  }

  /** Route `i` answers a read, and either it is the last or its answer is not one to fall through. */
  ghost predicate Answers(job: Job, i: nat, answer: Text)
    requires i < |job.routes|
  {
    && (exists k: nat :: k < 2 && LastAttempt(job.outcome, i, k) && job.outcome(i, k) == Answered(answer))
    && (i + 1 == |job.routes| || !FallsAt(job, i, answer))
  }

  /** The caller has gone, so that a read ends at route `i`. */
  ghost predicate CallerGone(job: Job, i: nat)
    requires i < |job.routes|
  {
    exists k: nat :: k < 2 && LastAttempt(job.outcome, i, k) && match job.outcome(i, k)
      case QueueTimeout(alive, _) => !alive
      case CancelledBefore(_) => true
      case Answered(_) => false
      case Failed(_, _, _) => false
      case AnswerTimeout(alive, _) => !alive
      case CancelledAfter(_) => true
  }

  /** Attempt `k` at route `j` is made and its queue takes the request. */
  predicate Made(job: Job, j: nat, k: nat) {
    && (k == 0 || (k == 1 && LastAttempt(job.outcome, j, 1)))
    && !job.outcome(j, k).QueueTimeout? && !job.outcome(j, k).CancelledBefore?
  }

  /** Every attempt made at the first `n` routes is among the requests sent. */
  ghost predicate AllAsked(job: Job, sent: seq<Sent>, n: nat)
    requires n <= |job.routes|
  {
    forall j, k: nat :: 0 <= j < n && Made(job, j, k) ==>
      exists e :: e in sent && e.index == j && e.attempt == k && e.route == job.routes[j] && Asks(job, j, e.frame)
  }

  /** Nothing else was sent. */
  ghost predicate NoneAsked(job: Job, sent: seq<Sent>, n: nat) {
    forall e :: e in sent ==> e.index < n && Made(job, e.index, e.attempt)
  }

  /** What a read comes to: the restored answer of the first route that is not passed by, if it has one, after all
      routes up to it and no others have been asked; an error only if there is no route, the caller has gone, or the
      last route failed. */
  ghost predicate ReadServed(job: Job, reply: Result<Text, string>, sent: seq<Sent>) {
    && (forall i, answer :: 0 <= i < |job.routes| && AllPassedBy(job, i) && Answers(job, i, answer) ==>
          && reply == Ok(job.rules.restore(job.routed, answer))
          && AllAsked(job, sent, i + 1) && NoneAsked(job, sent, i + 1))
    && (reply.Err? ==>
          || job.routes == []
          || exists i :: 0 <= i < |job.routes| && AllPassedBy(job, i) &&
               (CallerGone(job, i) || (i + 1 == |job.routes| && PassedBy(job, i) && !exists a :: Answers(job, i, a))))
  }

  /** What a write comes to: one attempt at the first route. */
  ghost predicate WriteServed(job: Job, reply: Result<Text, string>, sent: seq<Sent>) {
    && (job.routes != [] ==>
          match job.outcome(0, 0)
          case Answered(answer) => reply == Ok(job.rules.restore(job.routed, answer))
          case _ => reply.Err?)
    && (job.routes == [] ==> reply.Err?)
    && |sent| <= 1 && (forall e :: e in sent ==> e.index == 0 && e.attempt == 0 && Asks(job, 0, e.frame))
  }

  /** A route is passed by exactly if the loop goes on after it. */
  lemma PassingIsNotStopping(job: Job, i: nat)
    requires job.read && i < |job.routes|
    ensures i + 1 < |job.routes| ==> (job.StopsAt(i) <==> !PassedBy(job, i))
    ensures job.GivesUp(i) <==> CallerGone(job, i)
    ensures forall a :: Answers(job, i, a) <==> job.Settles(i) && job.Decisive(i) == Answered(a)
    ensures !job.Settles(i) && !job.GivesUp(i) ==> PassedBy(job, i)
  {
    var k := if job.Retries(i) then 1 else 0;
    assert LastAttempt(job.outcome, i, k) && job.Decisive(i) == job.outcome(i, k);
    assert forall k': nat :: LastAttempt(job.outcome, i, k') ==> k' == k;
    assert forall a :: FallsAt(job, i, a) == job.rules.falls(job.FrameFor(i), a);
  }

  lemma EndOfRead(job: Job, i: nat)
    requires job.read && job.EndsAt(i)
    ensures AllPassedBy(job, i)
  {
    forall j | 0 <= j < i ensures PassedBy(job, j) { PassingIsNotStopping(job, j); }
  }

  lemma FirstAnswerEnds(job: Job, i: nat, answer: Text)
    requires job.read && i < |job.routes| && AllPassedBy(job, i) && Answers(job, i, answer)
    ensures job.EndsAt(i) && job.Settles(i) && job.Decisive(i) == Answered(answer)
  {
    PassingIsNotStopping(job, i);
    forall j | 0 <= j < i ensures !job.StopsAt(j) { PassingIsNotStopping(job, j); }
  }

  lemma MadeIsSent(job: Job, j: nat, k: nat)
    requires job.read && j < |job.routes| && Made(job, j, k)
    ensures Sent(j, k, job.routes[j], job.FrameFor(j)) in job.SendsAt(j)
  {
    var e := Sent(j, k, job.routes[j], job.FrameFor(j));
    assert job.SendAt(j, k) == [e] && e in job.SendAt(j, k);
  }

  lemma SentIsMade(job: Job, j: nat)
    requires job.read && j < |job.routes|
    ensures forall e :: e in job.SendsAt(j) ==> e.index == j && Made(job, j, e.attempt)
  {
  }

  lemma {:induction false} SendsUpTo(job: Job, from: nat, i: nat)
    requires from <= i && job.EndsAt(i)
    ensures forall e :: e in job.SendsFrom(from) ==> e.index <= i && (job.read ==> Made(job, e.index, e.attempt))
    ensures forall j :: from <= j <= i ==> forall e :: e in job.SendsAt(j) ==> e in job.SendsFrom(from)
    decreases i - from
  {
    if job.read { SentIsMade(job, from); }
    SendsAtOrder(job, from);
    if from < i {
      SendsUpTo(job, from + 1, i);
      assert !job.StopsAt(from);
      assert job.SendsFrom(from) == job.SendsAt(from) + job.SendsFrom(from + 1);
    } else {
      assert job.SendsFrom(i) == job.SendsAt(i);
    }
  }

  lemma AskedUpTo(job: Job, i: nat)
    requires job.read && job.EndsAt(i)
    ensures AllAsked(job, job.Sends(), i + 1) && NoneAsked(job, job.Sends(), i + 1)
  {
    SendsUpTo(job, 0, i);
    forall j, k: nat | 0 <= j < i + 1 && Made(job, j, k)
      ensures exists e :: e in job.Sends() && e.index == j && e.attempt == k && e.route == job.routes[j]
                          && Asks(job, j, e.frame)
    {
      var e := Sent(j, k, job.routes[j], job.FrameFor(j));
      MadeIsSent(job, j, k);
    }
  }

  /** What a read comes to, from the outcomes and the order of the routes. */
  lemma ReadLaw(job: Job, reply: Result<Text, string>, i: nat)
    requires job.read && RepliesAt(job, reply, i)
    ensures ReadServed(job, reply, job.Sends())
  {
    EndOfRead(job, i);
    PassingIsNotStopping(job, i);
    AskedUpTo(job, i);
    forall i', answer | 0 <= i' < |job.routes| && AllPassedBy(job, i') && Answers(job, i', answer)
      ensures i' == i && reply == Ok(job.rules.restore(job.routed, answer))
    {
      FirstAnswerEnds(job, i', answer);
    }
  }

  lemma WriteLaw(job: Job, reply: Result<Text, string>, i: nat)
    requires !job.read && RepliesAt(job, reply, i)
    ensures WriteServed(job, reply, job.Sends())
  {
    assert i == 0 by { if i > 0 { assert job.StopsAt(0); } }
    assert job.Sends() == job.SendsAt(0);
  }

  ghost predicate Served(job: Job, reply: Result<Text, string>, sent: seq<Sent>) {
    if job.read then ReadServed(job, reply, sent) else WriteServed(job, reply, sent)
  }

  lemma JobLaw(job: Job, reply: Result<Text, string>, i: nat)
    requires RepliesAt(job, reply, i)
    ensures Served(job, reply, job.Sends())
  {
    if job.read { ReadLaw(job, reply, i); } else { WriteLaw(job, reply, i); }
  }

  // ---------- The frame rules ----------

  /** Catalogue lookups: is a frame a virtual read, an identity or catalogue read, a read with a serial fallback. */
  datatype Catalogue = Catalogue(virtualRead: Text -> bool, knownRead: Text -> bool, serialFallback: Text -> bool)

  const AliasFrom: Text := [0x3F, 0x56, 0x49]
  const AliasTo: Text := [0x3F, 0x49, 0x46]

  predicate IsRead(u: Unicode, frame: Text) {
    ReadText(Trim(u, frame))
  }

  predicate ReadText(s: Text) {
    Starts(s, Query) || (|s| > 7 && s[0] == Hash && s[7] == Query)
  }

  /** The identity query ?VI is sent downstream as ?IF. */
  function Compatible(u: Unicode, frame: Text): Text {
    var s := Trim(u, frame);
    if s == [] then frame
    else if s[0] == Query then if Upper(u, s) == AliasFrom then AliasTo + [Cr] else frame
    else if s[0] != Hash then frame
    else
      match ParseRequest(u, frame)
      case Ok(r) => if r.payload == AliasFrom then RoutedRequest(u, r.address, r.seqNo, AliasTo) else frame
      case Err(_) => frame
  }

  function NackCode(u: Unicode, frame: Text): Option<nat> {
    var s := Trim(u, frame);
    if |s| < 10 || s[0] != Bang || s[7] != Minus then None else Parse2(s[8..10])
  }

  predicate FallsThrough(u: Unicode, c: Catalogue, frame: Text, answer: Text) {
    match NackCode(u, answer)
    case None => false
    case Some(code) =>
      code == 1 || (code == 3 && c.knownRead(frame)) || ((code == 4 || code == 5) && c.serialFallback(frame))
  }

  function Rewritten(u: Unicode, frame: Text, address: nat): Text {
    if address < 256 then RewriteRequest(u, frame, address) else frame
  }

  function MeComRules(u: Unicode, c: Catalogue): Rules {
    Rules((frame, address) => Rewritten(u, frame, address), (request, answer) => RestoreResponse(u, request, answer),
          (frame, answer) => FallsThrough(u, c, frame, answer))
  }

  /** The frame sent downstream is a read exactly when the client's frame is, so no alias turns a write into a read. */
  lemma AliasKeepsKind(u: Unicode, frame: Text)
    requires Library(u)
    ensures IsRead(u, Compatible(u, frame)) == IsRead(u, frame)
  {
    var s := Trim(u, frame);
    if Starts(s, Query) && Upper(u, s) == AliasFrom {
      TrimOnly(u, AliasTo);
    } else if Starts(s, Hash) && ParseRequest(u, frame).Ok? && ParseRequest(u, frame).value.payload == AliasFrom {
      AliasedRequest(u, frame);
    }
  }

  lemma AliasedRequest(u: Unicode, frame: Text)
    requires Library(u) && Starts(Trim(u, frame), Hash)
    requires ParseRequest(u, frame).Ok? && ParseRequest(u, frame).value.payload == AliasFrom
    ensures var r := ParseRequest(u, frame).value;
            IsRead(u, frame) && IsRead(u, RoutedRequest(u, r.address, r.seqNo, AliasTo))
  {
    var s, r := Trim(u, frame), ParseRequest(u, frame).value;
    TrimIsTight(u, frame);
    DecodedText(Hash, s);
    UpperIdempotent(u, s[7..|s| - 4]);
    assert s[7..|s| - 4][0] == s[7];
    RoutedIsRead(u, r.address, r.seqNo);
  }

  lemma RoutedIsRead(u: Unicode, address: nat, seqNo: nat)
    requires address < 256 && seqNo < 65536
    ensures IsRead(u, RoutedRequest(u, address, seqNo, AliasTo))
  {
    assert Upper(u, AliasTo) == AliasTo;
    var prefix := Prefix(Hash, address, seqNo, AliasTo);
    TrimSealed(u, prefix);
    SealedFields(prefix);
    assert Seal(prefix)[7] == Seal(prefix)[7..|prefix|][0] == prefix[7..][0] == Query;
  }

  /** What routing one frame depends on. */
  function JobOf(u: Unicode, c: Catalogue, frame: Text, candidates: seq<Candidate>, policy: Policy,
                 outcome: (nat, nat) -> Outcome): (job: Job)
    ensures job.read == IsRead(u, frame)
  {
    var read, routed := IsRead(u, frame), Compatible(u, frame);
    var ordered := Ordered(candidates, policy, read);
    var routes := if read && c.virtualRead(routed) then NativeFirst(ordered) else ordered;
    Job(MeComRules(u, c), read, routed, routes, outcome)
  }

  lemma JobRoutes(u: Unicode, c: Catalogue, frame: Text, candidates: seq<Candidate>, policy: Policy,
                  outcome: (nat, nat) -> Outcome)
    ensures var routes := JobOf(u, c, frame, candidates, policy, outcome).routes;
            multiset(routes) == multiset(candidates) && |routes| == |candidates|
  {
    var ordered := Ordered(candidates, policy, IsRead(u, frame));
    OrderedIsStable(candidates, policy, IsRead(u, frame), 0);
    NativeFirstPermutes(ordered);
  }

  /** A write is put on one queue at most, that of the configured primary, and never again. */
  lemma WriteSendsOnce(u: Unicode, c: Catalogue, frame: Text, candidates: seq<Candidate>, policy: Policy,
                       outcome: (nat, nat) -> Outcome) returns (k: nat)
    requires !IsRead(u, frame)
    ensures var sent := JobOf(u, c, frame, candidates, policy, outcome).Sends();
            && |sent| <= 1
            && (sent != [] ==>
                  && k < |candidates| && sent[0].route == candidates[k]
                  && (forall j :: 0 <= j < k ==> candidates[j].priority > candidates[k].priority)
                  && (forall j :: k < j < |candidates| ==> candidates[j].priority >= candidates[k].priority))
  {
    k := 0;
    if candidates != [] {
      k := WritePrimary(candidates, policy);
    }
  }

  /** Route one frame: the requests sent are those of the job, and the client gets the answer of the route at which the
      loop ends, if it settles the request. */
  method Route(u: Unicode, c: Catalogue, frame: Text, candidates: seq<Candidate>, policy: Policy,
               outcome: (nat, nat) -> Outcome) returns (reply: Result<Text, string>, sent: seq<Sent>)
    ensures var job := JobOf(u, c, frame, candidates, policy, outcome);
            && sent == job.Sends()
            && (candidates == [] ==> reply.Err?)
            && (candidates != [] ==> exists i :: RepliesAt(job, reply, i))
            && (job.read <==> IsRead(u, frame)) && Served(job, reply, sent)
    ensures !IsRead(u, frame) ==> |sent| <= 1
    ensures |sent| <= 2 * |candidates|
  {
    var read := IsRead(u, frame);
    var routed := Compatible(u, frame);
    var routes := Ordered(candidates, policy, read);
    if read {
      routes := PreferNative(c.virtualRead(routed), routes);
    }
    var job := Job(MeComRules(u, c), read, routed, routes, outcome);
    assert job == JobOf(u, c, frame, candidates, policy, outcome);
    JobRoutes(u, c, frame, candidates, policy, outcome);
    reply, sent := Visit(job);
    AtMostTwoEach(job);
  }

  // ---------- What the rules mean for frames ----------

  /** All else being equal, a dynamic read prefers the route of higher standing, with less to do, connected, and with
      fewer errors. */
  lemma ScorePrefers(a: Candidate, b: Candidate, read: bool)
    requires a.priority <= b.priority && a.pending <= b.pending && (b.connected ==> a.connected) && a.errors <= b.errors
    requires a.priority >= 0
    ensures Score(a, read) <= Score(b, read)
    ensures a.priority < b.priority || a.pending < b.pending || (a.connected && !b.connected) || a.errors < b.errors ==>
              Score(a, read) < Score(b, read)
  {
  }

  /** A refusal that a device writes: the next route is tried for an unknown command, for a parameter unknown to the
      device but known to the catalogue, and for two codes where the serial line may do better; for nothing else. */
  lemma RefusalFalls(u: Unicode, c: Catalogue, frame: Text, address: nat, seqNo: nat, code: nat, rest: Text)
    requires address < 256 && seqNo < 65536 && code < 256
    ensures var refusal := Seal([Bang] + Hex2(address) + Hex4(seqNo) + ([Minus] + Hex2(code) + rest)) + [Cr];
            FallsThrough(u, c, frame, refusal) <==>
              || code == 1
              || (code == 3 && c.knownRead(frame))
              || ((code == 4 || code == 5) && c.serialFallback(frame))
  {
    var body := [Minus] + Hex2(code) + rest;
    var prefix := Prefix(Bang, address, seqNo, body);
    SealedResponse(u, address, seqNo, body);
    EighthByte(address, seqNo, body);
    SealedFields(prefix);
    assert [Bang] + Hex2(address) + Hex4(seqNo) + body == prefix;
    assert Seal(prefix)[8..10] == Seal(prefix)[7..|prefix|][1..3] == body[1..3] == Hex2(code);
    Hex2RoundTrip(code);
  }

  /** An answer that is no refusal is never passed over. */
  lemma AnswerStands(u: Unicode, c: Catalogue, frame: Text, address: nat, seqNo: nat, body: Text)
    requires address < 256 && seqNo < 65536 && (body != [] ==> body[0] != Minus)
    ensures !FallsThrough(u, c, frame, Seal([Bang] + Hex2(address) + Hex4(seqNo) + body) + [Cr])
  {
    SealedResponse(u, address, seqNo, body);
    EighthByte(address, seqNo, body);
    assert [Bang] + Hex2(address) + Hex4(seqNo) + body == Prefix(Bang, address, seqNo, body);
  }

  /** The identity query goes downstream as the firmware query, with its address and sequence number; every other
      request built for a device is left as it is. */
  lemma AliasRewrites(u: Unicode, address: nat, seqNo: nat, body: Text)
    requires address < 256 && seqNo < 65536
    ensures Compatible(u, AppendCrc(address, seqNo, body)) ==
            if Upper(u, body) == [0x3F, 0x56, 0x49] then AppendCrc(address, seqNo, Upper(u, [0x3F, 0x49, 0x46]))
            else AppendCrc(address, seqNo, body)
  {
    var frame := AppendCrc(address, seqNo, body);
    var prefix := Prefix(Hash, address, seqNo, body);
    BuiltByteAddress(u, address, seqNo, body);
    TrimSealed(u, prefix);
    assert Trim(u, frame)[0] == Hash;
  }

  /** A dynamic read takes the routes by ascending score, everything else by ascending configured priority. */
  lemma OrderedBy(candidates: seq<Candidate>, policy: Policy, read: bool, i: nat, j: nat)
    requires i < j < |candidates|
    ensures var r := Ordered(candidates, policy, read);
            if policy == Dynamic && read then Score(r[i], read) <= Score(r[j], read)
            else r[i].priority <= r[j].priority
  {
    OrderedIsStable(candidates, policy, read, 0);
    var r, rank := Ordered(candidates, policy, read), Rank(policy, read);
    assert rank(r[i]) <= rank(r[j]);
  }

  /** The routes of a job: in that order, but native ones first for a virtual read. */
  lemma JobOrder(u: Unicode, c: Catalogue, frame: Text, candidates: seq<Candidate>, policy: Policy,
                 outcome: (nat, nat) -> Outcome)
    ensures var job := JobOf(u, c, frame, candidates, policy, outcome);
            && job.outcome == outcome && job.routed == Compatible(u, frame)
            && (!(job.read && c.virtualRead(job.routed)) ==> job.routes == Ordered(candidates, policy, job.read))
            && (job.read && c.virtualRead(job.routed) ==>
                  forall i: nat, j: nat :: i < j < |job.routes| && job.routes[j].native ==> job.routes[i].native)
  {
    var ordered := Ordered(candidates, policy, IsRead(u, frame));
    var yes, no := Natives(ordered, true, |ordered|), Natives(ordered, false, |ordered|);
    NativesSelect(ordered, true, |ordered|);
    NativesSelect(ordered, false, |ordered|);
    var all: seq<Candidate> := yes + no;
    forall k: nat | k < |all| ensures all[k].native <==> k < |yes| {
      assert if k < |yes| then all[k] == yes[k] && all[k] in yes else all[k] == no[k - |yes|] && all[k] in no;
    }
  }

  /** A request built for a device is a read exactly if its payload starts with a question mark, a bare text exactly if
      the text does; nothing else is a read. */
  lemma ReadsAreQueries(u: Unicode, address: nat, seqNo: nat, body: Text, text: Text)
    requires address < 256 && seqNo < 65536
    ensures IsRead(u, AppendCrc(address, seqNo, body)) <==> |body| > 0 && body[0] == 0x3F
    ensures Trim(u, text) != [] && Trim(u, text)[0] != Hash ==> (IsRead(u, text) <==> Trim(u, text)[0] == 0x3F)
    ensures Trim(u, text) == [] ==> !IsRead(u, text)
  {
    var prefix := Prefix(Hash, address, seqNo, body);
    TrimSealed(u, prefix);
    SealedFields(prefix);
    if body == [] {
      HexIsNoQuery(Checksum(prefix));
      assert Seal(prefix)[7] == HexCrc(Checksum(prefix))[0];
    } else {
      assert Seal(prefix)[7] == Seal(prefix)[7..|prefix|][0] == body[0];
    }
    assert [Hash] + AddressText(address) + Hex4(seqNo) + body == prefix;
  }

  lemma HexIsNoQuery(c: bv16)
    ensures HexCrc(c)[0] != Query
  {
  }
}
