/** `Tee` of geoparser/save.go as a step system: one goroutine sends every item of a finite source
    to n channels in turn and then closes them; n iterators receive, and one whose loop body stops
    early leaves a goroutine behind that drains its channel. Proved over all interleavings. */
module Tee {

  /** Idle: not ranged over yet. Running: at its receive. Draining: has quit. Finished: saw the close. */
  datatype Mode = Idle | Running | Draining | Finished

  /** A channel and its iterator: what is buffered, what the loop body got, what was drained. */
  datatype Lane<V> = Lane(buf: seq<V>, closed: bool, mode: Mode, quit: bool, got: seq<V>, drained: seq<V>)

  /** The producer: about to send item v to channel i, or to close channel i. */
  datatype Producer = Sending(v: nat, i: nat) | Closing(i: nat)

  datatype State<V> = State(lanes: seq<Lane<V>>, producer: Producer)

  /** A source, and the capacity of the channels; 0 is an unbuffered channel. */
  datatype Setup<V> = Setup(src: seq<V>, n: nat, cap: nat)

  datatype Step =
    | Start(k: nat)
    | Send
    | Handoff(go: bool)
    | NextItem
    | Exhausted
    | Close
    | Receive(k: nat, go: bool)
    | Drain(k: nat)
    | SeeClosed(k: nat)

  function Init<V>(c: Setup<V>): State<V> {
    State(seq(c.n, _ => Lane([], false, Idle, false, [], [])), Sending(0, 0))
  }

  predicate Listening(m: Mode) { m.Running? || m.Draining? }

  /** The producer stands before channel i with item v in hand. */
  predicate AtSend<V>(c: Setup<V>, s: State<V>) {
    s.producer.Sending? && s.producer.v < |c.src| && s.producer.i < |s.lanes|
  }

  predicate Enabled<V>(c: Setup<V>, s: State<V>, step: Step) {
    match step
    case Start(k) => k < |s.lanes| && s.lanes[k].mode.Idle?
    case Send => AtSend(c, s) && |s.lanes[s.producer.i].buf| < c.cap
    case Handoff(_) => AtSend(c, s) && c.cap == 0 && Listening(s.lanes[s.producer.i].mode)
    case NextItem => s.producer.Sending? && s.producer.v < |c.src| && s.producer.i >= |s.lanes|
    case Exhausted => s.producer.Sending? && s.producer.v >= |c.src|
    case Close => s.producer.Closing? && s.producer.i < |s.lanes|
    case Receive(k, _) => k < |s.lanes| && s.lanes[k].mode.Running? && s.lanes[k].buf != []
    case Drain(k) => k < |s.lanes| && s.lanes[k].mode.Draining? && s.lanes[k].buf != []
    case SeeClosed(k) => k < |s.lanes| && Listening(s.lanes[k].mode) && s.lanes[k].buf == [] && s.lanes[k].closed
  }

  /** The loop body takes an item and goes on, or stops for good. */
  function Taken<V>(l: Lane<V>, v: V, go: bool): Lane<V> {
    l.(got := l.got + [v], mode := if go then Running else Draining, quit := !go)
  }

  function Next<V>(c: Setup<V>, s: State<V>, step: Step): State<V>
    requires Enabled(c, s, step)
  {
    match step
    case Start(k) => Put(s, k, s.lanes[k].(mode := Running))
    case Send =>
      var i := s.producer.i;
      Put(s, i, s.lanes[i].(buf := s.lanes[i].buf + [c.src[s.producer.v]])).(producer := Sending(s.producer.v, i + 1))
    case Handoff(go) =>
      var i, v := s.producer.i, c.src[s.producer.v];
      var l := s.lanes[i];
      Put(s, i, if l.mode.Running? then Taken(l, v, go) else l.(drained := l.drained + [v])).(producer := Sending(s.producer.v, i + 1))
    case NextItem => s.(producer := Sending(s.producer.v + 1, 0))
    case Exhausted => s.(producer := Closing(0))
    case Close => Put(s, s.producer.i, s.lanes[s.producer.i].(closed := true)).(producer := Closing(s.producer.i + 1))
    case Receive(k, go) => Put(s, k, Taken(s.lanes[k].(buf := s.lanes[k].buf[1..]), s.lanes[k].buf[0], go))
    case Drain(k) => Put(s, k, s.lanes[k].(buf := s.lanes[k].buf[1..], drained := s.lanes[k].drained + [s.lanes[k].buf[0]]))
    case SeeClosed(k) => Put(s, k, s.lanes[k].(mode := Finished))
  }

  function Put<V>(s: State<V>, k: nat, l: Lane<V>): State<V>
    requires k < |s.lanes|
  {
    s.(lanes := s.lanes[k := l])
  }

  // ---------------------------------------------------------------------------
  // What every step keeps

  /** How many items have been sent to channel k. */
  function Sent<V>(c: Setup<V>, p: Producer, k: nat): nat {
    if p.Closing? then |c.src| else if k < p.i then p.v + 1 else p.v
  }

  ghost predicate LaneOk<V>(c: Setup<V>, p: Producer, k: nat, l: Lane<V>) {
    && Sent(c, p, k) <= |c.src|
    && l.got + l.drained + l.buf == c.src[..Sent(c, p, k)]
    && |l.buf| <= c.cap
    && (l.closed <==> p.Closing? && k < p.i)
    && (l.quit ==> l.mode.Draining? || l.mode.Finished?)
    && (l.mode.Draining? ==> l.quit)
    && (!l.quit ==> l.drained == [])
    && (l.mode.Idle? ==> l.got == [])
    && (l.mode.Finished? ==> l.closed && l.buf == [])
  }

  ghost predicate Inv<V>(c: Setup<V>, s: State<V>) {
    && |s.lanes| == c.n
    && s.producer.i <= c.n
    && (s.producer.Sending? ==> s.producer.v <= |c.src| && (s.producer.v == |c.src| ==> s.producer.i == 0))
    && forall k :: 0 <= k < c.n ==> LaneOk(c, s.producer, k, s.lanes[k])
  }

  lemma InitInv<V>(c: Setup<V>)
    ensures Inv(c, Init(c))
  {
  }

  lemma SendKeeps<V>(c: Setup<V>, p: Producer, l: Lane<V>, go: bool)
    requires p.Sending? && p.v < |c.src| && LaneOk(c, p, p.i, l)
    ensures |l.buf| < c.cap ==> LaneOk(c, Sending(p.v, p.i + 1), p.i, l.(buf := l.buf + [c.src[p.v]]))
    ensures c.cap == 0 && l.mode.Running? ==> LaneOk(c, Sending(p.v, p.i + 1), p.i, Taken(l, c.src[p.v], go))
    ensures c.cap == 0 && l.mode.Draining? ==> LaneOk(c, Sending(p.v, p.i + 1), p.i, l.(drained := l.drained + [c.src[p.v]]))
  {
    var x := [c.src[p.v]];
    assert c.src[..p.v + 1] == c.src[..p.v] + x;
    assert l.got + l.drained + (l.buf + x) == l.got + l.drained + l.buf + x;
    if c.cap == 0 {
      assert l.buf == [];
      assert l.got + l.drained + l.buf == l.got + l.drained;
      assert l.got + (l.drained + x) + [] == l.got + l.drained + x;
      if l.mode.Running? {
        assert l.got + x + [] + [] == l.got + [] + x;
      }
    }
  }

  lemma ReceiveKeeps<V>(c: Setup<V>, p: Producer, k: nat, l: Lane<V>, go: bool)
    requires LaneOk(c, p, k, l) && l.buf != []
    ensures l.mode.Running? ==> LaneOk(c, p, k, Taken(l.(buf := l.buf[1..]), l.buf[0], go))
    ensures l.mode.Draining? ==> LaneOk(c, p, k, l.(buf := l.buf[1..], drained := l.drained + [l.buf[0]]))
  {
    assert l.buf == [l.buf[0]] + l.buf[1..];
    assert l.got + (l.drained + [l.buf[0]]) + l.buf[1..] == l.got + l.drained + l.buf;
    if l.mode.Running? {
      assert l.got + [l.buf[0]] + [] + l.buf[1..] == l.got + [] + l.buf;
    }
  }

  /** Every step of every goroutine keeps the invariant. */
  lemma StepKeeps<V>(c: Setup<V>, s: State<V>, step: Step)
    requires Inv(c, s) && Enabled(c, s, step)
    ensures Inv(c, Next(c, s, step))
  {
    var t := Next(c, s, step);
    hide LaneOk;
    forall k | 0 <= k < c.n ensures LaneOk(c, t.producer, k, t.lanes[k]) {
      LaneKept(c, s, step, k);
    }
  }

  /** The channel a step works on. */
  function Touched<V>(s: State<V>, step: Step): nat {
    match step
    case Start(k) => k
    case Receive(k, _) => k
    case Drain(k) => k
    case SeeClosed(k) => k
    case _ => s.producer.i
  }

  lemma LaneKept<V>(c: Setup<V>, s: State<V>, step: Step, k: nat)
    requires Inv(c, s) && Enabled(c, s, step) && k < c.n
    ensures var t := Next(c, s, step); |t.lanes| == c.n && LaneOk(c, t.producer, k, t.lanes[k])
  {
    hide Inv, LaneOk, Next, Enabled, Touched;
    if k == Touched(s, step) {
      TouchedKept(c, s, step, k);
    } else {
      OtherKept(c, s, step, k);
    }
  }

  lemma OtherKept<V>(c: Setup<V>, s: State<V>, step: Step, k: nat)
    requires Inv(c, s) && Enabled(c, s, step) && k < c.n && k != Touched(s, step)
    ensures var t := Next(c, s, step); |t.lanes| == c.n && LaneOk(c, t.producer, k, t.lanes[k])
  {
    assert LaneOk(c, s.producer, k, s.lanes[k]);
  }

  lemma TouchedKept<V>(c: Setup<V>, s: State<V>, step: Step, k: nat)
    requires Inv(c, s) && Enabled(c, s, step) && k < c.n && k == Touched(s, step)
    ensures var t := Next(c, s, step); |t.lanes| == c.n && LaneOk(c, t.producer, k, t.lanes[k])
  {
    assert LaneOk(c, s.producer, k, s.lanes[k]);
    match step
    case Send =>
      hide LaneOk;
      SendKeeps(c, s.producer, s.lanes[k], true);
    case Handoff(go) =>
      hide LaneOk;
      SendKeeps(c, s.producer, s.lanes[k], go);
    case Receive(_, go) =>
      hide LaneOk;
      ReceiveKeeps(c, s.producer, k, s.lanes[k], go);
    case Drain(_) =>
      hide LaneOk;
      ReceiveKeeps(c, s.producer, k, s.lanes[k], true);
    case _ =>
  }

  // ---------------------------------------------------------------------------
  // Runs

  /** A run, in any interleaving. */
  predicate Runs<V>(c: Setup<V>, s: State<V>, run: seq<Step>)
    decreases |run|
  {
    run == [] || (Enabled(c, s, run[0]) && Runs(c, Next(c, s, run[0]), run[1..]))
  }

  function After<V>(c: Setup<V>, s: State<V>, run: seq<Step>): State<V>
    requires Runs(c, s, run)
    decreases |run|
  {
    if run == [] then s else After(c, Next(c, s, run[0]), run[1..])
  }

  lemma {:induction false} RunKeeps<V>(c: Setup<V>, s: State<V>, run: seq<Step>)
    requires Inv(c, s) && Runs(c, s, run)
    ensures Inv(c, After(c, s, run))
    decreases |run|
  {
    hide Inv, Enabled, Next;
    if run != [] {
      StepKeeps(c, s, run[0]);
      RunKeeps(c, Next(c, s, run[0]), run[1..]);
    }
  }

  /** The call of lane k's loop body that a step makes, if it makes one: the body's answer. */
  function CallIn<V>(s: State<V>, step: Step, k: nat): seq<bool> {
    match step
    case Receive(j, go) => if j == k then [go] else []
    case Handoff(go) => if s.producer.i == k && k < |s.lanes| && s.lanes[k].mode.Running? then [go] else []
    case _ => []
  }

  /** The calls of lane k's loop body over a run, in order. */
  function Calls<V>(c: Setup<V>, s: State<V>, run: seq<Step>, k: nat): seq<bool>
    requires Runs(c, s, run)
    decreases |run|
  {
    if run == [] then [] else CallIn(s, run[0], k) + Calls(c, Next(c, s, run[0]), run[1..], k)
  }

  /** One step: the loop body gets an item exactly when it is called, and it is called only while it
      has never answered that it stops. */
  lemma CallStep<V>(c: Setup<V>, s: State<V>, step: Step, k: nat)
    requires Inv(c, s) && Enabled(c, s, step) && k < c.n
    ensures var t, call := Next(c, s, step), CallIn(s, step, k);
      && |t.lanes| == |s.lanes| == c.n && |call| <= 1 && |t.lanes[k].got| == |s.lanes[k].got| + |call|
      && (call == [] ==> t.lanes[k].quit == s.lanes[k].quit)
      && (call != [] ==> !s.lanes[k].quit && t.lanes[k].quit == !call[0])
  {
    assert LaneOk(c, s.producer, k, s.lanes[k]);
  }

  /** Over a run the loop body gets as many items as it is called, answers yes to all but perhaps
      the last, and has quit exactly when it answered no. */
  lemma {:induction false} CallsCount<V>(c: Setup<V>, s: State<V>, run: seq<Step>, k: nat)
    requires Inv(c, s) && Runs(c, s, run) && k < c.n
    ensures var t, calls := After(c, s, run), Calls(c, s, run, k);
      && |t.lanes| == |s.lanes| == c.n && |t.lanes[k].got| == |s.lanes[k].got| + |calls|
      && (forall j :: 0 <= j < |calls| - 1 ==> calls[j])
      && (s.lanes[k].quit ==> calls == [])
      && t.lanes[k].quit == (s.lanes[k].quit || (calls != [] && !calls[|calls| - 1]))
    decreases |run|
  {
    hide Inv, Enabled, Next, CallIn;
    InvLanes(c, s);
    if run != [] {
      StepKeeps(c, s, run[0]);
      CallStep(c, s, run[0], k);
      CallsCount(c, Next(c, s, run[0]), run[1..], k);
    }
  }

  /** An iterator is idle until it is ranged over, and never again. */
  lemma {:induction false} IdleUntilStarted<V>(c: Setup<V>, s: State<V>, run: seq<Step>, k: nat)
    requires Inv(c, s) && Runs(c, s, run) && k < c.n
    ensures var t := After(c, s, run);
      |t.lanes| == |s.lanes| == c.n && (t.lanes[k].mode.Idle? <==> s.lanes[k].mode.Idle? && Start(k) !in run)
    decreases |run|
  {
    hide Inv, Enabled, Next;
    InvLanes(c, s);
    if run != [] {
      assert run == [run[0]] + run[1..];
      StepKeeps(c, s, run[0]);
      StartStep(c, s, run[0], k);
      IdleUntilStarted(c, Next(c, s, run[0]), run[1..], k);
    }
  }

  lemma StartStep<V>(c: Setup<V>, s: State<V>, step: Step, k: nat)
    requires Inv(c, s) && Enabled(c, s, step) && k < c.n
    ensures var t := Next(c, s, step);
      |t.lanes| == |s.lanes| == c.n && (t.lanes[k].mode.Idle? <==> s.lanes[k].mode.Idle? && step != Start(k))
  {
    hide LaneOk;
  }

  lemma InvLanes<V>(c: Setup<V>, s: State<V>)
    requires Inv(c, s)
    ensures |s.lanes| == c.n
  {
  }

  /** In every reachable state: what an iterator's loop body got, and then what was drained for it,
      and then what its channel holds, is the source so far, no item missing, doubled or out of
      order; nothing is drained for an iterator that has not quit; no channel holds more than its
      capacity; the counts sent to any two channels differ by at most one; and no iterator is
      ahead of another by more than the capacity and one. What a loop body got are the first items
      of the source, as many as it was called for: it answered yes to each but perhaps the last,
      and the iterator has quit exactly when it answered no to that one. It is idle exactly until it
      is ranged over. */
  lemma Safety<V>(c: Setup<V>, run: seq<Step>, j: nat, k: nat)
    requires Runs(c, Init(c), run) && j < c.n && k < c.n
    ensures var s := After(c, Init(c), run);
      |s.lanes| == c.n && var a, b := s.lanes[j], s.lanes[k];
      && a.got + a.drained + a.buf <= c.src && a.got <= c.src
      && (!a.quit ==> a.drained == []) && |a.buf| <= c.cap
      && |a.got + a.drained + a.buf| - |b.got + b.drained + b.buf| <= 1
      && |a.got + a.drained| - |b.got + b.drained| <= c.cap + 1
      && var calls := Calls(c, Init(c), run, j);
      && |calls| <= |c.src| && a.got == c.src[..|calls|]
      && (forall m :: 0 <= m < |calls| - 1 ==> calls[m])
      && (a.quit <==> calls != [] && !calls[|calls| - 1])
      && (a.mode.Idle? <==> Start(j) !in run)
  {
    InitInv(c);
    CallsCount(c, Init(c), run, j);
    IdleUntilStarted(c, Init(c), run, j);
    FreshLane(c, j);
    RunKeeps(c, Init(c), run);
    var s := After(c, Init(c), run);
    hide After, Runs, Init, Calls;
    LaneSafe(c, s, j);
    LaneSafe(c, s, k);
  }

  lemma FreshLane<V>(c: Setup<V>, k: nat)
    requires k < c.n
    ensures |Init(c).lanes| == c.n && Init(c).lanes[k].got == [] && !Init(c).lanes[k].quit && Init(c).lanes[k].mode.Idle?
  {
  }

  lemma LaneSafe<V>(c: Setup<V>, s: State<V>, k: nat)
    requires Inv(c, s) && k < c.n
    ensures var a, m := s.lanes[k], Sent(c, s.producer, k);
      && a.got + a.drained + a.buf <= c.src && a.got <= c.src
      && (!a.quit ==> a.drained == []) && |a.buf| <= c.cap
      && |a.got + a.drained + a.buf| == m
  {
    var a, m := s.lanes[k], Sent(c, s.producer, k);
    assert LaneOk(c, s.producer, k, a);
    assert (a.got + a.drained + a.buf)[..|a.got|] == a.got;
    assert c.src[..m][..|a.got|] == c.src[..|a.got|];
  }

  // ---------------------------------------------------------------------------
  // Runs end

  function ModeLeft(m: Mode): nat {
    match m
    case Idle => 3
    case Running => 2
    case Draining => 1
    case Finished => 0
  }

  function LanesLeft<V>(lanes: seq<Lane<V>>): nat {
    if lanes == [] then 0 else
    LanesLeft(lanes[..|lanes| - 1]) + |lanes[|lanes| - 1].buf| + ModeLeft(lanes[|lanes| - 1].mode)
  }

  function ProducerLeft<V>(c: Setup<V>, p: Producer): int {
    if p.Closing? then c.n - p.i else (|c.src| - p.v) * (2 * c.n + 1) - 2 * p.i + c.n + 1
  }

  /** An upper bound on the number of steps still to come. */
  function Left<V>(c: Setup<V>, s: State<V>): int { ProducerLeft(c, s.producer) + LanesLeft(s.lanes) }

  lemma {:induction false} LanesPut<V>(lanes: seq<Lane<V>>, k: nat, l: Lane<V>)
    requires k < |lanes|
    ensures LanesLeft(lanes[k := l])
         == LanesLeft(lanes) - |lanes[k].buf| - ModeLeft(lanes[k].mode) + |l.buf| + ModeLeft(l.mode)
  {
    var last := |lanes| - 1;
    if k < last {
      LanesPut(lanes[..last], k, l);
      assert lanes[k := l][..last] == lanes[..last][k := l];
    } else {
      assert lanes[k := l][..last] == lanes[..last];
    }
  }

  lemma ProducerBounds<V>(c: Setup<V>, s: State<V>)
    requires Inv(c, s)
    ensures ProducerLeft(c, s.producer) >= 0
  {
    if s.producer.Sending? {
      var k := |c.src| - s.producer.v;
      if k == 0 {
        assert s.producer.i == 0;
      } else {
        Rounds(k, c.n);
      }
    }
  }

  lemma Rounds(k: nat, n: nat)
    requires k > 0
    ensures k * (2 * n + 1) >= 2 * n + 1
    ensures (k - 1) * (2 * n + 1) == k * (2 * n + 1) - (2 * n + 1)
  {
    assert k * (2 * n + 1) == (k - 1) * (2 * n + 1) + (2 * n + 1);
  }

  function ProducerUses(step: Step): int {
    match step
    case Send => 2
    case Handoff(_) => 2
    case NextItem => 1
    case Exhausted => 1
    case Close => 1
    case _ => 0
  }

  lemma ProducerStep<V>(c: Setup<V>, s: State<V>, step: Step)
    requires Inv(c, s) && Enabled(c, s, step)
    ensures ProducerLeft(c, Next(c, s, step).producer) == ProducerLeft(c, s.producer) - ProducerUses(step)
  {
    hide LaneOk;
    if step.NextItem? {
      Rounds(|c.src| - s.producer.v, c.n);
    }
  }

  lemma LanesStep<V>(c: Setup<V>, s: State<V>, step: Step)
    requires Enabled(c, s, step)
    ensures LanesLeft(Next(c, s, step).lanes) < LanesLeft(s.lanes) + ProducerUses(step)
  {
    hide LanesLeft;
    var t := Next(c, s, step);
    var k := Touched(s, step);
    if k < |s.lanes| {
      LanesPut(s.lanes, k, t.lanes[k]);
      assert s.lanes[k := t.lanes[k]] == t.lanes;
    } else {
      assert s.lanes == t.lanes;
    }
  }

  /** Every step uses some of it up. */
  lemma StepShrinks<V>(c: Setup<V>, s: State<V>, step: Step)
    requires Inv(c, s) && Enabled(c, s, step)
    ensures Left(c, Next(c, s, step)) < Left(c, s)
  {
    hide ProducerLeft, LanesLeft, Next, Inv, Enabled, ProducerUses;
    ProducerStep(c, s, step);
    LanesStep(c, s, step);
  }

  /** No run is longer than the bound: whatever the interleaving, everything comes to rest. */
  lemma {:induction false} RunsEnd<V>(c: Setup<V>, s: State<V>, run: seq<Step>)
    requires Inv(c, s) && Runs(c, s, run)
    ensures |run| <= Left(c, s)
    decreases |run|
  {
    hide Inv, Enabled, Next, Left;
    if run != [] {
      StepKeeps(c, s, run[0]);
      StepShrinks(c, s, run[0]);
      RunsEnd(c, Next(c, s, run[0]), run[1..]);
    } else {
      LeftBound(c, s);
    }
  }

  lemma LeftBound<V>(c: Setup<V>, s: State<V>)
    requires Inv(c, s)
    ensures Left(c, s) >= 0
  {
    hide ProducerLeft;
    ProducerBounds(c, s);
  }

  // ---------------------------------------------------------------------------
  // Where runs end

  /** Nothing can move any more unless an idle iterator is started. */
  ghost predicate AtRest<V>(c: Setup<V>, s: State<V>) {
    forall step :: Enabled(c, s, step) ==> step.Start?
  }

  /** Every channel is closed and every iterator that was started has ended. */
  ghost predicate Complete<V>(c: Setup<V>, s: State<V>) {
    && s.producer == Closing(c.n) && |s.lanes| == c.n
    && forall k :: 0 <= k < c.n ==> s.lanes[k].mode.Idle? || s.lanes[k].mode.Finished?
  }

  /** The producer is stuck on a channel whose iterator was never started; all others wait for it. */
  ghost predicate StuckOnIdle<V>(c: Setup<V>, s: State<V>) {
    && AtSend(c, s) && |s.lanes| == c.n
    && s.lanes[s.producer.i].mode.Idle? && |s.lanes[s.producer.i].buf| == c.cap
    && forall k :: 0 <= k < c.n ==> s.lanes[k].mode.Idle? || (Listening(s.lanes[k].mode) && s.lanes[k].buf == [])
  }

  /** The only ways to come to rest: done, or stuck on an iterator that was never started. */
  lemma RestIff<V>(c: Setup<V>, s: State<V>)
    requires Inv(c, s)
    ensures AtRest(c, s) <==> Complete(c, s) || StuckOnIdle(c, s)
  {
    if AtRest(c, s) {
      RestIs(c, s);
    }
    if Complete(c, s) || StuckOnIdle(c, s) {
      forall step | Enabled(c, s, step) ensures step.Start? {
        if s.producer.Sending? {
          assert LaneOk(c, s.producer, s.producer.i, s.lanes[s.producer.i]);
        }
      }
    }
  }

  lemma RestIs<V>(c: Setup<V>, s: State<V>)
    requires Inv(c, s) && AtRest(c, s)
    ensures Complete(c, s) || StuckOnIdle(c, s)
  {
    assert !Enabled(c, s, NextItem) && !Enabled(c, s, Exhausted) && !Enabled(c, s, Close);
    assert !Enabled(c, s, Send) && !Enabled(c, s, Handoff(true));
    forall k | 0 <= k < c.n
      ensures s.lanes[k].mode.Idle? || s.lanes[k].mode.Finished? || (Listening(s.lanes[k].mode) && s.lanes[k].buf == [] && !s.lanes[k].closed)
    {
      assert !Enabled(c, s, Receive(k, true)) && !Enabled(c, s, Drain(k)) && !Enabled(c, s, SeeClosed(k));
    }
    forall k | 0 <= k < c.n ensures LaneOk(c, s.producer, k, s.lanes[k]) {
    }
  }

  /** With every iterator started, a run that can go no further has delivered the whole source to
      each iterator that did not quit, and all goroutines have ended. */
  lemma Liveness<V>(c: Setup<V>, run: seq<Step>, k: nat)
    requires Runs(c, Init(c), run) && AtRest(c, After(c, Init(c), run)) && k < c.n
    requires var s := After(c, Init(c), run);
      |s.lanes| == c.n && forall j :: 0 <= j < c.n ==> !s.lanes[j].mode.Idle?
    ensures var s := After(c, Init(c), run);
      && s.producer == Closing(c.n) && s.lanes[k].mode.Finished? && s.lanes[k].buf == []
      && s.lanes[k].got + s.lanes[k].drained == c.src && (!s.lanes[k].quit ==> s.lanes[k].got == c.src)
  {
    InitInv(c);
    RunKeeps(c, Init(c), run);
    var s := After(c, Init(c), run);
    hide After, Runs, Init;
    RestIff(c, s);
    assert LaneOk(c, s.producer, k, s.lanes[k]);
  }

  /** An iterator that is never started holds everything up, and exactly when the source is longer
      than its channel: only then do the others not get the whole source. */
  lemma NeverStarted<V>(c: Setup<V>, s: State<V>, k: nat)
    requires Inv(c, s) && AtRest(c, s) && k < c.n && s.lanes[k].mode.Idle?
    ensures Complete(c, s) <==> |c.src| <= c.cap
    ensures StuckOnIdle(c, s) <==> |c.src| > c.cap
  {
    RestIff(c, s);
    assert LaneOk(c, s.producer, k, s.lanes[k]);
    if StuckOnIdle(c, s) {
      assert LaneOk(c, s.producer, s.producer.i, s.lanes[s.producer.i]);
    }
  }

  /** An iterator that has quit never holds the producer up: the send goes through at once, or after
      its own goroutine has taken one item out. */
  lemma QuitNeverBlocks<V>(c: Setup<V>, s: State<V>)
    requires Inv(c, s) && AtSend(c, s) && s.lanes[s.producer.i].mode.Draining?
    ensures var drain := Drain(s.producer.i);
      || Enabled(c, s, Send) || Enabled(c, s, Handoff(true))
      || (Enabled(c, s, drain) && Enabled(c, Next(c, s, drain), Send))
  {
    assert LaneOk(c, s.producer, s.producer.i, s.lanes[s.producer.i]);
  }
}
