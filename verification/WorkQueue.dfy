/** pkg/util/workqueue/queue.go: the dirty / processing / queue protocol. */
module WorkQueue {
  import opened Common

  type Item = string

  datatype Core = Core(queue: seq<Item>, dirty: set<Item>, processing: set<Item>, shuttingDown: bool, drain: bool)

  const EMPTY := Core([], {}, {}, false, false)

  function Added(c: Core, x: Item): Core {
    if c.shuttingDown || x in c.dirty then c
    else if x in c.processing then c.(dirty := c.dirty + {x})
    else c.(dirty := c.dirty + {x}, queue := c.queue + [x])
  }

  /** Add calls cond.Signal exactly when it appends. */
  predicate AddSignals(c: Core, x: Item) {
    !c.shuttingDown && x !in c.dirty && x !in c.processing
  }

  /** A Get that finds something takes the head. */
  function Take(c: Core): Core
    requires c.queue != []
  {
    c.(queue := c.queue[1..], processing := c.processing + {c.queue[0]}, dirty := c.dirty - {c.queue[0]})
  }

  function Finished(c: Core, x: Item): Core {
    var p := c.processing - {x};
    if x in c.dirty then c.(processing := p, queue := c.queue + [x]) else c.(processing := p)
  }

  predicate DoneSignals(c: Core, x: Item) {
    x in c.dirty || c.processing - {x} == {}
  }

  class Type {
    var queue: seq<Item>
    var dirty: set<Item>
    var processing: set<Item>
    var shuttingDown: bool
    var drain: bool

    function View(): Core
      reads this
    {
      Core(queue, dirty, processing, shuttingDown, drain)
    }

    constructor ()
      ensures View() == EMPTY
    {
      queue, dirty, processing, shuttingDown, drain := [], {}, {}, false, false;
    }

    method Add(item: Item) returns (signalled: bool)
      modifies this
      ensures View() == Added(old(View()), item) && signalled == AddSignals(old(View()), item)
    {
      if shuttingDown {
        return false;
      }
      if item in dirty {
        return false;
      }
      dirty := dirty + {item};
      if item in processing {
        return false;
      }
      queue := queue + [item];
      return true;
    }

    /** One turn of Get's wait loop; the caller that waits comes back for another when signalled. */
    method Get() returns (r: Attempt<Item>)
      modifies this
      ensures r == if old(queue) != [] then Taken(old(queue)[0]) else if old(shuttingDown) then Closed else Waits
      ensures View() == if old(queue) != [] then Take(old(View())) else old(View())
    {
      if |queue| == 0 {
        return if shuttingDown then Closed else Waits;
      }
      var x := queue[0];
      queue := queue[1..];
      processing := processing + {x};
      dirty := dirty - {x};
      return Taken(x);
    }

    method Done(item: Item) returns (signalled: bool)
      modifies this
      ensures View() == Finished(old(View()), item) && signalled == DoneSignals(old(View()), item)
    {
      processing := processing - {item};
      if item in dirty {
        queue := queue + [item];
        return true;
      } else if |processing| == 0 {
        return true;
      }
      return false;
    }

    method ShutDown(withDrain: bool)
      modifies this
      ensures View() == old(View()).(drain := withDrain, shuttingDown := true)
      ensures forall x :: Added(View(), x) == View()
    {
      drain := withDrain;
      shuttingDown := true;
    }
  }

  // ---- The protocol with its callers ----------------------------------------------------------

  type Caller = nat

  /** gets, drains: callers of Get and of ShutDownWithDrain waiting on the one condition variable and
      not signalled; wokenGets, wokenDrains: signalled, lock not yet re-acquired; holding: which
      caller works on which item; adds, deliveries: every accepted Add and every Get that returned
      an item, with its time. */
  datatype State = State(
    c: Core, gets: set<Caller>, wokenGets: set<Caller>, drains: set<Caller>, wokenDrains: set<Caller>,
    holding: map<Caller, Item>, time: nat, adds: set<(Item, nat)>, deliveries: set<(Item, nat)>)

  const START := State(EMPTY, {}, {}, {}, {}, map[], 0, {}, {})

  /** `wake` is the waiter that cond.Signal picks, if any waits. */
  datatype Op =
    | OpAdd(item: Item, wake: Option<Caller>)
    | OpGet(caller: Caller)
    | OpResumeGet(caller: Caller)
    | OpDone(caller: Caller, wake: Option<Caller>)
    | OpShutDown(withDrain: bool)
    | OpDrainWait(caller: Caller)
    | OpResumeDrain(caller: Caller)

  predicate Waits(s: State, k: Caller) {
    k in s.gets || k in s.wokenGets || k in s.drains || k in s.wokenDrains
  }

  predicate SignalChoice(s: State, signals: bool, wake: Option<Caller>) {
    if signals && s.gets + s.drains != {} then wake.Some? && wake.value in s.gets + s.drains else wake.None?
  }

  function Signal(s: State, wake: Option<Caller>): State {
    if wake.None? then s
    else if wake.value in s.gets then
      s.(gets := s.gets - {wake.value}, wokenGets := s.wokenGets + {wake.value})
    else s.(drains := s.drains - {wake.value}, wokenDrains := s.wokenDrains + {wake.value})
  }

  /** A caller holds at most one item and calls Done once for it; ShutDownWithDrain waits only after
      it has set shuttingDown, and only while something is processed. */
  predicate Enabled(s: State, op: Op) {
    match op
    case OpAdd(x, wake) => SignalChoice(s, AddSignals(s.c, x), wake)
    case OpGet(k) => !Waits(s, k) && k !in s.holding
    case OpResumeGet(k) => k in s.wokenGets
    case OpDone(k, wake) => k in s.holding && SignalChoice(s, DoneSignals(s.c, s.holding[k]), wake)
    case OpShutDown(_) => true
    case OpDrainWait(k) => !Waits(s, k) && k !in s.holding && s.c.shuttingDown && s.c.processing != {}
    case OpResumeDrain(k) => k in s.wokenDrains
  }

  /** The wait loop of Get, entered or re-entered by k. */
  function TryGet(s: State, k: Caller): State {
    if s.c.queue != [] then
      s.(c := Take(s.c), holding := s.holding[k := s.c.queue[0]],
         deliveries := s.deliveries + {(s.c.queue[0], s.time)})
    else if s.c.shuttingDown then s
    else s.(gets := s.gets + {k})
  }

  function Next(s0: State, op: Op): State
    requires Enabled(s0, op)
  {
    var s := s0.(time := s0.time + 1);
    match op
    case OpAdd(x, wake) =>
      Signal(s, wake).(c := Added(s.c, x), adds := if s.c.shuttingDown then s.adds else s.adds + {(x, s.time)})
    case OpGet(k) => TryGet(s, k)
    case OpResumeGet(k) => TryGet(s.(wokenGets := s.wokenGets - {k}), k)
    case OpDone(k, wake) => Signal(s, wake).(c := Finished(s.c, s.holding[k]), holding := s.holding - {k})
    case OpShutDown(b) =>
      s.(c := s.c.(drain := b, shuttingDown := true),
         gets := {}, wokenGets := s.wokenGets + s.gets, drains := {}, wokenDrains := s.wokenDrains + s.drains)
    case OpDrainWait(k) => s.(drains := s.drains + {k})
    case OpResumeDrain(k) => s.(wokenDrains := s.wokenDrains - {k})
  }

  // ---- Invariants -----------------------------------------------------------------------------

  /** queue is duplicate-free and is dirty minus processing; processing is exactly what callers
      hold, and no two hold the same item. */
  ghost predicate Protocol(s: State) {
    && NoDup(s.c.queue)
    && (forall x :: x in s.c.queue <==> x in s.c.dirty && x !in s.c.processing)
    && (forall x :: x in s.c.processing <==> x in s.holding.Values)
    && (forall j, k :: j in s.holding && k in s.holding && s.holding[j] == s.holding[k] ==> j == k)
  }

  /** While a Get caller sleeps, every queued item has a woken Get caller coming for it; callers of
      ShutDownWithDrain sleep only when no Get caller does, so they steal no signal. */
  ghost predicate NoLostWakeup(s: State) {
    && s.gets !! s.wokenGets
    && (s.gets != {} ==> !s.c.shuttingDown && |s.c.queue| <= |s.wokenGets|)
    && (s.drains != {} ==> s.c.shuttingDown)
  }

  ghost predicate DeliveredSince(s: State, x: Item, t: nat) {
    exists d :: d > t && (x, d) in s.deliveries
  }

  /** Every accepted Add has had a delivery that started after it, or still marks its item dirty. */
  ghost predicate NoAddAbsorbed(s: State) {
    && (forall a :: a in s.adds ==> a.1 <= s.time)
    && (forall a :: a in s.adds ==> DeliveredSince(s, a.0, a.1) || a.0 in s.c.dirty)
  }

  ghost predicate Inv(s: State) {
    Protocol(s) && NoLostWakeup(s) && NoAddAbsorbed(s)
  }

  lemma TakeKeepsProtocol(s: State, k: Caller)
    requires Protocol(s) && k !in s.holding && s.c.queue != []
    ensures Protocol(s.(c := Take(s.c), holding := s.holding[k := s.c.queue[0]]))
  {
    var x := s.c.queue[0];
    var s' := s.(c := Take(s.c), holding := s.holding[k := x]);
    assert forall y :: y in s.c.queue <==> y == x || y in s'.c.queue;
    assert forall y :: y in s'.holding.Values <==> y in s.holding.Values || y == x by {
      assert s'.holding[k] == x;
      assert forall j :: j in s.holding ==> s'.holding[j] == s.holding[j];
    }
    assert x !in s.holding.Values;
  }

  lemma DoneKeepsProtocol(s: State, k: Caller)
    requires Protocol(s) && k in s.holding
    ensures Protocol(s.(c := Finished(s.c, s.holding[k]), holding := s.holding - {k}))
  {
    var x := s.holding[k];
    var s' := s.(c := Finished(s.c, x), holding := s.holding - {k});
    assert forall y :: y in s'.holding.Values <==> y in s.holding.Values && y != x by {
      assert forall j :: j in s'.holding ==> s'.holding[j] == s.holding[j];
    }
    assert forall y :: y in s'.c.queue <==> y in s.c.queue || (y == x && x in s.c.dirty);
  }

  lemma StepKeepsProtocol(s: State, op: Op)
    requires Protocol(s) && Enabled(s, op) && (op.OpResumeGet? ==> op.caller !in s.holding)
    ensures Protocol(Next(s, op))
  {
    match op
    case OpAdd(x, wake) =>
      assert forall y :: y in Added(s.c, x).queue <==> y in s.c.queue || (y == x && AddSignals(s.c, x));
    case OpGet(k) => if s.c.queue != [] { TakeKeepsProtocol(s, k); }
    case OpResumeGet(k) => if s.c.queue != [] { TakeKeepsProtocol(s, k); }
    case OpDone(k, _) => DoneKeepsProtocol(s, k);
    case OpShutDown(_) =>
    case OpDrainWait(_) =>
    case OpResumeDrain(_) =>
  }

  lemma StepKeepsWakeups(s: State, op: Op)
    requires NoLostWakeup(s) && Enabled(s, op)
    ensures NoLostWakeup(Next(s, op))
  {
  }

  lemma StepKeepsAdds(s: State, op: Op)
    requires NoAddAbsorbed(s) && Enabled(s, op)
    ensures NoAddAbsorbed(Next(s, op))
  {
  }

  /** A caller waits at one place only, and while it waits it holds nothing. */
  predicate OnePlace(s: State, k: Caller) {
    && !(k in s.gets && (k in s.wokenGets || k in s.drains || k in s.wokenDrains))
    && !(k in s.wokenGets && (k in s.drains || k in s.wokenDrains))
    && !(k in s.drains && k in s.wokenDrains)
    && (Waits(s, k) ==> k !in s.holding)
  }

  ghost predicate WaitersIdle(s: State) {
    forall k :: OnePlace(s, k)
  }

  lemma StepKeepsIdle(s: State, op: Op)
    requires WaitersIdle(s) && Enabled(s, op)
    ensures WaitersIdle(Next(s, op))
  {
    hide Added, Take, Finished, AddSignals, DoneSignals;
    forall k ensures OnePlace(Next(s, op), k) {
      assert OnePlace(s, k);
    }
  }

  lemma StepKeeps(s: State, op: Op)
    requires Inv(s) && WaitersIdle(s) && Enabled(s, op)
    ensures Inv(Next(s, op)) && WaitersIdle(Next(s, op))
  {
    assert op.OpResumeGet? ==> OnePlace(s, op.caller);
    StepKeepsProtocol(s, op);
    StepKeepsWakeups(s, op);
    StepKeepsAdds(s, op);
    StepKeepsIdle(s, op);
  }

  ghost predicate Runnable(s: State, ops: seq<Op>)
    decreases |ops|
  {
    ops == [] || (Enabled(s, ops[0]) && Runnable(Next(s, ops[0]), ops[1..]))
  }

  ghost function Run(s: State, ops: seq<Op>): State
    requires Runnable(s, ops)
    decreases |ops|
  {
    if ops == [] then s else Run(Next(s, ops[0]), ops[1..])
  }

  lemma {:induction false} RunKeeps(s: State, ops: seq<Op>)
    requires Inv(s) && WaitersIdle(s) && Runnable(s, ops)
    ensures Inv(Run(s, ops)) && WaitersIdle(Run(s, ops))
    decreases |ops|
  {
    if ops != [] {
      StepKeeps(s, ops[0]);
      RunKeeps(Next(s, ops[0]), ops[1..]);
    }
  }

  /** Over all interleavings. In particular, an item queued with nobody woken leaves no Get caller
      asleep. */
  lemma AllRuns(ops: seq<Op>)
    requires Runnable(START, ops)
    ensures Inv(Run(START, ops))
    ensures var s := Run(START, ops);
            s.c.queue != [] && s.wokenGets == {} ==> s.gets == {}
  {
    RunKeeps(START, ops);
  }

  // ---- Delivery order -------------------------------------------------------------------------

  predicate Delivers(s: State, op: Op) {
    (op.OpGet? || op.OpResumeGet?) && s.c.queue != []
  }

  ghost function DeliveryCount(s: State, ops: seq<Op>): nat
    requires Runnable(s, ops)
    decreases |ops|
  {
    if ops == [] then 0
    else (if Delivers(s, ops[0]) then 1 else 0) + DeliveryCount(Next(s, ops[0]), ops[1..])
  }

  /** An item at position p of the queue is delivered by the (p+1)-th delivery of any run from there,
      whatever else the callers do. */
  lemma {:induction false} DeliveredInTurn(s: State, ops: seq<Op>, x: Item, p: nat)
    requires Runnable(s, ops) && p < |s.c.queue| && s.c.queue[p] == x && DeliveryCount(s, ops) > p
    ensures DeliveredSince(Run(s, ops), x, s.time)
    decreases |ops|
  {
    var s' := Next(s, ops[0]);
    if Delivers(s, ops[0]) && p == 0 {
      assert (x, s'.time) in s'.deliveries;
      DeliveriesStay(s', ops[1..], x, s'.time);
    } else {
      DeliveredInTurn(s', ops[1..], x, if Delivers(s, ops[0]) then p - 1 else p);
      var d :| d > s'.time && (x, d) in Run(s', ops[1..]).deliveries;
    }
  }

  lemma {:induction false} DeliveriesStay(s: State, ops: seq<Op>, x: Item, t: nat)
    requires Runnable(s, ops) && (x, t) in s.deliveries
    ensures (x, t) in Run(s, ops).deliveries
    decreases |ops|
  {
    if ops != [] {
      DeliveriesStay(Next(s, ops[0]), ops[1..], x, t);
    }
  }

  /** Whenever an Add of x was accepted in a run: once nobody holds x, and as many deliveries as items
      were queued then have followed, x has been delivered since that Add. */
  lemma EveryAddIsDelivered(before: seq<Op>, after: seq<Op>, x: Item, t: nat)
    requires Runnable(START, before) && Runnable(Run(START, before), after)
    requires var s := Run(START, before);
             && (x, t) in s.adds && x !in s.c.processing
             && DeliveryCount(s, after) >= |s.c.queue|
    ensures DeliveredSince(Run(Run(START, before), after), x, t)
  {
    AllRuns(before);
    var s := Run(START, before);
    if DeliveredSince(s, x, t) {
      var d :| d > t && (x, d) in s.deliveries;
      DeliveriesStay(s, after, x, d);
    } else {
      assert x in s.c.queue;
      var p :| 0 <= p < |s.c.queue| && s.c.queue[p] == x;
      DeliveredInTurn(s, after, x, p);
      var d :| d > s.time && (x, d) in Run(s, after).deliveries;
    }
  }

  /** An item re-added while it is processed is queued by the Done of its holder. */
  lemma DoneQueuesReadded(s: State, k: Caller, wake: Option<Caller>)
    requires Protocol(s) && Enabled(s, OpDone(k, wake)) && s.holding[k] in s.c.dirty
    ensures var q := Next(s, OpDone(k, wake)).c.queue; q != [] && q[|q| - 1] == s.holding[k]
  {
  }

  /** Adds are refused for good once the queue shuts down, nobody is left waiting for one, and what was
      added before is not lost: it has been delivered or is still to be, and nothing else is. */
  lemma {:induction false} ShutDownRefusesAndKeeps(s: State, ops: seq<Op>)
    requires Inv(s) && WaitersIdle(s) && s.c.shuttingDown && Runnable(s, ops)
    ensures var s' := Run(s, ops);
            && s'.c.shuttingDown && s'.adds == s.adds && s'.gets == {}
            && s'.c.dirty <= s.c.dirty
            && (forall x :: x in s.c.dirty ==> x in s'.c.dirty || DeliveredSince(s', x, s.time))
    decreases |ops|
  {
    RunKeeps(s, ops);
    if ops != [] {
      var s1 := Next(s, ops[0]);
      StepKeeps(s, ops[0]);
      ShutDownRefusesAndKeeps(s1, ops[1..]);
      forall x | x in s.c.dirty ensures x in Run(s, ops).c.dirty || DeliveredSince(Run(s, ops), x, s.time) {
        if x !in s1.c.dirty {
          assert (x, s1.time) in s1.deliveries;
          DeliveriesStay(s1, ops[1..], x, s1.time);
        } else if x !in Run(s, ops).c.dirty {
          var d :| d > s1.time && (x, d) in Run(s1, ops[1..]).deliveries;
        }
      }
    }
  }

  // ---- Draining -------------------------------------------------------------------------------

  /** Done signals one waiter only. After the Done that empties `processing`, no ShutDownWithDrain
      caller sleeps on exactly when at most one was asleep before it. */
  lemma DrainersWokenIff(s: State, k: Caller, wake: Option<Caller>)
    requires Inv(s) && s.c.shuttingDown && Enabled(s, OpDone(k, wake)) && s.c.processing == {s.holding[k]}
    ensures Next(s, OpDone(k, wake)).c.processing == {}
    ensures Next(s, OpDone(k, wake)).drains == {} <==> |s.drains| <= 1
  {
  }

  /** Two concurrent ShutDownWithDrain calls: one of them is left asleep with nothing processed. */
  lemma TwoDrainersLoseAWakeup(ops: seq<Op>)
    requires ops == [OpAdd("x", None), OpGet(0), OpShutDown(true), OpDrainWait(1), OpDrainWait(2), OpDone(0, Some(1))]
    ensures Runnable(START, ops)
    ensures var s := Run(START, ops); s.c.processing == {} && s.c.queue == [] && 2 in s.drains
  {
    var s1 := Next(START, ops[0]);
    assert s1.c == Core(["x"], {"x"}, {}, false, false);
    var s2 := Next(s1, ops[1]);
    assert s2.c == Core([], {}, {"x"}, false, false) && s2.holding == map[0 := "x"];
    var s3 := Next(s2, ops[2]);
    var s4 := Next(s3, ops[3]);
    assert s4.drains == {1};
    var s5 := Next(s4, ops[4]);
    assert s5.drains == {1, 2};
    assert DoneSignals(s5.c, "x");
    var s6 := Next(s5, ops[5]);
    assert s6.drains == {2};
    Unroll(s5, ops[5], []);
    Unroll(s4, ops[4], [ops[5]]);
    Unroll(s3, ops[3], [ops[4], ops[5]]);
    Unroll(s2, ops[2], [ops[3], ops[4], ops[5]]);
    Unroll(s1, ops[1], [ops[2], ops[3], ops[4], ops[5]]);
    Unroll(START, ops[0], [ops[1], ops[2], ops[3], ops[4], ops[5]]);
  }

  lemma Unroll(s: State, op: Op, rest: seq<Op>)
    requires Enabled(s, op) && Runnable(Next(s, op), rest)
    ensures Runnable(s, [op] + rest) && Run(s, [op] + rest) == Run(Next(s, op), rest)
  {
    assert ([op] + rest)[1..] == rest;
  }
}
