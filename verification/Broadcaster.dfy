/** pkg/watch/mux.go: callers, the loop goroutine and the watchers, step by step. */
module Broadcaster {
  import opened Common

  datatype Mode = WaitIfChannelFull | DropIfChannelFull

  /** What travels on m.incoming: an event, or a function for the loop to run. */
  datatype Message<E> =
    | Event(event: E)
    | Watch
    | WatchWithPrefix(queued: seq<E>)
    | StopWatching(id: int)
    | Shutdown

  /** One broadcasterWatcher. stream: everything ever sent on result. got: how much was received from
      it. closed: result is closed. stopping: Stop has closed stopped. Histories: from is the number of
      events accepted before registration, picks which accepted events were sent. */
  datatype Watcher<E> = Watcher(prefix: seq<E>, from: nat, picks: seq<nat>, stream: seq<E>,
                                capacity: nat, got: nat, stopping: bool, closed: bool)

  /** incomingBlock: free; held between the test of stopped and the send; held by blockQueue until its
      function has run; held until its unlock. */
  datatype Lock<E> = Free | Sending(msg: Message<E>) | Waiting | Ran

  datatype Loop<E> = Idle | Distributing(event: E, todo: set<int>) | Exited

  /** accepted: every event sent on incoming so far. taken: how many of them the loop has received.
      faults: sends on a closed channel and closes of a closed channel. */
  datatype State<E> = State(
    watchers: map<int, Watcher<E>>, live: set<int>, nextWatcher: int,
    lock: Lock<E>, incoming: seq<Message<E>>, stopped: bool, incomingClosed: bool, loop: Loop<E>,
    accepted: seq<E>, taken: nat, faults: nat)

  function Initial<E>(): State<E> {
    State(map[], {}, 0, Free, [], false, false, Idle, [], 0, 0)
  }

  // ---- Steps -----------------------------------------------------------------------------------------

  /** The incoming queue is unbounded here and may hold any message any time, which covers every length. */
  datatype Step<E> =
    | Begin(msg: Message<E>)        // take the lock and find the broadcaster running
    | GiveUp                        // ActionOrDrop finds incoming full
    | Send
    | Unlock
    | Take                          // the loop receives a message
    | Deliver(id: int)              // distribute: the send is chosen
    | Skip(id: int)                 // distribute: another case is chosen
    | Distributed
    | Exit                          // incoming is closed and drained
    | CloseStopped(id: int)         // the first half of Stop
    | Receive(id: int)

  function Full<E>(w: Watcher<E>): bool { |w.stream| - w.got >= w.capacity }

  ghost predicate Enabled<E>(mode: Mode, s: State<E>, step: Step<E>) {
    match step
    case Begin(msg) =>
      s.lock.Free? && !s.stopped && (msg.StopWatching? ==> msg.id in s.watchers && s.watchers[msg.id].stopping)
    case GiveUp => s.lock.Sending? && s.lock.msg.Event?
    case Send => s.lock.Sending?
    case Unlock => s.lock.Ran?
    case Take => s.loop.Idle? && s.incoming != []
    case Deliver(id) => s.loop.Distributing? && id in s.loop.todo && id in s.watchers
                        && (Full(s.watchers[id]) ==> s.watchers[id].capacity == 0)
    case Skip(id) => s.loop.Distributing? && id in s.loop.todo && id in s.watchers
                     && (s.watchers[id].stopping || (mode.DropIfChannelFull? && Full(s.watchers[id])))
    case Distributed => s.loop.Distributing? && s.loop.todo == {}
    case Exit => s.loop.Idle? && s.incoming == [] && s.incomingClosed
    case CloseStopped(id) => id in s.watchers && !s.watchers[id].stopping
    case Receive(id) => id in s.watchers && s.watchers[id].got < |s.watchers[id].stream|
  }

  function Fault(b: bool): nat { if b then 1 else 0 }

  function Max(a: nat, b: nat): nat { if a < b then b else a }

  /** The functions that blockQueue has the loop run. */
  function RunFunction<E>(queueLength: nat, s: State<E>, msg: Message<E>): State<E> {
    match msg
    case Event(_) => s
    case Watch => Register(s, [], queueLength)
    case WatchWithPrefix(queued) => Register(s, queued, Max(queueLength, |queued| + 1))
    case StopWatching(id) =>
      if id !in s.live || id !in s.watchers then s
      else s.(live := s.live - {id}, watchers := s.watchers[id := s.watchers[id].(closed := true)],
              faults := s.faults + Fault(s.watchers[id].closed))
    case Shutdown =>
      s.(stopped := true, incomingClosed := true,
         faults := s.faults + Fault(s.stopped) + Fault(s.incomingClosed))
  }

  function Register<E>(s: State<E>, prefix: seq<E>, capacity: nat): State<E> {
    s.(nextWatcher := s.nextWatcher + 1, live := s.live + {s.nextWatcher},
       watchers := s.watchers[s.nextWatcher := Watcher(prefix, |s.accepted|, [], prefix, capacity, 0, false, false)])
  }

  function CloseAll<E>(s: State<E>): State<E> {
    s.(watchers := map id | id in s.watchers ::
         if id in s.live then s.watchers[id].(closed := true) else s.watchers[id],
       live := {},
       faults := s.faults + |set id | id in s.live && id in s.watchers && s.watchers[id].closed|)
  }

  function Sent<E>(s: State<E>, w: Watcher<E>, e: E): Watcher<E> {
    w.(stream := w.stream + [e], picks := w.picks + [if s.taken > 0 then s.taken - 1 else 0])
  }

  ghost function Next<E>(mode: Mode, queueLength: nat, s: State<E>, step: Step<E>): State<E>
    requires Enabled(mode, s, step)
  {
    match step
    case Begin(msg) => s.(lock := Sending(msg))
    case GiveUp => s.(lock := Free)
    case Send =>
      var msg := s.lock.msg;
      s.(incoming := s.incoming + [msg], lock := if msg.Event? then Free else Waiting,
         accepted := if msg.Event? then s.accepted + [msg.event] else s.accepted,
         faults := s.faults + Fault(s.incomingClosed))
    case Unlock => s.(lock := Free)
    case Take =>
      var msg, s' := s.incoming[0], s.(incoming := s.incoming[1..]);
      if msg.Event? then s'.(loop := Distributing(msg.event, s.live), taken := s.taken + 1)
      else RunFunction(queueLength, s', msg).(lock := Ran)
    case Deliver(id) =>
      var w := s.watchers[id];
      s.(watchers := s.watchers[id := Sent(s, w, s.loop.event)], loop := s.loop.(todo := s.loop.todo - {id}),
         faults := s.faults + Fault(w.closed))
    case Skip(id) => s.(loop := s.loop.(todo := s.loop.todo - {id}))
    case Distributed => s.(loop := Idle)
    case Exit => CloseAll(s).(loop := Exited)
    case CloseStopped(id) => s.(watchers := s.watchers[id := s.watchers[id].(stopping := true)])
    case Receive(id) => s.(watchers := s.watchers[id := s.watchers[id].(got := s.watchers[id].got + 1)])
  }

  ghost predicate Run<E>(mode: Mode, queueLength: nat, states: seq<State<E>>, steps: seq<Step<E>>) {
    && |states| == |steps| + 1 && states[0] == Initial()
    && (forall i :: 0 <= i < |steps| ==>
         Enabled(mode, states[i], steps[i]) && states[i + 1] == Next(mode, queueLength, states[i], steps[i]))
  }

  // ---- The invariant ---------------------------------------------------------------------------------

  ghost function Events<E>(msgs: seq<Message<E>>): seq<E> {
    if msgs == [] then []
    else if msgs[0].Event? then [msgs[0].event] + Events(msgs[1..]) else Events(msgs[1..])
  }

  ghost predicate OnlyEvents<E>(msgs: seq<Message<E>>) {
    forall i :: 0 <= i < |msgs| ==> msgs[i].Event?
  }

  /** Control functions are in band: while one is under way its caller holds the lock, so it is the last
      message, and once it has run nothing is queued. */
  ghost predicate QueueOk<E>(s: State<E>) {
    && s.taken <= |s.accepted| && Events(s.incoming) == s.accepted[s.taken..]
    && (s.lock.Waiting? ==>
          s.incoming != [] && OnlyEvents(s.incoming[..|s.incoming| - 1]) && !s.incoming[|s.incoming| - 1].Event?)
    && (!s.lock.Waiting? ==> OnlyEvents(s.incoming))
    && (s.lock.Ran? ==> s.incoming == [])
    && (s.stopped <==> s.incomingClosed)
    && (s.stopped ==> s.incoming == [] && (s.lock.Free? || s.lock.Ran?))
    && (s.loop.Distributing? ==>
          s.taken > 0 && s.loop.event == s.accepted[s.taken - 1] && s.loop.todo <= s.live && !s.lock.Ran?)
    && (s.loop.Exited? ==> s.stopped && s.live == {})
  }

  /** The event that a watcher is to be sent next. */
  ghost function Due<E>(s: State<E>, id: int): nat
    requires s.loop.Distributing? ==> s.taken > 0
  {
    if s.loop.Distributing? && id in s.loop.todo then s.taken - 1 else s.taken
  }

  ghost function Picked<E>(accepted: seq<E>, picks: seq<nat>): seq<E>
    requires forall i :: 0 <= i < |picks| ==> picks[i] < |accepted|
  {
    seq(|picks|, i requires 0 <= i < |picks| => accepted[picks[i]])
  }

  ghost predicate InOrder(picks: seq<nat>, from: nat, due: nat) {
    && (forall i :: 0 <= i < |picks| ==> from <= picks[i] < due)
    && (forall i, j :: 0 <= i < j < |picks| ==> picks[i] < picks[j])
  }

  /** The stream is the prefix and then accepted events from after registration, in order, each at most
      once; and the stream of a live watcher in wait mode that is not stopping has all that were due. */
  ghost predicate StreamOk<E>(mode: Mode, accepted: seq<E>, w: Watcher<E>, live: bool, due: nat) {
    && InOrder(w.picks, w.from, due) && w.from <= due <= |accepted|
    && w.stream == w.prefix + Picked(accepted, w.picks)
    && (mode.WaitIfChannelFull? && !w.stopping && live ==> |w.picks| == due - w.from)
  }

  ghost predicate WatcherOk<E>(mode: Mode, s: State<E>, id: int)
    requires id in s.watchers && (s.loop.Distributing? ==> s.taken > 0)
  {
    var w := s.watchers[id];
    && id < s.nextWatcher
    && (w.closed <==> id !in s.live)
    && (!w.stopping && w.closed ==> s.loop.Exited?)
    && w.got <= |w.stream| && (w.capacity > 0 ==> |w.stream| - w.got <= w.capacity)
    && StreamOk(mode, s.accepted, w, id in s.live || s.loop.Exited?, Due(s, id))
  }

  ghost predicate Inv<E>(mode: Mode, s: State<E>) {
    && QueueOk(s) && s.faults == 0 && s.live <= s.watchers.Keys
    && (forall id :: id in s.watchers ==> WatcherOk(mode, s, id))
    && (s.lock.Sending? && s.lock.msg.StopWatching? ==>
          s.lock.msg.id in s.watchers && s.watchers[s.lock.msg.id].stopping)
    && (s.lock.Waiting? && s.incoming[|s.incoming| - 1].StopWatching? ==>
          s.incoming[|s.incoming| - 1].id in s.watchers && s.watchers[s.incoming[|s.incoming| - 1].id].stopping)
  }

  // ---- Proof -----------------------------------------------------------------------------------------

  lemma {:induction false} EventsConcat<E>(a: seq<Message<E>>, b: seq<Message<E>>)
    ensures Events(a + b) == Events(a) + Events(b)
  {
    if a == [] {
      assert a + b == b;
    } else {
      assert (a + b)[1..] == a[1..] + b;
      EventsConcat(a[1..], b);
    }
  }

  /** Accepting more changes nothing that was sent. */
  lemma MoreAccepted<E>(mode: Mode, accepted: seq<E>, e: E, w: Watcher<E>, live: bool, due: nat)
    requires StreamOk(mode, accepted, w, live, due)
    ensures StreamOk(mode, accepted + [e], w, live, due)
  {
    assert Picked(accepted + [e], w.picks) == Picked(accepted, w.picks);
  }

  lemma TakenOne<E>(s: State<E>)
    requires QueueOk(s)
    ensures s.loop.Distributing? ==> s.taken > 0
    ensures s.taken <= |s.accepted|
  {
  }

  lemma SendQueue<E>(mode: Mode, queueLength: nat, s: State<E>)
    requires QueueOk(s) && Enabled(mode, s, Send)
    ensures QueueOk(Next(mode, queueLength, s, Send))
  {
    var s' := Next(mode, queueLength, s, Send);
    EventsConcat(s.incoming, [s.lock.msg]);
    assert Events<E>([]) == [];
    assert [s.lock.msg][1..] == [];
    assert s'.incoming[..|s'.incoming| - 1] == s.incoming;
  }

  lemma SendKeeps<E>(mode: Mode, queueLength: nat, s: State<E>)
    requires Inv(mode, s) && Enabled(mode, s, Send)
    ensures Inv(mode, Next(mode, queueLength, s, Send))
  {
    hide StreamOk;
    var s' := Next(mode, queueLength, s, Send);
    var msg := s.lock.msg;
    SendQueue(mode, queueLength, s);
    hide QueueOk;
    TakenOne(s);
    forall id | id in s'.watchers ensures WatcherOk(mode, s', id) {
      assert WatcherOk(mode, s, id);
      if msg.Event? {
        MoreAccepted(mode, s.accepted, msg.event, s.watchers[id], id in s.live || s.loop.Exited?, Due(s, id));
      }
    }
  }

  lemma TakeEventKeeps<E>(mode: Mode, queueLength: nat, s: State<E>)
    requires Inv(mode, s) && Enabled(mode, s, Take) && s.incoming[0].Event?
    ensures Inv(mode, Next(mode, queueLength, s, Take))
  {
  }

  /** A function runs with nothing else queued, so a watcher registers exactly between the events
      accepted before and those accepted after. */
  lemma AloneInQueue<E>(mode: Mode, s: State<E>)
    requires Inv(mode, s) && s.incoming != [] && !s.incoming[0].Event?
    ensures s.lock.Waiting? && |s.incoming| == 1 && s.taken == |s.accepted| && !s.stopped && !s.incomingClosed
  {
    assert OnlyEvents(s.incoming[..|s.incoming| - 1]);
    assert Events(s.incoming[1..]) == [];
  }

  lemma TakeFunctionKeeps<E>(mode: Mode, queueLength: nat, s: State<E>)
    requires Inv(mode, s) && Enabled(mode, s, Take) && !s.incoming[0].Event?
    ensures Inv(mode, Next(mode, queueLength, s, Take))
  {
    hide StreamOk;
    AloneInQueue(mode, s);
    var s' := Next(mode, queueLength, s, Take);
    assert s'.incoming == [];
    assert s.accepted[s.taken..] == [];
    match s.incoming[0]
    case Watch => RegisterKeeps(mode, s, s', [], queueLength);
    case WatchWithPrefix(queued) => RegisterKeeps(mode, s, s', queued, Max(queueLength, |queued| + 1));
    case StopWatching(id) =>
      forall j | j in s'.watchers ensures WatcherOk(mode, s', j) {
        assert WatcherOk(mode, s, j);
        StoppedOk(mode, s.accepted, s.watchers[j], j in s.live, Due(s, j));
      }
      assert id in s.live ==> WatcherOk(mode, s, id);
    case Shutdown =>
      forall j | j in s'.watchers ensures WatcherOk(mode, s', j) { assert WatcherOk(mode, s, j); }
  }

  lemma StoppedOk<E>(mode: Mode, accepted: seq<E>, w: Watcher<E>, live: bool, due: nat)
    requires StreamOk(mode, accepted, w, live, due)
    ensures StreamOk(mode, accepted, w, false, due) && StreamOk(mode, accepted, w.(closed := true), false, due)
  {
  }

  lemma RegisterKeeps<E>(mode: Mode, s: State<E>, s': State<E>, prefix: seq<E>, capacity: nat)
    requires Inv(mode, s) && s.taken == |s.accepted| && !s.stopped && s.loop.Idle?
    requires s' == Register(s.(incoming := []), prefix, capacity).(lock := Ran) &&
        (capacity == 0 || |prefix| <= capacity)
    ensures Inv(mode, s')
  {
  }

  lemma DeliverKeeps<E>(mode: Mode, queueLength: nat, s: State<E>, id: int)
    requires Inv(mode, s) && Enabled(mode, s, Deliver(id))
    ensures Inv(mode, Next(mode, queueLength, s, Deliver(id)))
  {
    var s' := Next(mode, queueLength, s, Deliver(id));
    var w := s.watchers[id];
    assert WatcherOk(mode, s, id);
    SentOk(mode, s, w, id in s.live || s.loop.Exited?);
    assert QueueOk(s');
    hide StreamOk, QueueOk;
    forall j | j in s'.watchers ensures WatcherOk(mode, s', j) {
      assert WatcherOk(mode, s, j);
    }
  }

  lemma SentOk<E>(mode: Mode, s: State<E>, w: Watcher<E>, live: bool)
    requires 0 < s.taken <= |s.accepted| && StreamOk(mode, s.accepted, w, live, s.taken - 1)
    ensures StreamOk(mode, s.accepted, Sent(s, w, s.accepted[s.taken - 1]), live, s.taken)
  {
  }

  lemma SkipKeeps<E>(mode: Mode, queueLength: nat, s: State<E>, id: int)
    requires Inv(mode, s) && Enabled(mode, s, Skip(id))
    ensures Inv(mode, Next(mode, queueLength, s, Skip(id)))
  {
    hide StreamOk;
    var s' := Next(mode, queueLength, s, Skip(id));
    assert QueueOk(s');
    TakenOne(s);
    hide QueueOk;
    forall j | j in s'.watchers ensures WatcherOk(mode, s', j) {
      assert WatcherOk(mode, s, j);
      if j == id { SkippedOk(mode, s.accepted, s.watchers[id], id in s.live || s.loop.Exited?, s.taken); }
    }
  }

  lemma SkippedOk<E>(mode: Mode, accepted: seq<E>, w: Watcher<E>, live: bool, taken: nat)
    requires 0 < taken <= |accepted| && StreamOk(mode, accepted, w, live, taken - 1)
    requires w.stopping || mode.DropIfChannelFull?
    ensures StreamOk(mode, accepted, w, live, taken)
  {
  }

  lemma ExitKeeps<E>(mode: Mode, queueLength: nat, s: State<E>)
    requires Inv(mode, s) && Enabled(mode, s, Exit)
    ensures Inv(mode, Next(mode, queueLength, s, Exit))
  {
    hide StreamOk;
    var s' := Next(mode, queueLength, s, Exit);
    forall id | id in s.live && id in s.watchers ensures !s.watchers[id].closed {
      assert WatcherOk(mode, s, id);
    }
    assert (set id | id in s.live && id in s.watchers && s.watchers[id].closed) == {};
    assert s'.watchers.Keys == s.watchers.Keys;
    forall id | id in s'.watchers ensures WatcherOk(mode, s', id) {
      assert WatcherOk(mode, s, id);
      ClosedOk(mode, s.accepted, s.watchers[id], id in s.live, Due(s, id));
    }
  }

  lemma ClosedOk<E>(mode: Mode, accepted: seq<E>, w: Watcher<E>, live: bool, due: nat)
    requires StreamOk(mode, accepted, w, live, due) && (!w.stopping ==> live)
    ensures StreamOk(mode, accepted, w, true, due) && StreamOk(mode, accepted, w.(closed := true), true, due)
  {
  }

  lemma OtherQueue<E>(mode: Mode, queueLength: nat, s: State<E>, step: Step<E>)
    requires QueueOk(s) && Enabled(mode, s, step)
    requires step.Begin? || step.GiveUp? || step.Unlock? || step.Distributed? || step.CloseStopped? || step.Receive?
    ensures QueueOk(Next(mode, queueLength, s, step))
  {
  }

  lemma OtherKeeps<E>(mode: Mode, queueLength: nat, s: State<E>, step: Step<E>)
    requires Inv(mode, s) && Enabled(mode, s, step)
    requires step.Begin? || step.GiveUp? || step.Unlock? || step.Distributed? || step.CloseStopped? || step.Receive?
    ensures Inv(mode, Next(mode, queueLength, s, step))
  {
    hide StreamOk, QueueOk;
    var s' := Next(mode, queueLength, s, step);
    OtherQueue(mode, queueLength, s, step);
    TakenOne(s);
    TakenOne(s');
    forall id | id in s'.watchers ensures WatcherOk(mode, s', id) {
      assert WatcherOk(mode, s, id);
      SameStream(mode, s.accepted, s.watchers[id], s'.watchers[id], id in s.live || s.loop.Exited?, Due(s, id));
    }
  }

  lemma SameStream<E>(mode: Mode, accepted: seq<E>, w: Watcher<E>, w': Watcher<E>, live: bool, due: nat)
    requires StreamOk(mode, accepted, w, live, due)
    requires w' == w.(stopping := w'.stopping, got := w'.got) && (w.stopping ==> w'.stopping)
    ensures StreamOk(mode, accepted, w', live, due)
  {
  }

  lemma StepKeeps<E>(mode: Mode, queueLength: nat, s: State<E>, step: Step<E>)
    requires Inv(mode, s) && Enabled(mode, s, step)
    ensures Inv(mode, Next(mode, queueLength, s, step))
  {
    hide Inv, Next;
    match step
    case Send => SendKeeps(mode, queueLength, s);
    case Take =>
      if s.incoming[0].Event? {
        TakeEventKeeps(mode, queueLength, s);
      } else {
        TakeFunctionKeeps(mode, queueLength, s);
      }
    case Deliver(id) => DeliverKeeps(mode, queueLength, s, id);
    case Skip(id) => SkipKeeps(mode, queueLength, s, id);
    case Exit => ExitKeeps(mode, queueLength, s);
    case _ => OtherKeeps(mode, queueLength, s, step);
  }

  lemma {:induction false} RunKeeps<E>(mode: Mode, queueLength: nat, states: seq<State<E>>, steps: seq<Step<E>>, i: nat)
    requires Run(mode, queueLength, states, steps) && i < |states|
    ensures Inv(mode, states[i])
  {
    if i > 0 {
      RunKeeps(mode, queueLength, states, steps, i - 1);
      StepKeeps(mode, queueLength, states[i - 1], steps[i - 1]);
    }
  }

  // ---- What it promises ------------------------------------------------------------------------------

  /** In every run no step has sent on a closed channel or closed one twice, and each watcher's stream is
      its prefix and then events accepted after its registration, in order and without repetition. */
  lemma StreamsInOrder<E>(mode: Mode, queueLength: nat, states: seq<State<E>>, steps: seq<Step<E>>, i: nat, id: int)
    requires Run(mode, queueLength, states, steps) && i < |states| && id in states[i].watchers
    ensures states[i].faults == 0
    ensures var s, w := states[i], states[i].watchers[id];
            && InOrder(w.picks, w.from, |s.accepted|)
            && w.stream == w.prefix + Picked(s.accepted, w.picks)
  {
    RunKeeps(mode, queueLength, states, steps, i);
    assert WatcherOk(mode, states[i], id);
  }

  /** In wait mode a watcher that is not stopping has been sent every event since its registration that
      the loop is done with: all of them once nothing is queued, and so after Shutdown. */
  lemma NothingMissed<E>(queueLength: nat, states: seq<State<E>>, steps: seq<Step<E>>, i: nat, id: int)
    requires Run(WaitIfChannelFull, queueLength, states, steps) && i < |states|
    requires id in states[i].watchers && !states[i].watchers[id].stopping
    ensures var s, w := states[i], states[i].watchers[id];
            && (s.loop.Distributing? ==> s.taken > 0)
            && w.from <= Due(s, id) <= |s.accepted|
            && w.stream == w.prefix + s.accepted[w.from..Due(s, id)]
            && (s.loop.Exited? || (s.loop.Idle? && s.incoming == []) ==> w.stream == w.prefix + s.accepted[w.from..])
  {
    RunKeeps(WaitIfChannelFull, queueLength, states, steps, i);
    var s, w := states[i], states[i].watchers[id];
    assert WatcherOk(WaitIfChannelFull, s, id);
    forall k | 0 <= k < |w.picks| ensures w.picks[k] == w.from + k { Contiguous(w.picks, w.from, Due(s, id), k); }
    assert Picked(s.accepted, w.picks) == s.accepted[w.from..Due(s, id)];
    if s.incoming == [] { assert s.taken == |s.accepted|; }
  }

  /** As many increasing numbers as there are in a range are all of them. */
  lemma Contiguous(picks: seq<nat>, from: nat, due: nat, k: nat)
    requires InOrder(picks, from, due) && |picks| == due - from && k < |picks|
    ensures picks[k] == from + k
  {
    AtLeast(picks, from, due, k);
    AtMost(picks, from, due, k);
  }

  lemma {:induction false} AtLeast(picks: seq<nat>, from: nat, due: nat, k: nat)
    requires InOrder(picks, from, due) && k < |picks|
    ensures picks[k] >= from + k
  {
    if k > 0 { AtLeast(picks, from, due, k - 1); }
  }

  lemma {:induction false} AtMost(picks: seq<nat>, from: nat, due: nat, k: nat)
    requires InOrder(picks, from, due) && k < |picks|
    ensures picks[k] <= due - (|picks| - k)
    decreases |picks| - k
  {
    if k + 1 < |picks| { AtMost(picks, from, due, k + 1); }
  }

  /** What was sent stays sent: whatever a watcher had when it was told to stop, it keeps. */
  lemma StreamsGrow<E>(mode: Mode, queueLength: nat, s: State<E>, step: Step<E>, id: int)
    requires Inv(mode, s) && Enabled(mode, s, step) && id in s.watchers
    ensures id in Next(mode, queueLength, s, step).watchers
    ensures s.watchers[id].stream <= Next(mode, queueLength, s, step).watchers[id].stream
  {
    assert WatcherOk(mode, s, id);
  }

  // ---- What is dropped -------------------------------------------------------------------------------

  /** The watcher is sent what is distributed, until it is told to stop. */
  ghost predicate Attached<E>(s: State<E>, id: int) {
    id in s.watchers && !s.watchers[id].stopping && (id in s.live || s.loop.Exited?)
  }

  ghost predicate Missed<E>(s: State<E>, id: int, e: nat)
    requires id in s.watchers && (s.loop.Distributing? ==> s.taken > 0)
  {
    s.watchers[id].from <= e < Due(s, id) && e !in s.watchers[id].picks
  }

  /** What a step makes an attached watcher miss, it misses because its channel is full in drop mode. */
  lemma StepMisses<E>(mode: Mode, queueLength: nat, s: State<E>, step: Step<E>, id: int, e: nat)
    requires Inv(mode, s) && Enabled(mode, s, step) && Inv(mode, Next(mode, queueLength, s, step))
    requires Attached(Next(mode, queueLength, s, step), id) && Missed(Next(mode, queueLength, s, step), id, e)
    requires !(Attached(s, id) && Missed(s, id, e))
    ensures step == Skip(id) && s.loop.Distributing? && s.taken == e + 1 && s.loop.event == s.accepted[e]
    ensures mode.DropIfChannelFull? && id in s.watchers && Full(s.watchers[id])
  {
    hide StreamOk;
    if step.Take? {
      TakeMissesNothing(mode, queueLength, s, id, e);
    }
    hide QueueOk;
    if id in s.watchers {
      assert WatcherOk(mode, s, id);
    }
  }

  lemma TakeMissesNothing<E>(mode: Mode, queueLength: nat, s: State<E>, id: int, e: nat)
    requires Inv(mode, s) && Enabled(mode, s, Take) && Inv(mode, Next(mode, queueLength, s, Take))
    requires Attached(Next(mode, queueLength, s, Take), id) && Missed(Next(mode, queueLength, s, Take), id, e)
    ensures Attached(s, id) && Missed(s, id, e)
  {
    hide StreamOk;
    if id in s.watchers {
      assert WatcherOk(mode, s, id);
    }
    if !s.incoming[0].Event? {
      AloneInQueue(mode, s);
    }
  }

  /** In every run an accepted event is missing from the stream of a watcher not told to stop only if its
      channel was full, in drop mode, when the event was distributed. */
  lemma {:induction false} DroppedOnlyWhenFull<E>(mode: Mode, queueLength: nat, states: seq<State<E>>,
                                                  steps: seq<Step<E>>, i: nat, id: int, e: nat) returns (j: nat)
    requires Run(mode, queueLength, states, steps) && i < |states| && Inv(mode, states[i])
    requires Attached(states[i], id) && Missed(states[i], id, e)
    ensures j < i && steps[j] == Skip(id) && mode.DropIfChannelFull?
    ensures var s := states[j];
            && s.loop.Distributing? && s.taken == e + 1 <= |s.accepted| && s.loop.event == s.accepted[e]
            && id in s.watchers && Full(s.watchers[id])
  {
    assert i > 0;
    RunKeeps(mode, queueLength, states, steps, i - 1);
    j := i - 1;
    assert states[i] == Next(mode, queueLength, states[j], steps[j]);
    hide Inv, Next, Enabled, Attached, Missed;
    if WasMissed(mode, states[j], id, e) {
      j := DroppedOnlyWhenFull(mode, queueLength, states, steps, j, id, e);
    } else {
      StepMisses(mode, queueLength, states[j], steps[j], id, e);
      TakenAccepted(mode, states[j]);
    }
  }

  ghost predicate WasMissed<E>(mode: Mode, s: State<E>, id: int, e: nat)
    requires Inv(mode, s)
  {
    Attached(s, id) && Missed(s, id, e)
  }

  lemma TakenAccepted<E>(mode: Mode, s: State<E>)
    requires Inv(mode, s)
    ensures s.taken <= |s.accepted|
  {
  }

  // ---- What the control functions do -----------------------------------------------------------------

  /** The new watcher is live, its stream is what it was promised at once, and it is due whatever is accepted
      from now on; nobody else is touched. */
  lemma WatchRegisters<E>(mode: Mode, queueLength: nat, s: State<E>, prefix: seq<E>)
    requires Inv(mode, s) && Enabled(mode, s, Take)
    requires s.incoming[0] == WatchWithPrefix(prefix) || (s.incoming[0] == Watch && prefix == [])
    ensures var s', id := Next(mode, queueLength, s, Take), s.nextWatcher;
            && id !in s.watchers && s'.watchers.Keys == s.watchers.Keys + {id} && s'.live == s.live + {id}
            && (forall k :: k in s.watchers ==> s'.watchers[k] == s.watchers[k])
            && s'.watchers[id].prefix == s'.watchers[id].stream == prefix && s'.watchers[id].from == |s.accepted|
            && s'.watchers[id].capacity >= queueLength && (prefix != [] ==> s'.watchers[id].capacity > |prefix|)
            && !s'.watchers[id].stopping && !s'.watchers[id].closed
  {
    forall k | k in s.watchers ensures k < s.nextWatcher { assert WatcherOk(mode, s, k); }
  }

  /** Stopping ends one watcher, once; a shutdown ends the intake. */
  lemma StopEnds<E>(mode: Mode, queueLength: nat, s: State<E>)
    requires Inv(mode, s) && Enabled(mode, s, Take) && !s.incoming[0].Event?
    ensures var s' := Next(mode, queueLength, s, Take);
            && (s.incoming[0].StopWatching? ==>
                  var id := s.incoming[0].id;
                  && s'.live == s.live - {id} && id in s'.watchers && s'.watchers[id].closed
                  && (forall k :: k in s.watchers && k != id ==> k in s'.watchers && s'.watchers[k] == s.watchers[k]))
            && (s.incoming[0].Shutdown? ==> s'.stopped && s'.incomingClosed && s'.watchers == s.watchers)
  {
    AloneInQueue(mode, s);
    if s.incoming[0].StopWatching? {
      assert WatcherOk(mode, s, s.incoming[0].id);
    }
  }
}
