/** The pause buffer of the dispatcher (Start, addToBuffer and flushBuffer in
    internal/handler/dispatcher.go): one goroutine receives messages and buffers them while the server
    is paused, another one flushes the buffer. Pausing is that of internal/server/server.go. */
module PauseBuffer {
  import Steps

  /** Messages are numbered in the order in which they are received. */
  type Msg = nat

  datatype Handled = Handled(msg: Msg, fromBuffer: bool)

  /** What is handled once the batch is, too. */
  function Flushed(handled: seq<Handled>, batch: seq<Msg>): seq<Handled>
    decreases |batch|
  {
    if batch == [] then handled else Flushed(handled + [Handled(batch[0], true)], batch[1..])
  }

  // ---- the methods, run alone ----

  class Dispatcher {
    var buffer: seq<Msg>
    var handled: seq<Handled>

    constructor ()
      ensures buffer == [] && handled == []
    {
      buffer, handled := [], [];
    }

    method AddToBuffer(msg: Msg)
      modifies `buffer
      ensures buffer == old(buffer) + [msg]
    {
      buffer := buffer + [msg];
    }

    method HandleMessage(msg: Msg, fromBuffer: bool)
      modifies `handled
      ensures handled == old(handled) + [Handled(msg, fromBuffer)]
    {
      handled := handled + [Handled(msg, fromBuffer)];
    }

    /** Takes the whole buffer; FlusherDrainsIffAwake says that the steps of the flusher come to the same. */
    method FlushBuffer()
      modifies `buffer, `handled
      ensures buffer == [] && handled == Flushed(old(handled), old(buffer))
    {
      if |buffer| == 0 {
        return;
      }
      var pending := buffer;
      buffer := [];
      for i := 0 to |pending|
        invariant buffer == [] && Flushed(handled, pending[i..]) == Flushed(old(handled), pending)
      {
        assert pending[i..][1..] == pending[i + 1..];
        HandleMessage(pending[i], true);
      }
    }
  }

  // ---- the two goroutines ----

  /** What the receiving goroutine is about to do. */
  datatype Receiver = Listening | Checking(msg: Msg) | Buffering(msg: Msg) | Passing(msg: Msg) | Quit

  /** The flusher calls WaitIfPaused. It is drowsy between having seen that the server is paused and
      being on the list of those that a broadcast wakes. */
  datatype Flusher = Resting | Drowsy | Asleep | Awake | Flushing | Gone

  datatype State = State(
    paused: bool,
    broadcasts: nat,  // calls of Resume that have cleared `paused` and not broadcast yet
    received: nat, receiver: Receiver, flusher: Flusher,
    batch: seq<Msg>, buffer: seq<Msg>, handled: seq<Handled>)

  const START := State(false, 0, 0, Listening, Resting, [], [], [])

  datatype Step =
    | Pause
    | Resume       // clears `paused` ...
    | Broadcast    // ... and then wakes who waits, without the lock that the waiting one holds
    | Receive
    | Check        // the receiver looks whether the server is paused
    | AddToBuffer
    | Pass         // the receiver handles the message itself
    | StopReceiver
    | Look         // the flusher looks whether the server is paused
    | FallAsleep
    | Swap         // the flusher takes the buffer
    | FlushOne
    | Rest         // the batch is done
    | StopFlusher

  predicate Enabled(s: State, step: Step) {
    match step
    case Pause => true
    case Resume => true
    case Broadcast => s.broadcasts > 0
    case Receive => s.receiver.Listening?
    case Check => s.receiver.Checking?
    case AddToBuffer => s.receiver.Buffering?
    case Pass => s.receiver.Passing?
    case StopReceiver => s.receiver.Listening?
    case Look => s.flusher.Resting?
    case FallAsleep => s.flusher.Drowsy?
    case Swap => s.flusher.Awake?
    case FlushOne => s.flusher.Flushing? && s.batch != []
    case Rest => s.flusher.Flushing? && s.batch == []
    case StopFlusher => s.flusher.Resting?
  }

  function Apply(s: State, step: Step): State {
    if !Enabled(s, step) then s
    else
      match step
      case Pause => s.(paused := true)
      case Resume => s.(paused := false, broadcasts := s.broadcasts + 1)
      case Broadcast =>
        s.(broadcasts := s.broadcasts - 1, flusher := if s.flusher.Asleep? then Resting else s.flusher)
      case Receive => s.(receiver := Checking(s.received), received := s.received + 1)
      case Check => s.(receiver := if s.paused then Buffering(s.receiver.msg) else Passing(s.receiver.msg))
      case AddToBuffer => s.(receiver := Listening, buffer := s.buffer + [s.receiver.msg])
      case Pass => s.(receiver := Listening, handled := s.handled + [Handled(s.receiver.msg, false)])
      case StopReceiver => s.(receiver := Quit)
      case Look => s.(flusher := if s.paused then Drowsy else Awake)
      case FallAsleep => s.(flusher := Asleep)
      case Swap => s.(flusher := Flushing, batch := s.buffer, buffer := [])
      case FlushOne => s.(handled := s.handled + [Handled(s.batch[0], true)], batch := s.batch[1..])
      case Rest => s.(flusher := Resting)
      case StopFlusher => s.(flusher := Gone)
  }

  ghost predicate Legal(s: State, steps: seq<Step>) {
    Steps.Legal(Enabled, Apply, s, steps)
  }

  function After(s: State, steps: seq<Step>): State {
    Steps.After(Apply, s, steps)
  }

  // ---- where the messages are ----

  ghost function InHand(r: Receiver): seq<Msg> {
    match r
    case Checking(m) => [m]
    case Buffering(m) => [m]
    case Passing(m) => [m]
    case _ => []
  }

  function Messages(handled: seq<Handled>): (ms: seq<Msg>)
    ensures |ms| == |handled|
  {
    if handled == [] then [] else Messages(handled[..|handled| - 1]) + [handled[|handled| - 1].msg]
  }

  /** The handled messages that went through the buffer, or those that did not. */
  function Via(handled: seq<Handled>, fromBuffer: bool): seq<Msg> {
    if handled == [] then []
    else
      var x := handled[|handled| - 1];
      Via(handled[..|handled| - 1], fromBuffer) + if x.fromBuffer == fromBuffer then [x.msg] else []
  }

  /** The messages in the batch and the buffer. */
  function Waiting(s: State): seq<Msg> {
    s.batch + s.buffer
  }

  /** The messages handled and waiting, in this order. */
  function Line(s: State): seq<Msg> {
    Messages(s.handled) + Waiting(s)
  }

  ghost predicate Increasing(ms: seq<Msg>) {
    forall i, j | 0 <= i < j < |ms| :: ms[i] < ms[j]
  }

  function UpTo(n: nat): seq<Msg> {
    seq(n, i => i)
  }

  /** The messages that went or will go through the buffer. */
  ghost function Buffered(s: State): seq<Msg> {
    Via(s.handled, true) + Waiting(s)
  }

  ghost predicate Below(ms: seq<Msg>, bound: nat) {
    forall i | 0 <= i < |ms| :: ms[i] < bound
  }

  /** The invariant on the sequences of messages: handled and waiting, in hand, through the buffer,
      passed on directly, of n received. */
  ghost predicate Shape(line: seq<Msg>, hand: seq<Msg>, buffered: seq<Msg>, direct: seq<Msg>, n: nat) {
    && multiset(line) + multiset(hand) == multiset(UpTo(n))
    && |hand| <= n && (hand == [] || hand == [n - 1])
    && Below(line, n - |hand|) && Below(buffered, n - |hand|) && Below(direct, n - |hand|)
    && Increasing(buffered) && Increasing(direct)
  }

  ghost predicate Inv(s: State) {
    && Shape(Line(s), InHand(s.receiver), Buffered(s), Via(s.handled, false), s.received)
    && (!s.flusher.Flushing? ==> s.batch == [])
  }

  lemma Appended(handled: seq<Handled>, x: Handled)
    ensures Messages(handled + [x]) == Messages(handled) + [x.msg]
    ensures Via(handled + [x], x.fromBuffer) == Via(handled, x.fromBuffer) + [x.msg]
    ensures Via(handled + [x], !x.fromBuffer) == Via(handled, !x.fromBuffer)
  {
    assert (handled + [x])[..|handled|] == handled;
    assert Via(handled, !x.fromBuffer) + [] == Via(handled, !x.fromBuffer);
  }

  lemma IncreasingAppend(ms: seq<Msg>, m: Msg)
    requires Below(ms, m)
    ensures Increasing(ms + [m]) <==> Increasing(ms)
    ensures Below(ms + [m], m + 1)
  {
    if Increasing(ms + [m]) {
      forall i, j | 0 <= i < j < |ms|
        ensures ms[i] < ms[j]
      {
        assert (ms + [m])[i] == ms[i] && (ms + [m])[j] == ms[j];
      }
    }
  }

  lemma BelowMore(ms: seq<Msg>, a: nat, b: nat)
    requires Below(ms, a) && a <= b
    ensures Below(ms, b)
  {
  }

  /** Putting the newest message before older ones breaks the order, and nothing mends it. */
  lemma IncreasingInsert(a: seq<Msg>, m: Msg, b: seq<Msg>)
    requires Below(a + b, m)
    ensures Increasing(a + [m] + b) <==> Increasing(a + b) && b == []
    ensures Below(a + [m] + b, m + 1)
  {
    var with := a + [m] + b;
    if b == [] {
      assert with == (a + b) + [m];
      IncreasingAppend(a + b, m);
    } else {
      assert with[|a|] == m && with[|a| + 1] == b[0] == (a + b)[|a|];
      forall i | 0 <= i < |with|
        ensures with[i] < m + 1
      {
        assert i < |a| ==> with[i] == (a + b)[i];
        assert i > |a| ==> with[i] == (a + b)[i - 1];
      }
    }
  }

  lemma ShapeReceive(line: seq<Msg>, buffered: seq<Msg>, direct: seq<Msg>, n: nat)
    requires Shape(line, [], buffered, direct, n)
    ensures Shape(line, [n], buffered, direct, n + 1)
  {
    assert UpTo(n + 1) == UpTo(n) + [n];
    hide Increasing, Below, UpTo;
  }

  lemma ShapeBuffer(line: seq<Msg>, m: Msg, buffered: seq<Msg>, direct: seq<Msg>, n: nat)
    requires Shape(line, [m], buffered, direct, n)
    ensures Shape(line + [m], [], buffered + [m], direct, n)
    ensures Increasing(line + [m]) <==> Increasing(line)
  {
    hide Increasing, Below, UpTo;
    IncreasingAppend(line, m);
    IncreasingAppend(buffered, m);
    BelowMore(direct, m, n);
  }

  lemma ShapePass(done: seq<Msg>, m: Msg, rest: seq<Msg>, buffered: seq<Msg>, direct: seq<Msg>, n: nat)
    requires Shape(done + rest, [m], buffered, direct, n)
    ensures Shape(done + [m] + rest, [], buffered, direct + [m], n)
    ensures Increasing(done + [m] + rest) <==> Increasing(done + rest) && rest == []
  {
    hide Increasing, Below, UpTo;
    IncreasingInsert(done, m, rest);
    IncreasingAppend(direct, m);
    BelowMore(buffered, m, n);
    assert multiset(done + [m] + rest) == multiset(done + rest) + multiset([m]);
  }

  /** The receiver handles a message while others are in the batch or the buffer. */
  predicate Overtakes(s: State, step: Step) {
    step.Pass? && Waiting(s) != []
  }

  /** Besides the invariant: the messages stay in order exactly if the step overtakes nothing. */
  lemma StepKeepsInv(s: State, step: Step)
    requires Inv(s) && Enabled(s, step)
    ensures Inv(Apply(s, step))
    ensures Increasing(Line(Apply(s, step))) <==> Increasing(Line(s)) && !Overtakes(s, step)
  {
    hide Shape, Messages, Via, Increasing;
    var next := Apply(s, step);
    match step
    case Receive =>
      ShapeReceive(Line(s), Buffered(s), Via(s.handled, false), s.received);
    case AddToBuffer =>
      var m := s.receiver.msg;
      TailMoves(Messages(s.handled), Waiting(s), m);
      TailMoves(Via(s.handled, true), Waiting(s), m);
      assert Waiting(next) == Waiting(s) + [m];
      ShapeBuffer(Line(s), m, Buffered(s), Via(s.handled, false), s.received);
    case Pass =>
      var m := s.receiver.msg;
      Appended(s.handled, Handled(m, false));
      ShapePass(Messages(s.handled), m, Waiting(s), Buffered(s), Via(s.handled, false), s.received);
    case FlushOne =>
      var x := s.batch[0];
      Appended(s.handled, Handled(x, true));
      assert Waiting(s) == [x] + Waiting(next);
      HeadMoves(Messages(s.handled), x, Waiting(next));
      HeadMoves(Via(s.handled, true), x, Waiting(next));
    case _ =>
      assert Waiting(next) == Waiting(s);
  }

  lemma HeadMoves(a: seq<Msg>, x: Msg, b: seq<Msg>)
    ensures (a + [x]) + b == a + ([x] + b)
  {
  }

  lemma TailMoves(a: seq<Msg>, b: seq<Msg>, x: Msg)
    ensures a + (b + [x]) == (a + b) + [x]
  {
  }

  lemma StartOk()
    ensures Inv(START)
  {
    assert Line(START) == [] == UpTo(0) && Buffered(START) == [];
  }

  lemma RunKeepsInv(s: State, steps: seq<Step>)
    requires Inv(s) && Legal(s, steps)
    ensures Inv(After(s, steps))
  {
    hide Inv, Apply, Enabled;
    forall t, step | Inv(t) && Enabled(t, step)
      ensures Inv(Apply(t, step))
    {
      StepKeepsInv(t, step);
    }
    Steps.RunKeeps(Enabled, Apply, Inv, s, steps);
  }

  // ---- what follows for every run ----

  ghost predicate Reached(s: State, steps: seq<Step>) {
    Legal(START, steps) && s == After(START, steps)
  }

  lemma ReachedIsOk(s: State, steps: seq<Step>)
    requires Reached(s, steps)
    ensures Inv(s)
  {
    StartOk();
    hide Inv;
    RunKeepsInv(START, steps);
  }

  lemma OnceInUpTo(n: nat, m: Msg)
    ensures multiset(UpTo(n))[m] == if m < n then 1 else 0
  {
    if n > 0 {
      OnceInUpTo(n - 1, m);
      assert UpTo(n) == UpTo(n - 1) + [n - 1];
    }
  }

  /** Nothing is lost and nothing duplicated: each message received is exactly once among the
      handled ones, the batch, the buffer and the hand of the receiver. */
  lemma EachMessageIsSomewhereOnce(s: State, steps: seq<Step>, m: Msg)
    requires Reached(s, steps)
    ensures multiset(Messages(s.handled))[m] + multiset(s.batch)[m] + multiset(s.buffer)[m]
              + multiset(InHand(s.receiver))[m]
         == if m < s.received then 1 else 0
  {
    ReachedIsOk(s, steps);
    OnceInUpTo(s.received, m);
    hide Reached, Messages, Via, Increasing, Below, InHand, UpTo;
    assert multiset(Line(s) + InHand(s.receiver))
        == multiset(Messages(s.handled)) + multiset(s.batch) + multiset(s.buffer) + multiset(InHand(s.receiver));
  }

  /** Messages that go through the buffer are handled in the order of arrival, and so are the
      others among themselves. */
  lemma BufferedInOrder(s: State, steps: seq<Step>)
    requires Reached(s, steps)
    ensures Increasing(Via(s.handled, true) + (s.batch + s.buffer))
    ensures Increasing(Via(s.handled, false))
  {
    ReachedIsOk(s, steps);
  }

  /** Some step of the run overtakes. */
  ghost predicate SomeOvertakes(s: State, steps: seq<Step>)
    decreases |steps|
  {
    steps != [] && (Overtakes(s, steps[0]) || SomeOvertakes(Apply(s, steps[0]), steps[1..]))
  }

  lemma {:induction false} OrderOverRun(s: State, steps: seq<Step>)
    requires Inv(s) && Legal(s, steps)
    ensures Increasing(Line(After(s, steps))) <==> Increasing(Line(s)) && !SomeOvertakes(s, steps)
    decreases |steps|
  {
    hide Inv, Apply, Enabled, Increasing, Line, Overtakes;
    if steps != [] {
      StepKeepsInv(s, steps[0]);
      OrderOverRun(Apply(s, steps[0]), steps[1..]);
    }
  }

  /** All messages are handled in the order of arrival exactly as long as the receiver passes none
      on while others wait in the batch or the buffer. */
  lemma OrderKeptIffNotOvertaken(s: State, steps: seq<Step>)
    requires Reached(s, steps)
    ensures Increasing(Messages(s.handled) + (s.batch + s.buffer)) <==> !SomeOvertakes(START, steps)
  {
    StartOk();
    hide Inv;
    OrderOverRun(START, steps);
  }

  lemma OneStep(s: State, step: Step, rest: seq<Step>)
    requires Enabled(s, step) && Legal(Apply(s, step), rest)
    ensures Legal(s, [step] + rest) && After(s, [step] + rest) == After(Apply(s, step), rest)
  {
    Steps.OneStep(Enabled, Apply, s, step, rest);
  }

  // ---- two schedules ----

  const PAUSED := [Pause, Look, Receive, Check, AddToBuffer]

  /** A message is buffered, and the flusher has seen that the server is paused. */
  lemma MessageBuffered()
    ensures Legal(START, PAUSED)
    ensures After(START, PAUSED) == State(true, 0, 1, Listening, Drowsy, [], [0], [])
  {
    var s1 := Apply(START, Pause);
    var s2 := Apply(s1, Look);
    var s3 := Apply(s2, Receive);
    var s4 := Apply(s3, Check);
    assert Apply(s4, AddToBuffer).buffer == [0];
    hide Apply, Enabled;
    LastStep(s4, AddToBuffer);
    OneStep(s3, Check, [AddToBuffer]);
    OneStep(s2, Receive, [Check, AddToBuffer]);
    OneStep(s1, Look, [Receive, Check, AddToBuffer]);
    OneStep(START, Pause, [Look, Receive, Check, AddToBuffer]);
  }

  /** Overtaking happens: the server is resumed and the next message arrives before the flusher has
      taken the buffer. */
  lemma OvertakingHappens()
    ensures var steps := PAUSED + [Resume, Receive, Check, Pass];
            && Legal(START, steps)
            && After(START, steps).handled == [Handled(1, false)] && After(START, steps).buffer == [0]
  {
    MessageBuffered();
    var s := After(START, PAUSED);
    var s1 := Apply(s, Resume);
    var s2 := Apply(s1, Receive);
    var s3 := Apply(s2, Check);
    var s4 := Apply(s3, Pass);
    assert s4.handled == [Handled(1, false)] && s4.buffer == [0];
    hide Apply, Enabled;
    LastStep(s3, Pass);
    OneStep(s2, Check, [Pass]);
    OneStep(s1, Receive, [Check, Pass]);
    OneStep(s, Resume, [Receive, Check, Pass]);
    Append(START, PAUSED, [Resume, Receive, Check, Pass]);
  }

  /** A wake-up is lost: Resume broadcasts while the flusher, which has seen that the server is
      paused, is not on the list yet. It falls asleep although the server is not paused. */
  lemma WakeUpIsLost()
    ensures var steps := PAUSED + [Resume, Broadcast, FallAsleep];
            && Legal(START, steps)
            && After(START, steps) == State(false, 0, 1, Listening, Asleep, [], [0], [])
  {
    MessageBuffered();
    var s := After(START, PAUSED);
    var s1 := Apply(s, Resume);
    var s2 := Apply(s1, Broadcast);
    var s3 := Apply(s2, FallAsleep);
    assert s3 == State(false, 0, 1, Listening, Asleep, [], [0], []);
    hide Apply, Enabled;
    LastStep(s2, FallAsleep);
    OneStep(s1, Broadcast, [FallAsleep]);
    OneStep(s, Resume, [Broadcast, FallAsleep]);
    Append(START, PAUSED, [Resume, Broadcast, FallAsleep]);
  }

  lemma NoStep(s: State)
    ensures Legal(s, []) && After(s, []) == s
  {
  }

  lemma LastStep(s: State, step: Step)
    requires Enabled(s, step)
    ensures Legal(s, [step]) && After(s, [step]) == Apply(s, step)
  {
    OneStep(s, step, []);
    assert [step] + [] == [step];
  }

  lemma Append(s: State, first: seq<Step>, rest: seq<Step>)
    requires Legal(s, first) && Legal(After(s, first), rest)
    ensures Legal(s, first + rest) && After(s, first + rest) == After(After(s, first), rest)
  {
    Steps.Append(Enabled, Apply, s, first, rest);
  }

  // ---- when the buffer is flushed after a resume ----

  predicate OfFlusher(step: Step) {
    step.Look? || step.FallAsleep? || step.Swap? || step.FlushOne? || step.Rest?
  }

  /** The flusher alone, with these steps, handles the batch and the buffer. */
  ghost predicate Drains(s: State, steps: seq<Step>) {
    && Legal(s, steps) && (forall step | step in steps :: OfFlusher(step))
    && After(s, steps).batch == After(s, steps).buffer == []
    && After(s, steps).handled == Flushed(Flushed(s.handled, s.batch), s.buffer)
  }

  predicate Sleeps(s: State) {
    (s.flusher.Drowsy? || s.flusher.Asleep?) && s.broadcasts == 0
  }

  /** As long as nobody resumes the server, a flusher that is or falls asleep takes nothing from the
      buffer, which only grows. */
  lemma {:induction false} SleepsOn(s: State, steps: seq<Step>)
    requires Sleeps(s) && Legal(s, steps) && Resume !in steps
    ensures Sleeps(After(s, steps)) && s.buffer <= After(s, steps).buffer
    decreases |steps|
  {
    if steps != [] {
      var next := Apply(s, steps[0]);
      assert Sleeps(next) && s.buffer <= next.buffer;
      hide Apply, Enabled, Sleeps;
      assert steps[0] in steps && forall step | step in steps[1..] :: step in steps;
      SleepsOn(next, steps[1..]);
    }
  }

  lemma ThenDrains(s: State, step: Step, rest: seq<Step>)
    requires Enabled(s, step) && OfFlusher(step) && Drains(Apply(s, step), rest)
    requires var next := Apply(s, step);
             Flushed(Flushed(next.handled, next.batch), next.buffer) == Flushed(Flushed(s.handled, s.batch), s.buffer)
    ensures Drains(s, [step] + rest)
  {
    hide Apply, Enabled, Flushed;
    OneStep(s, step, rest);
  }

  lemma {:induction false} DrainsWhileFlushing(s: State) returns (steps: seq<Step>)
    requires s.flusher.Flushing? && !s.paused
    ensures Drains(s, steps)
    decreases |s.buffer|, |s.batch|
  {
    if s.batch != [] {
      steps := DrainsWhileFlushing(Apply(s, FlushOne));
      ThenDrains(s, FlushOne, steps);
      steps := [FlushOne] + steps;
    } else if s.buffer != [] {
      var resting := Apply(s, Rest);
      var awake := Apply(resting, Look);
      steps := DrainsWhileFlushing(Apply(awake, Swap));
      ThenDrains(awake, Swap, steps);
      ThenDrains(resting, Look, [Swap] + steps);
      ThenDrains(s, Rest, [Look] + ([Swap] + steps));
      steps := [Rest] + ([Look] + ([Swap] + steps));
    } else {
      steps := [];
      NoStep(s);
    }
  }

  lemma DrainsUnlessAsleep(s: State) returns (steps: seq<Step>)
    requires !s.paused && (s.flusher.Resting? || s.flusher.Awake? || s.flusher.Flushing?)
    requires !s.flusher.Flushing? ==> s.batch == []
    ensures Drains(s, steps)
  {
    if s.flusher.Flushing? {
      steps := DrainsWhileFlushing(s);
    } else {
      var awake := if s.flusher.Resting? then Apply(s, Look) else s;
      steps := DrainsWhileFlushing(Apply(awake, Swap));
      ThenDrains(awake, Swap, steps);
      steps := [Swap] + steps;
      if s.flusher.Resting? {
        ThenDrains(s, Look, steps);
        steps := [Look] + steps;
      }
    }
  }

  /** After a resume the flusher, left alone, handles all that is buffered, in order, if and only if
      it did not miss the broadcast. */
  lemma FlusherDrainsIffAwake(s: State, steps: seq<Step>)
    requires Reached(s, steps) && !s.paused && s.broadcasts == 0 && !s.flusher.Gone?
    ensures (exists rest :: Drains(s, rest)) <==> s.buffer == [] || !(s.flusher.Drowsy? || s.flusher.Asleep?)
  {
    ReachedIsOk(s, steps);
    hide Reached, Shape;
    if s.flusher.Drowsy? || s.flusher.Asleep? {
      if s.buffer == [] {
        NoStep(s);
        assert Drains(s, []);
      }
      forall rest | Drains(s, rest)
        ensures s.buffer == []
      {
        assert Resume !in rest;
        SleepsOn(s, rest);
      }
    } else {
      var rest := DrainsUnlessAsleep(s);
    }
  }
}
