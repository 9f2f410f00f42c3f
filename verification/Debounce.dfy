/** Trailing-edge debouncing (Registry.Debounce in internal/handler/registry.go) as a step relation:
    one step for every section under the lock of the registry or of a debouncer, and one for a timer
    that goes off. Calls of Debounce, expiring timers, callbacks that wait for the lock, and the
    removal and renaming of handlers interleave in any order. */
module Debounce {
  import Steps
  import opened Wrappers

  /** A call stands for the message it brings. */
  type Call = nat

  datatype Debouncer = Debouncer(
    timer: Option<nat>,     // the timer field
    pending: Option<nat>,   // the pending field: an index into arrived
    armed: set<nat>,        // timers that have not gone off and were not stopped
    fired: set<nat>,        // timers that went off and whose callback has not had the lock yet
    arrived: seq<Call>,     // the calls that had the lock, in this order
    armedBy: map<nat, nat>, // timer to the arrival whose call armed it: its callback is that call's closure
    stopped: bool)          // the handler was updated, deleted or replaced after the last arrival

  const NEW_DEBOUNCER := Debouncer(None, None, {}, {}, [], map[], false)

  /** A callback executed the message with this arrival number. */
  datatype Execution = Execution(debouncer: nat, arrival: nat)

  datatype State = State(
    table: map<string, nat>,    // key to debouncer: the name of a handler, or a key of the debounce builtin
    debouncers: seq<Debouncer>,
    waiting: map<Call, nat>,    // calls between their two locked sections, with their debouncer
    calls: nat,
    timers: nat,
    executed: seq<Execution>)

  const START := State(map[], [], map[], 0, 0, [])

  datatype Step =
    | Lookup(name: string)          // a call finds or creates the debouncer
    | Arm(call: Call)               // the call stops the timer, stores its message, starts a timer
    | Fire(d: nat, timer: nat)
    | Take(d: nat, timer: nat)      // the callback
    | StopTimer(d: nat)             // Update, Delete and Replace stop the timer ...
    | Unlink(name: string)          // ... and drop the debouncer
    | Rename(from: string, to: string)

  predicate Enabled(s: State, step: Step) {
    match step
    case Arm(c) => c in s.waiting && s.waiting[c] < |s.debouncers|
    case Fire(d, t) => d < |s.debouncers| && t in s.debouncers[d].armed
    case Take(d, t) => d < |s.debouncers| && t in s.debouncers[d].fired
    case StopTimer(d) => d < |s.debouncers|
    case _ => true
  }

  /** timer.Stop() has no effect on a timer that has gone off. */
  function AfterStop(d: Debouncer): set<nat> {
    if d.timer.Some? then d.armed - {d.timer.value} else d.armed
  }

  function Armed(d: Debouncer, c: Call, t: nat): Debouncer {
    Debouncer(Some(t), Some(|d.arrived|), AfterStop(d) + {t}, d.fired, d.arrived + [c],
              d.armedBy[t := |d.arrived|], false)
  }

  function Taken(d: Debouncer, t: nat): Debouncer {
    d.(timer := None, pending := None, fired := d.fired - {t})
  }

  function Apply(s: State, step: Step): State {
    if !Enabled(s, step) then s
    else
      match step
      case Lookup(name) =>
        if name in s.table then s.(waiting := s.waiting[s.calls := s.table[name]], calls := s.calls + 1)
        else
          s.(table := s.table[name := |s.debouncers|], debouncers := s.debouncers + [NEW_DEBOUNCER],
             waiting := s.waiting[s.calls := |s.debouncers|], calls := s.calls + 1)
      case Arm(c) =>
        var d := s.waiting[c];
        s.(debouncers := s.debouncers[d := Armed(s.debouncers[d], c, s.timers)], waiting := s.waiting - {c},
           timers := s.timers + 1)
      case Fire(d, t) =>
        var b := s.debouncers[d];
        s.(debouncers := s.debouncers[d := b.(armed := b.armed - {t}, fired := b.fired + {t})])
      case Take(d, t) =>
        var b := s.debouncers[d];
        s.(debouncers := s.debouncers[d := Taken(b, t)],
           executed := if b.pending.Some? then s.executed + [Execution(d, b.pending.value)] else s.executed)
      case StopTimer(d) =>
        var b := s.debouncers[d];
        s.(debouncers := s.debouncers[d := b.(armed := AfterStop(b), stopped := true)])
      case Unlink(name) => s.(table := s.table - {name})
      case Rename(from, to) =>
        if from != to && from in s.table then s.(table := s.table[to := s.table[from]] - {from}) else s
  }

  ghost predicate Legal(s: State, steps: seq<Step>) {
    Steps.Legal(Enabled, Apply, s, steps)
  }

  function After(s: State, steps: seq<Step>): State {
    Steps.After(Apply, s, steps)
  }

  // ---- the invariant ----

  /** The newest arrival is pending, or a callback has executed it. While it is pending, and unless
      the handler was removed, the timer started for it is armed or its callback is on its way. */
  ghost predicate DebouncerOk(b: Debouncer, timers: nat) {
    && (forall t | t in b.armed :: t < timers) && (forall t | t in b.fired :: t < timers)
    && (b.timer.Some? ==> b.timer.value < timers)
    && (b.pending.Some? ==> b.pending.value + 1 == |b.arrived|)
    && (b.pending.Some? && !b.stopped ==> b.timer.Some? && (b.timer.value in b.armed || b.timer.value in b.fired))
    && ClosuresOk(b, timers)
  }

  /** Every timer was armed by an arrival of its own; the timer field holds that of the newest, as
      long as its message is pending. */
  ghost predicate ClosuresOk(b: Debouncer, timers: nat) {
    && (forall t | t in b.armedBy :: t < timers && b.armedBy[t] < |b.arrived|)
    && (forall t | t in b.armed || t in b.fired :: t in b.armedBy)
    && (forall t, u | t in b.armedBy && u in b.armedBy && b.armedBy[t] == b.armedBy[u] :: t == u)
    && (b.timer.Some? <==> b.pending.Some?)
    && (b.timer.Some? ==> b.timer.value in b.armedBy && b.armedBy[b.timer.value] + 1 == |b.arrived|)
  }

  ghost predicate TablesOk(s: State) {
    && (forall key | key in s.table :: s.table[key] < |s.debouncers|)
    && (forall x, y | x in s.table && y in s.table && s.table[x] == s.table[y] :: x == y)
    && (forall c | c in s.waiting :: c < s.calls && s.waiting[c] < |s.debouncers|)
  }

  /** A call arrives at most once, at one debouncer. */
  ghost predicate ArrivalsOk(s: State) {
    && (forall d, i | 0 <= d < |s.debouncers| && 0 <= i < |s.debouncers[d].arrived| ::
          s.debouncers[d].arrived[i] < s.calls && s.debouncers[d].arrived[i] !in s.waiting)
    && (forall d, i, e, j | 0 <= d < |s.debouncers| && 0 <= i < |s.debouncers[d].arrived|
                         && 0 <= e < |s.debouncers| && 0 <= j < |s.debouncers[e].arrived|
                         && s.debouncers[d].arrived[i] == s.debouncers[e].arrived[j] :: d == e && i == j)
  }

  /** What was executed had arrived and is not pending. */
  ghost predicate Arrived(s: State, x: Execution) {
    && x.debouncer < |s.debouncers| && x.arrival < |s.debouncers[x.debouncer].arrived|
    && s.debouncers[x.debouncer].pending != Some(x.arrival)
  }

  /** Executions of a debouncer come in the order of arrival, none twice. */
  ghost predicate InOrder(executed: seq<Execution>) {
    forall k, l | 0 <= k < l < |executed| && executed[k].debouncer == executed[l].debouncer ::
      executed[k].arrival < executed[l].arrival
  }

  /** The newest arrival is pending or executed. */
  ghost predicate NewestKept(s: State, d: nat)
    requires d < |s.debouncers|
  {
    var n := |s.debouncers[d].arrived|;
    n > 0 ==> s.debouncers[d].pending == Some(n - 1) || Execution(d, n - 1) in s.executed
  }

  ghost predicate ExecutionsOk(s: State) {
    && (forall k | 0 <= k < |s.executed| :: Arrived(s, s.executed[k]))
    && InOrder(s.executed)
    && (forall d | 0 <= d < |s.debouncers| :: NewestKept(s, d))
  }

  ghost predicate Inv(s: State) {
    && TablesOk(s) && ArrivalsOk(s) && ExecutionsOk(s)
    && forall d | 0 <= d < |s.debouncers| :: DebouncerOk(s.debouncers[d], s.timers)
  }

  lemma StepKeepsDebouncers(s: State, step: Step)
    requires Inv(s) && Enabled(s, step)
    ensures var next := Apply(s, step);
            TablesOk(next) && forall d | 0 <= d < |next.debouncers| :: DebouncerOk(next.debouncers[d], next.timers)
  {
    StepKeepsTables(s, step);
    NewDebouncerOk(s.timers);
    hide ArrivalsOk, ExecutionsOk, TablesOk, DebouncerOk, Armed, Taken, AfterStop;
    var next := Apply(s, step);
    forall d | 0 <= d < |next.debouncers|
      ensures DebouncerOk(next.debouncers[d], next.timers)
    {
      if d < |s.debouncers| {
        DebouncerStaysOk(s.debouncers[d], s.timers);
      }
    }
  }

  lemma NewDebouncerOk(timers: nat)
    ensures DebouncerOk(NEW_DEBOUNCER, timers)
  {
  }

  lemma StepKeepsTables(s: State, step: Step)
    requires TablesOk(s) && Enabled(s, step)
    ensures TablesOk(Apply(s, step))
  {
  }

  lemma DebouncerStaysOk(b: Debouncer, timers: nat)
    requires DebouncerOk(b, timers)
    ensures DebouncerOk(b, timers + 1)
    ensures forall c: Call :: DebouncerOk(Armed(b, c, timers), timers + 1)
    ensures forall t | t in b.fired :: DebouncerOk(Taken(b, t), timers)
    ensures forall t | t in b.armed :: DebouncerOk(b.(armed := b.armed - {t}, fired := b.fired + {t}), timers)
    ensures DebouncerOk(b.(armed := AfterStop(b), stopped := true), timers)
  {
    ClosuresStayOk(b, timers);
    hide ClosuresOk;
  }

  lemma ClosuresStayOk(b: Debouncer, timers: nat)
    requires DebouncerOk(b, timers)
    ensures ClosuresOk(b, timers + 1)
    ensures forall c: Call :: ClosuresOk(Armed(b, c, timers), timers + 1)
    ensures forall t | t in b.fired :: ClosuresOk(Taken(b, t), timers)
    ensures forall t | t in b.armed :: ClosuresOk(b.(armed := b.armed - {t}, fired := b.fired + {t}), timers)
    ensures ClosuresOk(b.(armed := AfterStop(b), stopped := true), timers)
  {
  }

  ghost predicate SameArrivals(s: State, next: State) {
    && |s.debouncers| <= |next.debouncers|
    && (forall d | 0 <= d < |s.debouncers| :: next.debouncers[d].arrived == s.debouncers[d].arrived)
    && (forall d | |s.debouncers| <= d < |next.debouncers| :: next.debouncers[d].arrived == [])
  }

  lemma NothingArrives(s: State, next: State)
    requires ArrivalsOk(s) && SameArrivals(s, next) && s.calls <= next.calls
    requires forall c | c in next.waiting :: c in s.waiting || c >= s.calls
    ensures ArrivalsOk(next)
  {
  }

  lemma OneArrives(s: State, next: State, at: nat, c: Call)
    requires ArrivalsOk(s) && c in s.waiting && c < s.calls && at < |s.debouncers|
    requires |next.debouncers| == |s.debouncers| && next.calls == s.calls && next.waiting == s.waiting - {c}
    requires next.debouncers[at].arrived == s.debouncers[at].arrived + [c]
    requires forall d | 0 <= d < |s.debouncers| && d != at :: next.debouncers[d].arrived == s.debouncers[d].arrived
    ensures ArrivalsOk(next)
  {
  }

  lemma StepKeepsArrivals(s: State, step: Step)
    requires Inv(s) && Enabled(s, step)
    ensures ArrivalsOk(Apply(s, step))
  {
    hide ExecutionsOk, DebouncerOk, ArrivalsOk;
    var next := Apply(s, step);
    if step.Arm? {
      OneArrives(s, next, s.waiting[step.call], step.call);
    } else {
      assert SameArrivals(s, next);
      NothingArrives(s, next);
    }
  }

  /** A step of the debouncer that executes nothing: nothing changes for its messages, or one
      arrives and becomes pending. */
  ghost predicate Receives(b: Debouncer, next: Debouncer) {
    || (next.arrived == b.arrived && next.pending == b.pending)
    || (|next.arrived| == |b.arrived| + 1 && next.pending == Some(|b.arrived|))
  }

  lemma NothingExecuted(s: State, next: State)
    requires ExecutionsOk(s) && next.executed == s.executed && |s.debouncers| <= |next.debouncers|
    requires forall d | 0 <= d < |s.debouncers| :: Receives(s.debouncers[d], next.debouncers[d])
    requires forall d | |s.debouncers| <= d < |next.debouncers| :: next.debouncers[d].arrived == []
    ensures ExecutionsOk(next)
  {
    hide InOrder;
    forall k | 0 <= k < |next.executed|
      ensures Arrived(next, next.executed[k])
    {
      assert Arrived(s, s.executed[k]);
      assert Receives(s.debouncers[s.executed[k].debouncer], next.debouncers[s.executed[k].debouncer]);
    }
    forall d | 0 <= d < |next.debouncers|
      ensures NewestKept(next, d)
    {
      if d < |s.debouncers| {
        assert NewestKept(s, d) && Receives(s.debouncers[d], next.debouncers[d]);
      }
    }
  }

  lemma NewestExecuted(s: State, next: State, x: Execution)
    requires ExecutionsOk(s) && next.executed == s.executed + [x]
    requires |next.debouncers| == |s.debouncers| && x.debouncer < |s.debouncers|
    requires s.debouncers[x.debouncer].pending == Some(x.arrival)
    requires x.arrival + 1 == |s.debouncers[x.debouncer].arrived|
    requires next.debouncers[x.debouncer].arrived == s.debouncers[x.debouncer].arrived
    requires next.debouncers[x.debouncer].pending == None
    requires forall e | 0 <= e < |s.debouncers| && e != x.debouncer :: next.debouncers[e] == s.debouncers[e]
    ensures ExecutionsOk(next)
  {
    forall k | 0 <= k < |next.executed|
      ensures Arrived(next, next.executed[k])
    {
      assert k < |s.executed| ==> Arrived(s, s.executed[k]);
    }
    assert InOrder(next.executed) by {
      forall k | 0 <= k < |s.executed| && s.executed[k].debouncer == x.debouncer
        ensures s.executed[k].arrival < x.arrival
      {
        assert Arrived(s, s.executed[k]);
      }
    }
    hide InOrder, Arrived;
    assert x in next.executed && forall y | y in s.executed :: y in next.executed;
    forall d | 0 <= d < |next.debouncers|
      ensures NewestKept(next, d)
    {
      assert NewestKept(s, d);
    }
  }

  lemma StepKeepsExecutions(s: State, step: Step)
    requires Inv(s) && Enabled(s, step)
    ensures ExecutionsOk(Apply(s, step))
  {
    hide ArrivalsOk, ExecutionsOk, NewestKept, InOrder, Arrived;
    var next := Apply(s, step);
    if step.Take? && s.debouncers[step.d].pending.Some? {
      assert DebouncerOk(s.debouncers[step.d], s.timers);
      NewestExecuted(s, next, Execution(step.d, s.debouncers[step.d].pending.value));
    } else {
      NothingExecuted(s, next);
    }
  }

  lemma StepKeepsInv(s: State, step: Step)
    requires Inv(s) && Enabled(s, step)
    ensures Inv(Apply(s, step))
  {
    hide Apply, TablesOk, ArrivalsOk, ExecutionsOk, DebouncerOk;
    StepKeepsDebouncers(s, step);
    StepKeepsArrivals(s, step);
    StepKeepsExecutions(s, step);
  }

  /** So does every interleaving. */
  lemma RunKeepsInv(s: State, steps: seq<Step>)
    requires Inv(s) && Legal(s, steps)
    ensures Inv(After(s, steps))
  {
    hide Inv, Apply, Enabled;
    forall t, step | Inv(t) && Enabled(t, step)
      ensures Inv(Apply(t, step))
    {
      StepKeepsInv(t, step);
    }
    Steps.RunKeeps(Enabled, Apply, Inv, s, steps);
  }

  // ---- what follows for every run ----

  /** The states that runs from the start lead to. */
  ghost predicate Reached(s: State, steps: seq<Step>) {
    Legal(START, steps) && s == After(START, steps)
  }

  lemma ReachedIsOk(s: State, steps: seq<Step>)
    requires Reached(s, steps)
    ensures Inv(s)
  {
    assert Inv(START);
    hide Inv;
    RunKeepsInv(START, steps);
  }

  function CallOf(s: State, x: Execution): Option<Call> {
    if x.debouncer < |s.debouncers| && x.arrival < |s.debouncers[x.debouncer].arrived|
    then Some(s.debouncers[x.debouncer].arrived[x.arrival]) else None
  }

  /** In every interleaving each message is executed at most once. */
  lemma EachMessageAtMostOnce(s: State, steps: seq<Step>)
    requires Reached(s, steps)
    ensures forall k | 0 <= k < |s.executed| :: CallOf(s, s.executed[k]).Some?
    ensures forall k, l | 0 <= k < l < |s.executed| :: CallOf(s, s.executed[k]) != CallOf(s, s.executed[l])
  {
    ReachedIsOk(s, steps);
    hide Reached, DebouncerOk, TablesOk;
  }

  /** A callback executes the newest message that has arrived at its debouncer, or nothing if that
      message has been executed already. */
  lemma CallbackTakesNewest(s: State, steps: seq<Step>, d: nat, t: nat)
    requires Reached(s, steps) && Enabled(s, Take(d, t))
    ensures var next, n := Apply(s, Take(d, t)), |s.debouncers[d].arrived|;
            if s.debouncers[d].pending.Some? then
              && n > 0 && next.executed == s.executed + [Execution(d, n - 1)]
              && Execution(d, n - 1) !in s.executed
            else next.executed == s.executed && (n > 0 ==> Execution(d, n - 1) in s.executed)
  {
    ReachedIsOk(s, steps);
    hide Reached, ArrivalsOk, TablesOk;
    assert DebouncerOk(s.debouncers[d], s.timers);
    assert NewestKept(s, d);
    assert forall k | 0 <= k < |s.executed| :: Arrived(s, s.executed[k]);
  }

  // ---- calls reset the timer ----

  /** The timer before a call cannot go off after it. */
  lemma CallStopsTimer(s: State, steps: seq<Step>, c: Call, t: nat)
    requires Reached(s, steps) && Enabled(s, Arm(c)) && s.debouncers[s.waiting[c]].timer == Some(t)
    ensures !Enabled(Apply(s, Arm(c)), Fire(s.waiting[c], t))
    ensures Apply(s, Arm(c)).debouncers[s.waiting[c]].timer == Some(s.timers)
    ensures Enabled(Apply(s, Arm(c)), Fire(s.waiting[c], s.timers))
  {
    ReachedIsOk(s, steps);
    hide Reached, ArrivalsOk, TablesOk, ExecutionsOk;
    assert DebouncerOk(s.debouncers[s.waiting[c]], s.timers);
  }

  /** At most the timer of the newest call can still go off. */
  ghost predicate OneTimer(b: Debouncer) {
    (forall t | t in b.armed :: b.timer == Some(t)) && b.armed !! b.fired
  }

  ghost predicate OneTimerEach(s: State) {
    forall d | 0 <= d < |s.debouncers| :: OneTimer(s.debouncers[d])
  }

  /** No callback comes late: each has the lock while its timer is the one in the timer field. */
  ghost predicate NoneLate(s: State, steps: seq<Step>)
    decreases |steps|
  {
    steps == []
    || ((steps[0].Take? && steps[0].d < |s.debouncers| ==> s.debouncers[steps[0].d].timer == Some(steps[0].timer))
        && NoneLate(Apply(s, steps[0]), steps[1..]))
  }

  lemma StepKeepsOneTimer(s: State, step: Step)
    requires Inv(s) && OneTimerEach(s) && Enabled(s, step)
    requires step.Take? ==> s.debouncers[step.d].timer == Some(step.timer)
    ensures OneTimerEach(Apply(s, step))
  {
    hide TablesOk, ArrivalsOk, ExecutionsOk, ClosuresOk;
    var next := Apply(s, step);
    forall d | 0 <= d < |next.debouncers|
      ensures OneTimer(next.debouncers[d])
    {
      if d < |s.debouncers| {
        assert OneTimer(s.debouncers[d]) && DebouncerOk(s.debouncers[d], s.timers);
      }
    }
  }

  /** As long as no callback comes late, every debouncer has at most one timer, that of its newest
      call: a stream of calls that come before their timers go off executes nothing. */
  lemma {:induction false} OneTimerOverRun(s: State, steps: seq<Step>)
    requires Inv(s) && OneTimerEach(s) && Legal(s, steps) && NoneLate(s, steps)
    ensures OneTimerEach(After(s, steps))
    decreases |steps|
  {
    hide Inv, Apply, Enabled, OneTimerEach;
    if steps != [] {
      StepKeepsOneTimer(s, steps[0]) by {
        TakeIsLegal(s, steps);
      }
      StepKeepsInv(s, steps[0]);
      OneTimerOverRun(Apply(s, steps[0]), steps[1..]);
    }
  }

  lemma TakeIsLegal(s: State, steps: seq<Step>)
    requires steps != [] && Legal(s, steps) && NoneLate(s, steps)
    ensures steps[0].Take? ==> steps[0].d < |s.debouncers| && s.debouncers[steps[0].d].timer == Some(steps[0].timer)
  {
  }

  lemma ReachedHasOneTimer(s: State, steps: seq<Step>)
    requires Reached(s, steps) && NoneLate(START, steps)
    ensures OneTimerEach(s)
  {
    assert Inv(START) && OneTimerEach(START);
    hide Inv, OneTimerEach;
    OneTimerOverRun(START, steps);
  }

  // ---- keys ----

  /** Calls with the same key share a debouncer; one is made for the first of them. */
  lemma CallFindsDebouncer(s: State, key: string)
    ensures var next, c := Apply(s, Lookup(key)), s.calls;
            && key in next.table && c in next.waiting && next.waiting[c] == next.table[key] && next.calls == c + 1
            && if key in s.table then next.table == s.table && next.debouncers == s.debouncers
               else next.table == s.table[key := |s.debouncers|] && next.debouncers == s.debouncers + [NEW_DEBOUNCER]
    ensures NEW_DEBOUNCER.arrived == [] && NEW_DEBOUNCER.armed == {} && NEW_DEBOUNCER.pending == None
  {
  }

  /** Renaming takes the debouncer to the new key, removing drops the key; nothing else changes. */
  lemma KeysMove(s: State, from: string, to: string)
    requires from in s.table && from != to
    ensures var next := Apply(s, Rename(from, to));
            && to in next.table && next.table[to] == s.table[from] && from !in next.table
            && (forall key | key != from && key != to :: key in next.table <==> key in s.table)
            && (forall key | key != to && key in next.table :: next.table[key] == s.table[key])
            && next == s.(table := next.table)
    ensures Apply(s, Unlink(from)) == s.(table := s.table - {from})
  {
  }

  /** The callback is the closure of the call that armed its timer, which executes the message with
      the captures and the handler of that call. That is the call of the message exactly if the
      timer is the one in the timer field. */
  lemma CallbackIsOfItsCall(s: State, steps: seq<Step>, d: nat, t: nat)
    requires Reached(s, steps) && Enabled(s, Take(d, t)) && s.debouncers[d].pending.Some?
    ensures t in s.debouncers[d].armedBy
    ensures s.debouncers[d].armedBy[t] == s.debouncers[d].pending.value <==> s.debouncers[d].timer == Some(t)
  {
    ReachedIsOk(s, steps);
    hide Reached, ArrivalsOk, TablesOk, ExecutionsOk;
    assert DebouncerOk(s.debouncers[d], s.timers);
  }

  /** While a message is pending and its handler was not removed, a timer is armed or has gone off,
      and this timer going on will execute the message. */
  lemma PendingWillBeTaken(s: State, steps: seq<Step>, d: nat) returns (t: nat, rest: seq<Step>)
    requires Reached(s, steps) && d < |s.debouncers|
    requires s.debouncers[d].pending.Some? && !s.debouncers[d].stopped
    ensures (t in s.debouncers[d].armed || t in s.debouncers[d].fired) && |s.debouncers[d].arrived| > 0
    ensures rest == (if t in s.debouncers[d].fired then [Take(d, t)] else [Fire(d, t), Take(d, t)])
    ensures Legal(s, rest)
    ensures After(s, rest).executed == s.executed + [Execution(d, |s.debouncers[d].arrived| - 1)]
  {
    ReachedIsOk(s, steps);
    hide Reached, ArrivalsOk, TablesOk, ExecutionsOk;
    assert DebouncerOk(s.debouncers[d], s.timers);
    t := s.debouncers[d].timer.value;
    if t in s.debouncers[d].fired {
      OneStep(s, Take(d, t), []);
      rest := [Take(d, t)] + [];
    } else {
      OneStep(Apply(s, Fire(d, t)), Take(d, t), []);
      OneStep(s, Fire(d, t), [Take(d, t)] + []);
      rest := [Fire(d, t)] + ([Take(d, t)] + []);
    }
  }

  /** Once a debouncer has no timer left and its handler was not removed, its newest message has
      been executed. */
  lemma NewestIsNeverLost(s: State, steps: seq<Step>, d: nat)
    requires Reached(s, steps) && d < |s.debouncers| && s.debouncers[d].arrived != []
    requires s.debouncers[d].armed == s.debouncers[d].fired == {} && !s.debouncers[d].stopped
    ensures Execution(d, |s.debouncers[d].arrived| - 1) in s.executed
  {
    ReachedIsOk(s, steps);
    hide Reached, ArrivalsOk, TablesOk;
    assert DebouncerOk(s.debouncers[d], s.timers);
    assert NewestKept(s, d);
  }

  // ---- when a removal is final ----

  /** No name leads to the debouncer any more. */
  ghost predicate Unlinked(s: State, d: nat) {
    d < |s.debouncers| && forall name | name in s.table :: s.table[name] != d
  }

  /** No call is between its two locked sections, and no message is pending or no timer left. */
  ghost predicate Settled(s: State, d: nat)
    requires d < |s.debouncers|
  {
    && (forall c | c in s.waiting :: s.waiting[c] != d)
    && (s.debouncers[d].pending.None? || s.debouncers[d].armed == s.debouncers[d].fired == {})
  }

  /** Everything that the debouncer has executed then, it has executed now. */
  ghost predicate ExecutesNothing(now: State, later: State, d: nat) {
    forall x | x in later.executed && x.debouncer == d :: x in now.executed
  }

  lemma StepKeepsSettled(s: State, step: Step, d: nat)
    requires Unlinked(s, d) && Settled(s, d) && Enabled(s, step)
    ensures Unlinked(Apply(s, step), d) && Settled(Apply(s, step), d) && ExecutesNothing(s, Apply(s, step), d)
  {
  }

  lemma {:induction false} StaysSettled(s: State, rest: seq<Step>, d: nat)
    requires Unlinked(s, d) && Settled(s, d) && Legal(s, rest)
    ensures ExecutesNothing(s, After(s, rest), d)
    decreases |rest|
  {
    hide Unlinked, Settled, Apply, Enabled;
    if rest != [] {
      StepKeepsSettled(s, rest[0], d);
      StaysSettled(Apply(s, rest[0]), rest[1..], d);
    }
  }

  /** A debouncer that is not settled can execute a further message. */
  lemma LateExecution(s: State, steps: seq<Step>, d: nat) returns (rest: seq<Step>)
    requires Reached(s, steps) && d < |s.debouncers| && !Settled(s, d)
    ensures Legal(s, rest) && !ExecutesNothing(s, After(s, rest), d)
  {
    ReachedIsOk(s, steps);
    hide Reached, ArrivalsOk, TablesOk, InOrder, NewestKept, DebouncerOk;
    var b := s.debouncers[d];
    assert forall k | 0 <= k < |s.executed| :: Arrived(s, s.executed[k]);
    if c :| c in s.waiting && s.waiting[c] == d {
      rest := ArmFireTake(s, c);
      assert Execution(d, |b.arrived|) !in s.executed;
      assert Execution(d, |b.arrived|) in After(s, rest).executed;
    } else {
      assert Execution(d, b.pending.value) !in s.executed;
      if t :| t in b.fired {
        rest := [Take(d, t)] + [];
        OneStep(s, Take(d, t), []);
      } else {
        var t :| t in b.armed;
        rest := FireTake(s, d, t);
      }
      assert Execution(d, b.pending.value) in After(s, rest).executed;
    }
  }

  lemma FireTake(s: State, d: nat, t: nat) returns (rest: seq<Step>)
    requires d < |s.debouncers| && t in s.debouncers[d].armed && s.debouncers[d].pending.Some?
    ensures Legal(s, rest)
    ensures After(s, rest).executed == s.executed + [Execution(d, s.debouncers[d].pending.value)]
  {
    OneStep(Apply(s, Fire(d, t)), Take(d, t), []);
    OneStep(s, Fire(d, t), [Take(d, t)] + []);
    rest := [Fire(d, t)] + ([Take(d, t)] + []);
  }

  lemma ArmFireTake(s: State, c: Call) returns (rest: seq<Step>)
    requires c in s.waiting && s.waiting[c] < |s.debouncers|
    ensures Legal(s, rest)
    ensures var d := s.waiting[c];
            After(s, rest).executed == s.executed + [Execution(d, |s.debouncers[d].arrived|)]
  {
    rest := FireTake(Apply(s, Arm(c)), s.waiting[c], s.timers);
    OneStep(s, Arm(c), rest);
    rest := [Arm(c)] + rest;
  }

  /** When the debouncer of a removed handler executes nothing any more, whatever happens then. */
  lemma RemovalIsFinalIffSettled(s: State, steps: seq<Step>, d: nat)
    requires Reached(s, steps) && Unlinked(s, d)
    ensures (forall rest | Legal(s, rest) :: ExecutesNothing(s, After(s, rest), d)) <==> Settled(s, d)
  {
    if Settled(s, d) {
      forall rest | Legal(s, rest)
        ensures ExecutesNothing(s, After(s, rest), d)
      {
        StaysSettled(s, rest, d);
      }
    } else {
      var rest := LateExecution(s, steps, d);
    }
  }

  /** Deleting a handler with nothing on the way but the timer in the timer field is final. */
  lemma QuietRemovalIsFinal(s: State, steps: seq<Step>, name: string)
    requires Reached(s, steps) && name in s.table && s.table[name] < |s.debouncers|
    requires OneTimer(s.debouncers[s.table[name]]) && s.debouncers[s.table[name]].fired == {}
    requires forall c | c in s.waiting :: s.waiting[c] != s.table[name]
    ensures Legal(s, Removal(s, name)) && Unlinked(After(s, Removal(s, name)), s.table[name])
    ensures Settled(After(s, Removal(s, name)), s.table[name])
  {
    ReachedIsOk(s, steps);
    hide Reached, ArrivalsOk, ExecutionsOk, DebouncerOk;
    var d := s.table[name];
    var stopped := Apply(s, StopTimer(d));
    assert stopped.debouncers[d].armed == {};
    assert Unlinked(Apply(stopped, Unlink(name)), d) && Settled(Apply(stopped, Unlink(name)), d);
    hide Apply, Enabled, TablesOk, Unlinked, Settled;
    OneStep(stopped, Unlink(name), []);
    assert [Unlink(name)] + [] == [Unlink(name)];
    OneStep(s, StopTimer(d), [Unlink(name)]);
  }

  /** A callback waits for the lock while the timer is stopped and the debouncer dropped. */
  lemma CallbackComesTooLate()
    ensures var steps := [Lookup("h"), Arm(0), Fire(0, 0), StopTimer(0), Unlink("h"), Take(0, 0)];
            && Legal(START, steps)
            && After(START, steps).table == map[] && After(START, steps).executed == [Execution(0, 0)]
  {
    var s1 := Apply(START, Lookup("h"));
    var s2 := Apply(s1, Arm(0));
    var s3 := Apply(s2, Fire(0, 0));
    var s4 := Apply(s3, StopTimer(0));
    var s5 := Apply(s4, Unlink("h"));
    var s6 := Apply(s5, Take(0, 0));
    assert s6.executed == [Execution(0, 0)] && s6.table == map[];
    hide Apply, Enabled;
    OneStep(s5, Take(0, 0), []);
    OneStep(s4, Unlink("h"), [Take(0, 0)]);
    OneStep(s3, StopTimer(0), [Unlink("h"), Take(0, 0)]);
    OneStep(s2, Fire(0, 0), [StopTimer(0), Unlink("h"), Take(0, 0)]);
    OneStep(s1, Arm(0), [Fire(0, 0), StopTimer(0), Unlink("h"), Take(0, 0)]);
    OneStep(START, Lookup("h"), [Arm(0), Fire(0, 0), StopTimer(0), Unlink("h"), Take(0, 0)]);
  }

  /** A call has found the debouncer and waits for its lock meanwhile. */
  lemma CallComesTooLate()
    ensures var steps := [Lookup("h"), StopTimer(0), Unlink("h"), Arm(0), Fire(0, 0), Take(0, 0)];
            && Legal(START, steps)
            && After(START, steps).table == map[] && After(START, steps).executed == [Execution(0, 0)]
  {
    var s1 := Apply(START, Lookup("h"));
    var s2 := Apply(s1, StopTimer(0));
    var s3 := Apply(s2, Unlink("h"));
    var s4 := Apply(s3, Arm(0));
    var s5 := Apply(s4, Fire(0, 0));
    var s6 := Apply(s5, Take(0, 0));
    assert s6.executed == [Execution(0, 0)] && s6.table == map[];
    hide Apply, Enabled;
    OneStep(s5, Take(0, 0), []);
    OneStep(s4, Fire(0, 0), [Take(0, 0)]);
    OneStep(s3, Arm(0), [Fire(0, 0), Take(0, 0)]);
    OneStep(s2, Unlink("h"), [Arm(0), Fire(0, 0), Take(0, 0)]);
    OneStep(s1, StopTimer(0), [Unlink("h"), Arm(0), Fire(0, 0), Take(0, 0)]);
    OneStep(START, Lookup("h"), [StopTimer(0), Unlink("h"), Arm(0), Fire(0, 0), Take(0, 0)]);
  }

  /** Two messages of a handler; the timer of the first has gone off, that of the second runs. */
  const TWO_MESSAGES :=
    State(map["h" := 0], [Debouncer(Some(1), Some(1), {1}, {0}, [0, 1], map[0 := 0, 1 := 1], false)], map[], 2, 2, [])

  lemma TwoMessages()
    ensures var steps := [Lookup("h"), Arm(0), Fire(0, 0), Lookup("h"), Arm(1)];
            Legal(START, steps) && After(START, steps) == TWO_MESSAGES
  {
    var s1 := Apply(START, Lookup("h"));
    var s2 := Apply(s1, Arm(0));
    var s3 := Apply(s2, Fire(0, 0));
    var s4 := Apply(s3, Lookup("h"));
    assert s3.table == map["h" := 0] && s3.waiting == map[];
    var s5, b := Apply(s4, Arm(1)), TWO_MESSAGES.debouncers[0];
    assert s5.waiting == map[];
    assert s5.debouncers[0].armed == b.armed;
    assert s5.debouncers[0].fired == b.fired;
    assert s5.debouncers[0].arrived == b.arrived;
    assert s5.debouncers[0].armedBy == b.armedBy;
    assert s5.debouncers[0] == b;
    assert s5.debouncers == TWO_MESSAGES.debouncers;
    assert s5.executed == TWO_MESSAGES.executed;
    assert s5.table == TWO_MESSAGES.table;
    assert s5 == TWO_MESSAGES;
    hide Apply, Enabled;
    OneStep(s4, Arm(1), []);
    OneStep(s3, Lookup("h"), [Arm(1)]);
    OneStep(s2, Fire(0, 0), [Lookup("h"), Arm(1)]);
    OneStep(s1, Arm(0), [Fire(0, 0), Lookup("h"), Arm(1)]);
    OneStep(START, Lookup("h"), [Arm(0), Fire(0, 0), Lookup("h"), Arm(1)]);
  }

  /** The second message is executed with the captures of the first. */
  lemma CapturesOfAnother()
    ensures Enabled(TWO_MESSAGES, Take(0, 0))
    ensures Apply(TWO_MESSAGES, Take(0, 0)).executed == [Execution(0, 1)]
    ensures TWO_MESSAGES.debouncers[0].armedBy[0] == 0
  {
  }

  /** The late callback has taken the second message and forgotten its timer, which goes on next to
      that of a third message. */
  const THREE_MESSAGES :=
    State(map["h" := 0], [Debouncer(Some(2), Some(2), {1, 2}, {}, [0, 1, 2], map[0 := 0, 1 := 1, 2 := 2], false)],
          map[], 3, 3, [Execution(0, 1)])

  lemma ThreeMessages()
    ensures var steps := [Take(0, 0), Lookup("h"), Arm(2)];
            Legal(TWO_MESSAGES, steps) && After(TWO_MESSAGES, steps) == THREE_MESSAGES
  {
    var s1 := Apply(TWO_MESSAGES, Take(0, 0));
    var s2 := Apply(s1, Lookup("h"));
    var s3, b := Apply(s2, Arm(2)), THREE_MESSAGES.debouncers[0];
    assert s3.waiting == map[];
    assert s3.debouncers[0].armed == b.armed;
    assert s3.debouncers[0].fired == b.fired;
    assert s3.debouncers[0].arrived == b.arrived;
    assert s3.debouncers[0].armedBy == b.armedBy;
    assert s3.debouncers[0] == b;
    assert s3.debouncers == THREE_MESSAGES.debouncers;
    assert s3.executed == THREE_MESSAGES.executed;
    assert s3.table == THREE_MESSAGES.table;
    assert s3 == THREE_MESSAGES;
    hide Apply, Enabled;
    OneStep(s2, Arm(2), []);
    OneStep(s1, Lookup("h"), [Arm(2)]);
    OneStep(TWO_MESSAGES, Take(0, 0), [Lookup("h"), Arm(2)]);
  }

  lemma StoppedTooLate()
    ensures var steps := [StopTimer(0), Unlink("h"), Fire(0, 1), Take(0, 1)];
            && Legal(THREE_MESSAGES, steps) && After(THREE_MESSAGES, steps).table == map[]
            && After(THREE_MESSAGES, steps).executed == [Execution(0, 1), Execution(0, 2)]
  {
    var s1 := Apply(THREE_MESSAGES, StopTimer(0));
    var s2 := Apply(s1, Unlink("h"));
    var s3 := Apply(s2, Fire(0, 1));
    var s4 := Apply(s3, Take(0, 1));
    assert s4.executed == [Execution(0, 1), Execution(0, 2)] && s4.table == map[];
    hide Apply, Enabled;
    OneStep(s3, Take(0, 1), []);
    OneStep(s2, Fire(0, 1), [Take(0, 1)]);
    OneStep(s1, Unlink("h"), [Fire(0, 1), Take(0, 1)]);
    OneStep(THREE_MESSAGES, StopTimer(0), [Unlink("h"), Fire(0, 1), Take(0, 1)]);
  }

  /** Stopping the timer of the third message leaves the forgotten one, which takes the message
      after the handler is gone. */
  lemma ForgottenTimerComesTooLate()
    ensures var steps := [Lookup("h"), Arm(0), Fire(0, 0), Lookup("h"), Arm(1)] + [Take(0, 0), Lookup("h"), Arm(2)]
                         + [StopTimer(0), Unlink("h"), Fire(0, 1), Take(0, 1)];
            && Legal(START, steps) && After(START, steps).table == map[]
            && After(START, steps).executed == [Execution(0, 1), Execution(0, 2)]
  {
    TwoMessages();
    ThreeMessages();
    StoppedTooLate();
    hide Apply, Enabled;
    var first := [Lookup("h"), Arm(0), Fire(0, 0), Lookup("h"), Arm(1)];
    Steps.Append(Enabled, Apply, START, first, [Take(0, 0), Lookup("h"), Arm(2)]);
    Steps.Append(Enabled, Apply, START, first + [Take(0, 0), Lookup("h"), Arm(2)],
                 [StopTimer(0), Unlink("h"), Fire(0, 1), Take(0, 1)]);
  }

  // ---- the debounce builtin ----

  /** The keys under which the debounce builtin keeps its debouncers. */
  function ClientKey(name: string, conn: string): string {
    "debounce:client:" + name + ":" + conn
  }

  function GlobalKey(name: string): string {
    "debounce:global:" + name
  }

  /** What Update and Delete of a name do. */
  function Removal(s: State, name: string): seq<Step> {
    if name in s.table then [StopTimer(s.table[name])] + [Unlink(name)] else []
  }

  lemma RemovalSparesKey(s: State, steps: seq<Step>, name: string, key: string)
    requires Reached(s, steps) && key in s.table && key != name
    ensures Legal(s, Removal(s, name)) && Reached(After(s, Removal(s, name)), steps + Removal(s, name))
    ensures var next := After(s, Removal(s, name));
            && key in next.table && next.table[key] == s.table[key] < |next.debouncers| == |s.debouncers|
            && next.debouncers[s.table[key]] == s.debouncers[s.table[key]]
  {
    ReachedIsOk(s, steps);
    hide DebouncerOk, ArrivalsOk, ExecutionsOk;
    if name in s.table {
      var stopped := Apply(s, StopTimer(s.table[name]));
      OneStep(stopped, Unlink(name), []);
      assert [Unlink(name)] + [] == [Unlink(name)];
      OneStep(s, StopTimer(s.table[name]), [Unlink(name)]);
    }
    hide Apply, Enabled, TablesOk;
    Steps.Append(Enabled, Apply, START, steps, Removal(s, name));
  }

  /** Updating or deleting a handler leaves the debouncers of its debounce builtin linked and armed,
      for it looks only at the bare name: a message that is pending there is executed after all. */
  lemma BuiltinOutlivesHandler(s: State, steps: seq<Step>, name: string, key: string) returns (t: nat, rest: seq<Step>)
    requires Reached(s, steps) && key in s.table && s.table[key] < |s.debouncers|
    requires key == GlobalKey(name) || exists conn :: key == ClientKey(name, conn)
    requires s.debouncers[s.table[key]].pending.Some? && !s.debouncers[s.table[key]].stopped
    ensures var next, d := After(s, Removal(s, name)), s.table[key];
            && key in next.table && next.table[key] == d < |next.debouncers|
            && (t in next.debouncers[d].armed || t in next.debouncers[d].fired)
            && |next.debouncers[d].arrived| > 0 && Legal(next, rest)
            && After(next, rest).executed == next.executed + [Execution(d, |next.debouncers[d].arrived| - 1)]
  {
    assert key != name;
    RemovalSparesKey(s, steps, name, key);
    t, rest := PendingWillBeTaken(After(s, Removal(s, name)), steps + Removal(s, name), s.table[key]);
  }

  lemma OneStep(s: State, step: Step, rest: seq<Step>)
    requires Enabled(s, step) && Legal(Apply(s, step), rest)
    ensures Legal(s, [step] + rest) && After(s, [step] + rest) == After(Apply(s, step), rest)
  {
    Steps.OneStep(Enabled, Apply, s, step, rest);
  }
}
