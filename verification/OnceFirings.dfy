/** How often a handler with the once builtin fires. Messages are matched by the goroutine that
    receives them and executed by a goroutine of their own (handleMessage in
    internal/handler/dispatcher.go), so a message can be matched before the handler is disabled and
    executed after. */
module OnceFirings {
  import opened Builtins
  import opened Matchers
  import opened Registry
  import opened RegistryRuns
  import Steps

  /** What does not change: the oracles of the matchers and the validation of handlers. */
  datatype Env = Env(oracles: Oracles, accepts: Handler -> bool)

  datatype Progress = Progress(
    env: Env,
    registry: State,
    name: string,   // the present name of the handler
    waiting: nat,   // messages matched for the handler and not yet executed by it
    fired: nat)

  datatype Step =
    | Receive(msg: Message)
    | Execute   // a matched message gets to the handler
    | PassOver  // or never does: an earlier handler drops it, the limiter refuses it, ...
    | Other(op: Op)

  /** The handler is not enabled, deleted or replaced. */
  ghost predicate Enabled(s: Progress, step: Step) {
    match step
    case Receive(_) => true
    case Execute => s.waiting > 0
    case PassOver => s.waiting > 0
    case Other(op) => FreshBatch(s.registry, op) && !Frees(op, s.name)
  }

  predicate Matched(s: Progress, msg: Message) {
    var found := MatchFrom(s.registry, s.env.oracles, msg, 0);
    found.Results? && exists r | r in found.results :: r.handler.name == s.name
  }

  /** The statistics, which Match changes too, are among the other operations. */
  ghost function Apply(s: Progress, step: Step): Progress {
    if !Enabled(s, step) then s
    else
      match step
      case Receive(msg) => if Matched(s, msg) then s.(waiting := s.waiting + 1) else s
      case Execute =>
        var (next, result) := Once(s.registry, s.name);
        s.(registry := next, waiting := s.waiting - 1, fired := s.fired + if result == Fired then 1 else 0)
      case PassOver => s.(waiting := s.waiting - 1)
      case Other(op) =>
        s.(registry := RegistryRuns.Step(s.registry, s.env.accepts, op),
           name := NameAfterStep(s.registry, s.env.accepts, op, s.name))
  }

  ghost predicate Legal(s: Progress, steps: seq<Step>) {
    Steps.Legal(Enabled, Apply, s, steps)
  }

  ghost function After(s: Progress, steps: seq<Step>): Progress {
    Steps.After(Apply, s, steps)
  }

  /** The handler is disabled, and at most n messages have fired it or still can. */
  ghost predicate Bounded(s: Progress, n: nat) {
    Valid(s.registry) && IsDisabled(s.registry.tables, s.name) && s.fired + s.waiting <= n
  }

  lemma StepKeepsBound(s: Progress, step: Step, n: nat)
    requires Bounded(s, n) && Enabled(s, step)
    ensures Bounded(Apply(s, step), n)
  {
    hide Valid, IsDisabled, Named, MatchFrom, FreshBatch, Frees, RegistryRuns.Step, NameAfterStep;
    match step
    case Receive(msg) =>
      DisabledIsNotMatched(s, msg);
    case Execute =>
      OnceKeepsDisabled(s.registry, s.name);
    case PassOver =>
    case Other(op) =>
      StepKeepsValid(s.registry, s.env.accepts, op);
      StepKeepsDisabled(s.registry, s.env.accepts, op, s.name);
  }

  lemma DisabledIsNotMatched(s: Progress, msg: Message)
    requires IsDisabled(s.registry.tables, s.name)
    ensures !Matched(s, msg)
  {
    MatchSkipsDisabled(s.registry, s.env.oracles, msg, 0);
    hide MatchFrom, IsDisabled;
  }

  lemma OnceKeepsDisabled(s: State, name: string)
    requires Valid(s)
    ensures Valid(Once(s, name).0)
    ensures IsDisabled(s.tables, name) || (name != "" && Named(s.handlers, name)) ==>
              IsDisabled(Once(s, name).0.tables, name)
  {
  }

  /** However a run goes on while the handler is disabled, it fires at most once for every message
      that was already matched. */
  lemma FiringsAreBounded(s: Progress, rest: seq<Step>)
    requires Valid(s.registry) && IsDisabled(s.registry.tables, s.name) && Legal(s, rest)
    ensures After(s, rest).fired <= s.fired + s.waiting
  {
    hide Valid, IsDisabled, Enabled, Apply;
    var inv: Progress -> bool := t => Bounded(t, s.fired + s.waiting);
    forall t, step | inv(t) && Enabled(t, step)
      ensures inv(Apply(t, step))
    {
      StepKeepsBound(t, step, s.fired + s.waiting);
    }
    Steps.RunKeeps(Enabled, Apply, inv, s, rest);
  }

  lemma {:induction false} FiredNeverDecreases(s: Progress, rest: seq<Step>)
    requires Legal(s, rest)
    ensures After(s, rest).fired >= s.fired
    decreases |rest|
  {
    if rest != [] {
      assert Apply(s, rest[0]).fired >= s.fired;
      hide Enabled, Apply;
      FiredNeverDecreases(Apply(s, rest[0]), rest[1..]);
    }
  }

  /** A handler fires exactly once, whatever comes, if and only if no second message is matched and
      waiting when it fires first. */
  lemma FiresOnceIffNoneWaits(s: Progress)
    requires Valid(s.registry) && Named(s.registry.handlers, s.name) && s.name != ""
    requires s.waiting > 0 && s.fired == 0
    ensures (forall rest | Legal(Apply(s, Execute), rest) :: After(Apply(s, Execute), rest).fired == 1)
       <==> s.waiting == 1
  {
    var first := Apply(s, Execute);
    OnceKeepsDisabled(s.registry, s.name);
    assert first.fired == 1 && first.waiting == s.waiting - 1;
    if s.waiting == 1 {
      forall rest | Legal(first, rest)
        ensures After(first, rest).fired == 1
      {
        FiringsAreBounded(first, rest);
        FiredNeverDecreases(first, rest);
      }
    } else {
      assert Apply(first, Execute).fired == 2;
      LastStep(first, Execute);
    }
  }

  lemma LastStep(s: Progress, step: Step)
    requires Enabled(s, step)
    ensures Legal(s, [step]) && After(s, [step]) == Apply(s, step)
  {
    Steps.OneStep(Enabled, Apply, s, step, []);
    assert [step] + [] == [step];
  }

  const HANDLER := Handler("h", 0, false, "", "", EMPTY)

  lemma HandlerMatches(o: Oracles, msg: Message)
    ensures MatchFrom(State([HANDLER], NO_TABLES), o, msg, 0).Results?
    ensures MatchFrom(State([HANDLER], NO_TABLES), o, msg, 0).results == [MatchResult(HANDLER, [])]
  {
    var s := State([HANDLER], NO_TABLES);
    assert Eval(o, EMPTY, msg) == Verdict(true, []);
    assert MatchFrom(s, o, msg, 1) == Results([]);
  }

  /** Two messages that are matched before either is executed both fire the handler. */
  lemma TwoMessagesFireTwice(env: Env, msg: Message)
    ensures var start := Progress(env, State([HANDLER], NO_TABLES), "h", 0, 0);
            var steps := [Receive(msg), Receive(msg), Execute, Execute];
            Legal(start, steps) && After(start, steps).fired == 2
  {
    var start := Progress(env, State([HANDLER], NO_TABLES), "h", 0, 0);
    HandlerMatches(env.oracles, msg);
    var s1 := Apply(start, Receive(msg));
    var s2 := Apply(s1, Receive(msg));
    assert MatchResult(HANDLER, []).handler.name == "h";
    assert s1.waiting == 1 && s2.waiting == 2;
    assert Named(s2.registry.handlers, "h");
    var s3 := Apply(s2, Execute);
    var s4 := Apply(s3, Execute);
    assert s3.registry.handlers == s2.registry.handlers && s3.fired == 1;
    assert s4.fired == 2;
    hide Apply;
    assert Enabled(s3, Execute);
    Steps.OneStep(Enabled, Apply, s3, Execute, []);
    Steps.OneStep(Enabled, Apply, s2, Execute, [Execute]);
    Steps.OneStep(Enabled, Apply, s1, Receive(msg), [Execute, Execute]);
    Steps.OneStep(Enabled, Apply, start, Receive(msg), [Receive(msg), Execute, Execute]);
  }
}
