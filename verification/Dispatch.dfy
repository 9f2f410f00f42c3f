/** Which handlers run for a message: Match in the registry and the chain in handleMessage
    (internal/handler/registry.go, internal/handler/dispatcher.go). */
module Dispatch {
  import opened StableSort
  import opened Matchers
  import opened Registry

  // ---- Match ----

  /** The handler is enabled and its matcher matches. */
  function Matching(s: State, o: Oracles, msg: Message): Handler -> bool {
    (h: Handler) =>
      !IsDisabled(s.tables, h.name) && Eval(o, h.matcher, msg).Verdict? && Eval(o, h.matcher, msg).matched
  }

  function CutAfterExclusive(hs: seq<Handler>): seq<Handler> {
    if hs == [] then []
    else if hs[0].exclusive then [hs[0]]
    else [hs[0]] + CutAfterExclusive(hs[1..])
  }

  function HandlersOf(results: seq<MatchResult>): (hs: seq<Handler>)
    ensures |hs| == |results| && forall k | 0 <= k < |hs| :: hs[k] == results[k].handler
  {
    if results == [] then [] else [results[0].handler] + HandlersOf(results[1..])
  }

  /** The matcher of every enabled handler gives a verdict. */
  ghost predicate NoMatcherErrors(s: State, o: Oracles, msg: Message) {
    forall i | 0 <= i < |s.handlers| && !IsDisabled(s.tables, s.handlers[i].name) ::
      Eval(o, s.handlers[i].matcher, msg).Verdict?
  }

  lemma {:induction false} NoErrorsFrom(s: State, o: Oracles, msg: Message, i: nat)
    requires NoMatcherErrors(s, o, msg) && i <= |s.handlers|
    ensures MatchFrom(s, o, msg, i).Results?
    decreases |s.handlers| - i
  {
    hide Eval, IsDisabled;
    if i < |s.handlers| {
      NoErrorsFrom(s, o, msg, i + 1);
    }
  }

  lemma {:induction false} MatchFromIsCut(s: State, o: Oracles, msg: Message, i: nat)
    requires i <= |s.handlers| && MatchFrom(s, o, msg, i).Results?
    ensures var r := MatchFrom(s, o, msg, i).results;
            && HandlersOf(r) == CutAfterExclusive(Select(s.handlers[i..], Matching(s, o, msg)))
            && forall k | 0 <= k < |r| :: Eval(o, r[k].handler.matcher, msg) == Verdict(true, r[k].captures)
    decreases |s.handlers| - i
  {
    hide Eval, IsDisabled;
    var tail := s.handlers[i..];
    if i < |s.handlers| {
      var h := s.handlers[i];
      assert tail[0] == h && tail[1..] == s.handlers[i + 1..];
      if !Matching(s, o, msg)(h) || !h.exclusive {
        MatchFromIsCut(s, o, msg, i + 1);
      }
      var later := Select(tail[1..], Matching(s, o, msg));
      if Matching(s, o, msg)(h) {
        assert Select(tail, Matching(s, o, msg)) == [h] + later && ([h] + later)[1..] == later;
      } else {
        assert Select(tail, Matching(s, o, msg)) == [] + later == later;
      }
    }
  }

  lemma {:induction false} ExclusiveOnlyLast(hs: seq<Handler>)
    ensures var cut := CutAfterExclusive(hs);
            && cut <= hs
            && (forall k | 0 <= k < |cut| - 1 :: !cut[k].exclusive)
            && (cut != hs ==> cut != [] && cut[|cut| - 1].exclusive)
  {
    if hs != [] && !hs[0].exclusive {
      ExclusiveOnlyLast(hs[1..]);
    }
  }

  /** Match returns exactly the enabled matching handlers in list order, cut just after the first
      exclusive one; it fails only if a matcher does. */
  lemma MatchIsEnabledMatchingCut(s: State, o: Oracles, msg: Message)
    ensures NoMatcherErrors(s, o, msg) ==> MatchFrom(s, o, msg, 0).Results?
    ensures MatchFrom(s, o, msg, 0).Results? ==>
              var r := MatchFrom(s, o, msg, 0).results;
              && HandlersOf(r) == CutAfterExclusive(Select(s.handlers, Matching(s, o, msg)))
              && (forall k | 0 <= k < |r| - 1 :: !r[k].handler.exclusive)
              && forall k | 0 <= k < |r| :: Eval(o, r[k].handler.matcher, msg) == Verdict(true, r[k].captures)
  {
    hide MatchFrom, Eval;
    if NoMatcherErrors(s, o, msg) {
      NoErrorsFrom(s, o, msg, 0);
    }
    if MatchFrom(s, o, msg, 0).Results? {
      MatchFromIsCut(s, o, msg, 0);
      assert s.handlers[0..] == s.handlers;
      ExclusiveOnlyLast(Select(s.handlers, Matching(s, o, msg)));
      var r := MatchFrom(s, o, msg, 0).results;
      assert forall k | 0 <= k < |r| :: HandlersOf(r)[k] == r[k].handler;
    }
  }

  // ---- the match counts ----

  function NamesOf(results: seq<MatchResult>): (names: seq<string>)
    ensures |names| == |results|
  {
    if results == [] then [] else [results[0].handler.name] + NamesOf(results[1..])
  }

  lemma {:induction false} HitsAreResults(s: State, o: Oracles, msg: Message, i: nat)
    requires i <= |s.handlers| && MatchFrom(s, o, msg, i).Results?
    ensures Hits(s, o, msg, i) == NamesOf(MatchFrom(s, o, msg, i).results)
    decreases |s.handlers| - i
  {
    hide Eval, IsDisabled;
    if i < |s.handlers| {
      var h := s.handlers[i];
      if !Matching(s, o, msg)(h) || !h.exclusive {
        HitsAreResults(s, o, msg, i + 1);
      }
      if Matching(s, o, msg)(h) {
        var r := MatchFrom(s, o, msg, i).results;
        assert h.exclusive ==> r[1..] == [];
        assert !h.exclusive ==> r[1..] == MatchFrom(s, o, msg, i + 1).results;
      }
    }
  }

  lemma {:induction false} HitsAddUp(stats: map<string, Stats>, names: seq<string>, name: string)
    ensures var before, after := Get(stats, name, NO_STATS), Get(CountHits(stats, names), name, NO_STATS);
            after == before.(matchCount := before.matchCount + multiset(names)[name])
    decreases |names|
  {
    if names != [] {
      HitsAddUp(CountHit(stats, names[0]), names[1..], name);
      assert names == [names[0]] + names[1..];
    }
  }

  /** Match counts every result once for the name of its handler and changes no other statistics. */
  lemma EveryMatchIsCountedOnce(s: State, o: Oracles, msg: Message, name: string)
    requires MatchFrom(s, o, msg, 0).Results?
    ensures var before := Get(s.tables.stats, name, NO_STATS);
            var after := Get(CountHits(s.tables.stats, Hits(s, o, msg, 0)), name, NO_STATS);
            var results := MatchFrom(s, o, msg, 0).results;
            after == before.(matchCount := before.matchCount + multiset(NamesOf(results))[name])
  {
    hide MatchFrom, Hits, CountHits, NamesOf;
    HitsAreResults(s, o, msg, 0);
    HitsAddUp(s.tables.stats, Hits(s, o, msg, 0), name);
  }

  // ---- the chain ----

  datatype Execution = Done | Failed | Dropped

  datatype Event = Limited(handler: Handler) | Debounced(handler: Handler) | Executed(handler: Handler, how: Execution)

  /** How the limiter and the handler of the k-th result behave. */
  datatype Behaviour = Behaviour(refuses: nat -> bool, execute: nat -> Execution)

  function Visit(r: MatchResult, k: nat, b: Behaviour): Event {
    if r.handler.rateLimit != "" && b.refuses(k) then Limited(r.handler)
    else if r.handler.debounce != "" then Debounced(r.handler)
    else Executed(r.handler, b.execute(k))
  }

  predicate Stops(e: Event, exclusiveCheck: bool) {
    e.Executed? && (e.how == Dropped || (exclusiveCheck && e.handler.exclusive))
  }

  /** The chain from the k-th result on, with or without the check for exclusive handlers. */
  function Chain(results: seq<MatchResult>, k: nat, b: Behaviour, exclusiveCheck: bool): seq<Event>
    requires k <= |results|
    decreases |results| - k
  {
    if k == |results| then []
    else
      var e := Visit(results[k], k, b);
      if Stops(e, exclusiveCheck) then [e] else [e] + Chain(results, k + 1, b, exclusiveCheck)
  }

  method RunChain(results: seq<MatchResult>, b: Behaviour) returns (events: seq<Event>)
    ensures events == Chain(results, 0, b, true) && Obeys(events, results, b)
  {
    ChainObeys(results, b);
    hide Obeys;
    events := [];
    var k := 0;
    while k < |results|
      invariant 0 <= k <= |results|
      invariant Chain(results, 0, b, true) == events + Chain(results, k, b, true)
    {
      var h := results[k].handler;
      ghost var later := if k < |results| then Chain(results, k + 1, b, true) else [];
      if h.rateLimit != "" {
        if b.refuses(k) {
          Reassociate(events, Limited(h), later);
          events := events + [Limited(h)];
          k := k + 1;
          continue;
        }
      }
      if h.debounce != "" {
        Reassociate(events, Debounced(h), later);
        events := events + [Debounced(h)];
        k := k + 1;
        continue;
      }
      var how := b.execute(k);
      Reassociate(events, Executed(h, how), later);
      events := events + [Executed(h, how)];
      if how == Dropped {
        return;
      }
      if h.exclusive {
        return;
      }
      k := k + 1;
    }
  }

  lemma Reassociate(a: seq<Event>, e: Event, b: seq<Event>)
    ensures (a + [e]) + b == a + ([e] + b)
  {
  }

  /** The chain visits the results in order, one event each, and ends early only where it has to. */
  lemma {:induction false} ChainShape(results: seq<MatchResult>, k: nat, b: Behaviour, check: bool)
    requires k <= |results|
    ensures var events := Chain(results, k, b, check);
            && |events| <= |results| - k
            && (forall x | 0 <= x < |events| :: events[x] == Visit(results[k + x], k + x, b))
            && (forall x | 0 <= x < |events| - 1 :: !Stops(events[x], check))
            && (|events| < |results| - k ==> events != [] && Stops(events[|events| - 1], check))
    decreases |results| - k
  {
    hide Visit, Stops;
    if k < |results| {
      ChainShape(results, k + 1, b, check);
      var events, rest := Chain(results, k, b, check), Chain(results, k + 1, b, check);
      if !Stops(Visit(results[k], k, b), check) {
        assert events == [Visit(results[k], k, b)] + rest;
        forall x | 0 <= x < |events|
          ensures events[x] == Visit(results[k + x], k + x, b)
        {
          assert x > 0 ==> events[x] == rest[x - 1] == Visit(results[k + 1 + (x - 1)], k + 1 + (x - 1), b);
        }
      }
    }
  }

  /** A handler whose limiter refuses is skipped, one with a debounce setting is debounced, any other
      is executed; a drop or an exclusive handler that was executed ends the chain, and nothing else
      does. */
  ghost predicate Obeys(events: seq<Event>, results: seq<MatchResult>, b: Behaviour) {
    && |events| <= |results|
    && (forall x | 0 <= x < |events| ::
          var h := results[x].handler;
          && (h.rateLimit != "" && b.refuses(x) ==> events[x] == Limited(h))
          && (!(h.rateLimit != "" && b.refuses(x)) && h.debounce != "" ==> events[x] == Debounced(h))
          && (!(h.rateLimit != "" && b.refuses(x)) && h.debounce == "" ==> events[x] == Executed(h, b.execute(x))))
    && (forall x | 0 <= x < |events| - 1 ::
          events[x].Executed? ==> events[x].how != Dropped && !events[x].handler.exclusive)
    && (|events| < |results| ==>
          && events != [] && events[|events| - 1].Executed?
          && (events[|events| - 1].how == Dropped || events[|events| - 1].handler.exclusive))
  }

  lemma ChainObeys(results: seq<MatchResult>, b: Behaviour)
    ensures Obeys(Chain(results, 0, b, true), results, b)
  {
    ChainShape(results, 0, b, true);
    hide Chain;
    var events := Chain(results, 0, b, true);
    assert forall x | 0 <= x < |events| :: events[x] == Visit(results[0 + x], 0 + x, b);
  }

  /** If only the last result can be exclusive, the check in the chain changes nothing. */
  lemma {:induction false} CheckIsRedundant(results: seq<MatchResult>, k: nat, b: Behaviour)
    requires k <= |results| && forall x | 0 <= x < |results| - 1 :: !results[x].handler.exclusive
    ensures Chain(results, k, b, true) == Chain(results, k, b, false)
    decreases |results| - k
  {
    if k < |results| {
      CheckIsRedundant(results, k + 1, b);
    }
  }

  ghost predicate IsDrop(e: Event) {
    e.Executed? && e.how == Dropped
  }

  /** The events visit the handlers in order, one each, and end early only after a drop. */
  ghost predicate Follows(events: seq<Event>, handlers: seq<Handler>) {
    && |events| <= |handlers|
    && (forall x | 0 <= x < |events| :: events[x].handler == handlers[x])
    && (forall x | 0 <= x < |events| - 1 :: !IsDrop(events[x]))
    && (|events| < |handlers| ==> events != [] && IsDrop(events[|events| - 1]))
  }

  lemma ChainFollowsResults(results: seq<MatchResult>, b: Behaviour)
    ensures Follows(Chain(results, 0, b, false), HandlersOf(results))
  {
    hide Chain, HandlersOf, Visit, Stops, IsDrop;
    ChainShape(results, 0, b, false);
    var events, handlers := Chain(results, 0, b, false), HandlersOf(results);
    forall e: Event
      ensures Stops(e, false) == IsDrop(e)
    {
      OnlyDropsStop(e);
    }
    forall x | 0 <= x < |events|
      ensures events[x].handler == handlers[x]
    {
      assert events[x] == Visit(results[0 + x], 0 + x, b);
      VisitsHandler(results[x], x, b);
    }
  }

  lemma OnlyDropsStop(e: Event)
    ensures Stops(e, false) == IsDrop(e)
  {
  }

  lemma VisitsHandler(r: MatchResult, k: nat, b: Behaviour)
    ensures Visit(r, k, b).handler == r.handler
  {
  }

  /** Handling a message runs through the enabled matching handlers up to the first exclusive one,
      in list order, until one drops the message. An exclusive handler keeps the later ones out also
      when it is rate limited or debounced, and the check for it in the chain could be left out. */
  lemma MessageIsHandledByTheCut(s: State, o: Oracles, msg: Message, b: Behaviour)
    requires MatchFrom(s, o, msg, 0).Results?
    ensures var events := Chain(MatchFrom(s, o, msg, 0).results, 0, b, true);
            && events == Chain(MatchFrom(s, o, msg, 0).results, 0, b, false)
            && Follows(events, CutAfterExclusive(Select(s.handlers, Matching(s, o, msg))))
  {
    hide MatchFrom, Matching, Select, CutAfterExclusive, Chain, Follows, HandlersOf;
    MatchIsEnabledMatchingCut(s, o, msg);
    var r := MatchFrom(s, o, msg, 0).results;
    CheckIsRedundant(r, 0, b);
    ChainFollowsResults(r, b);
  }
}
