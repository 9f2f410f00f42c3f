/** Runs of a step relation, given by the condition and the effect of a step. */
module Steps {

  ghost predicate Legal<S(!new), T(!new)>(enabled: (S, T) -> bool, apply: (S, T) -> S, s: S, steps: seq<T>)
    decreases |steps|
  {
    steps == [] || (enabled(s, steps[0]) && Legal(enabled, apply, apply(s, steps[0]), steps[1..]))
  }

  function After<S(!new), T(!new)>(apply: (S, T) -> S, s: S, steps: seq<T>): S
    decreases |steps|
  {
    if steps == [] then s else After(apply, apply(s, steps[0]), steps[1..])
  }

  lemma OneStep<S(!new), T(!new)>(enabled: (S, T) -> bool, apply: (S, T) -> S, s: S, step: T, rest: seq<T>)
    requires enabled(s, step) && Legal(enabled, apply, apply(s, step), rest)
    ensures Legal(enabled, apply, s, [step] + rest)
    ensures After(apply, s, [step] + rest) == After(apply, apply(s, step), rest)
  {
    assert ([step] + rest)[1..] == rest;
  }

  lemma {:induction false} Append<S(!new), T(!new)>(enabled: (S, T) -> bool, apply: (S, T) -> S, s: S,
                                                   first: seq<T>, rest: seq<T>)
    requires Legal(enabled, apply, s, first) && Legal(enabled, apply, After(apply, s, first), rest)
    ensures Legal(enabled, apply, s, first + rest)
    ensures After(apply, s, first + rest) == After(apply, After(apply, s, first), rest)
    decreases |first|
  {
    if first == [] {
      assert first + rest == rest;
    } else {
      assert (first + rest)[0] == first[0] && (first + rest)[1..] == first[1..] + rest;
      Append(enabled, apply, apply(s, first[0]), first[1..], rest);
    }
  }

  lemma {:induction false} RunKeeps<S(!new), T(!new)>(enabled: (S, T) -> bool, apply: (S, T) -> S, inv: S -> bool,
                                                     s: S, steps: seq<T>)
    requires inv(s) && Legal(enabled, apply, s, steps)
    requires forall s, t | inv(s) && enabled(s, t) :: inv(apply(s, t))
    ensures inv(After(apply, s, steps))
    decreases |steps|
  {
    if steps != [] {
      RunKeeps(enabled, apply, inv, apply(s, steps[0]), steps[1..]);
    }
  }
}
