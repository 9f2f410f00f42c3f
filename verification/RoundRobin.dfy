/** The round-robin builtin (RoundRobinBuiltin.Execute in internal/handler/builtins_impl.go) over
    the indices that the registry keeps. */
module RoundRobin {
  import opened Matchers
  import opened Registry
  import opened Remainders
  import opened Wrappers

  /** The first position from lo up to hi that can be served. */
  function FirstLive(lo: nat, hi: nat, live: nat -> bool): (r: Option<nat>)
    ensures r.Some? ==> lo <= r.value < hi && live(r.value) && forall p | lo <= p < r.value :: !live(p)
    ensures r.None? ==> forall p | lo <= p < hi :: !live(p)
    decreases hi - lo
  {
    if lo >= hi then None else if live(lo) then Some(lo) else FirstLive(lo + 1, hi, live)
  }

  /** The first live position at or after idx, going on from the start of the pool. */
  function NextLive(n: nat, idx: nat, live: nat -> bool): (r: Option<nat>)
    requires idx < n
    ensures r.Some? ==> r.value < n && live(r.value)
    ensures r.Some? ==>
              if idx <= r.value then forall p | idx <= p < r.value :: !live(p)
              else (forall p | idx <= p < n :: !live(p)) && forall p | 0 <= p < r.value :: !live(p)
    ensures r.None? <==> forall p | 0 <= p < n :: !live(p)
  {
    var later := FirstLive(idx, n, live);
    if later.Some? then later else FirstLive(0, idx, live)
  }

  function Following(p: nat, n: nat): nat
    requires p < n
  {
    (p + 1) % n
  }

  /** A position can be served if its client is connected and sending to it succeeds. */
  function Live(pool: seq<string>, connected: set<string>, sends: nat -> bool): nat -> bool {
    (p: nat) => p < |pool| && pool[p] in connected && sends(p)
  }

  /** None of the first i positions from idx on, going around, can be served. */
  ghost predicate Skipped(n: nat, idx: nat, live: nat -> bool, i: nat) {
    && (forall p | idx <= p < n && p < idx + i :: !live(p))
    && (forall p | 0 <= p < idx + i - n && p < n :: !live(p))
  }

  lemma SkipOne(n: nat, idx: nat, live: nat -> bool, i: nat)
    requires idx < n && i < n && Skipped(n, idx, live, i)
    ensures var p := (idx + i) % n;
            if live(p) then NextLive(n, idx, live) == Some(p) else Skipped(n, idx, live, i + 1)
  {
    RemainderAroundOnce(idx + i, n);
  }

  lemma SkippedAll(n: nat, idx: nat, live: nat -> bool)
    requires idx < n && Skipped(n, idx, live, n)
    ensures NextLive(n, idx, live) == None
  {
  }

  lemma NobodyIsServed(pool: seq<string>, connected: set<string>, sends: nat -> bool, idx: nat)
    requires idx < |pool| && NextLive(|pool|, idx, Live(pool, connected, sends)) == None
    ensures forall p: nat | p < |pool| && pool[p] in connected :: !sends(p)
  {
    var live := Live(pool, connected, sends);
    forall p: nat | p < |pool| && pool[p] in connected
      ensures !sends(p)
    {
      assert !live(p);
    }
  }

  /** What the delivery of one message does to the tables, and where it goes. */
  function Deliver(t: Tables, key: string, n: nat, live: nat -> bool): (r: (Tables, Option<nat>))
    requires n > 0
    ensures r.1.Some? ==> r.1.value < n
  {
    var to := NextLive(n, RoundRobinIndex(t, key, n), live);
    (if to.None? then t else t.(roundRobinIndices := t.roundRobinIndices[key := Following(to.value, n)]), to)
  }

  /** The position that the message is delivered to, or None when the pool is empty or nobody in it
      can be served. Only a delivery moves the index. */
  method Execute(registry: Registry, handlerName: string, poolText: string, pool: seq<string>,
                 connected: set<string>, sends: nat -> bool) returns (delivered: Option<nat>)
    modifies registry`roundRobinIndices
    ensures (registry.Tabs(), delivered)
         == if pool == [] then (old(registry.Tabs()), None)
            else Deliver(old(registry.Tabs()), RoundRobinKey(handlerName, poolText), |pool|,
                         Live(pool, connected, sends))
    ensures delivered.Some? ==>
              delivered.value < |pool| && pool[delivered.value] in connected && sends(delivered.value)
    ensures delivered.None? ==> forall p: nat | p < |pool| && pool[p] in connected :: !sends(p)
  {
    if |pool| == 0 {
      return None;
    }
    var key := RoundRobinKey(handlerName, poolText);
    var idx := registry.GetRoundRobinIndex(key, |pool|);
    hide RoundRobinIndex, RoundRobinKey, NextLive;
    ghost var live := Live(pool, connected, sends);
    var n := |pool|;
    var i := 0;
    assert Skipped(n, idx, live, 0);
    hide Skipped;
    while i < n
      invariant 0 <= i <= n
      invariant Skipped(n, idx, live, i)
      invariant registry.roundRobinIndices == old(registry.roundRobinIndices)
    {
      SkipOne(n, idx, live, i);
      var tryIdx := (idx + i) % n;
      var clientID := pool[tryIdx];
      if clientID in connected {
        if sends(tryIdx) {
          registry.SetRoundRobinIndex(key, (tryIdx + 1) % n);
          return Some(tryIdx);
        }
      }
      i := i + 1;
    }
    SkippedAll(n, idx, live);
    NobodyIsServed(pool, connected, sends, idx);
    return None;
  }

  /** A delivery stores the next position, going around, under its key and changes nothing else. */
  lemma DeliveryMovesOn(t: Tables, key: string, n: nat, live: nat -> bool)
    requires n > 0
    ensures var (next, to) := Deliver(t, key, n, live);
            if to == None then next == t
            else
              && key in next.roundRobinIndices
              && next.roundRobinIndices[key] == (if to.value + 1 < n then to.value + 1 else 0)
              && next == t.(roundRobinIndices := t.roundRobinIndices[key := next.roundRobinIndices[key]])
  {
    hide NextLive, RoundRobinIndex;
    if Deliver(t, key, n, live).1.Some? {
      FollowingCases(Deliver(t, key, n, live).1.value, n);
    }
  }

  // ---- many messages ----

  /** The positions served by m messages in a row, starting with the stored index idx, while the
      same positions can be served. */
  function Served(n: nat, idx: nat, live: nat -> bool, m: nat): seq<nat>
    requires idx < n
    decreases m
  {
    if m == 0 || NextLive(n, idx, live).None? then []
    else
      var p := NextLive(n, idx, live).value;
      [p] + Served(n, Following(p, n), live, m - 1)
  }

  function Count(served: seq<nat>, p: nat): nat {
    if served == [] then 0 else (if served[0] == p then 1 else 0) + Count(served[1..], p)
  }

  function Before(p: nat, bound: nat): nat {
    if p < bound then 1 else 0
  }

  lemma FollowingCases(p: nat, n: nat)
    requires p < n
    ensures Following(p, n) == if p + 1 < n then p + 1 else 0
  {
    if n == 1 {
    } else {
      RemainderAroundOnce(p + 1, n);
    }
  }

  /** After any number of messages the counts of all live positions are those of some number of
      full rounds and a part of a round: they depend only on which side of two bounds they lie. */
  lemma {:induction false} CountsAreRounds(n: nat, idx: nat, live: nat -> bool, m: nat)
    returns (rounds: int, bound: nat)
    requires idx < n
    ensures var served := Served(n, idx, live, m);
            && (forall p | 0 <= p < n && live(p) :: Count(served, p) + Before(p, idx) == rounds + Before(p, bound))
            && (forall p | p in served :: p < n && live(p))
    decreases m
  {
    if m == 0 || NextLive(n, idx, live).None? {
      return 0, idx;
    }
    var p0 := NextLive(n, idx, live).value;
    var next := Following(p0, n);
    FollowingCases(p0, n);
    var rest := Served(n, next, live, m - 1);
    rounds, bound := CountsAreRounds(n, next, live, m - 1);
    assert Served(n, idx, live, m) == [p0] + rest && ([p0] + rest)[1..] == rest;
    assert forall p: nat :: Count([p0] + rest, p) == (if p0 == p then 1 else 0) + Count(rest, p);
    var wraps := if idx <= p0 && p0 + 1 < n then 0 else 1;
    BoundMoves(n, idx, live, p0);
    hide Served, Count, NextLive, FirstLive, Following;
    rounds := rounds + wraps;
  }

  /** Serving p0 moves the bound past it; going past the end of the pool completes a round. */
  lemma BoundMoves(n: nat, idx: nat, live: nat -> bool, p0: nat)
    requires idx < n && NextLive(n, idx, live) == Some(p0)
    ensures var wraps := if idx <= p0 && p0 + 1 < n then 0 else 1;
            forall p | 0 <= p < n && live(p) ::
              wraps + Before(p, Following(p0, n)) == Before(p, idx) + if p == p0 then 1 else 0
  {
    FollowingCases(p0, n);
    hide Following;
  }

  /** The positions that m messages in a row are delivered to, according to the tables. */
  function Deliveries(t: Tables, key: string, n: nat, live: nat -> bool, m: nat): seq<nat>
    requires n > 0
    decreases m
  {
    if m == 0 then []
    else
      var (next, to) := Deliver(t, key, n, live);
      (if to.Some? then [to.value] else []) + Deliveries(next, key, n, live, m - 1)
  }

  lemma {:induction false} NobodyToServe(t: Tables, key: string, n: nat, live: nat -> bool, m: nat)
    requires n > 0 && NextLive(n, RoundRobinIndex(t, key, n), live).None?
    ensures Deliveries(t, key, n, live, m) == []
    decreases m
  {
    if m > 0 {
      NobodyToServe(t, key, n, live, m - 1);
    }
  }

  lemma StoredIndex(t: Tables, key: string, n: nat, p: nat)
    requires p < n
    ensures RoundRobinIndex(t.(roundRobinIndices := t.roundRobinIndices[key := Following(p, n)]), key, n)
         == Following(p, n)
  {
    SmallRemainder(Following(p, n), n);
  }

  /** The index stored after a delivery is where the next one starts. */
  lemma {:induction false} DeliveriesAreServed(t: Tables, key: string, n: nat, live: nat -> bool, m: nat)
    requires n > 0
    ensures Deliveries(t, key, n, live, m) == Served(n, RoundRobinIndex(t, key, n), live, m)
    decreases m
  {
    hide NextLive, RoundRobinIndex, Following;
    if m > 0 {
      var (next, to) := Deliver(t, key, n, live);
      if to.Some? {
        StoredIndex(t, key, n, to.value);
        DeliveriesAreServed(next, key, n, live, m - 1);
      } else {
        NobodyToServe(t, key, n, live, m);
      }
    }
  }

  ghost predicate Fair(n: nat, live: nat -> bool, m: nat, served: seq<nat>) {
    && (forall p, q | 0 <= p < n && 0 <= q < n && live(p) && live(q) :: Count(served, p) <= Count(served, q) + 1)
    && (forall p | p in served :: p < n && live(p))
    && ((exists p :: 0 <= p < n && live(p)) ==> |served| == m)
  }

  lemma ServedIsFair(n: nat, idx: nat, live: nat -> bool, m: nat)
    requires idx < n
    ensures Fair(n, live, m, Served(n, idx, live, m))
  {
    var rounds, bound := CountsAreRounds(n, idx, live, m);
    if p :| 0 <= p < n && live(p) {
      EveryMessageIsServed(n, idx, live, m);
    }
  }

  /** Round-robin is fair: over any number of messages no live position is served more than once
      more often than another, others are never served, and no message is lost while somebody can
      be served. */
  lemma RoundRobinIsFair(t: Tables, key: string, n: nat, live: nat -> bool, m: nat)
    requires n > 0
    ensures Fair(n, live, m, Deliveries(t, key, n, live, m))
  {
    hide Fair, Deliveries, Served;
    DeliveriesAreServed(t, key, n, live, m);
    ServedIsFair(n, RoundRobinIndex(t, key, n), live, m);
  }

  lemma {:induction false} EveryMessageIsServed(n: nat, idx: nat, live: nat -> bool, m: nat)
    requires idx < n && exists p :: 0 <= p < n && live(p)
    ensures |Served(n, idx, live, m)| == m
    decreases m
  {
    if m > 0 {
      assert NextLive(n, idx, live).Some?;
      var p := NextLive(n, idx, live).value;
      FollowingCases(p, n);
      EveryMessageIsServed(n, Following(p, n), live, m - 1);
    }
  }
}
