/** What each operation of the registry does, said without the functions that specify its methods. */
module RegistryCases {
  import opened Dispatch
  import opened Matchers
  import opened Registry
  import opened RegistryRename
  import opened RegistryRuns
  import opened StableSort
  import opened Text

  function OfPriority(p: int): Handler -> bool {
    (h: Handler) => h.priority == p
  }

  /** The list is sorted by descending priority, with the same handlers, those of equal priority in
      their order. */
  ghost predicate SortedByPriority(sorted: seq<Handler>, hs: seq<Handler>) {
    && (forall i, j | 0 <= i < j < |sorted| :: sorted[i].priority >= sorted[j].priority)
    && multiset(sorted) == multiset(hs)
    && (forall p: int :: Select(sorted, OfPriority(p)) == Select(hs, OfPriority(p)))
  }

  ghost predicate InUse(hs: seq<Handler>, name: string) {
    exists h | h in hs :: h.name == name
  }

  lemma NamedIsInUse(hs: seq<Handler>, name: string)
    ensures Named(hs, name) <==> InUse(hs, name)
  {
    if h :| h in hs && h.name == name {
      var i :| 0 <= i < |hs| && hs[i] == h;
      assert hs[i].name == name;
    }
  }

  lemma {:induction false} SameSelection(hs: seq<Handler>, f: Handler -> bool, g: Handler -> bool)
    requires forall h | h in hs :: f(h) == g(h)
    ensures Select(hs, f) == Select(hs, g)
  {
    if hs != [] {
      assert hs[0] in hs && forall h | h in hs[1..] :: h in hs;
      SameSelection(hs[1..], f, g);
    }
  }

  lemma SortsByPriority(hs: seq<Handler>)
    ensures SortedByPriority(ByPriority(hs), hs)
  {
    var sorted := ByPriority(hs);
    SortIsTheStableSort(hs, sorted, Priority());
    SortMembers(hs, Priority());
    forall i, j | 0 <= i < j < |sorted|
      ensures sorted[i].priority >= sorted[j].priority
    {
      assert Priority()(sorted[i]) >= Priority()(sorted[j]);
    }
    hide Sort, SortedDesc, Select;
    forall p: int
      ensures Select(sorted, OfPriority(p)) == Select(hs, OfPriority(p))
    {
      SameSelection(sorted, OfPriority(p), HasKey(Priority(), p));
      SameSelection(hs, OfPriority(p), HasKey(Priority(), p));
    }
  }

  /** Add registers a valid handler with a new name, behind those of its priority. */
  lemma AddRegisters(s: State, accepts: Handler -> bool, h: Handler)
    ensures var (next, out) := AddOne(s, accepts, h);
            if accepts(h) && !InUse(s.handlers, h.name)
            then out == Ok && SortedByPriority(next.handlers, s.handlers + [h]) && next.tables == s.tables
            else next == s && out == if accepts(h) then AlreadyExists else Invalid
  {
    NamedIsInUse(s.handlers, h.name);
    SortsByPriority(s.handlers + [h]);
    hide ByPriority, Named, InUse, SortedByPriority;
  }

  ghost predicate AllAccepted(accepts: Handler -> bool, hs: seq<Handler>) {
    forall h | h in hs :: accepts(h)
  }

  lemma AcceptsEach(accepts: Handler -> bool, hs: seq<Handler>)
    ensures AcceptsAll(accepts, hs) <==> AllAccepted(accepts, hs)
  {
    assert forall i | 0 <= i < |hs| :: hs[i] in hs;
  }

  /** A batch is added as a whole behind the others, or refused as a whole. */
  lemma BatchRegisters(s: State, accepts: Handler -> bool, hs: seq<Handler>)
    ensures var (next, out) := AddBatch(s, accepts, hs);
            if AllAccepted(accepts, hs)
            then out == Ok && SortedByPriority(next.handlers, s.handlers + hs) && next.tables == s.tables
            else next == s && out == Invalid
  {
    AcceptsEach(accepts, hs);
    SortsByPriority(s.handlers + hs);
    hide ByPriority, AcceptsAll, AllAccepted, SortedByPriority;
  }

  /** Replacing leaves the batch, sorted, and nothing else. */
  lemma ReplaceLeavesTheBatch(s: State, accepts: Handler -> bool, hs: seq<Handler>)
    ensures var (next, out) := Replace(s, accepts, hs);
            if AllAccepted(accepts, hs)
            then
              && out == Ok && SortedByPriority(next.handlers, hs)
              && next.tables == Tables(map[], map[], map[], map[], map[], map[], map[], map[], map[], map[])
            else next == s && out == Invalid
  {
    AcceptsEach(accepts, hs);
    SortsByPriority(hs);
    hide ByPriority, AcceptsAll, AllAccepted, SortedByPriority;
  }

  // ---- what is forgotten ----

  ghost predicate Dropped<V>(m: map<string, V>, r: map<string, V>, name: string) {
    r == m - {name}
  }

  /** No entry of the name with a suffix is left, and all others are. */
  ghost predicate PrefixedDropped<V>(m: map<string, V>, r: map<string, V>, name: string) {
    && (forall k :: k in r <==> k in m && !(name + ":" <= k))
    && (forall k | k in r :: r[k] == m[k])
  }

  ghost predicate ObjectsDropped(t: Tables, u: Tables, name: string) {
    && Dropped(t.handlerMu, u.handlerMu, name) && Dropped(t.limiters, u.limiters, name)
    && Dropped(t.debouncers, u.debouncers, name)
    && PrefixedDropped(t.throttleTimestamps, u.throttleTimestamps, name)
    && PrefixedDropped(t.roundRobinIndices, u.roundRobinIndices, name)
    && PrefixedDropped(t.sampleIndices, u.sampleIndices, name)
  }

  lemma WithoutDrops<V>(m: map<string, V>, name: string)
    ensures PrefixedDropped(m, Without(m, name + ":"), name)
  {
  }

  lemma UpdateDrops(t: Tables, name: string)
    ensures ObjectsDropped(t, ForgetOnUpdate(t, name), name)
  {
    WithoutDrops(t.throttleTimestamps, name);
    WithoutDrops(t.roundRobinIndices, name);
    WithoutDrops(t.sampleIndices, name);
    hide Without, PrefixedDropped;
  }

  /** The first handler of the name. */
  ghost predicate IsFirst(hs: seq<Handler>, name: string, i: int) {
    0 <= i < |hs| && hs[i].name == name && forall j | 0 <= j < i :: hs[j].name != name
  }

  /** Update puts the new handler in the place of the first of its name, sorts again, and forgets the
      objects and counters of the name, but not its sequences, its disabling and its statistics. */
  lemma UpdateReplaces(s: State, accepts: Handler -> bool, h: Handler)
    ensures var (next, out) := Update(s, accepts, h);
            if !InUse(s.handlers, h.name) then next == s && out == NotFound
            else if !accepts(h) then next == s && out == Invalid
            else
              && out == Ok && ObjectsDropped(s.tables, next.tables, h.name)
              && next.tables.stats == s.tables.stats && next.tables.disabled == s.tables.disabled
              && next.tables.sequenceIndices == s.tables.sequenceIndices
              && next.tables.sequenceClientIndices == s.tables.sequenceClientIndices
              && exists i :: IsFirst(s.handlers, h.name, i) && SortedByPriority(next.handlers, s.handlers[i := h])
  {
    NamedIsInUse(s.handlers, h.name);
    if Named(s.handlers, h.name) && accepts(h) {
      var i := FirstNamed(s.handlers, h.name);
      assert IsFirst(s.handlers, h.name, i);
      SortsByPriority(s.handlers[i := h]);
      UpdateDrops(s.tables, h.name);
      UpdateKeepsTables(s.tables, h.name);
      hide ByPriority, InUse, SortedByPriority, ForgetOnUpdate, ObjectsDropped, IsFirst;
      assert Update(s, accepts, h).0.handlers == ByPriority(s.handlers[i := h]);
    }
  }

  lemma UpdateKeepsTables(t: Tables, name: string)
    ensures var u := ForgetOnUpdate(t, name);
            && u.stats == t.stats && u.disabled == t.disabled && u.sequenceIndices == t.sequenceIndices
            && u.sequenceClientIndices == t.sequenceClientIndices
  {
  }

  /** Delete takes out the first handler of the name and forgets all but its statistics. */
  lemma DeleteUnregisters(s: State, name: string)
    ensures var (next, out) := Remove(s, name);
            if !InUse(s.handlers, name) then next == s && out == NotFound
            else
              && out == Ok && ObjectsDropped(s.tables, next.tables, name)
              && Dropped(s.tables.sequenceIndices, next.tables.sequenceIndices, name)
              && Dropped(s.tables.sequenceClientIndices, next.tables.sequenceClientIndices, name)
              && Dropped(s.tables.disabled, next.tables.disabled, name) && next.tables.stats == s.tables.stats
              && exists i :: IsFirst(s.handlers, name, i) && next.handlers == s.handlers[..i] + s.handlers[i + 1..]
  {
    NamedIsInUse(s.handlers, name);
    UpdateDrops(s.tables, name);
    UpdateKeepsTables(s.tables, name);
    if Named(s.handlers, name) {
      assert IsFirst(s.handlers, name, FirstNamed(s.handlers, name));
      hide InUse, ForgetOnUpdate, PrefixedDropped, IsFirst;
    }
  }

  /** With unique names, nothing of the name is left in the list, and all others are. */
  lemma DeleteLeavesOthers(s: State, name: string, other: string)
    requires UniqueNames(s.handlers)
    ensures !InUse(Remove(s, name).0.handlers, name)
    ensures other != name && InUse(s.handlers, other) ==> InUse(Remove(s, name).0.handlers, other)
  {
    NamedIsInUse(s.handlers, name);
    NamedIsInUse(s.handlers, other);
    if Named(s.handlers, name) {
      var i := FirstNamed(s.handlers, name);
      var rest := s.handlers[..i] + s.handlers[i + 1..];
      assert Remove(s, name).0.handlers == rest;
      forall k | 0 <= k < |rest|
        ensures rest[k].name != name
      {
        assert rest[k] == s.handlers[if k < i then k else k + 1];
      }
      if other != name && Named(s.handlers, other) {
        RemovedKeepsOthers(s.handlers, i, other);
        NamedIsInUse(rest, other);
      }
    }
  }

  // ---- enabling and disabling ----

  ghost predicate Marked(t: Tables, name: string) {
    name in t.disabled && t.disabled[name] != ""
  }

  /** After Enable a registered handler is matched by what its matcher matches; no other changes. */
  lemma EnableFrees(s: State, name: string, o: Oracles, msg: Message, h: Handler)
    ensures var (next, out) := Enable(s, name);
            if !InUse(s.handlers, name) then next == s && out == NotFound
            else
              && out == Ok && !Marked(next.tables, name)
              && next == s.(tables := s.tables.(disabled := s.tables.disabled - {name}))
              && (h.name == name && Eval(o, h.matcher, msg).Verdict? && Eval(o, h.matcher, msg).matched ==>
                    Matching(next, o, msg)(h))
              && (h.name != name ==> Matching(next, o, msg)(h) == Matching(s, o, msg)(h))
  {
    NamedIsInUse(s.handlers, name);
    hide InUse, Named, Eval;
  }

  /** After Disable it is matched by nothing, and the reason is kept; no other changes. */
  lemma DisableMarks(s: State, name: string, reason: string, o: Oracles, msg: Message, h: Handler)
    ensures var (next, out) := Disable(s, name, reason);
            if !InUse(s.handlers, name) then next == s && out == NotFound
            else
              && out == Ok && Marked(next.tables, name)
              && name in next.tables.disabled && next.tables.disabled[name] == (if reason == "" then "user" else reason)
              && next == s.(tables := s.tables.(disabled := s.tables.disabled[name := next.tables.disabled[name]]))
              && (h.name == name ==> !Matching(next, o, msg)(h))
              && (h.name != name ==> Matching(next, o, msg)(h) == Matching(s, o, msg)(h))
  {
    NamedIsInUse(s.handlers, name);
    hide InUse, Named, Eval;
  }

  // ---- the rest ----

  /** Rename changes the name of one handler, in its place, and refuses in this order. */
  lemma RenameRenames(s: State, from: string, to: string)
    ensures var (next, out) := Rename(s, from, to);
            if from == to then next == s && out == Ok
            else if InUse(s.handlers, to) then next == s && out == AlreadyExists
            else if !InUse(s.handlers, from) then next == s && out == NotFound
            else
              && out == Ok
              && exists i :: 0 <= i < |s.handlers| && s.handlers[i].name == from
                             && next.handlers == s.handlers[i := s.handlers[i].(name := to)]
  {
    NamedIsInUse(s.handlers, from);
    NamedIsInUse(s.handlers, to);
    if from != to && !Named(s.handlers, to) && Named(s.handlers, from) {
      var i := LastNamed(s.handlers, from);
      hide InUse, RenameTables;
      assert Rename(s, from, to).0.handlers == s.handlers[i := s.handlers[i].(name := to)];
    }
  }

  /** A sequence starts at its first response. */
  lemma SequenceStarts(s: State, accepts: Handler -> bool, ops: seq<Op>, name: string, conn: string, n: nat,
                       loop: bool, perClient: bool)
    requires n > 0 && name !in s.tables.sequenceIndices && name !in s.tables.sequenceClientIndices
    requires forall i | 0 <= i < |ops| :: KeepsSequences(ops[i], name, conn, perClient)
    requires forall i | 0 <= i < |ops| && SameSequence(ops[i], name, conn, perClient) ::
               ops[i].count == n && ops[i].loop == loop
    ensures var replies := Replies(s, accepts, ops, name, conn, perClient);
            forall k | 0 <= k < |replies| :: replies[k] == if loop then k % n else if k < n then k else n - 1
  {
    assert SequenceIndex(s.tables, name, conn, perClient) == 0 == Expected(0, n, loop);
    SequenceReplies(s, accepts, ops, name, conn, n, loop, perClient, 0);
    hide Replies, KeepsSequences, SameSequence;
  }

  /** A sequence call changes no other table. */
  lemma SequenceChangesSequences(t: Tables, name: string, conn: string, count: int, loop: bool, perClient: bool)
    ensures var next := NextSequence(t, name, conn, count, loop, perClient).0;
            next == t.(sequenceIndices := next.sequenceIndices, sequenceClientIndices := next.sequenceClientIndices)
  {
    hide NextIndex;
  }

  /** No entry with the suffix is left, and all others are. */
  ghost predicate SuffixedDropped<V>(m: map<string, V>, r: map<string, V>, suffix: string) {
    && (forall k :: k in r <==> k in m && !(|suffix| <= |k| && k[|k| - |suffix|..] == suffix))
    && (forall k | k in r :: r[k] == m[k])
  }

  /** Closing a connection drops its entries from three tables and changes nothing else. */
  lemma DisconnectDrops(t: Tables, conn: string)
    ensures var next := ForgetConn(t, conn);
            && SuffixedDropped(t.throttleTimestamps, next.throttleTimestamps, ":" + conn)
            && SuffixedDropped(t.debouncers, next.debouncers, ":" + conn)
            && next.sequenceClientIndices.Keys == t.sequenceClientIndices.Keys
            && (forall name | name in t.sequenceClientIndices ::
                  next.sequenceClientIndices[name] == t.sequenceClientIndices[name] - {conn})
            && next == t.(throttleTimestamps := next.throttleTimestamps, debouncers := next.debouncers,
                          sequenceClientIndices := next.sequenceClientIndices)
  {
    SuffixDrops(t.throttleTimestamps, ":" + conn);
    SuffixDrops(t.debouncers, ":" + conn);
    hide WithoutSuffix, SuffixedDropped;
  }

  lemma SuffixDrops<V>(m: map<string, V>, suffix: string)
    ensures SuffixedDropped(m, WithoutSuffix(m, suffix), suffix)
  {
  }

  /** A throttle time reads back, and no other handler or connection sees it, as long as names of
      handlers hold no colon. */
  lemma ThrottleReadsBack(t: Tables, name: string, conn: string, at: int, other: string, otherConn: string)
    requires ':' !in name && ':' !in other
    ensures var keys := t.throttleTimestamps[name + ":" + conn := at];
            var read := ThrottleTime(t.(throttleTimestamps := keys), other, otherConn);
            read == if other == name && otherConn == conn then at else ThrottleTime(t, other, otherConn)
  {
    KeysDiffer(name, conn, other, otherConn);
  }

  lemma KeysDiffer(a: string, x: string, b: string, y: string)
    requires ':' !in a && ':' !in b
    ensures a + ":" + x == b + ":" + y <==> a == b && x == y
  {
    var k, l := a + ":" + x, b + ":" + y;
    if a != b {
      ColonFreeNamesAreSeparate(a, b);
      OwnedByOne(k, a, b);
      assert Owned(l, b);
    } else {
      assert k[|a| + 1..] == x && l[|b| + 1..] == y;
    }
  }

  /** Handlers and pools have a round-robin index of their own. */
  lemma RoundRobinKeysDiffer(a: string, x: string, b: string, y: string)
    requires ':' !in a && ':' !in b
    ensures RoundRobinKey(a, x) == RoundRobinKey(b, y) <==> a == b && x == y
  {
    var mark := "round-robin:";
    KeysDiffer(a, mark + x, b, mark + y);
    assert (mark + x)[|mark|..] == x && (mark + y)[|mark|..] == y;
  }
}
