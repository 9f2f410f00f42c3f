/** Renaming a handler replaces its name in the keys of ten tables and does nothing else. */
module RegistryRename {
  import opened Text
  import opened Registry
  import opened RegistryRuns

  /** Names without a colon never share keys. */
  lemma ColonFreeNamesAreSeparate(a: string, b: string)
    requires ':' !in a && ':' !in b && a != b
    ensures Separate(a, b)
  {
    NotAPrefix(a, b);
    NotAPrefix(b, a);
  }

  lemma NotAPrefix(a: string, b: string)
    requires ':' !in b && a != b
    ensures !HasPrefix(b + ":", a + ":")
  {
    assert (a + ":")[..|a|] == a && (b + ":")[..|b|] == b;
    if |a| < |b| {
      assert b[|a|] in b && (b + ":")[|a|] != (a + ":")[|a|];
    }
  }

  // ---- one table ----

  lemma RenameKeyThereAndBack<V>(m: map<string, V>, a: string, b: string)
    requires a != b
    ensures RenameKey(RenameKey(m, a, b), b, a) == m <==> b !in m
  {
    if b in m {
      assert b !in RenameKey(RenameKey(m, a, b), b, a);
    } else if a in m {
      assert RenameKey(RenameKey(m, a, b), b, a) == m;
    }
  }

  /** The new key of an entry. */
  function NewKey(key: string, a: string, b: string): string {
    if Owned(key, a) then Swapped(key, a, b) else key
  }

  lemma NewKeyBack(key: string, a: string, b: string)
    requires Separate(a, b) && !Owned(key, b)
    ensures NewKey(NewKey(key, a, b), b, a) == key
    ensures Owned(NewKey(key, a, b), b) <==> Owned(key, a)
    ensures !Owned(NewKey(key, a, b), a)
  {
    if Owned(key, a) {
      SwappedBack(key, a, b);
      OwnedByOne(Swapped(key, a, b), b, a);
    }
  }

  /** Without entries of the new name, renaming is a bijection of the keys that keeps the values. */
  lemma RenamePrefixIsBijection<V>(m: map<string, V>, a: string, b: string)
    requires Separate(a, b) && OwnedKeys(m, b) == {}
    ensures forall k | k in m ::
              NewKey(k, a, b) in RenamePrefix(m, a, b) && RenamePrefix(m, a, b)[NewKey(k, a, b)] == m[k]
    ensures forall k | k in RenamePrefix(m, a, b) :: NewKey(k, b, a) in m && NewKey(NewKey(k, b, a), a, b) == k
    ensures forall k, k' | k in m && k' in m && NewKey(k, a, b) == NewKey(k', a, b) :: k == k'
    ensures OwnedKeys(RenamePrefix(m, a, b), a) == {}
  {
    var r := RenamePrefix(m, a, b);
    assert forall k | k in m :: !Owned(k, b) by {
      assert forall k | k in m :: k in OwnedKeys(m, b) <==> Owned(k, b);
    }
    forall k | k in m
      ensures NewKey(k, a, b) in r && r[NewKey(k, a, b)] == m[k]
      ensures NewKey(NewKey(k, a, b), b, a) == k && !Owned(NewKey(k, a, b), a)
    {
      NewKeyBack(k, a, b);
      EntryMoves(m, k, a, b);
    }
    forall k | k in r
      ensures NewKey(k, b, a) in m && NewKey(NewKey(k, b, a), a, b) == k && !Owned(k, a)
    {
      var x := EntryComesFrom(m, k, a, b);
    }
  }

  lemma EntryMoves<V>(m: map<string, V>, k: string, a: string, b: string)
    requires k in m && !Owned(k, b)
    ensures NewKey(k, a, b) in RenamePrefix(m, a, b) && RenamePrefix(m, a, b)[NewKey(k, a, b)] == m[k]
  {
    SwappedInjective(a, b);
    var moved := OwnedKeys(m, a);
    assert RenamePrefix(m, a, b) == (m - moved) + Overlay(m, moved, a, b);
    if Owned(k, a) {
      assert k in moved;
      assert Swapped(k, a, b) in Overlay(m, moved, a, b);
    } else {
      assert k !in Overlay(m, moved, a, b);
    }
  }

  lemma EntryComesFrom<V>(m: map<string, V>, k: string, a: string, b: string) returns (x: string)
    requires Separate(a, b) && k in RenamePrefix(m, a, b) && forall y | y in m :: !Owned(y, b)
    ensures x in m && x == NewKey(k, b, a) && NewKey(x, a, b) == k && !Owned(k, a)
  {
    var moved := OwnedKeys(m, a);
    if k in Overlay(m, moved, a, b) {
      x :| x in moved && Swapped(x, a, b) == k;
    } else {
      x := k;
      assert k in m - moved;
    }
    NewKeyBack(x, a, b);
  }

  /** There and back restores a table of prefixed keys exactly if it had no entry of the new name. */
  lemma RenamePrefixThereAndBack<V>(m: map<string, V>, a: string, b: string)
    requires Separate(a, b)
    ensures RenamePrefix(RenamePrefix(m, a, b), b, a) == m <==> OwnedKeys(m, b) == {}
  {
    var there := RenamePrefix(m, a, b);
    var back := RenamePrefix(there, b, a);
    if OwnedKeys(m, b) == {} {
      RenamePrefixIsBijection(m, a, b);
      RenamePrefixIsBijection(there, b, a);
      hide RenamePrefix, NewKey, Separate;
      forall k
        ensures k in m ==> k in back && back[k] == m[k]
        ensures k in back ==> k in m
      {
        if k in m {
          var k' := NewKey(k, a, b);
          assert k' in there && there[k'] == m[k];
          NewKeyBack(k, a, b) by {
            assert k !in OwnedKeys(m, b);
          }
          assert NewKey(k', b, a) in back;
        }
        if k in back {
          assert NewKey(k, a, b) in there;
          assert NewKey(NewKey(k, a, b), b, a) in m && NewKey(NewKey(k, a, b), b, a) == k;
        }
      }
    } else {
      var k :| k in OwnedKeys(m, b);
      NothingStaysBehind(there, b, a, k);
    }
  }

  lemma NothingStaysBehind<V>(m: map<string, V>, from: string, to: string, k: string)
    requires Separate(from, to) && Owned(k, from)
    ensures k !in RenamePrefix(m, from, to)
  {
    if k in Overlay(m, OwnedKeys(m, from), from, to) {
      var x :| x in OwnedKeys(m, from) && Swapped(x, from, to) == k;
      OwnedByOne(k, from, to);
    }
  }

  // ---- all ten tables ----

  /** Nothing is stored under the name, or under the name with a suffix. */
  predicate NoTraces(t: Tables, name: string) {
    && name !in t.handlerMu && name !in t.limiters && name !in t.debouncers && name !in t.stats
    && name !in t.disabled && name !in t.sequenceIndices && name !in t.sequenceClientIndices
    && OwnedKeys(t.throttleTimestamps, name) == {}
    && OwnedKeys(t.roundRobinIndices, name) == {}
    && OwnedKeys(t.sampleIndices, name) == {}
  }

  lemma TablesThereAndBack(t: Tables, a: string, b: string)
    requires a != b && Separate(a, b)
    ensures RenameTables(RenameTables(t, a, b), b, a) == t <==> NoTraces(t, b)
  {
    hide RenameKey, RenamePrefix, Separate;
    RenameKeyThereAndBack(t.handlerMu, a, b);
    RenameKeyThereAndBack(t.limiters, a, b);
    RenameKeyThereAndBack(t.debouncers, a, b);
    RenameKeyThereAndBack(t.stats, a, b);
    RenameKeyThereAndBack(t.disabled, a, b);
    RenameKeyThereAndBack(t.sequenceIndices, a, b);
    RenameKeyThereAndBack(t.sequenceClientIndices, a, b);
    RenamePrefixThereAndBack(t.throttleTimestamps, a, b);
    RenamePrefixThereAndBack(t.roundRobinIndices, a, b);
    RenamePrefixThereAndBack(t.sampleIndices, a, b);
  }

  /** Renaming a handler and renaming it back restores the registry exactly if there were no
      traces of the new name. */
  lemma RenameThereAndBack(s: State, a: string, b: string)
    requires UniqueNames(s.handlers) && Named(s.handlers, a) && !Named(s.handlers, b)
    requires Separate(a, b)
    ensures Rename(s, a, b).1 == Ok && Rename(Rename(s, a, b).0, b, a).1 == Ok
    ensures Rename(Rename(s, a, b).0, b, a).0 == s <==> NoTraces(s.tables, b)
  {
    hide RenameTables, NoTraces, Separate;
    var i := LastNamed(s.handlers, a);
    var there := Rename(s, a, b).0;
    assert there.handlers[i].name == b;
    assert forall k | 0 <= k < |s.handlers| && k != i :: there.handlers[k] == s.handlers[k];
    assert forall k | 0 <= k < |s.handlers| && k != i :: s.handlers[k].name != a;
    assert !Named(there.handlers, a) && Named(there.handlers, b);
    assert LastNamed(there.handlers, b) == i;
    var back := Rename(there, b, a).0;
    assert back.handlers == s.handlers;
    TablesThereAndBack(s.tables, a, b);
  }

  // ---- lookups ----

  lemma RenamedEntry<V>(m: map<string, V>, a: string, b: string, suffix: string)
    requires Separate(a, b) && OwnedKeys(m, b) == {}
    ensures var r := RenamePrefix(m, a, b);
            && ((b + ":" + suffix) in r <==> (a + ":" + suffix) in m)
            && ((a + ":" + suffix) in m ==> r[b + ":" + suffix] == m[a + ":" + suffix])
  {
    RenamePrefixIsBijection(m, a, b);
    var from, to := a + ":" + suffix, b + ":" + suffix;
    assert Owned(from, a) && Swapped(from, a, b) == to;
    assert Owned(to, b) && Swapped(to, b, a) == from;
    hide RenamePrefix;
    assert NewKey(from, a, b) == to && NewKey(to, b, a) == from;
  }

  /** What is looked up under the new name is what the old name would have given. */
  lemma LookupsFollowTheName(t: Tables, a: string, b: string, conn: string, pool: string, count: int,
                             command: string, perClient: bool)
    requires a != b && Separate(a, b) && NoTraces(t, b)
    ensures var r := RenameTables(t, a, b);
            && SequenceIndex(r, b, conn, perClient) == SequenceIndex(t, a, conn, perClient)
            && ThrottleTime(r, b, conn) == ThrottleTime(t, a, conn)
            && RoundRobinIndex(r, RoundRobinKey(b, pool), count) == RoundRobinIndex(t, RoundRobinKey(a, pool), count)
            && SampleCount(r, b, command) == SampleCount(t, a, command)
            && IsDisabled(r, b) == IsDisabled(t, a)
            && Get(r.stats, b, NO_STATS) == Get(t.stats, a, NO_STATS)
  {
    hide RenamePrefix, Separate;
    RenamedEntry(t.throttleTimestamps, a, b, conn);
    RenamedEntry(t.roundRobinIndices, a, b, "round-robin:" + pool);
    RenamedEntry(t.sampleIndices, a, b, command);
  }

  /** Nothing changes for a third handler. */
  lemma OtherNamesKeepTheirs(t: Tables, a: string, b: string, other: string, key: string)
    requires other != a && other != b && Separate(a, other) && Separate(b, other) && Owned(key, other)
    ensures var r := RenameTables(t, a, b);
            && Get(r.stats, other, NO_STATS) == Get(t.stats, other, NO_STATS)
            && Get(r.disabled, other, "") == Get(t.disabled, other, "")
            && Get(r.sequenceIndices, other, 0) == Get(t.sequenceIndices, other, 0)
            && Get(r.sequenceClientIndices, other, map[]) == Get(t.sequenceClientIndices, other, map[])
            && Get(r.throttleTimestamps, key, 0) == Get(t.throttleTimestamps, key, 0)
            && Get(r.roundRobinIndices, key, 0) == Get(t.roundRobinIndices, key, 0)
            && Get(r.sampleIndices, key, 0) == Get(t.sampleIndices, key, 0)
  {
    hide RenamePrefix, Separate;
    ThirdKeyStays(t.throttleTimestamps, a, b, other, key);
    ThirdKeyStays(t.roundRobinIndices, a, b, other, key);
    ThirdKeyStays(t.sampleIndices, a, b, other, key);
  }

  lemma ThirdKeyStays<V>(m: map<string, V>, a: string, b: string, other: string, key: string)
    requires Separate(a, other) && Separate(b, other) && Owned(key, other)
    ensures key in RenamePrefix(m, a, b) <==> key in m
    ensures key in m ==> RenamePrefix(m, a, b)[key] == m[key]
  {
    OwnedByOne(key, other, a);
    OwnedByOne(key, other, b);
    assert key !in Overlay(m, OwnedKeys(m, a), a, b);
  }

  /** A renamed handler keeps its own statistics exactly if it has some or the new name has none. */
  lemma StatisticsFollowExactly(s: State, a: string, b: string)
    requires Named(s.handlers, a) && !Named(s.handlers, b)
    ensures Get(Rename(s, a, b).0.tables.stats, b, NO_STATS) == Get(s.tables.stats, a, NO_STATS)
       <==> a in s.tables.stats || Get(s.tables.stats, b, NO_STATS) == NO_STATS
  {
    hide RenamePrefix, LastNamed, Named;
  }

  /** Traces of a name that is free do occur: Delete leaves the statistics, and a handler renamed
      to the deleted name takes them over if it had none. */
  lemma StatisticsAreInherited(s: State, a: string, b: string)
    requires UniqueNames(s.handlers) && Named(s.handlers, a) && Named(s.handlers, b) && a != b
    requires b in s.tables.stats && a !in s.tables.stats
    ensures var renamed := Rename(Remove(s, b).0, a, b);
            renamed.1 == Ok && b in renamed.0.tables.stats && renamed.0.tables.stats[b] == s.tables.stats[b]
  {
    hide Without, RenamePrefix;
    var i, deleted := FirstNamed(s.handlers, b), Remove(s, b).0;
    assert forall k | 0 <= k < |deleted.handlers| :: deleted.handlers[k] == s.handlers[if k < i then k else k + 1];
    var k :| 0 <= k < |s.handlers| && s.handlers[k].name == a;
    assert deleted.handlers[if k < i then k else k - 1].name == a;
    assert Named(deleted.handlers, a) && !Named(deleted.handlers, b);
  }
}
