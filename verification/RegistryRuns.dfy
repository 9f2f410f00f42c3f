/** What every run of registry operations keeps. */
module RegistryRuns {
  import opened StableSort
  import opened Matchers
  import opened Registry
  import opened Remainders
  import opened Text

  datatype Op =
    | Adding(h: Handler)
    | AddingBatch(hs: seq<Handler>)
    | Updating(h: Handler)
    | Replacing(hs: seq<Handler>)
    | Deleting(name: string)
    | Renaming(from: string, to: string)  // what iterations do to names that share keys is bookkeeping
    | Enabling(name: string)
    | Disabling(name: string, reason: string)
    | Sequencing(name: string, conn: string, count: int, loop: bool, perClient: bool)
    | Resetting(name: string)
    | Disconnecting(conn: string)
    | Bookkeeping(other: Tables)  // any change of the other tables: objects, statistics, counters

  function Step(s: State, accepts: Handler -> bool, op: Op): State {
    match op
    case Adding(h) => AddOne(s, accepts, h).0
    case AddingBatch(hs) => AddBatch(s, accepts, hs).0
    case Updating(h) => Update(s, accepts, h).0
    case Replacing(hs) => Replace(s, accepts, hs).0
    case Deleting(name) => Remove(s, name).0
    case Renaming(from, to) => Rename(s, from, to).0
    case Enabling(name) => Enable(s, name).0
    case Disabling(name, reason) => Disable(s, name, reason).0
    case Sequencing(name, conn, count, loop, perClient) =>
      s.(tables := NextSequence(s.tables, name, conn, count, loop, perClient).0)
    case Resetting(name) =>
      s.(tables := s.tables.(sequenceIndices := s.tables.sequenceIndices - {name},
                             sequenceClientIndices := s.tables.sequenceClientIndices - {name}))
    case Disconnecting(conn) => s.(tables := ForgetConn(s.tables, conn))
    case Bookkeeping(other) =>
      s.(tables := other.(disabled := s.tables.disabled, sequenceIndices := s.tables.sequenceIndices,
                          sequenceClientIndices := s.tables.sequenceClientIndices))
  }

  function Run(s: State, accepts: Handler -> bool, ops: seq<Op>): State
    decreases |ops|
  {
    if ops == [] then s else Run(Step(s, accepts, ops[0]), accepts, ops[1..])
  }

  // ---- names ----

  ghost predicate UniqueNames(hs: seq<Handler>) {
    forall i, j | 0 <= i < j < |hs| :: hs[i].name != hs[j].name
  }

  function NameIn(names: set<string>): Handler -> bool {
    (h: Handler) => h.name in names
  }

  lemma {:induction false} SelectedAtMostOnce(hs: seq<Handler>, name: string)
    requires UniqueNames(hs)
    ensures |Select(hs, NameIn({name}))| <= 1
  {
    if hs != [] {
      SelectedAtMostOnce(hs[1..], name);
      if hs[0].name == name {
        forall h | h in hs[1..]
          ensures !NameIn({name})(h)
        {
          var i :| 0 <= i < |hs[1..]| && hs[1..][i] == h;
          assert hs[i + 1] == h;
        }
        SelectNone(hs[1..], NameIn({name}));
      }
    }
  }

  lemma SelectedTwice(hs: seq<Handler>, i: nat, j: nat)
    requires i < j < |hs| && hs[i].name == hs[j].name
    ensures |Select(hs, NameIn({hs[i].name}))| >= 2
  {
    var keep := NameIn({hs[i].name});
    assert hs == hs[..j] + hs[j..];
    SelectAppend(hs[..j], hs[j..], keep);
    SelectMembers(hs[..j], keep);
    SelectMembers(hs[j..], keep);
    assert hs[..j][i] in Select(hs[..j], keep) && hs[j..][0] in Select(hs[j..], keep);
  }

  lemma SortKeepsUnique(hs: seq<Handler>)
    ensures UniqueNames(ByPriority(hs)) <==> UniqueNames(hs)
  {
    var sorted := ByPriority(hs);
    forall name: string
      ensures |Select(sorted, NameIn({name}))| == |Select(hs, NameIn({name}))|
    {
      SelectSort(hs, NameIn({name}), Priority());
      SortMembers(Select(hs, NameIn({name})), Priority());
    }
    if UniqueNames(hs) {
      OnceIsUnique(hs, sorted);
    }
    if UniqueNames(sorted) {
      OnceIsUnique(sorted, hs);
    }
  }

  lemma OnceIsUnique(hs: seq<Handler>, other: seq<Handler>)
    requires UniqueNames(hs)
    requires forall name: string :: |Select(hs, NameIn({name}))| == |Select(other, NameIn({name}))|
    ensures UniqueNames(other)
  {
    forall i, j | 0 <= i < j < |other|
      ensures other[i].name != other[j].name
    {
      SelectedAtMostOnce(hs, other[i].name);
      assert |Select(other, NameIn({other[i].name}))| <= 1;
      if other[i].name == other[j].name {
        SelectedTwice(other, i, j);
        assert false;
      }
    }
  }

  lemma SortKeepsNames(hs: seq<Handler>, name: string)
    ensures Named(ByPriority(hs), name) <==> Named(hs, name)
  {
    SortMembers(hs, Priority());
    var sorted := ByPriority(hs);
    if i :| 0 <= i < |hs| && hs[i].name == name {
      assert hs[i] in sorted;
    }
    if i :| 0 <= i < |sorted| && sorted[i].name == name {
      assert sorted[i] in hs;
    }
  }

  /** A batch is added without a look at names: the names stay unique exactly if those of the
      batch are distinct and new. */
  lemma BatchKeepsUnique(hs: seq<Handler>, batch: seq<Handler>)
    ensures UniqueNames(ByPriority(hs + batch))
       <==> UniqueNames(hs) && UniqueNames(batch) && forall i | 0 <= i < |batch| :: !Named(hs, batch[i].name)
  {
    SortKeepsUnique(hs + batch);
    var all := hs + batch;
    if UniqueNames(all) {
      assert forall i | 0 <= i < |hs| :: all[i] == hs[i];
      assert forall i | 0 <= i < |batch| :: all[|hs| + i] == batch[i];
    }
  }

  /** And that does happen. */
  lemma BatchBreaksUnique(h: Handler)
    requires h.name == "h"
    ensures AddBatch(State([h], NO_TABLES), _ => true, [h]).1 == Ok
    ensures !UniqueNames(AddBatch(State([h], NO_TABLES), _ => true, [h]).0.handlers)
  {
    hide ByPriority;
    BatchKeepsUnique([h], [h]);
    assert Named([h], [h][0].name);
  }

  // ---- the invariant ----

  ghost predicate Valid(s: State) {
    && SortedDesc(s.handlers, Priority())
    && UniqueNames(s.handlers)
    && (forall name | name in s.tables.disabled :: Named(s.handlers, name) && s.tables.disabled[name] != "")
  }

  /** Batches come with distinct names that are new to the registry. */
  ghost predicate FreshBatch(s: State, op: Op) {
    match op
    case AddingBatch(hs) => UniqueNames(hs) && forall i | 0 <= i < |hs| :: !Named(s.handlers, hs[i].name)
    case Replacing(hs) => UniqueNames(hs)
    case _ => true
  }

  ghost predicate FreshBatches(s: State, accepts: Handler -> bool, ops: seq<Op>)
    decreases |ops|
  {
    ops == [] || (FreshBatch(s, ops[0]) && FreshBatches(Step(s, accepts, ops[0]), accepts, ops[1..]))
  }

  lemma AddKeepsValid(s: State, hs: seq<Handler>)
    requires Valid(s) && UniqueNames(hs) && forall i | 0 <= i < |hs| :: !Named(s.handlers, hs[i].name)
    ensures Valid(s.(handlers := ByPriority(s.handlers + hs)))
  {
    BatchKeepsUnique(s.handlers, hs);
    SortSorted(s.handlers + hs, Priority());
    forall name | name in s.tables.disabled
      ensures Named(ByPriority(s.handlers + hs), name)
    {
      SortKeepsNames(s.handlers + hs, name);
      var i :| 0 <= i < |s.handlers| && s.handlers[i].name == name;
      assert (s.handlers + hs)[i].name == name;
    }
  }

  lemma UpdateKeepsValid(s: State, i: nat, h: Handler)
    requires Valid(s) && i < |s.handlers| && s.handlers[i].name == h.name
    ensures Valid(State(ByPriority(s.handlers[i := h]), s.tables))
  {
    var hs := s.handlers[i := h];
    SortKeepsUnique(hs);
    SortSorted(hs, Priority());
    forall name | name in s.tables.disabled
      ensures Named(ByPriority(hs), name)
    {
      SortKeepsNames(hs, name);
      var k :| 0 <= k < |s.handlers| && s.handlers[k].name == name;
      assert hs[k].name == name;
    }
  }

  lemma RemovedOrderAndNames(hs: seq<Handler>, i: nat)
    requires i < |hs| && SortedDesc(hs, Priority()) && UniqueNames(hs)
    ensures var rest := hs[..i] + hs[i + 1..];
            SortedDesc(rest, Priority()) && UniqueNames(rest)
  {
    var rest := hs[..i] + hs[i + 1..];
    forall k, l | 0 <= k < l < |rest|
      ensures Priority()(rest[k]) >= Priority()(rest[l]) && rest[k].name != rest[l].name
    {
      var k', l' := if k < i then k else k + 1, if l < i then l else l + 1;
      assert rest[k] == hs[k'] && rest[l] == hs[l'] && k' < l';
    }
  }

  lemma RemovedKeepsOthers(hs: seq<Handler>, i: nat, name: string)
    requires i < |hs| && Named(hs, name) && name != hs[i].name
    ensures Named(hs[..i] + hs[i + 1..], name)
  {
    var k :| 0 <= k < |hs| && hs[k].name == name;
    assert (hs[..i] + hs[i + 1..])[if k < i then k else k - 1] == hs[k];
  }

  lemma DeleteKeepsValid(s: State, i: nat, disabled: map<string, string>)
    requires Valid(s) && i < |s.handlers| && disabled == s.tables.disabled - {s.handlers[i].name}
    ensures Valid(State(s.handlers[..i] + s.handlers[i + 1..], s.tables.(disabled := disabled)))
  {
    hide SortedDesc, UniqueNames, Named;
    RemovedOrderAndNames(s.handlers, i);
    forall name | name in disabled
      ensures Named(s.handlers[..i] + s.handlers[i + 1..], name)
    {
      RemovedKeepsOthers(s.handlers, i, name);
    }
  }

  lemma RenameKeepsValid(s: State, i: nat, to: string)
    requires Valid(s) && i < |s.handlers| && !Named(s.handlers, to)
    ensures var disabled := RenameKey(s.tables.disabled, s.handlers[i].name, to);
            Valid(State(s.handlers[i := s.handlers[i].(name := to)], s.tables.(disabled := disabled)))
  {
    var hs, from := s.handlers[i := s.handlers[i].(name := to)], s.handlers[i].name;
    var disabled := RenameKey(s.tables.disabled, from, to);
    assert forall k | 0 <= k < |hs| :: hs[k].priority == s.handlers[k].priority;
    assert forall k | 0 <= k < |hs| :: Priority()(hs[k]) == Priority()(s.handlers[k]);
    forall name | name in disabled
      ensures Named(hs, name) && disabled[name] != ""
    {
      if name == to {
        assert hs[i].name == to;
      } else {
        var k :| 0 <= k < |s.handlers| && s.handlers[k].name == name;
        assert hs[k].name == name;
      }
    }
  }

  /** Only the handlers and the disabled names matter for the invariant. */
  lemma ValidDependsOn(s: State, t: State)
    requires Valid(s) && t.handlers == s.handlers && t.tables.disabled == s.tables.disabled
    ensures Valid(t)
  {
  }

  lemma UpdatingKeepsValid(s: State, accepts: Handler -> bool, h: Handler)
    requires Valid(s)
    ensures Valid(Update(s, accepts, h).0)
  {
    hide ByPriority, ForgetOnUpdate, Valid, Named;
    var next := Update(s, accepts, h).0;
    if Named(s.handlers, h.name) && accepts(h) {
      UpdateKeepsValid(s, FirstNamed(s.handlers, h.name), h);
      DisabledOnUpdate(s.tables, h.name);
      ValidDependsOn(State(next.handlers, s.tables), next);
    }
  }

  lemma DeletingKeepsValid(s: State, name: string)
    requires Valid(s)
    ensures Valid(Remove(s, name).0)
  {
    hide ForgetOnUpdate, Valid, Named;
    var next := Remove(s, name).0;
    if Named(s.handlers, name) {
      DeleteKeepsValid(s, FirstNamed(s.handlers, name), s.tables.disabled - {name});
      ValidDependsOn(State(next.handlers, s.tables.(disabled := s.tables.disabled - {name})), next);
    }
  }

  lemma RenamingKeepsValid(s: State, from: string, to: string)
    requires Valid(s)
    ensures Valid(Rename(s, from, to).0)
  {
    hide RenameKey, RenamePrefix, Valid, Named;
    var next := Rename(s, from, to).0;
    if from != to && Named(s.handlers, from) && !Named(s.handlers, to) {
      RenameKeepsValid(s, LastNamed(s.handlers, from), to);
      ValidDependsOn(State(next.handlers, s.tables.(disabled := RenameKey(s.tables.disabled, from, to))), next);
    }
  }

  lemma AddingKeepsValid(s: State, accepts: Handler -> bool, h: Handler)
    requires Valid(s)
    ensures Valid(AddOne(s, accepts, h).0)
  {
    hide ByPriority, Valid, Named;
    if accepts(h) && !Named(s.handlers, h.name) {
      AddKeepsValid(s, [h]);
    }
  }

  lemma DisablingKeepsValid(s: State, name: string, reason: string)
    requires Valid(s)
    ensures Valid(Disable(s, name, reason).0) && Valid(Enable(s, name).0)
  {
    hide SortedDesc, UniqueNames, Named;
  }

  lemma StepKeepsValid(s: State, accepts: Handler -> bool, op: Op)
    requires Valid(s) && FreshBatch(s, op)
    ensures Valid(Step(s, accepts, op))
  {
    hide Valid, AddOne, AddBatch, Update, Replace, Remove, Rename, Enable, Disable, NextSequence, ForgetConn;
    match op
    case Adding(h) => AddingKeepsValid(s, accepts, h);
    case AddingBatch(hs) => BatchesKeepValid(s, accepts, hs);
    case Replacing(hs) => BatchesKeepValid(s, accepts, hs);
    case Updating(h) => UpdatingKeepsValid(s, accepts, h);
    case Deleting(name) => DeletingKeepsValid(s, name);
    case Renaming(from, to) => RenamingKeepsValid(s, from, to);
    case Enabling(name) => DisablingKeepsValid(s, name, "");
    case Disabling(name, reason) => DisablingKeepsValid(s, name, reason);
    case Sequencing(name, conn, count, loop, perClient) =>
      SequenceKeepsDisabled(s.tables, name, conn, count, loop, perClient);
      ValidDependsOn(s, Step(s, accepts, op));
    case Disconnecting(conn) =>
      ConnKeepsDisabled(s.tables, conn);
      ValidDependsOn(s, Step(s, accepts, op));
    case _ =>
      ValidDependsOn(s, Step(s, accepts, op));
  }

  lemma BatchesKeepValid(s: State, accepts: Handler -> bool, hs: seq<Handler>)
    requires Valid(s) && UniqueNames(hs)
    ensures (forall i | 0 <= i < |hs| :: !Named(s.handlers, hs[i].name)) ==> Valid(AddBatch(s, accepts, hs).0)
    ensures Valid(Replace(s, accepts, hs).0)
  {
    hide ByPriority, Valid, Named, UniqueNames, AcceptsAll;
    ReplacedIsValid(hs);
    if forall i | 0 <= i < |hs| :: !Named(s.handlers, hs[i].name) {
      AddKeepsValid(s, hs);
    }
  }

  lemma ConnKeepsDisabled(t: Tables, conn: string)
    ensures ForgetConn(t, conn).disabled == t.disabled
  {
  }

  lemma SequenceKeepsDisabled(t: Tables, name: string, conn: string, count: int, loop: bool, perClient: bool)
    ensures NextSequence(t, name, conn, count, loop, perClient).0.disabled == t.disabled
  {
  }

  lemma DisabledOnUpdate(t: Tables, name: string)
    ensures ForgetOnUpdate(t, name).disabled == t.disabled
  {
  }

  lemma ReplacedIsValid(hs: seq<Handler>)
    requires UniqueNames(hs)
    ensures Valid(State(ByPriority(hs), NO_TABLES))
  {
    SortKeepsUnique(hs);
    SortSorted(hs, Priority());
  }

  /** After any run the list is sorted by descending priority, names are unique, and what is
      disabled is registered. */
  lemma {:induction false} RunKeepsValid(s: State, accepts: Handler -> bool, ops: seq<Op>)
    requires Valid(s) && FreshBatches(s, accepts, ops)
    ensures Valid(Run(s, accepts, ops))
    decreases |ops|
  {
    hide Step, Valid, FreshBatch;
    if ops != [] {
      StepKeepsValid(s, accepts, ops[0]);
      RunKeepsValid(Step(s, accepts, ops[0]), accepts, ops[1..]);
    }
  }

  lemma EmptyIsValid()
    ensures Valid(State([], NO_TABLES))
  {
  }

  // ---- the order of handlers that nobody touches ----

  function NamesOf(hs: seq<Handler>): set<string> {
    set i | 0 <= i < |hs| :: hs[i].name
  }

  function Touched(op: Op): set<string> {
    match op
    case Adding(h) => {h.name}
    case AddingBatch(hs) => NamesOf(hs)
    case Updating(h) => {h.name}
    case Deleting(name) => {name}
    case Renaming(from, to) => {from, to}
    case _ => {}
  }

  lemma SelectReplaced(hs: seq<Handler>, i: nat, h: Handler, keep: Handler -> bool)
    requires i < |hs| && !keep(hs[i]) && !keep(h)
    ensures Select(hs[i := h], keep) == Select(hs, keep) == Select(hs[..i] + hs[i + 1..], keep)
  {
    assert hs == hs[..i] + ([hs[i]] + hs[i + 1..]);
    assert hs[i := h] == hs[..i] + ([h] + hs[i + 1..]);
    SelectAppend(hs[..i], [hs[i]] + hs[i + 1..], keep);
    SelectAppend(hs[..i], [h] + hs[i + 1..], keep);
    SelectAppend(hs[..i], hs[i + 1..], keep);
    assert ([hs[i]] + hs[i + 1..])[1..] == hs[i + 1..] && ([h] + hs[i + 1..])[1..] == hs[i + 1..];
    assert [] + Select(hs[i + 1..], keep) == Select(hs[i + 1..], keep);
  }

  lemma SelectAdded(hs: seq<Handler>, batch: seq<Handler>, keep: Handler -> bool)
    requires SortedDesc(hs, Priority()) && forall i | 0 <= i < |batch| :: !keep(batch[i])
    ensures Select(ByPriority(hs + batch), keep) == Select(hs, keep)
  {
    SelectSort(hs + batch, keep, Priority());
    SelectAppend(hs, batch, keep);
    SelectNone(batch, keep);
    assert Select(hs, keep) + [] == Select(hs, keep);
    SelectSorted(hs, keep, Priority());
    SortOfSorted(Select(hs, keep), Priority());
  }

  lemma SelectUpdated(hs: seq<Handler>, i: nat, h: Handler, keep: Handler -> bool)
    requires SortedDesc(hs, Priority()) && i < |hs| && !keep(hs[i]) && !keep(h)
    ensures Select(ByPriority(hs[i := h]), keep) == Select(hs, keep)
  {
    SelectSort(hs[i := h], keep, Priority());
    SelectReplaced(hs, i, h, keep);
    SelectSorted(hs, keep, Priority());
    SortOfSorted(Select(hs, keep), Priority());
  }

  lemma StepKeepsOrder(s: State, accepts: Handler -> bool, op: Op, names: set<string>)
    requires Valid(s) && !op.Replacing? && names !! Touched(op)
    ensures Select(Step(s, accepts, op).handlers, NameIn(names)) == Select(s.handlers, NameIn(names))
  {
    hide ByPriority, ForgetOnUpdate, Without, NextSequence, SortedDesc, RenamePrefix, RenameKey, Select, UniqueNames;
    var keep, next := NameIn(names), Step(s, accepts, op);
    match op
    case Adding(h) =>
      SelectAdded(s.handlers, [h], keep);
    case AddingBatch(hs) =>
      forall i | 0 <= i < |hs|
        ensures !keep(hs[i])
      {
        assert hs[i].name in NamesOf(hs);
      }
      SelectAdded(s.handlers, hs, keep);
    case Updating(h) =>
      if next != s {
        SelectUpdated(s.handlers, FirstNamed(s.handlers, h.name), h, keep);
      }
    case Deleting(name) =>
      if next != s {
        var i := FirstNamed(s.handlers, name);
        SelectReplaced(s.handlers, i, s.handlers[i], keep);
      }
    case Renaming(from, to) =>
      if next != s {
        var i := LastNamed(s.handlers, from);
        SelectReplaced(s.handlers, i, s.handlers[i].(name := to), keep);
      }
    case _ =>
  }

  /** Over a run without Replace the handlers with names that no operation touches stay the same
      and in the same order. */
  lemma {:induction false} RunKeepsOrder(s: State, accepts: Handler -> bool, ops: seq<Op>, names: set<string>)
    requires Valid(s) && FreshBatches(s, accepts, ops)
    requires forall i | 0 <= i < |ops| :: !ops[i].Replacing? && names !! Touched(ops[i])
    ensures Select(Run(s, accepts, ops).handlers, NameIn(names)) == Select(s.handlers, NameIn(names))
    decreases |ops|
  {
    hide Step, Valid, FreshBatch, Touched, Select;
    if ops != [] {
      StepKeepsValid(s, accepts, ops[0]);
      StepKeepsOrder(s, accepts, ops[0], names);
      RunKeepsOrder(Step(s, accepts, ops[0]), accepts, ops[1..], names);
    }
  }

  // ---- a disabled handler stays disabled ----

  /** The name of a handler after an operation. */
  function NameAfterStep(s: State, accepts: Handler -> bool, op: Op, name: string): string {
    if op.Renaming? && op.from == name && Rename(s, op.from, op.to).1 == Ok then op.to else name
  }

  function NameAfter(s: State, accepts: Handler -> bool, ops: seq<Op>, name: string): string
    decreases |ops|
  {
    if ops == [] then name
    else NameAfter(Step(s, accepts, ops[0]), accepts, ops[1..], NameAfterStep(s, accepts, ops[0], name))
  }

  predicate Frees(op: Op, name: string) {
    op.Replacing? || (op.Enabling? && op.name == name) || (op.Deleting? && op.name == name)
  }

  /** No operation enables, deletes or replaces the handler, whatever its name is at the time. */
  ghost predicate NeverFreed(s: State, accepts: Handler -> bool, ops: seq<Op>, name: string)
    decreases |ops|
  {
    ops == []
    || (!Frees(ops[0], name)
        && NeverFreed(Step(s, accepts, ops[0]), accepts, ops[1..], NameAfterStep(s, accepts, ops[0], name)))
  }

  /** Only the reasons matter. */
  lemma DisabledDependsOn(t: Tables, u: Tables, name: string)
    requires IsDisabled(t, name) && name in u.disabled && u.disabled[name] == t.disabled[name]
    ensures IsDisabled(u, name)
  {
  }

  lemma RenameKeepsDisabled(t: Tables, from: string, to: string, name: string)
    requires IsDisabled(t, name) && (name == to ==> from == to) && from != to
    ensures IsDisabled(RenameTables(t, from, to), if name == from then to else name)
  {
    hide RenamePrefix;
  }

  lemma RenamingKeepsDisabled(s: State, from: string, to: string, name: string)
    requires Valid(s) && IsDisabled(s.tables, name)
    ensures IsDisabled(Rename(s, from, to).0.tables, if from == name && Rename(s, from, to).1 == Ok then to else name)
  {
    DisabledIsNamed(s, name);
    hide Valid, IsDisabled, RenameTables, Named;
    if Rename(s, from, to).1 == Ok && from != to {
      RenameKeepsDisabled(s.tables, from, to, name);
    }
  }

  lemma DeletingKeepsDisabled(s: State, other: string, name: string)
    requires IsDisabled(s.tables, name) && other != name
    ensures IsDisabled(Remove(s, other).0.tables, name)
  {
    hide ForgetOnUpdate, Named;
  }

  lemma UpdatingKeepsDisabled(s: State, accepts: Handler -> bool, h: Handler, name: string)
    requires IsDisabled(s.tables, name)
    ensures IsDisabled(Update(s, accepts, h).0.tables, name)
  {
    DisabledOnUpdate(s.tables, h.name);
    hide ForgetOnUpdate, ByPriority, Named;
  }

  lemma DisablingKeepsDisabled(s: State, other: string, reason: string, name: string)
    requires IsDisabled(s.tables, name)
    ensures IsDisabled(Disable(s, other, reason).0.tables, name)
  {
    hide Named;
  }

  lemma EnablingKeepsDisabled(s: State, other: string, name: string)
    requires IsDisabled(s.tables, name) && other != name
    ensures IsDisabled(Enable(s, other).0.tables, name)
  {
    hide Named;
  }

  lemma StepKeepsDisabled(s: State, accepts: Handler -> bool, op: Op, name: string)
    requires Valid(s) && IsDisabled(s.tables, name) && !Frees(op, name)
    ensures IsDisabled(Step(s, accepts, op).tables, NameAfterStep(s, accepts, op, name))
  {
    hide Valid, IsDisabled, ByPriority, Named, Rename, Remove, Update, Disable, Enable, NextSequence, ForgetConn;
    match op
    case Updating(h) => UpdatingKeepsDisabled(s, accepts, h, name);
    case Deleting(other) => DeletingKeepsDisabled(s, other, name);
    case Renaming(from, to) => RenamingKeepsDisabled(s, from, to, name);
    case Enabling(other) => EnablingKeepsDisabled(s, other, name);
    case Disabling(other, reason) => DisablingKeepsDisabled(s, other, reason, name);
    case _ => OthersKeepDisabled(s, accepts, op, name);
  }

  lemma OthersKeepDisabled(s: State, accepts: Handler -> bool, op: Op, name: string)
    requires IsDisabled(s.tables, name) && !op.Replacing?
    requires !op.Updating? && !op.Deleting? && !op.Renaming? && !op.Enabling? && !op.Disabling?
    ensures IsDisabled(Step(s, accepts, op).tables, name)
  {
    hide ByPriority, Named, NextSequence, SequenceIndex, WithoutConn, WithoutSuffix, AcceptsAll;
    if op.Sequencing? {
      SequenceKeepsDisabled(s.tables, op.name, op.conn, op.count, op.loop, op.perClient);
    }
    DisabledDependsOn(s.tables, Step(s, accepts, op).tables, name);
  }

  lemma {:induction false} RunKeepsDisabled(s: State, accepts: Handler -> bool, ops: seq<Op>, name: string)
    requires Valid(s) && FreshBatches(s, accepts, ops)
    requires IsDisabled(s.tables, name) && NeverFreed(s, accepts, ops, name)
    ensures IsDisabled(Run(s, accepts, ops).tables, NameAfter(s, accepts, ops, name))
    ensures Named(Run(s, accepts, ops).handlers, NameAfter(s, accepts, ops, name))
    decreases |ops|
  {
    hide Step, FreshBatch, Named, IsDisabled, SortedDesc, UniqueNames, NameAfterStep;
    if ops != [] {
      StepKeepsValid(s, accepts, ops[0]);
      StepKeepsDisabled(s, accepts, ops[0], name);
      RunKeepsDisabled(Step(s, accepts, ops[0]), accepts, ops[1..], NameAfterStep(s, accepts, ops[0], name));
    } else {
      DisabledIsNamed(s, name);
    }
  }

  lemma DisabledIsNamed(s: State, name: string)
    requires Valid(s) && IsDisabled(s.tables, name)
    ensures Named(s.handlers, name)
  {
  }

  lemma {:induction false} MatchSkipsDisabled(s: State, o: Oracles, msg: Message, i: nat)
    requires i <= |s.handlers|
    ensures MatchFrom(s, o, msg, i).Results? ==>
              forall r | r in MatchFrom(s, o, msg, i).results :: !IsDisabled(s.tables, r.handler.name)
    decreases |s.handlers| - i
  {
    hide Eval, IsDisabled;
    if i < |s.handlers| {
      MatchSkipsDisabled(s, o, msg, i + 1);
    }
  }

  /** A disabled handler is never matched again, through any Update and Rename, until it is enabled,
      deleted or replaced. */
  lemma DisabledIsNeverMatched(s: State, accepts: Handler -> bool, ops: seq<Op>, name: string, o: Oracles,
                               msg: Message)
    requires Valid(s) && FreshBatches(s, accepts, ops)
    requires IsDisabled(s.tables, name) && NeverFreed(s, accepts, ops, name)
    ensures var found := MatchFrom(Run(s, accepts, ops), o, msg, 0);
            found.Results? ==>
              forall r | r in found.results :: r.handler.name != NameAfter(s, accepts, ops, name)
  {
    hide Run, Valid, FreshBatches, NeverFreed, MatchFrom, IsDisabled, NameAfter;
    RunKeepsDisabled(s, accepts, ops, name);
    MatchSkipsDisabled(Run(s, accepts, ops), o, msg, 0);
  }

  // ---- sequences ----

  /** The calls that share one index: those of a handler, or of a handler and a connection. */
  predicate SameSequence(op: Op, name: string, conn: string, perClient: bool) {
    op.Sequencing? && op.name == name && op.perClient == perClient && (perClient ==> op.conn == conn)
  }

  /** The operation leaves the index alone, if it is not a sequence call. Other connections may be
      closed. */
  predicate KeepsSequences(op: Op, name: string, conn: string, perClient: bool) {
    match op
    case Replacing(_) => false
    case Deleting(n) => n != name
    case Renaming(from, to) => from != name && to != name
    case Resetting(n) => n != name
    case Disconnecting(c) => perClient ==> c != conn
    case _ => true
  }

  /** What the sequence calls of one index return. */
  function Replies(s: State, accepts: Handler -> bool, ops: seq<Op>, name: string, conn: string, perClient: bool)
    : seq<nat>
    decreases |ops|
  {
    if ops == [] then []
    else
      var op := ops[0];
      (if SameSequence(op, name, conn, perClient)
       then [NextSequence(s.tables, name, op.conn, op.count, op.loop, perClient).1] else [])
      + Replies(Step(s, accepts, op), accepts, ops[1..], name, conn, perClient)
  }

  /** The index of the k-th call, counting from 0. */
  function Expected(k: nat, n: nat, loop: bool): nat
    requires n > 0
  {
    if loop then k % n else if k < n then k else n - 1
  }

  lemma ExpectedAdvances(k: nat, n: nat, loop: bool)
    requires n > 0
    ensures Expected(k, n, loop) < n
    ensures NextIndex(Expected(k, n, loop), n, loop) == Expected(k + 1, n, loop)
  {
    if loop {
      NextRemainder(k, n);
    }
  }

  lemma SequenceAdvances(t: Tables, name: string, conn: string, n: nat, loop: bool, perClient: bool, k: nat)
    requires n > 0 && SequenceIndex(t, name, conn, perClient) == Expected(k, n, loop)
    ensures NextSequence(t, name, conn, n, loop, perClient).1 == Expected(k, n, loop)
    ensures SequenceIndex(NextSequence(t, name, conn, n, loop, perClient).0, name, conn, perClient)
         == Expected(k + 1, n, loop)
  {
    hide Expected, NextIndex;
    ExpectedAdvances(k, n, loop);
    SmallRemainder(Expected(k, n, loop), n);
  }

  /** A table operation that keeps what is stored for the handler keeps the index. */
  lemma SameEntriesSameIndex(t: Tables, u: Tables, name: string, conn: string, perClient: bool)
    requires !perClient ==> Get(t.sequenceIndices, name, 0) == Get(u.sequenceIndices, name, 0)
    requires perClient ==>
               Get(Get(t.sequenceClientIndices, name, map[]), conn, 0)
               == Get(Get(u.sequenceClientIndices, name, map[]), conn, 0)
    ensures SequenceIndex(t, name, conn, perClient) == SequenceIndex(u, name, conn, perClient)
  {
  }

  lemma DeletingKeepsIndex(s: State, other: string, name: string, conn: string, perClient: bool)
    requires other != name
    ensures SequenceIndex(Remove(s, other).0.tables, name, conn, perClient)
         == SequenceIndex(s.tables, name, conn, perClient)
  {
    hide ForgetOnUpdate, Named, FirstNamed, SequenceIndex;
    SameEntriesSameIndex(Remove(s, other).0.tables, s.tables, name, conn, perClient);
  }

  lemma UpdatingKeepsIndex(s: State, accepts: Handler -> bool, h: Handler, name: string, conn: string, perClient: bool)
    ensures SequenceIndex(Update(s, accepts, h).0.tables, name, conn, perClient)
         == SequenceIndex(s.tables, name, conn, perClient)
  {
    hide Without, ByPriority, Named, FirstNamed, SequenceIndex;
    SameEntriesSameIndex(Update(s, accepts, h).0.tables, s.tables, name, conn, perClient);
  }

  lemma RenamingKeepsIndex(s: State, from: string, to: string, name: string, conn: string, perClient: bool)
    requires from != name && to != name
    ensures SequenceIndex(Rename(s, from, to).0.tables, name, conn, perClient)
         == SequenceIndex(s.tables, name, conn, perClient)
  {
    hide RenamePrefix, Named, LastNamed, SequenceIndex;
    SameEntriesSameIndex(Rename(s, from, to).0.tables, s.tables, name, conn, perClient);
  }

  lemma DisconnectingKeepsIndex(t: Tables, other: string, name: string, conn: string, perClient: bool)
    requires perClient ==> other != conn
    ensures SequenceIndex(ForgetConn(t, other), name, conn, perClient) == SequenceIndex(t, name, conn, perClient)
  {
    hide WithoutSuffix, SequenceIndex;
    SameEntriesSameIndex(ForgetConn(t, other), t, name, conn, perClient);
  }

  lemma OthersKeepIndex(s: State, accepts: Handler -> bool, op: Op, name: string, conn: string, perClient: bool)
    requires KeepsSequences(op, name, conn, perClient) && !SameSequence(op, name, conn, perClient)
    ensures SequenceIndex(Step(s, accepts, op).tables, name, conn, perClient)
         == SequenceIndex(s.tables, name, conn, perClient)
  {
    hide Update, Remove, Rename, NextSequence, ForgetConn, ByPriority, Named, AcceptsAll, SequenceIndex;
    match op
    case Updating(h) => UpdatingKeepsIndex(s, accepts, h, name, conn, perClient);
    case Deleting(other) => DeletingKeepsIndex(s, other, name, conn, perClient);
    case Renaming(from, to) => RenamingKeepsIndex(s, from, to, name, conn, perClient);
    case Disconnecting(other) => DisconnectingKeepsIndex(s.tables, other, name, conn, perClient);
    case Sequencing(other, conn', count, loop, perClient') =>
      OtherSequenceKeepsIndex(s.tables, other, conn', count, loop, perClient', name, conn, perClient);
    case _ =>
      SameEntriesSameIndex(Step(s, accepts, op).tables, s.tables, name, conn, perClient);
  }

  lemma OtherSequenceKeepsIndex(t: Tables, other: string, conn': string, count: int, loop: bool, perClient': bool,
                                name: string, conn: string, perClient: bool)
    requires !(other == name && perClient' == perClient && (perClient ==> conn' == conn))
    ensures SequenceIndex(NextSequence(t, other, conn', count, loop, perClient').0, name, conn, perClient)
         == SequenceIndex(t, name, conn, perClient)
  {
    hide NextIndex;
  }

  /** Closing a connection forgets its place in every per-client sequence and its throttle times. */
  lemma DisconnectForgets(t: Tables, conn: string, name: string)
    ensures SequenceIndex(ForgetConn(t, conn), name, conn, true) == 0
    ensures ThrottleTime(ForgetConn(t, conn), name, conn) == 0
  {
    var key := name + ":" + conn;
    assert key[|key| - |":" + conn|..] == ":" + conn;
  }

  /** It touches nothing of another connection, if connections have no colon in their names. */
  lemma DisconnectSparesOthers(t: Tables, conn: string, other: string, name: string, perClient: bool)
    requires other != conn && ':' !in conn && ':' !in other
    ensures SequenceIndex(ForgetConn(t, conn), name, other, perClient) == SequenceIndex(t, name, other, perClient)
    ensures ThrottleTime(ForgetConn(t, conn), name, other) == ThrottleTime(t, name, other)
  {
    NoCommonSuffix(name, other, conn);
  }

  /** A text without a colon behind the last colon of another decides how that one ends. */
  lemma NoCommonSuffix(name: string, other: string, conn: string)
    requires other != conn && ':' !in conn && ':' !in other
    ensures !HasSuffix(name + ":" + other, ":" + conn)
  {
    var key, suffix := name + ":" + other, ":" + conn;
    if |other| < |conn| && |conn| < |key| {
      var at := |conn| - |other|;
      assert key[|key| - |suffix|..][at] == ':' && suffix[at] == conn[at - 1] && conn[at - 1] in conn;
    } else if |other| > |conn| {
      var x := other[|other| - |conn| - 1];
      assert key[|key| - |suffix|..][0] == x && x in other;
    } else if |other| == |conn| {
      assert key[|key| - |suffix|..][1..] == other && suffix[1..] == conn;
    }
  }

  /** The replies are those of the k-th call and the following ones. */
  ghost predicate CountsOn(replies: seq<nat>, k: nat, n: nat, loop: bool)
    requires n > 0
  {
    forall x | 0 <= x < |replies| :: replies[x] == Expected(k + x, n, loop)
  }

  lemma NothingCounted(k: nat, n: nat, loop: bool)
    requires n > 0
    ensures CountsOn([], k, n, loop)
  {
  }

  lemma CountsOnFrom(rest: seq<nat>, k: nat, n: nat, loop: bool)
    requires n > 0 && CountsOn(rest, k + 1, n, loop)
    ensures CountsOn([Expected(k, n, loop)] + rest, k, n, loop)
  {
    hide Expected;
    var all := [Expected(k, n, loop)] + rest;
    forall x | 0 <= x < |all|
      ensures all[x] == Expected(k + x, n, loop)
    {
      if x > 0 {
        assert all[x] == rest[x - 1] == Expected(k + 1 + (x - 1), n, loop);
      }
    }
  }

  /** Under a fixed number n of responses the k-th call of a sequence returns k mod n when it
      loops and the smaller of k and n - 1 when not. Calls of other clients and handlers and all
      operations that keep the sequence may come in between. Calls of a shared sequence may come
      from any connection. */
  lemma {:induction false} SequenceReplies(s: State, accepts: Handler -> bool, ops: seq<Op>, name: string,
                                           conn: string, n: nat, loop: bool, perClient: bool, k: nat)
    requires n > 0 && SequenceIndex(s.tables, name, conn, perClient) == Expected(k, n, loop)
    requires forall i | 0 <= i < |ops| :: KeepsSequences(ops[i], name, conn, perClient)
    requires forall i | 0 <= i < |ops| && SameSequence(ops[i], name, conn, perClient) ::
               ops[i].count == n && ops[i].loop == loop
    ensures CountsOn(Replies(s, accepts, ops, name, conn, perClient), k, n, loop)
    decreases |ops|
  {
    hide Step, SequenceIndex, Expected, KeepsSequences, NextSequence, SameSequence, CountsOn;
    assert CountsOn([], k, n, loop) by {
      NothingCounted(k, n, loop);
    }
    if ops != [] {
      var op, next := ops[0], Step(s, accepts, ops[0]);
      if SameSequence(op, name, conn, perClient) {
        SharedIndex(s.tables, op, name, conn, perClient);
        SequenceAdvances(s.tables, name, op.conn, n, loop, perClient, k);
        StepOfCall(s, accepts, op, name, conn, perClient);
        SequenceReplies(next, accepts, ops[1..], name, conn, n, loop, perClient, k + 1);
        CountsOnFrom(Replies(next, accepts, ops[1..], name, conn, perClient), k, n, loop);
      } else {
        OthersKeepIndex(s, accepts, op, name, conn, perClient);
        SequenceReplies(next, accepts, ops[1..], name, conn, n, loop, perClient, k);
        var rest := Replies(next, accepts, ops[1..], name, conn, perClient);
        assert Replies(s, accepts, ops, name, conn, perClient) == [] + rest == rest;
      }
    }
  }

  lemma SharedIndex(t: Tables, op: Op, name: string, conn: string, perClient: bool)
    requires SameSequence(op, name, conn, perClient)
    ensures op.Sequencing?
    ensures SequenceIndex(t, name, op.conn, perClient) == SequenceIndex(t, name, conn, perClient)
  {
  }

  lemma StepOfCall(s: State, accepts: Handler -> bool, op: Op, name: string, conn: string, perClient: bool)
    requires SameSequence(op, name, conn, perClient)
    ensures op.Sequencing?
    ensures Step(s, accepts, op).tables == NextSequence(s.tables, name, op.conn, op.count, op.loop, perClient).0
    ensures SequenceIndex(Step(s, accepts, op).tables, name, op.conn, perClient)
         == SequenceIndex(Step(s, accepts, op).tables, name, conn, perClient)
  {
  }
}
