/** The handler registry (internal/handler/registry.go): a list of handlers sorted by priority and
    the tables that are kept per handler name, or per name with a suffix after a colon. */
module Registry {
  import opened Text
  import opened StableSort
  import opened Matchers

  datatype Handler = Handler(
    name: string, priority: int, exclusive: bool, rateLimit: string, debounce: string, matcher: Matcher)

  datatype Stats = Stats(matchCount: nat, totalLatency: int, errorCount: nat)

  const NO_STATS := Stats(0, 0, 0)

  /** Mutexes, limiters and debouncers are objects elsewhere; here they are their identities. */
  datatype Tables = Tables(
    handlerMu: map<string, nat>,
    limiters: map<string, nat>,
    debouncers: map<string, nat>,
    stats: map<string, Stats>,
    disabled: map<string, string>,                       // name to reason
    sequenceIndices: map<string, nat>,
    sequenceClientIndices: map<string, map<string, nat>>, // name to connection to index
    throttleTimestamps: map<string, int>,                // name:connection
    roundRobinIndices: map<string, nat>,                 // name:round-robin:pool
    sampleIndices: map<string, nat>)                     // name:command

  const NO_TABLES := Tables(map[], map[], map[], map[], map[], map[], map[], map[], map[], map[])

  datatype State = State(handlers: seq<Handler>, tables: Tables)

  datatype Outcome = Ok | Invalid | AlreadyExists | NotFound

  // ---- what the operations do, on values ----

  function Priority(): Handler -> int {
    (h: Handler) => h.priority
  }

  function ByPriority(hs: seq<Handler>): seq<Handler> {
    Sort(hs, Priority())
  }

  lemma ByPriorityIsStable(hs: seq<Handler>)
    ensures IsStableSort(ByPriority(hs), hs, Priority())
  {
    SortIsTheStableSort(hs, ByPriority(hs), Priority());
  }

  predicate Named(hs: seq<Handler>, name: string) {
    exists i | 0 <= i < |hs| :: hs[i].name == name
  }

  function FirstNamed(hs: seq<Handler>, name: string): (i: nat)
    requires Named(hs, name)
    ensures i < |hs| && hs[i].name == name && forall j | 0 <= j < i :: hs[j].name != name
  {
    if hs[0].name == name then 0 else
      assert exists i | 0 <= i < |hs[1..]| :: hs[1..][i].name == name by {
        var i :| 0 <= i < |hs| && hs[i].name == name;
        assert hs[1..][i - 1].name == name;
      }
      1 + FirstNamed(hs[1..], name)
  }

  function LastNamed(hs: seq<Handler>, name: string): (i: nat)
    requires Named(hs, name)
    ensures i < |hs| && hs[i].name == name && forall j | i < j < |hs| :: hs[j].name != name
  {
    if hs[|hs| - 1].name == name then |hs| - 1 else LastNamed(hs[..|hs| - 1], name)
  }

  /** The entries whose key does not start with the prefix. */
  function Without<V>(m: map<string, V>, prefix: string): map<string, V> {
    map k | k in m && !HasPrefix(k, prefix) :: m[k]
  }

  function RenameKey<V>(m: map<string, V>, from: string, to: string): map<string, V> {
    if from in m then m[to := m[from]] - {from} else m
  }

  predicate Owned(key: string, name: string) {
    HasPrefix(key, name + ":")
  }

  /** A key of one name with the other name in its place. */
  function Swapped(key: string, from: string, to: string): (r: string)
    requires Owned(key, from)
    ensures Owned(r, to)
  {
    to + ":" + key[|from| + 1..]
  }

  lemma SwappedBack(key: string, from: string, to: string)
    requires Owned(key, from)
    ensures Swapped(Swapped(key, from, to), to, from) == key
  {
  }

  lemma SwappedInjective(from: string, to: string)
    ensures forall x, y | Owned(x, from) && Owned(y, from) && Swapped(x, from, to) == Swapped(y, from, to) :: x == y
  {
    forall x, y | Owned(x, from) && Owned(y, from) && Swapped(x, from, to) == Swapped(y, from, to)
      ensures x == y
    {
      SwappedBack(x, from, to);
      SwappedBack(y, from, to);
    }
  }

  /** The entries of `moved` under the new name, laid over the others. */
  function Moved<V>(m: map<string, V>, moved: set<string>, from: string, to: string): map<string, V>
    requires forall k | k in moved :: k in m && Owned(k, from)
  {
    (m - moved) + Overlay(m, moved, from, to)
  }

  function Overlay<V>(m: map<string, V>, moved: set<string>, from: string, to: string): map<string, V>
    requires forall k | k in moved :: k in m && Owned(k, from)
  {
    SwappedInjective(from, to);
    map x | x in moved :: Swapped(x, from, to) := m[x]
  }

  function OwnedKeys<V>(m: map<string, V>, name: string): set<string> {
    set k | k in m && Owned(k, name)
  }

  function RenamePrefix<V>(m: map<string, V>, from: string, to: string): map<string, V> {
    Moved(m, OwnedKeys(m, from), from, to)
  }

  /** The loop body that moves an entry to the new name. */
  function Visit<V>(m: map<string, V>, k: string, from: string, to: string): map<string, V> {
    if k in m && Owned(k, from) then m[Swapped(k, from, to) := m[k]] - {k} else m
  }

  function VisitAll<V>(m: map<string, V>, visits: seq<string>, from: string, to: string): map<string, V> {
    if visits == [] then m
    else Visit(VisitAll(m, visits[..|visits| - 1], from, to), visits[|visits| - 1], from, to)
  }

  /** Go's iteration over a map comes by entries that are in the map at the time ... */
  ghost predicate Visitable<V>(m: map<string, V>, visits: seq<string>, from: string, to: string) {
    forall i | 0 <= i < |visits| :: visits[i] in VisitAll(m, visits[..i], from, to)
  }

  /** ... and by all that are in it from the start. Entries added meanwhile may be left out. */
  ghost predicate Iteration<V>(m: map<string, V>, visits: seq<string>, from: string, to: string) {
    Visitable(m, visits, from, to) && forall k | k in m :: k in visits
  }

  /** Some iteration makes r of m. */
  ghost predicate Migrates<V>(m: map<string, V>, r: map<string, V>, from: string, to: string) {
    exists visits :: Iteration(m, visits, from, to) && r == VisitAll(m, visits, from, to)
  }

  /** No entry belongs to the old name again once it is moved. */
  ghost predicate MovesOnce<V>(m: map<string, V>, from: string, to: string) {
    forall k | k in m && Owned(k, from) :: !Owned(Swapped(k, from, to), from)
  }

  /** Neither name followed by a colon starts with the other: no key belongs to both. Names
      without colons that differ are so. */
  predicate Separate(a: string, b: string) {
    !HasPrefix(a + ":", b + ":") && !HasPrefix(b + ":", a + ":")
  }

  function AddOne(s: State, accepts: Handler -> bool, h: Handler): (State, Outcome) {
    if !accepts(h) then (s, Invalid)
    else if Named(s.handlers, h.name) then (s, AlreadyExists)
    else (s.(handlers := ByPriority(s.handlers + [h])), Ok)
  }

  predicate AcceptsAll(accepts: Handler -> bool, hs: seq<Handler>) {
    forall i | 0 <= i < |hs| :: accepts(hs[i])
  }

  function AddBatch(s: State, accepts: Handler -> bool, hs: seq<Handler>): (State, Outcome) {
    if AcceptsAll(accepts, hs) then (s.(handlers := ByPriority(s.handlers + hs)), Ok) else (s, Invalid)
  }

  function Replace(s: State, accepts: Handler -> bool, hs: seq<Handler>): (State, Outcome) {
    if AcceptsAll(accepts, hs) then (State(ByPriority(hs), NO_TABLES), Ok) else (s, Invalid)
  }

  function ForgetOnUpdate(t: Tables, name: string): Tables {
    t.(handlerMu := t.handlerMu - {name}, limiters := t.limiters - {name}, debouncers := t.debouncers - {name},
       throttleTimestamps := Without(t.throttleTimestamps, name + ":"),
       roundRobinIndices := Without(t.roundRobinIndices, name + ":"),
       sampleIndices := Without(t.sampleIndices, name + ":"))
  }

  function Update(s: State, accepts: Handler -> bool, h: Handler): (State, Outcome) {
    if !Named(s.handlers, h.name) then (s, NotFound)
    else if !accepts(h) then (s, Invalid)
    else
      (State(ByPriority(s.handlers[FirstNamed(s.handlers, h.name) := h]), ForgetOnUpdate(s.tables, h.name)), Ok)
  }

  /** The statistics of a deleted handler stay. */
  function ForgetOnDelete(t: Tables, name: string): Tables {
    ForgetOnUpdate(t, name).(
      sequenceIndices := t.sequenceIndices - {name},
      sequenceClientIndices := t.sequenceClientIndices - {name},
      disabled := t.disabled - {name})
  }

  function Remove(s: State, name: string): (State, Outcome) {
    if !Named(s.handlers, name) then (s, NotFound)
    else
      var i := FirstNamed(s.handlers, name);
      (State(s.handlers[..i] + s.handlers[i + 1..], ForgetOnDelete(s.tables, name)), Ok)
  }

  function RenameTables(t: Tables, from: string, to: string): Tables {
    Tables(RenameKey(t.handlerMu, from, to), RenameKey(t.limiters, from, to), RenameKey(t.debouncers, from, to),
           RenameKey(t.stats, from, to), RenameKey(t.disabled, from, to),
           RenameKey(t.sequenceIndices, from, to), RenameKey(t.sequenceClientIndices, from, to),
           RenamePrefix(t.throttleTimestamps, from, to), RenamePrefix(t.roundRobinIndices, from, to),
           RenamePrefix(t.sampleIndices, from, to))
  }

  /** What RenameHandler may make of the tables, depending on the order of the iterations. */
  ghost predicate TablesMigrate(t: Tables, u: Tables, from: string, to: string) {
    && u.handlerMu == RenameKey(t.handlerMu, from, to) && u.limiters == RenameKey(t.limiters, from, to)
    && u.debouncers == RenameKey(t.debouncers, from, to) && u.stats == RenameKey(t.stats, from, to)
    && u.disabled == RenameKey(t.disabled, from, to)
    && u.sequenceIndices == RenameKey(t.sequenceIndices, from, to)
    && u.sequenceClientIndices == RenameKey(t.sequenceClientIndices, from, to)
    && Migrates(t.throttleTimestamps, u.throttleTimestamps, from, to)
    && Migrates(t.roundRobinIndices, u.roundRobinIndices, from, to)
    && Migrates(t.sampleIndices, u.sampleIndices, from, to)
  }

  ghost predicate TablesMoveOnce(t: Tables, from: string, to: string) {
    && MovesOnce(t.throttleTimestamps, from, to) && MovesOnce(t.roundRobinIndices, from, to)
    && MovesOnce(t.sampleIndices, from, to)
  }

  function Rename(s: State, from: string, to: string): (State, Outcome) {
    if from == to then (s, Ok)
    else if Named(s.handlers, to) then (s, AlreadyExists)
    else if !Named(s.handlers, from) then (s, NotFound)
    else
      var i := LastNamed(s.handlers, from);
      (State(s.handlers[i := s.handlers[i].(name := to)], RenameTables(s.tables, from, to)), Ok)
  }

  function Enable(s: State, name: string): (State, Outcome) {
    if !Named(s.handlers, name) then (s, NotFound)
    else (s.(tables := s.tables.(disabled := s.tables.disabled - {name})), Ok)
  }

  function Disable(s: State, name: string, reason: string): (State, Outcome) {
    if !Named(s.handlers, name) then (s, NotFound)
    else
      (s.(tables := s.tables.(disabled := s.tables.disabled[name := if reason == "" then "user" else reason])), Ok)
  }

  /** The entries whose key does not end with the suffix. */
  function WithoutSuffix<V>(m: map<string, V>, suffix: string): map<string, V> {
    map k | k in m && !HasSuffix(k, suffix) :: m[k]
  }

  function WithoutConn(m: map<string, map<string, nat>>, conn: string): map<string, map<string, nat>> {
    map name | name in m :: m[name] - {conn}
  }

  /** What goes when a connection is closed. */
  function ForgetConn(t: Tables, conn: string): Tables {
    t.(sequenceClientIndices := WithoutConn(t.sequenceClientIndices, conn),
       throttleTimestamps := WithoutSuffix(t.throttleTimestamps, ":" + conn),
       debouncers := WithoutSuffix(t.debouncers, ":" + conn))
  }

  function Get<K, V>(m: map<K, V>, k: K, otherwise: V): V {
    if k in m then m[k] else otherwise
  }

  /** The index a sequence stands at. */
  function SequenceIndex(t: Tables, name: string, conn: string, perClient: bool): nat {
    if perClient then Get(Get(t.sequenceClientIndices, name, map[]), conn, 0) else Get(t.sequenceIndices, name, 0)
  }

  function NextIndex(current: nat, count: nat, loop: bool): nat
    requires count > 0
  {
    if !loop && current + 1 >= count then count - 1 else (current + 1) % count
  }

  function NextSequence(t: Tables, name: string, conn: string, count: int, loop: bool, perClient: bool): (Tables, nat) {
    if count <= 0 then (t, 0)
    else
      var current := SequenceIndex(t, name, conn, perClient);
      var next := NextIndex(current, count, loop);
      (if perClient then
         t.(sequenceClientIndices :=
              t.sequenceClientIndices[name := Get(t.sequenceClientIndices, name, map[])[conn := next]])
       else t.(sequenceIndices := t.sequenceIndices[name := next]),
       current % count)
  }

  /** The entries of a handler for a connection, a pool and a sampling command. */
  function ThrottleTime(t: Tables, name: string, conn: string): int {
    Get(t.throttleTimestamps, name + ":" + conn, 0)
  }

  function RoundRobinKey(name: string, pool: string): string {
    name + ":" + ("round-robin:" + pool)
  }

  function RoundRobinIndex(t: Tables, key: string, count: int): nat {
    if count <= 0 then 0 else Get(t.roundRobinIndices, key, 0) % count
  }

  function SampleCount(t: Tables, name: string, command: string): nat {
    Get(t.sampleIndices, name + ":" + command, 0)
  }

  // ---- Match ----

  datatype MatchResult = MatchResult(handler: Handler, captures: seq<string>)

  datatype Matches = MatchError(error: string) | Results(results: seq<MatchResult>)

  predicate IsDisabled(t: Tables, name: string) {
    Get(t.disabled, name, "") != ""
  }

  /** The results from handler i on. */
  function MatchFrom(s: State, o: Oracles, msg: Message, i: nat): Matches
    requires i <= |s.handlers|
    decreases |s.handlers| - i
  {
    if i == |s.handlers| then Results([])
    else
      var h := s.handlers[i];
      if IsDisabled(s.tables, h.name) then MatchFrom(s, o, msg, i + 1)
      else
        match Eval(o, h.matcher, msg)
        case Error(e) => MatchError(e)
        case Verdict(matched, captures) =>
          if !matched then MatchFrom(s, o, msg, i + 1)
          else if h.exclusive then Results([MatchResult(h, captures)])
          else Ahead(MatchResult(h, captures), MatchFrom(s, o, msg, i + 1))
  }

  function Ahead(r: MatchResult, rest: Matches): Matches {
    if rest.MatchError? then rest else Results([r] + rest.results)
  }

  /** The handlers whose match is counted, also when a later matcher fails. */
  function Hits(s: State, o: Oracles, msg: Message, i: nat): seq<string>
    requires i <= |s.handlers|
    decreases |s.handlers| - i
  {
    if i == |s.handlers| then []
    else
      var h := s.handlers[i];
      if IsDisabled(s.tables, h.name) then Hits(s, o, msg, i + 1)
      else
        match Eval(o, h.matcher, msg)
        case Error(_) => []
        case Verdict(matched, _) =>
          if !matched then Hits(s, o, msg, i + 1)
          else if h.exclusive then [h.name]
          else [h.name] + Hits(s, o, msg, i + 1)
  }

  function Counted(s: Stats): Stats {
    s.(matchCount := s.matchCount + 1)
  }

  function CountHit(stats: map<string, Stats>, name: string): map<string, Stats> {
    stats[name := Counted(Get(stats, name, NO_STATS))]
  }

  function CountHits(stats: map<string, Stats>, names: seq<string>): map<string, Stats>
    decreases |names|
  {
    if names == [] then stats else CountHits(CountHit(stats, names[0]), names[1..])
  }

  // ---- the registry itself ----

  class Registry {
    var handlers: seq<Handler>
    var handlerMu: map<string, nat>
    var limiters: map<string, nat>
    var debouncers: map<string, nat>
    var stats: map<string, Stats>
    var disabled: map<string, string>
    var sequenceIndices: map<string, nat>
    var sequenceClientIndices: map<string, map<string, nat>>
    var throttleTimestamps: map<string, int>
    var roundRobinIndices: map<string, nat>
    var sampleIndices: map<string, nat>
    const accepts: Handler -> bool  // Config.Validate for one handler in the mode of the registry

    ghost function Tabs(): Tables
      reads this
    {
      Tables(handlerMu, limiters, debouncers, stats, disabled, sequenceIndices, sequenceClientIndices,
             throttleTimestamps, roundRobinIndices, sampleIndices)
    }

    ghost function View(): State
      reads this
    {
      State(handlers, Tabs())
    }

    constructor (accepts: Handler -> bool)
      ensures View() == State([], NO_TABLES) && this.accepts == accepts
    {
      this.accepts := accepts;
      handlers, handlerMu, limiters, debouncers, stats, disabled := [], map[], map[], map[], map[], map[];
      sequenceIndices, sequenceClientIndices := map[], map[];
      throttleTimestamps, roundRobinIndices, sampleIndices := map[], map[], map[];
    }

    method Add(h: Handler) returns (out: Outcome)
      modifies `handlers
      ensures (View(), out) == AddOne(old(View()), accepts, h)
      ensures out == Ok ==> IsStableSort(handlers, old(handlers) + [h], Priority())
    {
      ByPriorityIsStable(handlers + [h]);
      hide IsStableSort, ByPriority;
      if !accepts(h) {
        return Invalid;
      }
      var i := 0;
      while i < |handlers|
        invariant 0 <= i <= |handlers| && handlers == old(handlers)
        invariant forall j | 0 <= j < i :: handlers[j].name != h.name
      {
        if handlers[i].name == h.name {
          return AlreadyExists;
        }
        i := i + 1;
      }
      handlers := ByPriority(handlers + [h]);
      return Ok;
    }

    method ValidateAll(hs: seq<Handler>) returns (valid: bool)
      ensures valid == AcceptsAll(accepts, hs)
    {
      for i := 0 to |hs|
        invariant forall j | 0 <= j < i :: accepts(hs[j])
      {
        if !accepts(hs[i]) {
          return false;
        }
      }
      return true;
    }

    method AddHandlers(hs: seq<Handler>) returns (out: Outcome)
      modifies `handlers
      ensures (View(), out) == AddBatch(old(View()), accepts, hs)
      ensures out == Ok ==> IsStableSort(handlers, old(handlers) + hs, Priority())
    {
      ByPriorityIsStable(handlers + hs);
      hide IsStableSort, ByPriority;
      var valid := ValidateAll(hs);
      if !valid {
        return Invalid;
      }
      handlers := ByPriority(handlers + hs);
      return Ok;
    }

    method ReplaceHandlers(hs: seq<Handler>) returns (out: Outcome)
      modifies this
      ensures (View(), out) == Replace(old(View()), accepts, hs)
      ensures out == Ok ==> IsStableSort(handlers, hs, Priority())
    {
      ByPriorityIsStable(hs);
      hide IsStableSort, ByPriority, AcceptsAll;
      var valid := ValidateAll(hs);
      if !valid {
        return Invalid;
      }
      ClearTables();
      handlers := ByPriority(hs);
      return Ok;
    }

    method ClearTables()
      modifies this
      ensures Tabs() == NO_TABLES && handlers == old(handlers)
    {
      handlerMu, limiters, debouncers, stats, disabled := map[], map[], map[], map[], map[];
      sequenceIndices, sequenceClientIndices := map[], map[];
      throttleTimestamps, roundRobinIndices, sampleIndices := map[], map[], map[];
    }

    /** The loops that look for a handler by name. */
    method Find(name: string) returns (index: int)
      ensures -1 <= index < |handlers|
      ensures index == -1 ==> !Named(handlers, name)
      ensures index >= 0 ==> Named(handlers, name) && index == FirstNamed(handlers, name)
    {
      var i := 0;
      while i < |handlers|
        invariant 0 <= i <= |handlers|
        invariant forall j | 0 <= j < i :: handlers[j].name != name
      {
        if handlers[i].name == name {
          return i;
        }
        i := i + 1;
      }
      return -1;
    }

    /** What Update and Delete drop: the objects made for the handler and the entries of its name
        with suffixes. */
    method Forget(name: string)
      modifies `handlerMu, `limiters, `debouncers, `throttleTimestamps, `roundRobinIndices, `sampleIndices
      ensures Tabs() == ForgetOnUpdate(old(Tabs()), name)
    {
      hide Without;
      ForgetPrefixed(name);
      handlerMu := handlerMu - {name};
      limiters := limiters - {name};
      debouncers := debouncers - {name};
    }

    method ForgetPrefixed(name: string)
      modifies `throttleTimestamps, `roundRobinIndices, `sampleIndices
      ensures throttleTimestamps == Without(old(throttleTimestamps), name + ":")
      ensures roundRobinIndices == Without(old(roundRobinIndices), name + ":")
      ensures sampleIndices == Without(old(sampleIndices), name + ":")
    {
      hide Without;
      throttleTimestamps := DeletePrefixed(throttleTimestamps, name + ":");
      roundRobinIndices := DeletePrefixed(roundRobinIndices, name + ":");
      sampleIndices := DeletePrefixed(sampleIndices, name + ":");
    }

    method UpdateHandler(h: Handler) returns (out: Outcome)
      modifies this
      ensures (View(), out) == Update(old(View()), accepts, h)
    {
      hide Without, ByPriority, Named, FirstNamed, ForgetOnUpdate;
      var index := Find(h.name);
      if index == -1 {
        return NotFound;
      }
      if !accepts(h) {
        return Invalid;
      }
      Forget(h.name);
      handlers := ByPriority(handlers[index := h]);
      return Ok;
    }

    method Delete(name: string) returns (out: Outcome)
      modifies this
      ensures (View(), out) == Remove(old(View()), name)
    {
      hide Without, Named, FirstNamed, ForgetOnUpdate;
      var index := Find(name);
      if index == -1 {
        return NotFound;
      }
      handlers := handlers[..index] + handlers[index + 1..];
      Forget(name);
      sequenceIndices := sequenceIndices - {name};
      sequenceClientIndices := sequenceClientIndices - {name};
      disabled := disabled - {name};
      return Ok;
    }

    /** The order in which the maps are iterated matters only for names that share keys. */
    method RenameHandler(oldName: string, newName: string) returns (out: Outcome)
      modifies this
      ensures out == Rename(old(View()), oldName, newName).1
      ensures handlers == Rename(old(View()), oldName, newName).0.handlers
      ensures if out == Ok && oldName != newName then TablesMigrate(old(Tabs()), Tabs(), oldName, newName)
              else Tabs() == old(Tabs())
      ensures TablesMoveOnce(old(Tabs()), oldName, newName) ==> View() == Rename(old(View()), oldName, newName).0
    {
      hide RenamePrefix, Named, LastNamed, Migrates, TablesMoveOnce, RenameKey, RenameTables;
      if oldName == newName {
        return Ok;
      }
      var found, index := FindForRename(oldName, newName);
      if found != Ok {
        return found;
      }
      handlers := handlers[index := handlers[index].(name := newName)];
      MigrateNames(oldName, newName);
      throttleTimestamps := MigratePrefixed(throttleTimestamps, oldName, newName);
      roundRobinIndices := MigratePrefixed(roundRobinIndices, oldName, newName);
      sampleIndices := MigratePrefixed(sampleIndices, oldName, newName);
      if TablesMoveOnce(old(Tabs()), oldName, newName) {
        MigratedTables(old(Tabs()), Tabs(), oldName, newName);
      }
      return Ok;
    }

    /** The first loop of RenameHandler. */
    method FindForRename(oldName: string, newName: string) returns (found: Outcome, index: nat)
      ensures found == if Named(handlers, newName) then AlreadyExists
                       else if Named(handlers, oldName) then Ok else NotFound
      ensures found == Ok ==> index < |handlers| && index == LastNamed(handlers, oldName)
    {
      var at := -1;
      var i := 0;
      while i < |handlers|
        invariant 0 <= i <= |handlers|
        invariant -1 <= at < i
        invariant forall j | 0 <= j < i :: handlers[j].name != newName
        invariant at >= 0 ==> handlers[at].name == oldName
        invariant forall j | at < j < i :: handlers[j].name != oldName
      {
        if handlers[i].name == oldName {
          at := i;
        }
        if handlers[i].name == newName {
          return AlreadyExists, 0;
        }
        i := i + 1;
      }
      if at == -1 {
        return NotFound, 0;
      }
      return Ok, at;
    }

    method MigrateNames(oldName: string, newName: string)
      modifies `handlerMu, `limiters, `debouncers, `stats, `disabled, `sequenceIndices, `sequenceClientIndices
      ensures handlerMu == RenameKey(old(handlerMu), oldName, newName)
      ensures limiters == RenameKey(old(limiters), oldName, newName)
      ensures debouncers == RenameKey(old(debouncers), oldName, newName)
      ensures stats == RenameKey(old(stats), oldName, newName)
      ensures disabled == RenameKey(old(disabled), oldName, newName)
      ensures sequenceIndices == RenameKey(old(sequenceIndices), oldName, newName)
      ensures sequenceClientIndices == RenameKey(old(sequenceClientIndices), oldName, newName)
    {
      handlerMu := MigrateKey(handlerMu, oldName, newName);
      limiters := MigrateKey(limiters, oldName, newName);
      debouncers := MigrateKey(debouncers, oldName, newName);
      stats := MigrateKey(stats, oldName, newName);
      disabled := MigrateKey(disabled, oldName, newName);
      sequenceIndices := MigrateKey(sequenceIndices, oldName, newName);
      sequenceClientIndices := MigrateKey(sequenceClientIndices, oldName, newName);
    }

    method EnableHandler(name: string) returns (out: Outcome)
      modifies `disabled
      ensures (View(), out) == Enable(old(View()), name)
    {
      var index := Find(name);
      if index == -1 {
        return NotFound;
      }
      disabled := disabled - {name};
      return Ok;
    }

    /** DisableHandler is this with the reason "user". */
    method DisableHandlerWithReason(name: string, reason: string) returns (out: Outcome)
      modifies `disabled
      ensures (View(), out) == Disable(old(View()), name, reason)
    {
      var index := Find(name);
      if index == -1 {
        return NotFound;
      }
      var why := reason;
      if reason == "" {
        why := "user";
      }
      disabled := disabled[name := why];
      return Ok;
    }

    method GetNextSequenceIndex(handlerName: string, connID: string, count: int, loop: bool, perClient: bool)
      returns (idx: nat)
      modifies `sequenceIndices, `sequenceClientIndices
      ensures (Tabs(), idx) == NextSequence(old(Tabs()), handlerName, connID, count, loop, perClient)
      ensures handlers == old(handlers)
    {
      if count <= 0 {
        return 0;
      }
      var current := 0;
      if perClient {
        if handlerName !in sequenceClientIndices {
          sequenceClientIndices := sequenceClientIndices[handlerName := map[]];
        }
        current := Get(sequenceClientIndices[handlerName], connID, 0);
      } else {
        current := Get(sequenceIndices, handlerName, 0);
      }
      idx := current % count;
      var next: nat := current + 1;
      if !loop && next >= count {
        next := count - 1;
      } else {
        next := next % count;
      }
      if perClient {
        var perConn: map<string, nat> := sequenceClientIndices[handlerName];
        sequenceClientIndices :=
          sequenceClientIndices[handlerName := perConn[connID := next]];
      } else {
        sequenceIndices := sequenceIndices[handlerName := next];
      }
      ghost var was: map<string, nat> := Get(old(sequenceClientIndices), handlerName, map[]);
      assert perClient ==> sequenceClientIndices == old(sequenceClientIndices)[handlerName := was[connID := next]];
    }

    method ResetSequence(name: string)
      modifies `sequenceIndices, `sequenceClientIndices
      ensures Tabs() == old(Tabs()).(sequenceIndices := old(sequenceIndices) - {name},
                                     sequenceClientIndices := old(sequenceClientIndices) - {name})
    {
      sequenceIndices := sequenceIndices - {name};
      sequenceClientIndices := sequenceClientIndices - {name};
    }

    method ClearConnResources(connID: string)
      modifies `sequenceClientIndices, `throttleTimestamps, `debouncers
      ensures Tabs() == ForgetConn(old(Tabs()), connID)
    {
      hide WithoutSuffix;
      ClearConnSequences(connID);
      throttleTimestamps := DeleteSuffixed(throttleTimestamps, ":" + connID);
      debouncers := DeleteSuffixed(debouncers, ":" + connID);
    }

    method ClearConnSequences(connID: string)
      modifies `sequenceClientIndices
      ensures sequenceClientIndices == WithoutConn(old(sequenceClientIndices), connID)
    {
      ghost var was := sequenceClientIndices;
      var todo := sequenceClientIndices.Keys;
      while todo != {}
        invariant todo <= was.Keys
        invariant sequenceClientIndices
               == map name | name in was :: if name in todo then was[name] else was[name] - {connID}
        decreases |todo|
      {
        var hName :| hName in todo;
        todo := todo - {hName};
        sequenceClientIndices := sequenceClientIndices[hName := sequenceClientIndices[hName] - {connID}];
      }
    }

    method GetLastThrottleBroadcast(handlerName: string, connID: string) returns (t: int)
      ensures t == ThrottleTime(Tabs(), handlerName, connID)
    {
      t := Get(throttleTimestamps, handlerName + ":" + connID, 0);
    }

    method SetLastThrottleBroadcast(handlerName: string, connID: string, t: int)
      modifies `throttleTimestamps
      ensures throttleTimestamps == old(throttleTimestamps)[handlerName + ":" + connID := t]
    {
      throttleTimestamps := throttleTimestamps[handlerName + ":" + connID := t];
    }

    method GetRoundRobinIndex(key: string, count: int) returns (idx: nat)
      ensures idx == RoundRobinIndex(Tabs(), key, count)
    {
      if count <= 0 {
        return 0;
      }
      return Get(roundRobinIndices, key, 0) % count;
    }

    method SetRoundRobinIndex(key: string, idx: nat)
      modifies `roundRobinIndices
      ensures roundRobinIndices == old(roundRobinIndices)[key := idx]
    {
      roundRobinIndices := roundRobinIndices[key := idx];
    }

    method GetNextSampleCount(key: string) returns (count: nat)
      modifies `sampleIndices
      ensures count == Get(old(sampleIndices), key, 0) + 1 && sampleIndices == old(sampleIndices)[key := count]
    {
      count := Get(sampleIndices, key, 0) + 1;
      sampleIndices := sampleIndices[key := count];
    }

    method RecordMatch(name: string)
      modifies `stats
      ensures stats == CountHit(old(stats), name)
    {
      if name !in stats {
        stats := stats[name := NO_STATS];
      }
      stats := stats[name := stats[name].(matchCount := stats[name].matchCount + 1)];
      assert stats == CountHit(old(stats), name);
    }

    method Match(o: Oracles, msg: Message) returns (r: Matches)
      modifies `stats
      ensures r == MatchFrom(old(View()), o, msg, 0)
      ensures stats == CountHits(old(stats), Hits(old(View()), o, msg, 0))
    {
      hide CountHit, Eval;
      var results: seq<MatchResult> := [];
      var i := 0;
      while i < |handlers|
        invariant 0 <= i <= |handlers|
        invariant MatchFrom(old(View()), o, msg, 0) == All(results, MatchFrom(old(View()), o, msg, i))
        invariant CountHits(stats, Hits(old(View()), o, msg, i))
               == CountHits(old(stats), Hits(old(View()), o, msg, 0))
      {
        var h := handlers[i];
        if Get(disabled, h.name, "") != "" {
          i := i + 1;
          continue;
        }
        var verdict := Eval(o, h.matcher, msg);
        if verdict.Error? {
          return MatchError(verdict.error);
        }
        if verdict.matched {
          AllAhead(results, MatchResult(h, verdict.captures), MatchFrom(old(View()), o, msg, i + 1));
          results := results + [MatchResult(h, verdict.captures)];
          CountFirst(stats, h.name, Hits(old(View()), o, msg, i + 1));
          RecordMatch(h.name);
          if h.exclusive {
            return Results(results);
          }
        }
        i := i + 1;
      }
      return Results(results);
    }
  }

  lemma CountFirst(stats: map<string, Stats>, name: string, rest: seq<string>)
    ensures CountHits(stats, [name] + rest) == CountHits(CountHit(stats, name), rest)
    ensures CountHits(stats, [name]) == CountHit(stats, name)
  {
    assert ([name] + rest)[1..] == rest && [name][1..] == [];
  }

  ghost function All(first: seq<MatchResult>, rest: Matches): Matches {
    if rest.MatchError? then rest else Results(first + rest.results)
  }

  lemma AllAhead(first: seq<MatchResult>, r: MatchResult, rest: Matches)
    ensures All(first, Ahead(r, rest)) == All(first + [r], rest)
  {
  }

  /** The loops that drop the entries of a name with its suffixes. */
  method DeletePrefixed<V>(m: map<string, V>, prefix: string) returns (r: map<string, V>)
    ensures r == Without(m, prefix)
  {
    r := m;
    var todo := m.Keys;
    while todo != {}
      invariant todo <= m.Keys
      invariant r == map k | k in m && (k in todo || !HasPrefix(k, prefix)) :: m[k]
      decreases |todo|
    {
      var k :| k in todo;
      todo := todo - {k};
      if HasPrefix(k, prefix) {
        r := r - {k};
      }
    }
  }

  /** The loops that drop the entries of a connection. */
  method DeleteSuffixed<V>(m: map<string, V>, suffix: string) returns (r: map<string, V>)
    ensures r == WithoutSuffix(m, suffix)
  {
    r := m;
    var todo := m.Keys;
    while todo != {}
      invariant todo <= m.Keys
      invariant r == map k | k in m && (k in todo || !HasSuffix(k, suffix)) :: m[k]
      decreases |todo|
    {
      var k :| k in todo;
      todo := todo - {k};
      if HasSuffix(k, suffix) {
        r := r - {k};
      }
    }
  }

  method MigrateKey<V>(m: map<string, V>, from: string, to: string) returns (r: map<string, V>)
    ensures r == RenameKey(m, from, to)
  {
    r := m;
    if from in r {
      r := r[to := r[from]];
      r := r - {from};
    }
  }

  /** The loops that move the entries of a name with its suffixes. An iteration may or may not come
      by an entry that it has added; it does so finitely often. */
  method MigratePrefixed<V>(m: map<string, V>, from: string, to: string) returns (r: map<string, V>)
    requires from != to
    ensures Migrates(m, r, from, to)
  {
    r := m;
    var todo := m.Keys;
    var again: nat := *;
    ghost var visits: seq<string> := [];
    while todo != {}
      invariant todo <= r.Keys && r == VisitAll(m, visits, from, to)
      invariant Visitable(m, visits, from, to)
      invariant forall k | k in m :: k in todo || k in visits
      decreases again, |todo|
    {
      var k :| k in todo;
      todo := todo - {k};
      VisitNext(m, visits, k, from, to);
      visits := visits + [k];
      if HasPrefix(k, from + ":") {
        var newKey := Swapped(k, from, to);
        SwappedDiffers(k, from, to);
        r := r[newKey := r[k]];
        r := r - {k};
        var comesBy: bool := *;
        if comesBy && again > 0 {
          todo := todo + {newKey};
          again := again - 1;
        }
      }
    }
    assert Iteration(m, visits, from, to);
  }

  lemma SwappedDiffers(k: string, from: string, to: string)
    requires Owned(k, from) && from != to
    ensures Swapped(k, from, to) != k
  {
    var k' := Swapped(k, from, to);
    assert k[..|from|] == from && k'[..|to|] == to;
    assert |k'| == |k| + |to| - |from|;
  }

  lemma VisitNext<V>(m: map<string, V>, visits: seq<string>, k: string, from: string, to: string)
    requires Visitable(m, visits, from, to) && k in VisitAll(m, visits, from, to)
    ensures Visitable(m, visits + [k], from, to)
    ensures VisitAll(m, visits + [k], from, to) == Visit(VisitAll(m, visits, from, to), k, from, to)
  {
    var longer := visits + [k];
    assert longer[..|visits|] == visits;
    assert forall i | 0 <= i < |visits| :: longer[..i] == visits[..i];
    hide VisitAll;
    forall i | 0 <= i < |longer|
      ensures longer[i] in VisitAll(m, longer[..i], from, to)
    {
      assert i < |visits| ==> longer[i] == visits[i] && longer[..i] == visits[..i];
    }
  }

  // ---- what the iterations come to ----

  function Moving<V>(m: map<string, V>, visits: seq<string>, from: string): set<string> {
    set k | k in OwnedKeys(m, from) && k in visits
  }

  /** Where entries move once, what is moved are the original entries. */
  lemma {:induction false} VisitsMove<V>(m: map<string, V>, visits: seq<string>, from: string, to: string)
    requires from != to && MovesOnce(m, from, to) && Visitable(m, visits, from, to)
    ensures VisitAll(m, visits, from, to) == Moved(m, Moving(m, visits, from), from, to)
  {
    if visits == [] {
      assert Moving(m, visits, from) == {};
      MoveNone(m, from, to);
    } else {
      hide *;
      var front, k := visits[..|visits| - 1], visits[|visits| - 1];
      assert visits == front + [k];
      VisitableFront(m, visits, from, to);
      LastVisit(m, visits, from, to);
      MovingNext(m, front, k, from);
      VisitsMove(m, front, from, to);
      VisitMoves(m, Moving(m, front, from), k, from, to);
    }
  }

  lemma LastVisit<V>(m: map<string, V>, visits: seq<string>, from: string, to: string)
    requires visits != []
    ensures VisitAll(m, visits, from, to)
         == Visit(VisitAll(m, visits[..|visits| - 1], from, to), visits[|visits| - 1], from, to)
  {
    hide Visit;
  }

  lemma VisitableFront<V>(m: map<string, V>, visits: seq<string>, from: string, to: string)
    requires visits != [] && Visitable(m, visits, from, to)
    ensures Visitable(m, visits[..|visits| - 1], from, to)
    ensures visits[|visits| - 1] in VisitAll(m, visits[..|visits| - 1], from, to)
  {
    hide VisitAll;
    var front := visits[..|visits| - 1];
    forall i | 0 <= i < |front|
      ensures front[i] in VisitAll(m, front[..i], from, to)
    {
      assert front[i] == visits[i] && front[..i] == visits[..i];
    }
  }

  lemma MovingNext<V>(m: map<string, V>, front: seq<string>, k: string, from: string)
    ensures Moving(m, front + [k], from) == Moving(m, front, from) + if k in m && Owned(k, from) then {k} else {}
    ensures forall x | x in Moving(m, front, from) :: x in m && Owned(x, from)
  {
    hide Owned;
  }

  lemma VisitMoves<V>(m: map<string, V>, done: set<string>, k: string, from: string, to: string)
    requires from != to && MovesOnce(m, from, to) && forall x | x in done :: x in m && Owned(x, from)
    requires k in Moved(m, done, from, to)
    ensures Visit(Moved(m, done, from, to), k, from, to)
         == Moved(m, done + if k in m && Owned(k, from) then {k} else {}, from, to)
  {
    if Owned(k, from) {
      NotMovedAgain(m, done, k, from, to);
      MoveOne(m, done, k, from, to);
    } else {
      assert done + {} == done;
    }
  }

  lemma NotMovedAgain<V>(m: map<string, V>, done: set<string>, k: string, from: string, to: string)
    requires MovesOnce(m, from, to) && Owned(k, from) && forall x | x in done :: x in m && Owned(x, from)
    requires k in Moved(m, done, from, to)
    ensures k in m && k !in done
  {
    hide Swapped, Owned;
  }

  lemma MigratedOnce<V>(m: map<string, V>, r: map<string, V>, from: string, to: string)
    requires from != to && MovesOnce(m, from, to) && Migrates(m, r, from, to)
    ensures r == RenamePrefix(m, from, to)
  {
    var visits :| Iteration(m, visits, from, to) && r == VisitAll(m, visits, from, to);
    VisitsMove(m, visits, from, to);
    assert Moving(m, visits, from) == OwnedKeys(m, from);
  }

  lemma MigratedTables(t: Tables, u: Tables, from: string, to: string)
    requires from != to && TablesMoveOnce(t, from, to) && TablesMigrate(t, u, from, to)
    ensures u == RenameTables(t, from, to)
  {
    hide RenamePrefix, Migrates, MovesOnce, RenameKey;
    MigratedOnce(t.throttleTimestamps, u.throttleTimestamps, from, to);
    MigratedOnce(t.roundRobinIndices, u.roundRobinIndices, from, to);
    MigratedOnce(t.sampleIndices, u.sampleIndices, from, to);
  }

  lemma {:induction false} OthersStay<V>(m: map<string, V>, visits: seq<string>, todo: set<string>, from: string,
                                         to: string)
    returns (longer: seq<string>)
    requires Visitable(m, visits, from, to) && todo <= VisitAll(m, visits, from, to).Keys
    ensures visits <= longer && Visitable(m, longer, from, to) && forall k | k in todo :: k in longer
    ensures VisitAll(m, visits, from, to).Keys - todo <= VisitAll(m, longer, from, to).Keys
    decreases |todo|
  {
    if todo == {} {
      longer := visits;
    } else {
      var k :| k in todo;
      VisitNext(m, visits, k, from, to);
      var next := visits + [k];
      assert VisitAll(m, visits, from, to).Keys - {k} <= VisitAll(m, next, from, to).Keys;
      hide Visitable, Visit, VisitAll;
      longer := OthersStay(m, next, todo - {k}, from, to);
      assert k in longer by {
        assert next[|visits|] == k && longer[|visits|] == k;
      }
    }
  }

  /** An entry that belongs to the old name again can be moved again. */
  lemma CanMoveTwice<V>(m: map<string, V>, k: string, from: string, to: string) returns (r: map<string, V>)
    requires from != to && k in m && Owned(k, from) && Owned(Swapped(k, from, to), from)
    ensures Migrates(m, r, from, to) && r != RenamePrefix(m, from, to)
  {
    var k' := Swapped(k, from, to);
    SwappedDiffers(k, from, to);
    SwappedDiffers(k', from, to);
    var others := OthersStay(m, [], m.Keys - {k}, from, to);
    VisitNext(m, others, k, from, to);
    VisitNext(m, others + [k], k', from, to);
    var visits := others + [k] + [k'];
    r := VisitAll(m, visits, from, to);
    assert Iteration(m, visits, from, to) by {
      assert forall x | x in m :: x in others || x == k;
    }
    hide Visitable, VisitAll;
    assert k' !in r;
    RenamedKeyIsThere(m, k, from, to);
  }

  lemma RenamedKeyIsThere<V>(m: map<string, V>, k: string, from: string, to: string)
    requires k in m && Owned(k, from)
    ensures Swapped(k, from, to) in RenamePrefix(m, from, to)
  {
    assert k in OwnedKeys(m, from);
    hide Swapped, Owned;
  }

  /** Every iteration comes to the renaming of the keys if and only if no entry belongs to the old
      name again once it is moved. */
  lemma MigrationIsRenamingIff<V(!new)>(m: map<string, V>, from: string, to: string)
    requires from != to
    ensures (forall r :: Migrates(m, r, from, to) ==> r == RenamePrefix(m, from, to)) <==> MovesOnce(m, from, to)
  {
    if MovesOnce(m, from, to) {
      forall r | Migrates(m, r, from, to)
        ensures r == RenamePrefix(m, from, to)
      {
        MigratedOnce(m, r, from, to);
      }
    } else {
      var k :| k in m && Owned(k, from) && Owned(Swapped(k, from, to), from);
      var r := CanMoveTwice(m, k, from, to);
    }
  }

  /** Separate names share no keys. */
  lemma SeparateMovesOnce<V>(m: map<string, V>, from: string, to: string)
    requires Separate(from, to)
    ensures MovesOnce(m, from, to)
  {
    forall k | k in m && Owned(k, from)
      ensures !Owned(Swapped(k, from, to), from)
    {
      OwnedByOne(Swapped(k, from, to), to, from);
    }
  }

  lemma PrefixesNest(key: string, p: string, q: string)
    ensures p <= key && q <= key && |p| <= |q| ==> p <= q
  {
    if p <= key && q <= key && |p| <= |q| {
      assert q[..|p|] == key[..|p|];
    }
  }

  /** No key belongs to both of two separate names. */
  lemma OwnedByOne(key: string, a: string, b: string)
    requires Separate(a, b) && Owned(key, a)
    ensures !Owned(key, b)
  {
    PrefixesNest(key, a + ":", b + ":");
    PrefixesNest(key, b + ":", a + ":");
  }

  lemma MoveNone<V>(m: map<string, V>, from: string, to: string)
    ensures Moved(m, {}, from, to) == m
  {
  }

  lemma OverlayOne<V>(a: map<string, V>, b: map<string, V>, k: string, k': string, v: V)
    requires k in a && k !in b && k' != k
    ensures (a - {k}) + b[k' := v] == (a + b)[k' := v] - {k}
    ensures k in a + b && (a + b)[k] == a[k]
  {
  }

  lemma OverlayGrows<V>(m: map<string, V>, done: set<string>, k: string, from: string, to: string)
    requires Owned(k, from) && k in m
    requires forall x | x in done :: x in m && Owned(x, from)
    ensures Overlay(m, done + {k}, from, to) == Overlay(m, done, from, to)[Swapped(k, from, to) := m[k]]
  {
    SwappedInjective(from, to);
    hide Swapped, Owned;
    assert Overlay(m, done + {k}, from, to).Keys == Overlay(m, done, from, to).Keys + {Swapped(k, from, to)};
  }

  lemma MoveOne<V>(m: map<string, V>, done: set<string>, k: string, from: string, to: string)
    requires from != to && MovesOnce(m, from, to) && Owned(k, from) && k in m && k !in done
    requires forall x | x in done :: x in m && Owned(x, from)
    ensures k in Moved(m, done, from, to) && Moved(m, done, from, to)[k] == m[k]
    ensures Moved(m, done + {k}, from, to)
         == Moved(m, done, from, to)[Swapped(k, from, to) := m[k]] - {k}
  {
    SwappedDiffers(k, from, to);
    OverlayGrows(m, done, k, from, to);
    hide Swapped, Owned;
    var over, k' := Overlay(m, done, from, to), Swapped(k, from, to);
    assert k !in over && k' != k;
    assert m - (done + {k}) == (m - done) - {k};
    OverlayOne(m - done, over, k, k', m[k]);
  }
}
