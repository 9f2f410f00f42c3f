/** The key-value store with expiry (internal/kv/store.go). Every call is one step that reads
    the clock once; the clock never goes back. The zero time, which means "no expiry", is None. */
module KvStore {
  import opened Wrappers

  datatype Item<V> = Item(value: V, expiresAt: Option<int>) {
    predicate ExpiredAfter(now: int) {
      expiresAt.Some? && now > expiresAt.value
    }

    predicate LiveBefore(now: int) {
      expiresAt.None? || now < expiresAt.value
    }
  }

  type Data<V> = map<string, Item<V>>

  function NewItem<V>(value: V, ttl: int, now: int): Item<V> {
    Item(value, if ttl > 0 then Some(now + ttl) else None)
  }

  // ---- a store that never evicts: what callers may observe ----

  function Lookup<V>(written: Data<V>, key: string, now: int): Option<V> {
    if key in written && !written[key].ExpiredAfter(now) then Some(written[key].value) else None
  }

  function Listing<V>(written: Data<V>, now: int): map<string, V> {
    map k | k in written && written[k].LiveBefore(now) :: written[k].value
  }

  /** `data` is `written` except for entries that have already expired. */
  ghost predicate EvictsOnlyExpired<V>(data: Data<V>, written: Data<V>, clock: int) {
    && (forall k | k in data :: k in written && data[k] == written[k])
    && (forall k | k in written && k !in data :: written[k].ExpiredAfter(clock))
  }

  class Store<V> {
    var data: Data<V>
    ghost var written: Data<V>  // every Set not deleted or overwritten since
    ghost var clock: int        // the latest reading of the clock

    ghost predicate Valid()
      reads this
    {
      EvictsOnlyExpired(data, written, clock)
    }

    constructor (now: int)
      ensures Valid() && written == map[] && clock == now && data == map[]
    {
      data, written, clock := map[], map[], now;
    }

    method Get(key: string, now: int) returns (found: Option<V>)
      requires Valid() && clock <= now
      modifies this
      ensures Valid() && clock == now && written == old(written)
      ensures found == Lookup(old(written), key, now)
      ensures found.Some? <==> key in written && (written[key].expiresAt.None? || now <= written[key].expiresAt.value)
      ensures found.Some? ==> found.value == written[key].value
      ensures data == Evicting(old(data), Op.Get(key, now)).0
    {
      clock := now;
      if key !in data {
        return None;
      }
      var val := data[key];
      if val.expiresAt.Some? && now > val.expiresAt.value {
        data := data - {key};
        return None;
      }
      return Some(val.value);
    }

    method Set(key: string, val: V, ttl: int, now: int)
      requires Valid() && clock <= now
      modifies this
      ensures Valid() && clock == now
      ensures written == old(written)[key := Item(val, if ttl > 0 then Some(now + ttl) else None)]
      ensures data == Evicting(old(data), Op.Set(key, val, ttl, now)).0
    {
      clock := now;
      var expiresAt := None;
      if ttl > 0 {
        expiresAt := Some(now + ttl);
      }
      data := data[key := Item(val, expiresAt)];
      written := written[key := Item(val, expiresAt)];
    }

    method Delete(key: string, now: int)
      requires Valid() && clock <= now
      modifies this
      ensures Valid() && clock == now && written == old(written) - {key}
      ensures data == Evicting(old(data), Op.Delete(key, now)).0
    {
      clock := now;
      data := data - {key};
      written := written - {key};
    }

    method List(now: int) returns (res: map<string, V>)
      requires Valid() && clock <= now
      modifies `clock
      ensures Valid() && clock == now
      ensures res == Listing(written, now)
      ensures forall k :: k in res <==> k in written && (written[k].expiresAt.None? || now < written[k].expiresAt.value)
      ensures forall k | k in res :: res[k] == written[k].value
    {
      clock := now;
      res := map[];
      var todo := data.Keys;
      while todo != {}
        invariant todo <= data.Keys
        invariant res == map k | k in data && k !in todo && data[k].LiveBefore(now) :: data[k].value
        decreases |todo|
      {
        var k :| k in todo;
        todo := todo - {k};
        if data[k].expiresAt.None? || now < data[k].expiresAt.value {
          res := res[k := data[k].value];
        }
      }
    }

    method Cleanup(now: int)
      requires Valid() && clock <= now
      modifies this
      ensures Valid() && clock == now && written == old(written)
      ensures data == Evicting(old(data), Op.Cleanup(now)).0
    {
      clock := now;
      ghost var was := data;
      var todo := data.Keys;
      while todo != {}
        invariant todo <= data.Keys
        invariant data == map k | k in was && (k in todo || !was[k].ExpiredAfter(now)) :: was[k]
        invariant written == old(written) && clock == now
        decreases |todo|
      {
        var k :| k in todo;
        todo := todo - {k};
        if data[k].expiresAt.Some? && now > data[k].expiresAt.value {
          data := data - {k};
        }
      }
    }
  }

  // ---- whole runs ----

  datatype Op<V> =
    | Set(key: string, value: V, ttl: int, at: int)
    | Get(key: string, at: int)
    | Delete(key: string, at: int)
    | List(at: int)
    | Cleanup(at: int)

  datatype Reply<V> = Done | Found(found: Option<V>) | Entries(entries: map<string, V>)

  /** One call of the store as the code runs it, evicting in Get and in cleanup. */
  function Evicting<V>(data: Data<V>, op: Op<V>): (Data<V>, Reply<V>) {
    match op
    case Set(k, v, ttl, now) => (data[k := NewItem(v, ttl, now)], Done)
    case Get(k, now) =>
      if k in data && data[k].ExpiredAfter(now) then (data - {k}, Found(None))
      else (data, Found(if k in data then Some(data[k].value) else None))
    case Delete(k, _) => (data - {k}, Done)
    case List(now) =>
      (data, Entries(map k | k in data && data[k].LiveBefore(now) :: data[k].value))
    case Cleanup(now) => (map k | k in data && !data[k].ExpiredAfter(now) :: data[k], Done)
  }

  /** The same call on a store that never evicts. */
  function Forever<V>(written: Data<V>, op: Op<V>): (Data<V>, Reply<V>) {
    match op
    case Set(k, v, ttl, now) => (written[k := NewItem(v, ttl, now)], Done)
    case Get(k, now) => (written, Found(Lookup(written, k, now)))
    case Delete(k, _) => (written - {k}, Done)
    case List(now) => (written, Entries(Listing(written, now)))
    case Cleanup(_) => (written, Done)
  }

  /** The replies the callers get; the cleanup goroutine replies to nobody. */
  function EvictingReplies<V>(data: Data<V>, ops: seq<Op<V>>): seq<Reply<V>>
    decreases |ops|
  {
    if ops == [] then []
    else
      var (next, reply) := Evicting(data, ops[0]);
      (if ops[0].Cleanup? then [] else [reply]) + EvictingReplies(next, ops[1..])
  }

  function ForeverReplies<V>(written: Data<V>, ops: seq<Op<V>>): seq<Reply<V>>
    decreases |ops|
  {
    if ops == [] then []
    else
      var (next, reply) := Forever(written, ops[0]);
      [reply] + ForeverReplies(next, ops[1..])
  }

  function WithoutCleanup<V>(ops: seq<Op<V>>): seq<Op<V>> {
    if ops == [] then []
    else (if ops[0].Cleanup? then [] else [ops[0]]) + WithoutCleanup(ops[1..])
  }

  ghost predicate InTimeOrder<V>(ops: seq<Op<V>>, clock: int) {
    ops == [] || (clock <= ops[0].at && InTimeOrder(ops[1..], ops[0].at))
  }

  lemma StepKeepsRefinement<V>(data: Data<V>, written: Data<V>, clock: int, op: Op<V>)
    requires EvictsOnlyExpired(data, written, clock) && clock <= op.at
    ensures EvictsOnlyExpired(Evicting(data, op).0, Forever(written, op).0, op.at)
    ensures Evicting(data, op).1 == Forever(written, op).1
  {
    if op.List? {
      assert Evicting(data, op).1.entries == Listing(written, op.at);
    }
  }

  /** Any run, with cleanup inserted anywhere, replies as the run without cleanup on a store
      that never evicts. */
  lemma {:induction false} EvictionIsInvisible<V>(data: Data<V>, written: Data<V>, clock: int, ops: seq<Op<V>>)
    requires EvictsOnlyExpired(data, written, clock) && InTimeOrder(ops, clock)
    ensures EvictingReplies(data, ops) == ForeverReplies(written, WithoutCleanup(ops))
    decreases |ops|
  {
    if ops != [] {
      var op, later := ops[0], WithoutCleanup(ops[1..]);
      StepKeepsRefinement(data, written, clock, op);
      EvictionIsInvisible(Evicting(data, op).0, Forever(written, op).0, op.at, ops[1..]);
      if op.Cleanup? {
        assert WithoutCleanup(ops) == later;
        assert Forever(written, op).0 == written;
      } else {
        assert WithoutCleanup(ops) == [op] + later && ([op] + later)[1..] == later;
      }
    }
  }

  /** Get and List disagree about a key exactly at its expiry instant: Get still finds it then. */
  lemma ListAndGetAgree<V>(data: Data<V>, key: string, now: int)
    ensures var listed := Evicting(data, List(now)).1.entries;
            var found := Evicting(data, Get(key, now)).1.found;
            && ((key in listed <==> found.Some?) <==> !(key in data && data[key].expiresAt == Some(now)))
            && (key in listed ==> found == Some(listed[key]))
  {
  }

  // ---- how long an entry lasts ----

  /** The last Set of the key that no Delete follows. */
  function LastSet<V>(ops: seq<Op<V>>, key: string): Option<Op<V>> {
    if ops == [] then None
    else
      var op := ops[|ops| - 1];
      if op.Set? && op.key == key then Some(op)
      else if op.Delete? && op.key == key then None
      else LastSet(ops[..|ops| - 1], key)
  }

  /** The data of the store after the calls. */
  function DataAfter<V>(ops: seq<Op<V>>): Data<V> {
    if ops == [] then map[] else Evicting(DataAfter(ops[..|ops| - 1]), ops[|ops| - 1]).0
  }

  ghost predicate Chronological<V>(ops: seq<Op<V>>) {
    forall i, j | 0 <= i < j < |ops| :: ops[i].at <= ops[j].at
  }

  /** An entry is in the data as it was set last, unless it has expired since. */
  ghost predicate Recorded<V>(data: Data<V>, last: Option<Op<V>>, key: string, clock: int) {
    match last
    case Some(Set(_, v, ttl, at)) =>
      if key in data then data[key] == Item(v, if ttl > 0 then Some(at + ttl) else None)
      else ttl > 0 && clock > at + ttl
    case _ => key !in data
  }

  lemma LastSetIsSet<V>(ops: seq<Op<V>>, key: string)
    ensures LastSet(ops, key).Some? ==> LastSet(ops, key).value.Set? && LastSet(ops, key).value.key == key
  {
  }

  lemma {:induction false} LastSetIsRecorded<V>(ops: seq<Op<V>>, key: string, now: int)
    requires Chronological(ops) && forall i | 0 <= i < |ops| :: ops[i].at <= now
    ensures Recorded(DataAfter(ops), LastSet(ops, key), key, now)
  {
    if ops != [] {
      var front, op := ops[..|ops| - 1], ops[|ops| - 1];
      LastSetIsRecorded(front, key, op.at);
      LastSetIsSet(front, key);
      RecordedAfter(DataAfter(front), LastSet(front, key), key, op, now);
    }
  }

  lemma RecordedAfter<V>(data: Data<V>, last: Option<Op<V>>, key: string, op: Op<V>, now: int)
    requires Recorded(data, last, key, op.at) && op.at <= now && (last.Some? ==> last.value.Set?)
    ensures var next := Evicting(data, op).0;
            if op.Set? && op.key == key then Recorded(next, Some(op), key, now)
            else if op.Delete? && op.key == key then Recorded(next, None, key, now)
            else Recorded(next, last, key, now)
  {
  }

  /** After any calls, Get gives the value set last and not deleted since, up to and including the
      instant at which its time to live ends, and List shows it before that instant. A time to live
      that is not positive never ends. */
  lemma EntriesLast<V>(ops: seq<Op<V>>, key: string, now: int)
    requires Chronological(ops) && forall i | 0 <= i < |ops| :: ops[i].at <= now
    ensures var found := Evicting(DataAfter(ops), Op.Get(key, now)).1.found;
            var listed := Evicting(DataAfter(ops), List(now)).1.entries;
            match LastSet(ops, key) {
              case Some(Set(_, v, ttl, at)) =>
                && found == (if ttl <= 0 || now <= at + ttl then Some(v) else None)
                && (key in listed <==> ttl <= 0 || now < at + ttl)
                && (key in listed ==> listed[key] == v)
              case _ => found == None && key !in listed
            }
  {
    LastSetIsRecorded(ops, key, now);
    LastSetIsSet(ops, key);
    hide DataAfter, LastSet;
  }
}
