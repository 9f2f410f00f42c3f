/** The global execution statistics of the handler registry with their log of the slowest
    executions (RegistryStats, RecordExecution, GetSlowLog). */
module SlowLog {
  import opened StableSort

  datatype Entry = Entry(handlerName: string, duration: int, error: string, timestamp: int)

  datatype Failure = NoError | Error(text: string)

  const MAX_SLOW_LOG: nat := 50

  function Duration(): Entry -> int {
    (e: Entry) => e.duration
  }

  /** The first `n` of all executions, stably sorted by descending duration. */
  function Slowest(history: seq<Entry>, n: nat): seq<Entry> {
    Take(Sort(history, Duration()), n)
  }

  /** Trimming to n entries after every insertion loses nothing: the log of a longer history
      is found from the log of the shorter one. */
  lemma SlowestOfExtension(history: seq<Entry>, e: Entry, n: nat)
    ensures Slowest(history + [e], n) == Take(Insert(e, Slowest(history, n), Duration()), n)
  {
    SortLast(history, e, Duration());
    TakeInsert(e, Sort(history, Duration()), Duration(), n);
  }

  /** What the log means without mentioning sorting: the history splits into the log and the
      rest, nothing in the rest took longer than anything in the log, the log is as long as it
      may be, descending, and entries of equal duration stand in the order of execution. */
  lemma SlowestDominates(history: seq<Entry>, n: nat) returns (rest: seq<Entry>)
    ensures multiset(history) == multiset(Slowest(history, n)) + multiset(rest)
    ensures |Slowest(history, n)| == if |history| <= n then |history| else n
    ensures SortedDesc(Slowest(history, n), Duration())
    ensures forall a, b | a in Slowest(history, n) && b in rest :: a.duration >= b.duration
    ensures forall d :: Select(Slowest(history, n), HasKey(Duration(), d))
                     <= Select(history, HasKey(Duration(), d))
  {
    var sorted, log := Sort(history, Duration()), Slowest(history, n);
    SortMembers(history, Duration());
    SortSorted(history, Duration());
    rest := sorted[|log|..];
    assert sorted == log + rest;
    forall a, b | a in log && b in rest
      ensures a.duration >= b.duration
    {
      var i :| 0 <= i < |log| && log[i] == a;
      var j :| 0 <= j < |rest| && rest[j] == b;
      assert Duration()(sorted[i]) >= Duration()(sorted[|log| + j]);
    }
    forall d
      ensures Select(log, HasKey(Duration(), d)) <= Select(history, HasKey(Duration(), d))
    {
      SortIsTheStableSort(history, sorted, Duration());
      SelectAppend(log, rest, HasKey(Duration(), d));
    }
  }

  class GlobalStats {
    var totalExecutions: nat
    var totalErrors: nat
    var slowLog: seq<Entry>
    const maxSlowLog: nat
    ghost var recorded: seq<Entry>  // every execution since the start, in order

    ghost predicate Valid()
      reads this
    {
      && maxSlowLog == MAX_SLOW_LOG
      && totalErrors <= totalExecutions == |recorded|
      && slowLog == Slowest(recorded, maxSlowLog)
    }

    constructor ()
      ensures Valid() && recorded == [] && totalErrors == 0
    {
      totalExecutions, totalErrors, slowLog, maxSlowLog := 0, 0, [], MAX_SLOW_LOG;
      recorded := [];
    }

    method RecordExecution(name: string, duration: int, err: Failure, now: int)
      requires Valid()
      modifies this
      ensures Valid()
      ensures recorded
           == old(recorded) + [Entry(name, duration, if err.Error? then err.text else "", now)]
      ensures totalErrors == old(totalErrors) + if err.Error? then 1 else 0
    {
      totalExecutions := totalExecutions + 1;
      if err.Error? {
        totalErrors := totalErrors + 1;
      }
      var errStr := if err.Error? then err.text else "";
      var entry := Entry(name, duration, errStr, now);
      SlowestOfExtension(recorded, entry, maxSlowLog);

      Place(entry);
      recorded := recorded + [entry];
    }

    /** Puts the entry before the first faster one, or at the end while there is room, and trims. */
    method Place(entry: Entry)
      requires |slowLog| <= maxSlowLog
      modifies `slowLog
      ensures slowLog == Take(Insert(entry, old(slowLog), Duration()), maxSlowLog)
    {
      ghost var was, target := slowLog, Insert(entry, slowLog, Duration());
      var inserted := false;
      var i := 0;
      while i < |slowLog|
        invariant 0 <= i <= |slowLog|
        invariant !inserted && slowLog == was
        invariant forall j | 0 <= j < i :: was[j].duration >= entry.duration
      {
        if entry.duration > slowLog[i].duration {
          InsertAt(entry, was, i, Duration());
          slowLog := slowLog[..i] + ([entry] + slowLog[i..]);
          inserted := true;
          assert slowLog == was[..i] + [entry] + was[i..];
          break;
        }
        i := i + 1;
      }
      if !inserted {
        InsertLast(entry, was, Duration());
      }
      if !inserted && |slowLog| < maxSlowLog {
        slowLog := slowLog + [entry];
      }
      if |slowLog| > maxSlowLog {
        slowLog := slowLog[..maxSlowLog];
      }
      assert !inserted && |was| == maxSlowLog ==> was == (was + [entry])[..maxSlowLog];
    }

    /** A limit that is not positive, or larger than the log, asks for the whole log. */
    method GetSlowLog(limit: int) returns (res: seq<Entry>)
      requires Valid()
      ensures res == Slowest(recorded, if 0 < limit < 50 then limit else 50)
    {
      var n := if limit <= 0 || limit > |slowLog| then |slowLog| else limit;
      res := slowLog[..n];
    }
  }
}
