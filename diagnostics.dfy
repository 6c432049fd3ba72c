/** The two recent-error feeds that `AWSLoggerConfig` keeps for the host:
    the library's own errors (`LogLibraryError` / `GetLogLibraryErrors`) and
    application errors (`LogError` / `GetLatestErrorLogs`). Each feed is a
    64-bit counter and a bounded queue of the default limit. */
module Diagnostics {
  import opened Numerics
  import opened BoundedQueue

  /** A point in time (`DateTime`), as ticks. The model does not read the
      clock: the caller supplies it. */
  type Instant = int

  /** One recorded error: its sequence id, when it was recorded, its text. */
  datatype LogItem = LogItem(id: int64, time: Instant, msg: string)

  /** `s` from its last element to its first: `ToArray().Reverse()`. */
  function Reversed<T>(s: seq<T>): (r: seq<T>)
    ensures |r| == |s|
    ensures forall i :: 0 <= i < |s| ==> r[i] == s[|s| - 1 - i]
  {
    if s == [] then [] else Reversed(s[1..]) + [s[0]]
  }

  /** One feed: `index` and `bag` (or `errorIndex` and `errorBag`). */
  class ErrorFeed {
    var counter: int64
    const bag: LimitedConcurrentQueue<LogItem>
    /** Every item ever recorded, oldest first. */
    ghost var history: seq<LogItem>

    /** The counter has counted every recorded item; the k-th item (from 1)
        got id k as a `long`; the bag holds the most recent of them. */
    ghost predicate Valid()
      reads this, bag
    {
      bag.Valid() &&
      bag.limit == DEFAULT_LIMIT &&
      counter == Wrap64(|history|) &&
      (forall k :: 0 <= k < |history| ==> history[k].id == Wrap64(k + 1)) &&
      bag.items == Last(history, Capacity(bag.limit))
    }

    constructor ()
      ensures Valid() && fresh(bag)
      ensures counter == 0 && history == [] && bag.items == []
    {
      counter := 0;
      bag := new LimitedConcurrentQueue<LogItem>();
      history := [];
    }

    /** Record `msg` at time `now`: the counter is incremented atomically and
        its new value becomes the item's id; the item goes into the bag. */
    method Log(msg: string, now: Instant)
      requires Valid()
      modifies this, bag
      ensures Valid()
      ensures counter == Increment64(old(counter))
      ensures history == old(history) + [LogItem(counter, now, msg)]
      ensures bag.items == Enqueued(old(bag.items), bag.limit, LogItem(counter, now, msg))
    {
      Wrap64Succ(|history|);
      counter := Increment64(counter);
      var item := LogItem(counter, now, msg);
      bag.Enqueue(item);
      history := history + [item];
      LastOfLast(old(history), [item], Capacity(bag.limit));
    }

    /** The feed, newest first: the most recent `min(n, 100)` of the `n`
        recorded items, the latest one at index 0. Reading changes nothing. */
    function Latest(): (r: seq<LogItem>)
      reads this, bag
      requires Valid()
      ensures |r| == (if |history| <= Capacity(DEFAULT_LIMIT) then |history| else Capacity(DEFAULT_LIMIT))
      ensures forall i :: 0 <= i < |r| ==> r[i] == history[|history| - 1 - i]
    {
      Reversed(bag.items)
    }
  }

  /** While the counter has not wrapped, ids grow strictly with recording
      order, and so strictly decrease along the newest-first feed. */
  lemma IdsIncrease(f: ErrorFeed)
    requires f.Valid()
    requires |f.history| <= INT64_MAX as int
    ensures forall i, j :: 0 <= i < j < |f.history| ==> f.history[i].id < f.history[j].id
    ensures forall i, j :: 0 <= i < j < |f.Latest()| ==> f.Latest()[i].id > f.Latest()[j].id
  {
    forall i, j | 0 <= i < j < |f.history|
      ensures f.history[i].id < f.history[j].id
    {
      assert f.history[i].id == Wrap64(i + 1) && f.history[j].id == Wrap64(j + 1);
    }
  }

  /** Ids are never reused, evicted or not, until 2^64 items have been
      recorded. */
  lemma IdsNeverReused(f: ErrorFeed)
    requires f.Valid()
    requires |f.history| <= PERIOD64
    ensures forall i, j :: 0 <= i < j < |f.history| ==> f.history[i].id != f.history[j].id
  {
    forall i, j | 0 <= i < j < |f.history|
      ensures f.history[i].id != f.history[j].id
    {
      Wrap64Distinct(i + 1, j + 1);
    }
  }

  /** A feed that has recorded 150 items reads back ids 150, 149, ..., 51. */
  lemma LatestAfter150(f: ErrorFeed)
    requires f.Valid()
    requires |f.history| == 150
    ensures |f.Latest()| == 100
    ensures forall i :: 0 <= i < 100 ==> f.Latest()[i].id as int == 150 - i
  {
    forall i | 0 <= i < 100
      ensures f.Latest()[i].id as int == 150 - i
    {
      assert f.Latest()[i] == f.history[149 - i];
    }
  }

  /** The static state of `AWSLoggerConfig`: the library-error feed (`index`,
      `bag`) and the application-error feed (`errorIndex`, `errorBag`). */
  class LoggerDiagnostics {
    const library: ErrorFeed
    const errors: ErrorFeed

    ghost predicate Valid()
      reads this, library, library.bag, errors, errors.bag
    {
      library != errors && library.bag != errors.bag &&
      library.Valid() && errors.Valid()
    }

    constructor ()
      ensures Valid() && fresh(library) && fresh(errors)
      ensures fresh(library.bag) && fresh(errors.bag)
      ensures library.history == [] && errors.history == []
    {
      library := new ErrorFeed();
      errors := new ErrorFeed();
    }

    method LogLibraryError(msg: string, now: Instant)
      requires Valid()
      modifies library, library.bag
      ensures Valid()
      ensures library.counter == Increment64(old(library.counter))
      ensures library.history == old(library.history) + [LogItem(library.counter, now, msg)]
      ensures unchanged(errors, errors.bag)
    {
      library.Log(msg, now);
    }

    function GetLogLibraryErrors(): (r: seq<LogItem>)
      reads this, library, library.bag, errors, errors.bag
      requires Valid()
      ensures |r| == (if |library.history| <= Capacity(DEFAULT_LIMIT) then |library.history| else Capacity(DEFAULT_LIMIT))
      ensures forall i :: 0 <= i < |r| ==> r[i] == library.history[|library.history| - 1 - i]
    {
      library.Latest()
    }

    method LogError(msg: string, now: Instant)
      requires Valid()
      modifies errors, errors.bag
      ensures Valid()
      ensures errors.counter == Increment64(old(errors.counter))
      ensures errors.history == old(errors.history) + [LogItem(errors.counter, now, msg)]
      ensures unchanged(library, library.bag)
    {
      errors.Log(msg, now);
    }

    function GetLatestErrorLogs(): (r: seq<LogItem>)
      reads this, library, library.bag, errors, errors.bag
      requires Valid()
      ensures |r| == (if |errors.history| <= Capacity(DEFAULT_LIMIT) then |errors.history| else Capacity(DEFAULT_LIMIT))
      ensures forall i :: 0 <= i < |r| ==> r[i] == errors.history[|errors.history| - 1 - i]
    {
      errors.Latest()
    }
  }

  /** A caller's view: a new instance can be logged into straight away, and
      each feed numbers and returns only its own entries. */
  method TwoFeedsScenario()
  {
    var d := new LoggerDiagnostics();
    d.LogLibraryError("a", 1);
    d.LogLibraryError("b", 2);
    d.LogError("c", 3);
    assert d.library.history == [LogItem(1, 1, "a"), LogItem(2, 2, "b")];
    assert d.GetLogLibraryErrors() == [LogItem(2, 2, "b"), LogItem(1, 1, "a")];
    assert d.GetLatestErrorLogs() == [LogItem(1, 3, "c")];
  }
}
