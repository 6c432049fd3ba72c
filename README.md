# Lumin.AwsLogger core in Dafny

This project models the logic in `AWSLoggerConfig.cs` of Lumin.AwsLogger, a
client that ships application log events to CloudWatch Logs in batches. The
file holds three parts:

- **`LiminitedConcurrentQueue<T>`** (modelled as
  `BoundedQueue.LimitedConcurrentQueue`). This is a FIFO queue with a limit.
  When the count has reached the limit, `Enqueue` dequeues the single oldest
  item and then appends the new one. The default limit is 100. A limit of zero
  or below still lets one item in, because the append always happens. So the
  queue holds at most `Capacity(limit) = max(limit, 1)` items. The main
  theorem, `EnqueueAllKeepsLast`, says that after any run of enqueues the queue
  holds the last `Capacity(limit)` items ever enqueued, in insertion order.
- **The two diagnostics feeds** (`Diagnostics`). The library-error feed
  (`LogLibraryError` / `GetLogLibraryErrors`) and the application-error feed
  (`LogError` / `GetLatestErrorLogs`) are each a 64-bit counter plus a
  bounded queue. Each call increments the counter atomically and uses the new
  value as the entry's `Id`. A read returns the queue reversed, newest first.
  In C# these are static fields of `AWSLoggerConfig`. Here each feed is an
  `ErrorFeed` object, and `LoggerDiagnostics` holds the two of them. This makes
  it explicit that logging into one feed leaves the other unchanged. A ghost
  `history` records every item ever logged. The feed's invariant ties the
  counter, the ids and the queue contents to that history.
- **The settings record `AWSLoggerConfig`** (`LoggerConfig`). It holds the
  defaults:
  - batch size 102400 bytes;
  - push interval 3000 ms;
  - 10000 queued messages;
  - monitor sleep 500 ms;
  - an empty stream-name prefix.

  It has both constructors. The `BatchSizeInBytes` setter refuses values above
  1 MiB.

Modelling choices:

- C# `int` and `long` are the newtypes `int32` and `int64`.
- `Interlocked.Increment` is written out with its wrap-around: `long.MaxValue`
  steps to `long.MinValue`. So "ids strictly increase" is proved for the first
  2^63 − 1 entries, and "ids are never reused" for the first 2^64.
- `TimeSpan` values are whole milliseconds.
- `Math.Pow(1024, 2)` is the integer 1048576. The double holds it exactly.
- The setter's `ArgumentException` is a returned `SetResult.ArgumentError`
  that leaves the stored value unchanged.
- `DateTime.Now` and the default `Guid.NewGuid()` suffix are parameters that
  the caller supplies.

## Model

| member | source | states |
|---|---|---|
| `Numerics.Increment64` | src/Lumin.AwsLogger.Core/AWSLoggerConfig.cs:160 | The atomic increment of a `long` counter equals the unbounded successor reduced to 64-bit two's complement. Below `long.MaxValue` it is exactly the previous value plus one. |
| `BoundedQueue.LimitedConcurrentQueue.constructor` | src/Lumin.AwsLogger.Core/AWSLoggerConfig.cs:198-201 | A new queue is empty and keeps the given limit, 100 by default. |
| `BoundedQueue.LimitedConcurrentQueue.Count` | src/Lumin.AwsLogger.Core/AWSLoggerConfig.cs:208 | The count never exceeds `max(limit, 1)`. |
| `BoundedQueue.LimitedConcurrentQueue.Enqueue` | src/Lumin.AwsLogger.Core/AWSLoggerConfig.cs:206-214 | When the count has reached the limit, the head is dequeued (nothing happens on an empty queue), then the item is appended. The result equals the last `max(limit, 1)` items of the old contents with the new item appended. The capacity invariant is kept. |
| `BoundedQueue.EnqueueKeepsLast` | src/Lumin.AwsLogger.Core/AWSLoggerConfig.cs:206-214 | On a queue within capacity, one enqueue puts the new item last and evicts at most the single oldest item. The survivors keep their order, and the size stays within `max(limit, 1)`. |
| `BoundedQueue.EnqueueAllKeepsLast` | src/Lumin.AwsLogger.Core/AWSLoggerConfig.cs:206-214 | After any sequence of enqueues on a queue within capacity, the contents are exactly the last `max(limit, 1)` items of the old contents with every enqueued item appended, in insertion order. |
| `BoundedQueue.FromEmptyKeepsLast` | src/Lumin.AwsLogger.Core/AWSLoggerConfig.cs:198-214 | From an empty queue, n enqueues leave `min(n, max(limit, 1))` items: the most recent ones, oldest first. With limit 0 this is the single newest item. |
| `Diagnostics.Reversed` | src/Lumin.AwsLogger.Core/AWSLoggerConfig.cs:167 | `ToArray().Reverse()` keeps the length and puts element `i` from the end at position `i`. |
| `Diagnostics.ErrorFeed.constructor` | src/Lumin.AwsLogger.Core/AWSLoggerConfig.cs:154-155 | A feed starts with counter 0, an empty queue of limit 100 and an empty history. |
| `Diagnostics.ErrorFeed.Log` | src/Lumin.AwsLogger.Core/AWSLoggerConfig.cs:156-164 | The counter is atomically incremented. The new entry carries the new counter value as its id, the supplied time and the message. The entry is enqueued into the bounded queue and appended to the history. The invariant holds afterwards: the counter counts every entry, the k-th entry has id k, and the queue holds the last 100 entries. |
| `Diagnostics.ErrorFeed.Latest` | src/Lumin.AwsLogger.Core/AWSLoggerConfig.cs:165-168 | Reading returns the most recent `min(n, 100)` of the n logged entries, newest at index 0, and changes nothing. |
| `Diagnostics.IdsIncrease` | src/Lumin.AwsLogger.Core/AWSLoggerConfig.cs:154-163 | While the counter has not wrapped, ids strictly increase in logging order and strictly decrease along the newest-first read. |
| `Diagnostics.IdsNeverReused` | src/Lumin.AwsLogger.Core/AWSLoggerConfig.cs:154-163 | No two entries among the first 2^64 share an id, whether or not they were evicted. |
| `Diagnostics.LatestAfter150` | src/Lumin.AwsLogger.Core/AWSLoggerConfig.cs:155-168 | After 150 entries, the read returns 100 entries with ids 150, 149, …, 51. |
| `Diagnostics.LoggerDiagnostics.constructor` | src/Lumin.AwsLogger.Core/AWSLoggerConfig.cs:153-187 | The library-error feed and the application-error feed start empty. They are distinct, freshly allocated objects with distinct, freshly allocated queues, so a new instance can be logged into at once. |
| `Diagnostics.LoggerDiagnostics.LogLibraryError` | src/Lumin.AwsLogger.Core/AWSLoggerConfig.cs:156-164 | Records into the library feed with the next library id. The application-error feed is unchanged. |
| `Diagnostics.LoggerDiagnostics.GetLogLibraryErrors` | src/Lumin.AwsLogger.Core/AWSLoggerConfig.cs:165-168 | Returns the latest `min(n, 100)` library errors, newest first. |
| `Diagnostics.LoggerDiagnostics.LogError` | src/Lumin.AwsLogger.Core/AWSLoggerConfig.cs:174-182 | Records into the application-error feed with its own next id. The library feed is unchanged. |
| `Diagnostics.LoggerDiagnostics.GetLatestErrorLogs` | src/Lumin.AwsLogger.Core/AWSLoggerConfig.cs:183-186 | Returns the latest `min(n, 100)` application errors, newest first. |
| `LoggerConfig.AwsLoggerConfig.constructor` | src/Lumin.AwsLogger.Core/AWSLoggerConfig.cs:120-122 | A default instance has batch size 102400, push interval 3000 ms, 10000 queued messages, monitor sleep 500 ms, an empty prefix, the supplied suffix and no log group. It meets the 1 MiB invariant. |
| `LoggerConfig.AwsLoggerConfig.WithLogGroup` | src/Lumin.AwsLogger.Core/AWSLoggerConfig.cs:128-131 | Sets the log group to the argument and leaves every other setting at its default. |
| `LoggerConfig.AwsLoggerConfig.BatchSizeInBytes` | src/Lumin.AwsLogger.Core/AWSLoggerConfig.cs:84-87 | The getter never returns more than 1048576. |
| `LoggerConfig.AwsLoggerConfig.SetBatchSizeInBytes` | src/Lumin.AwsLogger.Core/AWSLoggerConfig.cs:88-95 | A value above 1048576 fails with the `ArgumentException` message and leaves the stored value unchanged. Any other value, including zero and negatives, is stored and the getter returns it. No other setting changes. |

## Left out

- Concurrency: `ConcurrentQueue` thread safety, the race between the count check and `TryDequeue`, and the atomicity of `Interlocked.Increment` are modelled as sequential steps.
- `DateTime.Now` and `Guid.NewGuid()` are inputs that the caller supplies. The model has no clock and no GUID generator.
- `LogItem` (src/Lumin.AwsLogger.Core/AWSLoggerConfig.cs:218-223) is an immutable datatype. Its C# setters are never used after construction.
- The members that `LiminitedConcurrentQueue` inherits from `ConcurrentQueue` are not modelled. A caller could use the base `Enqueue` through an upcast, and that bypasses the limit.
- `Credentials`, `Profile`, `ProfilesLocation` and `Region` are unconstrained pass-through properties and are not modelled.
- The auto-property setters of the other settings are plain field assignments of the class.
- `MsLogger.cs`, `MsFactory.cs`, the web sample and `Constants.cs` are adapter, host and UI code, so they are not part of this model.
- The batching, dispatch and retry engine that the settings describe is not part of this model. Its code is not in the files modelled here.
