/** `AWSLoggerConfig`: the settings of the CloudWatch Logs shipper, with
    their defaults and the 1 MiB cap on the batch size. */
module LoggerConfig {
  import opened Numerics

  datatype Option<T> = None | Some(value: T)

  /** Outcome of a validated setter: the value was stored, or an
      `ArgumentException` was thrown and nothing changed. */
  datatype SetResult = Stored | ArgumentError(message: string)

  /** CloudWatch Logs accepts at most 1 MiB (1024^2 bytes) per batch of events. */
  const MAX_BATCH_SIZE_IN_BYTES: int := 1048576

  const DEFAULT_BATCH_SIZE_IN_BYTES: int32 := 102400
  const DEFAULT_BATCH_PUSH_INTERVAL_MS: int := 3000
  const DEFAULT_MAX_QUEUED_MESSAGES: int32 := 10000
  const MONITOR_SLEEP_TIME_MS: int := 500

  const BATCH_SIZE_ERROR: string :=
    "The events batch size cannot exeed 1MB. https://docs.aws.amazon.com/AmazonCloudWatch/latest/logs/cloudwatch_limits_cwl.html"

  /** Whether the batch-size setter accepts `value`. There is no lower bound. */
  predicate BatchSizeAllowed(value: int32)
  {
    value as int <= MAX_BATCH_SIZE_IN_BYTES
  }

  class AwsLoggerConfig {
    var batchSizeInBytes: int32
    /** The CloudWatch Logs group; `null` (None) until set. */
    var logGroup: Option<string>
    /** `TimeSpan`s are kept as whole milliseconds. */
    var batchPushIntervalMs: int
    var maxQueuedMessages: int32
    var monitorSleepTimeMs: int
    var logStreamNameSuffix: string
    var logStreamNamePrefix: string

    /** The only private state is the batch size, and the setter keeps it
        within the cap. */
    ghost predicate Valid()
      reads this
    {
      BatchSizeAllowed(batchSizeInBytes)
    }

    /** The settings a new instance starts from, `logGroup` aside. */
    ghost predicate HasDefaults(suffix: string)
      reads this
    {
      batchSizeInBytes == DEFAULT_BATCH_SIZE_IN_BYTES &&
      batchPushIntervalMs == DEFAULT_BATCH_PUSH_INTERVAL_MS &&
      maxQueuedMessages == DEFAULT_MAX_QUEUED_MESSAGES &&
      monitorSleepTimeMs == MONITOR_SLEEP_TIME_MS &&
      logStreamNamePrefix == "" &&
      logStreamNameSuffix == suffix
    }

    /** The default constructor. `suffix` stands for the fresh
        `Guid.NewGuid().ToString()` that the suffix defaults to. */
    constructor (suffix: string)
      ensures Valid() && HasDefaults(suffix)
      ensures logGroup == None
    {
      batchSizeInBytes := DEFAULT_BATCH_SIZE_IN_BYTES;
      logGroup := None;
      batchPushIntervalMs := DEFAULT_BATCH_PUSH_INTERVAL_MS;
      maxQueuedMessages := DEFAULT_MAX_QUEUED_MESSAGES;
      monitorSleepTimeMs := MONITOR_SLEEP_TIME_MS;
      logStreamNameSuffix := suffix;
      logStreamNamePrefix := "";
    }

    /** `AWSLoggerConfig(logGroup)`: the defaults, with the group set. */
    constructor WithLogGroup(logGroup: string, suffix: string)
      ensures Valid() && HasDefaults(suffix)
      ensures this.logGroup == Some(logGroup)
    {
      batchSizeInBytes := DEFAULT_BATCH_SIZE_IN_BYTES;
      this.logGroup := Some(logGroup);
      batchPushIntervalMs := DEFAULT_BATCH_PUSH_INTERVAL_MS;
      maxQueuedMessages := DEFAULT_MAX_QUEUED_MESSAGES;
      monitorSleepTimeMs := MONITOR_SLEEP_TIME_MS;
      logStreamNameSuffix := suffix;
      logStreamNamePrefix := "";
    }

    /** The `BatchSizeInBytes` getter: never above the 1 MiB cap. */
    function BatchSizeInBytes(): (r: int32)
      reads this
      requires Valid()
      ensures r as int <= MAX_BATCH_SIZE_IN_BYTES
    {
      batchSizeInBytes
    }

    /** The `BatchSizeInBytes` setter: a value above 1 MiB is refused with an
        `ArgumentException` and the old value stays; any other value, zero
        and negatives included, is stored and read back by the getter. */
    method SetBatchSizeInBytes(value: int32) returns (result: SetResult)
      requires Valid()
      modifies this`batchSizeInBytes
      ensures Valid()
      ensures result == Stored <==> BatchSizeAllowed(value)
      ensures result != Stored ==> result == ArgumentError(BATCH_SIZE_ERROR)
      ensures BatchSizeInBytes() == if result == Stored then value else old(BatchSizeInBytes())
    {
      if value as int > MAX_BATCH_SIZE_IN_BYTES {
        return ArgumentError(BATCH_SIZE_ERROR);
      }
      batchSizeInBytes := value;
      result := Stored;
    }
  }
}
