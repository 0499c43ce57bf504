/**
 * The monitor's configuration: the alert thresholds with their built-in defaults, the
 * override list of long-running queues with its own threshold and cooldown, and the
 * per-queue lookup that chooses between the two.
 */
module Config {
  import opened Wrappers
  import QueueList

  /** The alert thresholds; the defaults are those of `DefaultThresholds`. */
  datatype AlertThresholds = AlertThresholds(
    maxQueueLength: int,
    maxUnacknowledgedMessages: int,
    minConsumersPerQueue: int,
    maxMemoryUsagePercent: int,
    maxDiskUsagePercent: int,
    processingHaltThreshold: int,
    connectionFailureThreshold: int)

  /** The `AlertThresholds` dataclass defaults. */
  function DefaultThresholds(): AlertThresholds
  {
    AlertThresholds(1000, 500, 1, 80, 85, 100, 3)
  }

  /**
   * The thresholds after the start-up overrides: each `Some` is an environment value that was
   * set (already parsed as an integer), each `None` keeps the default. The connection-failure
   * threshold has no environment variable.
   */
  function ThresholdsFromEnvironment(
    maxQueueLength: Option<int>, maxUnacked: Option<int>, minConsumers: Option<int>,
    maxMemoryPercent: Option<int>, maxDiskPercent: Option<int>, haltThreshold: Option<int>): (t: AlertThresholds)
    ensures t.connectionFailureThreshold == DefaultThresholds().connectionFailureThreshold
    ensures maxQueueLength.None? ==> t.maxQueueLength == DefaultThresholds().maxQueueLength
    ensures maxQueueLength.Some? ==> t.maxQueueLength == maxQueueLength.value
    ensures maxUnacked.None? ==> t.maxUnacknowledgedMessages == DefaultThresholds().maxUnacknowledgedMessages
    ensures maxUnacked.Some? ==> t.maxUnacknowledgedMessages == maxUnacked.value
    ensures minConsumers.None? ==> t.minConsumersPerQueue == DefaultThresholds().minConsumersPerQueue
    ensures minConsumers.Some? ==> t.minConsumersPerQueue == minConsumers.value
    ensures maxMemoryPercent.None? ==> t.maxMemoryUsagePercent == DefaultThresholds().maxMemoryUsagePercent
    ensures maxMemoryPercent.Some? ==> t.maxMemoryUsagePercent == maxMemoryPercent.value
    ensures maxDiskPercent.None? ==> t.maxDiskUsagePercent == DefaultThresholds().maxDiskUsagePercent
    ensures maxDiskPercent.Some? ==> t.maxDiskUsagePercent == maxDiskPercent.value
    ensures haltThreshold.None? ==> t.processingHaltThreshold == DefaultThresholds().processingHaltThreshold
    ensures haltThreshold.Some? ==> t.processingHaltThreshold == haltThreshold.value
    ensures (maxQueueLength.None? && maxUnacked.None? && minConsumers.None? && maxMemoryPercent.None?
             && maxDiskPercent.None? && haltThreshold.None?) ==> t == DefaultThresholds()
  {
    AlertThresholds(
      maxQueueLength.GetOr(1000), maxUnacked.GetOr(500), minConsumers.GetOr(1),
      maxMemoryPercent.GetOr(80), maxDiskPercent.GetOr(85), haltThreshold.GetOr(100), 3)
  }

  datatype MonitorConfig = MonitorConfig(
    thresholds: AlertThresholds,
    longJobQueues: seq<string>,
    longJobThreshold: int,
    longJobCooldown: int,
    defaultAlertCooldown: int)

  /**
   * The configuration the monitor starts with: the override list is parsed from
   * `LONG_JOB_QUEUES` (unset reads as the empty string), and the three numbers fall back to
   * 1000000 messages, 10800 seconds and 1800 seconds.
   */
  function ConfigFromEnvironment(
    thresholds: AlertThresholds, longJobQueues: Option<string>, longJobThreshold: Option<int>,
    longJobCooldown: Option<int>, defaultAlertCooldown: Option<int>): (c: MonitorConfig)
    ensures c.thresholds == thresholds
    ensures c.longJobQueues == QueueList.ParseLongJobQueues(longJobQueues.GetOr(""))
    ensures longJobQueues.None? ==> c.longJobQueues == QueueList.DefaultLongJobQueues
    ensures longJobThreshold.None? ==> c.longJobThreshold == 1000000
    ensures longJobCooldown.None? ==> c.longJobCooldown == 10800
    ensures defaultAlertCooldown.None? ==> c.defaultAlertCooldown == 1800
    ensures longJobThreshold.Some? ==> c.longJobThreshold == longJobThreshold.value
    ensures longJobCooldown.Some? ==> c.longJobCooldown == longJobCooldown.value
    ensures defaultAlertCooldown.Some? ==> c.defaultAlertCooldown == defaultAlertCooldown.value
  {
    var names := longJobQueues.GetOr("");
    assert longJobQueues.None? ==> names == [] && QueueList.ParseLongJobQueues(names) == QueueList.DefaultLongJobQueues by {
      if longJobQueues.None? { QueueList.ParseUnset(); }
    }
    MonitorConfig(
      thresholds,
      QueueList.ParseLongJobQueues(names),
      longJobThreshold.GetOr(1000000),
      longJobCooldown.GetOr(10800),
      defaultAlertCooldown.GetOr(1800))
  }

  /**
   * `(threshold, cooldown)` for one queue: both from the override when the queue is on the
   * long-running list, both global otherwise, never one of each.
   */
  function GetQueueConfig(c: MonitorConfig, queueName: string): (r: (int, int))
    ensures r == (c.longJobThreshold, c.longJobCooldown) || r == (c.thresholds.maxQueueLength, c.defaultAlertCooldown)
    ensures queueName in c.longJobQueues ==> r == (c.longJobThreshold, c.longJobCooldown)
    ensures queueName !in c.longJobQueues ==> r == (c.thresholds.maxQueueLength, c.defaultAlertCooldown)
  {
    if queueName in c.longJobQueues then (c.longJobThreshold, c.longJobCooldown)
    else (c.thresholds.maxQueueLength, c.defaultAlertCooldown)
  }
}
