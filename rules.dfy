/**
 * The health rules: the condition of each rule over one queue or node record (missing fields
 * read as their defaults), its severity, and the firings one record produces, in the order the
 * monitor evaluates them.
 */
module Rules {
  import opened Wrappers
  import opened Config
  import opened Snapshots
  import opened Alerts

  // ---------------------------------------------------------------- queue rules

  predicate QueueRuleFires(c: MonitorConfig, q: QueueSnapshot, r: Rule)
    requires r.IsQueueRule()
  {
    match r
    case QueueBackup => Messages(q) > GetQueueConfig(c, QueueName(q)).0
    case UnackedMessages => Unacked(q) > c.thresholds.maxUnacknowledgedMessages
    case MissingConsumers => Messages(q) > 0 && Consumers(q) < c.thresholds.minConsumersPerQueue
    case ProcessingHalt =>
      Messages(q) > c.thresholds.processingHaltThreshold && ConsumeRate(q) == 0.0 && PublishRate(q) > 0.0
  }

  function QueueSeverity(r: Rule): Severity
    requires r.IsQueueRule()
  {
    match r
    case QueueBackup | ProcessingHalt => Critical
    case _ => Warning
  }

  /** All four queue rules use the queue's cooldown from `GetQueueConfig`. */
  function QueueFiring(c: MonitorConfig, q: QueueSnapshot, r: Rule): Firing
    requires r.IsQueueRule()
  {
    Firing(Key(r, QueueName(q)), QueueSeverity(r), Some(GetQueueConfig(c, QueueName(q)).1))
  }

  function When(b: bool, f: Firing): seq<Firing>
  {
    if b then [f] else []
  }

  function QueueCandidate(c: MonitorConfig, q: QueueSnapshot, r: Rule): seq<Firing>
    requires r.IsQueueRule()
  {
    When(QueueRuleFires(c, q, r), QueueFiring(c, q, r))
  }

  /** The queue rules that fire for `q`: backup, unacknowledged, missing consumers, halt. */
  function QueueFirings(c: MonitorConfig, q: QueueSnapshot): seq<Firing>
  {
    QueueCandidate(c, q, QueueBackup) + QueueCandidate(c, q, UnackedMessages)
    + QueueCandidate(c, q, MissingConsumers) + QueueCandidate(c, q, ProcessingHalt)
  }

  // ---------------------------------------------------------------- node rules

  /** `(mem_used / mem_limit) * 100 if mem_limit > 0 else 0`, in exact arithmetic. */
  function MemoryPercent(n: NodeSnapshot): real
  {
    if MemLimit(n) > 0 then (MemUsed(n) as real / MemLimit(n) as real) * 100.0 else 0.0
  }

  /** The disk rule is looked at only when both the limit and the free space are positive. */
  predicate DiskChecked(n: NodeSnapshot)
  {
    DiskFreeLimit(n) > 0 && DiskFree(n) > 0
  }

  /** `(1 - disk_free / disk_free_limit) * 100`, in exact arithmetic. */
  function DiskUsedPercent(n: NodeSnapshot): real
    requires DiskChecked(n)
  {
    (1.0 - DiskFree(n) as real / DiskFreeLimit(n) as real) * 100.0
  }

  predicate NodeRuleFires(c: MonitorConfig, n: NodeSnapshot, r: Rule)
    requires !r.IsQueueRule()
  {
    match r
    case HighMemory => MemoryPercent(n) > c.thresholds.maxMemoryUsagePercent as real
    case HighDisk => DiskChecked(n) && DiskUsedPercent(n) > c.thresholds.maxDiskUsagePercent as real
    case NodeDown => !Running(n)
  }

  /** Memory is critical above 90 percent and a warning otherwise; disk and node-down are critical. */
  function NodeSeverity(n: NodeSnapshot, r: Rule): Severity
    requires !r.IsQueueRule()
  {
    if r == HighMemory && MemoryPercent(n) <= 90.0 then Warning else Critical
  }

  /** The node rules pass no cooldown, so the tracker uses its default. */
  function NodeFiring(n: NodeSnapshot, r: Rule): Firing
    requires !r.IsQueueRule()
  {
    Firing(Key(r, NodeName(n)), NodeSeverity(n, r), None)
  }

  function NodeCandidate(c: MonitorConfig, n: NodeSnapshot, r: Rule): seq<Firing>
    requires !r.IsQueueRule()
  {
    When(NodeRuleFires(c, n, r), NodeFiring(n, r))
  }

  /** The node rules that fire for `n`: memory, disk, node down. */
  function NodeFirings(c: MonitorConfig, n: NodeSnapshot): seq<Firing>
  {
    NodeCandidate(c, n, HighMemory) + NodeCandidate(c, n, HighDisk) + NodeCandidate(c, n, NodeDown)
  }

  // ---------------------------------------------------------------- connectivity

  predicate ConnectivityFires(c: MonitorConfig, connectionFailures: int)
  {
    connectionFailures >= c.thresholds.connectionFailureThreshold
  }

  function ConnectivityFirings(c: MonitorConfig, connectionFailures: int): seq<Firing>
  {
    When(ConnectivityFires(c, connectionFailures), Firing(ConnectionKey, Critical, None))
  }

  // ---------------------------------------------------------------- properties

  /** A ratio times 100 exceeds a whole-number threshold exactly when the cross product does. */
  lemma PercentAbove(part: int, whole: int, limit: int)
    requires whole > 0
    ensures (part as real / whole as real) * 100.0 > limit as real <==> part * 100 > limit * whole
  {
    var w := whole as real;
    var x := part as real / w;
    assert x * w == part as real;
    assert (x * 100.0) * w == (part * 100) as real;
    assert (limit as real) * w == (limit * whole) as real;
    if x * 100.0 > limit as real {
      assert (x * 100.0) * w > (limit as real) * w;
    }
  }

  /**
   * The memory rule by integer cross-multiplication: above the threshold when the limit is
   * positive, and, with a limit of 0 or less (which reads as 0 percent), only for a negative
   * threshold.
   */
  lemma MemoryRule(c: MonitorConfig, n: NodeSnapshot)
    ensures NodeRuleFires(c, n, HighMemory) <==>
              if MemLimit(n) > 0 then MemUsed(n) * 100 > c.thresholds.maxMemoryUsagePercent * MemLimit(n)
              else c.thresholds.maxMemoryUsagePercent < 0
  {
    if MemLimit(n) > 0 { PercentAbove(MemUsed(n), MemLimit(n), c.thresholds.maxMemoryUsagePercent); }
  }

  /** The memory alert is critical exactly when usage is above 90 percent of a positive limit. */
  lemma MemorySeverityRule(n: NodeSnapshot)
    ensures NodeSeverity(n, HighMemory) == Critical <==> MemLimit(n) > 0 && MemUsed(n) * 100 > 90 * MemLimit(n)
    ensures NodeSeverity(n, HighMemory) in {Warning, Critical}
  {
    if MemLimit(n) > 0 { PercentAbove(MemUsed(n), MemLimit(n), 90); }
  }

  /** Backup and halt alerts are critical; unacknowledged and missing-consumer alerts are warnings. */
  lemma QueueSeverityRule()
    ensures QueueSeverity(QueueBackup) == Critical && QueueSeverity(ProcessingHalt) == Critical
    ensures QueueSeverity(UnackedMessages) == Warning && QueueSeverity(MissingConsumers) == Warning
  {
  }

  /** Disk and node-down alerts are always critical. */
  lemma NodeSeverityRule(n: NodeSnapshot)
    ensures NodeSeverity(n, HighDisk) == Critical && NodeSeverity(n, NodeDown) == Critical
  {
  }

  /** The disk rule by integer cross-multiplication. */
  lemma DiskRule(c: MonitorConfig, n: NodeSnapshot)
    ensures NodeRuleFires(c, n, HighDisk) <==>
              DiskFreeLimit(n) > 0 && DiskFree(n) > 0
              && (DiskFreeLimit(n) - DiskFree(n)) * 100 > c.thresholds.maxDiskUsagePercent * DiskFreeLimit(n)
  {
    if DiskChecked(n) {
      var free, limit := DiskFree(n) as real, DiskFreeLimit(n) as real;
      var y, z := (DiskFreeLimit(n) - DiskFree(n)) as real / limit, 1.0 - free / limit;
      assert y * limit == limit - free;
      assert z * limit == limit - (free / limit) * limit == limit - free;
      assert (y - z) * limit == 0.0;
      assert y == z;
      PercentAbove(DiskFreeLimit(n) - DiskFree(n), DiskFreeLimit(n), c.thresholds.maxDiskUsagePercent);
    }
  }

  /** A node record without `running` (or with `running` false) is a node that is down. */
  lemma NodeDownRule(c: MonitorConfig, n: NodeSnapshot)
    ensures NodeRuleFires(c, n, NodeDown) <==> n.running.None? || n.running == Some(false)
  {
  }

  /**
   * Missing fields never make a queue rule fire on their own: without `message_stats` (or
   * without `publish_details`) the publish rate reads 0, so the halt rule cannot fire; without
   * `messages` the depth reads 0, so the missing-consumers rule cannot fire and the backup and
   * halt rules fire only for a negative threshold.
   */
  lemma MissingQueueFields(c: MonitorConfig, q: QueueSnapshot)
    ensures (q.messageStats.None? || q.messageStats.value.publishDetails.None?) ==> !QueueRuleFires(c, q, ProcessingHalt)
    ensures q.messages.None? ==> !QueueRuleFires(c, q, MissingConsumers)
    ensures q.messages.None? ==> (QueueRuleFires(c, q, QueueBackup) <==> GetQueueConfig(c, QueueName(q)).0 < 0)
    ensures q.messagesUnacknowledged.None? ==>
              (QueueRuleFires(c, q, UnackedMessages) <==> c.thresholds.maxUnacknowledgedMessages < 0)
  {
  }

  /** The missing-consumers rule never fires for an empty queue, whatever its consumers. */
  lemma NoConsumersAlertForEmptyQueue(c: MonitorConfig, q: QueueSnapshot)
    requires Messages(q) == 0
    ensures QueueFiring(c, q, MissingConsumers) !in QueueFirings(c, q)
  {
    QueueFiringsMembers(c, q);
  }

  /**
   * A queue on the override list is held to the override threshold: at one message above the
   * global threshold it raises no backup alert when the override threshold is higher, while a
   * queue off the list does; one message above the override threshold it does.
   */
  lemma OverrideThreshold(c: MonitorConfig, listed: QueueSnapshot, unlisted: QueueSnapshot)
    requires QueueName(listed) in c.longJobQueues && QueueName(unlisted) !in c.longJobQueues
    requires c.longJobThreshold > c.thresholds.maxQueueLength
    ensures Messages(listed) == c.thresholds.maxQueueLength + 1 ==> !QueueRuleFires(c, listed, QueueBackup)
    ensures Messages(unlisted) == c.thresholds.maxQueueLength + 1 ==> QueueRuleFires(c, unlisted, QueueBackup)
    ensures Messages(listed) == c.longJobThreshold + 1 ==> QueueRuleFires(c, listed, QueueBackup)
    ensures QueueFiring(c, listed, QueueBackup).cooldown == Some(c.longJobCooldown)
    ensures QueueFiring(c, unlisted, QueueBackup).cooldown == Some(c.defaultAlertCooldown)
  {
  }

  /** `QueueFirings` holds the firing of a queue rule exactly when that rule's condition holds. */
  lemma QueueFiringsMembers(c: MonitorConfig, q: QueueSnapshot)
    ensures forall r: Rule :: r.IsQueueRule() ==> (QueueFiring(c, q, r) in QueueFirings(c, q) <==> QueueRuleFires(c, q, r))
  {
    var name := QueueName(q);
    forall r1: Rule, r2: Rule | r1 != r2 ensures Key(r1, name) != Key(r2, name) { KeysDiffer(r1, name, r2, name); }
  }

  /**
   * Every firing in `QueueFirings` is the firing of a queue rule whose condition holds, keyed
   * by that rule and the queue's name.
   */
  lemma QueueFiringsShape(c: MonitorConfig, q: QueueSnapshot)
    ensures forall f :: f in QueueFirings(c, q) ==>
              ParseKey(f.key).Some? && ParseKey(f.key).value.0.IsQueueRule()
              && ParseKey(f.key).value.1 == QueueName(q)
              && QueueRuleFires(c, q, ParseKey(f.key).value.0)
              && f == QueueFiring(c, q, ParseKey(f.key).value.0)
  {
    forall f | f in QueueFirings(c, q)
      ensures ParseKey(f.key).Some? && ParseKey(f.key).value.0.IsQueueRule()
      ensures ParseKey(f.key).value.1 == QueueName(q)
      ensures QueueRuleFires(c, q, ParseKey(f.key).value.0)
      ensures f == QueueFiring(c, q, ParseKey(f.key).value.0)
    {
      var r :=
        if f in QueueCandidate(c, q, QueueBackup) then QueueBackup
        else if f in QueueCandidate(c, q, UnackedMessages) then UnackedMessages
        else if f in QueueCandidate(c, q, MissingConsumers) then MissingConsumers
        else ProcessingHalt;
      assert f in QueueCandidate(c, q, r);
      ParseKeyRoundTrip(r, QueueName(q));
    }
  }

  /** No key occurs twice in `QueueFirings`. */
  lemma QueueFiringsDistinct(c: MonitorConfig, q: QueueSnapshot)
    ensures KeysDistinct(QueueFirings(c, q))
  {
    var name := QueueName(q);
    forall r1: Rule, r2: Rule | r1 != r2 ensures Key(r1, name) != Key(r2, name) { KeysDiffer(r1, name, r2, name); }
    var a, b, d, e := QueueCandidate(c, q, QueueBackup), QueueCandidate(c, q, UnackedMessages),
                      QueueCandidate(c, q, MissingConsumers), QueueCandidate(c, q, ProcessingHalt);
    DistinctAppend(a, b);
    DistinctAppend(a + b, d);
    DistinctAppend(a + b + d, e);
  }

  /** `NodeFirings` holds the firing of a node rule exactly when that rule's condition holds. */
  lemma NodeFiringsMembers(c: MonitorConfig, n: NodeSnapshot)
    ensures forall r: Rule :: !r.IsQueueRule() ==> (NodeFiring(n, r) in NodeFirings(c, n) <==> NodeRuleFires(c, n, r))
  {
    var name := NodeName(n);
    forall r1: Rule, r2: Rule | r1 != r2 ensures Key(r1, name) != Key(r2, name) { KeysDiffer(r1, name, r2, name); }
  }

  /** Every firing in `NodeFirings` is the firing of a node rule whose condition holds. */
  lemma NodeFiringsShape(c: MonitorConfig, n: NodeSnapshot)
    ensures forall f :: f in NodeFirings(c, n) ==>
              ParseKey(f.key).Some? && !ParseKey(f.key).value.0.IsQueueRule()
              && ParseKey(f.key).value.1 == NodeName(n)
              && NodeRuleFires(c, n, ParseKey(f.key).value.0)
              && f == NodeFiring(n, ParseKey(f.key).value.0)
  {
    forall f | f in NodeFirings(c, n)
      ensures ParseKey(f.key).Some? && !ParseKey(f.key).value.0.IsQueueRule()
      ensures ParseKey(f.key).value.1 == NodeName(n)
      ensures NodeRuleFires(c, n, ParseKey(f.key).value.0)
      ensures f == NodeFiring(n, ParseKey(f.key).value.0)
    {
      var r :=
        if f in NodeCandidate(c, n, HighMemory) then HighMemory
        else if f in NodeCandidate(c, n, HighDisk) then HighDisk
        else NodeDown;
      assert f in NodeCandidate(c, n, r);
      ParseKeyRoundTrip(r, NodeName(n));
    }
  }

  /** No key occurs twice in `NodeFirings`. */
  lemma NodeFiringsDistinct(c: MonitorConfig, n: NodeSnapshot)
    ensures KeysDistinct(NodeFirings(c, n))
  {
    var name := NodeName(n);
    forall r1: Rule, r2: Rule | r1 != r2 ensures Key(r1, name) != Key(r2, name) { KeysDiffer(r1, name, r2, name); }
    var a, b, d := NodeCandidate(c, n, HighMemory), NodeCandidate(c, n, HighDisk), NodeCandidate(c, n, NodeDown);
    DistinctAppend(a, b);
    DistinctAppend(a + b, d);
  }

  /**
   * Two queues with the same name in different virtual hosts get the same key for every rule:
   * the vhost takes no part in deduplication.
   */
  lemma VhostNotInKey(c: MonitorConfig, q1: QueueSnapshot, q2: QueueSnapshot, r: Rule)
    requires r.IsQueueRule() && QueueName(q1) == QueueName(q2) && VHost(q1) != VHost(q2)
    ensures QueueFiring(c, q1, r).key == QueueFiring(c, q2, r).key
  {
  }
}
