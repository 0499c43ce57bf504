/**
 * The monitor object: the tracker's map and the connection-failure counter are fields that
 * its methods update in place. Each method is proved against the functions of `Cooldown`,
 * `Fetch` and `Cycle`; HTTP requests are replaced by their outcomes, the Slack notifier by the
 * sequence of alerts returned, and the clock by `now`.
 */
module Monitor {
  import opened Wrappers
  import opened Config
  import opened Snapshots
  import opened Alerts
  import opened Rules
  import opened Cooldown
  import opened Fetch
  import opened Cycle

  class RabbitMQMonitor {
    const config: MonitorConfig
    var lastAlerts: Timestamps
    var connectionFailures: int

    ghost function State(): MonitorState
      reads this
    {
      MonitorState(lastAlerts, connectionFailures)
    }

    constructor (config: MonitorConfig)
      ensures this.config == config
      ensures lastAlerts == map[] && connectionFailures == 0
    {
      this.config := config;
      lastAlerts := map[];
      connectionFailures := 0;
    }

    /** Check-and-record for one key; `cooldown` `None` means the default cooldown. */
    method ShouldSendAlert(alertKey: string, cooldown: Option<int>, now: real) returns (send: bool)
      modifies this`lastAlerts
      ensures (send, lastAlerts) == Track(old(lastAlerts), alertKey, EffectiveCooldown(cooldown, config.defaultAlertCooldown), now)
    {
      var cd := if cooldown.Some? then cooldown.value else config.defaultAlertCooldown;
      if alertKey in lastAlerts {
        if now - lastAlerts[alertKey] < cd as real {
          return false;
        }
      }
      lastAlerts := lastAlerts[alertKey := now];
      return true;
    }

    /** One request's effect on the counter, and the list it yields. */
    method GetApiData<T>(response: Fetch<T>) returns (data: Option<seq<T>>)
      modifies this`connectionFailures
      ensures data == Payload(response)
      ensures connectionFailures == FailuresAfter(old(connectionFailures), response)
    {
      match response
      case Raised =>
        connectionFailures := connectionFailures + 1;
        data := None;
      case Response(status, body) =>
        if status == 200 {
          connectionFailures := 0;
          match body
          case Some(items) =>
            data := Some(items);
          case None =>
            // decoding the body raised inside the same try block
            connectionFailures := connectionFailures + 1;
            data := None;
        } else {
          data := None;
        }
    }

    /** Asks the tracker about one firing and, when it agrees, hands the alert to the notifier. */
    method Notify(sent: seq<Alert>, f: Firing, now: real) returns (sent': seq<Alert>)
      modifies this`lastAlerts
      ensures (sent', lastAlerts) == Step(config.defaultAlertCooldown, (sent, old(lastAlerts)), f, now)
    {
      var ok := ShouldSendAlert(f.key, f.cooldown, now);
      sent' := if ok then sent + [Alert(f.key, f.severity)] else sent;
    }

    /**
     * When `cond` holds, sends one firing through the tracker and, if the tracker agrees, hands
     * the alert to the notifier; `start` and `done` are the map and the firings the run of
     * `Gate` this call extends began with.
     */
    method NotifyIf(cond: bool, f: Firing, sent: seq<Alert>, now: real, ghost start: Timestamps, ghost done: seq<Firing>)
      returns (sent': seq<Alert>)
      modifies this`lastAlerts
      requires (sent, lastAlerts) == Gate(config.defaultAlertCooldown, start, done, now)
      ensures (sent', lastAlerts) == Gate(config.defaultAlertCooldown, start, done + When(cond, f), now)
    {
      if cond {
        GateSnoc(config.defaultAlertCooldown, start, done, f, now);
        sent' := Notify(sent, f, now);
      } else {
        assert done + When(cond, f) == done;
        sent' := sent;
      }
    }

    /** The four queue rules for one queue, in order; all use the queue's own cooldown. */
    method CheckQueue(q: QueueSnapshot, now: real) returns (sent: seq<Alert>)
      modifies this`lastAlerts
      ensures (sent, lastAlerts) == Gate(config.defaultAlertCooldown, old(lastAlerts), QueueFirings(config, q), now)
    {
      var queueName := QueueName(q);
      var (queueThreshold, queueCooldown) := GetQueueConfig(config, queueName);
      var messages, unacked, consumers := Messages(q), Unacked(q), Consumers(q);
      var publishRate, consumeRate := PublishRate(q), ConsumeRate(q);
      var t := config.thresholds;
      // `done` is the firings handed to the tracker so far
      ghost var done: seq<Firing> := [];
      sent := [];

      var backup := Firing(Key(QueueBackup, queueName), Critical, Some(queueCooldown));
      sent := NotifyIf(messages > queueThreshold, backup, sent, now, old(lastAlerts), done);
      done := done + When(messages > queueThreshold, backup);
      assert done == QueueCandidate(config, q, QueueBackup);

      var unack := Firing(Key(UnackedMessages, queueName), Warning, Some(queueCooldown));
      sent := NotifyIf(unacked > t.maxUnacknowledgedMessages, unack, sent, now, old(lastAlerts), done);
      assert When(unacked > t.maxUnacknowledgedMessages, unack) == QueueCandidate(config, q, UnackedMessages);
      done := done + When(unacked > t.maxUnacknowledgedMessages, unack);

      var missing := Firing(Key(MissingConsumers, queueName), Warning, Some(queueCooldown));
      var noConsumers := messages > 0 && consumers < t.minConsumersPerQueue;
      sent := NotifyIf(noConsumers, missing, sent, now, old(lastAlerts), done);
      assert When(noConsumers, missing) == QueueCandidate(config, q, MissingConsumers);
      done := done + When(noConsumers, missing);

      var halt := Firing(Key(ProcessingHalt, queueName), Critical, Some(queueCooldown));
      var halted := messages > t.processingHaltThreshold && consumeRate == 0.0 && publishRate > 0.0;
      sent := NotifyIf(halted, halt, sent, now, old(lastAlerts), done);
      assert When(halted, halt) == QueueCandidate(config, q, ProcessingHalt);
      done := done + When(halted, halt);

      assert done == QueueFirings(config, q);
    }

    /** The three node rules for one node, in order; they all use the default cooldown. */
    method CheckNode(n: NodeSnapshot, now: real) returns (sent: seq<Alert>)
      modifies this`lastAlerts
      ensures (sent, lastAlerts) == Gate(config.defaultAlertCooldown, old(lastAlerts), NodeFirings(config, n), now)
    {
      var nodeName := NodeName(n);
      var t := config.thresholds;
      ghost var done: seq<Firing> := [];
      sent := [];

      var memPercent := MemoryPercent(n);
      var severity := if memPercent > 90.0 then Critical else Warning;
      var memory := Firing(Key(HighMemory, nodeName), severity, None);
      var memHigh := memPercent > t.maxMemoryUsagePercent as real;
      sent := NotifyIf(memHigh, memory, sent, now, old(lastAlerts), done);
      done := done + When(memHigh, memory);

      // the percentage is computed only when both the limit and the free space are positive
      var disk := Firing(Key(HighDisk, nodeName), Critical, None);
      var diskHigh := DiskFreeLimit(n) > 0 && DiskFree(n) > 0 && DiskUsedPercent(n) > t.maxDiskUsagePercent as real;
      sent := NotifyIf(diskHigh, disk, sent, now, old(lastAlerts), done);
      done := done + When(diskHigh, disk);

      var down := Firing(Key(NodeDown, nodeName), Critical, None);
      sent := NotifyIf(!Running(n), down, sent, now, old(lastAlerts), done);
      done := done + When(!Running(n), down);

      assert done == NodeFirings(config, n);
    }

    /** Fetches the queues and runs the queue rules over every one of them. */
    method CheckQueueHealth(queues: Fetch<QueueSnapshot>, now: real) returns (sent: seq<Alert>)
      modifies this
      ensures connectionFailures == FailuresAfter(old(connectionFailures), queues)
      ensures (sent, lastAlerts) == Gate(config.defaultAlertCooldown, old(lastAlerts), QueuesFirings(config, Items(queues)), now)
    {
      var def := config.defaultAlertCooldown;
      var data := GetApiData(queues);
      sent := [];
      if data.None? || |data.value| == 0 {
        return;
      }
      var qs := data.value;
      assert Items(queues) == qs;
      for i := 0 to |qs|
        invariant connectionFailures == FailuresAfter(old(connectionFailures), queues)
        invariant (sent, lastAlerts) == Gate(def, old(lastAlerts), QueuesFirings(config, qs[..i]), now)
      {
        ghost var done, next := QueuesFirings(config, qs[..i]), QueueFirings(config, qs[i]);
        ghost var before := lastAlerts;
        var s := CheckQueue(qs[i], now);
        GateExtend(def, old(lastAlerts), done, next, now, sent, before, s, lastAlerts);
        QueuesFiringsSnoc(config, qs, i);
        sent := sent + s;
      }
      assert qs[..|qs|] == qs;
    }

    /** Fetches the nodes and runs the node rules over every one of them. */
    method CheckNodeHealth(nodes: Fetch<NodeSnapshot>, now: real) returns (sent: seq<Alert>)
      modifies this
      ensures connectionFailures == FailuresAfter(old(connectionFailures), nodes)
      ensures (sent, lastAlerts) == Gate(config.defaultAlertCooldown, old(lastAlerts), NodesFirings(config, Items(nodes)), now)
    {
      var def := config.defaultAlertCooldown;
      var data := GetApiData(nodes);
      sent := [];
      if data.None? || |data.value| == 0 {
        return;
      }
      var ns := data.value;
      assert Items(nodes) == ns;
      for i := 0 to |ns|
        invariant connectionFailures == FailuresAfter(old(connectionFailures), nodes)
        invariant (sent, lastAlerts) == Gate(def, old(lastAlerts), NodesFirings(config, ns[..i]), now)
      {
        ghost var done, next := NodesFirings(config, ns[..i]), NodeFirings(config, ns[i]);
        ghost var before := lastAlerts;
        var s := CheckNode(ns[i], now);
        GateExtend(def, old(lastAlerts), done, next, now, sent, before, s, lastAlerts);
        NodesFiringsSnoc(config, ns, i);
        sent := sent + s;
      }
      assert ns[..|ns|] == ns;
    }

    /** The connectivity rule, on the counter as it stands. */
    method CheckConnections(now: real) returns (sent: seq<Alert>)
      modifies this`lastAlerts
      ensures (sent, lastAlerts) == Gate(config.defaultAlertCooldown, old(lastAlerts), ConnectivityFirings(config, connectionFailures), now)
    {
      var f := Firing(ConnectionKey, Critical, None);
      sent := NotifyIf(connectionFailures >= config.thresholds.connectionFailureThreshold, f, [], now, lastAlerts, []);
    }

    /**
     * One health check. The three checks are started together. The connectivity check reads
     * the counter before either request has completed, so it runs first here, on the counter
     * the cycle starts with. Each of the other two updates the counter and evaluates its
     * records when its own request completes; `nodesFirst` says which completed first.
     */
    method RunHealthCheck(queues: Fetch<QueueSnapshot>, nodes: Fetch<NodeSnapshot>, nodesFirst: bool, now: real)
      returns (sent: seq<Alert>)
      modifies this
      ensures (sent, State()) == RunCycle(config, old(State()), queues, nodes, nodesFirst, now)
    {
      var def := config.defaultAlertCooldown;
      ghost var start := lastAlerts;
      ghost var conn := ConnectivityFirings(config, connectionFailures);
      ghost var qf := QueuesFirings(config, Items(queues));
      ghost var nf := NodesFirings(config, Items(nodes));
      var c := CheckConnections(now);
      if nodesFirst {
        var n := CheckNodeHealth(nodes, now);
        var q := CheckQueueHealth(queues, now);
        sent := c + n + q;
        GateAppend(def, start, conn, nf, now);
        GateAppend(def, start, conn + nf, qf, now);
      } else {
        var q := CheckQueueHealth(queues, now);
        var n := CheckNodeHealth(nodes, now);
        sent := c + q + n;
        GateAppend(def, start, conn, qf, now);
        GateAppend(def, start, conn + qf, nf, now);
      }
    }
  }
}
