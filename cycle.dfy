/**
 * One health-check cycle as a function of the monitor's state and the two fetch outcomes:
 * the connectivity rule on the counter the cycle starts with, then every queue rule for
 * every fetched queue, then every node rule for every fetched node, all through one tracker.
 */
module Cycle {
  import opened Wrappers
  import opened Config
  import opened Snapshots
  import opened Alerts
  import opened Rules
  import opened Cooldown
  import opened Fetch

  /** The monitor's mutable state: the tracker's map and the connection-failure counter. */
  datatype MonitorState = MonitorState(lastAlerts: Timestamps, connectionFailures: int)

  /** The firings of a list of queues, queue by queue. */
  function QueuesFirings(c: MonitorConfig, qs: seq<QueueSnapshot>): seq<Firing>
    decreases |qs|
  {
    if qs == [] then [] else QueuesFirings(c, qs[..|qs| - 1]) + QueueFirings(c, qs[|qs| - 1])
  }

  /** The firings of a list of nodes, node by node. */
  function NodesFirings(c: MonitorConfig, ns: seq<NodeSnapshot>): seq<Firing>
    decreases |ns|
  {
    if ns == [] then [] else NodesFirings(c, ns[..|ns| - 1]) + NodeFirings(c, ns[|ns| - 1])
  }

  lemma QueuesFiringsSnoc(c: MonitorConfig, qs: seq<QueueSnapshot>, i: nat)
    requires i < |qs|
    ensures QueuesFirings(c, qs[..i + 1]) == QueuesFirings(c, qs[..i]) + QueueFirings(c, qs[i])
  {
    assert qs[..i + 1][..i] == qs[..i];
  }

  lemma NodesFiringsSnoc(c: MonitorConfig, ns: seq<NodeSnapshot>, i: nat)
    requires i < |ns|
    ensures NodesFirings(c, ns[..i + 1]) == NodesFirings(c, ns[..i]) + NodeFirings(c, ns[i])
  {
    assert ns[..i + 1][..i] == ns[..i];
  }

  /** The records a fetch yields for evaluation: none unless it succeeded. */
  function Items<T>(f: Fetch<T>): seq<T>
  {
    Payload(f).GetOr([])
  }

  /**
   * The firings of one cycle in the order the tracker sees them: the connectivity rule, then
   * the records of the fetch that completed first, then those of the other one.
   */
  function CycleFirings(c: MonitorConfig, failures: int, queues: Fetch<QueueSnapshot>, nodes: Fetch<NodeSnapshot>,
                        nodesFirst: bool): seq<Firing>
  {
    var conn, qf, nf := ConnectivityFirings(c, failures), QueuesFirings(c, Items(queues)), NodesFirings(c, Items(nodes));
    if nodesFirst then conn + nf + qf else conn + qf + nf
  }

  /**
   * The counter after both fetches of a cycle. Each fetch updates it when its own request
   * completes, so the order is an input: `nodesFirst` when the node request completed first.
   */
  function FailuresAfterCycle(failures: int, queues: Fetch<QueueSnapshot>, nodes: Fetch<NodeSnapshot>, nodesFirst: bool): int
  {
    if nodesFirst then FailuresAfter(FailuresAfter(failures, nodes), queues)
    else FailuresAfter(FailuresAfter(failures, queues), nodes)
  }

  /** The alerts one cycle sends and the state it leaves. */
  function RunCycle(c: MonitorConfig, st: MonitorState, queues: Fetch<QueueSnapshot>, nodes: Fetch<NodeSnapshot>,
                    nodesFirst: bool, now: real): (seq<Alert>, MonitorState)
  {
    var (sent, m) := Gate(c.defaultAlertCooldown, st.lastAlerts, CycleFirings(c, st.connectionFailures, queues, nodes, nodesFirst), now);
    (sent, MonitorState(m, FailuresAfterCycle(st.connectionFailures, queues, nodes, nodesFirst)))
  }

  /**
   * The counter after a cycle. When neither fetch answered 200, both exceptions are added in
   * either order. Otherwise the fetch that completed last decides: a 200 from it leaves 0, or
   * 1 if its body failed to decode; an exception from it adds one to what the first left.
   */
  lemma CycleCounter(failures: int, queues: Fetch<QueueSnapshot>, nodes: Fetch<NodeSnapshot>, nodesFirst: bool)
    ensures var r := FailuresAfterCycle(failures, queues, nodes, nodesFirst);
            && (!Resets(queues) && !Resets(nodes) ==>
                  r == failures + (if queues.Raised? then 1 else 0) + (if nodes.Raised? then 1 else 0))
            && (nodesFirst && Resets(queues) ==> r == (if queues.body.None? then 1 else 0))
            && (!nodesFirst && Resets(nodes) ==> r == (if nodes.body.None? then 1 else 0))
            && (nodesFirst && Resets(nodes) && !Resets(queues) ==>
                  r == (if nodes.body.None? then 1 else 0) + (if queues.Raised? then 1 else 0))
            && (!nodesFirst && Resets(queues) && !Resets(nodes) ==>
                  r == (if queues.body.None? then 1 else 0) + (if nodes.Raised? then 1 else 0))
  {
  }

  /**
   * The completion order matters: from a counter of 2, a queue fetch answering 200 and a node
   * fetch raising leave 1 when the queues complete first and 0 when the nodes do.
   */
  lemma CycleCounterOrderMatters()
    ensures FailuresAfterCycle(2, Response(200, Some([])), Raised, false) == 1
    ensures FailuresAfterCycle(2, Response(200, Some([])), Raised, true) == 0
  {
  }

  /**
   * The cooldown that applies to a key: the queue's from `GetQueueConfig` for the key of a
   * queue rule, the default one for every other key.
   */
  function KeyCooldown(c: MonitorConfig, key: string): int
  {
    match ParseKey(key)
    case Some((r, name)) => if r.IsQueueRule() then GetQueueConfig(c, name).1 else c.defaultAlertCooldown
    case None => c.defaultAlertCooldown
  }

  predicate QueueNamesDistinct(qs: seq<QueueSnapshot>)
  {
    forall i, j :: 0 <= i < j < |qs| ==> QueueName(qs[i]) != QueueName(qs[j])
  }

  predicate NodeNamesDistinct(ns: seq<NodeSnapshot>)
  {
    forall i, j :: 0 <= i < j < |ns| ==> NodeName(ns[i]) != NodeName(ns[j])
  }

  /** One queue's firing is keyed by a queue rule and that queue's name, with its cooldown. */
  lemma QueueFiringKey(c: MonitorConfig, q: QueueSnapshot, f: Firing)
    requires f in QueueFirings(c, q)
    ensures ParseKey(f.key).Some? && ParseKey(f.key).value.0.IsQueueRule()
    ensures ParseKey(f.key).value.1 == QueueName(q)
    ensures EffectiveCooldown(f.cooldown, c.defaultAlertCooldown) == KeyCooldown(c, f.key)
  {
    QueueFiringsShape(c, q);
  }

  /** One node's firing is keyed by a node rule and that node's name, with the default cooldown. */
  lemma NodeFiringKey(c: MonitorConfig, n: NodeSnapshot, f: Firing)
    requires f in NodeFirings(c, n)
    ensures ParseKey(f.key).Some? && !ParseKey(f.key).value.0.IsQueueRule()
    ensures ParseKey(f.key).value.1 == NodeName(n)
    ensures EffectiveCooldown(f.cooldown, c.defaultAlertCooldown) == KeyCooldown(c, f.key)
  {
    NodeFiringsShape(c, n);
  }

  /**
   * Every firing of a queue list is keyed by a queue rule and the name of one of the queues,
   * and carries that queue's cooldown.
   */
  lemma {:induction false} QueuesFiringsKeys(c: MonitorConfig, qs: seq<QueueSnapshot>)
    ensures forall f :: f in QueuesFirings(c, qs) ==>
              ParseKey(f.key).Some? && ParseKey(f.key).value.0.IsQueueRule()
              && (exists i :: 0 <= i < |qs| && QueueName(qs[i]) == ParseKey(f.key).value.1)
              && EffectiveCooldown(f.cooldown, c.defaultAlertCooldown) == KeyCooldown(c, f.key)
    decreases |qs|
  {
    if qs != [] {
      var init, q := qs[..|qs| - 1], qs[|qs| - 1];
      QueuesFiringsKeys(c, init);
      var a, b := QueuesFirings(c, init), QueueFirings(c, q);
      assert QueuesFirings(c, qs) == a + b;
      forall f: Firing | f in a + b
        ensures ParseKey(f.key).Some? && ParseKey(f.key).value.0.IsQueueRule()
        ensures exists i :: 0 <= i < |qs| && QueueName(qs[i]) == ParseKey(f.key).value.1
        ensures EffectiveCooldown(f.cooldown, c.defaultAlertCooldown) == KeyCooldown(c, f.key)
      {
        if f in a {
          var i :| 0 <= i < |init| && QueueName(init[i]) == ParseKey(f.key).value.1;
          assert qs[i] == init[i];
        } else {
          QueueFiringKey(c, q, f);
          assert QueueName(qs[|qs| - 1]) == QueueName(q);
        }
      }
    }
  }

  /** With distinct queue names, no key occurs twice among a queue list's firings. */
  lemma {:induction false} QueuesFiringsDistinct(c: MonitorConfig, qs: seq<QueueSnapshot>)
    requires QueueNamesDistinct(qs)
    ensures KeysDistinct(QueuesFirings(c, qs))
    decreases |qs|
  {
    if qs != [] {
      var init, q := qs[..|qs| - 1], qs[|qs| - 1];
      assert QueueNamesDistinct(init) by {
        forall i, j | 0 <= i < j < |init| ensures QueueName(init[i]) != QueueName(init[j]) {
          assert init[i] == qs[i] && init[j] == qs[j];
        }
      }
      QueuesFiringsDistinct(c, init);
      QueuesFiringsKeys(c, init);
      QueueFiringsShape(c, q);
      QueueFiringsDistinct(c, q);
      forall x, y | x in QueuesFirings(c, init) && y in QueueFirings(c, q) ensures x.key != y.key {
        var i :| 0 <= i < |init| && QueueName(init[i]) == ParseKey(x.key).value.1;
        assert qs[i] == init[i];
      }
      DistinctAppend(QueuesFirings(c, init), QueueFirings(c, q));
    }
  }

  /** Likewise for a node list; node firings carry the default cooldown. */
  lemma {:induction false} NodesFiringsKeys(c: MonitorConfig, ns: seq<NodeSnapshot>)
    ensures forall f :: f in NodesFirings(c, ns) ==>
              ParseKey(f.key).Some? && !ParseKey(f.key).value.0.IsQueueRule()
              && (exists i :: 0 <= i < |ns| && NodeName(ns[i]) == ParseKey(f.key).value.1)
              && EffectiveCooldown(f.cooldown, c.defaultAlertCooldown) == KeyCooldown(c, f.key)
    decreases |ns|
  {
    if ns != [] {
      var init, n := ns[..|ns| - 1], ns[|ns| - 1];
      NodesFiringsKeys(c, init);
      var a, b := NodesFirings(c, init), NodeFirings(c, n);
      assert NodesFirings(c, ns) == a + b;
      forall f: Firing | f in a + b
        ensures ParseKey(f.key).Some? && !ParseKey(f.key).value.0.IsQueueRule()
        ensures exists i :: 0 <= i < |ns| && NodeName(ns[i]) == ParseKey(f.key).value.1
        ensures EffectiveCooldown(f.cooldown, c.defaultAlertCooldown) == KeyCooldown(c, f.key)
      {
        if f in a {
          var i :| 0 <= i < |init| && NodeName(init[i]) == ParseKey(f.key).value.1;
          assert ns[i] == init[i];
        } else {
          NodeFiringKey(c, n, f);
          assert NodeName(ns[|ns| - 1]) == NodeName(n);
        }
      }
    }
  }

  /** With distinct node names, no key occurs twice among a node list's firings. */
  lemma {:induction false} NodesFiringsDistinct(c: MonitorConfig, ns: seq<NodeSnapshot>)
    requires NodeNamesDistinct(ns)
    ensures KeysDistinct(NodesFirings(c, ns))
    decreases |ns|
  {
    if ns != [] {
      var init, n := ns[..|ns| - 1], ns[|ns| - 1];
      assert NodeNamesDistinct(init) by {
        forall i, j | 0 <= i < j < |init| ensures NodeName(init[i]) != NodeName(init[j]) {
          assert init[i] == ns[i] && init[j] == ns[j];
        }
      }
      NodesFiringsDistinct(c, init);
      NodesFiringsKeys(c, init);
      NodeFiringsShape(c, n);
      NodeFiringsDistinct(c, n);
      forall x, y | x in NodesFirings(c, init) && y in NodeFirings(c, n) ensures x.key != y.key {
        var i :| 0 <= i < |init| && NodeName(init[i]) == ParseKey(x.key).value.1;
        assert ns[i] == init[i];
      }
      DistinctAppend(NodesFirings(c, init), NodeFirings(c, n));
    }
  }

  /**
   * Across the whole cycle every firing carries the cooldown of its key, and, when the queue
   * names and the node names are each distinct, no key occurs twice: queue keys, node keys and
   * the connectivity key never meet.
   */
  lemma CycleFiringsKeys(c: MonitorConfig, failures: int, queues: Fetch<QueueSnapshot>, nodes: Fetch<NodeSnapshot>, nodesFirst: bool)
    ensures forall f :: f in CycleFirings(c, failures, queues, nodes, nodesFirst) ==>
              EffectiveCooldown(f.cooldown, c.defaultAlertCooldown) == KeyCooldown(c, f.key)
    ensures QueueNamesDistinct(Items(queues)) && NodeNamesDistinct(Items(nodes)) ==>
              KeysDistinct(CycleFirings(c, failures, queues, nodes, nodesFirst))
  {
    var conn, qf, nf := ConnectivityFirings(c, failures), QueuesFirings(c, Items(queues)), NodesFirings(c, Items(nodes));
    QueuesFiringsKeys(c, Items(queues));
    NodesFiringsKeys(c, Items(nodes));
    ConnectionKeyIsNoEntityKey();
    if QueueNamesDistinct(Items(queues)) && NodeNamesDistinct(Items(nodes)) {
      QueuesFiringsDistinct(c, Items(queues));
      NodesFiringsDistinct(c, Items(nodes));
      if nodesFirst {
        DistinctAppend(conn, nf);
        DistinctAppend(conn + nf, qf);
      } else {
        DistinctAppend(conn, qf);
        DistinctAppend(conn + qf, nf);
      }
    }
  }

  /** The connectivity alert is a candidate exactly when the starting counter has reached the threshold. */
  lemma ConnectivityUsesStartingCounter(c: MonitorConfig, failures: int, queues: Fetch<QueueSnapshot>, nodes: Fetch<NodeSnapshot>, nodesFirst: bool)
    ensures (exists i :: 0 <= i < |CycleFirings(c, failures, queues, nodes, nodesFirst)|
                         && CycleFirings(c, failures, queues, nodes, nodesFirst)[i].key == ConnectionKey)
            <==> failures >= c.thresholds.connectionFailureThreshold
  {
    var fs := CycleFirings(c, failures, queues, nodes, nodesFirst);
    QueuesFiringsKeys(c, Items(queues));
    NodesFiringsKeys(c, Items(nodes));
    ConnectionKeyIsNoEntityKey();
    if failures >= c.thresholds.connectionFailureThreshold {
      assert fs[0].key == ConnectionKey;
    }
    if exists i :: 0 <= i < |fs| && fs[i].key == ConnectionKey {
      var i :| 0 <= i < |fs| && fs[i].key == ConnectionKey;
      assert fs[i] in fs;
    }
  }

  /**
   * The outcome of a cycle for a key some rule fires for: with distinct names it is sent
   * exactly once, with that firing's severity, when the tracker has no record of it or the
   * record is at least the key's cooldown old, and then recorded at `now`; otherwise it is not
   * sent and its record stays.
   */
  lemma CycleSendsFiringKey(c: MonitorConfig, st: MonitorState, queues: Fetch<QueueSnapshot>, nodes: Fetch<NodeSnapshot>,
                            nodesFirst: bool, now: real, i: nat)
    requires QueueNamesDistinct(Items(queues)) && NodeNamesDistinct(Items(nodes))
    requires i < |CycleFirings(c, st.connectionFailures, queues, nodes, nodesFirst)|
    ensures var f := CycleFirings(c, st.connectionFailures, queues, nodes, nodesFirst)[i];
            var (sent, st') := RunCycle(c, st, queues, nodes, nodesFirst, now);
            var ok := Permits(st.lastAlerts, f.key, KeyCooldown(c, f.key), now);
            && Sent(sent, f.key) == (if ok then 1 else 0)
            && (ok ==> Alert(f.key, f.severity) in sent && f.key in st'.lastAlerts && st'.lastAlerts[f.key] == now)
            && (!ok ==> f.key in st'.lastAlerts && st'.lastAlerts[f.key] == st.lastAlerts[f.key])
  {
    var fs := CycleFirings(c, st.connectionFailures, queues, nodes, nodesFirst);
    CycleFiringsKeys(c, st.connectionFailures, queues, nodes, nodesFirst);
    assert fs[i] in fs;
    GateOutcome(c.defaultAlertCooldown, st.lastAlerts, fs, now, i);
  }

  /**
   * The three checks of a cycle run concurrently and their alerts may interleave in any order.
   * With distinct names that order is immaterial: checking the same firings in any other order
   * lets the same alerts through, each as often, and leaves the same map.
   */
  lemma CycleOrderIrrelevant(c: MonitorConfig, st: MonitorState, queues: Fetch<QueueSnapshot>, nodes: Fetch<NodeSnapshot>,
                             nodesFirst: bool, now: real, gs: seq<Firing>)
    requires QueueNamesDistinct(Items(queues)) && NodeNamesDistinct(Items(nodes))
    requires KeysDistinct(gs)
    requires forall f :: f in gs <==> f in CycleFirings(c, st.connectionFailures, queues, nodes, nodesFirst)
    ensures var (sent, st') := RunCycle(c, st, queues, nodes, nodesFirst, now);
            var (sent2, m2) := Gate(c.defaultAlertCooldown, st.lastAlerts, gs, now);
            && m2 == st'.lastAlerts
            && (forall k :: Sent(sent2, k) == Sent(sent, k))
            && (forall a :: a in sent2 <==> a in sent)
  {
    CycleFiringsKeys(c, st.connectionFailures, queues, nodes, nodesFirst);
    GateReorder(c.defaultAlertCooldown, st.lastAlerts, CycleFirings(c, st.connectionFailures, queues, nodes, nodesFirst), gs, now);
  }

  /** A key no rule fires for is not sent, and its record (or its absence) stays. */
  lemma CycleIgnoresOtherKeys(c: MonitorConfig, st: MonitorState, queues: Fetch<QueueSnapshot>, nodes: Fetch<NodeSnapshot>,
                              nodesFirst: bool, now: real, key: string)
    requires forall i :: 0 <= i < |CycleFirings(c, st.connectionFailures, queues, nodes, nodesFirst)| ==>
               CycleFirings(c, st.connectionFailures, queues, nodes, nodesFirst)[i].key != key
    ensures var (sent, st') := RunCycle(c, st, queues, nodes, nodesFirst, now);
            && Sent(sent, key) == 0
            && (key in st'.lastAlerts <==> key in st.lastAlerts)
            && (key in st.lastAlerts ==> st'.lastAlerts[key] == st.lastAlerts[key])
  {
    GateFrame(c.defaultAlertCooldown, st.lastAlerts, CycleFirings(c, st.connectionFailures, queues, nodes, nodesFirst), now, key);
  }

  /**
   * Deduplication across cycles: once a cycle at `t1` has sent `key`, a later cycle at `t2`
   * sends it again only if `t2 - t1` has reached the key's cooldown, and then exactly once if
   * a rule still fires for it. Between the two nothing else may have touched the key.
   */
  lemma CooldownAcrossCycles(c: MonitorConfig, st: MonitorState,
                             q1: Fetch<QueueSnapshot>, n1: Fetch<NodeSnapshot>, o1: bool, t1: real,
                             q2: Fetch<QueueSnapshot>, n2: Fetch<NodeSnapshot>, o2: bool, t2: real, key: string)
    requires QueueNamesDistinct(Items(q1)) && NodeNamesDistinct(Items(n1))
    requires QueueNamesDistinct(Items(q2)) && NodeNamesDistinct(Items(n2))
    requires Sent(RunCycle(c, st, q1, n1, o1, t1).0, key) > 0
    requires t1 <= t2
    ensures var st1 := RunCycle(c, st, q1, n1, o1, t1).1;
            var sent2 := RunCycle(c, st1, q2, n2, o2, t2).0;
            && (t2 - t1 < KeyCooldown(c, key) as real ==> Sent(sent2, key) == 0)
            && (t2 - t1 >= KeyCooldown(c, key) as real
                && (exists i :: 0 <= i < |CycleFirings(c, st1.connectionFailures, q2, n2, o2)|
                                && CycleFirings(c, st1.connectionFailures, q2, n2, o2)[i].key == key)
                ==> Sent(sent2, key) == 1)
  {
    var fs1 := CycleFirings(c, st.connectionFailures, q1, n1, o1);
    var (sent1, st1) := RunCycle(c, st, q1, n1, o1, t1);
    var fs2 := CycleFirings(c, st1.connectionFailures, q2, n2, o2);
    if forall i :: 0 <= i < |fs1| ==> fs1[i].key != key {
      CycleIgnoresOtherKeys(c, st, q1, n1, o1, t1, key);
      assert false;
    }
    var i1 :| 0 <= i1 < |fs1| && fs1[i1].key == key;
    CycleSendsFiringKey(c, st, q1, n1, o1, t1, i1);
    assert key in st1.lastAlerts && st1.lastAlerts[key] == t1;
    if exists i :: 0 <= i < |fs2| && fs2[i].key == key {
      var i2 :| 0 <= i2 < |fs2| && fs2[i2].key == key;
      CycleSendsFiringKey(c, st1, q2, n2, o2, t2, i2);
    } else {
      CycleIgnoresOtherKeys(c, st1, q2, n2, o2, t2, key);
    }
  }

  /** A cycle never records a time later than its own. */
  lemma CycleNotAfter(c: MonitorConfig, st: MonitorState, queues: Fetch<QueueSnapshot>, nodes: Fetch<NodeSnapshot>, nodesFirst: bool, now: real)
    requires NotAfter(st.lastAlerts, now)
    ensures NotAfter(RunCycle(c, st, queues, nodes, nodesFirst, now).1.lastAlerts, now)
  {
    GateNotAfter(c.defaultAlertCooldown, st.lastAlerts, CycleFirings(c, st.connectionFailures, queues, nodes, nodesFirst), now);
  }
}
