/**
 * Alerts and their keys. A key is the unit of deduplication: one string per (rule, entity name), plus the single
 * key of the connectivity rule. The key of an entity rule is the rule's prefix followed by the
 * entity name; no prefix is a prefix of another, so the key can be read back.
 */
module Alerts {
  import opened Wrappers

  datatype Severity = Info | Warning | Critical

  /** A notification handed to the notifier (its text is not modelled). */
  datatype Alert = Alert(key: string, severity: Severity)

  /**
   * A rule whose condition holds: the key to check against the tracker, the severity to send
   * with, and the cooldown passed to the tracker (`None` for its default).
   */
  datatype Firing = Firing(key: string, severity: Severity, cooldown: Option<int>)

  /** The rules that are evaluated once per queue or once per node. */
  datatype Rule = QueueBackup | UnackedMessages | MissingConsumers | ProcessingHalt
                | HighMemory | HighDisk | NodeDown
  {
    predicate IsQueueRule()
    {
      this in {QueueBackup, UnackedMessages, MissingConsumers, ProcessingHalt}
    }
  }

  function Prefix(r: Rule): string
  {
    match r
    case QueueBackup => "queue_backup_"
    case UnackedMessages => "unacked_"
    case MissingConsumers => "no_consumers_"
    case ProcessingHalt => "processing_halt_"
    case HighMemory => "memory_"
    case HighDisk => "disk_"
    case NodeDown => "node_down_"
  }

  /** The key of rule `r` for the queue or node called `name` (the vhost takes no part). */
  function Key(r: Rule, name: string): string
  {
    Prefix(r) + name
  }

  /** The key of the connectivity rule, which has no entity. */
  const ConnectionKey := "connection_failures"

  /** Reads a key back as the rule and entity name it was built from. */
  function ParseKey(k: string): Option<(Rule, string)>
  {
    if Prefix(QueueBackup) <= k then Some((QueueBackup, k[|Prefix(QueueBackup)|..]))
    else if Prefix(UnackedMessages) <= k then Some((UnackedMessages, k[|Prefix(UnackedMessages)|..]))
    else if Prefix(MissingConsumers) <= k then Some((MissingConsumers, k[|Prefix(MissingConsumers)|..]))
    else if Prefix(ProcessingHalt) <= k then Some((ProcessingHalt, k[|Prefix(ProcessingHalt)|..]))
    else if Prefix(HighMemory) <= k then Some((HighMemory, k[|Prefix(HighMemory)|..]))
    else if Prefix(HighDisk) <= k then Some((HighDisk, k[|Prefix(HighDisk)|..]))
    else if Prefix(NodeDown) <= k then Some((NodeDown, k[|Prefix(NodeDown)|..]))
    else None
  }

  /** No rule's prefix is a prefix of another rule's prefix. */
  lemma PrefixesPrefixFree(r1: Rule, r2: Rule)
    requires Prefix(r1) <= Prefix(r2)
    ensures r1 == r2
  {
    var p1, p2 := Prefix(r1), Prefix(r2);
    assert p1[0] == p2[0] && p1[1] == p2[1] && p1[2] == p2[2];
  }

  /** If rule `r1`'s prefix starts the key of `r2`, the two rules are the same. */
  lemma PrefixOfKey(r1: Rule, r2: Rule, name: string)
    requires Prefix(r1) <= Key(r2, name)
    ensures r1 == r2
  {
    var p1, p2 := Prefix(r1), Prefix(r2);
    if |p1| <= |p2| {
      assert p1 == Key(r2, name)[..|p1|] == p2[..|p1|];
      PrefixesPrefixFree(r1, r2);
    } else {
      assert p2 == Key(r2, name)[..|p2|] == p1[..|p2|];
      PrefixesPrefixFree(r2, r1);
    }
  }

  /** Reading a key back gives the rule and the name it was built from. */
  lemma ParseKeyRoundTrip(r: Rule, name: string)
    ensures ParseKey(Key(r, name)) == Some((r, name))
  {
    var k := Key(r, name);
    forall r' | Prefix(r') <= k ensures r' == r { PrefixOfKey(r', r, name); }
    assert k[|Prefix(r)|..] == name;
  }

  /** Keys are injective in (rule, entity name). */
  lemma KeyInjective(r1: Rule, n1: string, r2: Rule, n2: string)
    requires Key(r1, n1) == Key(r2, n2)
    ensures r1 == r2 && n1 == n2
  {
    ParseKeyRoundTrip(r1, n1);
    ParseKeyRoundTrip(r2, n2);
  }

  /** The connectivity key is not the key of any entity rule. */
  lemma ConnectionKeyIsNoEntityKey()
    ensures ParseKey(ConnectionKey) == None
  {
    assert ConnectionKey[0] == 'c';
  }

  /** Different (rule, name) pairs have different keys. */
  lemma KeysDiffer(r1: Rule, n1: string, r2: Rule, n2: string)
    requires r1 != r2 || n1 != n2
    ensures Key(r1, n1) != Key(r2, n2)
  {
    if Key(r1, n1) == Key(r2, n2) { KeyInjective(r1, n1, r2, n2); }
  }

  /** No two firings in `fs` share a key. */
  predicate KeysDistinct(fs: seq<Firing>)
  {
    forall i, j :: 0 <= i < j < |fs| ==> fs[i].key != fs[j].key
  }

  lemma DistinctAppend(a: seq<Firing>, b: seq<Firing>)
    requires KeysDistinct(a) && KeysDistinct(b)
    requires forall x, y :: x in a && y in b ==> x.key != y.key
    ensures KeysDistinct(a + b)
  {
    var ab := a + b;
    forall i, j | 0 <= i < j < |ab| ensures ab[i].key != ab[j].key {
      if j < |a| {
        assert ab[i] == a[i] && ab[j] == a[j];
      } else if i >= |a| {
        assert ab[i] == b[i - |a|] && ab[j] == b[j - |a|];
      } else {
        assert ab[i] in a && ab[j] in b;
      }
    }
  }
}
