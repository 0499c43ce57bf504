/**
 * One poll's records for a queue and for a node, as returned by the management API. Every
 * field may be missing; the accessors give the default the monitor reads in its place.
 */
module Snapshots {
  import opened Wrappers

  /** A `*_details` object: only its `rate` is read. */
  datatype RateDetails = RateDetails(rate: Option<real>)

  /** A queue's `message_stats` object. */
  datatype MessageStats = MessageStats(
    publishDetails: Option<RateDetails>,
    deliverGetDetails: Option<RateDetails>)

  datatype QueueSnapshot = QueueSnapshot(
    name: Option<string>,
    vhost: Option<string>,
    messages: Option<int>,
    messagesUnacknowledged: Option<int>,
    consumers: Option<int>,
    messageStats: Option<MessageStats>)

  datatype NodeSnapshot = NodeSnapshot(
    name: Option<string>,
    memUsed: Option<int>,
    memLimit: Option<int>,
    diskFree: Option<int>,
    diskFreeLimit: Option<int>,
    running: Option<bool>)

  function QueueName(q: QueueSnapshot): string { q.name.GetOr("unknown") }
  function VHost(q: QueueSnapshot): string { q.vhost.GetOr("/") }
  function Messages(q: QueueSnapshot): int { q.messages.GetOr(0) }
  function Unacked(q: QueueSnapshot): int { q.messagesUnacknowledged.GetOr(0) }
  function Consumers(q: QueueSnapshot): int { q.consumers.GetOr(0) }

  /** The rate of an optional details object, 0 when it or its `rate` is missing. */
  function DetailsRate(d: Option<RateDetails>): real
  {
    match d
    case None => 0.0
    case Some(details) => details.rate.GetOr(0.0)
  }

  /** `message_stats.publish_details.rate`, with `{}` standing for every missing level. */
  function PublishRate(q: QueueSnapshot): (r: real)
    ensures q.messageStats.None? ==> r == 0.0
  {
    match q.messageStats
    case None => 0.0
    case Some(stats) => DetailsRate(stats.publishDetails)
  }

  /** `message_stats.deliver_get_details.rate`, likewise. */
  function ConsumeRate(q: QueueSnapshot): (r: real)
    ensures q.messageStats.None? ==> r == 0.0
  {
    match q.messageStats
    case None => 0.0
    case Some(stats) => DetailsRate(stats.deliverGetDetails)
  }

  function NodeName(n: NodeSnapshot): string { n.name.GetOr("unknown") }
  function MemUsed(n: NodeSnapshot): int { n.memUsed.GetOr(0) }
  function MemLimit(n: NodeSnapshot): int { n.memLimit.GetOr(1) }
  function DiskFree(n: NodeSnapshot): int { n.diskFree.GetOr(1) }
  function DiskFreeLimit(n: NodeSnapshot): int { n.diskFreeLimit.GetOr(0) }
  function Running(n: NodeSnapshot): bool { n.running.GetOr(false) }

  /** Each queue field reads as its value when present and as the monitor's default when missing. */
  lemma QueueFieldsRead(q: QueueSnapshot)
    ensures q.name.Some? ==> QueueName(q) == q.name.value
    ensures q.name.None? ==> QueueName(q) == "unknown"
    ensures q.vhost.Some? ==> VHost(q) == q.vhost.value
    ensures q.vhost.None? ==> VHost(q) == "/"
    ensures q.messages.Some? ==> Messages(q) == q.messages.value
    ensures q.messages.None? ==> Messages(q) == 0
    ensures q.messagesUnacknowledged.Some? ==> Unacked(q) == q.messagesUnacknowledged.value
    ensures q.messagesUnacknowledged.None? ==> Unacked(q) == 0
    ensures q.consumers.Some? ==> Consumers(q) == q.consumers.value
    ensures q.consumers.None? ==> Consumers(q) == 0
  {
  }

  /** A rate reads as its value when every level down to `rate` is present, and as 0 otherwise. */
  lemma QueueRatesRead(q: QueueSnapshot)
    ensures (q.messageStats.Some? && q.messageStats.value.publishDetails.Some?
             && q.messageStats.value.publishDetails.value.rate.Some?)
            ==> PublishRate(q) == q.messageStats.value.publishDetails.value.rate.value
    ensures (q.messageStats.None? || q.messageStats.value.publishDetails.None?
             || q.messageStats.value.publishDetails.value.rate.None?)
            ==> PublishRate(q) == 0.0
    ensures (q.messageStats.Some? && q.messageStats.value.deliverGetDetails.Some?
             && q.messageStats.value.deliverGetDetails.value.rate.Some?)
            ==> ConsumeRate(q) == q.messageStats.value.deliverGetDetails.value.rate.value
    ensures (q.messageStats.None? || q.messageStats.value.deliverGetDetails.None?
             || q.messageStats.value.deliverGetDetails.value.rate.None?)
            ==> ConsumeRate(q) == 0.0
  {
  }

  /** Each node field reads as its value when present and as the monitor's default when missing. */
  lemma NodeFieldsRead(n: NodeSnapshot)
    ensures n.name.Some? ==> NodeName(n) == n.name.value
    ensures n.name.None? ==> NodeName(n) == "unknown"
    ensures n.memUsed.Some? ==> MemUsed(n) == n.memUsed.value
    ensures n.memUsed.None? ==> MemUsed(n) == 0
    ensures n.memLimit.Some? ==> MemLimit(n) == n.memLimit.value
    ensures n.memLimit.None? ==> MemLimit(n) == 1
    ensures n.diskFree.Some? ==> DiskFree(n) == n.diskFree.value
    ensures n.diskFree.None? ==> DiskFree(n) == 1
    ensures n.diskFreeLimit.Some? ==> DiskFreeLimit(n) == n.diskFreeLimit.value
    ensures n.diskFreeLimit.None? ==> DiskFreeLimit(n) == 0
    ensures n.running.Some? ==> Running(n) == n.running.value
    ensures n.running.None? ==> !Running(n)
  {
  }
}
