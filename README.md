# RabbitMQ monitor alert engine in Dafny

`monitor.py` polls the RabbitMQ management API. For every queue and node record it
evaluates a set of health rules. A rule that fires is sent to Slack through a per-key
cooldown tracker.

This project models that alert engine and proves properties of it:

- how the long-running queue override list is parsed from `LONG_JOB_QUEUES`;
- the per-queue `(threshold, cooldown)` lookup;
- the check-and-record cooldown tracker `should_send_alert`, over its `last_alerts` map;
- the connection-failure counter kept by `get_api_data`;
- the condition, alert key and severity of every queue, node and connectivity rule;
- one complete health-check cycle.

The model has two layers:

- **Specification functions.** `QueueList`, `Config`, `Snapshots`, `Alerts`, `Rules`,
  `Cooldown`, `Fetch` and `Cycle` hold the pure logic as functions, with lemmas about them.
- **Monitor object.** In `Monitor`, the class `RabbitMQMonitor` keeps the tracker map and
  the failure counter as fields that its methods update in place. Every method is proved
  against the specification functions. The two health checks are loops over the fetched
  records.

The boundaries of the model:

- An HTTP request is replaced by its outcome: a status with a decoded body, a 200 whose body
  did not decode, or an exception.
- Slack is replaced by the sequence of `(key, severity)` alerts handed to it.
- `time.time()` is replaced by a `now` parameter. One cycle uses a single `now` for every tracker
  call it makes; "## Left out" says what this hides.
- The environment is replaced by optional, already-parsed values.

## Decisions

- **Order of the three checks.** `run_health_check` starts the queue, node and
  connectivity checks together with `asyncio.gather` (monitor.py:269-273).
  - **Connectivity runs first.** The queue and node checks suspend inside their HTTP request
    before they touch the counter. `check_connections` reads the counter before its first
    suspension point. So the model runs the connectivity rule first, on the counter as the
    cycle found it.
  - **The completion order is an input.** Each of the other two checks updates the counter
    and evaluates its records when its own request completes. `Cycle.RunCycle` therefore
    takes `nodesFirst`, which says which request completed first, and applies the two
    outcomes to the counter in that order.
  - **How much the order matters.** `Cycle.CycleCounterOrderMatters` shows that the order can
    change the counter. `Cycle.CycleCounter` gives the counter for every pair of outcomes,
    with each fetch's update taken as one step.
    `Cycle.CycleOrderIrrelevant` shows that the order does not change the alerts sent or the
    map left behind, at the cycle's one instant. It also covers any interleaving of the
    queue and node alerts. Both hold as long as the queue names and the node names are each
    distinct.
- **The vhost is not part of the key.** Queue alert keys are built from the queue name
  alone (monitor.py:142-183). Two queues of the same name in different virtual hosts
  therefore share every key, and so they share their cooldowns. The model follows the code;
  `Rules.VhostNotInKey` states it. Key distinctness across a cycle is proved under the
  hypothesis that the queue names are distinct.
- **A 200 with a body that does not decode.** `await response.json()` can raise. It raises
  inside the same `try` as the request, after the counter was reset to 0. For a fetch on
  its own the counter therefore ends at 1, and `Fetch.FailuresAfter` models exactly that.
  The model treats the reset and the count as one step; "## Left out" says which
  schedule of the two fetches this misses.
- **Exact arithmetic.** Rates and percentages are exact `real`s, computed by the source's
  own formulas. `Rules.MemoryRule` and `Rules.DiskRule` prove them equal to integer
  cross-multiplication. Times are `real`s, because `time.time()` is a float; cooldowns are
  integers.
- **Missing fields.** Every field of a queue or node record is optional. A missing field
  reads as the default the source passes to `.get`: name `unknown`, vhost `/`, counts 0,
  `mem_limit` 1, `disk_free` 1, `disk_free_limit` 0, `running` false, rate 0.

## Model

| member | source | states |
|---|---|---|
| QueueList.Strip | monitor.py:56 | `q.strip()` gives a slice of the input with no leading or trailing whitespace, and only whitespace is removed on either side |
| QueueList.StripEmptyIffAllSpace | monitor.py:56 | a piece strips to the empty string exactly when it is all whitespace |
| QueueList.StripChars | monitor.py:56 | stripping introduces no characters |
| QueueList.Split | monitor.py:56 | `split(',')` yields at least one piece, and no piece contains a comma |
| QueueList.JoinSplit | monitor.py:56 | joining the pieces of `split(',')` with commas gives back the original string |
| QueueList.NonBlankStripped | monitor.py:56 | the comprehension keeps no more names than there are pieces, and every kept name is non-empty and stripped |
| QueueList.NonBlankStrippedMembers | monitor.py:56 | a name is kept exactly when it is non-empty and is the stripped form of some piece |
| QueueList.NonBlankStrippedEmpty | monitor.py:56 | nothing is kept exactly when every piece is whitespace only |
| QueueList.ParseLongJobQueues | monitor.py:55-59 | the override list is never empty; every name is non-empty, stripped and comma-free; it is the built-in pair when no piece is non-blank, and the stripped non-blank pieces otherwise |
| QueueList.DefaultsWellFormed | monitor.py:56-59 | the two built-in queue names are non-empty, stripped and comma-free |
| QueueList.ParseUnset | monitor.py:55-59 | an unset `LONG_JOB_QUEUES` (read as the empty string) gives the built-in pair |
| Config.DefaultThresholds | monitor.py:23-32 | the `AlertThresholds` dataclass defaults 1000, 500, 1, 80, 85, 100, 3; `Config.ThresholdsFromEnvironment` proves they are the thresholds when no variable is set |
| Config.ThresholdsFromEnvironment | monitor.py:304-310 | each of the six thresholds takes the value of its variable when it is set and keeps its default when it is not; the connection-failure threshold stays at 3; with nothing set, the thresholds are the defaults 1000, 500, 1, 80, 85, 100, 3 |
| Config.ConfigFromEnvironment | monitor.py:55-63 | the override list is parsed from `LONG_JOB_QUEUES`; a set threshold or cooldown variable is used as given; unset variables give the built-in queue pair, override threshold 1000000, override cooldown 10800 and default cooldown 1800 |
| Config.GetQueueConfig | monitor.py:35-39 | a listed queue gets the override threshold and the override cooldown, any other queue the global threshold and the default cooldown; never a mix of the two |
| Snapshots.QueueName | monitor.py:135 | a missing `name` reads as `unknown`; contract in `Snapshots.QueueFieldsRead` |
| Snapshots.VHost | monitor.py:136 | a missing `vhost` reads as `/`; contract in `Snapshots.QueueFieldsRead` |
| Snapshots.Messages | monitor.py:140 | a missing `messages` reads as 0; contract in `Snapshots.QueueFieldsRead` |
| Snapshots.Unacked | monitor.py:153 | a missing `messages_unacknowledged` reads as 0; contract in `Snapshots.QueueFieldsRead` |
| Snapshots.Consumers | monitor.py:165 | a missing `consumers` reads as 0; contract in `Snapshots.QueueFieldsRead` |
| Snapshots.QueueFieldsRead | monitor.py:135-165 | every queue field reads as its value when present and as the `.get` default when missing |
| Snapshots.QueueRatesRead | monitor.py:177-179 | a rate reads as its value when `message_stats`, the details object and `rate` are all present, and as 0 when any of them is missing |
| Snapshots.NodeName | monitor.py:202 | a missing `name` reads as `unknown`; contract in `Snapshots.NodeFieldsRead` |
| Snapshots.MemUsed | monitor.py:205 | a missing `mem_used` reads as 0; contract in `Snapshots.NodeFieldsRead` |
| Snapshots.MemLimit | monitor.py:206 | a missing `mem_limit` reads as 1; contract in `Snapshots.NodeFieldsRead` |
| Snapshots.DiskFree | monitor.py:223 | a missing `disk_free` reads as 1; contract in `Snapshots.NodeFieldsRead` |
| Snapshots.DiskFreeLimit | monitor.py:224 | a missing `disk_free_limit` reads as 0; contract in `Snapshots.NodeFieldsRead` |
| Snapshots.Running | monitor.py:240 | a missing `running` reads as false; contract in `Snapshots.NodeFieldsRead` |
| Snapshots.NodeFieldsRead | monitor.py:202-240 | every node field reads as its value when present and as the `.get` default when missing |
| Snapshots.PublishRate | monitor.py:177-178 | without `message_stats` the publish rate reads 0 |
| Snapshots.ConsumeRate | monitor.py:177-179 | without `message_stats` the consume rate reads 0 |
| Alerts.Prefix | monitor.py:142-242 | the seven key prefixes as the f-strings write them; `Alerts.PrefixesPrefixFree` proves that none is a prefix of another |
| Alerts.Key | monitor.py:142-242 | a key is the rule's prefix followed by the entity name; `Alerts.ParseKeyRoundTrip` and `Alerts.KeyInjective` prove it injective |
| Alerts.PrefixesPrefixFree | monitor.py:142-242 | no rule's key prefix is a prefix of another rule's |
| Alerts.ParseKeyRoundTrip | monitor.py:142-242 | a key decodes back to its rule and entity name |
| Alerts.KeyInjective | monitor.py:142-242 | equal keys mean the same rule and the same entity name |
| Alerts.KeysDiffer | monitor.py:142-242 | a different rule or a different name gives a different key |
| Alerts.ConnectionKeyIsNoEntityKey | monitor.py:254 | `connection_failures` is no rule's key for any entity |
| Rules.QueueRuleFires | monitor.py:141-182 | the conditions of the backup, unacknowledged, missing-consumers and halt rules; their meaning is stated by `Rules.QueueFiringsMembers`, `Rules.MissingQueueFields`, `Rules.NoConsumersAlertForEmptyQueue` and `Rules.OverrideThreshold` |
| Rules.QueueSeverity | monitor.py:150-192 | the queue alert severities; contract in `Rules.QueueSeverityRule` |
| Rules.QueueSeverityRule | monitor.py:150-192 | backup and halt alerts are critical; unacknowledged and missing-consumer alerts are warnings |
| Rules.MemoryPercent | monitor.py:207 | the memory percentage, 0 for a limit of 0 or less; `Rules.MemoryRule` and `Rules.MemorySeverityRule` state it as cross-multiplication |
| Rules.DiskUsedPercent | monitor.py:226 | the disk percentage, computed only when limit and free space are positive; `Rules.DiskRule` states it as cross-multiplication |
| Rules.NodeRuleFires | monitor.py:207-241 | the conditions of the memory, disk and node-down rules; their meaning is stated by `Rules.MemoryRule`, `Rules.DiskRule`, `Rules.NodeDownRule` and `Rules.NodeFiringsMembers` |
| Rules.NodeSeverity | monitor.py:212-236 | the node alert severities; contract in `Rules.MemorySeverityRule` and `Rules.NodeSeverityRule` |
| Rules.NodeSeverityRule | monitor.py:236-248 | disk and node-down alerts are always critical |
| Rules.ConnectivityFires | monitor.py:253 | the connectivity condition `failures >= threshold`; `Cycle.ConnectivityUsesStartingCounter` states it for a cycle |
| Rules.ConnectivityFirings | monitor.py:253-255 | the critical `connection_failures` alert with the default cooldown, present exactly when the counter reaches the threshold; contract in `Cycle.ConnectivityUsesStartingCounter` |
| Rules.PercentAbove | monitor.py:207-209 | a ratio times 100 is above a whole threshold exactly when the integer cross product is |
| Rules.MemoryRule | monitor.py:205-209 | the memory rule fires exactly when `mem_used*100 > threshold*mem_limit` for a positive limit; with a limit of 0 or less the percent reads 0 |
| Rules.MemorySeverityRule | monitor.py:212 | the memory alert is critical exactly when usage is above 90 percent of a positive limit, and warning otherwise |
| Rules.DiskRule | monitor.py:223-227 | the disk rule fires exactly when limit and free space are positive and `(limit-free)*100 > threshold*limit` |
| Rules.NodeDownRule | monitor.py:240-241 | the node-down rule fires exactly when `running` is missing or false |
| Rules.MissingQueueFields | monitor.py:140-182 | without `message_stats` or `publish_details` the halt rule does not fire; without `messages` the missing-consumers rule does not fire, and backup fires only for a negative threshold; without the unacked count the unacked rule fires only for a negative threshold |
| Rules.NoConsumersAlertForEmptyQueue | monitor.py:165-166 | an empty queue raises no missing-consumers firing, whatever its consumer count |
| Rules.OverrideThreshold | monitor.py:138-143 | one message over the global threshold raises backup for an unlisted queue but not for a listed one with a higher override; the listed queue's backup uses the override cooldown |
| Rules.QueueFiring | monitor.py:141-193 | a queue rule's alert: the rule's key for the queue name, the rule's severity and the queue's `get_queue_config` cooldown; contract in `Rules.QueueFiringsShape` and `Cycle.QueuesFiringsKeys` |
| Rules.QueueFirings | monitor.py:141-193 | the queue rules that fire for one queue, in source order; contract in `Rules.QueueFiringsMembers`, `Rules.QueueFiringsShape` and `Rules.QueueFiringsDistinct` |
| Rules.QueueFiringsMembers | monitor.py:134-193 | a queue's firings hold each queue rule's firing exactly when that rule's condition holds |
| Rules.QueueFiringsShape | monitor.py:134-193 | every firing of a queue is a queue rule's firing whose condition holds, keyed by that rule and the queue name |
| Rules.QueueFiringsDistinct | monitor.py:142-183 | the four queue rules give four different keys |
| Rules.NodeFiring | monitor.py:207-249 | a node rule's alert: the rule's key for the node name, the rule's severity and no cooldown, so the default applies; contract in `Rules.NodeFiringsShape` and `Cycle.NodesFiringsKeys` |
| Rules.NodeFirings | monitor.py:207-249 | the node rules that fire for one node, in source order; contract in `Rules.NodeFiringsMembers`, `Rules.NodeFiringsShape` and `Rules.NodeFiringsDistinct` |
| Rules.NodeFiringsMembers | monitor.py:201-249 | a node's firings hold each node rule's firing exactly when that rule's condition holds |
| Rules.NodeFiringsShape | monitor.py:201-249 | every firing of a node is a node rule's firing whose condition holds, keyed by that rule and the node name |
| Rules.NodeFiringsDistinct | monitor.py:210-242 | the three node rules give three different keys |
| Rules.VhostNotInKey | monitor.py:135-142 | two queues with the same name in different vhosts get the same key for every rule |
| Cooldown.EffectiveCooldown | monitor.py:105 | a cooldown the caller passes is used as given, and the tracker's default is used when none is passed |
| Cooldown.Permits | monitor.py:106-107 | a key passes when it has no record or its record is at least the cooldown old; `Cooldown.TrackSpec` states it as the tracker's answer |
| Cooldown.Track | monitor.py:102-110 | the tracker's check-and-record as a function of the map; contract in `Cooldown.TrackSpec` |
| Cooldown.TrackSpec | monitor.py:102-110 | the tracker allows a key exactly when it has no record or the record is at least the cooldown old; when allowed, only that key's entry is written (with `now`); when refused, the map is unchanged |
| Cooldown.SuppressedWithinCooldown | monitor.py:106-108 | a second call for the same key strictly within the cooldown is refused and changes nothing |
| Cooldown.FiresAgainAfterCooldown | monitor.py:106-110 | the first call at or after the cooldown is allowed and records the new time |
| Cooldown.Step | monitor.py:143-151 | one tracker call followed by the Slack post when it answers yes; contract in `Cooldown.StepFacts` |
| Cooldown.StepFacts | monitor.py:102-110 | one step sends the firing's alert and records `now` for its key exactly when the tracker lets it through, leaves the map unchanged otherwise, and changes nothing for any other key |
| Cooldown.Gate | monitor.py:134-255 | the firings checked in order against the tracker, each alert appended when let through; contract in `Cooldown.GateShape`, `Cooldown.GateOutcome`, `Cooldown.GateFrame` and `Cooldown.GateReorder` |
| Cooldown.GateAppend | monitor.py:269-273 | running one batch of firings and then another through the tracker is running their concatenation, which is how one cycle's checks compose |
| Cooldown.GateShape | monitor.py:102-110 | over a run of calls only candidates are sent; the new map holds the old keys plus the sent keys, each entry either old or `now` |
| Cooldown.GateFrame | monitor.py:109 | calls for other keys neither send a key nor touch its entry |
| Cooldown.GateOutcome | monitor.py:102-110 | with distinct keys, each firing's key is sent exactly once, with its severity, when the tracker allows it, and not at all otherwise; its entry becomes `now` or stays |
| Cooldown.GateSuppresses | monitor.py:106-108 | a key whose record is younger than every cooldown it is checked with is not sent, and its record stays |
| Cooldown.GateAtMostOnce | monitor.py:105-110 | with positive cooldowns a key is sent at most once per run, and once sent its record is `now` |
| Cooldown.GateNotAfter | monitor.py:104-109 | no recorded time is ever later than `now` |
| Cooldown.GateReorder | monitor.py:269-273 | with distinct keys, checking the same firings in another order sends the same alerts, each as often, and leaves the same map |
| Fetch.FailuresAfter | monitor.py:117-127 | the counter after one fetch; `Fetch.FailuresCountsExceptions` states what it counts over a run of fetches |
| Fetch.Payload | monitor.py:117-127 | a fetch yields a list exactly when it answered 200 with a body that decoded, and then yields that body |
| Fetch.FailuresAfterAll | monitor.py:117-127 | the counter after a run of fetches, one after another; contract in `Fetch.FailuresCountsExceptions` and `Fetch.FailuresAfterSuccess` |
| Fetch.FailuresCountsExceptions | monitor.py:117-127 | after a run of fetches the counter is the number of exceptions since the last 200, plus one if that 200's body failed to decode; with no 200, it is the start value plus all exceptions; a non-200 answer is never counted |
| Fetch.FailuresAfterSuccess | monitor.py:118-125 | `n` exceptions in a row after a 200 leave the counter at `n` |
| Cycle.RunCycle | monitor.py:264-273 | one cycle: connectivity on the starting counter, then the records of the fetch that completed first, then the other's, all through one tracker; its contract is in `Cycle.CycleSendsFiringKey`, `Cycle.CycleIgnoresOtherKeys`, `Cycle.CycleOrderIrrelevant`, `Cycle.CycleCounter` and `Cycle.CooldownAcrossCycles` |
| Cycle.FailuresAfterCycle | monitor.py:117-127 | the counter after both fetches, applied in completion order; contract in `Cycle.CycleCounter` |
| Cycle.CycleCounter | monitor.py:117-127 | with each fetch's update taken as one step: with no 200 both exceptions are added in either order; otherwise the fetch completing last decides: its 200 leaves 0, or 1 for an undecodable body, and its exception adds one to what the first left |
| Cycle.CycleCounterOrderMatters | monitor.py:269-273 | from a counter of 2, queues answering 200 and nodes raising leave 1 when the queues complete first and 0 when the nodes do |
| Cycle.Items | monitor.py:131-133 | the records a check evaluates: the decoded list of a 200, none otherwise (`if not queues: return`, also monitor.py:197-199); contract in `Fetch.Payload` |
| Cycle.QueuesFirings | monitor.py:134 | the firings of the queue loop, queue by queue; contract in `Cycle.QueuesFiringsKeys` and `Cycle.QueuesFiringsDistinct`, and `Monitor.RabbitMQMonitor.CheckQueueHealth` is proved equal to it |
| Cycle.NodesFirings | monitor.py:201 | the firings of the node loop, node by node; contract in `Cycle.NodesFiringsKeys` and `Cycle.NodesFiringsDistinct`, and `Monitor.RabbitMQMonitor.CheckNodeHealth` is proved equal to it |
| Cycle.CycleFirings | monitor.py:269-273 | the firings of one cycle in the tracker's order: connectivity, then the fetch that completed first, then the other; contract in `Cycle.CycleFiringsKeys` |
| Cycle.QueuesFiringsKeys | monitor.py:134-184 | every firing of a queue list is keyed by a queue rule and one of the queue names, and carries that queue's cooldown from `get_queue_config` |
| Cycle.QueuesFiringsDistinct | monitor.py:134-183 | with distinct queue names no key occurs twice among a queue list's firings |
| Cycle.NodesFiringsKeys | monitor.py:201-243 | every firing of a node list is keyed by a node rule and one of the node names, and carries the default cooldown |
| Cycle.NodesFiringsDistinct | monitor.py:201-242 | with distinct node names no key occurs twice among a node list's firings |
| Cycle.CycleFiringsKeys | monitor.py:142-255 | every firing of a cycle carries its key's cooldown; with distinct names no key occurs twice, and queue, node and connectivity keys never meet |
| Cycle.ConnectivityUsesStartingCounter | monitor.py:251-255 | the connectivity firing is among a cycle's firings exactly when the counter the cycle starts with has reached the threshold |
| Cycle.CycleSendsFiringKey | monitor.py:264-273 | in one cycle, with distinct names, a firing's key is sent exactly once, with that severity, when it has no record or the record is at least its cooldown old, and is then recorded at `now`; otherwise it is not sent and its record stays |
| Cycle.CycleIgnoresOtherKeys | monitor.py:264-273 | a key no rule fires for in a cycle is not sent, and its record, or its absence, stays |
| Cycle.CycleOrderIrrelevant | monitor.py:269-273 | with distinct names, any interleaving of a cycle's firings, whichever fetch completed first, sends the same alerts, each as often, and leaves the same map, at the cycle's one instant |
| Cycle.CooldownAcrossCycles | monitor.py:297-298 | once a cycle at `t1` sent a key, a later cycle strictly within the key's cooldown does not send it; at or after the cooldown it sends it exactly once if a rule still fires for it |
| Cycle.CycleNotAfter | monitor.py:297-298 | a cycle never records a time later than its own |
| Monitor.RabbitMQMonitor.constructor | monitor.py:51-66 | the monitor starts with no alert records and a failure counter of 0 |
| Monitor.RabbitMQMonitor.ShouldSendAlert | monitor.py:102-110 | the answer and the new map are those of `Track` with the given cooldown, or the default one when none is given |
| Monitor.RabbitMQMonitor.GetApiData | monitor.py:112-127 | the list returned is `Payload` of the outcome, and the counter becomes `FailuresAfter` of it |
| Monitor.RabbitMQMonitor.Notify | monitor.py:143-151 | checks one firing with the tracker and appends its alert when allowed: one `Step` |
| Monitor.RabbitMQMonitor.NotifyIf | monitor.py:141-151 | when the rule's condition holds, extends the run of the tracker by that firing; otherwise changes nothing |
| Monitor.RabbitMQMonitor.CheckQueue | monitor.py:134-193 | evaluates the four queue rules of one record in order; the alerts sent and the new map are the tracker's run over `QueueFirings` |
| Monitor.RabbitMQMonitor.CheckNode | monitor.py:201-249 | evaluates the three node rules of one record in order; the alerts sent and the new map are the tracker's run over `NodeFirings` |
| Monitor.RabbitMQMonitor.CheckQueueHealth | monitor.py:129-193 | fetches the queues, updates the counter by the outcome, and runs the tracker over the firings of every fetched queue, none when the fetch failed or was empty |
| Monitor.RabbitMQMonitor.CheckNodeHealth | monitor.py:195-249 | the same for the nodes |
| Monitor.RabbitMQMonitor.CheckConnections | monitor.py:251-262 | runs the tracker over the connectivity firing, present exactly when the counter has reached the threshold |
| Monitor.RabbitMQMonitor.RunHealthCheck | monitor.py:264-273 | runs connectivity, then the check whose request completed first, then the other; the alerts sent and the new map and counter are `RunCycle` of the old state, the two fetch outcomes and their completion order |

## Left out

- HTTP and Slack I/O (monitor.py:68-100, monitor.py:112-127): the request is an input outcome and the notifier is the list of alerts returned; message text, emoji, colours, number formatting and the Slack response status are not modelled.
- `asyncio.gather` concurrency (monitor.py:269-273): one cycle runs sequentially. Connectivity comes first, then the two checks in the completion order given by `nodesFirst`. `Cycle.CycleOrderIrrelevant` covers any other interleaving of the alerts.
- Cycle.RunCycle: connectivity always reads the counter the cycle started with. In the source, a request that raises before its first suspension point (a malformed URL, for example) bumps the counter before `check_connections` reads it, so the alert can come one cycle earlier; that schedule is not modelled.
- Cycle.RunCycle: every tracker call of a cycle is made at one instant `now`. The source reads `time.time()` in each `should_send_alert` call (monitor.py:104), and awaited Slack posts and fetches pass between calls, so the keys of one cycle get different, increasing times.
- Cycle.FailuresAfterCycle: a 200 writes the counter twice, the reset (monitor.py:119) and, when `await response.json()` then raises, the increment (monitor.py:125), with a suspension in between. The model applies the two writes of a fetch together, so it misses the schedule in which both fetches answer 200, both statuses arrive before either body read fails, and the counter ends at 2 rather than 1.
- Cycle.CycleCounter: it is stated for the same one-step schedules as `Cycle.FailuresAfterCycle`, and so does not cover the interleaved double decode failure that ends at 2.
- Cooldown.GateAtMostOnce: it holds because every call of a run is at the same instant. In the source a key checked twice in one cycle is sent twice if the time between the two checks reaches its cooldown.
- Cycle.CycleOrderIrrelevant: it holds at the cycle's one instant. In the source each tracker call reads its own time, and the interleaving decides when each key is checked. So the recorded times depend on the interleaving, and so do the alerts sent and the map's keys whenever a key's record reaches its cooldown during the cycle: checked just before that moment the key is refused, checked just after it is sent.
- The `MONITORING ERROR` alert sent when a check raises (monitor.py:275-282): exceptions inside the checks, for example from a non-numeric field, are outside the model, since every record field is typed.
- `start_monitoring` (monitor.py:284-299): the startup `info` alert and the endless loop with `sleep`; consecutive cycles are related by `Cycle.CooldownAcrossCycles`.
- Reading environment variables and `int()` parsing (monitor.py:42-63, monitor.py:304-313): values arrive already parsed, with `None` for unset; a malformed value, which makes the source raise at start-up, is not modelled; the connection parameters, credentials, webhook URL and monitoring interval have no effect on the rules and are left out.
- Floating point: percentages and rates are exact reals, so rounding at an exact boundary can differ from Python floats.
- A JSON body that is not a list of objects, such as an error dictionary, is outside the model; a 200 body is either a decoded list or a decoding failure.
- Logging.
- The scripts under `tests/`: they publish to a live broker and ask a person to check Slack, and have no checked outcomes to model.
- Monitor.RabbitMQMonitor.CheckNode: the memory severity is computed before the tracker is asked, not after; it is the same value either way.
