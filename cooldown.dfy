/**
 * The cooldown tracker as functions of its state: the map from alert key to the time of its
 * last notification. `Track` is one check-and-record; `Gate` runs a sequence of firings
 * through the tracker and collects the alerts it lets through.
 */
module Cooldown {
  import opened Wrappers
  import opened Alerts

  type Timestamps = map<string, real>

  /** The cooldown a call passes, or the tracker's default when it passes none. */
  function EffectiveCooldown(cooldown: Option<int>, default: int): (cd: int)
    ensures cooldown.Some? ==> cd == cooldown.value
    ensures cooldown.None? ==> cd == default
  {
    cooldown.GetOr(default)
  }

  /** The tracker lets `key` through at `now` when it has no record or the record is `cd` old. */
  predicate Permits(last: Timestamps, key: string, cd: int, now: real)
  {
    key !in last || now - last[key] >= cd as real
  }

  /** One check-and-record: whether to notify, and the map afterwards. */
  function Track(last: Timestamps, key: string, cd: int, now: real): (bool, Timestamps)
  {
    if Permits(last, key, cd, now) then (true, last[key := now]) else (false, last)
  }

  /**
   * What one check does to the map: it notifies exactly when the key has no record or its
   * record is at least `cd` old; a notification writes exactly the entry for `key`, with `now`;
   * a suppression changes nothing; the entries of other keys are never touched.
   */
  lemma TrackSpec(last: Timestamps, key: string, cd: int, now: real)
    ensures var (ok, m) := Track(last, key, cd, now);
            && (ok <==> key !in last || now - last[key] >= cd as real)
            && (ok ==> m.Keys == last.Keys + {key} && m[key] == now)
            && (!ok ==> m == last)
            && (forall k :: k in last && k != key ==> k in m && m[k] == last[k])
  {
  }

  /** A second check of a key strictly within its cooldown of a notification is suppressed. */
  lemma SuppressedWithinCooldown(last: Timestamps, key: string, cd: int, t1: real, t2: real)
    requires Track(last, key, cd, t1).0
    requires t1 <= t2 < t1 + cd as real
    ensures !Track(Track(last, key, cd, t1).1, key, cd, t2).0
    ensures Track(Track(last, key, cd, t1).1, key, cd, t2).1 == Track(last, key, cd, t1).1
  {
  }

  /** The first check of a key at or after its cooldown has passed notifies again. */
  lemma FiresAgainAfterCooldown(last: Timestamps, key: string, cd: int, t1: real, t2: real)
    requires Track(last, key, cd, t1).0
    requires t2 >= t1 + cd as real
    ensures Track(Track(last, key, cd, t1).1, key, cd, t2).0
    ensures Track(Track(last, key, cd, t1).1, key, cd, t2).1 == Track(last, key, cd, t1).1[key := t2]
  {
  }

  /** No recorded time is later than `now`. */
  predicate NotAfter(last: Timestamps, now: real)
  {
    forall k :: k in last ==> last[k] <= now
  }

  /** The candidate alerts of a sequence of firings. */
  function Candidates(fs: seq<Firing>): set<Alert>
  {
    set f | f in fs :: Alert(f.key, f.severity)
  }

  function AlertKeySet(sent: seq<Alert>): set<string>
  {
    set a | a in sent :: a.key
  }

  /** The number of alerts in `sent` that carry `key`. */
  function Sent(sent: seq<Alert>, key: string): nat
  {
    if sent == [] then 0
    else Sent(sent[..|sent| - 1], key) + (if sent[|sent| - 1].key == key then 1 else 0)
  }

  /** One firing checked against the tracker: the alert is appended when it is let through. */
  function Step(default: int, acc: (seq<Alert>, Timestamps), f: Firing, now: real): (seq<Alert>, Timestamps)
  {
    var (ok, m) := Track(acc.1, f.key, EffectiveCooldown(f.cooldown, default), now);
    (if ok then acc.0 + [Alert(f.key, f.severity)] else acc.0, m)
  }

  /** The firings `fs` checked in order against the tracker at time `now`: the alerts let through, and the map afterwards. */
  function Gate(default: int, last: Timestamps, fs: seq<Firing>, now: real): (r: (seq<Alert>, Timestamps))
    ensures |r.0| <= |fs|
    decreases |fs|
  {
    if fs == [] then ([], last)
    else Step(default, Gate(default, last, fs[..|fs| - 1], now), fs[|fs| - 1], now)
  }

  /**
   * Only candidates of `fs` are sent; the new map has exactly the old keys and the sent keys,
   * and every entry in it is either the old one or `now`.
   */
  lemma {:induction false} GateShape(default: int, last: Timestamps, fs: seq<Firing>, now: real)
    ensures var (sent, m) := Gate(default, last, fs, now);
            && (forall a :: a in sent ==> a in Candidates(fs))
            && m.Keys == last.Keys + AlertKeySet(sent)
            && (forall k :: k in m ==> (k in last && m[k] == last[k]) || m[k] == now)
    decreases |fs|
  {
    if fs != [] {
      var init, f := fs[..|fs| - 1], fs[|fs| - 1];
      GateShape(default, last, init, now);
      var (sent, m) := Gate(default, last, init, now);
      assert Candidates(init) <= Candidates(fs);
      var ok := Permits(m, f.key, EffectiveCooldown(f.cooldown, default), now);
      if ok {
        assert AlertKeySet(sent + [Alert(f.key, f.severity)]) == AlertKeySet(sent) + {f.key};
      }
    }
  }

  /** Running one more firing is one more step. */
  lemma GateSnoc(default: int, last: Timestamps, fs: seq<Firing>, f: Firing, now: real)
    ensures Gate(default, last, fs + [f], now) == Step(default, Gate(default, last, fs, now), f, now)
  {
    assert (fs + [f])[..|fs|] == fs;
  }

  /** Sending alerts ahead of a step leaves them in front of what the step sends. */
  lemma StepAfter(default: int, prefix: seq<Alert>, acc: (seq<Alert>, Timestamps), f: Firing, now: real)
    ensures Step(default, (prefix + acc.0, acc.1), f, now)
            == (prefix + Step(default, acc, f, now).0, Step(default, acc, f, now).1)
  {
    assert prefix + acc.0 + [Alert(f.key, f.severity)] == prefix + (acc.0 + [Alert(f.key, f.severity)]);
  }

  /** Running `a` then `b` is running `a + b`. */
  lemma {:induction false} GateAppend(default: int, last: Timestamps, a: seq<Firing>, b: seq<Firing>, now: real)
    ensures Gate(default, last, a + b, now)
            == (Gate(default, last, a, now).0 + Gate(default, Gate(default, last, a, now).1, b, now).0,
                Gate(default, Gate(default, last, a, now).1, b, now).1)
    decreases |b|
  {
    if b == [] {
      var ga := Gate(default, last, a, now);
      assert a + b == a && ga.0 + [] == ga.0;
    } else {
      var b', x := b[..|b| - 1], b[|b| - 1];
      GateAppend(default, last, a, b', now);
      assert (a + b)[..|a + b| - 1] == a + b';
      assert (a + b)[|a + b| - 1] == x;
      var ga := Gate(default, last, a, now);
      StepAfter(default, ga.0, Gate(default, ga.1, b', now), x, now);
    }
  }

  /** The same, for a caller that holds the results of the two runs. */
  lemma GateExtend(default: int, last: Timestamps, a: seq<Firing>, b: seq<Firing>, now: real,
                   sa: seq<Alert>, ma: Timestamps, sb: seq<Alert>, mb: Timestamps)
    requires (sa, ma) == Gate(default, last, a, now)
    requires (sb, mb) == Gate(default, ma, b, now)
    ensures (sa + sb, mb) == Gate(default, last, a + b, now)
  {
    GateAppend(default, last, a, b, now);
  }

  /** What one step does for a given key, whether or not the step is about that key. */
  lemma StepFacts(default: int, acc: (seq<Alert>, Timestamps), f: Firing, now: real, key: string)
    ensures var (sent, m) := Step(default, acc, f, now);
            var ok := Permits(acc.1, f.key, EffectiveCooldown(f.cooldown, default), now);
            && (f.key != key ==> Sent(sent, key) == Sent(acc.0, key) && (key in m <==> key in acc.1)
                                 && (key in acc.1 ==> m[key] == acc.1[key]))
            && (f.key == key ==> Sent(sent, key) == Sent(acc.0, key) + (if ok then 1 else 0)
                                 && (ok ==> key in m && m[key] == now && Alert(f.key, f.severity) in sent)
                                 && (!ok ==> m == acc.1))
  {
    var a := Alert(f.key, f.severity);
    assert (acc.0 + [a])[..|acc.0|] == acc.0;
  }

  /** Firings for other keys neither send `key` nor change its entry. */
  lemma {:induction false} GateFrame(default: int, last: Timestamps, fs: seq<Firing>, now: real, key: string)
    requires forall i :: 0 <= i < |fs| ==> fs[i].key != key
    ensures Sent(Gate(default, last, fs, now).0, key) == 0
    ensures key in Gate(default, last, fs, now).1 <==> key in last
    ensures key in last ==> Gate(default, last, fs, now).1[key] == last[key]
    decreases |fs|
  {
    if fs != [] {
      var init := fs[..|fs| - 1];
      GateFrame(default, last, init, now, key);
      StepFacts(default, Gate(default, last, init, now), fs[|fs| - 1], now, key);
    }
  }

  /**
   * With pairwise distinct keys, each firing's outcome depends on the old map alone: it sends
   * exactly one alert (with its severity) and records `now` when the tracker permits it, and
   * sends nothing and keeps the old entry otherwise.
   */
  lemma {:induction false} GateOutcome(default: int, last: Timestamps, fs: seq<Firing>, now: real, i: nat)
    requires KeysDistinct(fs) && i < |fs|
    ensures var (sent, m) := Gate(default, last, fs, now);
            var f := fs[i];
            var ok := Permits(last, f.key, EffectiveCooldown(f.cooldown, default), now);
            && Sent(sent, f.key) == (if ok then 1 else 0)
            && (ok ==> Alert(f.key, f.severity) in sent && f.key in m && m[f.key] == now)
            && (!ok ==> f.key in m && m[f.key] == last[f.key])
    decreases |fs|
  {
    var init := fs[..|fs| - 1];
    var f := fs[i];
    var acc := Gate(default, last, init, now);
    if i == |fs| - 1 {
      GateFrame(default, last, init, now, f.key);
    } else {
      GateOutcome(default, last, init, now, i);
      assert fs[|fs| - 1].key != f.key;
    }
    StepFacts(default, acc, fs[|fs| - 1], now, f.key);
    if i < |fs| - 1 {
      var ok := Permits(last, f.key, EffectiveCooldown(f.cooldown, default), now);
      if ok {
        assert Alert(f.key, f.severity) in acc.0;
        assert Step(default, acc, fs[|fs| - 1], now).0[..|acc.0|] == acc.0;
      }
    }
  }

  /**
   * A key whose record is younger than the cooldown of every firing for it is not sent, and
   * its record stays as it was.
   */
  lemma {:induction false} GateSuppresses(default: int, last: Timestamps, fs: seq<Firing>, now: real, key: string)
    requires key in last
    requires forall i :: 0 <= i < |fs| && fs[i].key == key ==>
               now - last[key] < EffectiveCooldown(fs[i].cooldown, default) as real
    ensures Sent(Gate(default, last, fs, now).0, key) == 0
    ensures key in Gate(default, last, fs, now).1 && Gate(default, last, fs, now).1[key] == last[key]
    decreases |fs|
  {
    if fs != [] {
      var init := fs[..|fs| - 1];
      GateSuppresses(default, last, init, now, key);
      StepFacts(default, Gate(default, last, init, now), fs[|fs| - 1], now, key);
    }
  }

  /**
   * When every firing for `key` has a positive cooldown, `key` is sent at most once per run,
   * even if it fires several times; once sent, its record is `now`.
   */
  lemma {:induction false} GateAtMostOnce(default: int, last: Timestamps, fs: seq<Firing>, now: real, key: string)
    requires forall i :: 0 <= i < |fs| && fs[i].key == key ==> EffectiveCooldown(fs[i].cooldown, default) > 0
    ensures Sent(Gate(default, last, fs, now).0, key) <= 1
    ensures Sent(Gate(default, last, fs, now).0, key) == 1 ==>
              key in Gate(default, last, fs, now).1 && Gate(default, last, fs, now).1[key] == now
    decreases |fs|
  {
    if fs != [] {
      var init := fs[..|fs| - 1];
      GateAtMostOnce(default, last, init, now, key);
      StepFacts(default, Gate(default, last, init, now), fs[|fs| - 1], now, key);
    }
  }

  /** A run of the tracker never records a time later than `now`. */
  lemma GateNotAfter(default: int, last: Timestamps, fs: seq<Firing>, now: real)
    requires NotAfter(last, now)
    ensures NotAfter(Gate(default, last, fs, now).1, now)
  {
    GateShape(default, last, fs, now);
  }

  /** An alert in the list is counted for its key. */
  lemma {:induction false} SentMember(sent: seq<Alert>, a: Alert)
    requires a in sent
    ensures Sent(sent, a.key) > 0
    decreases |sent|
  {
    if sent[|sent| - 1] != a {
      var init := sent[..|sent| - 1];
      assert sent == init + [sent[|sent| - 1]];
      SentMember(init, a);
    }
  }

  /** Under distinct keys, an alert let through from `fs` is also let through from any `gs` holding the same firings. */
  lemma AlertSurvivesReorder(default: int, last: Timestamps, fs: seq<Firing>, gs: seq<Firing>, now: real, a: Alert)
    requires KeysDistinct(fs) && KeysDistinct(gs)
    requires forall f :: f in fs ==> f in gs
    requires a in Gate(default, last, fs, now).0
    ensures a in Gate(default, last, gs, now).0
  {
    GateShape(default, last, fs, now);
    var f :| f in fs && a == Alert(f.key, f.severity);
    var i :| 0 <= i < |fs| && fs[i] == f;
    var j :| 0 <= j < |gs| && gs[j] == f;
    SentMember(Gate(default, last, fs, now).0, a);
    GateOutcome(default, last, fs, now, i);
    GateOutcome(default, last, gs, now, j);
  }

  /**
   * Under distinct keys the order of the firings does not matter: any reordering lets the
   * same alerts through, each the same number of times, and leaves the same map.
   */
  lemma GateReorder(default: int, last: Timestamps, fs: seq<Firing>, gs: seq<Firing>, now: real)
    requires KeysDistinct(fs) && KeysDistinct(gs)
    requires forall f :: f in fs <==> f in gs
    ensures Gate(default, last, fs, now).1 == Gate(default, last, gs, now).1
    ensures forall k :: Sent(Gate(default, last, fs, now).0, k) == Sent(Gate(default, last, gs, now).0, k)
    ensures forall a :: a in Gate(default, last, fs, now).0 <==> a in Gate(default, last, gs, now).0
  {
    var (s1, m1) := Gate(default, last, fs, now);
    var (s2, m2) := Gate(default, last, gs, now);
    forall k
      ensures Sent(s1, k) == Sent(s2, k)
      ensures (k in m1 <==> k in m2) && (k in m1 ==> m1[k] == m2[k])
    {
      if i :| 0 <= i < |fs| && fs[i].key == k {
        assert fs[i] in fs;
        var j :| 0 <= j < |gs| && gs[j] == fs[i];
        GateOutcome(default, last, fs, now, i);
        GateOutcome(default, last, gs, now, j);
      } else {
        forall j | 0 <= j < |gs| ensures gs[j].key != k {
          assert gs[j] in fs;
        }
        GateFrame(default, last, fs, now, k);
        GateFrame(default, last, gs, now, k);
      }
    }
    assert m1 == m2;
    forall a ensures a in s1 <==> a in s2 {
      if a in s1 { AlertSurvivesReorder(default, last, fs, gs, now, a); }
      if a in s2 { AlertSurvivesReorder(default, last, gs, fs, now, a); }
    }
  }
}
