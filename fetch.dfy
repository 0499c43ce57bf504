/**
 * The outcome of one request to the management API, as the monitor sees it, and the
 * connection-failure counter it drives: reset by an HTTP 200, raised by one on an
 * exception, left alone by any other status.
 */
module Fetch {
  import opened Wrappers

  /**
   * `Response(status, body)`: the server answered with `status`; for a 200, `body` is the
   * decoded JSON list, or `None` when decoding it raised. `Raised`: the request itself raised
   * (connection error, timeout).
   */
  datatype Fetch<T> = Response(status: int, body: Option<seq<T>>) | Raised

  /** A 200 whose body decoded. */
  predicate Succeeded<T>(f: Fetch<T>)
  {
    f.Response? && f.status == 200 && f.body.Some?
  }

  /**
   * The counter after one fetch. A 200 resets it before the body is read, so a 200 whose body
   * fails to decode resets it and then counts that exception.
   */
  function FailuresAfter<T>(failures: int, f: Fetch<T>): int
  {
    match f
    case Raised => failures + 1
    case Response(status, body) =>
      if status != 200 then failures
      else if body.None? then 1
      else 0
  }

  /** What the fetch hands back: the list on success, nothing otherwise. */
  function Payload<T>(f: Fetch<T>): (r: Option<seq<T>>)
    ensures r.Some? <==> Succeeded(f)
    ensures Succeeded(f) ==> r == f.body
  {
    if Succeeded(f) then f.body else None
  }

  /** The counter after a run of fetches, in order. */
  function FailuresAfterAll<T>(failures: int, fs: seq<Fetch<T>>): int
    decreases |fs|
  {
    if fs == [] then failures
    else FailuresAfter(FailuresAfterAll(failures, fs[..|fs| - 1]), fs[|fs| - 1])
  }

  /** The number of fetches in `fs` that raised. */
  function RaisedCount<T>(fs: seq<Fetch<T>>): nat
  {
    if fs == [] then 0
    else RaisedCount(fs[..|fs| - 1]) + (if fs[|fs| - 1].Raised? then 1 else 0)
  }

  /** A fetch that answers 200, the only kind that resets the counter. */
  predicate Resets<T>(f: Fetch<T>)
  {
    f.Response? && f.status == 200
  }

  /**
   * The counter is the number of exceptions since the last 200 (counting an undecodable body
   * of that 200 as one), or, when no fetch answered 200, the starting value plus all exceptions.
   * In particular a non-200 answer is never counted.
   */
  lemma {:induction false} FailuresCountsExceptions<T>(failures: int, fs: seq<Fetch<T>>)
    ensures (forall i :: 0 <= i < |fs| ==> !Resets(fs[i])) ==>
              FailuresAfterAll(failures, fs) == failures + RaisedCount(fs)
    ensures forall j :: 0 <= j < |fs| && Resets(fs[j]) && (forall i :: j < i < |fs| ==> !Resets(fs[i])) ==>
              FailuresAfterAll(failures, fs) == (if fs[j].body.None? then 1 else 0) + RaisedCount(fs[j + 1..])
    decreases |fs|
  {
    if fs != [] {
      var init, last := fs[..|fs| - 1], fs[|fs| - 1];
      FailuresCountsExceptions(failures, init);
      forall j | 0 <= j < |fs| && Resets(fs[j]) && (forall i :: j < i < |fs| ==> !Resets(fs[i]))
        ensures FailuresAfterAll(failures, fs) == (if fs[j].body.None? then 1 else 0) + RaisedCount(fs[j + 1..])
      {
        if j < |fs| - 1 {
          assert init[j] == fs[j];
          assert forall i :: j < i < |init| ==> init[i] == fs[i];
          assert fs[j + 1..][..|fs[j + 1..]| - 1] == init[j + 1..];
        } else {
          assert fs[j + 1..] == [];
        }
      }
    }
  }

  /** The connectivity rule's view: `n` exceptions in a row after a 200 leave the counter at `n`. */
  lemma FailuresAfterSuccess<T>(failures: int, ok: Fetch<T>, fs: seq<Fetch<T>>)
    requires Succeeded(ok)
    requires forall i :: 0 <= i < |fs| ==> fs[i].Raised?
    ensures FailuresAfterAll(failures, [ok] + fs) == |fs|
  {
    var run := [ok] + fs;
    FailuresCountsExceptions(failures, run);
    assert run[1..] == fs;
    assert forall i :: 0 < i < |run| ==> run[i] == fs[i - 1];
    assert Resets(run[0]) && forall i :: 0 < i < |run| ==> !Resets(run[i]);
    AllRaisedCount(fs);
  }

  lemma {:induction false} AllRaisedCount<T>(fs: seq<Fetch<T>>)
    requires forall i :: 0 <= i < |fs| ==> fs[i].Raised?
    ensures RaisedCount(fs) == |fs|
    decreases |fs|
  {
    if fs != [] { AllRaisedCount(fs[..|fs| - 1]); }
  }
}
