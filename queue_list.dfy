/**
 * Parsing of the comma-separated list of long-running queue names
 * (`LONG_JOB_QUEUES`): split on ',', strip every piece, drop the blank ones,
 * and fall back to the built-in list when nothing is left.
 */
module QueueList {

  /** The characters Python's `str.strip()` removes (those for which `str.isspace()` holds). */
  predicate IsSpace(c: char)
  {
    c == ' ' || c == '\t' || c == '\n' || c == '\r' || c == '\U{000B}' || c == '\U{000C}'
    || ('\U{001C}' <= c <= '\U{001F}')
    || c == '\U{0085}' || c == '\U{00A0}' || c == '\U{1680}'
    || ('\U{2000}' <= c <= '\U{200A}')
    || c == '\U{2028}' || c == '\U{2029}' || c == '\U{202F}' || c == '\U{205F}' || c == '\U{3000}'
  }

  /** Neither end of `s` is a whitespace character. */
  predicate IsStripped(s: string)
  {
    s == [] || (!IsSpace(s[0]) && !IsSpace(s[|s| - 1]))
  }

  predicate AllSpace(s: string)
  {
    forall i :: 0 <= i < |s| ==> IsSpace(s[i])
  }

  function TrimLeft(s: string): (r: string)
    ensures |r| <= |s| && r == s[|s| - |r|..]
    ensures r == [] || !IsSpace(r[0])
    ensures AllSpace(s[..|s| - |r|])
  {
    if |s| > 0 && IsSpace(s[0]) then TrimLeft(s[1..]) else s
  }

  function TrimRight(s: string): (r: string)
    ensures |r| <= |s| && r == s[..|r|]
    ensures r == [] || !IsSpace(r[|r| - 1])
    ensures AllSpace(s[|r|..])
  {
    if |s| > 0 && IsSpace(s[|s| - 1]) then TrimRight(s[..|s| - 1]) else s
  }

  /** Where `Strip(s)` starts in `s`: the number of leading whitespace characters. */
  function StripStart(s: string): (i: nat)
    ensures i <= |s|
  {
    |s| - |TrimLeft(s)|
  }

  /**
   * Python's `s.strip()`: the slice of `s` left once its leading and trailing whitespace
   * is removed.
   */
  function Strip(s: string): (r: string)
    ensures IsStripped(r)
    ensures StripStart(s) + |r| <= |s| && r == s[StripStart(s)..StripStart(s) + |r|]
    ensures AllSpace(s[..StripStart(s)]) && AllSpace(s[StripStart(s) + |r|..])
  {
    var t := TrimLeft(s);
    var r := TrimRight(t);
    assert s[StripStart(s) + |r|..] == t[|r|..];
    r
  }

  /** `Strip(s)` is empty exactly when `s` is made of whitespace only. */
  lemma StripEmptyIffAllSpace(s: string)
    ensures Strip(s) == [] <==> AllSpace(s)
  {
    var i, r := StripStart(s), Strip(s);
    if r == [] {
      forall k | 0 <= k < |s| ensures IsSpace(s[k]) {
        assert s[k] == s[..i][k];
      }
    } else {
      assert s[i] == r[0];
    }
  }

  /** Every character of `Strip(s)` is a character of `s`. */
  lemma StripChars(s: string)
    ensures forall c :: c in Strip(s) ==> c in s
  {
    var i, r := StripStart(s), Strip(s);
    forall c | c in r ensures c in s {
      var k :| 0 <= k < |r| && r[k] == c;
      assert s[i + k] == c;
    }
  }

  /** Python's `s.split(',')`: the pieces between commas, always at least one. */
  function Split(s: string): (r: seq<string>)
    ensures |r| >= 1
    ensures forall k :: 0 <= k < |r| ==> ',' !in r[k]
  {
    if |s| == 0 then [""]
    else
      var rest := Split(s[1..]);
      if s[0] == ',' then [""] + rest else [[s[0]] + rest[0]] + rest[1..]
  }

  /** `",".join(pieces)`, the inverse of `Split`. */
  function Join(pieces: seq<string>): string
  {
    if |pieces| == 0 then ""
    else if |pieces| == 1 then pieces[0]
    else pieces[0] + "," + Join(pieces[1..])
  }

  lemma {:induction false} JoinSplit(s: string)
    ensures Join(Split(s)) == s
  {
    if |s| > 0 {
      var rest := Split(s[1..]);
      JoinSplit(s[1..]);
      if s[0] == ',' {
        assert Split(s) == [""] + rest;
        assert Join(Split(s)) == "" + "," + Join(rest);
      } else {
        var p := [[s[0]] + rest[0]] + rest[1..];
        assert Split(s) == p;
        if |rest| == 1 {
          assert Join(p) == [s[0]] + rest[0];
        } else {
          assert p[1..] == rest[1..];
          assert Join(p) == [s[0]] + rest[0] + "," + Join(rest[1..]);
        }
      }
    }
  }

  /** `[q.strip() for q in pieces if q.strip()]`. */
  function NonBlankStripped(pieces: seq<string>): (r: seq<string>)
    ensures |r| <= |pieces|
    ensures forall k :: 0 <= k < |r| ==> r[k] != [] && IsStripped(r[k])
  {
    if |pieces| == 0 then []
    else
      var name, rest := Strip(pieces[0]), NonBlankStripped(pieces[1..]);
      if name != [] then [name] + rest else rest
  }

  /** A name is kept exactly when it is the stripped form of some non-blank piece. */
  lemma {:induction false} NonBlankStrippedMembers(pieces: seq<string>, name: string)
    ensures name in NonBlankStripped(pieces) <==>
              name != [] && exists k :: 0 <= k < |pieces| && Strip(pieces[k]) == name
  {
    if |pieces| > 0 {
      var rest := pieces[1..];
      NonBlankStrippedMembers(rest, name);
      if exists k :: 0 <= k < |rest| && Strip(rest[k]) == name {
        var k :| 0 <= k < |rest| && Strip(rest[k]) == name;
        assert rest[k] == pieces[k + 1];
      }
      if exists k :: 0 <= k < |pieces| && Strip(pieces[k]) == name {
        var k :| 0 <= k < |pieces| && Strip(pieces[k]) == name;
        if k > 0 { assert rest[k - 1] == pieces[k]; }
      }
    }
  }

  /** Nothing is kept exactly when every piece is blank. */
  lemma {:induction false} NonBlankStrippedEmpty(pieces: seq<string>)
    ensures NonBlankStripped(pieces) == [] <==> forall k :: 0 <= k < |pieces| ==> AllSpace(pieces[k])
  {
    if |pieces| > 0 {
      NonBlankStrippedEmpty(pieces[1..]);
      StripEmptyIffAllSpace(pieces[0]);
      assert forall k :: 1 <= k < |pieces| ==> pieces[k] == pieces[1..][k - 1];
    }
  }

  /** The built-in long-running queues used when the environment names none. */
  const DefaultLongJobQueues: seq<string> := [
    "colateral-events-production-location-ranges.delay",
    "colateral-events-production-location-ranges"
  ]

  /**
   * The override list built from the value of `LONG_JOB_QUEUES` (the empty string when unset):
   * every element is a non-blank, stripped, comma-free piece of `env`, in order; the built-in
   * list is used exactly when every piece of `env` is blank.
   */
  function ParseLongJobQueues(env: string): (r: seq<string>)
    ensures |r| >= 1
    ensures forall k :: 0 <= k < |r| ==> r[k] != [] && IsStripped(r[k]) && ',' !in r[k]
    ensures (forall k :: 0 <= k < |Split(env)| ==> AllSpace(Split(env)[k])) ==> r == DefaultLongJobQueues
    ensures (exists k :: 0 <= k < |Split(env)| && !AllSpace(Split(env)[k])) ==>
              r == NonBlankStripped(Split(env))
  {
    var pieces := Split(env);
    var named := NonBlankStripped(pieces);
    NonBlankStrippedEmpty(pieces);
    forall name | name in named ensures ',' !in name {
      NonBlankStrippedMembers(pieces, name);
      var k :| 0 <= k < |pieces| && Strip(pieces[k]) == name;
      StripChars(pieces[k]);
    }
    DefaultsWellFormed();
    if named != [] then named else DefaultLongJobQueues
  }

  /** The built-in names are themselves non-blank, stripped and comma-free. */
  lemma DefaultsWellFormed()
    ensures forall k :: 0 <= k < |DefaultLongJobQueues| ==>
              DefaultLongJobQueues[k] != [] && IsStripped(DefaultLongJobQueues[k]) && ',' !in DefaultLongJobQueues[k]
  {
    var a, b := DefaultLongJobQueues[0], DefaultLongJobQueues[1];
    assert a[0] == 'c' && a[|a| - 1] == 'y';
    assert b[0] == 'c' && b[|b| - 1] == 's';
  }

  /** An unset `LONG_JOB_QUEUES` selects the built-in list. */
  lemma ParseUnset()
    ensures ParseLongJobQueues("") == DefaultLongJobQueues
  {
    assert Split("") == [""];
    assert AllSpace(Split("")[0]);
  }
}
