/**
 * The `Range` request header as src/lib.rs reads it: `Range::from_str`
 * tries the pattern `(.*?)=(\d+)-(\d+)` and, only when it matches nowhere,
 * `(.*?)=(\d+)-`; `Range::len` is the number of bytes a closed range covers.
 *
 * The patterns are searched for anywhere in the header (leftmost match
 * first); `.` matches any character but a newline, `\d` is an ASCII digit.
 */
module RangeHeader {
  import opened Base
  import opened Decimal

  datatype Range = Range(typ: string, start: u64, end: Option<u64>)
  {
    /**
     * `Range::len`: `end - start + 1` for a closed range, in `u64`, so an
     * end before the start panics on the subtraction, and a range covering
     * all 2^64 values (start 0, end `u64::MAX`) on the addition.
     */
    function Len(): (r: Result<Option<u64>>)
      ensures r.Ok? ==> (r.value.Some? <==> end.Some?)
      ensures end.None? ==> r == Ok(None)
      ensures end.Some? && start <= end.value && end.value - start + 1 < U64_LIMIT ==> r == Ok(Some(end.value - start + 1))
      ensures end.Some? && end.value < start ==> r == Panic("attempt to subtract with overflow")
      ensures end.Some? && start <= end.value && end.value - start + 1 >= U64_LIMIT ==> r == Panic("attempt to add with overflow")
    {
      match end
      case None => Ok(None)
      case Some(e) =>
        if e < start then Panic("attempt to subtract with overflow")
        else if e - start + 1 >= U64_LIMIT then Panic("attempt to add with overflow")
        else Ok(Some(e - start + 1))
    }
  }

  /** At `t`: `=`, digits, `-` and, when `closed`, digits again. */
  predicate MatchAt(s: string, t: nat, closed: bool)
  {
    && t < |s| && s[t] == '='
    && var d1 := DigitRun(s, t + 1);
    && d1 > 0 && t + 1 + d1 < |s| && s[t + 1 + d1] == '-'
    && (closed ==> DigitRun(s, t + 2 + d1) > 0)
  }

  /** The first position from `from` on where the pattern matches. */
  function FirstMatch(s: string, closed: bool, from: nat): (r: Option<nat>)
    ensures r.Some? ==> from <= r.value < |s| && MatchAt(s, r.value, closed)
    decreases |s| - from
  {
    if from >= |s| then None
    else if MatchAt(s, from, closed) then Some(from)
    else FirstMatch(s, closed, from + 1)
  }

  /** The match found is the leftmost one; none found means none anywhere from `from` on. */
  lemma {:induction false} FirstMatchSpec(s: string, closed: bool, from: nat)
    ensures var r := FirstMatch(s, closed, from);
      && (r.Some? ==> forall t | from <= t < r.value :: !MatchAt(s, t, closed))
      && (r.None? ==> forall t | from <= t :: !MatchAt(s, t, closed))
    decreases |s| - from
  {
    if from < |s| && !MatchAt(s, from, closed) {
      FirstMatchSpec(s, closed, from + 1);
    }
  }

  /**
   * Where the lazy `(.*?)` ending at `t` starts in the leftmost match: just
   * after the last newline before `t`, or at the start of the header.
   */
  function LineStart(s: string, t: nat): (p: nat)
    requires t <= |s|
    ensures p <= t
    ensures p > 0 ==> s[p - 1] == '\n'
  {
    if t == 0 then 0
    else if s[t - 1] == '\n' then t
    else LineStart(s, t - 1)
  }

  /** No newline lies between the line start and `t`. */
  lemma {:induction false} LineStartSpec(s: string, t: nat)
    requires t <= |s|
    ensures forall j | LineStart(s, t) <= j < t :: s[j] != '\n'
  {
    if t > 0 && s[t - 1] != '\n' {
      LineStartSpec(s, t - 1);
    }
  }

  /** The closed form matched at `t`: both numbers parsed, the type the text before `=`. */
  function ClosedCaptures(s: string, t: nat): (r: Result<Range>)
    requires MatchAt(s, t, true)
    ensures r.Ok? || r.Err?
  {
    var d1 := DigitRun(s, t + 1);
    var d2 := DigitRun(s, t + 2 + d1);
    DigitRunSpec(s, t + 1);
    DigitRunSpec(s, t + 2 + d1);
    var start := ParseU64(s[t + 1..t + 1 + d1]);
    if !start.Ok? then Err(start.error)
    else
      var end := ParseU64(s[t + 2 + d1..t + 2 + d1 + d2]);
      if !end.Ok? then Err(end.error)
      else Ok(Range(s[LineStart(s, t)..t], start.value, Some(end.value)))
  }

  /** The open form matched at `t`. */
  function OpenCaptures(s: string, t: nat): (r: Result<Range>)
    requires MatchAt(s, t, false)
    ensures r.Ok? || r.Err?
  {
    var d1 := DigitRun(s, t + 1);
    DigitRunSpec(s, t + 1);
    var start := ParseU64(s[t + 1..t + 1 + d1]);
    if !start.Ok? then Err(start.error)
    else Ok(Range(s[LineStart(s, t)..t], start.value, None))
  }

  /** `Range::from_str`: the closed form where it matches, else the open form, else an error. */
  function Parse(s: string): (r: Result<Range>)
    ensures r.Ok? || r.Err?
  {
    match FirstMatch(s, true, 0)
    case Some(t) => ClosedCaptures(s, t)
    case None =>
      match FirstMatch(s, false, 0)
      case Some(t) => OpenCaptures(s, t)
      case None => Err(InvalidRangeHeader)
  }

  // ----- the forms a header takes -----

  /** A header starting with `typ=` finds its first match at that `=`, when there is one there. */
  lemma {:induction false} FirstMatchAfterType(s: string, typ: string, closed: bool)
    requires |typ| < |s| && s[..|typ|] == typ && '=' !in typ && MatchAt(s, |typ|, closed)
    ensures FirstMatch(s, closed, 0) == Some(|typ|)
  {
    FirstMatchSpec(s, closed, 0);
    assert forall t | 0 <= t < |typ| :: s[t] == typ[t];
  }

  lemma {:induction false} LineStartAfterType(s: string, typ: string)
    requires |typ| <= |s| && s[..|typ|] == typ && '\n' !in typ
    ensures LineStart(s, |typ|) == 0
  {
  }

  /**
   * A header that starts with `typ=N-M`, `M` not followed by a digit,
   * parses as the closed range from `N` to `M` (or fails on an overflow).
   */
  lemma {:induction false} ClosedFormAt(s: string, typ: string, n: string, m: string)
    requires '=' !in typ && '\n' !in typ
    requires n != [] && AllDigits(n) && m != [] && AllDigits(m)
    requires |typ| + 2 + |n| + |m| <= |s|
    requires s[..|typ|] == typ && s[|typ|] == '=' && s[|typ| + 1 + |n|] == '-'
    requires s[|typ| + 1..|typ| + 1 + |n|] == n && s[|typ| + 2 + |n|..|typ| + 2 + |n| + |m|] == m
    requires |typ| + 2 + |n| + |m| < |s| ==> !IsDigit(s[|typ| + 2 + |n| + |m|])
    ensures Parse(s)
      == if Value(n) >= U64_LIMIT || Value(m) >= U64_LIMIT then Err(PosOverflow)
         else Ok(Range(typ, Value(n), Some(Value(m))))
  {
    var t := |typ|;
    DigitRunOf(s, t + 1, n);
    DigitRunOf(s, t + 2 + |n|, m);
    FirstMatchAfterType(s, typ, true);
    LineStartAfterType(s, typ);
    assert Parse(s) == ClosedCaptures(s, t);
    assert s[0..t] == s[..t];
    ClosedCapturesOf(s, t, n, m, typ);
  }

  /** The captures of a closed match, once the digit runs are known. */
  lemma {:induction false} ClosedCapturesOf(s: string, t: nat, n: string, m: string, typ: string)
    requires MatchAt(s, t, true) && s[LineStart(s, t)..t] == typ
    requires n != [] && AllDigits(n) && m != [] && AllDigits(m)
    requires DigitRun(s, t + 1) == |n| && DigitRun(s, t + 2 + |n|) == |m|
    requires s[t + 1..t + 1 + |n|] == n && s[t + 2 + |n|..t + 2 + |n| + |m|] == m
    ensures ClosedCaptures(s, t)
      == if Value(n) >= U64_LIMIT || Value(m) >= U64_LIMIT then Err(PosOverflow)
         else Ok(Range(typ, Value(n), Some(Value(m))))
  {
    ParseU64Of(s[t + 1..t + 1 + |n|], n);
    ParseU64Of(s[t + 2 + |n|..t + 2 + |n| + |m|], m);
  }

  lemma ParseU64Of(a: string, n: string)
    requires a == n && n != [] && AllDigits(n)
    ensures AllDigits(a) && ParseU64(a) == if Value(n) < U64_LIMIT then Ok(Value(n)) else Err(PosOverflow)
  {
  }

  /**
   * `typ=N-M…` parses as the closed range from `N` to `M`, whatever
   * follows `M`, unless a number overflows `u64`: then the result is an
   * error and the open form is not tried.
   */
  lemma {:induction false} ClosedForm(typ: string, n: string, m: string, rest: string)
    requires '=' !in typ && '\n' !in typ
    requires n != [] && AllDigits(n) && m != [] && AllDigits(m)
    requires rest == [] || !IsDigit(rest[0])
    ensures Parse(typ + "=" + n + "-" + m + rest)
      == if Value(n) >= U64_LIMIT || Value(m) >= U64_LIMIT then Err(PosOverflow)
         else Ok(Range(typ, Value(n), Some(Value(m))))
  {
    var a := typ + "=" + n + "-";
    var s := a + m + rest;
    var t := |typ|;
    assert a[..t] == typ && a[t] == '=' && a[t + 1..t + 1 + |n|] == n && a[t + 1 + |n|] == '-';
    assert s[..|a|] == a;
    assert s[|a|..|a| + |m|] == m;
    if rest != [] {
      assert s[|a| + |m|] == rest[0];
    }
    ClosedFormAt(s, typ, n, m);
  }

  /**
   * A header that is `typ=N-` followed by text that neither starts with a
   * digit nor holds another `=` parses as the open range from `N`.
   */
  lemma {:induction false} OpenFormAt(s: string, typ: string, n: string)
    requires '=' !in typ && '\n' !in typ
    requires n != [] && AllDigits(n)
    requires |typ| + 2 + |n| <= |s|
    requires s[..|typ|] == typ && s[|typ|] == '=' && s[|typ| + 1 + |n|] == '-'
    requires s[|typ| + 1..|typ| + 1 + |n|] == n
    requires |typ| + 2 + |n| < |s| ==> !IsDigit(s[|typ| + 2 + |n|])
    requires forall u | |typ| + 2 + |n| <= u < |s| :: s[u] != '='
    ensures Parse(s) == if Value(n) >= U64_LIMIT then Err(PosOverflow) else Ok(Range(typ, Value(n), None))
  {
    var t := |typ|;
    DigitRunOf(s, t + 1, n);
    forall u | 0 <= u < |s| && u != t ensures s[u] != '=' {
      NoEqualsAt(s, typ, n, u);
    }
    NoClosedMatch(s, t, |n|);
    FirstMatchAfterType(s, typ, false);
    LineStartAfterType(s, typ);
    assert s[0..t] == typ;
    assert Parse(s) == OpenCaptures(s, t);
  }

  /** With the only `=` at `t`, followed by `N-` and no second number, the closed form matches nowhere. */
  lemma NoClosedMatch(s: string, t: nat, d: nat)
    requires t + 2 + d <= |s| && DigitRun(s, t + 1) == d
    requires t + 2 + d < |s| ==> !IsDigit(s[t + 2 + d])
    requires forall u | 0 <= u < |s| && u != t :: s[u] != '='
    ensures forall u | 0 <= u :: !MatchAt(s, u, true)
  {
    forall u | 0 <= u ensures !MatchAt(s, u, true) {
      if u == t {
        NoSecondNumber(s, t, d);
      }
    }
  }

  /** Away from the `=` after the type, the header of `NoClosedMatch` has no `=`. */
  lemma NoEqualsAt(s: string, typ: string, n: string, u: nat)
    requires '=' !in typ && AllDigits(n)
    requires |typ| + 2 + |n| <= |s|
    requires s[..|typ|] == typ && s[|typ| + 1 + |n|] == '-'
    requires s[|typ| + 1..|typ| + 1 + |n|] == n
    requires forall u | |typ| + 2 + |n| <= u < |s| :: s[u] != '='
    requires u != |typ|
    ensures u < |s| ==> s[u] != '='
  {
    var t := |typ|;
    if u < t {
      assert s[u] == typ[u];
    } else if t < u < t + 1 + |n| {
      assert s[u] == n[u - t - 1];
    }
  }


  /** At an `=` whose digit run is followed by a non-digit after the `-`, the closed form does not match. */
  lemma NoSecondNumber(s: string, t: nat, d: nat)
    requires t + 2 + d <= |s| && DigitRun(s, t + 1) == d
    requires t + 2 + d < |s| ==> !IsDigit(s[t + 2 + d])
    ensures !MatchAt(s, t, true)
  {
    assert DigitRun(s, t + 2 + d) == 0;
  }

  /**
   * `typ=N-` followed by anything that neither starts with a digit nor
   * holds another `=` parses as the open range from `N`.
   */
  lemma {:induction false} OpenForm(typ: string, n: string, rest: string)
    requires '=' !in typ && '\n' !in typ
    requires n != [] && AllDigits(n)
    requires (rest == [] || !IsDigit(rest[0])) && '=' !in rest
    ensures Parse(typ + "=" + n + "-" + rest)
      == if Value(n) >= U64_LIMIT then Err(PosOverflow) else Ok(Range(typ, Value(n), None))
  {
    var a := typ + "=" + n + "-";
    var s := a + rest;
    var t := |typ|;
    assert a[..t] == typ && a[t] == '=' && a[t + 1..t + 1 + |n|] == n && a[t + 1 + |n|] == '-';
    assert s[..|a|] == a;
    forall u | |a| <= u < |s| ensures s[u] == rest[u - |a|] {
    }
    OpenFormAt(s, typ, n);
  }

  /** The header is rejected exactly when nothing in it has the shape `=digits-`. */
  lemma {:induction false} NoMatch(s: string)
    ensures Parse(s) == Err(InvalidRangeHeader) <==> forall t | 0 <= t :: !MatchAt(s, t, false)
  {
    FirstMatchSpec(s, true, 0);
    FirstMatchSpec(s, false, 0);
    if FirstMatch(s, true, 0).Some? {
      assert MatchAt(s, FirstMatch(s, true, 0).value, false);
    }
  }

  /** The header of the tests, `bytes=0-1023` (given piece by piece). */
  lemma ParseExample(s: string)
    requires |s| == 12 && s[..5] == "bytes" && s[5..8] == "=0-" && s[8..] == "1023"
    ensures Parse(s) == Ok(Range("bytes", 0, Some(1023)))
  {
    assert s[5] == s[5..8][0] == '=' && s[6] == s[5..8][1] && s[7] == s[5..8][2] == '-';
    assert s[6..7] == "0";
    ClosedFormAt(s, "bytes", "0", "1023");
    Value1023();
  }

  lemma Value1023()
    ensures Value("1023") == 1023
  {
    Value10();
    assert "102"[..2] == "10";
    assert "1023"[..3] == "102";
  }

  /** `bytes=5-10` is the closed range from 5 to 10. */
  lemma ClosedExample(s: string)
    requires |s| == 10 && s[..5] == "bytes" && s[5..8] == "=5-" && s[8..] == "10"
    ensures Parse(s) == Ok(Range("bytes", 5, Some(10)))
  {
    assert s[5] == s[5..8][0] == '=' && s[6] == s[5..8][1] && s[7] == s[5..8][2] == '-';
    assert s[6..7] == "5";
    ClosedFormAt(s, "bytes", "5", "10");
    Value10();
  }

  lemma Value10()
    ensures Value("10") == 10
  {
    assert "10"[..1] == "1";
  }

  /** `bytes=0-` is the open range from 0. */
  lemma OpenExample(s: string)
    requires |s| == 8 && s[..5] == "bytes" && s[5..] == "=0-"
    ensures Parse(s) == Ok(Range("bytes", 0, None))
  {
    assert s[5] == s[5..][0] == '=' && s[6] == s[5..][1] && s[7] == s[5..][2] == '-';
    assert s[6..7] == "0";
    OpenFormAt(s, "bytes", "0");
  }
}
