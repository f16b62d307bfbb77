/**
  The calendar dates the miners store: `date(*[int(x) for x in
  s.split(sep)])` combined with midnight, as the integrated site worker
  and the arXiv miner write it.
 */
module Dates {
  import opened Wrappers
  import opened Text
  import opened Values

  /** What building a date from a value can raise. */
  datatype DateError =
    /** `.split` on a value that is not a string. */
    | AttributeError
    /** `int()` of a non-number, or `date()` of an impossible day. */
    | ValueError
    /** `date()` given other than three numbers. */
    | TypeError

  predicate IsLeap(y: int) {
    y % 4 == 0 && (y % 100 != 0 || y % 400 == 0)
  }

  function DaysInMonth(y: int, m: int): int
    requires 1 <= m <= 12
  {
    if m == 2 then (if IsLeap(y) then 29 else 28)
    else if m == 4 || m == 6 || m == 9 || m == 11 then 30
    else 31
  }

  /** What Python's `date(y, m, d)` accepts. */
  predicate ValidDate(y: int, m: int, d: int) {
    1 <= y <= 9999 && 1 <= m <= 12 && 1 <= d <= DaysInMonth(y, m)
  }

  /** `[int(x) for x in parts]`; None for the first part `int` refuses. */
  function ParseAll(parts: seq<string>): (r: Option<seq<int>>)
    ensures r.Some? <==> forall k :: 0 <= k < |parts| ==> ParseInt(parts[k]).Some?
    ensures r.Some? ==> |r.value| == |parts|
    ensures r.Some? ==> forall k :: 0 <= k < |parts| ==> ParseInt(parts[k]) == Some(r.value[k])
  {
    if parts == [] then Some([])
    else
      var head := ParseInt(parts[0]);
      var tail := ParseAll(parts[1..]);
      if head.Some? && tail.Some? then Some([head.value] + tail.value) else None
  }

  /**
    `datetime.combine(date(*[int(x) for x in v.split(sep)]), midnight)`:
    the day the three numbers between the separators name, at midnight.
   */
  function Midnight(v: Value, sep: string): (r: Result<Value, DateError>)
    requires sep != []
    ensures r.Ok? ==>
      v.Str? && r.value.DateTime? && r.value.seconds == 0 && ValidDate(r.value.year, r.value.month, r.value.day)
    ensures !v.Str? ==> r == Err(AttributeError)
  {
    if !v.Str? then Err(AttributeError)
    else
      var parsed := ParseAll(Split(v.s, sep));
      if parsed.None? then Err(ValueError)
      else
        var ns := parsed.value;
        if |ns| != 3 then Err(TypeError)
        else if !ValidDate(ns[0], ns[1], ns[2]) then Err(ValueError)
        else Ok(DateTime(ns[0], ns[1], ns[2], 0))
  }

  /** `int` reads every string of decimal digits as its value. */
  lemma ParseAllDigits(parts: seq<string>)
    requires forall k :: 0 <= k < |parts| ==> parts[k] != [] && AllDigits(parts[k])
    ensures ParseAll(parts).Some?
    ensures forall k :: 0 <= k < |parts| ==> ParseAll(parts).value[k] == DigitsValue(parts[k])
  {
    forall k | 0 <= k < |parts| ensures ParseInt(parts[k]) == Some(DigitsValue(parts[k])) {
      ParseDigits(parts[k]);
    }
  }

  /** The three digit strings of a day come back from splitting at a non-digit separator. */
  lemma SplitDay(y: string, m: string, d: string, c: char)
    requires AllDigits(y) && AllDigits(m) && AllDigits(d) && !IsDigit(c)
    ensures Split(Join([c], [y, m, d]), [c]) == [y, m, d]
  {
    forall p | p in [y, m, d] ensures c !in p {
      assert forall i :: 0 <= i < |p| ==> IsDigit(p[i]);
    }
    SplitJoin([y, m, d], c);
  }

  /**
    A day written as three digit strings between non-digit separators
    (`2020-05-17`, `2020/5/17`) that names a real day is read back as that
    day at midnight.
   */
  lemma MidnightOfDay(y: string, m: string, d: string, c: char)
    requires y != [] && m != [] && d != [] && AllDigits(y) && AllDigits(m) && AllDigits(d) && !IsDigit(c)
    requires ValidDate(DigitsValue(y), DigitsValue(m), DigitsValue(d))
    ensures Midnight(Str(Join([c], [y, m, d])), [c])
         == Ok(DateTime(DigitsValue(y), DigitsValue(m), DigitsValue(d), 0))
  {
    SplitDay(y, m, d, c);
    var parts := [y, m, d];
    ParseAllDigits(parts);
    assert parts[0] == y && parts[1] == m && parts[2] == d;
  }
}
