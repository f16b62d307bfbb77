/** Option and Result, used wherever the Python code returns None or raises. */
module Wrappers {

  datatype Option<+T> = None | Some(value: T)

  datatype Result<+T, +E> = Ok(value: T) | Err(error: E)
}

/**
  String operations with the semantics of Python's `str` methods that the
  pipeline relies on: `strip`, `lower`, `title`, `split`, `join`,
  `replace`, `find`/`in`, `startswith`, `int()` and `str()` of an integer.
  Letter case is modelled for ASCII letters only.
 */
module Text {
  import opened Wrappers

  /** Python's `str.isspace()` on one character. */
  predicate IsSpace(c: char) {
    var n := c as int;
    (9 <= n <= 13) || (28 <= n <= 32) || n == 0x85 || n == 0xA0 || n == 0x1680
    || (0x2000 <= n <= 0x200A) || n == 0x2028 || n == 0x2029 || n == 0x202F
    || n == 0x205F || n == 0x3000
  }

  predicate IsLetter(c: char) {
    'A' <= c <= 'Z' || 'a' <= c <= 'z'
  }

  predicate IsDigit(c: char) {
    '0' <= c <= '9'
  }

  predicate AllDigits(s: string) {
    forall i :: 0 <= i < |s| ==> IsDigit(s[i])
  }

  function LowerChar(c: char): (r: char)
    ensures IsLetter(r) <==> IsLetter(c)
    ensures !IsLetter(c) ==> r == c
  {
    if 'A' <= c <= 'Z' then (c as int + 32) as char else c
  }

  function UpperChar(c: char): (r: char)
    ensures IsLetter(r) <==> IsLetter(c)
    ensures !IsLetter(c) ==> r == c
  {
    if 'a' <= c <= 'z' then (c as int - 32) as char else c
  }

  /** `s.lower()`: same length, each letter mapped to lower case. */
  function Lower(s: string): (r: string)
    ensures |r| == |s|
    ensures forall i :: 0 <= i < |s| ==> r[i] == LowerChar(s[i])
  {
    seq(|s|, i requires 0 <= i < |s| => LowerChar(s[i]))
  }

  /** Lower-casing is idempotent, so a lower-cased name compares the same as its original. */
  lemma LowerIdempotent(s: string)
    ensures Lower(Lower(s)) == Lower(s)
  {
    forall i | 0 <= i < |s| ensures Lower(Lower(s))[i] == Lower(s)[i] {
      assert LowerChar(LowerChar(s[i])) == LowerChar(s[i]);
    }
  }

  /**
    `s.title()`: a letter becomes upper case when the character before it
    is not a letter, and lower case otherwise; other characters are kept.
   */
  function Title(s: string): (r: string)
    ensures |r| == |s|
    ensures forall i :: 0 <= i < |s| ==> (IsLetter(r[i]) <==> IsLetter(s[i]))
    ensures forall i :: 0 <= i < |s| && !IsLetter(s[i]) ==> r[i] == s[i]
  {
    TitleAfter(s, false)
  }

  function TitleAfter(s: string, prevCased: bool): (r: string)
    ensures |r| == |s|
    ensures forall i :: 0 <= i < |s| ==> (IsLetter(r[i]) <==> IsLetter(s[i]))
    ensures forall i :: 0 <= i < |s| && !IsLetter(s[i]) ==> r[i] == s[i]
  {
    if s == [] then []
    else
      var c := if prevCased then LowerChar(s[0]) else UpperChar(s[0]);
      [c] + TitleAfter(s[1..], IsLetter(s[0]))
  }

  /** The first position at or after `i` whose character is not droppable, or |s|. */
  function SkipFrom(s: string, drop: char -> bool, i: nat): (k: nat)
    requires i <= |s|
    ensures i <= k <= |s|
    ensures forall j :: i <= j < k ==> drop(s[j])
    ensures k == |s| || !drop(s[k])
    decreases |s| - i
  {
    if i < |s| && drop(s[i]) then SkipFrom(s, drop, i + 1) else i
  }

  /** The position after the last non-droppable character in s[lo..j], or lo. */
  function BackFrom(s: string, drop: char -> bool, lo: nat, j: nat): (k: nat)
    requires lo <= j <= |s|
    ensures lo <= k <= j
    ensures forall t :: k <= t < j ==> drop(s[t])
    ensures k == lo || !drop(s[k - 1])
  {
    if lo < j && drop(s[j - 1]) then BackFrom(s, drop, lo, j - 1) else j
  }

  /** `s.strip(chars)` with the character class given as a predicate. */
  function StripWith(s: string, drop: char -> bool): string {
    var a := SkipFrom(s, drop, 0);
    s[a..BackFrom(s, drop, a, |s|)]
  }

  /**
    What `strip` keeps is one contiguous piece s[a..b] of the input:
    everything before and after it is droppable and its two ends are not.
   */
  lemma StripWithSpec(s: string, drop: char -> bool)
    ensures var a := SkipFrom(s, drop, 0); var b := BackFrom(s, drop, a, |s|);
      && StripWith(s, drop) == s[a..b]
      && (forall k :: 0 <= k < a ==> drop(s[k]))
      && (forall k :: b <= k < |s| ==> drop(s[k]))
      && (a < b ==> !drop(s[a]) && !drop(s[b - 1]))
  {
  }

  /** `s.strip()`: removes leading and trailing whitespace. */
  function Strip(s: string): string {
    StripWith(s, IsSpace)
  }

  /** A string without whitespace at either end is left as it is by `strip`. */
  lemma StripNoEdgeSpace(s: string)
    requires s == [] || (!IsSpace(s[0]) && !IsSpace(s[|s| - 1]))
    ensures Strip(s) == s
  {
  }

  function Reverse<T>(s: seq<T>): (r: seq<T>)
    ensures |r| == |s|
    ensures forall i :: 0 <= i < |s| ==> r[i] == s[|s| - 1 - i]
  {
    if s == [] then [] else Reverse(s[1..]) + [s[0]]
  }

  predicate StartsWith(s: string, prefix: string) {
    |prefix| <= |s| && s[..|prefix|] == prefix
  }

  /** `pat` occurs in `s` starting at position `k`. */
  predicate OccursAt(s: string, pat: string, k: nat) {
    k + |pat| <= |s| && s[k..k + |pat|] == pat
  }

  /** Python's `s.find(pat)`: the first position at which `pat` occurs, if any. */
  function IndexOf(s: string, pat: string): (r: Option<nat>)
    ensures r.Some? ==> OccursAt(s, pat, r.value)
    ensures r.Some? ==> forall k: nat :: k < r.value ==> !OccursAt(s, pat, k)
    ensures r.None? ==> forall k: nat :: !OccursAt(s, pat, k)
  {
    IndexFrom(s, pat, 0)
  }

  function IndexFrom(s: string, pat: string, from: nat): (r: Option<nat>)
    requires from <= |s|
    ensures r.Some? ==> from <= r.value && OccursAt(s, pat, r.value)
    ensures r.Some? ==> forall k: nat :: from <= k < r.value ==> !OccursAt(s, pat, k)
    ensures r.None? ==> forall k: nat :: from <= k ==> !OccursAt(s, pat, k)
    decreases |s| - from
  {
    if from + |pat| > |s| then None
    else if s[from..from + |pat|] == pat then Some(from)
    else IndexFrom(s, pat, from + 1)
  }

  /** `pat in s`, equivalently `s.find(pat) != -1`. */
  predicate Contains(s: string, pat: string) {
    IndexOf(s, pat).Some?
  }

  /** A one-character pattern occurs exactly when that character does. */
  lemma ContainsChar(s: string, c: char)
    ensures Contains(s, [c]) <==> c in s
  {
    if c in s {
      var k :| 0 <= k < |s| && s[k] == c;
      assert s[k..k + 1] == [c];
      assert OccursAt(s, [c], k);
    }
    if Contains(s, [c]) {
      var k := IndexOf(s, [c]).value;
      assert OccursAt(s, [c], k);
      assert s[k..k + 1][0] == s[k];
    }
  }

  /** Python's `s.split(sep)` for a non-empty separator. */
  function Split(s: string, sep: string): (parts: seq<string>)
    requires sep != []
    ensures |parts| >= 1
    decreases |s|
  {
    match IndexOf(s, sep)
    case None => [s]
    case Some(i) => [s[..i]] + Split(s[i + |sep|..], sep)
  }

  /** Python's `sep.join(parts)`. */
  function Join(sep: string, parts: seq<string>): string {
    if parts == [] then []
    else if |parts| == 1 then parts[0]
    else parts[0] + sep + Join(sep, parts[1..])
  }

  lemma JoinCons(sep: string, head: string, rest: seq<string>)
    requires rest != []
    ensures Join(sep, [head] + rest) == head + sep + Join(sep, rest)
  {
    assert ([head] + rest)[1..] == rest;
  }

  lemma SliceAround(s: string, i: nat, j: nat)
    requires i <= j <= |s|
    ensures s == s[..i] + s[i..j] + s[j..]
  {
  }

  /** Joining the pieces of a split with the same separator gives back the string. */
  lemma {:induction false} JoinSplit(s: string, sep: string)
    requires sep != []
    ensures Join(sep, Split(s, sep)) == s
    decreases |s|
  {
    var r := IndexOf(s, sep);
    if r.Some? {
      var i := r.value;
      var rest := s[i + |sep|..];
      assert Split(s, sep) == [s[..i]] + Split(rest, sep);
      JoinSplit(rest, sep);
      JoinCons(sep, s[..i], Split(rest, sep));
      SliceAround(s, i, i + |sep|);
    } else {
      assert Split(s, sep) == [s];
    }
  }

  /** No piece of a split contains the separator. */
  lemma {:induction false} SplitPiecesFree(s: string, sep: string)
    requires sep != []
    ensures forall p :: p in Split(s, sep) ==> !Contains(p, sep)
    decreases |s|
  {
    match IndexOf(s, sep)
    case None =>
    case Some(i) =>
      BeforeFirst(s, sep, i);
      SplitPiecesFree(s[i + |sep|..], sep);
  }

  /** The text before the first occurrence of a pattern does not contain it. */
  lemma BeforeFirst(s: string, sep: string, i: nat)
    requires sep != [] && IndexOf(s, sep) == Some(i)
    ensures !Contains(s[..i], sep)
  {
    var head := s[..i];
    forall k: nat ensures !OccursAt(head, sep, k) {
      if k + |sep| <= |head| {
        assert !OccursAt(s, sep, k);
        assert head[k..k + |sep|] == s[k..k + |sep|];
      }
    }
  }

  /** The first occurrence of `c` in `a + [c] + b` is right after `a` when `a` lacks it. */
  lemma IndexOfCharAfter(a: string, c: char, b: string)
    requires c !in a
    ensures IndexOf(a + [c] + b, [c]) == Some(|a|)
  {
    var s := a + [c] + b;
    assert s[|a|..|a| + 1] == [c];
    assert OccursAt(s, [c], |a|);
    forall k: nat | k < |a| ensures !OccursAt(s, [c], k) {
      assert s[k..k + 1][0] == a[k];
    }
  }

  /** Text that contains a pattern contains the pattern's first character. */
  lemma ContainsFirstChar(s: string, pat: string)
    requires pat != [] && Contains(s, pat)
    ensures pat[0] in s
  {
    var k := IndexOf(s, pat).value;
    assert s[k..k + |pat|][0] == s[k];
  }

  /** Splitting a join of pieces that lack the separator character gives back the pieces. */
  lemma {:induction false} SplitJoin(parts: seq<string>, c: char)
    requires |parts| >= 1
    requires forall p :: p in parts ==> c !in p
    ensures Split(Join([c], parts), [c]) == parts
  {
    if |parts| == 1 {
      ContainsChar(parts[0], c);
    } else {
      var rest := parts[1..];
      assert Join([c], parts) == parts[0] + [c] + Join([c], rest);
      var joined := parts[0] + [c] + Join([c], rest);
      IndexOfCharAfter(parts[0], c, Join([c], rest));
      assert joined[..|parts[0]|] == parts[0];
      assert joined[|parts[0]| + 1..] == Join([c], rest);
      assert Split(joined, [c]) == [parts[0]] + Split(Join([c], rest), [c]);
      SplitJoin(rest, c);
      assert parts == [parts[0]] + rest;
    }
  }

  /** A joined string contains character `c` only if a piece or the separator does. */
  lemma {:induction false} JoinFree(sep: string, parts: seq<string>, c: char)
    requires c !in sep
    requires forall p :: p in parts ==> c !in p
    ensures c !in Join(sep, parts)
  {
    if |parts| > 1 {
      JoinFree(sep, parts[1..], c);
    }
  }

  /** Python's `s.replace(pat, rep)`, which for a non-empty `pat` is `rep.join(s.split(pat))`. */
  function ReplaceAll(s: string, pat: string, rep: string): string
    requires pat != []
  {
    Join(rep, Split(s, pat))
  }

  /** Replacing one character by a string that lacks it removes it everywhere. */
  lemma ReplaceCharRemoves(s: string, c: char, rep: string)
    requires c !in rep
    ensures c !in ReplaceAll(s, [c], rep)
  {
    SplitPiecesFree(s, [c]);
    forall p | p in Split(s, [c]) ensures c !in p {
      ContainsChar(p, c);
    }
    JoinFree(rep, Split(s, [c]), c);
  }

  /** Replacing a character keeps every other character that was absent absent. */
  lemma ReplaceKeepsAbsent(s: string, pat: string, rep: string, c: char)
    requires pat != [] && c !in s && c !in rep
    ensures c !in ReplaceAll(s, pat, rep)
  {
    SplitPieceChars(s, pat, c);
    JoinFree(rep, Split(s, pat), c);
  }

  lemma {:induction false} SplitPieceChars(s: string, sep: string, c: char)
    requires sep != [] && c !in s
    ensures forall p :: p in Split(s, sep) ==> c !in p
    decreases |s|
  {
    match IndexOf(s, sep)
    case None =>
    case Some(i) =>
      assert forall k :: 0 <= k < i ==> s[..i][k] == s[k];
      var rest := s[i + |sep|..];
      assert forall k :: 0 <= k < |rest| ==> rest[k] == s[i + |sep| + k];
      SplitPieceChars(rest, sep, c);
  }

  /** In `p + sep`, no occurrence of `sep` starts inside `p`. */
  predicate SepFirst(p: string, sep: string) {
    forall k: nat :: k < |p| ==> !OccursAt(p + sep, sep, k)
  }

  /** No proper suffix of `sep` is also a prefix of it. */
  predicate Unbordered(sep: string) {
    forall j :: 0 < j < |sep| ==> sep[j..] != sep[..|sep| - j]
  }

  /** When no occurrence starts inside `p`, the first one in `p + sep + rest` is right after `p`. */
  lemma IndexOfAfter(p: string, sep: string, rest: string)
    requires sep != [] && SepFirst(p, sep)
    ensures IndexOf(p + sep + rest, sep) == Some(|p|)
  {
    var s := p + sep + rest;
    assert s[|p|..|p| + |sep|] == sep;
    assert OccursAt(s, sep, |p|);
    forall k: nat | k < |p| ensures !OccursAt(s, sep, k) {
      assert !OccursAt(p + sep, sep, k);
      assert (p + sep)[k..k + |sep|] == s[k..k + |sep|];
    }
  }

  /** A piece lacking the separator's first character is followed cleanly by it. */
  lemma SepFirstByChar(p: string, sep: string)
    requires sep != [] && sep[0] !in p
    ensures SepFirst(p, sep)
  {
    forall k: nat | k < |p| ensures !OccursAt(p + sep, sep, k) {
      assert (p + sep)[k] == p[k];
    }
  }

  /** A piece lacking an unbordered separator is followed cleanly by it. */
  lemma SepFirstUnbordered(p: string, sep: string)
    requires sep != [] && Unbordered(sep) && !Contains(p, sep)
    ensures SepFirst(p, sep)
  {
    var s := p + sep;
    forall k: nat | k < |p| ensures !OccursAt(s, sep, k) {
      if k + |sep| <= |p| {
        assert s[k..k + |sep|] == p[k..k + |sep|];
        assert !OccursAt(p, sep, k);
      } else {
        var j := |p| - k;
        assert s[k..k + |sep|][j..] == sep[..|sep| - j];
      }
    }
  }

  /** A text whose first separator directly follows `p` splits into `p` and the pieces after it. */
  lemma SplitAfter(p: string, sep: string, tail: string)
    requires sep != [] && SepFirst(p, sep)
    ensures Split(p + sep + tail, sep) == [p] + Split(tail, sep)
  {
    IndexOfAfter(p, sep, tail);
    var s := p + sep + tail;
    assert s[..|p|] == p;
    assert s[|p| + |sep|..] == tail;
  }

  /** Splitting a join gives back its pieces when each is followed cleanly by the separator. */
  lemma {:induction false} SplitJoinSep(parts: seq<string>, sep: string)
    requires sep != [] && |parts| >= 1
    requires forall i :: 0 <= i < |parts| - 1 ==> SepFirst(parts[i], sep)
    requires !Contains(parts[|parts| - 1], sep)
    ensures Split(Join(sep, parts), sep) == parts
    decreases |parts|
  {
    if |parts| > 1 {
      var rest := parts[1..];
      assert parts == [parts[0]] + rest;
      JoinCons(sep, parts[0], rest);
      SplitAfter(parts[0], sep, Join(sep, rest));
      SepFirstShift(parts, sep);
      SplitJoinSep(rest, sep);
    }
  }

  /** Dropping the first piece keeps every piece but the last followed cleanly by the separator. */
  lemma SepFirstShift(parts: seq<string>, sep: string)
    requires |parts| >= 1
    requires forall i :: 0 <= i < |parts| - 1 ==> SepFirst(parts[i], sep)
    ensures forall i :: 0 <= i < |parts| - 2 ==> SepFirst(parts[1..][i], sep)
  {
    forall i | 0 <= i < |parts| - 2 ensures SepFirst(parts[1..][i], sep) {
      assert parts[1..][i] == parts[i + 1];
    }
  }

  /** Joining with the empty separator is concatenation: one more piece at the front. */
  lemma JoinEmptyCons(head: string, rest: seq<string>)
    ensures Join("", [head] + rest) == head + Join("", rest)
  {
    if rest != [] {
      JoinCons("", head, rest);
    }
  }

  /** Joining with the empty separator is concatenation: one more piece at the back. */
  lemma {:induction false} JoinEmptySnoc(init: seq<string>, last: string)
    ensures Join("", init + [last]) == Join("", init) + last
    decreases |init|
  {
    if init != [] {
      assert init + [last] == [init[0]] + (init[1..] + [last]);
      JoinEmptyCons(init[0], init[1..] + [last]);
      JoinEmptySnoc(init[1..], last);
      JoinEmptyCons(init[0], init[1..]);
      assert init == [init[0]] + init[1..];
    }
  }

  function DigitValue(c: char): nat
    requires IsDigit(c)
  {
    c as int - '0' as int
  }

  function DigitChar(d: nat): (c: char)
    requires d < 10
    ensures IsDigit(c) && DigitValue(c) == d
  {
    ('0' as int + d) as char
  }

  /** The value of a string of decimal digits. */
  function DigitsValue(s: string): nat
    requires AllDigits(s)
  {
    if s == [] then 0 else DigitsValue(s[..|s| - 1]) * 10 + DigitValue(s[|s| - 1])
  }

  /**
    Python's `int(s)` on a string: surrounding whitespace, an optional sign
    and at least one ASCII digit. `None` stands for the ValueError.
   */
  function ParseInt(s: string): Option<int> {
    var t := Strip(s);
    if t == [] then None
    else if t[0] == '-' || t[0] == '+' then
      var d := t[1..];
      if d != [] && AllDigits(d) then
        var n: int := DigitsValue(d);
        Some(if t[0] == '-' then 0 - n else n)
      else None
    else if AllDigits(t) then Some(DigitsValue(t))
    else None
  }

  /** Python's `str(n)` for a natural number. */
  function NatToString(n: nat): (r: string)
    ensures r != []
  {
    if n < 10 then [DigitChar(n)] else NatToString(n / 10) + [DigitChar(n % 10)]
  }

  /** `str` of a natural number writes decimal digits only. */
  lemma {:induction false} NatDigits(n: nat)
    ensures AllDigits(NatToString(n))
  {
    if n >= 10 {
      NatDigits(n / 10);
      var p := NatToString(n / 10);
      forall i | 0 <= i < |p| + 1 ensures IsDigit((p + [DigitChar(n % 10)])[i]) {
        if i < |p| {
          assert (p + [DigitChar(n % 10)])[i] == p[i];
        }
      }
    }
  }

  /** Python's `str(i)` for an integer. */
  function IntToString(i: int): (r: string)
    ensures r != []
  {
    if i < 0 then "-" + NatToString(-i) else NatToString(i)
  }

  lemma {:induction false} DigitsOfNat(n: nat)
    ensures AllDigits(NatToString(n)) && DigitsValue(NatToString(n)) == n
  {
    NatDigits(n);
    if n >= 10 {
      NatDigits(n / 10);
      var p := NatToString(n / 10);
      var s := p + [DigitChar(n % 10)];
      assert s[..|s| - 1] == p;
      DigitsOfNat(n / 10);
    }
  }

  /** `int(str(i)) == i`: rendering an integer and parsing it back is the identity. */
  lemma ParseIntToString(i: int)
    ensures ParseInt(IntToString(i)) == Some(i)
  {
    var s := IntToString(i);
    NatDigits(if i < 0 then -i else i);
    StripNoEdgeSpace(s);
    if i < 0 {
      DigitsOfNat(-i);
      assert s[1..] == NatToString(-i);
    } else {
      DigitsOfNat(i);
    }
  }

  /** A string of decimal digits is read by `int` as its value. */
  lemma ParseDigits(a: string)
    requires a != [] && AllDigits(a)
    ensures ParseInt(a) == Some(DigitsValue(a))
  {
    assert IsDigit(a[0]) && IsDigit(a[|a| - 1]);
    StripNoEdgeSpace(a);
  }

  /** Position of the first occurrence of `x` in `s`. */
  function FirstIndex<T(==)>(s: seq<T>, x: T): (k: nat)
    requires x in s
    ensures k < |s| && s[k] == x && x !in s[..k]
  {
    if s[0] == x then 0 else 1 + FirstIndex(s[1..], x)
  }

  predicate NoDuplicates<T(==)>(s: seq<T>) {
    forall i, j :: 0 <= i < j < |s| ==> s[i] != s[j]
  }

  /**
    `list(dict.fromkeys(s))`: the distinct elements of `s`, each at the
    place of its first occurrence.
   */
  function Dedup<T(==)>(s: seq<T>): (r: seq<T>)
  {
    if s == [] then []
    else
      var d := Dedup(s[..|s| - 1]);
      if s[|s| - 1] in d then d else d + [s[|s| - 1]]
  }

  /**
    `Dedup` keeps exactly the elements of its input, none of them twice, in
    the order of their first occurrences.
   */
  lemma {:induction false} DedupSpec<T>(s: seq<T>)
    ensures forall x :: x in Dedup(s) <==> x in s
    ensures NoDuplicates(Dedup(s))
    ensures forall i, j :: 0 <= i < j < |Dedup(s)| ==>
      FirstIndex(s, Dedup(s)[i]) < FirstIndex(s, Dedup(s)[j])
  {
    if s != [] {
      var p := s[..|s| - 1];
      var x := s[|s| - 1];
      DedupSpec(p);
      var d := Dedup(p);
      assert s == p + [x];
      forall y | y in p ensures FirstIndex(s, y) == FirstIndex(p, y) {
        FirstIndexPrefix(p, x, y);
      }
      if x !in d {
        assert x !in p;
        assert FirstIndex(s, x) == |s| - 1 by {
          FirstIndexLast(p, x);
        }
      }
    }
  }

  lemma {:induction false} FirstIndexPrefix<T>(p: seq<T>, x: T, y: T)
    requires y in p
    ensures FirstIndex(p + [x], y) == FirstIndex(p, y)
  {
    if p[0] != y {
      assert (p + [x])[1..] == p[1..] + [x];
      FirstIndexPrefix(p[1..], x, y);
    }
  }

  lemma {:induction false} FirstIndexLast<T>(p: seq<T>, x: T)
    requires x !in p
    ensures FirstIndex(p + [x], x) == |p|
  {
    if p != [] {
      assert (p + [x])[1..] == p[1..] + [x];
      FirstIndexLast(p[1..], x);
    }
  }

  /** The concatenation of a sequence of sequences, in order. */
  function Flatten<T>(ss: seq<seq<T>>): seq<T> {
    if ss == [] then [] else Flatten(ss[..|ss| - 1]) + ss[|ss| - 1]
  }

  lemma FlattenSnoc<T>(ss: seq<seq<T>>, s: seq<T>)
    ensures Flatten(ss + [s]) == Flatten(ss) + s
  {
    assert (ss + [s])[..|ss|] == ss;
  }

  lemma {:induction false} FlattenCons<T>(s: seq<T>, ss: seq<seq<T>>)
    ensures Flatten([s] + ss) == s + Flatten(ss)
  {
    if ss != [] {
      var init := ss[..|ss| - 1];
      assert ([s] + ss)[..|ss|] == [s] + init;
      FlattenCons(s, init);
    }
  }

  /**
    `s[:k]` in Python: a prefix of `s`, of length `k` capped at `|s|`, or
    for a negative bound `|k|` shorter than `s` and at least empty.
   */
  function SliceTo<T>(s: seq<T>, k: int): (r: seq<T>)
    ensures r <= s
    ensures |r| == (if k >= 0 then Min(k, |s|) else Max(0, |s| + k))
  {
    if k >= 0 then s[..if k < |s| then k else |s|]
    else if |s| + k >= 0 then s[..|s| + k]
    else []
  }

  lemma AppendAssoc<T>(a: seq<T>, b: seq<T>, c: seq<T>)
    ensures (a + b) + c == a + (b + c)
  {
  }

  lemma PrefixOfAppend<T>(a: seq<T>, b: seq<T>)
    ensures (a + b)[..|a|] == a
  {
  }

  function Min(a: int, b: int): int {
    if a < b then a else b
  }

  function Max(a: int, b: int): int {
    if a < b then b else a
  }
}
