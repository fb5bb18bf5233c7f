/**
 * The few Python `str` built-ins the modelled code relies on, over `seq<char>`:
 * `p in s`, `s.startswith(p)`, `s.split(c)` for a one-character separator,
 * `s[:-n]`, `str(n)` for a natural number and `int(s)`.
 */
module Strings {
  import opened Wrappers

  /** Python's `s.startswith(p)`. */
  predicate StartsWith(s: string, p: string) {
    |p| <= |s| && s[..|p|] == p
  }

  /** Index of the first occurrence of `p` in `s` (what `s.split(p)[0]` cuts at); None when `p in s` is false. */
  function IndexOf(s: string, p: string): (r: Option<nat>)
    ensures r.Some? ==> r.value + |p| <= |s| && StartsWith(s[r.value..], p)
    ensures r.Some? ==> forall j :: 0 <= j < r.value ==> !StartsWith(s[j..], p)
    ensures r.None? ==> forall j :: 0 <= j <= |s| ==> !StartsWith(s[j..], p)
    decreases |s|
  {
    if StartsWith(s, p) then Some(0)
    else if |s| == 0 then None
    else
      var rest := IndexOf(s[1..], p);
      assert forall j :: 1 <= j <= |s| ==> s[j..] == s[1..][j - 1..];
      match rest
      case None => None
      case Some(i) => Some(i + 1)
  }

  /** Python's `p in s` on strings. */
  predicate Contains(s: string, p: string) {
    IndexOf(s, p).Some?
  }

  /**
   * Python's `s[:-n]` for `n >= 1`: all but the last `n` characters, empty
   * when `s` is shorter. (`s[:-0]` would be empty, not `s`.)
   */
  function DropLast(s: string, n: nat): (r: string)
    requires n >= 1
    ensures |r| == if |s| >= n then |s| - n else 0
    ensures r == s[..|r|]
  {
    if |s| >= n then s[..|s| - n] else ""
  }

  /** Python's `s.split(c)` for a single separator character. */
  function Split(s: string, c: char): (r: seq<string>)
    ensures |r| >= 1
    decreases |s|
  {
    if |s| == 0 then [""]
    else
      var rest := Split(s[1..], c);
      if s[0] == c then [""] + rest
      else [[s[0]] + rest[0]] + rest[1..]
  }

  /** Python's `c.join(parts)`: the inverse of Split. */
  function Join(parts: seq<string>, c: char): string
    decreases |parts|
  {
    if |parts| == 0 then ""
    else if |parts| == 1 then parts[0]
    else parts[0] + [c] + Join(parts[1..], c)
  }

  /** No piece of a split holds the separator. */
  lemma {:induction false} SplitPiecesFree(s: string, c: char)
    ensures forall w :: w in Split(s, c) ==> c !in w
    decreases |s|
  {
    if |s| > 0 {
      SplitPiecesFree(s[1..], c);
    }
  }

  /** Splitting then joining with the same separator gives back the string. */
  lemma {:induction false} JoinSplit(s: string, c: char)
    ensures Join(Split(s, c), c) == s
    decreases |s|
  {
    if |s| > 0 {
      var rest := Split(s[1..], c);
      JoinSplit(s[1..], c);
      if s[0] == c {
        assert Split(s, c) == [""] + rest;
        assert ([""] + rest)[1..] == rest;
      } else {
        var parts := Split(s, c);
        assert parts == [[s[0]] + rest[0]] + rest[1..];
        if |rest| == 1 {
          assert parts == [[s[0]] + rest[0]];
        } else {
          assert parts[1..] == rest[1..];
          assert Join(rest, c) == rest[0] + [c] + Join(rest[1..], c);
        }
      }
    }
  }

  /** Splitting at a separator occurrence splits each side independently. */
  lemma {:induction false} SplitConcat(a: string, t: string, c: char)
    ensures Split(a + [c] + t, c) == Split(a, c) + Split(t, c)
    decreases |a|
  {
    if |a| == 0 {
      assert a + [c] + t == [c] + t;
      SplitCons(c, t, c);
    } else {
      var rest := a[1..] + [c] + t;
      assert a + [c] + t == [a[0]] + rest;
      assert a == [a[0]] + a[1..];
      SplitConcat(a[1..], t, c);
      SplitCons(a[0], rest, c);
      SplitCons(a[0], a[1..], c);
      ConsPieces(a[0], c, Split(a[1..], c), Split(t, c));
    }
  }

  /** One step of Split: the first character either ends the first piece or joins it. */
  lemma SplitCons(ch: char, s: string, c: char)
    ensures Split([ch] + s, c) ==
      if ch == c then [""] + Split(s, c) else [[ch] + Split(s, c)[0]] + Split(s, c)[1..]
  {
    assert ([ch] + s)[1..] == s;
  }

  lemma ConsPieces(ch: char, c: char, left: seq<string>, right: seq<string>)
    requires |left| >= 1
    ensures (if ch == c then [""] + (left + right) else [[ch] + (left + right)[0]] + (left + right)[1..])
      == (if ch == c then [""] + left else [[ch] + left[0]] + left[1..]) + right
  {
    if ch != c {
      assert (left + right)[0] == left[0];
      assert (left + right)[1..] == left[1..] + right;
    }
  }

  /** A piece free of the separator, followed by the separator, splits off as one piece. */
  lemma {:induction false} SplitPiece(x: string, t: string, c: char)
    requires c !in x
    ensures Split(x + [c] + t, c) == [x] + Split(t, c)
    decreases |x|
  {
    if |x| == 0 {
      assert x + [c] + t == [c] + t;
      assert ([c] + t)[1..] == t;
    } else {
      SplitPiece(x[1..], t, c);
      assert (x + [c] + t)[1..] == x[1..] + [c] + t;
      assert [x[0]] + x[1..] == x;
    }
  }

  /** A string free of the separator splits into itself alone. */
  lemma {:induction false} SplitWhole(x: string, c: char)
    requires c !in x
    ensures Split(x, c) == [x]
    decreases |x|
  {
    if |x| > 0 {
      SplitWhole(x[1..], c);
      assert [x[0]] + x[1..] == x;
    }
  }

  /** Joining separator-free pieces then splitting gives back the pieces. */
  lemma {:induction false} SplitJoin(parts: seq<string>, c: char)
    requires |parts| >= 1
    requires forall k :: 0 <= k < |parts| ==> c !in parts[k]
    ensures Split(Join(parts, c), c) == parts
    decreases |parts|
  {
    if |parts| == 1 {
      SplitWhole(parts[0], c);
    } else {
      SplitJoin(parts[1..], c);
      SplitPiece(parts[0], Join(parts[1..], c), c);
      assert [parts[0]] + parts[1..] == parts;
    }
  }

  predicate IsDigit(ch: char) {
    '0' <= ch <= '9'
  }

  predicate AllDigits(s: string) {
    forall k :: 0 <= k < |s| ==> IsDigit(s[k])
  }

  function DigitChar(d: nat): (ch: char)
    requires d < 10
    ensures IsDigit(ch) && ch as int - '0' as int == d
  {
    (d + '0' as int) as char
  }

  /** Python's `str(n)` (or `'{}'.format(n)`) for a natural number: its decimal digits. */
  function NatToString(n: nat): (r: string)
    ensures |r| >= 1 && AllDigits(r)
    decreases n
  {
    if n < 10 then [DigitChar(n)]
    else NatToString(n / 10) + [DigitChar(n % 10)]
  }

  /** The value of a string of decimal digits. */
  function DigitsValue(s: string): nat
    requires AllDigits(s)
    decreases |s|
  {
    if |s| == 0 then 0
    else DigitsValue(s[..|s| - 1]) * 10 + (s[|s| - 1] as int - '0' as int)
  }

  /**
   * Python's `int(s)` on a token that holds no space: an optional sign
   * followed by one or more decimal digits; anything else is a ValueError (None).
   */
  function ParseInt(s: string): (r: Option<int>)
    ensures r.Some? ==> |s| >= 1
  {
    if |s| >= 1 && (s[0] == '-' || s[0] == '+') then
      if |s| >= 2 && AllDigits(s[1..]) then
        var magnitude: int := DigitsValue(s[1..]);
        Some(if s[0] == '-' then -magnitude else magnitude)
      else None
    else if |s| >= 1 && AllDigits(s) then Some(DigitsValue(s))
    else None
  }

  lemma {:induction false} DigitsValueOfNatToString(n: nat)
    ensures DigitsValue(NatToString(n)) == n
    decreases n
  {
    if n >= 10 {
      DigitsValueOfNatToString(n / 10);
      var s := NatToString(n);
      assert s[..|s| - 1] == NatToString(n / 10);
    }
  }

  /** `int(str(n)) == n`: decimal formatting is undone by parsing. */
  lemma ParseIntNatToString(n: nat)
    ensures ParseInt(NatToString(n)) == Some(n)
  {
    DigitsValueOfNatToString(n);
  }
}
