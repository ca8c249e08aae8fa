/** Strings, 32-bit integers and the .NET parsing and splitting routines the
    exercises rely on: String.Split(char), String.Join, String.Trim,
    String.LastIndexOf, int.Parse / int.TryParse, bool.Parse and the decimal
    rendering of int and bool in string interpolation. */
module Text {

  /** A value that may be absent (C# null or an empty Nullable). */
  datatype Option<+T> = None | Some(value: T)

  /** The outcome of a .NET parse: a value, a FormatException or an
      OverflowException. Failure-compatible, so `:-` propagates the fault. */
  datatype Parsed<+T> = Parsed(value: T) | FormatFault | OverflowFault {
    predicate IsFailure() { !Parsed? }

    function PropagateFailure<U>(): (r: Parsed<U>)
      requires IsFailure()
      ensures r.FormatFault? == FormatFault? && r.OverflowFault? == OverflowFault?
    {
      if FormatFault? then FormatFault else OverflowFault
    }

    function Extract(): T
      requires Parsed?
    {
      value
    }
  }

  // ---------------------------------------------------------------- int32

  const INT_MIN: int := -0x8000_0000
  const INT_MAX: int := 0x7FFF_FFFF

  /** C#'s `int`. */
  type int32 = x: int | -0x8000_0000 <= x <= 0x7FFF_FFFF

  /** Unchecked two's-complement wrap-around, as C# arithmetic on `int`
      behaves outside a `checked` context. */
  function Wrap32(x: int): (r: int32)
    ensures INT_MIN <= x <= INT_MAX ==> r == x
    ensures (x - r) % 0x1_0000_0000 == 0
  {
    var m := (x + 0x8000_0000) % 0x1_0000_0000;
    assert x - (m - 0x8000_0000) == (x + 0x8000_0000) / 0x1_0000_0000 * 0x1_0000_0000;
    m - 0x8000_0000
  }

  // --------------------------------------------------------------- digits

  predicate IsDigit(c: char) { '0' <= c <= '9' }

  predicate AllDigits(s: string) { forall i :: 0 <= i < |s| ==> IsDigit(s[i]) }

  function DigitChar(d: nat): (c: char)
    requires d < 10
    ensures IsDigit(c)
  {
    ('0' as int + d) as char
  }

  function DigitValue(c: char): (d: nat)
    requires IsDigit(c)
    ensures d < 10 && DigitChar(d) == c
  {
    c as int - '0' as int
  }

  /** Decimal rendering of a natural number, without leading zeros. */
  function NatToString(n: nat): (s: string)
    ensures |s| > 0 && AllDigits(s)
  {
    if n < 10 then [DigitChar(n)] else NatToString(n / 10) + [DigitChar(n % 10)]
  }

  /** The number a non-empty run of decimal digits denotes. */
  function DigitsValue(s: string): nat
    requires AllDigits(s)
  {
    if s == [] then 0 else 10 * DigitsValue(s[..|s| - 1]) + DigitValue(s[|s| - 1])
  }

  lemma {:induction false} NatToStringRoundTrip(n: nat)
    ensures DigitsValue(NatToString(n)) == n
  {
    if n >= 10 {
      var s := NatToString(n);
      assert s[..|s| - 1] == NatToString(n / 10);
      NatToStringRoundTrip(n / 10);
    }
  }

  /** `n.ToString()` for the invariant culture: an optional '-' then digits. */
  function IntToString(n: int): (s: string)
    ensures |s| > 0 && IsDigit(s[|s| - 1])
    ensures n >= 0 ==> AllDigits(s)
    ensures n < 0 ==> |s| > 1 && s[0] == '-' && AllDigits(s[1..])
  {
    if n < 0 then "-" + NatToString(-n) else NatToString(n)
  }

  /** Different numbers render differently. */
  lemma IntToStringInjective(a: int, b: int)
    ensures IntToString(a) == IntToString(b) <==> a == b
  {
    if IntToString(a) == IntToString(b) {
      var s := IntToString(a);
      if a < 0 {
        assert !IsDigit(s[0]);
        assert b < 0;
        assert NatToString(-a) == s[1..] == NatToString(-b);
        NatToStringRoundTrip(-a);
        NatToStringRoundTrip(-b);
      } else {
        assert IsDigit(s[0]);
        assert b >= 0;
        NatToStringRoundTrip(a);
        NatToStringRoundTrip(b);
      }
    }
  }

  /** A separator placed earlier in one spelling of a text lies inside the
      longer first part of another spelling. */
  lemma SeparatorInside<T>(x: seq<T>, q: T, y: seq<T>, x2: seq<T>, y2: seq<T>)
    ensures |x| < |x2| && x + [q] + y == x2 + [q] + y2 ==> q in x2
  {
    if |x| < |x2| && x + [q] + y == x2 + [q] + y2 {
      assert (x + [q] + y)[|x|] == q;
      assert (x2 + [q] + y2)[|x|] == x2[|x|];
    }
  }

  /** Text cut at the first occurrence of a separator that the part before
      it does not contain: equal texts have equal parts on both sides. */
  lemma CutAtFirst<T>(x: seq<T>, q: T, y: seq<T>, x2: seq<T>, y2: seq<T>)
    requires q !in x && q !in x2
    requires x + [q] + y == x2 + [q] + y2
    ensures x == x2 && y == y2
  {
    var s := x + [q] + y;
    SeparatorInside(x, q, y, x2, y2);
    SeparatorInside(x2, q, y2, x, y);
    assert x == s[..|x|] == x2;
    assert y == s[|x| + 1..] == y2;
  }

  // ----------------------------------------------------------- whitespace

  /** char.IsWhiteSpace: the Unicode space separators, line and paragraph
      separators, U+0009 to U+000D, U+0085 and U+00A0. String.Trim and
      String.IsNullOrWhiteSpace use this set. */
  predicate IsWhiteSpace(c: char)
  {
    || c == ' ' || '\t' <= c <= '\r' || c == '\U{0085}' || c == '\U{00A0}' || c == '\U{1680}'
    || '\U{2000}' <= c <= '\U{200A}' || c == '\U{2028}' || c == '\U{2029}' || c == '\U{202F}'
    || c == '\U{205F}' || c == '\U{3000}'
  }

  /** The white space int.Parse allows around a number: U+0009 to U+000D and
      U+0020 only. */
  predicate IsNumberSpace(c: char) { c == ' ' || '\t' <= c <= '\r' }

  /** Every character of `s` is in the set `ws`. */
  predicate AllIn(s: string, ws: char -> bool) { forall i :: 0 <= i < |s| ==> ws(s[i]) }

  /** String.IsNullOrWhiteSpace for a non-null string. */
  predicate IsBlank(s: string) { AllIn(s, IsWhiteSpace) }

  /** How many leading characters of `s` are in `ws`. */
  function LeadingSpace(s: string, ws: char -> bool): (n: nat)
    ensures n <= |s| && AllIn(s[..n], ws)
    ensures n < |s| ==> !ws(s[n])
  {
    if s != [] && ws(s[0]) then
      var n := LeadingSpace(s[1..], ws);
      assert s[..n + 1] == [s[0]] + s[1..][..n];
      n + 1
    else 0
  }

  /** Drops the trailing characters that are in `ws`. */
  function TrimEndBy(s: string, ws: char -> bool): (r: string)
    ensures |r| <= |s| && r == s[..|r|] && AllIn(s[|r|..], ws)
    ensures |r| > 0 ==> !ws(r[|r| - 1])
    ensures |r| == 0 <==> AllIn(s, ws)
  {
    if s != [] && ws(s[|s| - 1]) then
      var r := TrimEndBy(s[..|s| - 1], ws);
      assert s[|r|..] == s[..|s| - 1][|r|..] + [s[|s| - 1]];
      r
    else s
  }

  /** Drops the leading and trailing characters that are in `ws`: the
      result is the inner part of `s`, after its leading characters in
      `ws`, with only characters in `ws` after it. */
  function TrimBy(s: string, ws: char -> bool): (r: string)
    ensures |r| > 0 ==> !ws(r[0]) && !ws(r[|r| - 1])
    ensures |r| == 0 <==> AllIn(s, ws)
    ensures LeadingSpace(s, ws) + |r| <= |s|
    ensures r == s[LeadingSpace(s, ws)..LeadingSpace(s, ws) + |r|]
    ensures AllIn(s[LeadingSpace(s, ws) + |r|..], ws)
  {
    var n := LeadingSpace(s, ws);
    var t := s[n..];
    var r := TrimEndBy(t, ws);
    assert |r| > 0 ==> r[0] == t[0];
    assert s[n + |r|..] == t[|r|..];
    assert |r| == 0 ==> AllIn(s, ws) by {
      if |r| == 0 {
        assert s == s[..n] + t;
      }
    }
    r
  }

  /** String.Trim(): drops leading and trailing white space, and keeps the
      text between them. */
  function Trim(s: string): (r: string)
    ensures |r| > 0 ==> !IsWhiteSpace(r[0]) && !IsWhiteSpace(r[|r| - 1])
    ensures |r| == 0 <==> IsBlank(s)
    ensures LeadingSpace(s, IsWhiteSpace) + |r| <= |s|
    ensures r == s[LeadingSpace(s, IsWhiteSpace)..LeadingSpace(s, IsWhiteSpace) + |r|]
    ensures IsBlank(s[LeadingSpace(s, IsWhiteSpace) + |r|..])
  {
    TrimBy(s, IsWhiteSpace)
  }

  /** Trimming a string that starts and ends outside `ws` leaves it as is. */
  lemma TrimUnchanged(s: string, ws: char -> bool)
    requires |s| > 0 && !ws(s[0]) && !ws(s[|s| - 1])
    ensures TrimBy(s, ws) == s
  {
    assert LeadingSpace(s, ws) == 0;
  }

  // ------------------------------------------------------------- int.Parse

  /** int.Parse / int.TryParse with NumberStyles.Integer: optional surrounding
      white space, an optional '+' or '-', then one or more decimal digits.
      A well-formed number outside the int range is an OverflowException. */
  function ParseInt(s: string): (r: Parsed<int32>)
    ensures IsBlank(s) ==> r == FormatFault
  {
    var t := TrimBy(s, IsNumberSpace);
    var negative := |t| > 0 && t[0] == '-';
    var digits := if |t| > 0 && (t[0] == '-' || t[0] == '+') then t[1..] else t;
    if |digits| == 0 || !AllDigits(digits) then FormatFault
    else
      var v: int := if negative then -(DigitsValue(digits) as int) else DigitsValue(digits);
      if v < INT_MIN || v > INT_MAX then OverflowFault else Parsed(v)
  }

  /** Rendering an int and parsing it back gives the same int. */
  lemma ParseIntRoundTrip(n: int32)
    ensures ParseInt(IntToString(n)) == Parsed(n)
  {
    var s := IntToString(n);
    TrimUnchanged(s, IsNumberSpace);
    if n < 0 {
      var m: nat := -(n as int);
      assert s[0] == '-' && s[1..] == NatToString(m);
      NatToStringRoundTrip(m);
      assert DigitsValue(s[1..]) == m;
    } else {
      assert s[0] != '-' && s[0] != '+';
      NatToStringRoundTrip(n);
      assert DigitsValue(s) == n;
    }
  }

  // ------------------------------------------------------------ bool.Parse

  function ToLowerAscii(c: char): char
  {
    if 'A' <= c <= 'Z' then (c as int + 32) as char else c
  }

  /** The text of a bool in string interpolation. */
  function BoolToString(b: bool): string
  {
    if b then "True" else "False"
  }

  /** bool.Parse: "true" or "false" in any letter case, surrounding white
      space allowed; anything else is a FormatException. */
  function ParseBool(s: string): (r: Parsed<bool>)
    ensures r != OverflowFault
  {
    var t := Trim(s);
    var lower := seq(|t|, i requires 0 <= i < |t| => ToLowerAscii(t[i]));
    if lower == "true" then Parsed(true)
    else if lower == "false" then Parsed(false)
    else FormatFault
  }

  lemma ParseBoolRoundTrip(b: bool)
    ensures ParseBool(BoolToString(b)) == Parsed(b)
  {
    var s := BoolToString(b);
    TrimUnchanged(s, IsWhiteSpace);
    var lower := seq(|s|, i requires 0 <= i < |s| => ToLowerAscii(s[i]));
    if b {
      assert lower == "true";
    } else {
      assert lower == "false";
    }
  }

  // ------------------------------------------------------------ sequences

  /** `f` applied to each element, in order. */
  function Map<A, B>(f: A -> B, xs: seq<A>): (ys: seq<B>)
    ensures |ys| == |xs|
    ensures forall i :: 0 <= i < |xs| ==> ys[i] == f(xs[i])
  {
    seq(|xs|, i requires 0 <= i < |xs| => f(xs[i]))
  }

  lemma MapAppend<A, B>(f: A -> B, xs: seq<A>, ys: seq<A>)
    ensures Map(f, xs + ys) == Map(f, xs) + Map(f, ys)
  {
    assert forall i :: 0 <= i < |xs| ==> (xs + ys)[i] == xs[i];
    assert forall i :: |xs| <= i < |xs| + |ys| ==> (xs + ys)[i] == ys[i - |xs|];
  }

  lemma MapSnoc<A, B>(f: A -> B, xs: seq<A>, x: A)
    ensures Map(f, xs + [x]) == Map(f, xs) + [f(x)]
  {
    MapAppend(f, xs, [x]);
    assert Map(f, [x]) == [f(x)];
  }

  // ------------------------------------------------------ Split and Join

  /** String.Join with a one-character separator. */
  function Join(parts: seq<string>, sep: char): (s: string)
  {
    if |parts| == 0 then ""
    else if |parts| == 1 then parts[0]
    else parts[0] + [sep] + Join(parts[1..], sep)
  }

  /** String.Split(char): cuts at every separator, keeping empty pieces. */
  function Split(s: string, sep: char): (parts: seq<string>)
    ensures |parts| >= 1 && (sep in s ==> |parts| >= 2)
  {
    if s == [] then [""]
    else
      var rest := Split(s[1..], sep);
      if s[0] == sep then [""] + rest
      else [[s[0]] + rest[0]] + rest[1..]
  }

  /** No piece holds the separator, and joining the pieces with it gives the
      string back. */
  lemma JoinSplit(s: string, sep: char)
    ensures forall i :: 0 <= i < |Split(s, sep)| ==> sep !in Split(s, sep)[i]
    ensures Join(Split(s, sep), sep) == s
  {
    SplitPiecesLackSep(s, sep);
    JoinSplitId(s, sep);
  }

  lemma {:induction false} SplitPiecesLackSep(s: string, sep: char)
    ensures forall i :: 0 <= i < |Split(s, sep)| ==> sep !in Split(s, sep)[i]
  {
    if s != [] {
      SplitPiecesLackSep(s[1..], sep);
      var rest := Split(s[1..], sep);
      if s[0] != sep {
        assert sep !in [s[0]] + rest[0];
      }
    }
  }

  lemma {:induction false} JoinSplitId(s: string, sep: char)
    ensures Join(Split(s, sep), sep) == s
  {
    if s != [] {
      JoinSplitId(s[1..], sep);
      var rest := Split(s[1..], sep);
      if s[0] == sep {
        JoinAfterEmpty(rest, sep);
      } else {
        JoinAfterChar(s[0], rest, sep);
      }
      assert s == [s[0]] + s[1..];
    }
  }

  /** An empty first piece puts the separator first. */
  lemma JoinAfterEmpty(rest: seq<string>, sep: char)
    requires |rest| >= 1
    ensures Join([""] + rest, sep) == [sep] + Join(rest, sep)
  {
    assert ([""] + rest)[1..] == rest;
  }

  /** A character added to the first piece comes first in the join. */
  lemma JoinAfterChar(c: char, rest: seq<string>, sep: char)
    requires |rest| >= 1
    ensures Join([[c] + rest[0]] + rest[1..], sep) == [c] + Join(rest, sep)
  {
    var parts := [[c] + rest[0]] + rest[1..];
    if |rest| > 1 {
      assert parts[1..] == rest[1..];
    }
  }

  /** There is one more piece than there are separators. */
  lemma {:induction false} SplitCount(s: string, sep: char)
    ensures |Split(s, sep)| == multiset(s)[sep] + 1
  {
    if s != [] {
      SplitCount(s[1..], sep);
      assert s == [s[0]] + s[1..];
      assert multiset(s) == multiset{s[0]} + multiset(s[1..]);
    }
  }

  /** A string without the separator is one piece. */
  lemma {:induction false} SplitWithout(a: string, sep: char)
    requires sep !in a
    ensures Split(a, sep) == [a]
  {
    if a != [] {
      SplitWithout(a[1..], sep);
      assert a == [a[0]] + a[1..];
    }
  }

  /** Splitting at the first separator. */
  lemma {:induction false} SplitAtFirst(a: string, b: string, sep: char)
    requires sep !in a
    ensures Split(a + [sep] + b, sep) == [a] + Split(b, sep)
  {
    var s := a + [sep] + b;
    if a == [] {
      assert s[0] == sep && s[1..] == b;
    } else {
      assert s[0] == a[0] && s[0] != sep;
      assert s[1..] == a[1..] + [sep] + b;
      SplitAtFirst(a[1..], b, sep);
      var rest := Split(s[1..], sep);
      assert rest == [a[1..]] + Split(b, sep);
      assert Split(s, sep) == [[s[0]] + rest[0]] + rest[1..];
      assert [s[0]] + rest[0] == a;
    }
  }

  /** Split undoes Join when no piece holds the separator. */
  lemma {:induction false} SplitJoin(parts: seq<string>, sep: char)
    requires |parts| > 0
    requires forall i :: 0 <= i < |parts| ==> sep !in parts[i]
    ensures Split(Join(parts, sep), sep) == parts
  {
    if |parts| == 1 {
      SplitWithout(parts[0], sep);
    } else {
      SplitJoin(parts[1..], sep);
      SplitAtFirst(parts[0], Join(parts[1..], sep), sep);
      assert parts == [parts[0]] + parts[1..];
    }
  }

  // ------------------------------------------------------------ searching

  /** String.LastIndexOf(char): the last position of `c`, or -1. */
  function LastIndexOf(s: string, c: char): (r: int)
    ensures -1 <= r < |s|
    ensures r == -1 <==> c !in s
    ensures r >= 0 ==> s[r] == c && c !in s[r + 1..]
  {
    if s == [] then -1
    else if s[|s| - 1] == c then |s| - 1
    else
      var r := LastIndexOf(s[..|s| - 1], c);
      assert s == s[..|s| - 1] + [s[|s| - 1]];
      assert r >= 0 ==> s[r + 1..] == s[..|s| - 1][r + 1..] + [s[|s| - 1]];
      r
  }

  /** The last occurrence of `c` is the one after which `c` no longer occurs. */
  lemma LastIndexOfAt(a: string, c: char, b: string)
    requires c !in b
    ensures LastIndexOf(a + [c] + b, c) == |a|
  {
    var s := a + [c] + b;
    var r := LastIndexOf(s, c);
    assert s[|a|] == c;
    assert r >= 0;
    var tail := s[r + 1..];
    assert c !in tail;
    assert r >= |a|;
    assert s[|a| + 1..] == b;
  }
}
