/** The .NET string and number helpers the drivers rely on, written out:
  * `String.Split`, `String.Trim`, `String.PadLeft`, `String.ToUpper` on ASCII,
  * integer `ToString()` and the `Parse`/`TryParse` family for integral types
  * (`NumberStyles.Integer`: surrounding white space, one optional sign, ASCII
  * digits, range check). */
module Text {
  import opened Wrappers

  /** The white space `NumberStyles.Integer` and `Trim` skip (ASCII part). */
  predicate IsWhite(c: char) {
    c == ' ' || c == '\t' || c == '\n' || c == '\r' || c == '\U{B}' || c == '\U{C}'
  }

  predicate IsDigit(c: char) {
    48 <= c as int <= 57
  }

  predicate IsDigits(s: string) {
    |s| > 0 && forall i :: 0 <= i < |s| ==> IsDigit(s[i])
  }

  function TrimStart(s: string): string {
    if |s| > 0 && IsWhite(s[0]) then TrimStart(s[1..]) else s
  }

  function TrimEnd(s: string): string {
    if |s| > 0 && IsWhite(s[|s| - 1]) then TrimEnd(s[..|s| - 1]) else s
  }

  /** `String.Trim()`. */
  function Trim(s: string): string {
    TrimEnd(TrimStart(s))
  }

  /** `String.Split(separators)`: the pieces between separators, empty pieces
    * kept, always at least one piece. */
  function Split(s: string, seps: set<char>): (parts: seq<string>)
    ensures |parts| >= 1
    ensures forall i, j :: 0 <= i < |parts| && 0 <= j < |parts[i]| ==> parts[i][j] !in seps
  {
    if |s| == 0 then [""]
    else
      var rest := Split(s[1..], seps);
      if s[0] in seps then [""] + rest
      else [[s[0]] + rest[0]] + rest[1..]
  }

  /** The inverse of `Split` on one separator: the pieces glued back together. */
  function Join(parts: seq<string>, sep: char): string
    requires |parts| >= 1
  {
    if |parts| == 1 then parts[0] else parts[0] + [sep] + Join(parts[1..], sep)
  }

  lemma {:induction false} JoinSplit(s: string, sep: char)
    ensures Join(Split(s, {sep}), sep) == s
    decreases |s|
  {
    if |s| > 0 {
      JoinSplit(s[1..], sep);
      var rest := Split(s[1..], {sep});
      if s[0] == sep {
        assert Split(s, {sep}) == [""] + rest;
        assert ([""] + rest)[1..] == rest;
      } else {
        var parts := Split(s, {sep});
        assert parts == [[s[0]] + rest[0]] + rest[1..];
        if |rest| == 1 {
          assert parts == [[s[0]] + rest[0]];
        } else {
          assert parts[1..] == rest[1..];
          assert Join(rest, sep) == rest[0] + [sep] + Join(rest[1..], sep);
        }
      }
    }
  }

  /** The first piece of a split is the text before the first separator. */
  lemma {:induction false} SplitHeadIsPrefix(s: string, seps: set<char>)
    ensures var h := Split(s, seps)[0];
      |h| <= |s| && h == s[..|h|] && (|h| < |s| ==> s[|h|] in seps)
    decreases |s|
  {
    if |s| > 0 && s[0] !in seps {
      SplitHeadIsPrefix(s[1..], seps);
    }
  }

  /** A text without separators splits into itself alone. */
  lemma {:induction false} SplitNoSeparator(s: string, seps: set<char>)
    requires forall i :: 0 <= i < |s| ==> s[i] !in seps
    ensures Split(s, seps) == [s]
    decreases |s|
  {
    if |s| > 0 {
      SplitNoSeparator(s[1..], seps);
      assert [s[0]] + s[1..] == s;
    }
  }

  /** Text with one separator splits into the pieces on either side. */
  lemma {:induction false} SplitAtSeparator(x: string, y: string, sep: char)
    requires sep !in x && sep !in y
    ensures Split(x + [sep] + y, {sep}) == [x, y]
    decreases |x|
  {
    var s := x + [sep] + y;
    if |x| == 0 {
      assert s == [sep] + y && s[1..] == y;
      SplitNoSeparator(y, {sep});
    } else {
      assert s[1..] == x[1..] + [sep] + y;
      SplitAtSeparator(x[1..], y, sep);
      assert [x[0]] + x[1..] == x;
    }
  }

  function Repeat(c: char, n: nat): (r: string)
    ensures |r| == n && forall i :: 0 <= i < n ==> r[i] == c
  {
    if n == 0 then [] else [c] + Repeat(c, n - 1)
  }

  /** `String.PadLeft(width, c)`. */
  function PadLeft(s: string, width: int, c: char): (r: string)
    ensures |s| >= width ==> r == s
    ensures |s| < width ==>
      (|r| == width && r[width - |s|..] == s && forall i :: 0 <= i < width - |s| ==> r[i] == c)
  {
    if |s| >= width then s else Repeat(c, width - |s|) + s
  }

  /** `Char.ToUpperInvariant` restricted to ASCII letters. */
  function UpperChar(c: char): char {
    if 'a' <= c <= 'z' then (c as int - 32) as char else c
  }

  function ToUpper(s: string): (r: string)
    ensures |r| == |s| && forall i :: 0 <= i < |s| ==> r[i] == UpperChar(s[i])
  {
    if |s| == 0 then [] else [UpperChar(s[0])] + ToUpper(s[1..])
  }

  function DigitValue(c: char): nat
    requires IsDigit(c)
  {
    c as int - 48
  }

  function DigitsValue(s: string): nat
    requires forall i :: 0 <= i < |s| ==> IsDigit(s[i])
  {
    if |s| == 0 then 0 else DigitsValue(s[..|s| - 1]) * 10 + DigitValue(s[|s| - 1])
  }

  /** The value written by a sign-less or signed run of digits, if it is one. */
  function SignedValue(t: string): Option<int> {
    if |t| > 0 && (t[0] == '-' || t[0] == '+') then
      if IsDigits(t[1..]) then
        var v: int := DigitsValue(t[1..]);
        Some(if t[0] == '-' then -v else v)
      else None
    else if IsDigits(t) then Some(DigitsValue(t))
    else None
  }

  /** `T.TryParse(s, out v)` for an integral type with range `[lo, hi]`:
    * `byte` is `[0, 255]`, `ushort` `[0, 65535]`, `int` `[-2^31, 2^31 - 1]`. */
  function ParseInteger(s: string, lo: int, hi: int): (r: Option<int>)
    ensures r.Some? ==> lo <= r.value <= hi
  {
    match SignedValue(Trim(s))
    case None => None
    case Some(v) => if lo <= v <= hi then Some(v) else None
  }

  const ByteMax := 255
  const UShortMax := 65535
  const IntMin := -0x8000_0000
  const IntMax := 0x7FFF_FFFF

  function ParseByte(s: string): Option<int> { ParseInteger(s, 0, ByteMax) }
  function ParseUShort(s: string): Option<int> { ParseInteger(s, 0, UShortMax) }
  function ParseInt(s: string): Option<int> { ParseInteger(s, IntMin, IntMax) }

  function DigitChar(d: nat): char
    requires d < 10
  {
    (48 + d) as char
  }

  /** The decimal text of a natural number, most significant digit first. */
  function NatString(n: nat): (r: string)
    ensures IsDigits(r)
  {
    if n < 10 then [DigitChar(n)] else NatString(n / 10) + [DigitChar(n % 10)]
  }

  /** `int.ToString()` / `byte.ToString()` in the invariant culture. */
  function DecimalString(n: int): string {
    if n < 0 then "-" + NatString(-n) else NatString(n)
  }

  lemma {:induction false} NatStringValue(n: nat)
    ensures DigitsValue(NatString(n)) == n
  {
    if n >= 10 {
      NatStringValue(n / 10);
      var s := NatString(n);
      assert s[..|s| - 1] == NatString(n / 10);
    }
  }

  lemma TrimPlain(s: string)
    requires |s| > 0 && !IsWhite(s[0]) && !IsWhite(s[|s| - 1])
    ensures Trim(s) == s
  {
  }

  /** Parsing the decimal text of a value in range gives the value back. */
  lemma {:induction false} ParseDecimalString(n: int, lo: int, hi: int)
    requires lo <= n <= hi
    ensures ParseInteger(DecimalString(n), lo, hi) == Some(n)
  {
    var s := DecimalString(n);
    if n < 0 {
      NatStringValue(-n);
      assert s[1..] == NatString(-n);
      assert s[|s| - 1] == NatString(-n)[|NatString(-n)| - 1];
    } else {
      NatStringValue(n);
    }
    TrimPlain(s);
  }

  /** Distinct numbers have distinct decimal texts. */
  lemma DecimalStringInjective(a: int, b: int)
    requires DecimalString(a) == DecimalString(b)
    ensures a == b
  {
    var lo := if a < b then a else b;
    var hi := if a < b then b else a;
    ParseDecimalString(a, lo, hi);
    ParseDecimalString(b, lo, hi);
  }

  /** A decimal text starts with a digit or the minus sign and ends with a
    * digit. */
  lemma DecimalStringEnds(n: int)
    ensures var s := DecimalString(n);
            |s| > 0 && (IsDigit(s[0]) || s[0] == '-') && IsDigit(s[|s| - 1])
  {
    var d := NatString(if n < 0 then -n else n);
    assert IsDigit(d[|d| - 1]) && IsDigit(d[0]);
  }

  /** Decimal texts never contain `c` unless it is a digit or the minus sign. */
  lemma DecimalStringChars(n: int, c: char)
    requires !IsDigit(c) && c != '-'
    ensures c !in DecimalString(n)
  {
    var s := DecimalString(n);
    if n < 0 {
      assert forall i :: 1 <= i < |s| ==> s[i] == NatString(-n)[i - 1];
    }
  }

  /** Position of the first `c` in `s`. */
  function IndexOf(s: string, c: char): (k: nat)
    requires c in s
    ensures k < |s| && s[k] == c && c !in s[..k]
  {
    if s[0] == c then 0 else 1 + IndexOf(s[1..], c)
  }

  lemma {:induction false} IndexOfGlued(x: string, y: string, c: char)
    requires c !in x
    ensures IndexOf(x + [c] + y, c) == |x|
    decreases |x|
  {
    if |x| > 0 {
      assert (x + [c] + y)[1..] == x[1..] + [c] + y;
      IndexOfGlued(x[1..], y, c);
    }
  }

  /** Gluing `x + [c] + y` is unambiguous when `x` holds no `c`. */
  lemma SeparatedUnique(x: string, y: string, x': string, y': string, c: char)
    requires c !in x && c !in x'
    requires x + [c] + y == x' + [c] + y'
    ensures x == x' && y == y'
  {
    var s := x + [c] + y;
    IndexOfGlued(x, y, c);
    IndexOfGlued(x', y', c);
    assert x == s[..|x|] == x';
    assert y == s[|x| + 1..] == y';
  }
}
