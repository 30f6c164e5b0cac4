/** The pieces of the Java runtime that the navlog code leans on, with Java's semantics written
    out: truncating integer division and remainder, the `(int)` cast of a double, `Math.round`,
    the double remainder `%` by 360, `String.split` with a one-character separator,
    `String.replace`, `Integer.parseInt` and `Integer.toString`.
 */
module JavaLang {
  import opened Outcome

  const IntMin: int := -0x8000_0000
  const IntMax: int := 0x7FFF_FFFF

  function Abs(x: int): nat {
    if x < 0 then -x else x
  }

  // ---------------------------------------------------------------- numbers

  /** `(int) x` for a double `x` within int range: drops the fraction, rounding toward zero. */
  function TruncToInt(x: real): (n: int)
    ensures 0.0 <= x ==> 0 <= n && n as real <= x < n as real + 1.0
    ensures x <= 0.0 ==> n <= 0 && n as real - 1.0 < x <= n as real
  {
    if x >= 0.0 then x.Floor else -((-x).Floor)
  }

  /** `Math.round(x)`: the nearest integer, halves rounded up. */
  function JavaRound(x: real): (n: int)
    ensures x - 0.5 < n as real <= x + 0.5
  {
    (x + 0.5).Floor
  }

  /** `Math.max(-1.0, Math.min(1.0, x))`: the nearest value in [-1, 1]. */
  function ClampUnit(x: real): (r: real)
    ensures -1.0 <= r <= 1.0
    ensures -1.0 <= x <= 1.0 ==> r == x
    ensures 1.0 < x ==> r == 1.0
    ensures x < -1.0 ==> r == -1.0
  {
    var upper := if x < 1.0 then x else 1.0;
    if upper > -1.0 then upper else -1.0
  }

  /** Java `a / b` on int: the quotient rounded toward zero. */
  function IntDiv(a: int, b: int): (q: int)
    requires b != 0
    ensures 0 <= a && 0 < b ==> q == a / b
    ensures a < 0 && 0 < b ==> q == -((-a) / b)
  {
    var m := Abs(a) / Abs(b);
    if (a < 0) == (b < 0) then m else -m
  }

  /** Java `a % b` on int: the remainder carries the sign of the dividend. */
  function IntRem(a: int, b: int): (r: int)
    requires b != 0
    ensures 0 <= a && 0 < b ==> r == a % b
    ensures a < 0 && 0 < b ==> r == -((-a) % b)
  {
    a - IntDiv(a, b) * b
  }

  /** Java `x % 360` on double (C's fmod): what is left of x after taking away the multiple of
      360 obtained by truncating x / 360. */
  function RealRem360(x: real): (r: real)
    ensures 0.0 <= x ==> 0.0 <= r < 360.0
    ensures x <= 0.0 ==> -360.0 < r <= 0.0
    ensures 0.0 <= x < 360.0 ==> r == x
    ensures 360.0 <= x < 720.0 ==> r == x - 360.0
  {
    x - 360.0 * (TruncToInt(x / 360.0) as real)
  }

  // ---------------------------------------------------------------- decimal text

  predicate IsDigit(c: char) {
    '0' <= c <= '9'
  }

  predicate AllDigits(s: string) {
    forall i :: 0 <= i < |s| ==> IsDigit(s[i])
  }

  function DigitChar(d: int): (c: char)
    requires 0 <= d < 10
    ensures IsDigit(c)
  {
    ('0' as int + d) as char
  }

  /** The value of a string of decimal digits, most significant digit first. */
  function DigitsValue(s: string): nat
    requires AllDigits(s)
  {
    if |s| == 0 then 0 else DigitsValue(s[..|s| - 1]) * 10 + (s[|s| - 1] as int - '0' as int)
  }

  /** The decimal digits of `n`, without leading zeros. */
  function NatToDigits(n: nat): (s: string)
    ensures |s| > 0 && AllDigits(s)
    ensures |s| > 1 ==> s[0] != '0'
  {
    if n < 10 then [DigitChar(n)] else NatToDigits(n / 10) + [DigitChar(n % 10)]
  }

  lemma {:induction false} DigitsValueOfNatToDigits(n: nat)
    ensures DigitsValue(NatToDigits(n)) == n
  {
    if n >= 10 {
      var s := NatToDigits(n);
      assert s[..|s| - 1] == NatToDigits(n / 10);
      DigitsValueOfNatToDigits(n / 10);
    }
  }

  /** `Integer.toString(n)` / `Long.toString(n)`: a minus sign for a negative value, then the
      digits of its magnitude. */
  function IntToString(n: int): (s: string)
    ensures |s| > 0
    ensures (s[0] == '-') == (n < 0)
    ensures AllDigits(s[1..])
  {
    if n < 0 then "-" + NatToDigits(-n) else NatToDigits(n)
  }

  /** `Integer.parseInt(s)`: an optional sign, then at least one decimal digit, with a value in
      int range; anything else is a NumberFormatException. */
  function ParseInt(s: string): (r: Result<int>)
    ensures r.Ok? ==> IntMin <= r.value <= IntMax
    ensures r.Err? ==> r.error == NumberFormat(s)
    ensures |s| == 0 ==> r.Err?
    ensures (exists i :: 0 <= i < |s| && !IsDigit(s[i]) && !(i == 0 && |s| > 1 && (s[0] == '+' || s[0] == '-'))) ==>
      r.Err?
    ensures 0 < |s| && AllDigits(s) && DigitsValue(s) <= IntMax ==> r == Ok(DigitsValue(s) as int)
    ensures 0 < |s| && AllDigits(s) && IntMax < DigitsValue(s) ==> r.Err?
    ensures 1 < |s| && s[0] == '-' && AllDigits(s[1..]) && DigitsValue(s[1..]) <= -IntMin ==>
      r == Ok(-(DigitsValue(s[1..]) as int))
    ensures 1 < |s| && s[0] == '-' && AllDigits(s[1..]) && -IntMin < DigitsValue(s[1..]) ==>
      r == Err(NumberFormat(s))
    ensures 1 < |s| && s[0] == '+' && AllDigits(s[1..]) && DigitsValue(s[1..]) <= IntMax ==>
      r == Ok(DigitsValue(s[1..]) as int)
    ensures 1 < |s| && s[0] == '+' && AllDigits(s[1..]) && IntMax < DigitsValue(s[1..]) ==>
      r == Err(NumberFormat(s))
  {
    var signed := |s| > 0 && (s[0] == '-' || s[0] == '+');
    var digits := if signed then s[1..] else s;
    if |digits| == 0 || !AllDigits(digits) then
      Err(NumberFormat(s))
    else
      var v: int := if signed && s[0] == '-' then -(DigitsValue(digits) as int) else DigitsValue(digits);
      if IntMin <= v <= IntMax then Ok(v) else Err(NumberFormat(s))
  }

  /** What Integer.toString writes, Integer.parseInt reads back. */
  lemma {:induction false} ParseIntOfIntToString(n: int)
    requires IntMin <= n <= IntMax
    ensures ParseInt(IntToString(n)) == Ok(n)
  {
    if n < 0 {
      DigitsValueOfNatToDigits(-n);
      ParseIntOfSignedDigits(NatToDigits(-n), n);
    } else {
      DigitsValueOfNatToDigits(n);
      ParseIntOfDigits(NatToDigits(n), n);
    }
  }

  lemma {:induction false} ParseIntOfDigits(d: string, n: int)
    requires 0 < |d| && AllDigits(d) && DigitsValue(d) == n <= IntMax
    ensures ParseInt(d) == Ok(n)
  {
    assert IsDigit(d[0]);
  }

  lemma {:induction false} ParseIntOfSignedDigits(d: string, n: int)
    requires 0 < |d| && AllDigits(d) && DigitsValue(d) == -n && IntMin <= n
    ensures ParseInt("-" + d) == Ok(n)
  {
    assert ("-" + d)[1..] == d;
  }

  /** The text of an int holds no character other than digits and, for a negative value, the
      minus sign. */
  lemma {:induction false} IntToStringHasNo(n: int, c: char)
    requires !IsDigit(c)
    requires c != '-' || 0 <= n
    ensures c !in IntToString(n)
  {
    var s := IntToString(n);
    forall i | 0 <= i < |s| ensures s[i] != c {
      if i > 0 {
        assert s[i] == s[1..][i - 1];
      }
    }
  }

  // ---------------------------------------------------------------- splitting

  function Count(s: string, c: char): nat {
    if |s| == 0 then 0 else (if s[0] == c then 1 else 0) + Count(s[1..], c)
  }

  /** Cuts `s` at every occurrence of `sep`, keeping empty pieces: k separators give k + 1
      pieces, none of which holds the separator. */
  function SplitAll(s: string, sep: char): (parts: seq<string>)
    ensures |parts| == Count(s, sep) + 1
    ensures forall i :: 0 <= i < |parts| ==> sep !in parts[i]
  {
    if |s| == 0 then [""]
    else
      var rest := SplitAll(s[1..], sep);
      if s[0] == sep then [""] + rest else [[s[0]] + rest[0]] + rest[1..]
  }

  /** The pieces glued back together with the separator between neighbours. */
  function JoinWith(parts: seq<string>, sep: char): string
    requires |parts| >= 1
  {
    if |parts| == 1 then parts[0] else parts[0] + [sep] + JoinWith(parts[1..], sep)
  }

  lemma {:induction false} SplitAllJoin(s: string, sep: char)
    ensures JoinWith(SplitAll(s, sep), sep) == s
  {
    if |s| > 0 {
      var rest := SplitAll(s[1..], sep);
      SplitAllJoin(s[1..], sep);
      if s[0] == sep {
        assert ([""] + rest)[1..] == rest;
        assert [s[0]] + s[1..] == s;
      } else if |rest| == 1 {
        assert [s[0]] + s[1..] == s;
      } else {
        var parts := [[s[0]] + rest[0]] + rest[1..];
        assert parts[1..] == rest[1..];
        assert JoinWith(rest, sep) == rest[0] + [sep] + JoinWith(rest[1..], sep);
        assert [s[0]] + s[1..] == s;
      }
    }
  }

  lemma {:induction false} SplitAllWithoutSep(t: string, sep: char)
    requires sep !in t
    ensures SplitAll(t, sep) == [t]
  {
    if |t| > 0 {
      assert sep !in t[1..] by {
        forall i | 0 <= i < |t[1..]| ensures t[1..][i] != sep {
          assert t[1..][i] == t[i + 1];
        }
      }
      SplitAllWithoutSep(t[1..], sep);
      assert [t[0]] + t[1..] == t;
    }
  }

  lemma {:induction false} SplitAllAfterPiece(t: string, x: string, sep: char)
    requires sep !in t
    ensures SplitAll(t + [sep] + x, sep) == [t] + SplitAll(x, sep)
  {
    var s := t + [sep] + x;
    if |t| == 0 {
      assert s[1..] == x;
    } else {
      assert s[1..] == t[1..] + [sep] + x;
      assert sep !in t[1..] by {
        forall i | 0 <= i < |t[1..]| ensures t[1..][i] != sep {
          assert t[1..][i] == t[i + 1];
        }
      }
      SplitAllAfterPiece(t[1..], x, sep);
      assert [t[0]] + t[1..] == t;
    }
  }

  /** Joining pieces that do not hold the separator and cutting again gives the pieces back. */
  lemma {:induction false} JoinSplitAll(parts: seq<string>, sep: char)
    requires |parts| >= 1
    requires forall i :: 0 <= i < |parts| ==> sep !in parts[i]
    ensures SplitAll(JoinWith(parts, sep), sep) == parts
  {
    if |parts| == 1 {
      SplitAllWithoutSep(parts[0], sep);
    } else {
      JoinSplitAll(parts[1..], sep);
      SplitAllAfterPiece(parts[0], JoinWith(parts[1..], sep), sep);
      assert [parts[0]] + parts[1..] == parts;
    }
  }

  /** Removes the empty pieces at the end, as String.split does with a zero limit. */
  function DropTrailingEmpty(parts: seq<string>): (kept: seq<string>)
    ensures kept <= parts
    ensures kept == [] || kept[|kept| - 1] != ""
    ensures forall i :: |kept| <= i < |parts| ==> parts[i] == ""
  {
    if |parts| == 0 || parts[|parts| - 1] != "" then parts
    else DropTrailingEmpty(parts[..|parts| - 1])
  }

  /** `s.split(sep)` for a separator that is not a regular-expression metacharacter: the input
      itself when the separator does not occur, otherwise every piece with the trailing empty
      pieces removed. */
  function JavaSplit(s: string, sep: char): seq<string> {
    if sep !in s then [s] else DropTrailingEmpty(SplitAll(s, sep))
  }

  /** split undoes a join of separator-free pieces whose last piece is not empty. */
  lemma {:induction false} JavaSplitOfJoin(parts: seq<string>, sep: char)
    requires |parts| >= 1
    requires forall i :: 0 <= i < |parts| ==> sep !in parts[i]
    requires |parts| == 1 || parts[|parts| - 1] != ""
    ensures JavaSplit(JoinWith(parts, sep), sep) == parts
  {
    if |parts| > 1 {
      var s := JoinWith(parts, sep);
      assert s[|parts[0]|] == sep;
      JoinSplitAll(parts, sep);
    }
  }

  // ---------------------------------------------------------------- other text operations

  /** `s.replace(String.valueOf(c), "")`: every occurrence of `c` removed, every other
      character kept. */
  function RemoveChar(s: string, c: char): (r: string)
    ensures c !in r
    ensures |r| <= |s|
  {
    if |s| == 0 then ""
    else (if s[0] == c then "" else [s[0]]) + RemoveChar(s[1..], c)
  }

  /** Deleting a character distributes over concatenation. */
  lemma {:induction false} RemoveCharConcat(s: string, t: string, c: char)
    ensures RemoveChar(s + t, c) == RemoveChar(s, c) + RemoveChar(t, c)
  {
    if |s| > 0 {
      assert (s + t)[1..] == s[1..] + t;
      RemoveCharConcat(s[1..], t, c);
    } else {
      assert s + t == t;
    }
  }

  lemma {:induction false} RemoveCharAbsent(s: string, c: char)
    requires c !in s
    ensures RemoveChar(s, c) == s
  {
    if |s| > 0 {
      assert c !in s[1..] by {
        forall i | 0 <= i < |s[1..]| ensures s[1..][i] != c {
          assert s[1..][i] == s[i + 1];
        }
      }
      RemoveCharAbsent(s[1..], c);
      assert [s[0]] + s[1..] == s;
    }
  }

  function UpperChar(c: char): char {
    if 'a' <= c <= 'z' then (c as int - 'a' as int + 'A' as int) as char else c
  }

  /** `s.toUpperCase()` for ASCII letters. */
  function AsciiUpper(s: string): (u: string)
    ensures |u| == |s|
    ensures forall i :: 0 <= i < |s| && 'A' <= s[i] <= 'Z' ==> u[i] == s[i]
    ensures forall i :: 0 <= i < |s| && 'a' <= s[i] <= 'z' ==> u[i] as int == s[i] as int - 32
  {
    seq(|s|, i requires 0 <= i < |s| => UpperChar(s[i]))
  }
}
