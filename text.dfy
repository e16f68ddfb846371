/** The few string operations of Python that the health engine and the
    server use: `s.split(c)[0]`, `rstrip`/`lstrip` of one character,
    `f"{n}"` for integers and `sep.join(items)`. */
module Text {
  import opened Wrappers

  /** The text before the first `c` of `s`, or all of `s` when `c` does not
      occur: Python's `s.split(c)[0]`, which equals `s.split(c, 1)[0]`. The
      contract pins the result down: a prefix of `s` free of `c` that either
      is `s` itself or is followed by a `c`. */
  function BeforeFirst(s: string, c: char): (r: string)
    ensures r <= s
    ensures c !in r
    ensures c in s ==> |r| < |s| && s[|r|] == c
    ensures c !in s ==> r == s
  {
    if s == [] then []
    else if s[0] == c then []
    else [s[0]] + BeforeFirst(s[1..], c)
  }

  /** Python's `s.lstrip(c)`: drops every leading `c`. */
  function LStrip(s: string, c: char): string {
    if s != [] && s[0] == c then LStrip(s[1..], c) else s
  }

  /** Python's `s.rstrip(c)`: drops every trailing `c`. */
  function RStrip(s: string, c: char): string {
    if s != [] && s[|s| - 1] == c then RStrip(s[..|s| - 1], c) else s
  }

  /** `lstrip` leaves the suffix of `s` that does not start with `c`, and
      everything it drops is `c`. */
  lemma {:induction false} LStripSpec(s: string, c: char)
    ensures |LStrip(s, c)| <= |s| && LStrip(s, c) == s[|s| - |LStrip(s, c)|..]
    ensures LStrip(s, c) == [] || LStrip(s, c)[0] != c
    ensures forall i :: 0 <= i < |s| - |LStrip(s, c)| ==> s[i] == c
  {
    if s != [] && s[0] == c {
      var t := s[1..];
      LStripSpec(t, c);
      var r := LStrip(t, c);
      assert LStrip(s, c) == r;
      assert t[|t| - |r|..] == s[|s| - |r|..];
      forall i | 0 <= i < |s| - |r| ensures s[i] == c {
        if i > 0 {
          assert s[i] == t[i - 1];
        }
      }
    }
  }

  /** `rstrip` leaves the prefix of `s` that does not end with `c`, and
      everything it drops is `c`. */
  lemma {:induction false} RStripSpec(s: string, c: char)
    ensures RStrip(s, c) <= s
    ensures RStrip(s, c) == [] || RStrip(s, c)[|RStrip(s, c)| - 1] != c
    ensures forall i :: |RStrip(s, c)| <= i < |s| ==> s[i] == c
  {
    if s != [] && s[|s| - 1] == c {
      var t := s[..|s| - 1];
      RStripSpec(t, c);
      var r := RStrip(t, c);
      assert RStrip(s, c) == r;
      forall i | |r| <= i < |s| ensures s[i] == c {
        if i < |t| {
          assert s[i] == t[i];
        }
      }
    }
  }

  /** `n` copies of `c`. */
  function Repeat(c: char, n: nat): (r: string)
    ensures |r| == n && forall i :: 0 <= i < n ==> r[i] == c
  {
    if n == 0 then [] else [c] + Repeat(c, n - 1)
  }

  /** Leading copies of the stripped character make no difference to `lstrip`. */
  lemma {:induction false} LStripRepeat(c: char, n: nat, s: string)
    ensures LStrip(Repeat(c, n) + s, c) == LStrip(s, c)
  {
    if n > 0 {
      var t := Repeat(c, n) + s;
      assert t[1..] == Repeat(c, n - 1) + s;
      assert LStrip(t, c) == LStrip(t[1..], c);
      LStripRepeat(c, n - 1, s);
    } else {
      assert Repeat(c, n) + s == s;
    }
  }

  /** Trailing copies of the stripped character make no difference to `rstrip`. */
  lemma {:induction false} RStripRepeat(c: char, n: nat, s: string)
    ensures RStrip(s + Repeat(c, n), c) == RStrip(s, c)
  {
    if n > 0 {
      var t := s + Repeat(c, n);
      assert t[..|t| - 1] == s + Repeat(c, n - 1);
      assert RStrip(t, c) == RStrip(t[..|t| - 1], c);
      RStripRepeat(c, n - 1, s);
    } else {
      assert s + Repeat(c, n) == s;
    }
  }

  predicate IsDigit(ch: char) {
    '0' <= ch <= '9'
  }

  predicate AllDigits(s: string) {
    forall i :: 0 <= i < |s| ==> IsDigit(s[i])
  }

  function DigitChar(d: nat): (ch: char)
    requires d < 10
    ensures IsDigit(ch) && ch as int - '0' as int == d
  {
    ('0' as int + d) as char
  }

  /** The decimal digits of `n`, without leading zeros. */
  function NatToString(n: nat): (r: string)
    ensures |r| >= 1 && AllDigits(r)
    ensures (r[0] == '0') == (n == 0)
  {
    if n < 10 then [DigitChar(n)] else NatToString(n / 10) + [DigitChar(n % 10)]
  }

  /** Python's `f"{n}"` for an integer `n`. */
  function IntToString(n: int): string {
    if n < 0 then "-" + NatToString(-n) else NatToString(n)
  }

  /** The number a string of decimal digits denotes. */
  function DigitsValue(s: string): nat
    requires AllDigits(s)
  {
    if s == [] then 0
    else 10 * DigitsValue(s[..|s| - 1]) + (s[|s| - 1] as int - '0' as int)
  }

  /** Python's `int(s)` restricted to an optional minus sign and at least one
      decimal digit; anything else is `None`. */
  function ParseInt(s: string): Option<int> {
    if |s| >= 2 && s[0] == '-' && AllDigits(s[1..]) then
      var v: int := 0 - DigitsValue(s[1..]) as int; Some(v)
    else if |s| >= 1 && AllDigits(s) then Some(DigitsValue(s))
    else None
  }

  lemma {:induction false} NatToStringValue(n: nat)
    ensures DigitsValue(NatToString(n)) == n
  {
    if n >= 10 {
      var p := NatToString(n / 10);
      assert (p + [DigitChar(n % 10)])[..|p|] == p;
      NatToStringValue(n / 10);
    }
  }

  /** Formatting an integer in decimal loses nothing: parsing gives it back. */
  lemma IntToStringRoundTrip(n: int)
    ensures ParseInt(IntToString(n)) == Some(n)
  {
    var s := IntToString(n);
    if n < 0 {
      var d := NatToString(-n);
      assert s[1..] == d && AllDigits(d);
      NatToStringValue(-n);
      assert ParseInt(s) == Some(0 - DigitsValue(d) as int);
    } else {
      assert s == NatToString(n) && AllDigits(s) && s[0] != '-';
      NatToStringValue(n);
      assert ParseInt(s) == Some(DigitsValue(s));
    }
  }

  /** Distinct integers are formatted differently. */
  lemma IntToStringInjective(a: int, b: int)
    ensures IntToString(a) == IntToString(b) ==> a == b
  {
    IntToStringRoundTrip(a);
    IntToStringRoundTrip(b);
  }

  /** Python's `sep.join(items)`. */
  function Join(sep: string, items: seq<string>): string {
    if items == [] then ""
    else if |items| == 1 then items[0]
    else items[0] + sep + Join(sep, items[1..])
  }
}
