/** String helpers shared by the identifier formats of the library model:
    decimal rendering (`f"{n}"`), two-digit zero padding (`f"{n:02d}"`),
    ASCII upper-casing and ASCII whitespace. */
module Text {

  predicate IsDigitChar(c: char) {
    '0' <= c <= '9'
  }

  function DigitChar(d: nat): (c: char)
    requires d < 10
    ensures IsDigitChar(c)
  {
    ('0' as int + d) as char
  }

  function DigitValue(c: char): nat {
    if IsDigitChar(c) then (c as int - '0' as int) as nat else 0
  }

  /** Decimal rendering of a natural number, without leading zeros. */
  function Digits(n: nat): (s: string)
    ensures |s| >= 1
    ensures forall i :: 0 <= i < |s| ==> IsDigitChar(s[i])
    ensures n < 10 ==> |s| == 1
    ensures 10 <= n < 100 ==> |s| == 2
  {
    if n < 10 then [DigitChar(n)] else Digits(n / 10) + [DigitChar(n % 10)]
  }

  /** Reads a string of decimal digits back as a number. */
  function ParseDigits(s: string): nat {
    if s == [] then 0 else ParseDigits(s[..|s| - 1]) * 10 + DigitValue(s[|s| - 1])
  }

  lemma {:induction false} DigitsRoundTrip(n: nat)
    ensures ParseDigits(Digits(n)) == n
  {
    var s := Digits(n);
    if n < 10 {
      assert s[..|s| - 1] == [];
    } else {
      assert s[..|s| - 1] == Digits(n / 10);
      DigitsRoundTrip(n / 10);
    }
  }

  /** Different numbers render differently. */
  lemma DigitsInjective(m: nat, n: nat)
    requires Digits(m) == Digits(n)
    ensures m == n
  {
    DigitsRoundTrip(m);
    DigitsRoundTrip(n);
  }

  /** A floor's id, `f"F{level}"`, as both the seed generator and the
      study-buddy finder spell it. */
  function FloorId(level: nat): string {
    "F" + Digits(level)
  }

  /** Different levels have different floor ids. */
  lemma FloorIdInjective(a: nat, b: nat)
    requires FloorId(a) == FloorId(b)
    ensures a == b
  {
    assert Digits(a) == FloorId(a)[1..];
    assert Digits(b) == FloorId(b)[1..];
    DigitsInjective(a, b);
  }

  /** Python's `f"{n:02d}"` on a non-negative number: at least two digits,
      padded on the left with a zero. */
  function Pad2(n: nat): (s: string)
    ensures n < 100 ==> |s| == 2
    ensures n >= 100 ==> s == Digits(n)
  {
    if n < 10 then "0" + Digits(n) else Digits(n)
  }

  lemma Pad2RoundTrip(n: nat)
    ensures ParseDigits(Pad2(n)) == n
  {
    DigitsRoundTrip(n);
    if n < 10 {
      var s := Pad2(n);
      assert s == ['0', DigitChar(n)];
      assert s[..1] == "0";
      assert ParseDigits(s[..1]) == 0 by {
        assert s[..1][..0] == [];
      }
    }
  }

  lemma Pad2Injective(m: nat, n: nat)
    requires Pad2(m) == Pad2(n)
    ensures m == n
  {
    Pad2RoundTrip(m);
    Pad2RoundTrip(n);
  }

  /** ASCII upper-casing of one character. */
  function UpperChar(c: char): (u: char)
    ensures 'a' <= c <= 'z' ==> u as int == c as int - 32
    ensures !('a' <= c <= 'z') ==> u == c
  {
    if 'a' <= c <= 'z' then (c as int - 32) as char else c
  }

  /** Python's `s.upper()`, restricted to ASCII letters. */
  function Upper(s: string): (u: string)
    ensures |u| == |s|
    ensures forall i :: 0 <= i < |s| ==> u[i] == UpperChar(s[i])
  {
    seq(|s|, i requires 0 <= i < |s| => UpperChar(s[i]))
  }

  /** The ASCII characters Python's `str.strip()` removes: tab, line
      feed, vertical tab, form feed, carriage return, the four separators
      0x1c..0x1f and space. */
  predicate IsSpace(c: char) {
    (9 <= c as int <= 13) || (28 <= c as int <= 31) || c == ' '
  }

  function TrimLeft(s: string): (r: string)
    ensures |r| <= |s| && r == s[|s| - |r|..]
    ensures forall i :: 0 <= i < |s| - |r| ==> IsSpace(s[i])
    ensures r != [] ==> !IsSpace(r[0])
  {
    if s != [] && IsSpace(s[0]) then TrimLeft(s[1..]) else s
  }

  function TrimRight(s: string): (r: string)
    ensures |r| <= |s| && r == s[..|r|]
    ensures forall i :: |r| <= i < |s| ==> IsSpace(s[i])
    ensures r != [] ==> !IsSpace(r[|r| - 1])
  {
    if s != [] && IsSpace(s[|s| - 1]) then TrimRight(s[..|s| - 1]) else s
  }

  /** Python's `s.strip()` on ASCII whitespace. */
  function Strip(s: string): string {
    TrimRight(TrimLeft(s))
  }

  predicate AllSpace(s: string) {
    forall i :: 0 <= i < |s| ==> IsSpace(s[i])
  }

  /** Stripping leaves nothing exactly when every character is
      whitespace; otherwise what is left is a slice of `s` that starts
      and ends with a non-space character. */
  lemma StripEmpty(s: string)
    ensures Strip(s) == [] <==> AllSpace(s)
    ensures Strip(s) != [] ==> exists a, b :: 0 <= a < b <= |s| && Strip(s) == s[a..b] && !IsSpace(s[a]) && !IsSpace(s[b - 1])
  {
    var l := TrimLeft(s);
    var k := |s| - |l|;
    if Strip(s) != [] {
      var r := Strip(s);
      assert r == s[k..k + |r|];
      assert !IsSpace(s[k]) by {
        assert l[0] == r[0] == s[k];
      }
      assert s[k + |r| - 1] == r[|r| - 1];
    }
  }
}
