/**
 * The pieces of java.lang.String and java.lang.Integer that the core relies on:
 * `String.format("%d", n)`, `Integer.parseInt(s)` and `String.split("-")`.
 * Only ASCII digits are modelled.
 */
module Text {
  import opened Wrappers

  const INT_MIN: int := -0x8000_0000
  const INT_MAX: int := 0x7fff_ffff

  predicate IsDigit(c: char) {
    '0' <= c <= '9'
  }

  predicate AllDigits(s: string) {
    forall i :: 0 <= i < |s| ==> IsDigit(s[i])
  }

  function DigitChar(d: nat): (c: char)
    requires d < 10
    ensures IsDigit(c) && c as int - '0' as int == d
  {
    ('0' as int + d) as char
  }

  /** The shortest decimal spelling of a natural number. */
  function NatDigits(n: nat): (s: string)
    ensures |s| > 0 && AllDigits(s)
    ensures n < 10 <==> |s| == 1
    decreases n
  {
    if n < 10 then [DigitChar(n)] else NatDigits(n / 10) + [DigitChar(n % 10)]
  }

  /** The value of a string of decimal digits, most significant first. */
  function DigitsValue(s: string): nat
    requires AllDigits(s)
  {
    if s == [] then 0 else DigitsValue(s[..|s| - 1]) * 10 + (s[|s| - 1] as int - '0' as int)
  }

  /** `String.format("%d", n)`: an optional minus sign followed by the digits of |n|. */
  function FormatDecimal(n: int): string {
    if n < 0 then "-" + NatDigits(-n) else NatDigits(n)
  }

  /** A decimal numeral with an optional leading sign, of any magnitude. */
  function ParseSigned(s: string): Option<int> {
    if |s| > 1 && (s[0] == '-' || s[0] == '+') && AllDigits(s[1..]) then
      var v: int := DigitsValue(s[1..]);
      Some(if s[0] == '-' then -v else v)
    else if |s| > 0 && AllDigits(s) then
      Some(DigitsValue(s))
    else
      None
  }

  /** `Integer.parseInt(s)`: None stands for the NumberFormatException. */
  function ParseInt(s: string): (r: Option<int>)
    ensures r.Some? ==> INT_MIN <= r.value <= INT_MAX
    ensures r.Some? ==> ParseSigned(s) == r
  {
    match ParseSigned(s)
    case Some(v) => if INT_MIN <= v <= INT_MAX then Some(v) else None
    case None => None
  }

  /** Leading zeros, as `%010d` produces them. */
  function Zeros(k: nat): (s: string)
    ensures |s| == k && AllDigits(s)
  {
    if k == 0 then [] else Zeros(k - 1) + ['0']
  }

  lemma {:induction false} NatDigitsValue(n: nat)
    ensures DigitsValue(NatDigits(n)) == n
    decreases n
  {
    if n >= 10 {
      var s := NatDigits(n);
      assert s[..|s| - 1] == NatDigits(n / 10);
      NatDigitsValue(n / 10);
    }
  }

  lemma {:induction false} ZerosValue(k: nat)
    ensures DigitsValue(Zeros(k)) == 0
  {
    if k > 0 {
      assert Zeros(k)[..k - 1] == Zeros(k - 1);
      ZerosValue(k - 1);
    }
  }

  /** Leading zeros do not change the value of a numeral. */
  lemma {:induction false} LeadingZerosValue(k: nat, s: string)
    requires AllDigits(s)
    ensures AllDigits(Zeros(k) + s) && DigitsValue(Zeros(k) + s) == DigitsValue(s)
    decreases |s|
  {
    var z := Zeros(k) + s;
    if s == [] {
      assert z == Zeros(k);
      ZerosValue(k);
    } else {
      assert z[..|z| - 1] == Zeros(k) + s[..|s| - 1];
      LeadingZerosValue(k, s[..|s| - 1]);
    }
  }

  /** Reading back what `%d` wrote gives the number again. */
  lemma FormatDecimalRoundTrip(n: int)
    ensures ParseSigned(FormatDecimal(n)) == Some(n)
  {
    var d := NatDigits(if n < 0 then -n else n);
    NatDigitsValue(if n < 0 then -n else n);
    if n < 0 {
      assert FormatDecimal(n)[1..] == d;
    }
  }

  /** `Integer.parseInt` inverts `%d` on every Java int. */
  lemma ParseIntFormatDecimal(n: int)
    requires INT_MIN <= n <= INT_MAX
    ensures ParseInt(FormatDecimal(n)) == Some(n)
  {
    FormatDecimalRoundTrip(n);
  }

  /** A decimal spelling contains no character other than digits and a leading minus sign. */
  lemma FormatDecimalChars(n: int, c: char)
    requires !IsDigit(c) && c != '-'
    ensures c !in FormatDecimal(n)
  {
  }

  lemma FormatDecimalInjective(m: int, n: int)
    requires FormatDecimal(m) == FormatDecimal(n)
    ensures m == n
  {
    FormatDecimalRoundTrip(m);
    FormatDecimalRoundTrip(n);
  }

  /** The pieces of s between the occurrences of sep; there is always one more piece than occurrences. */
  function Pieces(s: string, sep: char): (r: seq<string>)
    ensures |r| >= 1
    ensures forall i :: 0 <= i < |r| ==> sep !in r[i]
    ensures forall i, c :: 0 <= i < |r| && c in r[i] ==> c in s
  {
    if s == [] then [""]
    else
      var rest := Pieces(s[1..], sep);
      assert forall c :: c in s[1..] ==> c in s;
      if s[0] == sep then [""] + rest else [[s[0]] + rest[0]] + rest[1..]
  }

  function DropTrailingEmpty(ps: seq<string>): seq<string> {
    if ps != [] && ps[|ps| - 1] == "" then DropTrailingEmpty(ps[..|ps| - 1]) else ps
  }

  /**
   * `s.split(String.valueOf(sep))` for a separator that is not special in a regular
   * expression: without any occurrence the result is `[s]`; otherwise the pieces,
   * with trailing empty pieces removed.
   */
  function Split(s: string, sep: char): seq<string> {
    if sep !in s then [s] else DropTrailingEmpty(Pieces(s, sep))
  }

  lemma {:induction false} PiecesWithout(s: string, sep: char)
    requires sep !in s
    ensures Pieces(s, sep) == [s]
  {
    if s != [] {
      PiecesWithout(s[1..], sep);
      assert [s[0]] + s[1..] == s;
    }
  }

  lemma {:induction false} PiecesAfter(a: string, sep: char, b: string)
    requires sep !in a
    ensures Pieces(a + [sep] + b, sep) == [a] + Pieces(b, sep)
  {
    var s := a + [sep] + b;
    if a == [] {
      assert s[1..] == b;
    } else {
      assert s[1..] == a[1..] + [sep] + b;
      PiecesAfter(a[1..], sep, b);
      assert [a[0]] + a[1..] == a;
    }
  }

  /** Splitting `a-b` on `-` gives `[a, b]` when neither part holds a `-` and b is not empty. */
  lemma SplitTwo(a: string, sep: char, b: string)
    requires sep !in a && sep !in b && b != ""
    ensures Split(a + [sep] + b, sep) == [a, b]
  {
    assert (a + [sep] + b)[|a|] == sep;
    PiecesAfter(a, sep, b);
    PiecesWithout(b, sep);
  }

  /** Splitting `a-` on `-` drops the empty trailing piece: `[a]`, or nothing at all when a is empty. */
  lemma SplitTrailing(a: string, sep: char)
    requires sep !in a
    ensures Split(a + [sep], sep) == if a == "" then [] else [a]
  {
    assert (a + [sep])[|a|] == sep;
    assert a + [sep] == a + [sep] + "";
    PiecesAfter(a, sep, "");
    assert Pieces(a + [sep], sep) == [a, ""];
    assert [a, ""][..1] == [a];
    if a == "" {
      assert [a][..0] == [];
      assert DropTrailingEmpty([a]) == DropTrailingEmpty([]);
    }
  }

  /** Dropping trailing empty pieces keeps every piece up to the last non-empty one. */
  lemma {:induction false} DropTrailingEmptyKeeps(ps: seq<string>, k: nat)
    requires k < |ps| && ps[k] != ""
    ensures var r := DropTrailingEmpty(ps); |r| > k && r[..k + 1] == ps[..k + 1]
    decreases |ps|
  {
    if ps[|ps| - 1] == "" {
      var init := ps[..|ps| - 1];
      assert init[k] == ps[k];
      DropTrailingEmptyKeeps(init, k);
      assert init[..k + 1] == ps[..k + 1];
    }
  }

  /** Splitting `a-b-rest` on `-`, with no `-` inside a or b and b not empty, gives a first piece a and a second piece b. */
  lemma SplitLeadingTwo(a: string, sep: char, b: string, rest: string)
    requires sep !in a && sep !in b && b != ""
    ensures var r := Split(a + [sep] + b + [sep] + rest, sep); |r| >= 2 && r[0] == a && r[1] == b
  {
    var s := a + [sep] + b + [sep] + rest;
    assert s[|a|] == sep;
    assert s == a + [sep] + (b + [sep] + rest);
    PiecesAfter(a, sep, b + [sep] + rest);
    PiecesAfter(b, sep, rest);
    var ps := Pieces(s, sep);
    assert ps == [a, b] + Pieces(rest, sep);
    DropTrailingEmptyKeeps(ps, 1);
    var r := DropTrailingEmpty(ps);
    assert r[..2][0] == a && r[..2][1] == b;
  }
}
