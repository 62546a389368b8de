/**
 * The C library and GLib text routines the sysfs parsing depends on:
 * `atoi`/`sscanf("%ld")`, `sprintf("%ld")` and `g_strsplit(s, " ", max)`,
 * together with the round trips that relate them.
 */
module Text {

  predicate IsDigit(c: char) {
    '0' <= c <= '9'
  }

  /** `isspace` in the C locale */
  predicate IsSpace(c: char) {
    c == ' ' || c == '\t' || c == '\n' || c == '\r' || c as int == 11 || c as int == 12
  }

  function DigitValue(c: char): nat
    requires IsDigit(c)
  {
    c as int - '0' as int
  }

  function DigitChar(d: nat): (c: char)
    requires d < 10
    ensures IsDigit(c) && DigitValue(c) == d
  {
    ('0' as int + d) as char
  }

  predicate AllDigits(s: string) {
    forall i :: 0 <= i < |s| ==> IsDigit(s[i])
  }

  /** The value of a string of decimal digits, most significant first. */
  function DigitsValue(s: string): nat
    requires AllDigits(s)
  {
    if s == [] then 0 else DigitsValue(s[..|s| - 1]) * 10 + DigitValue(s[|s| - 1])
  }

  /** Length of the run of digits that starts `s`. */
  function DigitRun(s: string): (k: nat)
    ensures k <= |s| && AllDigits(s[..k])
    ensures k < |s| ==> !IsDigit(s[k])
  {
    if s != [] && IsDigit(s[0]) then
      var k := 1 + DigitRun(s[1..]);
      assert s[..k] == [s[0]] + s[1..][..k - 1];
      k
    else 0
  }

  /** The value of the digits that start `s`, 0 when there are none. */
  function LeadingValue(s: string): nat {
    DigitsValue(s[..DigitRun(s)])
  }

  /** Length of the run of white space that starts `s`. */
  function SpaceRun(s: string): (k: nat)
    ensures k <= |s|
    ensures k < |s| ==> !IsSpace(s[k])
    ensures s != [] && !IsSpace(s[0]) ==> k == 0
  {
    if s != [] && IsSpace(s[0]) then 1 + SpaceRun(s[1..]) else 0
  }

  /** The value of an optional sign and the digits after it. */
  function Signed(s: string): int {
    if s != [] && s[0] == '-' then -(LeadingValue(s[1..]) as int)
    else if s != [] && s[0] == '+' then LeadingValue(s[1..])
    else LeadingValue(s)
  }

  /**
   * `atoi(s)` (and the value `sscanf(s, "%ld", &v)` stores): leading white space is
   * skipped, then an optional sign, then as many digits as follow. Without digits the
   * value is 0. The overflow C leaves undefined is not modelled: the value is exact.
   */
  function Atoi(s: string): int
  {
    Signed(s[SpaceRun(s)..])
  }

  /** The decimal digits of `n`, without leading zeros. */
  function Decimal(n: nat): (s: string)
    ensures |s| >= 1 && AllDigits(s)
    ensures s[0] != '0' || n == 0
  {
    if n < 10 then [DigitChar(n)] else Decimal(n / 10) + [DigitChar(n % 10)]
  }

  /** `sprintf(buf, "%ld", v)` (and `%d`): a minus sign for negative values, then the digits. */
  function FormatLong(v: int): (s: string)
    ensures |s| >= 1 && !IsSpace(s[0]) && s[0] != '+'
    ensures forall i :: 0 <= i < |s| ==> IsDigit(s[i]) || (i == 0 && s[i] == '-')
  {
    if v < 0 then "-" + Decimal(-v) else Decimal(v)
  }

  lemma {:induction false} DigitsValueOfDecimal(n: nat)
    ensures DigitsValue(Decimal(n)) == n
  {
    if n >= 10 {
      var s := Decimal(n);
      assert s[..|s| - 1] == Decimal(n / 10);
      DigitsValueOfDecimal(n / 10);
    }
  }

  lemma {:induction false} DigitRunOfDigits(d: string, rest: string)
    requires AllDigits(d)
    requires rest == [] || !IsDigit(rest[0])
    ensures DigitRun(d + rest) == |d|
  {
    if d != [] {
      assert (d + rest)[1..] == d[1..] + rest;
      DigitRunOfDigits(d[1..], rest);
    }
  }

  lemma LeadingValueOfDecimal(n: nat, rest: string)
    requires rest == [] || !IsDigit(rest[0])
    ensures LeadingValue(Decimal(n) + rest) == n
  {
    var s := Decimal(n) + rest;
    DigitRunOfDigits(Decimal(n), rest);
    assert s[..DigitRun(s)] == Decimal(n);
    DigitsValueOfDecimal(n);
  }

  /** Parsing the decimal text of a number, followed by anything that is not a digit, gives it back. */
  lemma AtoiOfDecimal(n: nat, rest: string)
    requires rest == [] || !IsDigit(rest[0])
    ensures Atoi(Decimal(n) + rest) == n
  {
    var s := Decimal(n) + rest;
    assert s[0] == Decimal(n)[0];
    LeadingValueOfDecimal(n, rest);
  }

  /**
   * Concatenation regrouped: the sysfs path proofs call it to move the split point of
   * a path between its prefix, its number and its file name.
   */
  lemma Associative(a: string, b: string, c: string)
    ensures (a + b) + c == a + (b + c)
  {
  }

  /** A minus sign in front of any text negates the value of the digits that start it. */
  lemma AtoiOfSigned(d: string, rest: string)
    ensures Atoi(("-" + d) + rest) == -(LeadingValue(d + rest) as int)
  {
    var s := ("-" + d) + rest;
    assert s[0] == '-';
    assert s[1..] == d + rest;
  }

  lemma AtoiOfFormatNegative(v: int, rest: string)
    requires v < 0
    requires rest == [] || !IsDigit(rest[0])
    ensures Atoi(FormatLong(v) + rest) == v
  {
    var d := Decimal(-v);
    assert FormatLong(v) == "-" + d;
    AtoiOfSigned(d, rest);
    LeadingValueOfDecimal(-v, rest);
  }

  /** `atoi` inverts `sprintf("%ld")`, also when a newline or a space follows the number. */
  lemma AtoiOfFormatLong(v: int, rest: string)
    requires rest == [] || !IsDigit(rest[0])
    ensures Atoi(FormatLong(v) + rest) == v
  {
    if v < 0 {
      AtoiOfFormatNegative(v, rest);
    } else {
      assert FormatLong(v) + rest == Decimal(v) + rest;
      AtoiOfDecimal(v, rest);
    }
  }

  /** Two numbers with the same `%ld` text are equal. */
  lemma FormatLongInjective(a: int, b: int)
    requires FormatLong(a) == FormatLong(b)
    ensures a == b
  {
    AtoiOfFormatLong(a, []);
    AtoiOfFormatLong(b, []);
    assert FormatLong(a) + [] == FormatLong(a);
    assert FormatLong(b) + [] == FormatLong(b);
  }

  /** Index of the first `c` in `s`, or `|s|` when there is none. */
  function IndexOf(s: string, c: char): (k: nat)
    ensures k <= |s|
    ensures k < |s| ==> s[k] == c
    ensures forall j :: 0 <= j < k ==> s[j] != c
  {
    if s == [] || s[0] == c then 0 else 1 + IndexOf(s[1..], c)
  }

  /**
   * The pieces of a string split on " " into at most `n` pieces; once `n - 1` pieces
   * are cut, the rest of the string, spaces included, is the last piece.
   */
  function Fields(s: string, n: nat): (r: seq<string>)
    requires n >= 1
    ensures 1 <= |r| <= n
    ensures forall i :: 0 <= i < |r| - 1 ==> ' ' !in r[i]
    decreases |s|
  {
    var k := IndexOf(s, ' ');
    if n == 1 || k == |s| then [s]
    else
      assert ' ' !in s[..k] by {
        forall j | 0 <= j < k ensures s[..k][j] != ' ' { }
      }
      [s[..k]] + Fields(s[k + 1..], n - 1)
  }

  /**
   * `g_strsplit(s, " ", n)`: splitting the empty string gives no piece at all,
   * any other string gives at least one.
   */
  function Split(s: string, n: nat): (r: seq<string>)
    requires n >= 1
    ensures |r| <= n
    ensures s == [] <==> r == []
  {
    if s == [] then [] else Fields(s, n)
  }

  /** The pieces put back together with one space between neighbours. */
  function Join(ts: seq<string>): string
  {
    if ts == [] then [] else if |ts| == 1 then ts[0] else ts[0] + " " + Join(ts[1..])
  }

  /** No character is lost or added by splitting: joining the pieces gives the string back. */
  lemma {:induction false} JoinSplit(s: string, n: nat)
    requires n >= 1
    ensures Join(Split(s, n)) == s
  {
    if s != [] {
      JoinFields(s, n);
    }
  }

  lemma {:induction false} JoinFields(s: string, n: nat)
    requires n >= 1
    ensures Join(Fields(s, n)) == s
    decreases |s|
  {
    var k := IndexOf(s, ' ');
    if n > 1 && k < |s| {
      var t := Fields(s[k + 1..], n - 1);
      FieldsCut(s, n);
      JoinCons(s[..k], t);
      JoinFields(s[k + 1..], n - 1);
      CutAtSpace(s, k);
    }
  }

  lemma FieldsCut(s: string, n: nat)
    requires n > 1 && IndexOf(s, ' ') < |s|
    ensures Fields(s, n) == [s[..IndexOf(s, ' ')]] + Fields(s[IndexOf(s, ' ') + 1..], n - 1)
  {
  }

  lemma JoinCons(a: string, t: seq<string>)
    requires t != []
    ensures Join([a] + t) == a + " " + Join(t)
  {
    assert ([a] + t)[1..] == t;
  }

  lemma CutAtSpace(s: string, k: nat)
    requires k < |s| && s[k] == ' '
    ensures s[..k] + " " + s[k + 1..] == s
  {
  }

  /** The other direction: space-free pieces, at most `n` of them, are recovered by splitting their join. */
  lemma {:induction false} FieldsJoin(ts: seq<string>, n: nat)
    requires 1 <= |ts| <= n
    requires forall i :: 0 <= i < |ts| ==> ' ' !in ts[i]
    ensures Fields(Join(ts), n) == ts
  {
    var s := Join(ts);
    if |ts| == 1 {
      SpaceFree(ts[0]);
    } else {
      assert s == ts[0] + " " + Join(ts[1..]);
      SpaceAfter(ts[0], Join(ts[1..]));
      assert s[..|ts[0]|] == ts[0];
      assert s[|ts[0]| + 1..] == Join(ts[1..]);
      FieldsJoin(ts[1..], n - 1);
    }
  }

  lemma SpaceFree(t: string)
    requires ' ' !in t
    ensures IndexOf(t, ' ') == |t|
  {
  }

  lemma SpaceAfter(t: string, u: string)
    requires ' ' !in t
    ensures IndexOf(t + " " + u, ' ') == |t|
  {
    var s := t + " " + u;
    assert s[|t|] == ' ';
    assert forall j :: 0 <= j < |t| ==> s[j] == t[j];
  }
}
