/** C strings, strtol and the printing of numbers, as the C library of a 32-bit platform has them. */
module CText {

  const LONG_MAX := 0x7FFF_FFFF

  predicate Int32(x: int) { -0x8000_0000 <= x < 0x8000_0000 }

  type Base = b: int | b == 10 || b == 16 witness 10

  /** The character at an index; the terminator at the end. */
  function CharAt(s: string, i: nat): char { if i < |s| then s[i] else '\0' }

  predicate IsSpace(c: char) {
    c == ' ' || c == '\t' || c == '\n' || c == '\r' || c as int == 11 || c as int == 12
  }

  /** The value of a digit, 16 for any other character. */
  function DigitValue(c: char): (v: nat)
    ensures v <= 16
  {
    if '0' <= c <= '9' then c as int - '0' as int
    else if 'a' <= c <= 'f' then c as int - 'a' as int + 10
    else if 'A' <= c <= 'F' then c as int - 'A' as int + 10
    else 16
  }

  predicate IsDigit(c: char, b: Base) { DigitValue(c) < b }

  /** The end of the run of digits that starts at p. */
  function DigitsEnd(s: string, p: nat, b: Base): (e: nat)
    ensures e >= p
    ensures e > p ==> e <= |s|
    decreases |s| - p
  {
    if IsDigit(CharAt(s, p), b) then DigitsEnd(s, p + 1, b) else p
  }

  function SkipSpaces(s: string, p: nat): (e: nat)
    ensures e >= p
    decreases |s| - p
  {
    if IsSpace(CharAt(s, p)) then SkipSpaces(s, p + 1) else p
  }

  function Number(ds: string, b: Base): nat {
    if ds == "" then 0 else Number(ds[..|ds| - 1], b) * b + DigitValue(ds[|ds| - 1])
  }

  function Clamp(x: int): int {
    if x > LONG_MAX then LONG_MAX else if x < -LONG_MAX - 1 then -LONG_MAX - 1 else x
  }

  /** strtol at index p: the value and the index after the number, or p if there is none. */
  function Strtol(s: string, p: nat, b: Base): (r: (int, nat))
    ensures r.1 >= p
    ensures r.1 > p ==> r.1 <= |s|
    ensures Int32(r.0)
  {
    var start := SkipSpaces(s, p);
    var sign := CharAt(s, start);
    var q := if sign == '-' || sign == '+' then start + 1 else start;
    var prefixed := b == 16 && CharAt(s, q) == '0'
                    && (CharAt(s, q + 1) == 'x' || CharAt(s, q + 1) == 'X')
                    && IsDigit(CharAt(s, q + 2), b);
    var d := if prefixed then q + 2 else q;
    var e := DigitsEnd(s, d, b);
    if e == d then (0, p)
    else
      var n: int := Number(s[d..e], b);
      (Clamp(if sign == '-' then -n else n), e)
  }

  // ---------- printing ----------

  function DigitChar(v: nat): (c: char)
    requires v < 16
    ensures DigitValue(c) == v
  {
    if v < 10 then (v + '0' as int) as char else (v - 10 + 'a' as int) as char
  }

  /** %d of a non-negative number, or %x. */
  function PrintNat(n: nat, b: Base): (ds: string)
    ensures |ds| > 0
  {
    if n < b then [DigitChar(n)] else PrintNat(n / b, b) + [DigitChar(n % b)]
  }

  /** %d */
  function PrintInt(n: int): string {
    if n < 0 then "-" + PrintNat(-n, 10) else PrintNat(n, 10)
  }

  /** snprintf into a buffer of n bytes, of which the last holds the terminator. */
  function Truncate(text: string, n: nat): string
    requires n > 0
  {
    if |text| < n then text else text[..n - 1]
  }

  lemma OneMoreDigit(ds: string, c: char, b: Base)
    ensures Number("", b) == 0 && Number(ds + [c], b) == Number(ds, b) * b + DigitValue(c)
  {
    assert (ds + [c])[..|ds|] == ds;
  }

  lemma {:induction false} PrintedDigits(n: nat, b: Base)
    ensures Number(PrintNat(n, b), b) == n
    ensures forall i :: 0 <= i < |PrintNat(n, b)| ==> IsDigit(PrintNat(n, b)[i], b)
  {
    hide Number;
    if n < b {
      OneMoreDigit("", DigitChar(n), b);
      assert "" + [DigitChar(n)] == [DigitChar(n)];
    } else {
      PrintedDigits(n / b, b);
      OneMoreDigit(PrintNat(n / b, b), DigitChar(n % b), b);
    }
  }

  function Power(b: Base, k: nat): nat { if k == 0 then 1 else b * Power(b, k - 1) }

  lemma {:induction false} PrintedLength(n: nat, b: Base, k: nat)
    requires 0 < k && n < Power(b, k)
    ensures |PrintNat(n, b)| <= k
  {
    if n >= b {
      assert Power(b, 1) == b * Power(b, 0) == b;
      assert n / b < Power(b, k - 1);
      PrintedLength(n / b, b, k - 1);
    }
  }

  lemma PrintIntLength(n: int)
    requires Int32(n)
    ensures |PrintInt(n)| <= 11
  {
    assert Power(10, 5) == 100000;
    assert Power(10, 10) == 10000000000 by { assert Power(10, 8) == 1000 * Power(10, 5); }
    PrintedLength(if n < 0 then -n else n, 10, 10);
  }

  lemma {:induction false} DigitsRun(s: string, p: nat, q: nat, b: Base)
    requires p <= q <= |s| && (forall i :: p <= i < q ==> IsDigit(s[i], b))
    requires !IsDigit(CharAt(s, q), b)
    ensures DigitsEnd(s, p, b) == q
    decreases q - p
  {
    if p < q { DigitsRun(s, p + 1, q, b); }
  }

  lemma DigitIsPlain(c: char, b: Base)
    requires IsDigit(c, b)
    ensures !IsSpace(c) && c != '-' && c != '+' && c != 'x' && c != 'X'
  {
  }

  /** strtol reads back a printed natural number up to the next character that is no digit. */
  lemma StrtolPrintedNat(s: string, p: nat, q: nat, n: nat, b: Base)
    requires p <= q <= |s| && s[p..q] == PrintNat(n, b) && Int32(n)
    requires !IsDigit(CharAt(s, q), b)
    requires b == 16 ==> CharAt(s, q) != 'x' && CharAt(s, q) != 'X'
    ensures Strtol(s, p, b) == (n, q)
  {
    hide Number, PrintNat, DigitsEnd;
    PrintedDigits(n, b);
    forall i | p <= i < q ensures IsDigit(s[i], b) { assert s[i] == s[p..q][i - p]; }
    DigitIsPlain(s[p], b);
    if p + 1 < q { DigitIsPlain(s[p + 1], b); }
    DigitsRun(s, p, q, b);
  }

  /** strtol reads back a printed integer. */
  lemma StrtolPrintedInt(s: string, p: nat, q: nat, n: int)
    requires p <= q <= |s| && s[p..q] == PrintInt(n) && Int32(n)
    requires !IsDigit(CharAt(s, q), 10)
    ensures Strtol(s, p, 10) == (n, q)
  {
    if n >= 0 {
      StrtolPrintedNat(s, p, q, n, 10);
    } else {
      assert s[p] == s[p..q][0] == '-';
      assert s[p + 1..q] == PrintNat(-n, 10) by { assert s[p..q][1..] == s[p + 1..q]; }
      PrintedDigits(-n, 10);
      forall i | p + 1 <= i < q ensures IsDigit(s[i], 10) { assert s[i] == s[p + 1..q][i - p - 1]; }
      DigitsRun(s, p + 1, q, 10);
    }
  }

  /** The digits and the blanks. */
  lemma DigitTable()
    ensures forall i :: 0 <= i < 16 ==>
      DigitValue("0123456789abcdef"[i]) == i && DigitValue("0123456789ABCDEF"[i]) == i
    ensures DigitValue('g') == DigitValue('G') == DigitValue(':') == DigitValue('/') == DigitValue('`') == 16
    ensures IsSpace(' ') && IsSpace('\t') && IsSpace('\n') && IsSpace('\r') && !IsSpace('0') && !IsSpace('\0')
  {
  }

  lemma {:induction false} SpacesSkipped(s: string, p: nat, q: nat)
    requires p <= q <= |s| && (forall i :: p <= i < q ==> IsSpace(s[i])) && !IsSpace(CharAt(s, q))
    ensures SkipSpaces(s, p) == q
    decreases q - p
  {
    if p < q { SpacesSkipped(s, p + 1, q); }
  }

  /** strtol skips blanks, takes one sign, and limits the value to 32 bits. */
  lemma StrtolSigned(s: string, p: nat, q: nat, sign: string, e: nat, n: nat, b: Base)
    requires p <= q && q + |sign| <= e <= |s| && (forall i :: p <= i < q ==> IsSpace(s[i]))
    requires (sign == "" || sign == "+" || sign == "-") && s[q..q + |sign|] == sign
    requires s[q + |sign|..e] == PrintNat(n, b)
    requires !IsDigit(CharAt(s, e), b) && (b == 16 ==> CharAt(s, e) != 'x' && CharAt(s, e) != 'X')
    ensures Strtol(s, p, b).1 == e
    ensures var v: int := n;
            Strtol(s, p, b).0
            == if sign == "-" then (if v > 0x8000_0000 then -0x8000_0000 else -v)
               else if v > 0x7FFF_FFFF then 0x7FFF_FFFF else v
  {
    hide PrintNat, Number, DigitsEnd, SkipSpaces, IsDigit;
    var d := q + |sign|;
    PrintedDigits(n, b);
    forall i | d <= i < e ensures IsDigit(s[i], b) { assert s[i] == s[d..e][i - d]; }
    DigitIsPlain(s[d], b);
    if d + 1 < e { DigitIsPlain(s[d + 1], b); }
    if sign != "" { assert s[q] == s[q..q + |sign|][0] == sign[0]; }
    SpacesSkipped(s, p, q);
    DigitsRun(s, d, e, b);
  }

  /** Without a digit there is no number. */
  lemma StrtolNone(s: string, p: nat, b: Base)
    requires p <= |s| && !IsSpace(CharAt(s, p)) && CharAt(s, p) != '+' && CharAt(s, p) != '-'
    requires !IsDigit(CharAt(s, p), b)
    ensures Strtol(s, p, b) == (0, p)
  {
  }

  /** Two hexadecimal digits read as one byte. */
  lemma StrtolPair(a: char, b: char)
    requires IsDigit(a, 16) && IsDigit(b, 16)
    ensures Strtol([a, b], 0, 16) == (16 * DigitValue(a) + DigitValue(b), 2)
  {
    var s := [a, b];
    DigitIsPlain(a, 16);
    DigitIsPlain(b, 16);
    DigitsRun(s, 0, 2, 16);
    assert s[0..2] == s && s[..1] == [a] && [a][..0] == "";
    assert Number([a], 16) == DigitValue(a);
    assert Number(s, 16) == Number([a], 16) * 16 + DigitValue(b);
  }
}
