/**
 The search for a number whose cube starts with given bytes: a bisection over unbounded integers
 whose target gets eight bits more precise each time a candidate hits it.
 */
module CubeSearch {
  import opened Bytes

  function Pow2(n: nat): (p: nat)
    ensures p > 0
  {
    if n == 0 then 1 else 2 * Pow2(n - 1)
  }

  lemma {:induction false} Pow2Add(m: nat, n: nat)
    ensures Pow2(m + n) == Pow2(m) * Pow2(n)
  {
    if m != 0 { Pow2Add(m - 1, n); }
  }

  lemma Pow2Monotone(m: nat, n: nat)
    requires m <= n
    ensures Pow2(m) <= Pow2(n)
  {
    Pow2Add(m, n - m);
    assert Pow2(m) * Pow2(n - m) >= Pow2(m) * 1;
  }

  function ShiftLeft(x: nat, n: nat): nat { x * Pow2(n) }

  function Div(x: nat, p: nat): nat
    requires p > 0
  {
    x / p
  }

  function ShiftRight(x: nat, n: nat): nat { Div(x, Pow2(n)) }

  function Cube(x: int): int { x * x * x }

  lemma CubeMonotone(x: int, y: int)
    requires 0 <= x <= y
    ensures Cube(x) <= Cube(y)
  {
    assert x * x <= y * y by {
      assert x * x <= x * y <= y * y;
    }
    assert x * x * x <= y * y * x <= y * y * y;
  }

  // ---------- big-endian byte strings ----------

  function Value(b: seq<Byte>): nat {
    if b == [] then 0 else Value(b[..|b| - 1]) * 256 + b[|b| - 1]
  }

  lemma {:induction false} ValueBound(b: seq<Byte>)
    ensures Value(b) < Pow2(8 * |b|)
  {
    if b != [] {
      ValueBound(b[..|b| - 1]);
      Pow2Add(8, 8 * |b| - 8);
      assert Pow2(8) == 256;
    }
  }

  /** The value a byte string denotes. */
  method B2L(b: seq<Byte>) returns (l: nat)
    ensures l == Value(b)
  {
    l := 0;
    for i := 0 to |b|
      invariant l == Value(b[..i])
    {
      assert b[..i + 1][..i] == b[..i];
      l := l * 256 + b[i];
    }
    assert b[..|b|] == b;
  }

  /** The n low bytes of l; they denote l again when l fits. */
  method L2B(l: nat, n: nat) returns (b: seq<Byte>)
    ensures |b| == n && Value(b) == l % Pow2(8 * n)
  {
    hide Pow2, Value;
    var buf := new Byte[n];
    var rest, i := l, n;
    NoBytes(l);
    assert buf[n..] == [];
    while i > 0
      invariant 0 <= i <= n
      invariant rest == l / Pow2(8 * (n - i))
      invariant Value(buf[i..]) == l % Pow2(8 * (n - i))
    {
      i := i - 1;
      buf[i] := rest % 256;
      ByteInFront(buf[i], buf[i + 1..]);
      assert buf[i..] == [buf[i]] + buf[i + 1..];
      NextByte(l, 8 * (n - i - 1));
      rest := rest / 256;
    }
    b := buf[..];
  }

  lemma NoBytes(l: nat)
    ensures Value([]) == 0 && l / Pow2(0) == l && l % Pow2(0) == 0
  {
  }

  lemma {:induction false} ByteInFront(x: Byte, b: seq<Byte>)
    ensures Value([x] + b) == x * Pow2(8 * |b|) + Value(b)
  {
    if b == [] {
      assert [x] + b == [x] && [x][..0] == [];
      assert Value([x]) == Value([]) * 256 + x;
    } else {
      var n := |b| - 1;
      assert ([x] + b)[..|b|] == [x] + b[..n];
      ByteInFront(x, b[..n]);
      Pow2Add(8, 8 * n);
      assert Pow2(8) == 256;
      assert x * Pow2(8 * n) * 256 == x * Pow2(8 * |b|);
    }
  }

  lemma NextByte(l: nat, k: nat)
    ensures l / Pow2(k + 8) == l / Pow2(k) / 256
    ensures l % Pow2(k + 8) == l / Pow2(k) % 256 * Pow2(k) + l % Pow2(k)
  {
    Pow2Add(k, 8);
    assert Pow2(8) == 256;
    DivDiv(l, Pow2(k));
  }

  lemma DivDiv(l: nat, p: nat)
    requires p > 0
    ensures l / (p * 256) == l / p / 256
    ensures l % (p * 256) == l / p % 256 * p + l % p
  {
    var m, low := l / p, l % p;
    var q, b := m / 256, m % 256;
    assert l == m * p + low;
    Regroup(l, p, m, low, q, b);
    Quotient(l, p * 256, q, b * p + low);
  }

  lemma Regroup(l: nat, p: nat, m: nat, low: nat, q: nat, b: nat)
    requires l == m * p + low && m == q * 256 + b && low < p && b < 256
    ensures l == q * (p * 256) + (b * p + low) && 0 <= b * p + low < p * 256
  {
    Distribute(q, b, p);
    MulMonotone(b, 255, p);
  }

  lemma Distribute(q: nat, b: nat, p: nat)
    ensures (q * 256 + b) * p == q * (p * 256) + b * p
  {
  }

  lemma MulMonotone(a: nat, b: nat, p: nat)
    requires a <= b
    ensures 0 <= a * p <= b * p
  {
  }

  lemma Quotient(l: nat, d: nat, q: nat, r: nat)
    requires d > 0 && l == q * d + r && r < d
    ensures l / d == q && l % d == r
  {
    UniqueQuotient(d, q, r, l / d, l % d);
  }

  lemma UniqueQuotient(d: nat, q: nat, r: nat, q': nat, r': nat)
    requires q * d + r == q' * d + r' && r < d && r' < d
    ensures q == q' && r == r'
  {
    if q < q' { Apart(d, q, q' - q); }
    if q' < q { Apart(d, q', q - q'); }
  }

  lemma Apart(d: nat, q: nat, k: nat)
    requires k > 0
    ensures (q + k) * d >= q * d + d
  {
    assert (q + k) * d == q * d + (k - 1) * d + d;
    assert (k - 1) * d >= 0;
  }

  // ---------- the search ----------

  const PADDING := 0x1_FFFF_FFFF_FFFF_FFFF_00

  datatype Outcome =
    | ZeroLength | TooLong     // the two argument errors
    | NoPerfectCube            // no candidate ever hit the target
    | NegativeShift            // the target became more precise than a bit
    | Root(bytes: seq<Byte>)

  predicate Accepts(a: seq<Byte>, b: int) { a != [] && b >= 8 * |a| + 88 }

  /** Bits to the right of the given bytes. */
  function Shift0(a: seq<Byte>, b: int): nat
    requires Accepts(a, b)
  {
    b - 8 * |a| - 88
  }

  /** The given bytes behind the padding, moved to the top of a b-bit number. */
  function Target(a: seq<Byte>, b: int): nat
    requires Accepts(a, b)
  {
    ShiftLeft(ShiftLeft(PADDING, 8 * |a|) + Value(a), Shift0(a, b))
  }

  ghost predicate CubeIn(from: int, to: int) { exists x: nat :: from <= Cube(x) < to }

  /** x hits the target to k further bytes and no number hits it to k + 1. */
  ghost predicate BestHit(x: nat, target: nat, shift0: nat, k: nat) {
    && 8 * (k + 1) <= shift0
    && target <= Cube(x) < target + Pow2(shift0 - 8 * k)
    && !CubeIn(target, target + Pow2(shift0 - 8 * (k + 1)))
  }

  /** The number v, written in n bytes, starts with the bytes in front. */
  ghost predicate StartsWith(v: nat, n: nat, front: seq<Byte>) {
    exists rest: seq<Byte> :: |front + rest| == n && Value(front + rest) == v
  }

  method Forge(a: seq<Byte>, b: int) returns (r: Outcome)
    ensures r.ZeroLength? <==> a == []
    ensures r.TooLong? <==> a != [] && b < 8 * |a| + 88
    ensures Accepts(a, b)
            ==> (r.NoPerfectCube? <==> !CubeIn(Target(a, b), Target(a, b) + Pow2(Shift0(a, b))))
    ensures Accepts(a, b)
            ==> (r.NegativeShift? <==> CubeIn(Target(a, b), Target(a, b) + Pow2(Shift0(a, b) % 8)))
    ensures r.Root? ==> |r.bytes| == b / 8
                        && exists k :: BestHit(Value(r.bytes), Target(a, b), Shift0(a, b), k)
    ensures r.Root? && b % 8 == 0
            ==> StartsWith(Value(r.bytes) * Value(r.bytes) * Value(r.bytes), b / 8,
                           [0, 1, 255, 255, 255, 255, 255, 255, 255, 255, 0] + a)
  {
    hide Pow2, ShiftLeft, ShiftRight, Value, Cube;
    var na := 8 * |a|;
    if na == 0 { return ZeroLength; }
    var sh := b - na - 88;
    if 0 > sh { return TooLong; }

    // the shifted padding has no bit in common with the bytes, so "or" is addition
    var l := B2L(a);
    var s3: nat := ShiftLeft(PADDING, na) + l;
    var lo := Pow2((b - 16) / 3);
    var hi := lo * 2;
    var fs: nat := 0;  // 0 while there is no hit
    ghost var t, sh0, hi0, hits := Target(a, b), sh, hi, 0;
    InitialBounds(a, b);

    while true
      invariant 0 < lo < hi <= hi0 && Cube(lo) < t
      invariant -8 <= sh && hits >= 0 && sh + 8 * hits == sh0
      invariant sh >= 0 ==> Cube(hi) >= t + Pow2(sh) && ShiftLeft(s3, sh) == t
      invariant fs == 0 <==> hits == 0
      invariant fs != 0 ==> t <= Cube(fs) < t + Pow2(sh + 8) && fs < hi0
      decreases hi - lo, sh + 8
    {
      var s := (lo + hi + 1) / 2;
      if sh < 0 {
        LastShift(sh0, sh + 8, hits - 1);
        NarrowerWindow(t, sh0 % 8, sh0);
        return NegativeShift;
      }
      CubeNonNegative(s);
      var w := ShiftRight(Cube(s), sh);
      Compare(Cube(s), sh, s3);

      if w == s3 {
        fs := s;
        if sh >= 8 { NextTarget(s3, sh); }
        Pow2Monotone(if sh >= 8 then sh - 8 else 0, sh);
        sh, s3, hits := sh - 8, s3 * 256, hits + 1;
        continue;
      }
      if s == lo || s == hi {
        assert hi == lo + 1;
        Between(lo, t, t + Pow2(sh));
        if fs != 0 {
          Fits(fs, b);
          var bytes := L2B(fs, b / 8);
          assert BestHit(Value(bytes), t, sh0, hits - 1);
          ShiftsAgree(sh0, sh, hits);
          NarrowerWindow(t, sh0 % 8, sh);
          NarrowerWindow(t, sh + 8, sh0);
          if b % 8 == 0 { RootStarts(a, b, fs, hits - 1); }
          return Root(bytes);
        } else {
          NarrowerWindow(t, sh0 % 8, sh0);
          return NoPerfectCube;
        }
      }
      if w < s3 { lo := s; } else { hi := s; }
    }
  }

  lemma LastShift(shift0: nat, r: nat, k: nat)
    requires shift0 == r + 8 * k && r < 8
    ensures shift0 % 8 == r
  {
  }

  lemma ShiftsAgree(shift0: nat, sh: nat, k: nat)
    requires shift0 == sh + 8 * k
    ensures shift0 % 8 <= sh
  {
  }

  lemma CubeNonNegative(x: nat)
    ensures Cube(x) >= 0
  {
  }

  lemma {:induction false} Compare(c: nat, n: nat, s3: nat)
    ensures ShiftRight(c, n) == s3 <==> ShiftLeft(s3, n) <= c < ShiftLeft(s3, n) + Pow2(n)
    ensures ShiftRight(c, n) < s3 <==> c < ShiftLeft(s3, n)
  {
    CompareQuotient(c, Pow2(n), s3);
  }

  lemma {:induction false} CompareQuotient(c: nat, p: nat, s3: nat)
    requires p > 0
    ensures c / p == s3 <==> s3 * p <= c < s3 * p + p
    ensures c / p < s3 <==> c < s3 * p
  {
    var q, r := c / p, c % p;
    assert c == q * p + r && 0 <= r < p;
    if q < s3 { Apart(p, q, s3 - q); }
    if q > s3 { Apart(p, s3, q - s3); }
  }

  lemma NextTarget(s3: nat, sh: nat)
    requires sh >= 8
    ensures ShiftLeft(s3 * 256, sh - 8) == ShiftLeft(s3, sh)
  {
    Pow2Add(8, sh - 8);
    assert Pow2(8) == 256;
  }

  lemma NarrowerWindow(t: nat, m: nat, n: nat)
    requires m <= n
    ensures CubeIn(t, t + Pow2(m)) ==> CubeIn(t, t + Pow2(n))
  {
    Pow2Monotone(m, n);
  }

  lemma {:induction false} Between(lo: nat, from: nat, to: nat)
    requires Cube(lo) < from && Cube(lo + 1) >= to
    ensures !CubeIn(from, to)
  {
    forall x: nat ensures !(from <= Cube(x) < to) {
      if x <= lo { CubeMonotone(x, lo); } else { CubeMonotone(lo + 1, x); }
    }
  }

  lemma Fits(x: nat, b: int)
    requires b >= 96 && x < Pow2((b - 16) / 3) * 2
    ensures x % Pow2(8 * (b / 8)) == x
  {
    Pow2Monotone((b - 16) / 3 + 1, 8 * (b / 8));
    Quotient(x, Pow2(8 * (b / 8)), 0, x);
  }

  lemma Pow2Cubed(m: nat)
    ensures Cube(Pow2(m)) == Pow2(3 * m)
  {
    Pow2Add(m, m);
    Pow2Add(m, 2 * m);
  }

  lemma Pow2Of8()
    ensures Pow2(8) == 256
  {
  }

  lemma Pow2Of72()
    ensures Pow2(72) == 0x1_00_0000_0000_0000_0000
  {
    hide Pow2;
    Pow2Of8();
    Pow2Add(8, 8);
    Pow2Add(16, 16);
    Pow2Add(32, 32);
    Pow2Add(64, 8);
  }

  /** The target and its first window lie strictly above lo cubed and not above hi cubed. */
  lemma InitialBounds(a: seq<Byte>, b: int)
    requires Accepts(a, b)
    ensures var t, lo := Target(a, b), Pow2((b - 16) / 3);
            Cube(lo) < t && Cube(2 * lo) >= t + Pow2(Shift0(a, b))
  {
    hide Pow2, Cube, Value;
    var m, na, sh, p := (b - 16) / 3, 8 * |a|, Shift0(a, b), Pow2(b - 88);
    Double(m);
    Double(b - 16);
    Pow2Add(na, sh);
    ValueBound(a);
    TargetRange(PADDING, Pow2(na), Value(a), Pow2(sh));
    Pow2Of72();
    Pow2Add(72, b - 88);
    Pow2Cubed(m);
    Pow2Monotone(3 * m, b - 16);
    assert Pow2(b - 16) == Pow2(72) * p < PADDING * p;
    Pow2Cubed(m + 1);
    Pow2Monotone(b - 15, 3 * m + 3);
    assert Pow2(b - 15) == 2 * Pow2(72) * p >= (PADDING + 1) * p;
  }

  lemma Double(m: nat)
    ensures Pow2(m + 1) == 2 * Pow2(m)
  {
  }

  lemma TargetRange(pad: nat, n: nat, v: nat, w: nat)
    requires v < n
    ensures pad * (n * w) <= (pad * n + v) * w && (pad * n + v) * w + w <= (pad + 1) * (n * w)
  {
    assert (pad * n + v) * w == pad * (n * w) + v * w;
    assert (v + 1) * w <= n * w;
    assert (v + 1) * w == v * w + w;
    assert (pad + 1) * (n * w) == pad * (n * w) + n * w;
  }

  /** For a key length in whole bytes the shift turns negative exactly when the target is a cube. */
  lemma NegativeShiftMeansCube(a: seq<Byte>, b: int)
    requires Accepts(a, b) && b % 8 == 0
    ensures CubeIn(Target(a, b), Target(a, b) + Pow2(Shift0(a, b) % 8))
            <==> exists x: nat :: Cube(x) == Target(a, b)
  {
    var t := Target(a, b);
    assert Shift0(a, b) % 8 == 0 && Pow2(0) == 1;
    if x: nat :| t <= Cube(x) < t + 1 { assert Cube(x) == t; }
    if x: nat :| Cube(x) == t { assert t <= Cube(x) < t + 1; }
  }

  // ---------- when a hit is certain ----------

  lemma {:induction false} LeastCubeRoot(lo: nat, hi: nat, t: nat) returns (x: nat)
    requires Cube(lo) < t <= Cube(hi) && lo < hi
    ensures lo < x <= hi && Cube(x - 1) < t <= Cube(x)
    decreases hi
  {
    if hi == lo + 1 || Cube(hi - 1) < t { x := hi; } else { x := LeastCubeRoot(lo, hi - 1, t); }
  }

  lemma CubeGap(x: nat, n: nat)
    requires 0 < x <= n
    ensures Cube(x) - Cube(x - 1) < 4 * (n * n)
  {
    assert Cube(x) - Cube(x - 1) == 3 * (x * x) - 3 * x + 1;
    assert x * x <= n * n by { assert x * x <= x * n <= n * n; }
  }

  /** With enough free bits to the right of the bytes the search cannot come back empty-handed. */
  lemma EnoughRoom(a: seq<Byte>, b: int)
    requires Accepts(a, b) && Shift0(a, b) >= 2 * ((b - 16) / 3) + 4
    ensures CubeIn(Target(a, b), Target(a, b) + Pow2(Shift0(a, b)))
  {
    var t, m := Target(a, b), (b - 16) / 3;
    var n := Pow2(m + 1);
    InitialBounds(a, b);
    var x := LeastCubeRoot(Pow2(m), n, t);
    CubeGap(x, n);
    Pow2Add(m + 1, m + 1);
    assert 4 * (n * n) == Pow2(2 * m + 4);
    Pow2Monotone(2 * m + 4, Shift0(a, b));
    assert t <= Cube(x) < t + Pow2(Shift0(a, b));
  }

  // ---------- a search that fails ----------

  lemma {:induction false} BytesOf(l: nat, n: nat) returns (e: seq<Byte>)
    requires l < Pow2(8 * n)
    ensures |e| == n && Value(e) == l
  {
    if n == 0 {
      e := [];
    } else {
      Pow2Add(8, 8 * n - 8);
      Pow2Of8();
      e := BytesOf(l / 256, n - 1);
      var rest := e;
      e := rest + [l % 256];
      assert e[..|e| - 1] == rest;
    }
  }

  lemma {:induction false} ValueConcat(a: seq<Byte>, c: seq<Byte>)
    ensures Value(a + c) == Value(a) * Pow2(8 * |c|) + Value(c)
  {
    if c == [] {
      assert a + c == a;
    } else {
      var n := |c| - 1;
      assert (a + c)[..|a + c| - 1] == a + c[..n];
      ValueConcat(a, c[..n]);
      Pow2Add(8, 8 * n);
      Pow2Of8();
      Scaled(Value(a), Pow2(8 * n), Pow2(8 * |c|));
    }
  }

  lemma Scaled(v: nat, p: nat, q: nat)
    requires q == 256 * p
    ensures v * p * 256 == v * q
  {
  }

  /** Appending bytes that fill the number to its end appends them to the target. */
  lemma ExtendedTarget(a: seq<Byte>, b: int, c: seq<Byte>)
    requires Accepts(a, b) && 8 * |c| == Shift0(a, b)
    ensures Accepts(a + c, b) && Shift0(a + c, b) == 0 && Target(a + c, b) == Target(a, b) + Value(c)
  {
    hide Pow2, Value;
    var na, sh := 8 * |a|, Shift0(a, b);
    ValueConcat(a, c);
    Pow2Add(na, sh);
    Pow2OfNone();
    Regrouped(PADDING, Pow2(na), Pow2(sh), Value(a), Value(c));
  }

  lemma Pow2OfNone()
    ensures Pow2(0) == 1
  {
  }

  lemma Regrouped(pad: nat, n: nat, w: nat, v: nat, low: nat)
    ensures pad * (n * w) + (v * w + low) == (pad * n + v) * w + low
  {
    assert pad * (n * w) == pad * n * w;
  }

  /** Bytes that leave enough room can always be extended so that the target is a cube; the search
      for the extended bytes, with a key length in whole bytes, then shifts by a negative amount. */
  lemma SomeExtensionFails(a: seq<Byte>, b: int) returns (c: seq<Byte>)
    requires Accepts(a, b) && b % 8 == 0 && Shift0(a, b) >= 2 * ((b - 16) / 3) + 4
    ensures Accepts(a + c, b) && (exists x: nat :: Cube(x) == Target(a + c, b))
    ensures CubeIn(Target(a + c, b), Target(a + c, b) + Pow2(Shift0(a + c, b) % 8))
  {
    hide Pow2, Value, Cube, Target;
    EnoughRoom(a, b);
    var t := Target(a, b);
    var x: nat :| t <= Cube(x) < t + Pow2(Shift0(a, b));
    var n := Shift0(a, b) / 8;
    assert 8 * n == Shift0(a, b);
    c := BytesOf(Cube(x) - t, n);
    ExtendedTarget(a, b, c);
    assert Cube(x) == Target(a + c, b);
    NegativeShiftMeansCube(a + c, b);
  }

  // ---------- the target as bytes ----------

  const PADDING_BYTES: seq<Byte> := [0, 1, 255, 255, 255, 255, 255, 255, 255, 255, 0]

  lemma Longer(p: seq<Byte>, x: Byte)
    ensures Value(p + [x]) == Value(p) * 256 + x
  {
    assert (p + [x])[..|p|] == p;
  }

  lemma PaddingValue()
    ensures Value(PADDING_BYTES) == PADDING
  {
    hide Value;
    NoBytes(0);
    Longer([], 0);
    Longer([0], 1);
    var p: seq<Byte> := [0, 1];
    assert [] + [0] == [0] && [0] + [1] == p;
    Longer(p, 255);
    Longer(p + [255], 255);
    Longer(p + [255] + [255], 255);
    Longer(p + [255] + [255] + [255], 255);
    var q := p + [255] + [255] + [255] + [255];
    Longer(q, 255);
    Longer(q + [255], 255);
    Longer(q + [255] + [255], 255);
    Longer(q + [255] + [255] + [255], 255);
    Longer(q + [255] + [255] + [255] + [255], 0);
    assert q + [255] + [255] + [255] + [255] + [0] == PADDING_BYTES;
  }

  /** For a key length in whole bytes, the target is the number whose bytes are the padding, the given
      bytes and zeros; other bytes in place of the zeros are added to it. */
  lemma TargetBytes(a: seq<Byte>, b: int, rest: seq<Byte>)
    requires Accepts(a, b) && 8 * |rest| == Shift0(a, b)
    ensures |PADDING_BYTES + a + rest| == b / 8
    ensures Value(PADDING_BYTES + a + rest) == Target(a, b) + Value(rest)
  {
    hide Pow2, Value;
    PaddingValue();
    ValueConcat(PADDING_BYTES, a);
    ValueConcat(PADDING_BYTES + a, rest);
  }

  /** The cube of a number that hits the target starts with the bytes of the target. */
  lemma RootStarts(a: seq<Byte>, b: int, x: nat, k: nat)
    requires Accepts(a, b) && b % 8 == 0 && BestHit(x, Target(a, b), Shift0(a, b), k)
    ensures StartsWith(x * x * x, b / 8, [0, 1, 255, 255, 255, 255, 255, 255, 255, 255, 0] + a)
  {
    hide Pow2, Value, Target;
    var sh := Shift0(a, b);
    Pow2Monotone(sh - 8 * k, sh);
    assert 8 * (sh / 8) == sh;
    var rest := BytesOf(Cube(x) - Target(a, b), sh / 8);
    TargetBytes(a, b, rest);
    assert |PADDING_BYTES + a + rest| == b / 8 && Value(PADDING_BYTES + a + rest) == x * x * x;
  }
}
