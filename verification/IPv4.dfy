/**
 IPv4 addresses and masks: four octets, masked bit by bit, as package `net` has them,
 and what that means for the addresses as 32-bit numbers.
 */
module IPv4 {
  type Octet = x: int | 0 <= x < 256

  type Quad = s: seq<Octet> | |s| == 4 witness [0, 0, 0, 0]

  // ----- bits -----

  /** The bitwise and of the w lowest bits. */
  function AndBits(a: nat, b: nat, w: nat): nat {
    if w == 0 then 0
    else 2 * AndBits(a / 2, b / 2, w - 1) + if a % 2 == 1 && b % 2 == 1 then 1 else 0
  }

  function And(a: Octet, b: Octet): nat {
    AndBits(a, b, 8)
  }

  function Pow2(n: nat): (p: nat)
    ensures p >= 1
  {
    if n == 0 then 1 else 2 * Pow2(n - 1)
  }

  function Bit(a: nat, k: nat): nat {
    if k == 0 then a % 2 else Bit(a / 2, k - 1)
  }

  /** AndBits is the bitwise and. */
  lemma {:induction false} AndIsBitwise(a: nat, b: nat, w: nat, k: nat)
    ensures Bit(AndBits(a, b, w), k) == if k < w && Bit(a, k) == 1 && Bit(b, k) == 1 then 1 else 0
  {
    BitRange(a, k);
    BitRange(b, k);
    if w == 0 {
      ZeroBits(k);
    } else {
      var rest := AndBits(a / 2, b / 2, w - 1);
      assert AndBits(a, b, w) / 2 == rest;
      if k > 0 {
        AndIsBitwise(a / 2, b / 2, w - 1, k - 1);
      }
    }
  }

  lemma {:induction false} BitRange(a: nat, k: nat)
    ensures Bit(a, k) == 0 || Bit(a, k) == 1
  {
    if k > 0 {
      BitRange(a / 2, k - 1);
    }
  }

  lemma {:induction false} ZeroBits(k: nat)
    ensures Bit(0, k) == 0
  {
    if k > 0 {
      ZeroBits(k - 1);
    }
  }

  /** w bits of which the first r are ones */
  function Ones(w: nat, r: nat): nat
    requires r <= w
    ensures r == 0 ==> Ones(w, r) == 0
  {
    if w == 0 then 0 else if r == w then 2 * Ones(w - 1, r - 1) + 1 else 2 * Ones(w - 1, r)
  }

  lemma {:induction false} OnesValue(w: nat, r: nat)
    requires r <= w
    ensures Ones(w, r) == Pow2(w) - Pow2(w - r)
  {
    if w > 0 {
      if r == w {
        OnesValue(w - 1, r - 1);
      } else {
        OnesValue(w - 1, r);
      }
    }
  }

  /** Masking clears the bits below the leading ones: two numbers agree under the mask
      exactly if they agree after dividing by the weight of the last one. */
  lemma {:induction false} MaskedAgree(a: nat, b: nat, w: nat, r: nat)
    requires a < Pow2(w) && b < Pow2(w) && r <= w
    ensures AndBits(a, Ones(w, r), w) == AndBits(b, Ones(w, r), w) <==> a / Pow2(w - r) == b / Pow2(w - r)
  {
    if w > 0 {
      var m := if r == w then Ones(w - 1, r - 1) else Ones(w - 1, r);
      assert Ones(w, r) / 2 == m;
      if r == w {
        MaskedAgree(a / 2, b / 2, w - 1, r - 1);
        assert Ones(w, r) % 2 == 1;
        assert AndBits(a, Ones(w, r), w) == 2 * AndBits(a / 2, m, w - 1) + a % 2;
        assert AndBits(b, Ones(w, r), w) == 2 * AndBits(b / 2, m, w - 1) + b % 2;
      } else {
        MaskedAgree(a / 2, b / 2, w - 1, r);
        assert Ones(w, r) % 2 == 0;
        HalveThenDivide(a, Pow2(w - 1 - r));
        HalveThenDivide(b, Pow2(w - 1 - r));
      }
    }
  }

  // ----- division -----

  lemma HalveThenDivide(a: nat, d: nat)
    requires d >= 1
    ensures a / (2 * d) == a / 2 / d
  {
    var h := a / 2;
    var q, r := h / d, h % d;
    assert h == q * d + r;
    assert a == q * (2 * d) + (2 * r + a % 2) by {
      assert q * (2 * d) == 2 * (q * d);
    }
    DivideUnique(a, 2 * d, q, 2 * r + a % 2);
  }

  lemma DivideUnique(x: nat, d: nat, q: nat, r: nat)
    requires d >= 1 && r < d && x == q * d + r
    ensures x / d == q && x % d == r
  {
    var q', r' := x / d, x % d;
    assert x == q' * d + r';
    QuotientUnique(d, q, r, q', r');
  }

  lemma QuotientUnique(d: nat, q: nat, r: nat, q': nat, r': nat)
    requires r < d && r' < d && q * d + r == q' * d + r'
    ensures q == q'
  {
    if q' < q {
      MoreIsMore(d, q', q);
    } else if q < q' {
      MoreIsMore(d, q, q');
    }
  }

  lemma {:induction false} MoreIsMore(d: nat, q: nat, q': nat)
    requires q < q'
    ensures q * d + d <= q' * d
  {
    if q' > q + 1 {
      MoreIsMore(d, q, q' - 1);
    }
    assert q' * d == (q' - 1) * d + d;
  }

  lemma {:induction false} Pow2Add(a: nat, b: nat)
    ensures Pow2(a + b) == Pow2(a) * Pow2(b)
  {
    if a > 0 {
      Pow2Add(a - 1, b);
      assert 2 * (Pow2(a - 1) * Pow2(b)) == 2 * Pow2(a - 1) * Pow2(b);
    }
  }

  /** Dividing by k a number with a part h * base, where base is a multiple of k. */
  lemma DivideLow(h: nat, c: nat, k: nat, base: nat, t: nat)
    requires k >= 1 && base == c * k && t < base
    ensures (h * base + t) / k == h * c + t / k && t / k < c
  {
    var u := t / k;
    assert t == u * k + t % k;
    assert (h * c + u) * k == h * base + u * k by {
      Distribute(h * c, u, k);
      Regroup(h, c, k);
    }
    DivideUnique(h * base + t, k, h * c + u, t % k);
    QuotientBelow(k, c, u, t);
  }

  lemma QuotientBelow(k: nat, c: nat, u: nat, t: nat)
    requires u * k <= t < c * k
    ensures u < c
  {
    if c < u {
      MoreIsMore(k, c, u);
    }
  }

  lemma Distribute(x: nat, y: nat, z: nat)
    ensures (x + y) * z == x * z + y * z
  {
  }

  lemma Regroup(x: nat, y: nat, z: nat)
    ensures x * y * z == x * (y * z)
  {
  }

  /** Dividing h * b + t by b * d drops t and divides h by d. */
  lemma DivideHigh(h: nat, b: nat, d: nat, t: nat)
    requires d >= 1 && t < b
    ensures b * d >= 1 && (h * b + t) / (b * d) == h / d
  {
    var q, r := h / d, h % d;
    assert h == q * d + r;
    assert h * b == q * (b * d) + r * b by {
      Distribute(q * d, r, b);
      Regroup(q, d, b);
    }
    MoreIsMore(b, r, d);
    assert d * b == b * d;
    DivideUnique(h * b + t, b * d, q, r * b + t);
  }

  // ----- octet strings as numbers -----

  function Value(s: seq<Octet>): nat {
    if s == [] then 0 else s[0] * Pow2(8 * (|s| - 1)) + Value(s[1..])
  }

  lemma {:induction false} ValueRange(s: seq<Octet>)
    ensures Value(s) < Pow2(8 * |s|)
  {
    if s != [] {
      ValueRange(s[1..]);
      Pow2Add(8, 8 * (|s| - 1));
      assert Pow2(8) == 256;
      Distribute(s[0], 1, Pow2(8 * (|s| - 1)));
      if s[0] < 255 {
        MoreIsMore(Pow2(8 * (|s| - 1)), s[0] + 1, 256);
      }
    }
  }

  /** n octets of which the first p bits are ones */
  function MaskOctets(n: nat, p: nat): (m: seq<Octet>)
    requires p <= 8 * n
    ensures |m| == n
  {
    if n == 0 then []
    else
      var r := if p < 8 then p else 8;
      OnesValue(8, r);
      assert Pow2(8) == 256;
      [Ones(8, r)] + MaskOctets(n - 1, p - r)
  }

  function MaskOf(p: nat): Quad
    requires p <= 32
  {
    MaskOctets(4, p)
  }

  ghost predicate Agree(a: seq<Octet>, b: seq<Octet>, m: seq<Octet>)
    requires |a| == |b| == |m|
  {
    forall i :: 0 <= i < |m| ==> And(a[i], m[i]) == And(b[i], m[i])
  }

  lemma AgreeFirst(a: seq<Octet>, b: seq<Octet>, m: seq<Octet>)
    requires |a| == |b| == |m| > 0
    ensures Agree(a, b, m) <==> And(a[0], m[0]) == And(b[0], m[0]) && Agree(a[1..], b[1..], m[1..])
  {
    if Agree(a[1..], b[1..], m[1..]) && And(a[0], m[0]) == And(b[0], m[0]) {
      forall i | 0 <= i < |m| ensures And(a[i], m[i]) == And(b[i], m[i]) {
        if i > 0 {
          assert a[i] == a[1..][i - 1] && b[i] == b[1..][i - 1] && m[i] == m[1..][i - 1];
        }
      }
    }
  }

  lemma {:induction false} AndNothing(a: nat, w: nat)
    ensures AndBits(a, 0, w) == 0
  {
    if w > 0 {
      AndNothing(a / 2, w - 1);
    }
  }

  lemma {:induction false} AgreeUnderNothing(a: seq<Octet>, b: seq<Octet>)
    requires |a| == |b|
    ensures Agree(a, b, MaskOctets(|a|, 0))
  {
    if a != [] {
      var m := MaskOctets(|a|, 0);
      AgreeUnderNothing(a[1..], b[1..]);
      assert m[0] == 0 && m[1..] == MaskOctets(|a| - 1, 0);
      AndNothing(a[0], 8);
      AndNothing(b[0], 8);
      AgreeFirst(a, b, m);
    }
  }

  /** The mask leaves the first octet and a part of the rest. */
  lemma LowBlock(h: nat, t: nat, h': nat, t': nat, c: nat, k: nat, base: nat)
    requires k >= 1 && base == c * k && t < base && t' < base
    ensures (h * base + t) / k == (h' * base + t') / k <==> h == h' && t / k == t' / k
  {
    DivideLow(h, c, k, base, t);
    DivideLow(h', c, k, base, t');
    PairsDiffer(c, h, t / k, h', t' / k);
  }

  lemma PairsDiffer(c: nat, h: nat, u: nat, h': nat, u': nat)
    requires u < c && u' < c
    ensures h * c + u == h' * c + u' <==> h == h' && u == u'
  {
    if h * c + u == h' * c + u' {
      QuotientUnique(c, h, u, h', u');
    }
  }

  /** The mask leaves a part of the first octet only. */
  lemma HighBlock(h: nat, t: nat, h': nat, t': nat, d: nat, base: nat)
    requires d >= 1 && t < base && t' < base
    ensures base * d >= 1 && ((h * base + t) / (base * d) == (h' * base + t') / (base * d) <==> h / d == h' / d)
  {
    DivideHigh(h, base, d, t);
    DivideHigh(h', base, d, t');
  }

  lemma FirstOctet(a: Octet, b: Octet, p: nat)
    requires p <= 8
    ensures 0 <= Ones(8, p) < 256
    ensures And(a, Ones(8, p)) == And(b, Ones(8, p)) <==> a / Pow2(8 - p) == b / Pow2(8 - p)
  {
    assert Pow2(8) == 256;
    OnesValue(8, p);
    MaskedAgree(a, b, 8, p);
  }

  lemma ShortMask(a: seq<Octet>, b: seq<Octet>, p: nat)
    requires |a| == |b| > 0 && p < 8
    ensures Agree(a, b, MaskOctets(|a|, p)) <==> a[0] / Pow2(8 - p) == b[0] / Pow2(8 - p)
  {
    var m := MaskOctets(|a|, p);
    assert m[0] == Ones(8, p) && m[1..] == MaskOctets(|a| - 1, 0);
    AgreeFirst(a, b, m);
    AgreeUnderNothing(a[1..], b[1..]);
    FirstOctet(a[0], b[0], p);
  }

  lemma ShortNumbers(a: seq<Octet>, b: seq<Octet>, p: nat)
    requires |a| == |b| > 0 && p < 8
    ensures Value(a) / Pow2(8 * |a| - p) == Value(b) / Pow2(8 * |a| - p) <==> a[0] / Pow2(8 - p) == b[0] / Pow2(8 - p)
  {
    ValueRange(a[1..]);
    ValueRange(b[1..]);
    Pow2Add(8 * (|a| - 1), 8 - p);
    HighBlock(a[0], Value(a[1..]), b[0], Value(b[1..]), Pow2(8 - p), Pow2(8 * (|a| - 1)));
  }

  lemma LongMask(a: seq<Octet>, b: seq<Octet>, p: nat)
    requires |a| == |b| > 0 && 8 <= p <= 8 * |a|
    ensures Agree(a, b, MaskOctets(|a|, p)) <==> a[0] == b[0] && Agree(a[1..], b[1..], MaskOctets(|a| - 1, p - 8))
  {
    var m := MaskOctets(|a|, p);
    assert m[0] == Ones(8, 8) && m[1..] == MaskOctets(|a| - 1, p - 8);
    AgreeFirst(a, b, m);
    FirstOctet(a[0], b[0], 8);
  }

  lemma LongNumbers(a: seq<Octet>, b: seq<Octet>, p: nat)
    requires |a| == |b| > 0 && 8 <= p <= 8 * |a|
    ensures var k := Pow2(8 * |a| - p);
      Value(a) / k == Value(b) / k <==> a[0] == b[0] && Value(a[1..]) / k == Value(b[1..]) / k
  {
    ValueRange(a[1..]);
    ValueRange(b[1..]);
    Pow2Add(p - 8, 8 * |a| - p);
    LowBlock(a[0], Value(a[1..]), b[0], Value(b[1..]), Pow2(p - 8), Pow2(8 * |a| - p), Pow2(8 * (|a| - 1)));
  }

  /** Octet strings agree under a mask of p leading ones exactly if the numbers lie in the
      same block of 2 ^ (bits - p). */
  lemma {:induction false} SameBlock(a: seq<Octet>, b: seq<Octet>, p: nat)
    requires |a| == |b| && p <= 8 * |a|
    ensures Agree(a, b, MaskOctets(|a|, p)) <==>
      Value(a) / Pow2(8 * |a| - p) == Value(b) / Pow2(8 * |a| - p)
  {
    if a != [] {
      if p < 8 {
        ShortMask(a, b, p);
        ShortNumbers(a, b, p);
      } else {
        SameBlock(a[1..], b[1..], p - 8);
        LongMask(a, b, p);
        LongNumbers(a, b, p);
      }
    }
  }
}
