/**
 Addresses and masks as text: what `net.ParseIP`, `IPNet.Contains`, `IPNet.String` and
 parseMap make of them (section 3.1 of RFC 4632 for the prefix notation).
 */
module Addresses {
  import opened Text
  import opened Fields
  import opened IPv4

  /** An address is IPv4 (also when written as an IPv4-mapped IPv6 address) or IPv6. */
  datatype IP = V4(quad: Quad) | V6(bytes: seq<Octet>) {
    predicate Valid() {
      V6? ==> |bytes| == 16
    }
  }

  // ----- masks -----

  /** What parseMap computes: four integers, each cut down to its lowest byte. */
  function MaskValue(s: string): Option<Quad> {
    var o := Split(s, '.');
    if |o| == 4 && forall i :: 0 <= i < 4 ==> Atoi(o[i]).Some? then
      Some(seq(4, i requires 0 <= i < 4 => Atoi(o[i]).value % 256))
    else None
  }

  /** The mask is returned by reference, also when parsing fails half way. */
  method ParseMap(s: string) returns (r: array<int>, ok: bool)
    ensures fresh(r) && r.Length == 4
    ensures forall i :: 0 <= i < 4 ==> 0 <= r[i] < 256
    ensures ok <==> MaskValue(s).Some?
    ensures ok ==> r[..] == MaskValue(s).value
  {
    r := new int[4](i => 0);
    var o := Split(s, '.');
    if |o| != 4 {
      return r, false;
    }
    for i := 0 to |o|
      invariant forall j :: 0 <= j < 4 ==> 0 <= r[j] < 256
      invariant forall j :: 0 <= j < i ==> Atoi(o[j]).Some? && r[j] == Atoi(o[j]).value % 256
    {
      var b := Atoi(o[i]);
      if b.None? {
        return r, false;
      }
      r[i] := b.value % 256;
    }
    ok := true;
  }

  /** The number of leading ones of an octet. */
  function LeadingOnes(v: nat, w: nat): (n: nat)
    ensures n <= w
  {
    if w > 0 && v >= Pow2(w - 1) then 1 + LeadingOnes(v - Pow2(w - 1), w - 1) else 0
  }

  /** simpleMaskLength: the number of leading ones, or -1 if a one follows a zero */
  function SimpleMaskLength(m: seq<Octet>): (n: int)
    ensures -1 <= n <= 8 * |m|
  {
    if m == [] then 0
    else if m[0] == 255 then
      var n := SimpleMaskLength(m[1..]);
      if n == -1 then -1 else 8 + n
    else
      var n := LeadingOnes(m[0], 8);
      if m[0] == Ones(8, n) && forall i :: 1 <= i < |m| ==> m[i] == 0 then n else -1
  }

  lemma {:induction false} LeadingOnesOf(w: nat, r: nat)
    requires r <= w
    ensures LeadingOnes(Ones(w, r), w) == r
  {
    OnesValue(w, r);
    if r > 0 {
      Pow2Grows(w - r, w - 1);
      OnesValue(w - 1, r - 1);
      LeadingOnesOf(w - 1, r - 1);
    }
  }

  lemma {:induction false} Pow2Grows(a: nat, b: nat)
    requires a <= b
    ensures Pow2(a) <= Pow2(b)
  {
    if a < b {
      Pow2Grows(a, b - 1);
    }
  }

  lemma FullOctet(r: nat)
    requires r <= 8
    ensures Ones(8, r) == 255 <==> r == 8
    ensures Ones(8, r) == 0 <==> r == 0
  {
    assert Pow2(8) == 256 && Pow2(7) == 128;
    OnesValue(8, r);
    if r < 8 {
      Pow2Grows(1, 8 - r);
    }
    if r > 0 {
      Pow2Grows(8 - r, 7);
    }
  }

  lemma {:induction false} ZeroMask(n: nat)
    ensures forall i :: 0 <= i < n ==> MaskOctets(n, 0)[i] == 0
  {
    if n > 0 {
      ZeroMask(n - 1);
      assert MaskOctets(n, 0)[1..] == MaskOctets(n - 1, 0);
    }
  }

  /** A mask has a prefix length exactly if it is that many ones followed by zeros. */
  lemma {:induction false} MaskLengthExactly(m: seq<Octet>, p: nat)
    requires p <= 8 * |m|
    ensures SimpleMaskLength(m) == p <==> m == MaskOctets(|m|, p)
  {
    if m != [] {
      var r, t := if p < 8 then p else 8, m[1..];
      var o := MaskOctets(|m|, p);
      assert m == [m[0]] + t && o == [Ones(8, r)] + o[1..] && o[1..] == MaskOctets(|m| - 1, p - r);
      FullOctet(r);
      LeadingOnesOf(8, r);
      if m[0] == 255 {
        if p >= 8 {
          MaskLengthExactly(t, p - 8);
        }
      } else {
        ShortMaskLength(m, p);
      }
    }
  }

  lemma ShortMaskLength(m: seq<Octet>, p: nat)
    requires m != [] && m[0] != 255 && p <= 8 * |m|
    ensures SimpleMaskLength(m) == p <==> m == MaskOctets(|m|, p)
  {
    var r := if p < 8 then p else 8;
    var o := MaskOctets(|m|, p);
    assert o == [Ones(8, r)] + MaskOctets(|m| - 1, p - r);
    FullOctet(r);
    LeadingOnesOf(8, r);
    ZeroMask(|m| - 1);
    if p < 8 {
      assert forall i :: 1 <= i < |m| ==> o[i] == MaskOctets(|m| - 1, 0)[i - 1] == 0;
      if SimpleMaskLength(m) == p {
        assert forall i :: 0 <= i < |m| ==> m[i] == o[i];
      }
    }
  }

  // ----- addresses -----

  predicate OctetText(s: string) {
    s != "" && AllDigits(s) && Decimal(s) <= 255
  }

  /** The dotted form; leading zeros are allowed. */
  function ParseIPv4(s: string): Option<Quad> {
    var o := Split(s, '.');
    if |o| == 4 && forall i :: 0 <= i < 4 ==> OctetText(o[i]) then
      Some(seq(4, i requires 0 <= i < 4 => Decimal(o[i])))
    else None
  }

  /** The first dot or colon tells which form is meant; `v6` reads the other one. */
  function ParseIP(s: string, v6: string -> Option<IP>): Option<IP> {
    var dot, colon := Cut(s, '.'), Cut(s, ':');
    if dot < colon then
      match ParseIPv4(s) case None => None case Some(q) => Some(V4(q))
    else if colon < dot then v6(s)
    else None
  }

  function QuadText(q: Quad): string {
    Join([Itoa(q[0]), Itoa(q[1]), Itoa(q[2]), Itoa(q[3])], '.')
  }

  function AddressText(ip: IP, show6: seq<Octet> -> string): string {
    match ip case V4(q) => QuadText(q) case V6(b) => show6(b)
  }

  function HexDigit(d: nat): char
    requires d < 16
  {
    if d < 10 then (48 + d) as char else (87 + d) as char
  }

  lemma HexDigitExactly(d: nat)
    requires d < 16
    ensures HexDigit(d) == "0123456789abcdef"[d]
  {
  }

  function Hex(m: seq<Octet>): string {
    if m == [] then "" else [HexDigit(m[0] / 16), HexDigit(m[0] % 16)] + Hex(m[1..])
  }

  /** IPNet.String for a mask of four octets: prefix notation if the mask allows it,
      otherwise the mask in hexadecimal; no text at all for an IPv6 address. */
  function NetText(ip: IP, m: Quad): string {
    if ip.V6? then "<nil>"
    else
      var n := SimpleMaskLength(m);
      QuadText(ip.quad) + "/" + if n == -1 then Hex(m) else Itoa(n)
  }

  /** The bytes of an address; a nil address has none. */
  function BytesOf(ip: Option<IP>): seq<Octet> {
    match ip
    case None => []
    case Some(V4(q)) => q
    case Some(V6(b)) => b
  }

  /** IPNet.Contains for a mask of four octets. An IPv6 network with such a mask has the
      network number nil, which "contains" the nil address and no other. */
  predicate NetContains(net: IP, m: Quad, ip: Option<IP>) {
    var nn, x := if net.V4? then net.quad else [], BytesOf(ip);
    |nn| == |x| && forall i :: 0 <= i < |x| ==> And(nn[i], m[i]) == And(x[i], m[i])
  }

  // ----- which texts are read -----

  /** Four integers joined by dots. */
  ghost predicate AreIntegers(o: seq<string>, m: Quad) {
    |o| == 4 && forall i :: 0 <= i < 4 ==> IsByte(o[i], m[i])
  }

  /** An integer whose lowest byte is b. */
  ghost predicate IsByte(s: string, b: Octet) {
    exists v :: IsInteger(s, v) && b == v % 256
  }

  lemma ByteExactly(s: string, b: Octet)
    ensures IsByte(s, b) <==> Atoi(s).Some? && Atoi(s).value % 256 == b
    ensures IsByte(s, b) ==> Free('.', s)
  {
    if Atoi(s).Some? {
      AtoiExactly(s, Atoi(s).value);
    }
    if v :| IsInteger(s, v) && b == v % 256 {
      AtoiExactly(s, v);
      IntegerIsDotFree(s, v);
    }
  }

  lemma IntegerIsDotFree(s: string, v: int)
    requires IsInteger(s, v)
    ensures Free('.', s)
  {
    var sign, d :| s == sign + d && IsSigned(sign, d, v);
    DigitsAreFree(d, '.');
  }

  /** A mask is read exactly from four 64-bit integers joined by dots; every other text is
      refused. */
  lemma MaskValueExactly(s: string, m: Quad)
    ensures MaskValue(s) == Some(m) <==> exists o :: AreIntegers(o, m) && s == Join(o, '.')
  {
    if MaskValue(s) == Some(m) {
      MaskPartsAreIntegers(s, m);
    }
    if p :| AreIntegers(p, m) && s == Join(p, '.') {
      IntegersAreMask(p, m);
    }
  }

  lemma MaskPartsAreIntegers(s: string, m: Quad)
    requires MaskValue(s) == Some(m)
    ensures AreIntegers(Split(s, '.'), m) && s == Join(Split(s, '.'), '.')
  {
    var o := Split(s, '.');
    JoinSplit(s, '.');
    forall i | 0 <= i < 4 ensures IsByte(o[i], m[i]) {
      ByteExactly(o[i], m[i]);
    }
  }

  lemma IntegersAreMask(p: seq<string>, m: Quad)
    requires AreIntegers(p, m)
    ensures MaskValue(Join(p, '.')) == Some(m)
  {
    forall i | 0 <= i < 4 ensures Free('.', p[i]) && Atoi(p[i]).Some? && Atoi(p[i]).value % 256 == m[i] {
      ByteExactly(p[i], m[i]);
    }
    SplitJoin(p, '.');
    QuadEqual(MaskValue(Join(p, '.')).value, m);
  }

  lemma QuadEqual(a: Quad, b: Quad)
    requires forall i :: 0 <= i < 4 ==> a[i] == b[i]
    ensures a == b
  {
  }

  /** Four numbers of digits, each at most 255. */
  ghost predicate AreOctets(o: seq<string>, q: Quad) {
    |o| == 4 && forall i :: 0 <= i < 4 ==> o[i] != "" && AllDigits(o[i]) && Decimal(o[i]) == q[i]
  }

  /** An IPv4 address is read exactly from four numbers of digits, each at most 255, joined
      by dots; every other text is refused. */
  lemma ParseIPv4Exactly(s: string, q: Quad)
    ensures ParseIPv4(s) == Some(q) <==> exists o :: AreOctets(o, q) && s == Join(o, '.')
  {
    var o := Split(s, '.');
    if ParseIPv4(s) == Some(q) {
      JoinSplit(s, '.');
      assert AreOctets(o, q);
    }
    if p :| AreOctets(p, q) && s == Join(p, '.') {
      forall i | 0 <= i < 4 ensures Free('.', p[i]) {
        DigitsAreFree(p[i], '.');
      }
      SplitJoin(p, '.');
      QuadEqual(ParseIPv4(s).value, q);
    }
  }

  /** Which form is meant: a text without colons can only be an IPv4 address, one without dots
      only an IPv6 address, and one without both is no address. */
  lemma ParseIPExactly(s: string, v6: string -> Option<IP>)
    ensures Free(':', s) && '.' in s ==>
      ParseIP(s, v6) == (if ParseIPv4(s).Some? then Some(V4(ParseIPv4(s).value)) else None)
    ensures Free('.', s) && ':' in s ==> ParseIP(s, v6) == v6(s)
    ensures Free('.', s) && Free(':', s) ==> ParseIP(s, v6).None?
  {
    var dot, colon := Cut(s, '.'), Cut(s, ':');
    assert s[..|s|] == s;
    assert Free('.', s) ==> dot == |s|;
    assert Free(':', s) ==> colon == |s|;
  }

  // ----- theorems -----

  lemma QuadParts(q: Quad)
    ensures Split(QuadText(q), '.') == [Itoa(q[0]), Itoa(q[1]), Itoa(q[2]), Itoa(q[3])]
  {
    var o := [Itoa(q[0]), Itoa(q[1]), Itoa(q[2]), Itoa(q[3])];
    forall i | 0 <= i < |o| ensures Free('.', o[i]) {
      DigitsAreFree(o[i], '.');
    }
    SplitJoin(o, '.');
  }

  /** Every address that is printed reads back. */
  lemma QuadRoundTrip(q: Quad)
    ensures ParseIPv4(QuadText(q)) == Some(q)
  {
    var o := Split(QuadText(q), '.');
    QuadParts(q);
    forall i | 0 <= i < 4 ensures OctetText(o[i]) && Decimal(o[i]) == q[i] {
      assert o[i] == Itoa(q[i]);
      DecimalItoa(q[i]);
    }
    var r := ParseIPv4(QuadText(q)).value;
    assert r == q;
  }

  function FourNumbers(n: seq<int>): string
    requires |n| == 4
  {
    Join([Signed(n[0]), Signed(n[1]), Signed(n[2]), Signed(n[3])], '.')
  }

  lemma SignedFree(n: int)
    ensures Free('.', Signed(n))
  {
    DigitsAreFree(Itoa(if n < 0 then -n else n), '.');
  }

  /** Whatever four integers are written, parseMap keeps their lowest bytes. */
  lemma MaskOctetsCut(n: seq<int>)
    requires |n| == 4 && forall i :: 0 <= i < 4 ==> -TWO63 <= n[i] < TWO63
    ensures MaskValue(FourNumbers(n)).Some?
    ensures forall i :: 0 <= i < 4 ==> MaskValue(FourNumbers(n)).value[i] == n[i] % 256
  {
    var o := [Signed(n[0]), Signed(n[1]), Signed(n[2]), Signed(n[3])];
    forall i | 0 <= i < 4 ensures Free('.', o[i]) && Atoi(o[i]) == Some(n[i]) {
      assert o[i] == Signed(n[i]);
      SignedFree(n[i]);
      AtoiSigned(n[i]);
    }
    SplitJoin(o, '.');
  }

  /** So every mask reads back from its dotted form. */
  lemma MaskRoundTrip(m: Quad)
    ensures MaskValue(QuadText(m)) == Some(m)
  {
    assert FourNumbers(m) == QuadText(m);
    MaskOctetsCut(m);
    SameQuad(MaskValue(QuadText(m)).value, m);
  }

  lemma SameQuad(a: Quad, m: Quad)
    requires forall i :: 0 <= i < 4 ==> a[i] == m[i] % 256
    ensures a == m
  {
    forall i | 0 <= i < 4 ensures a[i] == m[i] {
      assert a[i] == m[i] % 256;
    }
  }

  /** Reads address and prefix length. */
  function ParseCIDR(s: string): Option<(Quad, nat)> {
    var o := Split(s, '/');
    if |o| == 2 && ParseIPv4(o[0]).Some? && o[1] != "" && AllDigits(o[1]) && Decimal(o[1]) <= 32 then
      Some((ParseIPv4(o[0]).value, Decimal(o[1])))
    else None
  }

  lemma QuadTextFree(q: Quad, c: char)
    requires c != '.' && !IsDigit(c)
    ensures Free(c, QuadText(q))
  {
    forall i | 0 <= i < 4 ensures Free(c, Itoa(q[i])) {
      DigitsAreFree(Itoa(q[i]), c);
    }
    JoinFree([Itoa(q[0]), Itoa(q[1]), Itoa(q[2]), Itoa(q[3])], '.', c);
  }

  lemma {:induction false} JoinFree(parts: seq<string>, d: char, c: char)
    requires parts != [] && c != d && forall i :: 0 <= i < |parts| ==> Free(c, parts[i])
    ensures Free(c, Join(parts, d))
  {
    if |parts| > 1 {
      JoinFree(parts[1..], d, c);
    }
  }

  lemma SplitTwo(a: string, b: string, c: char)
    requires Free(c, a) && Free(c, b)
    ensures Split(a + [c] + b, c) == [a, b]
  {
    assert Join([a, b], c) == a + [c] + b;
    SplitJoin([a, b], c);
  }

  lemma ReadsAs(a: Quad, t: string, p: nat)
    requires t != "" && AllDigits(t) && Decimal(t) == p <= 32
    ensures ParseCIDR(QuadText(a) + "/" + t) == Some((a, p))
  {
    QuadTextFree(a, '/');
    DigitsAreFree(t, '/');
    SplitTwo(QuadText(a), t, '/');
    QuadRoundTrip(a);
  }

  /** The Address line: from the dotted mask of p ones to the prefix length and back. */
  lemma CidrRoundTrip(a: Quad, p: nat)
    requires p <= 32
    ensures MaskValue(QuadText(MaskOf(p))) == Some(MaskOf(p))
    ensures SimpleMaskLength(MaskOf(p)) == p
    ensures ParseCIDR(NetText(V4(a), MaskOf(p))) == Some((a, p))
  {
    MaskRoundTrip(MaskOf(p));
    MaskLengthExactly(MaskOf(p), p);
    DecimalItoa(p);
    ReadsAs(a, Itoa(p), p);
  }

  /** The gateway test of setStaticConfig: both addresses are IPv4 and agree on every bit
      of the mask; only an IPv6 network lets a nil gateway through. */
  lemma ContainsMeaning(net: IP, m: Quad, ip: Option<IP>)
    requires net.Valid() && (ip.Some? ==> ip.value.Valid())
    ensures NetContains(net, m, ip) <==>
      || (net.V4? && ip.Some? && ip.value.V4? && Agree(net.quad, ip.value.quad, m))
      || (net.V6? && ip.None?)
  {
  }

  /** For a mask of p ones, the gateway test is arithmetic: both addresses lie in the same
      block of 2 ^ (32 - p) numbers. */
  lemma ContainsIsBlock(a: Quad, p: nat, g: Quad)
    requires p <= 32
    ensures NetContains(V4(a), MaskOf(p), Some(V4(g))) <==>
      Value(a) / Pow2(32 - p) == Value(g) / Pow2(32 - p)
  {
    SameBlock(a, g, p);
    ContainsMeaning(V4(a), MaskOf(p), Some(V4(g)));
  }

  // ----- what a mask without prefix length is read as -----

  lemma {:induction false} HexAppend(m: seq<Octet>, x: Octet)
    ensures Hex(m + [x]) == Hex(m) + [HexDigit(x / 16), HexDigit(x % 16)]
  {
    if m == [] {
      assert m + [x] == [x] && [x][1..] == [];
    } else {
      HexAppend(m[1..], x);
      assert (m + [x])[1..] == m[1..] + [x];
    }
  }

  lemma DecimalTwo(s: string, a: char, b: char)
    requires AllDigits(s) && IsDigit(a) && IsDigit(b)
    ensures AllDigits(s + [a, b])
    ensures Decimal(s + [a, b]) == 100 * Decimal(s) + 10 * (a as int - 48) + (b as int - 48)
  {
    var t := s + [a, b];
    assert t[..|t| - 1] == s + [a];
    assert (s + [a])[..|s|] == s;
  }

  /** The octet prints as two decimal digits. */
  predicate LooksDecimal(x: Octet) {
    x / 16 <= 9 && x % 16 <= 9
  }

  function DecimalLook(x: Octet): int {
    10 * (x / 16) + x % 16
  }

  lemma {:induction false} HexDigits(m: seq<Octet>)
    ensures AllDigits(Hex(m)) <==> forall i :: 0 <= i < |m| ==> LooksDecimal(m[i])
  {
    if m != [] {
      HexDigits(m[1..]);
      var s, t := Hex(m), Hex(m[1..]);
      assert s == [HexDigit(m[0] / 16), HexDigit(m[0] % 16)] + t;
      assert AllDigits(s) <==> IsDigit(s[0]) && IsDigit(s[1]) && AllDigits(t) by {
        assert forall i :: 0 <= i < |t| ==> s[i + 2] == t[i];
      }
      assert forall i :: 1 <= i < |m| ==> m[i] == m[1..][i - 1];
    }
  }

  /** The digits of octets are worth nothing exactly if all octets are 0. */
  lemma {:induction false} HexIsZero(m: seq<Octet>)
    requires AllDigits(Hex(m))
    ensures Decimal(Hex(m)) == 0 <==> forall i :: 0 <= i < |m| ==> m[i] == 0
  {
    if m != [] {
      var init, x := m[..|m| - 1], m[|m| - 1];
      assert m == init + [x];
      HexValue(init, x);
      HexIsZero(init);
    }
  }

  lemma HexValue(m: seq<Octet>, x: Octet)
    requires AllDigits(Hex(m + [x]))
    ensures AllDigits(Hex(m)) && LooksDecimal(x)
    ensures Decimal(Hex(m + [x])) == 100 * Decimal(Hex(m)) + DecimalLook(x)
  {
    HexDigits(m + [x]);
    HexDigits(m);
    assert forall i :: 0 <= i < |m| ==> (m + [x])[i] == m[i];
    assert (m + [x])[|m|] == x;
    HexAppend(m, x);
    DecimalTwo(Hex(m), HexDigit(x / 16), HexDigit(x % 16));
  }

  /** Read as a decimal number, the eight hexadecimal digits of a mask are at most 32
      exactly if the first three octets are 0 and the last one looks like such a number. */
  predicate LooksLikeLength(m: Quad) {
    m[0] == 0 && m[1] == 0 && m[2] == 0 && LooksDecimal(m[3]) && DecimalLook(m[3]) <= 32
  }

  lemma HexAsLength(m: Quad)
    ensures AllDigits(Hex(m)) && Decimal(Hex(m)) <= 32 <==> LooksLikeLength(m)
    ensures LooksLikeLength(m) ==> Decimal(Hex(m)) == DecimalLook(m[3])
  {
    HexDigits(m);
    var init, x := m[..3], m[3];
    assert m == init + [x];
    if AllDigits(Hex(m)) {
      HexValue(init, x);
      HexIsZero(init);
      assert init[0] == m[0] && init[1] == m[1] && init[2] == m[2];
    }
  }

  lemma HexFree(m: seq<Octet>, c: char)
    requires c < '0'
    ensures Free(c, Hex(m))
  {
    if m != [] {
      HexFree(m[1..], c);
    }
  }

  /** A mask that is not contiguous is printed in hexadecimal. A reader of prefix lengths
      takes it for one exactly if its digits look like one, and this is the wrong mask. */
  lemma HexMaskRead(a: Quad, m: Quad)
    requires SimpleMaskLength(m) == -1
    ensures ParseCIDR(NetText(V4(a), m)) == if LooksLikeLength(m) then Some((a, DecimalLook(m[3]))) else None
  {
    QuadTextFree(a, '/');
    HexFree(m, '/');
    SplitTwo(QuadText(a), Hex(m), '/');
    assert QuadText(a) + ['/'] + Hex(m) == QuadText(a) + "/" + Hex(m);
    QuadRoundTrip(a);
    HexAsLength(m);
    assert |Hex(m)| > 0;
  }

  /** The address and mask that the text stands for. */
  predicate ReadsAsMask(a: Quad, m: Quad) {
    var c := ParseCIDR(NetText(V4(a), m));
    c.Some? && c.value.0 == a && c.value.1 <= 32 && MaskOf(c.value.1) == m
  }

  /** The Address line means address and mask of the arguments exactly if the mask is
      contiguous. */
  lemma AddressLineExactly(a: Quad, m: Quad)
    ensures ReadsAsMask(a, m) <==> SimpleMaskLength(m) != -1
  {
    if SimpleMaskLength(m) == -1 {
      HexMaskRead(a, m);
      if ReadsAsMask(a, m) {
        MaskLengthExactly(m, DecimalLook(m[3]));
        assert false;
      }
    } else {
      MaskLengthExactly(m, SimpleMaskLength(m));
      CidrRoundTrip(a, SimpleMaskLength(m));
    }
  }

  /** For instance 0.0.0.1, which reads as a single leading one. */
  lemma HexMaskMisread(a: Quad)
    ensures ParseCIDR(NetText(V4(a), [0, 0, 0, 1])) == Some((a, 1))
  {
    var m: Quad := [0, 0, 0, 1];
    assert m[3] != 0 && m[0] == 0;
    HexMaskRead(a, m);
  }
}
