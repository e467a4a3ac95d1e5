/**
 The list of name servers of setStaticConfig: separated by commas, with blanks anywhere
 around the addresses.
 */
module NameServers {
  import opened Text
  import opened Fields
  import opened IPv4
  import opened Addresses
  import opened UnitFile
  import opened Netconf

  // ----- trimming the list and trimming its fields -----

  lemma {:induction false} TrimLeftTwice(s: string)
    ensures TrimLeft(TrimLeft(s)) == TrimLeft(s)
  {
    if s != "" && s[0] == ' ' {
      TrimLeftTwice(s[1..]);
    }
  }

  lemma {:induction false} TrimLeftAppend(s: string, c: char)
    ensures TrimLeft(s + [c]) == if TrimLeft(s) == "" then TrimLeft([c]) else TrimLeft(s) + [c]
  {
    if s == "" {
      assert s + [c] == [c];
    } else if s[0] == ' ' {
      TrimLeftAppend(s[1..], c);
      assert (s + [c])[1..] == s[1..] + [c];
    }
  }

  /** It does not matter which side is trimmed first. */
  lemma {:induction false} TrimEitherSideFirst(s: string)
    ensures TrimLeft(TrimRight(s)) == Trim(s)
  {
    if s != "" {
      var init, c := s[..|s| - 1], s[|s| - 1];
      assert s == init + [c];
      TrimLeftAppend(init, c);
      if c == ' ' {
        TrimEitherSideFirst(init);
        assert [c][1..] == "";
        assert (TrimLeft(init) + [c])[..|TrimLeft(init)|] == TrimLeft(init);
      }
    }
  }

  lemma {:induction false} TrimRightTwice(s: string)
    ensures TrimRight(TrimRight(s)) == TrimRight(s)
  {
    if s != "" && s[|s| - 1] == ' ' {
      TrimRightTwice(s[..|s| - 1]);
    }
  }

  /** What is trimmed in advance is trimmed all the same. */
  lemma TrimTrimmed(s: string)
    ensures Trim(TrimLeft(s)) == Trim(s) && Trim(TrimRight(s)) == Trim(s)
  {
    TrimLeftTwice(s);
    TrimEitherSideFirst(TrimRight(s));
    TrimRightTwice(s);
    TrimEitherSideFirst(s);
  }

  lemma {:induction false} TrimRightAfter(x: string, c: char, y: string)
    requires c != ' '
    ensures TrimRight(x + [c] + y) == x + [c] + TrimRight(y)
  {
    var s := x + [c] + y;
    if y != "" && y[|y| - 1] == ' ' {
      TrimRightAfter(x, c, y[..|y| - 1]);
      assert s[..|s| - 1] == x + [c] + y[..|y| - 1];
    }
  }

  /** Trimming a joined list on the right trims its last part. */
  lemma {:induction false} TrimRightJoin(parts: seq<string>)
    requires parts != []
    ensures TrimRight(Join(parts, ',')) == Join(parts[..|parts| - 1] + [TrimRight(parts[|parts| - 1])], ',')
  {
    var trimmed := parts[..|parts| - 1] + [TrimRight(parts[|parts| - 1])];
    if |parts| > 1 {
      TrimRightJoin(parts[1..]);
      TrimRightAfter(parts[0], ',', Join(parts[1..], ','));
      assert trimmed[1..] == parts[1..][..|parts| - 2] + [TrimRight(parts[1..][|parts| - 2])];
    }
  }

  lemma {:induction false} TrimLeftBefore(x: string, c: char, y: string)
    requires c != ' '
    ensures TrimLeft(x + [c] + y) == TrimLeft(x) + [c] + y
  {
    var s := x + [c] + y;
    if x != "" && x[0] == ' ' {
      TrimLeftBefore(x[1..], c, y);
      assert s[1..] == x[1..] + [c] + y;
    }
  }

  /** Trimming a joined list on the left trims its first part. */
  lemma TrimLeftJoin(parts: seq<string>)
    requires parts != []
    ensures TrimLeft(Join(parts, ',')) == Join([TrimLeft(parts[0])] + parts[1..], ',')
  {
    var trimmed := [TrimLeft(parts[0])] + parts[1..];
    if |parts| > 1 {
      TrimLeftBefore(parts[0], ',', Join(parts[1..], ','));
      assert trimmed[1..] == parts[1..];
    }
  }

  lemma {:induction false} TrimRightFree(s: string, c: char)
    requires Free(c, s)
    ensures Free(c, TrimRight(s))
  {
    if s != "" && s[|s| - 1] == ' ' {
      TrimRightFree(s[..|s| - 1], c);
    }
  }

  lemma {:induction false} TrimLeftFree(s: string, c: char)
    requires Free(c, s)
    ensures Free(c, TrimLeft(s))
  {
    if s != "" && s[0] == ' ' {
      TrimLeftFree(s[1..], c);
    }
  }

  function WithoutOuter(parts: seq<string>): seq<string>
    requires parts != []
  {
    var first := [TrimLeft(parts[0])] + parts[1..];
    first[..|first| - 1] + [TrimRight(first[|first| - 1])]
  }

  lemma FieldsAreParts(dns: string)
    ensures NameServerFields(dns) == WithoutOuter(Split(dns, ','))
  {
    var parts := Split(dns, ',');
    var first, last := [TrimLeft(parts[0])] + parts[1..], WithoutOuter(parts);
    JoinSplit(dns, ',');
    TrimLeftJoin(parts);
    TrimRightJoin(first);
    SplitParts(dns, ',');
    forall i | 0 <= i < |last| ensures Free(',', last[i]) {
      TrimLeftFree(parts[0], ',');
      TrimRightFree(first[i], ',');
    }
    SplitJoin(last, ',');
  }

  /** For every argument, trimming the whole list before it is split changes nothing: the
      fields are the parts between the commas, each trimmed. */
  lemma FieldsAreTrimmedParts(dns: string)
    ensures |NameServerFields(dns)| == |Split(dns, ',')|
    ensures forall i :: 0 <= i < |Split(dns, ',')| ==> Trim(NameServerFields(dns)[i]) == Trim(Split(dns, ',')[i])
  {
    var parts, fields := Split(dns, ','), NameServerFields(dns);
    FieldsAreParts(dns);
    forall i | 0 <= i < |parts| ensures Trim(fields[i]) == Trim(parts[i]) {
      var first := [TrimLeft(parts[0])] + parts[1..];
      TrimTrimmed(parts[0]);
      TrimTrimmed(first[i]);
    }
  }

  /** Trimming takes the blanks at both ends and nothing else. */
  lemma TrimExactly(s: string)
    ensures exists a: nat, b: nat :: s == Blanks(a) + Trim(s) + Blanks(b)
    ensures Trim(s) != "" ==> Trim(s)[0] != ' ' && Trim(s)[|Trim(s)| - 1] != ' '
  {
    var a := TakenLeft(s);
    var b := TakenRight(TrimLeft(s));
    assert s == Blanks(a) + Trim(s) + Blanks(b);
  }

  lemma {:induction false} TakenLeft(s: string) returns (a: nat)
    ensures s == Blanks(a) + TrimLeft(s)
    ensures TrimLeft(s) != "" ==> TrimLeft(s)[0] != ' '
  {
    if s != "" && s[0] == ' ' {
      a := TakenLeft(s[1..]);
      a := a + 1;
      assert Blanks(a) == " " + Blanks(a - 1);
    } else {
      a := 0;
      assert Blanks(0) + s == s;
    }
  }

  lemma {:induction false} TakenRight(s: string) returns (b: nat)
    ensures s == TrimRight(s) + Blanks(b)
    ensures TrimRight(s) != "" ==> TrimRight(s)[|TrimRight(s)| - 1] != ' '
  {
    if s != "" && s[|s| - 1] == ' ' {
      b := TakenRight(s[..|s| - 1]);
      b := b + 1;
      assert Blanks(b) == Blanks(b - 1) + " ";
    } else {
      b := 0;
      assert s + Blanks(0) == s;
    }
  }

  // ----- lists of addresses -----

  function Blanks(n: nat): string {
    seq(n, i => ' ')
  }

  lemma {:induction false} TrimBlanksLeft(n: nat, s: string)
    ensures TrimLeft(Blanks(n) + s) == TrimLeft(s)
  {
    if n == 0 {
      assert Blanks(n) + s == s;
    } else {
      TrimBlanksLeft(n - 1, s);
      assert (Blanks(n) + s)[1..] == Blanks(n - 1) + s;
    }
  }

  lemma {:induction false} TrimBlanksRight(s: string, n: nat)
    ensures TrimRight(s + Blanks(n)) == TrimRight(s)
  {
    var t := s + Blanks(n);
    if n == 0 {
      assert t == s;
    } else {
      TrimBlanksRight(s, n - 1);
      assert t[..|t| - 1] == s + Blanks(n - 1);
    }
  }

  lemma TrimPadded(a: nat, t: string, b: nat)
    requires t != "" && t[0] != ' ' && t[|t| - 1] != ' '
    ensures Trim(Blanks(a) + t + Blanks(b)) == t
  {
    TrimBlanksLeft(a, t + Blanks(b));
    assert Blanks(a) + t + Blanks(b) == Blanks(a) + (t + Blanks(b));
    assert (t + Blanks(b))[0] == t[0];
    TrimBlanksRight(t, b);
  }

  /** An address with blanks around it. */
  datatype Padded = Padded(left: nat, ip: IP, right: nat) {
    function Show(v6: V6Codec): string {
      Blanks(left) + AddressText(ip, v6.show) + Blanks(right)
    }
  }

  function ShowAll(list: seq<Padded>, v6: V6Codec): seq<string> {
    seq(|list|, i requires 0 <= i < |list| => list[i].Show(v6))
  }

  function Texts(list: seq<Padded>, v6: V6Codec): seq<string> {
    seq(|list|, i requires 0 <= i < |list| => AddressText(list[i].ip, v6.show))
  }

  /** An IPv4 address in the form of an IPv6 address; package net takes it for the former. */
  predicate Mapped(b: seq<Octet>)
    requires |b| == 16
  {
    (forall i :: 0 <= i < 10 ==> b[i] == 0) && b[10] == 255 && b[11] == 255
  }

  predicate ProperAddress(ip: IP) {
    ip.Valid() && (ip.V6? ==> !Mapped(ip.bytes))
  }

  /** What package net promises for IPv6: what is printed has a colon before any dot, no
      commas and no blanks, and reads back. */
  ghost predicate RoundTrips(v6: V6Codec) {
    forall b: seq<Octet> | |b| == 16 && !Mapped(b) ::
      var t := v6.show(b);
      && t != "" && Free(',', t) && Free(' ', t) && Cut(t, ':') < Cut(t, '.')
      && v6.parse(t) == Some(V6(b))
  }

  /** Every printed address reads back, IPv4 or IPv6. */
  lemma AddressReads(ip: IP, v6: V6Codec)
    requires ProperAddress(ip) && RoundTrips(v6)
    ensures var t := AddressText(ip, v6.show);
      ParseIP(t, v6.parse) == Some(ip) && t != "" && Free(',', t) && Free(' ', t)
  {
    if ip.V4? {
      ParsesAsIPv4(ip.quad, v6.parse);
      QuadTextFree(ip.quad, ',');
      QuadTextFree(ip.quad, ' ');
      assert QuadText(ip.quad)[|Itoa(ip.quad[0])|] == '.';
    } else {
      assert v6.parse(v6.show(ip.bytes)) == Some(V6(ip.bytes));
    }
  }

  lemma PaddedReads(p: Padded, v6: V6Codec)
    requires ProperAddress(p.ip) && RoundTrips(v6)
    ensures Trim(p.Show(v6)) == AddressText(p.ip, v6.show) && Free(',', p.Show(v6))
    ensures ParseIP(Trim(p.Show(v6)), v6.parse) == Some(p.ip)
  {
    var t := AddressText(p.ip, v6.show);
    AddressReads(p.ip, v6);
    assert t[0] in t && t[|t| - 1] in t;
    TrimPadded(p.left, t, p.right);
  }

  /** The name servers of a configuration are the addresses of the argument, in order,
      whatever blanks are around them. */
  lemma NameServersInOrder(list: seq<Padded>, v6: V6Codec)
    requires list != [] && RoundTrips(v6) && forall i :: 0 <= i < |list| ==> ProperAddress(list[i].ip)
    ensures var fields := NameServerFields(Join(ShowAll(list, v6), ','));
      && |fields| == |list|
      && forall i :: 0 <= i < |list| ==> NameServer(fields[i], v6) == Some(Texts(list, v6)[i])
  {
    var shown := ShowAll(list, v6);
    forall i | 0 <= i < |shown|
      ensures Free(',', shown[i]) && ParseIP(Trim(shown[i]), v6.parse) == Some(list[i].ip)
    {
      PaddedReads(list[i], v6);
    }
    SplitJoin(shown, ',');
    FieldsAreTrimmedParts(Join(shown, ','));
  }

  /** An argument is accepted exactly if every part between its commas is an address. */
  lemma AcceptedExactly(dns: string, v6: V6Codec)
    ensures AllNameServers(NameServerFields(dns), v6) <==>
      forall i :: 0 <= i < |Split(dns, ',')| ==> ParseIP(Trim(Split(dns, ',')[i]), v6.parse).Some?
  {
    FieldsAreTrimmedParts(dns);
    var fields, parts := NameServerFields(dns), Split(dns, ',');
    assert forall i :: 0 <= i < |parts| ==>
      (NameServer(fields[i], v6).Some? <==> ParseIP(Trim(parts[i]), v6.parse).Some?);
  }

  /** From the arguments to the file and back: a configuration that is accepted with a
      contiguous mask reads as the address with its prefix length, a gateway in its block,
      and the name servers of the argument in order. */
  lemma WrittenNameServers(d: StaticData, i: Interface, a: Arguments, v6: V6Codec, p: nat, list: seq<Padded>)
    requires Acceptable(i, a, v6) && Describes(d, i, a, v6) && PlainTexts(i, v6)
    requires p <= 32 && MaskValue(a.netmask) == Some(MaskOf(p))
    requires list != [] && RoundTrips(v6) && forall k :: 0 <= k < |list| ==> ProperAddress(list[k].ip)
    requires a.dns == Join(ShowAll(list, v6), ',')
    ensures ReadUnit(Render(d)) ==
      [Assignment("Match", "MACAddress", i.mac.value), Assignment("Network", "Address", d.address),
       Assignment("Network", "Gateway", d.gateway)] + DNSAssignments(Texts(list, v6))
    ensures forall k :: 0 <= k < |list| ==> ParseIP(Texts(list, v6)[k], v6.parse) == Some(list[k].ip)
  {
    WrittenConfiguration(d, i, a, v6, p);
    ServersWritten(d, i, a, v6, list);
    forall k | 0 <= k < |list| ensures ParseIP(Texts(list, v6)[k], v6.parse) == Some(list[k].ip) {
      AddressReads(list[k].ip, v6);
    }
  }

  lemma ServersWritten(d: StaticData, i: Interface, a: Arguments, v6: V6Codec, list: seq<Padded>)
    requires Acceptable(i, a, v6) && Describes(d, i, a, v6)
    requires list != [] && RoundTrips(v6) && forall k :: 0 <= k < |list| ==> ProperAddress(list[k].ip)
    requires a.dns == Join(ShowAll(list, v6), ',')
    ensures d.dns == Texts(list, v6)
  {
    NameServersInOrder(list, v6);
    forall k | 0 <= k < |d.dns| ensures d.dns[k] == Texts(list, v6)[k] {
      assert Some(d.dns[k]) == NameServer(NameServerFields(a.dns)[k], v6);
    }
  }

  lemma ParsesAsIPv4(q: Quad, v6: string -> Option<IP>)
    ensures ParseIP(QuadText(q), v6) == Some(V4(q))
  {
    var s := QuadText(q);
    QuadRoundTrip(q);
    QuadTextFree(q, ':');
    assert s[|Itoa(q[0])|] == '.';
    var colon, dot := Cut(s, ':'), Cut(s, '.');
    assert colon == |s|;
    assert forall j :: 0 <= j < dot ==> s[j] == s[..dot][j];
  }
}
