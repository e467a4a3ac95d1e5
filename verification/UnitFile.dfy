/**
 The `.network` file that setStaticConfig writes, and how such a file is read:
 line by line, section headers in brackets, `key=value` assignments.
 */
module UnitFile {
  import opened Text
  import opened Fields

  datatype StaticData = StaticData(mac: string, address: string, gateway: string, dns: seq<string>)

  function Line(s: string): string {
    s + "\n"
  }

  /** unitTemplate, executed on the data */
  function Render(d: StaticData): string {
    Line("[Match]") + (Line("MACAddress=" + d.mac) + (Line("") + (Line("[Network]") +
    (Line("Address=" + d.address) + (Line("Gateway=" + d.gateway) + RenderDNS(d.dns))))))
  }

  function RenderDNS(dns: seq<string>): string {
    if dns == [] then "" else Line("DNS=" + dns[0]) + RenderDNS(dns[1..])
  }

  // ----- reading -----

  datatype Assignment = Assignment(section: string, key: string, value: string)

  predicate IsHeader(line: string) {
    |line| >= 2 && line[0] == '[' && line[|line| - 1] == ']'
  }

  /** All assignments of a file, in order; lines of any other form are skipped. */
  function Assignments(lines: seq<string>, section: string): seq<Assignment> {
    if lines == [] then []
    else if IsHeader(lines[0]) then Assignments(lines[1..], lines[0][1..|lines[0]| - 1])
    else
      var i, rest := Cut(lines[0], '='), Assignments(lines[1..], section);
      if i < |lines[0]| then [Assignment(section, lines[0][..i], lines[0][i + 1..])] + rest else rest
  }

  function ReadUnit(text: string): seq<Assignment> {
    Assignments(Split(text, '\n'), "")
  }

  // ----- round trip -----

  ghost predicate OneLine(s: string) {
    Free('\n', s)
  }

  ghost predicate OneLineEach(d: StaticData) {
    OneLine(d.mac) && OneLine(d.address) && OneLine(d.gateway) && forall i :: 0 <= i < |d.dns| ==> OneLine(d.dns[i])
  }

  function DNSLines(dns: seq<string>): seq<string> {
    if dns == [] then [""] else ["DNS=" + dns[0]] + DNSLines(dns[1..])
  }

  function DNSAssignments(dns: seq<string>): seq<Assignment> {
    seq(|dns|, i requires 0 <= i < |dns| => Assignment("Network", "DNS", dns[i]))
  }

  lemma {:induction false} DNSIsJoined(dns: seq<string>)
    requires forall i :: 0 <= i < |dns| ==> OneLine(dns[i])
    ensures DNSLines(dns) != [] && RenderDNS(dns) == Join(DNSLines(dns), '\n')
    ensures forall i :: 0 <= i < |DNSLines(dns)| ==> OneLine(DNSLines(dns)[i])
  {
    if dns != [] {
      DNSIsJoined(dns[1..]);
      assert DNSLines(dns)[1..] == DNSLines(dns[1..]);
    }
  }

  lemma ReadAssignment(start: string, key: string, value: string, rest: seq<string>, section: string)
    requires start == key + "=" && Free('=', key) && key != "" && key[0] != '['
    ensures Assignments([start + value] + rest, section)
         == [Assignment(section, key, value)] + Assignments(rest, section)
  {
    var line := start + value;
    var lines := [line] + rest;
    assert line == key + "=" + value;
    CutAt(key, '=', value);
    assert line[0] == key[0];
    assert lines[0] == line && lines[1..] == rest;
    assert line[..|key|] == key && line[|key| + 1..] == value;
  }

  lemma ReadHeader(line: string, name: string, rest: seq<string>, section: string)
    requires line == "[" + name + "]"
    ensures Assignments([line] + rest, section) == Assignments(rest, name)
  {
    var lines := [line] + rest;
    assert lines[0] == line && lines[1..] == rest;
    assert line[1..|line| - 1] == name;
  }

  lemma {:induction false} ReadDNS(dns: seq<string>)
    ensures Assignments(DNSLines(dns), "Network") == DNSAssignments(dns)
  {
    if dns == [] {
      assert Assignments([""], "Network") == [];
    } else {
      ReadDNS(dns[1..]);
      ReadAssignment("DNS=", "DNS", dns[0], DNSLines(dns[1..]), "Network");
      assert DNSAssignments(dns) == [Assignment("Network", "DNS", dns[0])] + DNSAssignments(dns[1..]);
    }
  }

  function NetworkLines(d: StaticData): seq<string> {
    ["Address=" + d.address] + (["Gateway=" + d.gateway] + DNSLines(d.dns))
  }

  function Lines(d: StaticData): seq<string> {
    ["[Match]"] + (["MACAddress=" + d.mac] + ([""] + (["[Network]"] + NetworkLines(d))))
  }

  lemma RenderIsJoined(d: StaticData)
    requires OneLineEach(d)
    ensures Render(d) == Join(Lines(d), '\n')
  {
    DNSIsJoined(d.dns);
    var l5 := ["Gateway=" + d.gateway] + DNSLines(d.dns);
    var l4 := ["Address=" + d.address] + l5;
    var l3 := ["[Network]"] + l4;
    var l2 := [""] + l3;
    JoinFirst("Gateway=" + d.gateway, DNSLines(d.dns), '\n');
    JoinFirst("Address=" + d.address, l5, '\n');
    JoinFirst("[Network]", l4, '\n');
    JoinFirst("", l3, '\n');
    JoinFirst("MACAddress=" + d.mac, l2, '\n');
    JoinFirst("[Match]", ["MACAddress=" + d.mac] + l2, '\n');
  }

  lemma LinesAreLines(d: StaticData)
    requires OneLineEach(d)
    ensures forall i :: 0 <= i < |Lines(d)| ==> OneLine(Lines(d)[i])
  {
    DNSIsJoined(d.dns);
  }

  /** Reading the file gives back the hardware address, the address, the gateway and the
      name servers in order, each in its section, and nothing else. */
  lemma UnitRoundTrip(d: StaticData)
    requires OneLineEach(d)
    ensures ReadUnit(Render(d)) ==
      [Assignment("Match", "MACAddress", d.mac), Assignment("Network", "Address", d.address),
       Assignment("Network", "Gateway", d.gateway)] + DNSAssignments(d.dns)
  {
    RenderIsJoined(d);
    LinesAreLines(d);
    SplitJoin(Lines(d), '\n');
    ReadLines(d);
    ReadNetwork(d);
  }

  lemma ReadNetwork(d: StaticData)
    ensures Assignments(NetworkLines(d), "Network") ==
      [Assignment("Network", "Address", d.address)] +
      ([Assignment("Network", "Gateway", d.gateway)] + DNSAssignments(d.dns))
  {
    ReadDNS(d.dns);
    ReadAssignment("Gateway=", "Gateway", d.gateway, DNSLines(d.dns), "Network");
    ReadAssignment("Address=", "Address", d.address, ["Gateway=" + d.gateway] + DNSLines(d.dns), "Network");
  }

  lemma ReadLines(d: StaticData)
    ensures Assignments(Lines(d), "") ==
      [Assignment("Match", "MACAddress", d.mac)] + Assignments(NetworkLines(d), "Network")
  {
    var l3 := ["[Network]"] + NetworkLines(d);
    var l2 := [""] + l3;
    ReadHeader("[Network]", "Network", NetworkLines(d), "Match");
    SkipEmpty(l3, "Match");
    ReadAssignment("MACAddress=", "MACAddress", d.mac, l2, "Match");
    ReadHeader("[Match]", "Match", ["MACAddress=" + d.mac] + l2, "");
  }

  lemma SkipEmpty(rest: seq<string>, section: string)
    ensures Assignments([""] + rest, section) == Assignments(rest, section)
  {
    assert ([""] + rest)[0] == "" && ([""] + rest)[1..] == rest;
  }
}
