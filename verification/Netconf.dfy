/**
 setStaticConfig, enableDHCP and resetToDHCP over a store of network files: everything
 is validated before anything is touched, and only custom files are ever touched.
 */
module Netconf {
  import opened Text
  import opened Fields
  import opened IPv4
  import opened Addresses
  import opened UnitFile
  import opened Paths

  const DEFAULT_FILE := "/usr/lib64/systemd/network/zz-default.network"
  const CUSTOM_DIR := "/etc/systemd/network/"

  datatype Failure =
    | NoInterface | NoHardwareAddress | BadMask | BadAddress | OutsideNetwork | BadGateway | BadNameServer
    | UnknownFile | RemoveFailed | WriteFailed | RestartFailed | NoList

  /** What networkd and netlink report about an interface, or that the lookup failed. */
  datatype Interface = Interface(networkFile: Option<string>, mac: Option<string>)

  /** The reader and the printer for IPv6, which package net provides. */
  datatype V6Codec = V6Codec(parse: string -> Option<IP>, show: seq<Octet> -> string)

  datatype Arguments = Arguments(iface: string, address: string, netmask: string, gateway: string, dns: string)

  /** The file that is written. The join cleans the path. */
  function Target(iface: string): string {
    PathJoin(CUSTOM_DIR, iface + ".network")
  }

  lemma CustomDirForm()
    ensures var c := ["etc", "systemd", "network"];
      CUSTOM_DIR == Rooted(c) + "/" && forall p :: p in c ==> Plain(p)
  {
    CustomDirJoined();
    assert Plain("etc") && Plain("systemd") && Plain("network");
  }

  lemma CustomDirJoined()
    ensures CUSTOM_DIR == Rooted(["etc", "systemd", "network"]) + "/"
  {
    JoinThree("etc", "systemd", "network");
  }

  lemma JoinThree(a: string, b: string, c: string)
    ensures Rooted([a, b, c]) + "/" == "/" + a + "/" + b + "/" + c + "/"
  {
    assert [a, b, c] == [a] + [b, c] && [b, c] == [b] + [c];
    JoinFirst(a, [b, c], '/');
    JoinFirst(b, [c], '/');
  }

  lemma NetworkFileIsPlain(iface: string)
    requires Free('/', iface)
    ensures Plain(iface + ".network")
  {
    assert |".network"| == 8;
  }

  /** For an interface name without slashes it is the file of that name in the directory. */
  lemma TargetOfName(iface: string)
    requires Free('/', iface)
    ensures Target(iface) == "/etc/systemd/network/" + (iface + ".network")
  {
    CustomDirForm();
    NetworkFileIsPlain(iface);
    PlainJoin(["etc", "systemd", "network"], iface + ".network");
  }

  predicate IsCustom(path: string) {
    path != DEFAULT_FILE && Contains(path, CUSTOM_DIR)
  }

  // ----- the network files -----

  /** The files that may look absent, those whose removal may be refused, and whether writing
      is known to work. */
  datatype FileEnv = FileEnv(hidden: set<string>, unremovable: set<string>, writeWorks: bool)

  class NetworkFiles {
    const env: FileEnv
    var files: map<string, string>

    constructor (env: FileEnv, files: map<string, string>)
      ensures this.env == env && this.files == files
    {
      this.env, this.files := env, files;
    }

    method Stat(path: string) returns (ok: bool)
      ensures ok ==> path in files
      ensures path !in env.hidden ==> (ok <==> path in files)
    {
      ok := path in files;
      if path in env.hidden {
        if * { ok := false; }
      }
    }

    method Remove(path: string) returns (ok: bool)
      modifies this
      ensures files == if ok then old(files) - {path} else old(files)
      ensures ok ==> path in old(files)
      ensures path !in env.unremovable && path in old(files) ==> ok
    {
      if path !in files { return false; }
      if path in env.unremovable {
        if * { return false; }
      }
      files := files - {path};
      ok := true;
    }

    /** A failed write may leave the file truncated. */
    method WriteFile(path: string, data: string) returns (ok: bool)
      modifies this
      ensures ok ==> files == old(files)[path := data]
      ensures files - {path} == old(files) - {path}
      ensures env.writeWorks ==> ok
    {
      if !env.writeWorks {
        if * {
          if * { files := files[path := ""]; }
          return false;
        }
      }
      files := files[path := data];
      ok := true;
    }
  }

  // ----- validation -----

  /** One field of the list, trimmed, read and printed again; None if it is no address. */
  function NameServer(field: string, v6: V6Codec): Option<string> {
    match ParseIP(Trim(field), v6.parse) case None => None case Some(ip) => Some(AddressText(ip, v6.show))
  }

  function NameServerFields(dns: string): seq<string> {
    Split(Trim(dns), ',')
  }

  ghost predicate AllNameServers(fields: seq<string>, v6: V6Codec) {
    forall i :: 0 <= i < |fields| ==> NameServer(fields[i], v6).Some?
  }

  /** The loop over the comma-separated fields. */
  method ParseDNS(fields: seq<string>, v6: V6Codec) returns (dnsList: seq<string>, ok: bool)
    ensures ok <==> AllNameServers(fields, v6)
    ensures ok ==> |dnsList| == |fields|
    ensures ok ==> forall i :: 0 <= i < |dnsList| ==> Some(dnsList[i]) == NameServer(fields[i], v6)
  {
    dnsList := [];
    for i := 0 to |fields|
      invariant |dnsList| == i
      invariant forall j :: 0 <= j < i ==> NameServer(fields[j], v6) == Some(dnsList[j])
    {
      var ip := ParseIP(Trim(fields[i]), v6.parse);
      if ip.None? {
        assert NameServer(fields[i], v6).None?;
        return dnsList, false;
      }
      dnsList := dnsList + [AddressText(ip.value, v6.show)];
    }
    ok := true;
  }

  /** What the arguments must be for a configuration to be written. */
  ghost predicate Acceptable(i: Interface, a: Arguments, v6: V6Codec) {
    && i.networkFile.Some? && i.mac.Some? && MaskValue(a.netmask).Some?
    && ParseIP(a.address, v6.parse).Some? && ParseIP(a.address, v6.parse).value.V4?
    && ParseIP(a.gateway, v6.parse).Some? && ParseIP(a.gateway, v6.parse).value.V4?
    && Agree(ParseIP(a.address, v6.parse).value.quad, ParseIP(a.gateway, v6.parse).value.quad,
             MaskValue(a.netmask).value)
    && AllNameServers(NameServerFields(a.dns), v6)
  }

  /** What is then written. */
  ghost predicate Describes(d: StaticData, i: Interface, a: Arguments, v6: V6Codec)
    requires Acceptable(i, a, v6)
  {
    && d.mac == i.mac.value
    && d.address == NetText(ParseIP(a.address, v6.parse).value, MaskValue(a.netmask).value)
    && d.gateway == QuadText(ParseIP(a.gateway, v6.parse).value.quad)
    && |d.dns| == |NameServerFields(a.dns)|
    && forall k {:trigger d.dns[k]} :: 0 <= k < |d.dns| ==> Some(d.dns[k]) == NameServer(NameServerFields(a.dns)[k], v6)
  }

  ghost predicate WellFormedV6(v6: V6Codec) {
    forall s: string :: v6.parse(s).Some? ==> v6.parse(s).value.Valid()
  }

  /** Everything up to and including the address is in order. */
  ghost predicate AddressGiven(i: Interface, a: Arguments, v6: V6Codec) {
    && i.networkFile.Some? && i.mac.Some? && MaskValue(a.netmask).Some?
    && ParseIP(a.address, v6.parse).Some?
  }

  /** The one thing that is reported: the first that is wrong. A gateway that is no address
      at all is reported as such only for an IPv6 address; for an IPv4 address it already
      fails the containment test. An IPv6 address with an IPv4 or IPv6 gateway fails it too. */
  ghost predicate Objection(i: Interface, a: Arguments, v6: V6Codec, why: Failure) {
    match why
    case NoInterface => i.networkFile.None?
    case NoHardwareAddress => i.networkFile.Some? && i.mac.None?
    case BadMask => i.networkFile.Some? && i.mac.Some? && MaskValue(a.netmask).None?
    case BadAddress =>
      && i.networkFile.Some? && i.mac.Some? && MaskValue(a.netmask).Some?
      && ParseIP(a.address, v6.parse).None?
    case OutsideNetwork =>
      && AddressGiven(i, a, v6)
      && !NetContains(ParseIP(a.address, v6.parse).value, MaskValue(a.netmask).value, ParseIP(a.gateway, v6.parse))
    case BadGateway =>
      && AddressGiven(i, a, v6)
      && ParseIP(a.address, v6.parse).value.V6? && ParseIP(a.gateway, v6.parse).None?
    case BadNameServer =>
      && AddressGiven(i, a, v6)
      && ParseIP(a.address, v6.parse).value.V4? && ParseIP(a.gateway, v6.parse).Some?
      && NetContains(ParseIP(a.address, v6.parse).value, MaskValue(a.netmask).value, ParseIP(a.gateway, v6.parse))
      && !AllNameServers(NameServerFields(a.dns), v6)
    case _ => false
  }

  /** All checks of setStaticConfig before the file stage, in their order. */
  method Validate(i: Interface, a: Arguments, v6: V6Codec) returns (why: Option<Failure>, d: StaticData)
    requires WellFormedV6(v6)
    ensures why.None? <==> Acceptable(i, a, v6)
    ensures why.None? ==> Describes(d, i, a, v6)
    ensures why.Some? ==> Objection(i, a, v6, why.value)
  {
    d := StaticData("", "", "", []);
    if i.networkFile.None? { return Some(NoInterface), d; }
    if i.mac.None? { return Some(NoHardwareAddress), d; }
    d := d.(mac := i.mac.value);
    var mask, ok := ParseMap(a.netmask);
    if !ok { return Some(BadMask), d; }
    var m: Quad := mask[..];
    var ipAddress := ParseIP(a.address, v6.parse);
    if ipAddress.None? { return Some(BadAddress), d; }
    d := d.(address := NetText(ipAddress.value, m));
    var gatewayIP := ParseIP(a.gateway, v6.parse);
    ContainsMeaning(ipAddress.value, m, gatewayIP);
    if !NetContains(ipAddress.value, m, gatewayIP) { return Some(OutsideNetwork), d; }
    if gatewayIP.None? { return Some(BadGateway), d; }
    d := d.(gateway := AddressText(gatewayIP.value, v6.show));
    var dnsList;
    dnsList, ok := ParseDNS(NameServerFields(a.dns), v6);
    if !ok { return Some(BadNameServer), d; }
    d := d.(dns := dnsList);
    why := None;
  }

  // ----- setStaticConfig -----

  /** The custom file in use for an interface, if any. */
  function CustomFile(i: Interface): set<string> {
    if i.networkFile.Some? && IsCustom(i.networkFile.value) then {i.networkFile.value} else {}
  }

  predicate Manageable(i: Interface) {
    i.networkFile.Some? && (i.networkFile.value == DEFAULT_FILE || IsCustom(i.networkFile.value))
  }

  ghost predicate StaticOutcome(env: FileEnv, i: Interface, a: Arguments, v6: V6Codec, restartWorks: bool,
                                before: map<string, string>, after: map<string, string>, why: Option<Failure>) {
    if !Acceptable(i, a, v6) then
      after == before && why.Some? && Objection(i, a, v6, why.value)
    else if !Manageable(i) then
      after == before && why == Some(UnknownFile)
    else
      var base := before - CustomFile(i);
      match why
      case Some(RemoveFailed) =>
        && after == before && CustomFile(i) != {}
        && CustomFile(i) - env.unremovable !! before.Keys
      case Some(WriteFailed) =>
        && !env.writeWorks && after - {Target(a.iface)} == base - {Target(a.iface)}
        && CustomFile(i) <= before.Keys
      case _ =>
        && (why == if restartWorks then None else Some(RestartFailed))
        && CustomFile(i) <= before.Keys
        && exists d :: Describes(d, i, a, v6) && after == base[Target(a.iface) := Render(d)]
  }

  method SetStaticConfig(fs: NetworkFiles, i: Interface, a: Arguments, v6: V6Codec, restartWorks: bool)
    returns (why: Option<Failure>)
    requires WellFormedV6(v6)
    modifies fs
    ensures StaticOutcome(fs.env, i, a, v6, restartWorks, old(fs.files), fs.files, why)
  {
    var d;
    why, d := Validate(i, a, v6);
    if why.Some? { return; }
    var unit := Render(d);
    var networkFile := i.networkFile.value;
    assert fs.files - {} == fs.files;
    if networkFile != DEFAULT_FILE {
      if Contains(networkFile, CUSTOM_DIR) {
        var removed := fs.Remove(networkFile);
        if !removed { return Some(RemoveFailed); }
      } else {
        return Some(UnknownFile);
      }
    }
    var written := fs.WriteFile(Target(a.iface), unit);
    if !written { return Some(WriteFailed); }
    why := if restartWorks then None else Some(RestartFailed);
  }

  // ----- enableDHCP and resetToDHCP -----

  ghost predicate Submap(small: map<string, string>, big: map<string, string>) {
    forall p :: p in small ==> p in big && small[p] == big[p]
  }

  /** How the command refuses an interface. */
  function Refusal(i: Interface): Failure {
    if i.networkFile.None? then NoInterface else UnknownFile
  }

  /** What an error of enableDHCP means: the interface is refused, or its custom file is
      there and its removal may be refused. */
  ghost predicate Culprit(env: FileEnv, i: Interface, files: map<string, string>, why: Failure) {
    if !Manageable(i) then why == Refusal(i)
    else
      && why == RemoveFailed && CustomFile(i) != {}
      && CustomFile(i) <= env.unremovable && CustomFile(i) <= files.Keys
  }

  method EnableDHCP(fs: NetworkFiles, i: Interface) returns (why: Option<Failure>)
    modifies fs
    ensures why.Some? ==> fs.files == old(fs.files)
    ensures why.Some? ==> Culprit(fs.env, i, fs.files, why.value)
    ensures why.None? ==> Manageable(i)
    ensures why.None? ==> fs.files == old(fs.files) || fs.files == old(fs.files) - CustomFile(i)
    ensures why.None? && fs.env.hidden !! CustomFile(i) ==> fs.files == old(fs.files) - CustomFile(i)
  {
    if i.networkFile.None? { return Some(NoInterface); }
    var networkFile := i.networkFile.value;
    if networkFile == DEFAULT_FILE { return None; }
    if Contains(networkFile, CUSTOM_DIR) {
      var there := fs.Stat(networkFile);
      if there {
        var removed := fs.Remove(networkFile);
        if !removed { return Some(RemoveFailed); }
      }
      return None;
    }
    why := Some(UnknownFile);
  }

  ghost function CustomFiles(list: seq<Interface>): set<string> {
    if list == [] then {} else CustomFiles(list[..|list| - 1]) + CustomFile(list[|list| - 1])
  }

  /** How a reset ends: of the custom files of the interfaces whose turn came at most those
      are left that may look absent, and nothing else has changed; the turns end with the
      list or with the interface that is at fault. */
  ghost predicate ResetOutcome(env: FileEnv, list: seq<Interface>, before: map<string, string>,
                               after: map<string, string>, why: Option<Failure>, done: nat) {
    && done <= |list| && (why.None? <==> done == |list|)
    && (forall k :: 0 <= k < done ==> Manageable(list[k]))
    && Submap(after, before) && before.Keys - CustomFiles(list[..done]) <= after.Keys
    && after.Keys !! CustomFiles(list[..done]) - env.hidden
    && (why.Some? ==> Culprit(env, list[done], after, why.value))
  }

  /** The interfaces in the order of the list, each as it is reported when its turn comes. */
  method ResetToDHCP(fs: NetworkFiles, list: seq<Interface>) returns (why: Option<Failure>, ghost done: nat)
    modifies fs
    ensures ResetOutcome(fs.env, list, old(fs.files), fs.files, why, done)
  {
    done := 0;
    for k := 0 to |list|
      invariant done == k
      invariant ResetOutcome(fs.env, list[..k], old(fs.files), fs.files, None, k)
    {
      assert list[..k][..k] == list[..k] && list[..k + 1][..k + 1] == list[..k + 1];
      assert list[..k + 1][..k] == list[..k];
      why := EnableDHCP(fs, list[k]);
      if why.Some? {
        return;
      }
      done := k + 1;
    }
    assert list[..|list|] == list;
    why := None;
  }

  /** A successful reset is exact, and a second one changes nothing, if networkd reports no
      custom file that it did not report before. */
  lemma ResetIdempotent(env: FileEnv, list: seq<Interface>, again: seq<Interface>,
                        a: map<string, string>, b: map<string, string>, c: map<string, string>, j: nat, k: nat)
    requires env.hidden !! CustomFiles(list) && CustomFiles(again) <= CustomFiles(list)
    requires ResetOutcome(env, list, a, b, None, j) && ResetOutcome(env, again, b, c, None, k)
    ensures b == a - CustomFiles(list) && c == b
  {
    assert list[..|list|] == list && again[..|again|] == again;
    assert CustomFiles(list) - env.hidden == CustomFiles(list);
    assert CustomFiles(again) - env.hidden == CustomFiles(again);
  }

  // ----- what the written file says -----

  lemma NetTextOneLine(q: Quad, m: Quad)
    ensures OneLine(NetText(V4(q), m)) && OneLine(QuadText(q))
  {
    QuadTextFree(q, '\n');
    HexFree(m, '\n');
    if SimpleMaskLength(m) != -1 {
      DigitsAreFree(Itoa(SimpleMaskLength(m)), '\n');
    }
  }

  /** Hardware addresses and printed IPv6 addresses have no line breaks. */
  ghost predicate PlainTexts(i: Interface, v6: V6Codec) {
    && (i.mac.Some? ==> OneLine(i.mac.value))
    && forall b: seq<Octet> :: OneLine(v6.show(b))
  }

  lemma DescribesOneLine(d: StaticData, i: Interface, a: Arguments, v6: V6Codec)
    requires Acceptable(i, a, v6) && Describes(d, i, a, v6) && PlainTexts(i, v6)
    ensures OneLineEach(d)
  {
    NetTextOneLine(ParseIP(a.address, v6.parse).value.quad, MaskValue(a.netmask).value);
    NetTextOneLine(ParseIP(a.gateway, v6.parse).value.quad, MaskValue(a.netmask).value);
    forall k | 0 <= k < |d.dns| ensures OneLine(d.dns[k]) {
      NameServerOneLine(NameServerFields(a.dns)[k], v6);
    }
  }

  lemma NameServerOneLine(field: string, v6: V6Codec)
    requires NameServer(field, v6).Some? && forall b: seq<Octet> :: OneLine(v6.show(b))
    ensures OneLine(NameServer(field, v6).value)
  {
    var ip := ParseIP(Trim(field), v6.parse).value;
    if ip.V4? {
      QuadTextFree(ip.quad, '\n');
    }
  }

  /** A file for an address, a mask of p ones and a gateway that agrees under it, read
      back: hardware address, the address with its prefix length, a gateway that lies in
      the same block of addresses, and the name servers in order. */
  lemma ConfigurationReads(d: StaticData, q: Quad, g: Quad, p: nat)
    requires OneLineEach(d) && p <= 32 && Agree(q, g, MaskOf(p))
    requires d.address == NetText(V4(q), MaskOf(p)) && d.gateway == QuadText(g)
    ensures ReadUnit(Render(d)) ==
      [Assignment("Match", "MACAddress", d.mac), Assignment("Network", "Address", d.address),
       Assignment("Network", "Gateway", d.gateway)] + DNSAssignments(d.dns)
    ensures ParseCIDR(d.address) == Some((q, p)) && ParseIPv4(d.gateway) == Some(g)
    ensures Value(q) / Pow2(32 - p) == Value(g) / Pow2(32 - p)
  {
    UnitRoundTrip(d);
    CidrRoundTrip(q, p);
    QuadRoundTrip(g);
    SameBlock(q, g, p);
  }

  /** So for every configuration that setStaticConfig accepts with a contiguous mask. */
  lemma WrittenConfiguration(d: StaticData, i: Interface, a: Arguments, v6: V6Codec, p: nat)
    requires Acceptable(i, a, v6) && Describes(d, i, a, v6) && PlainTexts(i, v6)
    requires p <= 32 && MaskValue(a.netmask) == Some(MaskOf(p))
    ensures ReadUnit(Render(d)) ==
      [Assignment("Match", "MACAddress", i.mac.value), Assignment("Network", "Address", d.address),
       Assignment("Network", "Gateway", d.gateway)] + DNSAssignments(d.dns)
    ensures var q, g := ParseIP(a.address, v6.parse).value.quad, ParseIP(a.gateway, v6.parse).value.quad;
      && ParseCIDR(d.address) == Some((q, p)) && ParseIPv4(d.gateway) == Some(g)
      && Value(q) / Pow2(32 - p) == Value(g) / Pow2(32 - p)
  {
    DescribesOneLine(d, i, a, v6);
    ConfigurationReads(d, ParseIP(a.address, v6.parse).value.quad, ParseIP(a.gateway, v6.parse).value.quad, p);
  }

  // ----- which files are touched -----

  ghost predicate Untouched(before: map<string, string>, after: map<string, string>, p: string) {
    (p in before <==> p in after) && (p in before ==> after[p] == before[p])
  }

  predicate Inside(p: string) {
    HasPrefix(p, CUSTOM_DIR)
  }

  /** No file outside the directory for custom configurations has changed. */
  ghost predicate OnlyInside(before: map<string, string>, after: map<string, string>) {
    forall p :: !Inside(p) ==> Untouched(before, after, p)
  }

  lemma TargetIsInside(iface: string)
    requires Free('/', iface)
    ensures Inside(Target(iface)) && IsCustom(Target(iface))
  {
    TargetOfName(iface);
    var t := Target(iface);
    assert t[0..] == t;
    assert CUSTOM_DIR[1] == 'e' && DEFAULT_FILE[1] == 'u' && t[1] == CUSTOM_DIR[1];
  }

  /** Slashes and dots would lead out, next to the directory. No interface has such a name,
      so the lookup of the interface fails before anything is written. */
  lemma TargetAbove(name: string)
    requires Free('/', name)
    ensures Target("../" + name) == "/etc/systemd/" + (name + ".network")
    ensures !Inside(Target("../" + name))
  {
    var c, file := ["etc", "systemd", "network"], name + ".network";
    CustomDirForm();
    NetworkFileIsPlain(name);
    assert "../" + (name + ".network") == ("../" + name) + ".network";
    UpJoin(c, file);
    AboveForm();
    NextToDir(file);
  }

  lemma AboveForm()
    ensures var c := ["etc", "systemd", "network"]; Rooted(c[..2]) + "/" == "/etc/systemd/"
  {
    var c := ["etc", "systemd", "network"];
    assert c[..2] == ["etc", "systemd"] && ["etc", "systemd"][1..] == ["systemd"];
  }

  lemma NextToDir(file: string)
    requires Free('/', file)
    ensures !Inside("/etc/systemd/" + file)
  {
    var t := "/etc/systemd/" + file;
    assert CUSTOM_DIR[20] == '/';
    assert |file| > 7 ==> t[20] == file[7];
  }

  /** What the guard of the code tests: the name of the directory may be anywhere in the
      reported path. */
  lemma GuardExactly(p: string)
    ensures IsCustom(p) <==>
      p != "/usr/lib64/systemd/network/zz-default.network" && exists x, f :: p == x + "/etc/systemd/network/" + f
  {
    if i :| 0 <= i <= |p| - |CUSTOM_DIR| && CUSTOM_DIR <= p[i..] {
      assert p == p[..i] + CUSTOM_DIR + p[i + |CUSTOM_DIR|..];
    }
    if x, f :| p == x + CUSTOM_DIR + f {
      assert p[|x|..] == CUSTOM_DIR + f;
    }
  }

  /** Apart from the target, at most the old custom file is gone. */
  lemma StaticExcept(env: FileEnv, i: Interface, a: Arguments, v6: V6Codec, restartWorks: bool,
                     before: map<string, string>, after: map<string, string>, why: Option<Failure>)
    requires StaticOutcome(env, i, a, v6, restartWorks, before, after, why) && after != before
    ensures var t := Target(a.iface); after - {t} == before - CustomFile(i) - {t}
    ensures CustomFile(i) <= before.Keys
  {
    if why != Some(WriteFailed) {
      var d :| Describes(d, i, a, v6) && after == (before - CustomFile(i))[Target(a.iface) := Render(d)];
      PutElsewhere(before - CustomFile(i), Target(a.iface), Render(d));
    }
  }

  lemma PutElsewhere(m: map<string, string>, t: string, x: string)
    ensures m[t := x] - {t} == m - {t}
  {
  }

  lemma SameExcept(a: map<string, string>, b: map<string, string>, t: string)
    requires a - {t} == b - {t}
    ensures forall p :: p != t ==> Untouched(a, b, p)
  {
    var x, y := a - {t}, b - {t};
    forall p | p != t ensures Untouched(a, b, p) {
      assert p in a <==> p in x;
      assert p in b <==> p in y;
      assert p in a ==> a[p] == x[p];
      assert p in b ==> b[p] == y[p];
    }
  }

  /** A call that changes anything removes the old custom file, and apart from it and the
      target touches nothing. */
  lemma StaticTouches(env: FileEnv, i: Interface, a: Arguments, v6: V6Codec, restartWorks: bool,
                      before: map<string, string>, after: map<string, string>, why: Option<Failure>, p: string)
    requires StaticOutcome(env, i, a, v6, restartWorks, before, after, why)
    ensures p !in CustomFile(i) && p != Target(a.iface) ==> Untouched(before, after, p)
    ensures p in CustomFile(i) && p != Target(a.iface) ==> after == before || !Untouched(before, after, p)
  {
    if after != before {
      StaticExcept(env, i, a, v6, restartWorks, before, after, why);
      SameExcept(after, before - CustomFile(i), Target(a.iface));
      assert p != Target(a.iface) ==> Untouched(after, before - CustomFile(i), p);
    }
  }

  /** Whether a static configuration touches a file outside is decided by what networkd
      reported: it does so exactly if it changes anything and the custom file in use is outside. */
  lemma StaticInsideExactly(env: FileEnv, i: Interface, a: Arguments, v6: V6Codec, restartWorks: bool,
                            before: map<string, string>, after: map<string, string>, why: Option<Failure>)
    requires StaticOutcome(env, i, a, v6, restartWorks, before, after, why) && Inside(Target(a.iface))
    ensures OnlyInside(before, after) <==> after == before || forall p :: p in CustomFile(i) ==> Inside(p)
  {
    forall p | !Inside(p)
      ensures p !in CustomFile(i) ==> Untouched(before, after, p)
      ensures p in CustomFile(i) ==> after == before || !Untouched(before, after, p)
    {
      StaticTouches(env, i, a, v6, restartWorks, before, after, why, p);
    }
  }

  /** The same for a reset: it touches a file outside exactly if networkd reported one, for
      an interface whose turn came, and the file was there. */
  lemma ResetInsideExactly(env: FileEnv, list: seq<Interface>, before: map<string, string>, after: map<string, string>,
                           why: Option<Failure>, done: nat)
    requires ResetOutcome(env, list, before, after, why, done) && env.hidden !! CustomFiles(list[..done])
    ensures OnlyInside(before, after) <==> forall p :: p in CustomFiles(list[..done]) && p in before ==> Inside(p)
  {
    var gone := CustomFiles(list[..done]);
    assert gone - env.hidden == gone;
    forall p ensures Untouched(before, after, p) <==> !(p in gone && p in before) {
    }
  }

  /** The guard lets such a file through: here is a reset that removes a file under /tmp. */
  lemma ForeignFileIsRemoved(env: FileEnv, f: string, mac: Option<string>, data: string)
    returns (i: Interface, before: map<string, string>, after: map<string, string>)
    ensures i == Interface(Some("/tmp" + CUSTOM_DIR + f), mac)
    ensures ResetOutcome(env, [i], before, after, None, 1)
    ensures i.networkFile.value in before && i.networkFile.value !in after && !OnlyInside(before, after)
  {
    var p := "/tmp" + CUSTOM_DIR + f;
    i, before, after := Interface(Some(p), mac), map[p := data], map[];
    assert p[1] == 't' && CUSTOM_DIR[1] == 'e' && DEFAULT_FILE[1] == 'u';
    GuardExactly(p);
    assert [i][..1] == [i] && [i][..0] == [];
    assert CustomFiles([i]) == CustomFiles([]) + CustomFile(i);
    assert !Inside(p) && !Untouched(before, after, p);
  }

  // ----- histories -----

  /** One call of the tool, with what it was told about the interfaces. */
  datatype Call =
    | Static(i: Interface, a: Arguments, restartWorks: bool, result: Option<Failure>)
    | Reset(list: seq<Interface>, result: Option<Failure>, done: nat)

  ghost predicate CallStep(env: FileEnv, v6: V6Codec, c: Call, before: map<string, string>, after: map<string,
                           string>) {
    match c
    case Static(i, a, restartWorks, why) => StaticOutcome(env, i, a, v6, restartWorks, before, after, why)
    case Reset(list, why, done) => ResetOutcome(env, list, before, after, why, done)
  }

  /** The files a call may touch: the reported custom files and its target. */
  ghost function Reach(c: Call): set<string> {
    match c
    case Static(i, a, _, _) => CustomFile(i) + {Target(a.iface)}
    case Reset(list, _, _) => CustomFiles(list)
  }

  datatype Record = Record(env: FileEnv, call: Call, after: map<string, string>)

  function FilesAfter(files: map<string, string>, h: seq<Record>): map<string, string> {
    if h == [] then files else h[|h| - 1].after
  }

  ghost predicate Calls(files: map<string, string>, v6: V6Codec, h: seq<Record>) {
    h == [] ||
    (var init, r := h[..|h| - 1], h[|h| - 1];
     Calls(files, v6, init) && CallStep(r.env, v6, r.call, FilesAfter(files, init), r.after))
  }

  lemma {:induction false} CustomFilesGrow(list: seq<Interface>, k: nat)
    requires k <= |list|
    ensures CustomFiles(list[..k]) <= CustomFiles(list)
  {
    if k == |list| {
      assert list[..k] == list;
    } else {
      CustomFilesGrow(list[..|list| - 1], k);
      assert list[..|list| - 1][..k] == list[..k];
    }
  }

  lemma CallTouches(env: FileEnv, v6: V6Codec, c: Call, before: map<string, string>, after: map<string,
                    string>, p: string)
    requires CallStep(env, v6, c, before, after) && p !in Reach(c)
    ensures Untouched(before, after, p)
  {
    match c
    case Static(i, a, restartWorks, why) => StaticTouches(env, i, a, v6, restartWorks, before, after, why, p);
    case Reset(list, why, done) => CustomFilesGrow(list, done);
  }

  /** No history of calls, with whatever failures, touches a file that is neither a reported
      custom file nor the target of one of its calls. */
  lemma {:induction false} HistoryTouches(files: map<string, string>, v6: V6Codec, h: seq<Record>, p: string)
    requires Calls(files, v6, h) && forall i :: 0 <= i < |h| ==> p !in Reach(h[i].call)
    ensures Untouched(files, FilesAfter(files, h), p)
  {
    if h != [] {
      var init, r := h[..|h| - 1], h[|h| - 1];
      HistoryTouches(files, v6, init, p);
      CallTouches(r.env, v6, r.call, FilesAfter(files, init), r.after, p);
    }
  }

  /** A call for an interface name without slashes that is told of custom files in the
      directory only. */
  ghost predicate Trusted(c: Call) {
    match c
    case Static(i, a, _, _) => Free('/', a.iface) && forall p :: p in CustomFile(i) ==> Inside(p)
    case Reset(list, _, _) => forall p :: p in CustomFiles(list) ==> Inside(p)
  }

  /** So no history of such calls touches a file outside the directory. */
  lemma HistoryOnlyCustom(files: map<string, string>, v6: V6Codec, h: seq<Record>)
    requires Calls(files, v6, h) && forall i :: 0 <= i < |h| ==> Trusted(h[i].call)
    ensures OnlyInside(files, FilesAfter(files, h))
  {
    forall p | !Inside(p) ensures Untouched(files, FilesAfter(files, h), p) {
      forall i | 0 <= i < |h| ensures p !in Reach(h[i].call) {
        assert Trusted(h[i].call);
        ReachIsInside(h[i].call);
      }
      HistoryTouches(files, v6, h, p);
    }
  }

  lemma ReachIsInside(c: Call)
    requires Trusted(c)
    ensures forall p :: p in Reach(c) ==> Inside(p)
  {
    if c.Static? {
      TargetIsInside(c.a.iface);
    }
  }

  // ----- going back -----

  lemma ResetOne(env: FileEnv, now: Interface, before: map<string, string>, after: map<string, string>)
    requires env.hidden !! CustomFile(now) && ResetOutcome(env, [now], before, after, None, 1)
    ensures after == before - CustomFile(now) && Manageable(now)
  {
    assert [now][..1] == [now] && [now][..0] == [];
    assert CustomFiles([now]) == CustomFiles([]) + CustomFile(now);
    assert CustomFile(now) - env.hidden == CustomFile(now);
  }

  lemma StaticDone(env: FileEnv, i: Interface, a: Arguments, v6: V6Codec, before: map<string, string>,
                   after: map<string, string>)
    returns (text: string)
    requires StaticOutcome(env, i, a, v6, true, before, after, None)
    ensures after == (before - CustomFile(i))[Target(a.iface) := text]
  {
    var d :| Describes(d, i, a, v6) && after == (before - CustomFile(i))[Target(a.iface) := Render(d)];
    text := Render(d);
  }

  /** Going back to DHCP after a static configuration: once networkd reports the written
      file, a successful reset leaves the files as they were, without the custom file that
      was replaced and without the written file. So the configuration is undone exactly if
      it has not overwritten a file that was not in use. The target is never the default
      file for an interface name without slashes. */
  lemma ResetUndoesStatic(env: FileEnv, i: Interface, a: Arguments, v6: V6Codec, now: Interface,
                          before: map<string, string>, mid: map<string, string>, after: map<string, string>)
    requires StaticOutcome(env, i, a, v6, true, before, mid, None) && Target(a.iface) !in env.hidden
    requires now.networkFile == Some(Target(a.iface))
    requires ResetOutcome(env, [now], mid, after, None, 1)
    ensures Target(a.iface) != DEFAULT_FILE ==>
      && after == before - CustomFile(i) - {Target(a.iface)}
      && (after == before - CustomFile(i) <==> Target(a.iface) !in before || Target(a.iface) in CustomFile(i))
    ensures Target(a.iface) == DEFAULT_FILE ==> after == mid
    ensures Free('/', a.iface) ==> Target(a.iface) != DEFAULT_FILE
  {
    var text := StaticDone(env, i, a, v6, before, mid);
    ResetOne(env, now, mid, after);
    if Free('/', a.iface) {
      TargetIsInside(a.iface);
    }
    PutAndTake(before - CustomFile(i), Target(a.iface), text);
    TakeExactly(before, CustomFile(i), Target(a.iface));
  }

  lemma PutAndTake(m: map<string, string>, t: string, x: string)
    ensures m[t := x] - {t} == m - {t} && m[t := x] - {} == m[t := x]
  {
  }

  lemma TakeExactly(m: map<string, string>, gone: set<string>, t: string)
    ensures m - gone - {t} == m - gone <==> t !in m || t in gone
  {
    if m - gone - {t} == m - gone {
      assert t in m - gone <==> t in m - gone - {t};
    }
  }
}
