/**
 How snapshots and dump files are named, and what a name gives away.

 A snapshot is `dataset@label-timestamp`; its dump is the file
 `dataset-label-timestamp.snap`, with the slashes of the dataset turned into dashes.
 */
module Names {
  import opened Text
  import opened WallClock

  function Stamp(lbl: string, t: Clock): string
  {
    lbl + "-" + Format(t)
  }

  function FullName(name: string, stamp: string): string {
    name + "@" + stamp
  }

  /** The snapshots of a dataset are recognised by this prefix. */
  predicate OfDataset(s: string, name: string) {
    HasPrefix(s, name + "@")
  }

  function GroupPrefix(name: string, lbl: string): string {
    name + "@" + lbl + "-"
  }

  /** The snapshots that `newest` takes for earlier versions under one label. */
  predicate InGroup(s: string, name: string, lbl: string) {
    HasPrefix(s, GroupPrefix(name, lbl))
  }

  // ----- snapshots -----

  lemma DatasetUnique(s: string, n: string, m: string)
    requires Free('@', n) && Free('@', m)
    requires OfDataset(s, n) && OfDataset(s, m)
    ensures n == m
  {
    FirstCut('@', n, m, s);
  }

  lemma GroupInDataset(s: string, n: string, l: string)
    requires InGroup(s, n, l)
    ensures OfDataset(s, n)
  {
    assert GroupPrefix(n, l)[..|n| + 1] == n + "@";
  }

  lemma FullNameOf(m: string, stamp: string, n: string)
    requires Free('@', n) && Free('@', m)
    ensures OfDataset(FullName(m, stamp), n) <==> m == n
  {
    assert FullName(m, stamp)[..|m| + 1] == m + "@";
    if OfDataset(FullName(m, stamp), n) {
      DatasetUnique(FullName(m, stamp), n, m);
    }
  }

  lemma FullNameInjective(m: string, n: string, stamp: string)
    ensures FullName(m, stamp) == FullName(n, stamp) <==> m == n
  {
    if FullName(m, stamp) == FullName(n, stamp) {
      assert |m| == |n|;
      assert m == FullName(m, stamp)[..|m|] == FullName(n, stamp)[..|m|] == n;
    }
  }

  /** A snapshot made under label `k` falls into the group of a dash-free label `l`
      exactly if the label is `l` itself or extends it with a dash. */
  lemma GroupMembership(m: string, k: string, t: Clock, n: string, l: string)
    requires Free('@', m) && Free('@', n) && Free('-', l)
    ensures InGroup(FullName(m, Stamp(k, t)), n, l) <==> m == n && (k == l || HasPrefix(k, l + "-"))
  {
    var s := FullName(m, Stamp(k, t));
    FullNameOf(m, Stamp(k, t), n);
    if InGroup(s, n, l) {
      GroupInDataset(s, n, l);
    }
    if m == n {
      assert s == (n + "@") + Stamp(k, t);
      assert GroupPrefix(n, l) == (n + "@") + (l + "-");
      assert s[|n| + 1..] == Stamp(k, t) && GroupPrefix(n, l)[|n| + 1..] == l + "-";
      PrefixUnder(n + "@", Stamp(k, t), l + "-");
      LabelPrefix(k, t, l);
    }
  }

  lemma PrefixUnder(p: string, s: string, q: string)
    ensures p + q <= p + s <==> q <= s
  {
    assert (p + s)[|p|..] == s && (p + q)[|p|..] == q;
    if p + q <= p + s {
      assert q == (p + q)[|p|..] == (p + s)[..|p| + |q|][|p|..] == s[..|q|];
    }
  }

  lemma LabelPrefix(k: string, t: Clock, l: string)
    requires Free('-', l)
    ensures l + "-" <= Stamp(k, t) <==> k == l || HasPrefix(k, l + "-")
  {
    var s := Stamp(k, t);
    assert s == k + ("-" + Format(t));
    assert s[|k|] == '-' && s[..|k|] == k;
    if l + "-" <= s {
      assert s[|l|] == (l + "-")[|l|] == '-';
      assert forall i :: 0 <= i < |l| ==> s[i] == (l + "-")[i] == l[i];
      assert |l| <= |k|;
      if |l| == |k| {
        assert k == s[..|l|] == (l + "-")[..|l|] == l;
      } else {
        assert l + "-" == s[..|l| + 1] == k[..|l| + 1];
      }
    }
    if k == l {
      assert s[..|l| + 1] == l + "-";
    }
    if l + "-" <= k {
      assert s[..|l| + 1] == k[..|l| + 1];
    }
  }

  /** Within a group the order of names is the order of time. */
  lemma GroupOrder(n: string, l: string, a: Clock, b: Clock)
    ensures Le(FullName(n, Stamp(l, a)), FullName(n, Stamp(l, b))) <==> a == b || Before(a, b)
    ensures FullName(n, Stamp(l, a)) == FullName(n, Stamp(l, b)) <==> a == b
  {
    var p := n + "@" + (l + "-");
    assert FullName(n, Stamp(l, a)) == p + Format(a);
    assert FullName(n, Stamp(l, b)) == p + Format(b);
    LeCommonPrefix(p, Format(a), Format(b));
    FormatOrder(a, b);
    assert (p + Format(a))[|p|..] == Format(a) && (p + Format(b))[|p|..] == Format(b);
  }

  /** The freshness check of TakeSnapshot looks for a suffix, so it also refuses when
      a dataset whose path ends in the same way has a snapshot of that label and time,
      and only then. */
  lemma FreshnessRefusal(d: string, k: string, n: string, stamp: string)
    requires Free('@', k) && Free('@', stamp)
    ensures HasSuffix(FullName(d, k), FullName(n, stamp)) <==> k == stamp && HasSuffix(d, n)
  {
    var s, f := FullName(d, k), FullName(n, stamp);
    if HasSuffix(s, f) {
      var x := s[..|s| - |f|];
      assert s == x + f;
      assert (x + n) + "@" + stamp == s;
      LastCut('@', d, k, x + n, stamp);
      assert d[|d| - |n|..] == n;
    }
    if k == stamp && HasSuffix(d, n) {
      assert d == d[..|d| - |n|] + n;
      assert s == d[..|d| - |n|] + f;
    }
  }

  // ----- dump files -----

  /** strings.Replace(name, "/", "-", -1) */
  function Dashed(name: string): (r: string)
    ensures |r| == |name|
    ensures forall i :: 0 <= i < |name| ==> r[i] == if name[i] == '/' then '-' else name[i]
  {
    seq(|name|, i requires 0 <= i < |name| => if name[i] == '/' then '-' else name[i])
  }

  function DumpFile(name: string, stamp: string): string {
    Dashed(name) + "-" + stamp + ".snap"
  }

  /** path.Join for a directory in the form `path.Clean` gives it and a plain file name. */
  function InDir(dir: string, file: string): string {
    if dir == "" || dir == "." then file
    else if dir == "/" then "/" + file
    else dir + "/" + file
  }

  function DumpPath(dir: string, name: string, stamp: string): string {
    InDir(dir, DumpFile(name, stamp))
  }

  function TmpPath(dir: string, name: string, stamp: string): string {
    DumpPath(dir, name, stamp) + ".tmp"
  }

  lemma JoinSuffix(dir: string, file: string)
    ensures HasSuffix(InDir(dir, file), file)
  {
  }

  lemma JoinInjective(dir: string, f: string, g: string)
    ensures InDir(dir, f) == InDir(dir, g) <==> f == g
  {
    var s, t := InDir(dir, f), InDir(dir, g);
    if s == t {
      var p := |s| - |f|;
      assert |f| == |g|;
      assert f == s[p..] == t[p..] == g;
    }
  }

  /** What a dump file name determines: the dash form of the dataset, the label and
      the time, and nothing more. */
  lemma DumpFileDecodes(n: string, l: string, a: Clock, m: string, k: string, b: Clock)
    requires Free('-', l) && Free('-', k)
    ensures DumpFile(n, Stamp(l, a)) == DumpFile(m, Stamp(k, b))
       <==> Dashed(n) == Dashed(m) && l == k && a == b
  {
    var s, t := DumpFile(n, Stamp(l, a)), DumpFile(m, Stamp(k, b));
    var x, y := Dashed(n) + "-" + l, Dashed(m) + "-" + k;
    assert s == x + ("-" + (Format(a) + ".snap")) && t == y + ("-" + (Format(b) + ".snap"));
    if s == t {
      assert |x| == |y|;
      assert x == s[..|x|] == t[..|x|] == y;
      assert Format(a) == s[|x| + 1..][..WIDTH] == t[|x| + 1..][..WIDTH] == Format(b);
      FormatOrder(a, b);
      LastCut('-', Dashed(n), l, Dashed(m), k);
    }
  }

  lemma DumpPathTail(d: string, n: string, l: string, a: Clock)
    ensures HasSuffix(DumpPath(d, n, Stamp(l, a)), Format(a) + ".snap")
  {
    var s, f, e := DumpPath(d, n, Stamp(l, a)), DumpFile(n, Stamp(l, a)), Format(a) + ".snap";
    JoinSuffix(d, f);
    assert f == (Dashed(n) + "-" + l + "-") + e;
    assert s == s[..|s| - |f|] + (Dashed(n) + "-" + l + "-") + e;
  }

  /** Dumps of different times never share a path, whatever the directories. */
  lemma DumpPathTime(d: string, n: string, l: string, a: Clock, e: string, m: string, k: string, b: Clock)
    requires DumpPath(d, n, Stamp(l, a)) == DumpPath(e, m, Stamp(k, b))
    ensures a == b
  {
    DumpPathTail(d, n, l, a);
    DumpPathTail(e, m, k, b);
    var x, y := Format(a) + ".snap", Format(b) + ".snap";
    assert x == y;
    assert x[..WIDTH] == Format(a) && y[..WIDTH] == Format(b);
    FormatOrder(a, b);
  }

  /** A directory as path.Clean leaves it. */
  predicate CleanDir(dir: string) {
    dir != "" && (dir == "/" || dir[|dir| - 1] != '/')
  }

  /** Plain file names in different directories have different paths. */
  lemma InDirUnique(d: string, f: string, e: string, g: string)
    requires CleanDir(d) && CleanDir(e) && Free('/', f) && Free('/', g)
    requires InDir(d, f) == InDir(e, g)
    ensures d == e && f == g
  {
    var x, y := if d == "/" then "" else d, if e == "/" then "" else e;
    if d != "." && e != "." {
      assert InDir(d, f) == x + ['/'] + f && InDir(e, g) == y + ['/'] + g;
      LastCut('/', x, f, y, g);
    } else {
      assert d != "." ==> '/' in InDir(d, f);
      assert e != "." ==> '/' in InDir(e, g);
    }
  }

  lemma DumpFileFree(n: string, l: string, t: Clock)
    requires Free('/', l)
    ensures Free('/', DumpFile(n, Stamp(l, t)))
  {
    FormatFree(t);
    assert Free('/', Dashed(n));
    assert Free('/', "-") && Free('/', ".snap");
  }

  /** Dumps in different directories never share a path, if the labels have no slashes. */
  lemma DumpPathDirectory(d: string, n: string, l: string, a: Clock, e: string, m: string, k: string, b: Clock)
    requires CleanDir(d) && CleanDir(e) && d != e && Free('/', l) && Free('/', k)
    ensures DumpPath(d, n, Stamp(l, a)) != DumpPath(e, m, Stamp(k, b))
  {
    DumpFileFree(n, l, a);
    DumpFileFree(m, k, b);
    if DumpPath(d, n, Stamp(l, a)) == DumpPath(e, m, Stamp(k, b)) {
      InDirUnique(d, DumpFile(n, Stamp(l, a)), e, DumpFile(m, Stamp(k, b)));
      assert false;
    }
  }

  lemma DumpPathsDiffer(dir: string, n: string, m: string, stamp: string)
    ensures DumpPath(dir, n, stamp) == DumpPath(dir, m, stamp) <==> Dashed(n) == Dashed(m)
  {
    JoinInjective(dir, DumpFile(n, stamp), DumpFile(m, stamp));
    var s, t := DumpFile(n, stamp), DumpFile(m, stamp);
    if s == t {
      assert |Dashed(n)| == |Dashed(m)|;
      assert Dashed(n) == s[..|Dashed(n)|] == t[..|Dashed(n)|] == Dashed(m);
    }
  }

  /** No dump is ever mistaken for a temporary file. */
  lemma TmpIsNoDump(d: string, n: string, stamp: string, e: string, m: string, stamp': string)
    ensures TmpPath(d, n, stamp) != DumpPath(e, m, stamp')
  {
    var s, t := TmpPath(d, n, stamp), DumpPath(e, m, stamp');
    JoinSuffix(e, DumpFile(m, stamp'));
    assert t[|t| - 2] == 'a';
    assert s[|s| - 2] == 'm';
  }
}
