/**
 TakeSnapshot and its helpers, statement by statement, proved against the relation Step.
 */
module ZfsSnapshots {
  import opened Text
  import opened WallClock
  import opened Names
  import opened Streams
  import opened Stores
  import opened Runs
  import opened Fields

  // ----- newest -----

  method Newest(snapshots: seq<string>, name: string, lbl: string) returns (from: string, to: string, ok: bool)
    ensures ok <==> Group(Elements(snapshots), name, lbl) != {}
    ensures ok && Distinct(snapshots) ==> NewestPair(Group(Elements(snapshots), name, lbl), from, to)
    ensures !ok ==> from == to == ""
  {
    from, to := "", "";
    var filtered: seq<string> := [];
    var prefix := GroupPrefix(name, lbl);
    for i := 0 to |snapshots|
      invariant forall s :: s in filtered <==> s in snapshots[..i] && InGroup(s, name, lbl)
      invariant Distinct(snapshots) ==> Distinct(filtered)
    {
      assert Distinct(snapshots) ==> snapshots[i] !in snapshots[..i];
      if HasPrefix(snapshots[i], prefix) {
        filtered := filtered + [snapshots[i]];
      }
    }
    assert snapshots[..|snapshots|] == snapshots;
    assert Elements(filtered) == Group(Elements(snapshots), name, lbl);
    SortedGroup(filtered);
    filtered := Sort(filtered);
    if |filtered| == 0 {
      ok := false;
    } else if |filtered| == 1 {
      to, ok := filtered[0], true;
    } else {
      from, to, ok := filtered[|filtered| - 2], filtered[|filtered| - 1], true;
    }
  }

  /** The end of the sorted group, as the switch of `newest` reads it. */
  lemma SortedGroup(filtered: seq<string>)
    ensures |Sort(filtered)| == 0 <==> Elements(filtered) == {}
    ensures |Sort(filtered)| == 1 ==> NewestPair(Elements(filtered), "", Sort(filtered)[0])
    ensures Distinct(filtered) && |Sort(filtered)| >= 2 ==>
      NewestPair(Elements(filtered), Sort(filtered)[|filtered| - 2], Sort(filtered)[|filtered| - 1])
  {
    var s := Sort(filtered);
    SortSorted(filtered);
    SortElements(filtered);
    if |s| == 0 {
    } else if |s| == 1 {
      assert Elements(s) == {s[0]};
      LeReflexive(s[0]);
    } else {
      assert s[0] in Elements(s);
      if Distinct(filtered) {
        SortDistinct(filtered);
        LastTwo(s);
      }
    }
  }

  lemma LastTwo(s: seq<string>)
    requires Sorted(s) && Distinct(s) && |s| >= 2
    ensures NewestPair(Elements(s), s[|s| - 2], s[|s| - 1])
  {
    var from, to := s[|s| - 2], s[|s| - 1];
    LeReflexive(from);
    LeReflexive(to);
    forall x | x in Elements(s) ensures Le(x, to) && (x != to ==> Le(x, from)) {
      var i :| 0 <= i < |s| && s[i] == x;
    }
    assert from in Elements(s) && to in Elements(s);
  }

  // ----- deletion loops -----

  /** The loop `for _, n := range names { _ = DeleteSnapshot(n) }`: failures are ignored. */
  method DeleteAll(driver: Driver, names: seq<string>)
    modifies driver`snaps
    ensures Rotated(driver.env, old(driver.snaps), driver.snaps, Elements(names) - {""})
  {
    for i := 0 to |names|
      invariant Rotated(driver.env, old(driver.snaps), driver.snaps, Elements(names[..i]) - {""})
    {
      assert names[..i + 1] == names[..i] + [names[i]];
      assert Elements(names[..i + 1]) == Elements(names[..i]) + {names[i]};
      var _ := driver.DeleteSnapshot(names[i]);
    }
    assert names[..|names|] == names;
  }

  /** The first `n` elements of a slice with some spare capacity, which holds zero values;
      None if the capacity is exceeded, for which the program panics. Only a slice to which
      something was appended has any capacity. */
  method Prefix(s: seq<string>, n: nat) returns (r: Option<seq<string>>)
    ensures n <= |s| ==> r == Some(s[..n])
    ensures n > |s| == 0 ==> r.None?
    ensures r.Some? && n > |s| ==> |r.value| == n && ZeroPadded(s, r.value)
  {
    var spare: nat :| s == [] ==> spare == 0;
    if n > |s| + spare {
      return None;
    }
    return Some(if n <= |s| then s[..n] else s + seq(n - |s|, _ => ""));
  }

  /** Deletes the smallest n - keep + 1 of n snapshots. For a keep below 1 these are more than
      there are: either this panics before anything is deleted, or all of them go. */
  method Cleanup(driver: Driver, snapshots: seq<string>, keep: int) returns (panics: bool)
    requires "" !in snapshots
    modifies driver`snaps
    ensures panics ==> keep < 1 && driver.snaps == old(driver.snaps)
    ensures keep < 1 && snapshots == [] ==> panics
    ensures !panics ==> Rotated(driver.env, old(driver.snaps), driver.snaps, Doomed(snapshots, keep))
  {
    if |snapshots| < keep {
      return false;
    }
    var sorted := Sort(snapshots);
    SortElements(snapshots);
    NoEmptyName(snapshots, sorted);
    var doomed := Prefix(sorted, |sorted| - keep + 1);
    if doomed.None? {
      return true;
    }
    if keep < 1 {
      ZeroPaddedElements(sorted, doomed.value);
    } else {
      PrefixElements(sorted, |sorted| - keep + 1);
    }
    DeleteAll(driver, doomed.value);
    return false;
  }

  lemma NoEmptyName(snapshots: seq<string>, sorted: seq<string>)
    requires "" !in snapshots && Elements(sorted) == Elements(snapshots)
    ensures "" !in sorted
  {
    assert "" !in Elements(sorted);
  }

  lemma PrefixElements(s: seq<string>, k: nat)
    requires "" !in s && k <= |s|
    ensures Elements(s[..k]) - {""} == Elements(s[..k])
  {
    assert forall x :: x in s[..k] ==> x in s;
  }

  /** A slice made longer holds zero values at its end. */
  ghost predicate ZeroPadded(s: seq<string>, longer: seq<string>) {
    s <= longer && forall i :: |s| <= i < |longer| ==> longer[i] == ""
  }

  lemma ZeroPaddedElements(s: seq<string>, longer: seq<string>)
    requires ZeroPadded(s, longer)
    ensures "" !in s ==> Elements(longer) - {""} == Elements(s)
  {
    forall x | x in longer && x != "" ensures x in s {
      var i :| 0 <= i < |longer| && longer[i] == x;
      assert x == s[i];
    }
    forall x | x in s ensures x in longer {
      var i :| 0 <= i < |s| && s[i] == x;
      assert x == longer[i];
    }
  }

  // ----- the dump directory -----

  /** Removes the temporary files, in whatever order the map yields them. */
  method RemoveAll(fs: Directory, tmpFiles: map<string, string>)
    modifies fs
    ensures forall p :: p !in tmpFiles ==> SameAt(old(fs.files), fs.files, p)
    ensures forall p :: p in tmpFiles && p in fs.files ==> p in fs.env.unremovable
  {
    var todo := tmpFiles.Keys;
    while todo != {}
      invariant todo <= tmpFiles.Keys
      invariant forall p :: p !in tmpFiles ==> SameAt(old(fs.files), fs.files, p)
      invariant forall p :: p in tmpFiles && p !in todo && p in fs.files ==> p in fs.env.unremovable
    {
      var p :| p in todo;
      todo := todo - {p};
      var _ := fs.Remove(p);
    }
  }

  /** With removals that work, every order of the loop leaves the same directory. */
  lemma RemovingIgnoresOrder(before: map<string, File>, tmpFiles: map<string, string>, a: map<string, File>,
                             b: map<string, File>)
    requires forall p :: p !in tmpFiles ==> SameAt(before, a, p) && SameAt(before, b, p)
    requires forall p :: p in tmpFiles ==> p !in a && p !in b
    ensures a == b
  {
    SameEverywhere(a, b);
  }

  lemma SameEverywhere(a: map<string, File>, b: map<string, File>)
    requires forall p :: SameAt(a, b, p)
    ensures a == b
  {
    forall p ensures p in a <==> p in b {
      assert SameAt(a, b, p);
    }
    assert a.Keys == b.Keys;
    forall p | p in a ensures a[p] == b[p] {
      assert SameAt(a, b, p);
    }
  }

  /** What the rename loop does to one entry: it is moved, or it stays. */
  ghost predicate Settled(before: map<string, File>, after: map<string, File>, tmp: string, snap: string)
    requires tmp in before
  {
    if tmp in after then after[tmp] == before[tmp] && SameAt(before, after, snap)
    else snap in after && after[snap] == before[tmp]
  }

  ghost predicate Waiting(before: map<string, File>, after: map<string, File>, tmp: string, snap: string) {
    SameAt(before, after, tmp) && SameAt(before, after, snap)
  }

  /** The map takes each temporary file to a final name of its own. */
  ghost predicate Targets(tmpFiles: map<string, string>) {
    && (forall t :: t in tmpFiles ==> tmpFiles[t] !in tmpFiles)
    && (forall t, u :: t in tmpFiles && u in tmpFiles && t != u ==> tmpFiles[t] != tmpFiles[u])
  }

  /** The entries in `todo` wait, the others are settled, and nothing else has changed. */
  ghost predicate Renaming(before: map<string, File>, now: map<string, File>, tmpFiles: map<string, string>,
                           todo: set<string>) {
    && (forall t :: t in tmpFiles ==> t in before)
    && (forall t :: t in tmpFiles && t in todo ==> Waiting(before, now, t, tmpFiles[t]))
    && (forall t :: t in tmpFiles && t !in todo ==> Settled(before, now, t, tmpFiles[t]))
    && (forall p :: p !in tmpFiles && p !in tmpFiles.Values ==> SameAt(before, now, p))
  }

  lemma RenameKeeps(before: map<string, File>, now: map<string, File>, next: map<string, File>,
                    tmpFiles: map<string, string>, todo: set<string>, t: string)
    requires Targets(tmpFiles) && Renaming(before, now, tmpFiles, todo)
    requires t in todo && t in tmpFiles && t in now && next == (now - {t})[tmpFiles[t] := now[t]]
    ensures Renaming(before, next, tmpFiles, todo - {t})
  {
    forall u | u in tmpFiles && u != t ensures SameAt(now, next, u) && SameAt(now, next, tmpFiles[u]) {
    }
    forall p | p !in tmpFiles && p !in tmpFiles.Values ensures SameAt(now, next, p) {
      assert tmpFiles[t] in tmpFiles.Values;
    }
  }

  /** One pass of the rename loop. */
  method RenameOne(fs: Directory, tmpFiles: map<string, string>, todo: set<string>, t: string,
                   ghost before: map<string, File>)
    returns (moved: bool)
    requires Targets(tmpFiles) && t in tmpFiles && t in todo && Renaming(before, fs.files, tmpFiles, todo)
    modifies fs
    ensures Renaming(before, fs.files, tmpFiles, todo - {t})
    ensures moved <==> t !in fs.files
    ensures !moved ==> t in fs.env.unmovable
    ensures forall u :: u in tmpFiles && u != t ==> (u in fs.files <==> u in old(fs.files))
  {
    moved := fs.Rename(t, tmpFiles[t]);
    if moved {
      RenameKeeps(before, old(fs.files), fs.files, tmpFiles, todo, t);
    }
  }

  /** Renames the temporary files, in whatever order the map yields them; `ok` tells
      whether all renames worked. A refused rename does not stop the others. */
  method RenameAll(fs: Directory, tmpFiles: map<string, string>) returns (ok: bool)
    requires Targets(tmpFiles) && forall t :: t in tmpFiles ==> t in fs.files
    modifies fs
    ensures Renaming(old(fs.files), fs.files, tmpFiles, {})
    ensures ok <==> forall t :: t in tmpFiles ==> t !in fs.files
    ensures forall t :: t in tmpFiles && t in fs.files ==> t in fs.env.unmovable
  {
    ok := true;
    var todo := tmpFiles.Keys;
    while todo != {}
      invariant todo <= tmpFiles.Keys
      invariant Renaming(old(fs.files), fs.files, tmpFiles, todo)
      invariant ok <==> forall t :: t in tmpFiles && t !in todo ==> t !in fs.files
      invariant forall t :: t in tmpFiles && t !in todo && t in fs.files ==> t in fs.env.unmovable
    {
      var t :| t in todo;
      var moved := RenameOne(fs, tmpFiles, todo, t, old(fs.files));
      if !moved {
        ok := false;
      }
      todo := todo - {t};
    }
  }

  /** If all renames worked, every order of the loop leaves the same directory. */
  lemma RenamingIgnoresOrder(before: map<string, File>, tmpFiles: map<string, string>, a: map<string, File>,
                             b: map<string, File>)
    requires Renaming(before, a, tmpFiles, {}) && Renaming(before, b, tmpFiles, {})
    requires forall t :: t in tmpFiles ==> t !in a && t !in b
    ensures a == b
  {
    forall p ensures SameAt(a, b, p) {
      if p in tmpFiles.Values {
        var t :| t in tmpFiles && tmpFiles[t] == p;
        assert Settled(before, a, t, p) && Settled(before, b, t, p);
      }
    }
    SameEverywhere(a, b);
  }

  // ----- sendSnapshots -----

  /** The loop's state after the first k datasets were dumped. */
  ghost predicate Dumped(q: Request, k: nat, sent: seq<Stream>, tmpFiles: map<string, string>,
                         before: map<string, File>, now: map<string, File>)
    requires k <= |q.names|
  {
    && |sent| == k
    && Tracked(q, k, tmpFiles, before, now)
    && tmpFiles.Keys <= now.Keys
    && Complete(q, sent, now)
  }

  /** The streams sent so far are in their temporary files. */
  ghost predicate Complete(q: Request, sent: seq<Stream>, now: map<string, File>)
    requires |sent| <= |q.names|
  {
    forall i :: 0 <= i < |sent| && LastSoFar(q, i, |sent|) ==> Holds(now, q.Tmp(q.names[i]), Dump(sent[i]))
  }

  ghost predicate LastSoFar(q: Request, i: nat, k: nat)
    requires i < k <= |q.names|
  {
    forall j :: i < j < k ==> q.Snap(q.names[j]) != q.Snap(q.names[i])
  }

  /** The temporary files of the first k datasets are known, and only they have changed. */
  ghost predicate Tracked(q: Request, k: nat, tmpFiles: map<string, string>,
                          before: map<string, File>, now: map<string, File>)
    requires k <= |q.names|
  {
    && tmpFiles.Keys == Tmps(q, k)
    && (forall t :: t in tmpFiles ==> t == tmpFiles[t] + ".tmp")
    && (forall p :: p !in tmpFiles ==> SameAt(before, now, p))
  }

  lemma TmpsNext(q: Request, k: nat)
    requires k < |q.names|
    ensures Tmps(q, k + 1) == Tmps(q, k) + {q.Tmp(q.names[k])}
  {
    assert q.names[..k + 1] == q.names[..k] + [q.names[k]];
  }

  lemma TrackedNext(q: Request, k: nat, tmpFiles: map<string, string>, before: map<string, File>,
                    now: map<string, File>, next: map<string, File>)
    requires k < |q.names| && Tracked(q, k, tmpFiles, before, now)
    requires forall p :: p != q.Tmp(q.names[k]) ==> SameAt(now, next, p)
    ensures Tracked(q, k + 1, tmpFiles[q.Tmp(q.names[k]) := q.Snap(q.names[k])], before, next)
  {
    var tmp, m := q.Tmp(q.names[k]), tmpFiles[q.Tmp(q.names[k]) := q.Snap(q.names[k])];
    TmpsNext(q, k);
    forall t | t in m ensures t == m[t] + ".tmp" {
      assert t == tmp || t in tmpFiles;
    }
    forall p | p !in m ensures SameAt(before, next, p) {
      assert p != tmp && p !in tmpFiles;
      assert SameAt(before, now, p) && SameAt(now, next, p);
    }
  }

  lemma SameTmpSameSnap(q: Request, n: string, m: string)
    ensures q.Tmp(n) == q.Tmp(m) <==> q.Snap(n) == q.Snap(m)
  {
    CutTmp(q.Snap(n), q.Snap(m));
  }

  lemma CutTmp(a: string, b: string)
    ensures a + ".tmp" == b + ".tmp" <==> a == b
  {
    assert (a + ".tmp")[..|a + ".tmp"| - 4] == a && (b + ".tmp")[..|b + ".tmp"| - 4] == b;
  }

  lemma CompleteNext(q: Request, sent: seq<Stream>, s: Stream, now: map<string, File>)
    requires |sent| < |q.names| && Complete(q, sent, now)
    ensures Complete(q, sent + [s], now[q.Tmp(q.names[|sent|]) := Dump(s)])
  {
    var k := |sent|;
    var tmp := q.Tmp(q.names[k]);
    var next := now[tmp := Dump(s)];
    forall i | 0 <= i < k + 1 && LastSoFar(q, i, k + 1)
      ensures Holds(next, q.Tmp(q.names[i]), Dump((sent + [s])[i]))
    {
      if i < k {
        assert LastSoFar(q, i, k) && q.Snap(q.names[k]) != q.Snap(q.names[i]);
        SameTmpSameSnap(q, q.names[i], q.names[k]);
        assert Holds(now, q.Tmp(q.names[i]), Dump(sent[i]));
      }
    }
  }

  lemma DumpedNext(q: Request, k: nat, sent: seq<Stream>, s: Stream, tmpFiles: map<string, string>,
                   before: map<string, File>, now: map<string, File>, next: map<string, File>)
    requires k < |q.names| && Dumped(q, k, sent, tmpFiles, before, now)
    requires next == now[q.Tmp(q.names[k]) := Dump(s)]
    ensures Dumped(q, k + 1, sent + [s], tmpFiles[q.Tmp(q.names[k]) := q.Snap(q.names[k])], before, next)
  {
    CompleteNext(q, sent, s, now);
    TrackedNext(q, k, tmpFiles, before, now, next);
  }

  lemma TmpFilesAreTargets(q: Request, k: nat, tmpFiles: map<string, string>, before: map<string, File>,
                           now: map<string, File>)
    requires k <= |q.names| && Tracked(q, k, tmpFiles, before, now)
    ensures Targets(tmpFiles)
  {
    forall t | t in tmpFiles ensures tmpFiles[t] !in tmpFiles {
      TargetIsSnap(q, k, tmpFiles, before, now, t);
      TmpsAndSnapsApart(q, k);
    }
  }

  lemma TargetIsSnap(q: Request, k: nat, tmpFiles: map<string, string>, before: map<string, File>,
                     now: map<string, File>, t: string)
    requires k <= |q.names| && Tracked(q, k, tmpFiles, before, now) && t in tmpFiles
    ensures tmpFiles[t] in Snaps(q)
  {
    var n :| n in q.names[..k] && t == q.Tmp(n);
    CutTmp(q.Snap(n), tmpFiles[t]);
  }

  lemma TmpsAndSnapsApart(q: Request, k: nat)
    requires k <= |q.names|
    ensures Tmps(q, k) !! Snaps(q)
  {
    forall n, m | n in q.names[..k] && m in q.names ensures q.Tmp(n) != q.Snap(m) {
      TmpIsNoDump(q.dir, n, q.TheStamp(), q.dir, m, q.TheStamp());
    }
  }

  lemma DumpedIsSettled(q: Request, sent: seq<Stream>, tmpFiles: map<string, string>,
                        before: map<string, File>, now: map<string, File>, after: map<string, File>, n: string)
    requires Dumped(q, |q.names|, sent, tmpFiles, before, now)
    requires Renaming(now, after, tmpFiles, {}) && n in q.names
    ensures q.Tmp(n) in tmpFiles && Settled(now, after, q.Tmp(n), q.Snap(n))
    ensures SameAt(before, now, q.Snap(n))
  {
    assert q.names[..|q.names|] == q.names;
    TmpsAndSnapsApart(q, |q.names|);
    assert q.Snap(n) in Snaps(q);
    CutTmp(q.Snap(n), tmpFiles[q.Tmp(n)]);
  }

  lemma DumpedIsPublished(env: Env, q: Request, sent: seq<Stream>, tmpFiles: map<string, string>,
                          before: map<string, File>, now: map<string, File>, after: map<string, File>)
    requires Dumped(q, |q.names|, sent, tmpFiles, before, now)
    requires Renaming(now, after, tmpFiles, {})
    requires forall t :: t in tmpFiles && t in after ==> t in env.unmovable
    ensures Tmps(q, |q.names|) !! after.Keys ==> Published(q, sent, before, after)
    ensures !(Tmps(q, |q.names|) !! after.Keys) ==> PartlyPublished(env, q, sent, before, after)
  {
    forall n | n in q.names
      ensures q.Tmp(n) in tmpFiles && Settled(now, after, q.Tmp(n), q.Snap(n))
      ensures SameAt(before, now, q.Snap(n))
    {
      DumpedIsSettled(q, sent, tmpFiles, before, now, after, n);
    }
    forall i | 0 <= i < |sent| && WritesLast(q, i) ensures LastSoFar(q, i, |q.names|) {
    }
    forall p | Apart(q, p) ensures SameAt(before, after, p) {
      forall t | t in tmpFiles ensures tmpFiles[t] != p {
        TargetIsSnap(q, |q.names|, tmpFiles, before, now, t);
      }
      assert p !in tmpFiles.Values;
    }
  }

  lemma SentNext(snaps: map<string, Snapshot>, q: Request, sent: seq<Stream>, s: Stream)
    requires |sent| < |q.names| && SentFor(snaps, q.names, q.lbl, sent)
    requires IsNextStream(snaps, q.names[|sent|], q.lbl, s)
    ensures SentFor(snaps, q.names, q.lbl, sent + [s])
  {
    forall i | 0 <= i < |sent + [s]| ensures IsNextStream(snaps, q.names[i], q.lbl, (sent + [s])[i]) {
      if i < |sent| {
        assert (sent + [s])[i] == sent[i];
      }
    }
  }

  /** Why dumping may stop: something does not work, or a dataset has no snapshot to send. */
  ghost predicate MayFail(env: Env, snaps: map<string, Snapshot>, q: Request) {
    || !(env.listWorks && env.openWorks && env.sendWorks)
    || (exists n :: n in q.names && Group(snaps.Keys, n, q.lbl) == {})
    || (exists n :: n in q.names && Refused(snaps, n, q.lbl))
  }

  /** One pass of the loop. `made` counts the temporary files that exist afterwards. */
  method DumpOne(driver: Driver, fs: Directory, q: Request, sent: seq<Stream>, tmpFiles: map<string, string>,
                 ghost before: map<string, File>)
    returns (ok: bool, sent': seq<Stream>, tmpFiles': map<string, string>, ghost made: nat)
    requires driver.env == fs.env && |sent| < |q.names|
    requires SentFor(driver.snaps, q.names, q.lbl, sent) && Dumped(q, |sent|, sent, tmpFiles, before, fs.files)
    modifies fs
    ensures ok ==> |sent'| == |sent| + 1 && Dumped(q, |sent'|, sent', tmpFiles', before, fs.files)
    ensures SentFor(driver.snaps, q.names, q.lbl, sent')
    ensures !ok ==> sent' == sent && |sent| <= made <= |sent| + 1 && Tracked(q, made, tmpFiles', before, fs.files)
    ensures !ok ==> MayFail(fs.env, driver.snaps, q)
  {
    sent', tmpFiles', made := sent, tmpFiles, |sent|;
    var name := q.names[|sent|];
    var snapshotFile := DumpPath(q.dir, name, q.TheStamp());
    var tmpFile := snapshotFile + ".tmp";
    assert tmpFile == q.Tmp(name);
    var created, output;
    created, ok, output := WriteOne(driver, fs, q, name, tmpFile);
    if created {
      tmpFiles', made := tmpFiles[tmpFile := snapshotFile], |sent| + 1;
    }
    if ok {
      DumpedNext(q, |sent|, sent, output, tmpFiles, before, old(fs.files), fs.files);
      SentNext(driver.snaps, q, sent, output);
      sent' := sent + [output];
    } else if created {
      TrackedNext(q, |sent|, tmpFiles, before, old(fs.files), fs.files);
    }
  }

  method SendSnapshots(driver: Driver, fs: Directory, q: Request) returns (result: Result, sent: seq<Stream>)
    requires driver.env == fs.env
    modifies fs
    ensures SentFor(driver.snaps, q.names, q.lbl, sent)
    ensures match result
      case SendFailed =>
        && MayFail(fs.env, driver.snaps, q) && |sent| < |q.names|
        && (Discarded(fs.env, q, old(fs.files), fs.files, |sent|)
            || Discarded(fs.env, q, old(fs.files), fs.files, |sent| + 1))
      case RenameFailed =>
        |sent| == |q.names| && PartlyPublished(fs.env, q, sent, old(fs.files), fs.files)
      case Done =>
        |sent| == |q.names| && Published(q, sent, old(fs.files), fs.files)
      case _ => false
  {
    sent := [];
    var ok := true;
    var tmpFiles: map<string, string> := map[];
    ghost var made := 0;
    while ok && |sent| < |q.names|
      invariant |sent| <= |q.names|
      invariant ok ==> Dumped(q, |sent|, sent, tmpFiles, old(fs.files), fs.files)
      invariant SentFor(driver.snaps, q.names, q.lbl, sent)
      invariant !ok ==> |sent| <= made <= |sent| + 1 <= |q.names|
      invariant !ok ==> Tracked(q, made, tmpFiles, old(fs.files), fs.files)
      invariant !ok ==> MayFail(fs.env, driver.snaps, q)
      decreases ok, |q.names| - |sent|
    {
      ok, sent, tmpFiles, made := DumpOne(driver, fs, q, sent, tmpFiles, old(fs.files));
    }
    ghost var now := fs.files;
    if !ok {
      RemoveAll(fs, tmpFiles);
      TrackedIsDiscarded(fs.env, q, made, tmpFiles, old(fs.files), now, fs.files);
      result := SendFailed;
    } else {
      TmpFilesAreTargets(q, |sent|, tmpFiles, old(fs.files), now);
      var renamed := RenameAll(fs, tmpFiles);
      DumpedIsPublished(fs.env, q, sent, tmpFiles, old(fs.files), now, fs.files);
      result := if renamed then Done else RenameFailed;
    }
  }

  lemma TrackedIsDiscarded(env: Env, q: Request, made: nat, tmpFiles: map<string, string>,
                           before: map<string, File>, now: map<string, File>, after: map<string, File>)
    requires made <= |q.names| && Tracked(q, made, tmpFiles, before, now)
    requires forall p :: p !in tmpFiles ==> SameAt(now, after, p)
    requires forall p :: p in tmpFiles && p in after ==> p in env.unremovable
    ensures Discarded(env, q, before, after, made)
  {
    forall p | p !in tmpFiles ensures SameAt(before, after, p) {
      assert SameAt(before, now, p) && SameAt(now, after, p);
    }
  }

  /** Opens the temporary file and writes the stream of one dataset to it. */
  method WriteOne(driver: Driver, fs: Directory, q: Request, name: string, tmpFile: string)
    returns (created: bool, ok: bool, output: Stream)
    requires driver.env == fs.env && name in q.names
    modifies fs
    ensures ok ==> created && IsNextStream(driver.snaps, name, q.lbl, output)
    ensures ok ==> fs.files == old(fs.files)[tmpFile := Dump(output)]
    ensures !ok ==> MayFail(fs.env, driver.snaps, q)
    ensures !created ==> fs.files == old(fs.files)
    ensures forall p :: p != tmpFile ==> SameAt(old(fs.files), fs.files, p)
  {
    output := Full("", map[]);
    ok := false;
    created := fs.Create(tmpFile);
    if !created { return; }
    var snapshots, from, to;
    ok, snapshots := driver.Snapshots(name);
    if !ok { return; }
    ListedGroup(driver.snaps.Keys, name, q.lbl, snapshots);
    from, to, ok := Newest(snapshots, name, q.lbl);
    if !ok { return; }
    var data;
    ok, data := driver.SendSnapshots(from, to);
    fs.Write(tmpFile, data);
    if ok {
      output := data.stream;
    } else if fs.env.sendWorks {
      assert Refused(driver.snaps, name, q.lbl);
    }
  }

  // ----- TakeSnapshot -----

  function NewNamesInOrder(q: Request): seq<string>
  {
    seq(|q.names|, i requires 0 <= i < |q.names| => q.New(q.names[i]))
  }

  /** The nested loops: the freshness check, the pool of old snapshots and the new names. */
  method Prepare(all: seq<string>, q: Request) returns (ok: bool, oldSnapshots: seq<string>, newSnapshots: seq<string>)
    ensures ok <==> Fresh(Elements(all), q)
    ensures ok ==> oldSnapshots == Pool(all, q.names) && newSnapshots == NewNamesInOrder(q)
  {
    oldSnapshots, newSnapshots := [], [];
    for i := 0 to |q.names|
      invariant oldSnapshots == Pool(all, q.names[..i])
      invariant newSnapshots == NewNamesInOrder(q)[..i]
      invariant forall n, s :: n in q.names[..i] && s in all ==> !HasSuffix(s, q.New(n))
    {
      var n := q.names[i];
      var fullName := FullName(n, q.TheStamp());
      ghost var before := oldSnapshots;
      for j := 0 to |all|
        invariant oldSnapshots == before + SnapshotsOf(all[..j], n)
        invariant forall s :: s in all[..j] ==> !HasSuffix(s, fullName)
      {
        assert all[..j + 1][..j] == all[..j];
        if HasSuffix(all[j], fullName) {
          assert all[j] in Elements(all) && n in q.names && HasSuffix(all[j], q.New(n));
          return false, oldSnapshots, newSnapshots;
        }
        if HasPrefix(all[j], n + "@") {
          oldSnapshots := oldSnapshots + [all[j]];
        }
      }
      assert all[..|all|] == all;
      assert q.names[..i + 1][..i] == q.names[..i];
      newSnapshots := newSnapshots + [fullName];
    }
    assert q.names[..|q.names|] == q.names;
    ok := true;
  }

  lemma NewNamesElements(q: Request)
    ensures Elements(NewNamesInOrder(q)) == q.AllNew() && "" !in q.AllNew()
  {
    var s := NewNamesInOrder(q);
    forall x ensures x in Elements(s) <==> x in q.AllNew() {
      if x in s {
        var i :| 0 <= i < |s| && s[i] == x;
      }
      if x in q.AllNew() {
        var n :| n in q.names && x == q.New(n);
        var i :| 0 <= i < |q.names| && q.names[i] == n;
        assert s[i] == x;
      }
    }
  }

  /** Deleting the new names after a failed or a successful creation leads back. */
  lemma RollbackRestores(env: Env, before: map<string, Snapshot>, mid: map<string, Snapshot>,
                         after: map<string, Snapshot>, new': set<string>)
    requires before.Keys !! new'
    requires Extends(before, mid) && mid.Keys <= before.Keys + new'
    requires Rotated(env, mid, after, new')
    ensures RolledBack(env, before, after, new')
  {
  }

  /** The loop that deletes the new snapshots after a failure. */
  method Rollback(driver: Driver, newSnapshots: seq<string>, q: Request, ghost before: map<string, Snapshot>)
    requires newSnapshots == NewNamesInOrder(q) && before.Keys !! q.AllNew()
    requires Extends(before, driver.snaps) && driver.snaps.Keys <= before.Keys + q.AllNew()
    modifies driver`snaps
    ensures RolledBack(driver.env, before, driver.snaps, q.AllNew())
  {
    NewNamesElements(q);
    DeleteAll(driver, newSnapshots);
    RollbackRestores(driver.env, before, old(driver.snaps), driver.snaps, q.AllNew());
  }

  lemma {:induction false} PoolHasNames(all: seq<string>, names: seq<string>)
    ensures "" !in Pool(all, names)
  {
    if names != [] {
      PoolHasNames(all, names[..|names| - 1]);
      SnapshotsHaveNames(all, names[|names| - 1]);
    }
  }

  lemma {:induction false} SnapshotsHaveNames(all: seq<string>, n: string)
    ensures "" !in SnapshotsOf(all, n)
  {
    if all != [] {
      SnapshotsHaveNames(all[..|all| - 1], n);
    }
  }

  lemma NewIsInGroup(snaps: map<string, Snapshot>, q: Request, n: string)
    requires AllLive(q.live, q.names) && n in q.names
    ensures Group((snaps + Taken(q.live, q.names, q.TheStamp(), q.txg)).Keys, n, q.lbl) != {}
  {
    var s := q.New(n);
    assert s == GroupPrefix(n, q.lbl) + Format(q.clock);
    assert s in q.AllNew();
    assert s in Group((snaps + Taken(q.live, q.names, q.TheStamp(), q.txg)).Keys, n, q.lbl);
  }

  /** After creation every group has a member, so a stream that is not sent was refused, or
      something did not work. */
  lemma FailureHasReason(env: Env, s: State, q: Request)
    requires AllLive(q.live, q.names)
    ensures MayFail(env, Mid(s, q), q) ==> !(env.listWorks && env.openWorks && env.sendWorks && Sendable(s, q))
  {
    forall n | n in q.names ensures Group(Mid(s, q).Keys, n, q.lbl) != {} {
      NewIsInGroup(s.snaps, q, n);
    }
  }

  method TakeSnapshot(driver: Driver, fs: Directory, q: Request) returns (result: Result, ghost run: Run)
    requires driver.env == fs.env && driver.live == q.live && driver.txg == q.txg
    modifies driver`snaps, fs
    ensures run.env == driver.env && run.req == q && run.result == result
    ensures run.after == State(driver.snaps, fs.files)
    ensures Step(State(old(driver.snaps), old(fs.files)), run)
  {
    var sent: seq<Stream> := [];
    var ok, allSnapshots := driver.Snapshots("");
    if !ok {
      result := ListFailed;
    } else {
      assert Elements(allSnapshots) == driver.snaps.Keys;
      var oldSnapshots, newSnapshots;
      ok, oldSnapshots, newSnapshots := Prepare(allSnapshots, q);
      if !ok {
        result := AlreadyExists;
      } else {
        PoolHasNames(allSnapshots, q.names);
        result, sent := Commit(driver, fs, q, oldSnapshots, newSnapshots);
      }
    }
    run := Run(driver.env, q, allSnapshots, result, sent, State(driver.snaps, fs.files));
  }

  /** The part of TakeSnapshot that has effects. */
  method Commit(driver: Driver, fs: Directory, q: Request, oldSnapshots: seq<string>, newSnapshots: seq<string>)
    returns (result: Result, sent: seq<Stream>)
    requires driver.env == fs.env && driver.live == q.live && driver.txg == q.txg
    requires Fresh(driver.snaps.Keys, q) && newSnapshots == NewNamesInOrder(q) && "" !in oldSnapshots
    modifies driver`snaps, fs
    ensures Ends(result, driver.env, State(old(driver.snaps), old(fs.files)), q, oldSnapshots, sent,
                 State(driver.snaps, fs.files))
  {
    FreshIsNew(driver.snaps.Keys, q);
    NewNamesElements(q);
    sent := [];
    var created := driver.CreateSnapshots(q.names, q.TheStamp());
    if !created {
      Rollback(driver, newSnapshots, q, old(driver.snaps));
      return CreateFailed, sent;
    }
    if q.send {
      FailureHasReason(driver.env, State(old(driver.snaps), old(fs.files)), q);
      result, sent := SendSnapshots(driver, fs, q);
      if result != Done {
        Rollback(driver, newSnapshots, q, old(driver.snaps));
        return;
      }
    }
    result := Done;
    if q.keep != 0 {
      var panics := Cleanup(driver, oldSnapshots, q.keep);
      if panics {
        result := Panicked;
      }
    }
  }
}
