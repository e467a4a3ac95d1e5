/**
 A well-placed call succeeds in every run, and there is such a run. So the conditions of
 Rotation, Outcomes and Chains fail on actual runs: for each of them there is a call all of
 whose runs succeed and show it.
 */
module Successes {
  import opened Text
  import opened WallClock
  import opened Names
  import opened Streams
  import opened Stores
  import opened Runs
  import opened Rotation
  import opened ZfsSnapshots
  import opened Outcomes
  import opened Chains

  // ----- a successful run for every well-placed call -----

  lemma SomeStream(snaps: map<string, Snapshot>, n: string, l: string) returns (s: Stream)
    requires Group(snaps.Keys, n, l) != {} && !Refused(snaps, n, l)
    ensures IsNextStream(snaps, n, l, s)
  {
    var from, to := SomePair(Group(snaps.Keys, n, l));
    s := StreamOf(snaps, from, to);
  }

  lemma SomeStreams(snaps: map<string, Snapshot>, q: Request) returns (sent: seq<Stream>)
    requires forall n :: n in q.names ==> Group(snaps.Keys, n, q.lbl) != {} && !Refused(snaps, n, q.lbl)
    ensures |sent| == |q.names| && SentFor(snaps, q.names, q.lbl, sent)
  {
    sent := [];
    while |sent| < |q.names|
      invariant |sent| <= |q.names| && SentFor(snaps, q.names, q.lbl, sent)
    {
      var s := SomeStream(snaps, q.names[|sent|], q.lbl);
      SentNext(snaps, q, sent, s);
      sent := sent + [s];
    }
  }

  /** The files hold the first k dumps, each unless a later one took its place. */
  ghost predicate HoldsFirst(files: map<string, File>, after: map<string, File>, q: Request, sent: seq<Stream>, k: nat)
    requires k <= |sent| == |q.names|
  {
    && Tmps(q, |q.names|) !! after.Keys
    && (forall i :: 0 <= i < k ==> q.Snap(q.names[i]) in after)
    && (forall i {:trigger sent[i]} :: 0 <= i < k && LastSoFar(q, i, k) ==>
          Holds(after, q.Snap(q.names[i]), Dump(sent[i])))
    && (forall p :: Apart(q, p) ==> SameAt(files, after, p))
  }

  lemma NothingHeld(files: map<string, File>, q: Request, sent: seq<Stream>)
    requires |sent| == |q.names|
    ensures HoldsFirst(files, files - Tmps(q, |q.names|), q, sent, 0)
  {
  }

  lemma PutDump(files: map<string, File>, now: map<string, File>, q: Request, sent: seq<Stream>, k: nat)
    requires k < |sent| == |q.names| && HoldsFirst(files, now, q, sent, k)
    ensures HoldsFirst(files, now[q.Snap(q.names[k]) := Dump(sent[k])], q, sent, k + 1)
  {
    var p := q.Snap(q.names[k]);
    var next := now[p := Dump(sent[k])];
    TmpsAndSnapsApart(q, |q.names|);
    assert p in Snaps(q);
    forall i | 0 <= i < k + 1 && LastSoFar(q, i, k + 1)
      ensures Holds(next, q.Snap(q.names[i]), Dump(sent[i]))
    {
      if i < k {
        assert LastSoFar(q, i, k) && q.Snap(q.names[i]) != p;
      }
    }
    forall x | Apart(q, x) ensures SameAt(files, next, x) {
      assert x != p && SameAt(files, now, x);
    }
  }

  /** The directory with all dumps under their final names. */
  lemma SomeFiles(files: map<string, File>, q: Request, sent: seq<Stream>) returns (after: map<string, File>)
    requires |sent| == |q.names|
    ensures Published(q, sent, files, after)
  {
    after := files - Tmps(q, |q.names|);
    NothingHeld(files, q, sent);
    for k := 0 to |sent|
      invariant HoldsFirst(files, after, q, sent, k)
    {
      PutDump(files, after, q, sent, k);
      after := after[q.Snap(q.names[k]) := Dump(sent[k])];
    }
    HeldIsPublished(files, after, q, sent);
  }

  lemma HeldIsPublished(files: map<string, File>, after: map<string, File>, q: Request, sent: seq<Stream>)
    requires |sent| == |q.names| && HoldsFirst(files, after, q, sent, |sent|)
    ensures Published(q, sent, files, after)
  {
    forall i | 0 <= i < |sent| && WritesLast(q, i) ensures LastSoFar(q, i, |sent|) {
    }
    forall p | p in Snaps(q) ensures p in after {
      var n :| n in q.names && p == q.Snap(n);
      var i :| 0 <= i < |q.names| && q.names[i] == n;
    }
  }

  /** One of the runs that a call can have when everything works. */
  ghost predicate IsRun(s: State, q: Request, r: Run) {
    Step(s, r) && r.req == q && r.env == ALL_WORKS
  }

  /** A call that nothing speaks against. */
  ghost predicate WellPlaced(s: State, q: Request) {
    && Fresh(s.snaps.Keys, q) && AllLive(q.live, q.names) && Distinct(q.names)
    && q.keep >= 0 && (q.send ==> Sendable(s, q))
  }

  /** Whatever lies in the stores, such a call has a run, and all its runs succeed. */
  lemma SuccessIsCertain(s: State, q: Request) returns (r: Run)
    requires WellPlaced(s, q)
    ensures IsRun(s, q, r)
    ensures forall x :: IsRun(s, q, x) ==> x.result == Done
  {
    r := SuccessIsPossible(s, q);
    forall x | IsRun(s, q, x) ensures x.result == Done {
      SucceedsExactly(s, x);
    }
  }

  lemma SuccessIsPossible(s: State, q: Request) returns (r: Run)
    requires WellPlaced(s, q)
    ensures IsRun(s, q, r) && r.result == Done
  {
    var listing := SomeListing(s.snaps.Keys);
    var sent, files := [], s.files;
    if q.send {
      forall n | n in q.names ensures Group(Mid(s, q).Keys, n, q.lbl) != {} {
        NewIsInGroup(s.snaps, q, n);
      }
      sent := SomeStreams(Mid(s, q), q);
      files := SomeFiles(s.files, q, sent);
    }
    var snaps := SnapsWith(s, q, listing);
    r := Run(ALL_WORKS, q, listing, Done, sent, State(snaps, files));
    RotatedSnaps(s, q, listing);
    assert Lists(s.snaps.Keys, "", listing) by {
      assert forall x :: x in listing <==> x in Elements(listing);
    }
    assert EndsDone(ALL_WORKS, s, q, Pool(listing, q.names), sent, r.after);
  }

  ghost function SnapsWith(s: State, q: Request, listing: seq<string>): map<string, Snapshot>
    requires AllLive(q.live, q.names)
  {
    if q.keep == 0 then Mid(s, q) else Mid(s, q) - Doomed(Pool(listing, q.names), q.keep)
  }

  lemma RotatedSnaps(s: State, q: Request, listing: seq<string>)
    requires AllLive(q.live, q.names)
    ensures if q.keep == 0 then SnapsWith(s, q, listing) == Mid(s, q)
            else Rotated(ALL_WORKS, Mid(s, q), SnapsWith(s, q, listing), Doomed(Pool(listing, q.names), q.keep))
  {
  }

  /** With no snapshot of the groups there, all streams are full and none is refused. */
  lemma EmptyGroupsSendable(s: State, q: Request)
    requires AllLive(q.live, q.names) && AtFree(q.names)
    requires forall n, x :: n in q.names && x in s.snaps ==> !InGroup(x, n, q.lbl)
    ensures Sendable(s, q)
  {
    forall n | n in q.names ensures !Refused(Mid(s, q), n, q.lbl) {
      OwnGroup(s, q, n);
      MidContents(s, q, n);
      assert Group(Mid(s, q).Keys, n, q.lbl) == {q.New(n)};
      LeReflexive(q.New(n));
      PairIsRefused(Mid(s, q), n, q.lbl, "", q.New(n));
    }
  }

  // ----- retention per dataset is broken -----

  const DATA := "data"
  const HOME := "home"

  lemma OneOldEach()
    ensures var snaps := {"data@x", "home@x"};
      && Of(snaps, DATA) == {"data@x"} && Of(snaps, HOME) == {"home@x"}
      && Listed(snaps, [DATA, HOME]) == snaps
  {
    var a, b := "data@x", "home@x";
    assert a[..5] == DATA + "@" && b[..5] == HOME + "@" && a[0] != b[0];
    assert [DATA, HOME][0] == DATA && [DATA, HOME][1] == HOME;
  }

  lemma ShortIsFresh(snaps: set<string>, q: Request)
    requires forall x :: x in snaps ==> |x| <= WIDTH
    ensures Fresh(snaps, q)
  {
  }

  lemma TwoDatasets(q: Request)
    requires q.names == [DATA, HOME]
    ensures DATA in q.names && HOME in q.names && AtFree(q.names) && Distinct(q.names)
  {
    assert q.names[0] == DATA && q.names[1] == HOME;
  }

  lemma ShortIsInNoGroup(x: string, n: string, l: string)
    requires |x| <= |n| + |l| + 1
    ensures !InGroup(x, n, l)
  {
  }

  lemma RetentionCall(s: State, q: Request)
    requires s.snaps.Keys == {"data@x", "home@x"} && q.names == [DATA, HOME] && q.lbl == "backup" && q.keep == 2
    requires DATA in q.live && HOME in q.live
    ensures WellPlaced(s, q) && AtFree(q.names)
  {
    TwoDatasets(q);
    ShortIsFresh(s.snaps.Keys, q);
    forall n, x | n in q.names && x in s.snaps ensures !InGroup(x, n, q.lbl) {
      ShortIsInNoGroup(x, n, q.lbl);
    }
    EmptyGroupsSendable(s, q);
  }

  /** A call like that of the backup script, two datasets under one label, loses old
      snapshots of one of them: here keep is 2, each dataset has one old snapshot, and
      every run succeeds and leaves one dataset without its old snapshot. */
  lemma RetentionBreaks(t: Clock, send: bool, c: Contents, txg: nat, files: map<string, File>)
    returns (s: State, q: Request, r: Run)
    ensures s == State(map["data@x" := Snapshot(c, 0), "home@x" := Snapshot(c, 0)], files)
    ensures q == Request([DATA, HOME], "backup", t, 2, send, "/backup", map[DATA := c, HOME := c], txg)
    ensures IsRun(s, q, r)
    ensures forall x :: IsRun(s, q, x) ==>
      x.result == Done && !KeepsPerDataset(s.snaps.Keys, q.names, q.keep, x.after.snaps.Keys)
  {
    s := State(map["data@x" := Snapshot(c, 0), "home@x" := Snapshot(c, 0)], files);
    q := Request([DATA, HOME], "backup", t, 2, send, "/backup", map[DATA := c, HOME := c], txg);
    assert s.snaps.Keys == {"data@x", "home@x"};
    RetentionCall(s, q);
    r := SuccessIsCertain(s, q);
    RetentionOfTwo(s.snaps.Keys, q.names);
    forall x | IsRun(s, q, x) ensures !KeepsPerDataset(s.snaps.Keys, q.names, q.keep, x.after.snaps.Keys) {
      TwoDatasets(q);
      assert x.result == Done;
      PerDatasetExactly(s, x);
    }
  }

  lemma RetentionOfTwo(snaps: set<string>, names: seq<string>)
    requires snaps == {"data@x", "home@x"} && names == [DATA, HOME]
    ensures |Listed(snaps, names)| == 2 && !OneDataset(snaps, names)
  {
    OneOldEach();
    assert names[0] == DATA && names[1] == HOME && DATA != HOME;
  }

  // ----- a dump is lost -----

  ghost predicate LosesDump(r: Run) {
    |r.sent| == |r.req.names|
    && exists i :: 0 <= i < |r.sent| && !Holds(r.after.files, r.req.Snap(r.req.names[i]), Dump(r.sent[i]))
  }

  /** Two datasets of one dash form: every run succeeds, and a dump is not there. */
  lemma DumpIsLost(s: State, q: Request) returns (r: Run)
    requires WellPlaced(s, q) && q.send && AtFree(q.names) && !DashFormsDiffer(q.names)
    ensures IsRun(s, q, r)
    ensures forall x :: IsRun(s, q, x) ==> x.result == Done && LosesDump(x)
  {
    r := SuccessIsCertain(s, q);
    forall x | IsRun(s, q, x) ensures LosesDump(x) {
      assert x.result == Done;
      EveryDumpKeptExactly(s, x);
    }
  }

  const NESTED := "a/b"
  const FLAT := "a-b"

  /** For instance for `a/b` and `a-b`, starting from nothing. */
  lemma SlashAndDash(t: Clock, l: string, dir: string, c: Contents, d: Contents, txg: nat)
    returns (s: State, q: Request, r: Run)
    ensures s == State(map[], map[])
    ensures q == Request([NESTED, FLAT], l, t, 0, true, dir, map[NESTED := c, FLAT := d], txg)
    ensures IsRun(s, q, r)
    ensures forall x :: IsRun(s, q, x) ==> x.result == Done && LosesDump(x)
  {
    s := State(map[], map[]);
    q := Request([NESTED, FLAT], l, t, 0, true, dir, map[NESTED := c, FLAT := d], txg);
    OneDashForm(q.names);
    EmptyGroupsSendable(s, q);
    r := DumpIsLost(s, q);
  }

  lemma OneDashForm(names: seq<string>)
    requires names == [NESTED, FLAT]
    ensures AtFree(names) && Distinct(names) && !DashFormsDiffer(names)
  {
    assert Dashed(NESTED) == FLAT && Dashed(FLAT) == FLAT;
    assert names[0] == NESTED && names[1] == FLAT && NESTED[1] != FLAT[1];
  }

  // ----- the clock is set back -----

  function SnapAt(n: string, l: string, t: Clock): string {
    FullName(n, Stamp(l, t))
  }

  lemma OneName(q: Request, n: string)
    requires q.names == [n]
    ensures n in q.names && Distinct(q.names) && (Free('@', n) ==> AtFree(q.names))
  {
    assert q.names[0] == n;
  }

  lemma OtherTimesAreFresh(snaps: set<string>, q: Request, n: string)
    requires q.names == [n] && forall x :: x in snaps ==> |x| == |q.New(n)| && x != q.New(n)
    ensures Fresh(snaps, q)
  {
    forall x | x in snaps ensures !HasSuffix(x, q.New(n)) {
      assert x[0..] == x;
    }
  }

  lemma InOwnGroup(n: string, l: string, t: Clock)
    ensures InGroup(SnapAt(n, l, t), n, l)
  {
    assert SnapAt(n, l, t) == GroupPrefix(n, l) + Format(t);
  }

  /** After a clock was set back behind two snapshots, every run succeeds and sends the
      difference between these two again instead of its own snapshot: whatever the dataset
      and the label are. */
  lemma ClockSetBack(n: string, l: string, t: Clock, a: Clock, b: Clock, dir: string, c: Contents, d: Contents,
                     e: Contents)
    returns (s: State, q: Request, r: Run)
    requires Before(t, a) && Before(a, b) && Free('@', n)
    ensures s == State(map[SnapAt(n, l, a) := Snapshot(c, 0), SnapAt(n, l, b) := Snapshot(d, 1)], map[])
    ensures q == Request([n], l, t, 0, true, dir, map[n := e], 2)
    ensures IsRun(s, q, r)
    ensures forall x :: IsRun(s, q, x) ==>
      x.result == Done && x.sent == [Incremental(SnapAt(n, l, a), SnapAt(n, l, b), Diff(c, d))]
  {
    s := State(map[SnapAt(n, l, a) := Snapshot(c, 0), SnapAt(n, l, b) := Snapshot(d, 1)], map[]);
    q := Request([n], l, t, 0, true, dir, map[n := e], 2);
    OneName(q, n);
    TimesOrder(n, l, t, a, b);
    TwoAhead(s, q, n, l, a, b);
    r := SuccessIsCertain(s, q);
    forall x | IsRun(s, q, x) ensures x.sent == [StreamOf(Mid(s, q), SnapAt(n, l, a), SnapAt(n, l, b))] {
      assert x.result == Done;
      SentAgain(s, x, n, SnapAt(n, l, a), SnapAt(n, l, b));
    }
    MidOld(s, q);
  }

  lemma MidOld(s: State, q: Request)
    requires AllLive(q.live, q.names) && s.snaps.Keys !! q.AllNew()
    ensures forall x :: x in s.snaps ==> x in Mid(s, q) && Mid(s, q)[x] == s.snaps[x]
  {
  }

  lemma TimesOrder(n: string, l: string, t: Clock, a: Clock, b: Clock)
    requires Before(t, a) && Before(a, b)
    ensures Lt(SnapAt(n, l, t), SnapAt(n, l, a)) && Lt(SnapAt(n, l, a), SnapAt(n, l, b))
    ensures Lt(SnapAt(n, l, t), SnapAt(n, l, b))
  {
    GroupOrder(n, l, t, a);
    GroupOrder(n, l, a, b);
    LeTransitive(SnapAt(n, l, t), SnapAt(n, l, a), SnapAt(n, l, b));
    if SnapAt(n, l, t) == SnapAt(n, l, b) {
      LeAntisymmetric(SnapAt(n, l, t), SnapAt(n, l, a));
    }
  }

  lemma TwoAhead(s: State, q: Request, n: string, l: string, a: Clock, b: Clock)
    requires Before(q.clock, a) && Before(a, b) && Free('@', n) && q.names == [n] && q.lbl == l && n in q.live
    requires s.snaps.Keys == {SnapAt(n, l, a), SnapAt(n, l, b)} && q.keep >= 0
    requires s.snaps[SnapAt(n, l, a)].born < s.snaps[SnapAt(n, l, b)].born
    ensures AllLive(q.live, q.names)
    ensures NewestPair(Group(Mid(s, q).Keys, n, l), SnapAt(n, l, a), SnapAt(n, l, b))
    ensures s.snaps.Keys !! q.AllNew() && WellPlaced(s, q)
  {
    OneName(q, n);
    TimesOrder(n, l, q.clock, a, b);
    TwoAreFresh(s.snaps.Keys, q, n, a, b);
    OwnGroup(s, q, n);
    TwoInGroup(s.snaps.Keys, n, l, a, b);
    LastOfThree(q.New(n), SnapAt(n, l, a), SnapAt(n, l, b));
    MidOld(s, q);
    PairIsRefused(Mid(s, q), n, l, SnapAt(n, l, a), SnapAt(n, l, b));
  }

  lemma TwoAreFresh(snaps: set<string>, q: Request, n: string, a: Clock, b: Clock)
    requires q.names == [n] && snaps == {SnapAt(n, q.lbl, a), SnapAt(n, q.lbl, b)}
    requires q.New(n) != SnapAt(n, q.lbl, a) && q.New(n) != SnapAt(n, q.lbl, b)
    ensures Fresh(snaps, q) && snaps !! q.AllNew()
  {
    OtherTimesAreFresh(snaps, q, n);
    FreshIsNew(snaps, q);
  }

  lemma TwoInGroup(snaps: set<string>, n: string, l: string, a: Clock, b: Clock)
    requires snaps == {SnapAt(n, l, a), SnapAt(n, l, b)}
    ensures Group(snaps, n, l) == snaps
  {
    InOwnGroup(n, l, a);
    InOwnGroup(n, l, b);
  }

  lemma LastOfThree(x: string, y: string, z: string)
    requires Lt(x, y) && Lt(y, z) && Le(x, z)
    ensures NewestPair({y, z} + {x}, y, z)
  {
    LeReflexive(y);
    LeReflexive(z);
    assert y in {y, z} + {x} && {y, z} + {x} != {z};
  }

  lemma SentAgain(s: State, r: Run, n: string, from: string, to: string)
    requires Step(s, r) && r.result == Done && r.req.send && r.req.names == [n] && AllLive(r.req.live, r.req.names)
    requires NewestPair(Group(Mid(s, r.req).Keys, n, r.req.lbl), from, to)
    requires from in Mid(s, r.req) && to in Mid(s, r.req)
    ensures r.sent == [StreamOf(Mid(s, r.req), from, to)]
  {
    assert r.req.names[0] == n;
    var st := r.sent[0];
    assert IsNextStream(Mid(s, r.req), n, r.req.lbl, st);
    NewestPairUnique(Group(Mid(s, r.req).Keys, n, r.req.lbl), st.From(), st.to, from, to);
  }

  /** After a clock was set back behind exactly one snapshot, no sending run succeeds: the
      difference would lead from the new snapshot back to the old one. The run is rolled back. */
  lemma ClockSetBackBehindOne(s: State, r: Run, n: string, a: Clock)
    requires Step(s, r) && r.env == ALL_WORKS && r.req.send && Distinct(r.req.names)
    requires n in r.req.names && AtFree(r.req.names) && AllLive(r.req.live, r.req.names)
    requires forall x :: x in s.snaps ==> s.snaps[x].born < r.req.txg
    requires Ahead(Group(s.snaps.Keys, n, r.req.lbl), r.req.New(n)) == {SnapAt(n, r.req.lbl, a)}
    ensures !Completes(r.result) && r.after.snaps == s.snaps
  {
    SucceedsExactly(s, r);
    if Completes(r.result) {
      FreshIsNew(s.snaps.Keys, r.req);
      RefusedExactly(s, r.req, n);
      TwoOfOne(Group(s.snaps.Keys, n, r.req.lbl), r.req.New(n), SnapAt(n, r.req.lbl, a));
    }
  }

  /** The two greatest members cannot both be ahead if only one is. */
  lemma TwoOfOne(g: set<string>, new': string, only: string)
    requires Ahead(g, new') == {only}
    ensures forall from, to :: NewestPair(g, from, to) ==> from !in Ahead(g, new')
  {
    forall from, to | NewestPair(g, from, to) ensures from !in Ahead(g, new') {
      AheadUpwards(g, new', from, to);
    }
  }

  lemma AheadUpwards(g: set<string>, new': string, from: string, to: string)
    requires NewestPair(g, from, to)
    ensures from in Ahead(g, new') ==> from != to && to in Ahead(g, new')
  {
    if from in Ahead(g, new') {
      LeTransitive(new', from, to);
      if to == new' {
        LeAntisymmetric(from, to);
      }
    }
  }
}
