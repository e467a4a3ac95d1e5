/**
 What a single run guarantees to its caller.
 */
module Outcomes {
  import opened Text
  import opened WallClock
  import opened Names
  import opened Streams
  import opened Stores
  import opened Runs
  import opened Rotation
  import opened ZfsSnapshots
  import opened Chains

  const ALL_WORKS := Env(true, true, true, true, {}, {}, {})

  // ----- when a call succeeds -----

  /** With everything working, a call for distinct datasets does its work exactly if the
      datasets exist, no snapshot ends in one of the new names, and, if it sends, no stream is
      refused. Otherwise it changes no snapshot. */
  lemma SucceedsExactly(s: State, r: Run)
    requires Step(s, r) && r.env == ALL_WORKS && Distinct(r.req.names)
    ensures var q := r.req;
      Completes(r.result) <==> Fresh(s.snaps.Keys, q) && AllLive(q.live, q.names) && (q.send ==> Sendable(s, q))
    ensures !Completes(r.result) ==> r.after.snaps == s.snaps
    ensures r.req.keep >= 0 ==> r.result != Panicked
  {
    if Completes(r.result) && r.req.send {
      SentIsSendable(s, r);
    }
  }

  lemma SentIsSendable(s: State, r: Run)
    requires Step(s, r) && Completes(r.result) && r.req.send
    ensures AllLive(r.req.live, r.req.names) && Sendable(s, r.req)
  {
    forall n | n in r.req.names ensures !Refused(Mid(s, r.req), n, r.req.lbl) {
      var i :| 0 <= i < |r.req.names| && r.req.names[i] == n;
      assert IsNextStream(Mid(s, r.req), n, r.req.lbl, r.sent[i]);
      NextIsNotRefused(Mid(s, r.req), n, r.req.lbl, r.sent[i]);
    }
  }

  lemma NextIsNotRefused(snaps: map<string, Snapshot>, n: string, l: string, st: Stream)
    requires IsNextStream(snaps, n, l, st)
    ensures !Refused(snaps, n, l)
  {
    forall from, to | NewestPair(Group(snaps.Keys, n, l), from, to) ensures MaySend(snaps, from, to) {
      NewestPairUnique(Group(snaps.Keys, n, l), st.From(), st.to, from, to);
    }
  }

  lemma OwnNew(q: Request, n: string)
    requires AtFree(q.names) && n in q.names
    ensures Group(q.AllNew(), n, q.lbl) == {q.New(n)}
  {
    forall m | m in q.names ensures InGroup(q.New(m), n, q.lbl) <==> m == n {
      FullNameOf(m, q.TheStamp(), n);
      if InGroup(q.New(m), n, q.lbl) {
        GroupInDataset(q.New(m), n, q.lbl);
      }
      NewHasPrefix(q, n);
    }
  }

  lemma NewHasPrefix(q: Request, n: string)
    ensures InGroup(q.New(n), n, q.lbl)
  {
    assert q.New(n) == GroupPrefix(n, q.lbl) + Format(q.clock);
  }

  /** The call adds to the group of its own label exactly one member. */
  lemma OwnGroup(s: State, q: Request, n: string)
    requires AllLive(q.live, q.names) && AtFree(q.names) && n in q.names
    ensures Group(Mid(s, q).Keys, n, q.lbl) == Group(s.snaps.Keys, n, q.lbl) + {q.New(n)}
    ensures Mid(s, q)[q.New(n)] == Snapshot(q.live[n], q.txg)
  {
    OwnNew(q, n);
    GroupUnion(s.snaps.Keys, q.AllNew(), n, q.lbl);
    MidContents(s, q, n);
  }

  lemma SomeListing(all: set<string>) returns (listing: seq<string>)
    ensures Distinct(listing) && Elements(listing) == all
  {
    if all == {} {
      return [];
    }
    var x :| x in all;
    var rest := SomeListing(all - {x});
    assert x !in Elements(rest);
    listing := rest + [x];
    assert Elements(listing) == Elements(rest) + {x};
  }

  lemma SomePair(group: set<string>) returns (from: string, to: string)
    requires group != {}
    ensures NewestPair(group, from, to)
  {
    var listing := SomeListing(group);
    var sorted := Sort(listing);
    SortedGroup(listing);
    if |sorted| == 1 {
      from, to := "", sorted[0];
    } else {
      from, to := sorted[|sorted| - 2], sorted[|sorted| - 1];
    }
  }

  /** The old snapshots of the group with a greater name than the new one, as after the clock
      was set back. */
  ghost function Ahead(group: set<string>, new': string): set<string> {
    set x | x in group && Lt(new', x)
  }

  /** A stream can be sent exactly if no old member of the group is ahead of the new one, or
      at least two are and the newest two by name were made in this order. If exactly one is
      ahead, the difference would have to go back in time. */
  lemma RefusedExactly(s: State, q: Request, n: string)
    requires AllLive(q.live, q.names) && AtFree(q.names) && n in q.names && s.snaps.Keys !! q.AllNew()
    requires forall x :: x in s.snaps ==> s.snaps[x].born < q.txg
    ensures var g := Group(s.snaps.Keys, n, q.lbl);
      !Refused(Mid(s, q), n, q.lbl) <==>
        || Ahead(g, q.New(n)) == {}
        || exists from, to :: NewestPair(g, from, to) && from in Ahead(g, q.New(n)) && MaySend(s.snaps, from, to)
  {
    var g, new', mid := Group(s.snaps.Keys, n, q.lbl), q.New(n), Mid(s, q);
    OwnGroup(s, q, n);
    var from, to := SomePair(g + {new'});
    PairIsRefused(mid, n, q.lbl, from, to);
    assert new' !in g && (forall x :: x in g ==> x in s.snaps && mid[x] == s.snaps[x]);
    assert forall x :: x in g ==> x != "" && x in mid;
    if Ahead(g, new') == {} {
      NoneAhead(g, new', from, to);
    } else {
      SomeAhead(g, new', from, to);
      assert from == new' ==> !MaySend(mid, from, to);
      assert from != new' ==> (MaySend(mid, from, to) <==> MaySend(s.snaps, from, to));
      forall a, b | NewestPair(g, a, b) && a in Ahead(g, new') ensures a == from && b == to {
        BothAhead(g, new', from, to, a, b);
      }
    }
  }

  lemma PairIsRefused(snaps: map<string, Snapshot>, n: string, l: string, from: string, to: string)
    requires NewestPair(Group(snaps.Keys, n, l), from, to)
    ensures Refused(snaps, n, l) <==> !MaySend(snaps, from, to)
  {
    forall f, t | NewestPair(Group(snaps.Keys, n, l), f, t) ensures f == from && t == to {
      NewestPairUnique(Group(snaps.Keys, n, l), f, t, from, to);
    }
  }

  lemma NoneAhead(g: set<string>, new': string, from: string, to: string)
    requires NewestPair(g + {new'}, from, to) && Ahead(g, new') == {} && new' !in g
    ensures to == new' && (from == "" || from in g)
  {
    assert new' in g + {new'};
    assert to != new' ==> to in Ahead(g, new');
  }

  lemma SomeAhead(g: set<string>, new': string, from: string, to: string)
    requires NewestPair(g + {new'}, from, to) && Ahead(g, new') != {} && new' !in g
    ensures to in g && (from == new' || (from in Ahead(g, new') && NewestPair(g, from, to)))
  {
    var x :| x in Ahead(g, new');
    assert x in g + {new'} && new' in g + {new'};
    if to == new' {
      LeAntisymmetric(x, new');
      assert false;
    }
    assert g + {new'} != {to};
  }

  lemma BothAhead(g: set<string>, new': string, from: string, to: string, a: string, b: string)
    requires NewestPair(g + {new'}, from, to) && new' !in g
    requires NewestPair(g, a, b) && a in Ahead(g, new')
    ensures a == from && b == to
  {
    assert b in g + {new'} && a in g + {new'};
    LeTransitive(new', a, b);
    if to == new' {
      LeAntisymmetric(b, new');
    }
    LeAntisymmetric(b, to);
    if from == new' {
      LeAntisymmetric(a, new');
    }
    LeAntisymmetric(a, from);
  }

  // ----- what is left after a failure, and which dumps are there after a success -----

  /** A failed run whose deletes, renames and removals work leaves no trace but the loss
      of what lay at its own temporary paths. */
  lemma FailureLeavesNothing(s: State, r: Run)
    requires Step(s, r) && !Completes(r.result)
    requires r.env.held !! r.req.AllNew()
    requires r.env.unmovable !! Tmps(r.req, |r.req.names|) && r.env.unremovable !! Tmps(r.req, |r.req.names|)
    ensures r.after.snaps == s.snaps
    ensures forall p :: p in r.after.files ==> Holds(s.files, p, r.after.files[p])
    ensures forall p :: p in s.files && p !in r.after.files ==> p in Tmps(r.req, |r.req.names|)
  {
    FailureRollsBack(s, r);
    RolledBackExactly(r.env, s.snaps, r.after.snaps, r.req.AllNew());
    forall p | !SameAt(s.files, r.after.files, p) ensures p in Tmps(r.req, |r.req.names|) && p !in r.after.files {
      TmpsGrow(r.req, |r.sent|);
      TmpsGrow(r.req, |r.sent| + 1);
    }
  }

  lemma TmpsGrow(q: Request, k: nat)
    ensures k <= |q.names| ==> Tmps(q, k) <= Tmps(q, |q.names|)
  {
  }

  /** Different datasets have different dash forms. */
  ghost predicate DashFormsDiffer(names: seq<string>) {
    forall i, j :: 0 <= i < j < |names| && names[i] != names[j] ==> Dashed(names[i]) != Dashed(names[j])
  }

  /** After a successful run every dataset's own stream is in its dump file exactly if no
      two of the datasets have the same dash form. Otherwise a dump is lost, and the run
      still reports success. */
  lemma EveryDumpKeptExactly(s: State, r: Run)
    requires Step(s, r) && Completes(r.result) && r.req.send && AtFree(r.req.names)
    ensures |r.sent| == |r.req.names|
    ensures (forall i :: 0 <= i < |r.sent| ==> Holds(r.after.files, r.req.Snap(r.req.names[i]), Dump(r.sent[i])))
       <==> DashFormsDiffer(r.req.names)
  {
    var q := r.req;
    assert Published(q, r.sent, s.files, r.after.files) && SentFor(Mid(s, q), q.names, q.lbl, r.sent);
    if DashFormsDiffer(q.names) {
      forall i | 0 <= i < |r.sent| ensures Holds(r.after.files, q.Snap(q.names[i]), Dump(r.sent[i])) {
        OwnDump(s, r, i);
      }
    } else {
      var i, j :| 0 <= i < j < |q.names| && q.names[i] != q.names[j] && Dashed(q.names[i]) == Dashed(q.names[j]);
      DumpPathsDiffer(q.dir, q.names[i], q.names[j], q.TheStamp());
      StreamsDiffer(Mid(s, q), q.lbl, q.names[i], r.sent[i], q.names[j], r.sent[j]);
      assert !Holds(r.after.files, q.Snap(q.names[i]), Dump(r.sent[i]))
        || !Holds(r.after.files, q.Snap(q.names[j]), Dump(r.sent[j]));
    }
  }

  /** The last stream of the dataset is in its file, and it is the same as all its others. */
  lemma OwnDump(s: State, r: Run, i: nat)
    requires Step(s, r) && Completes(r.result) && r.req.send && DashFormsDiffer(r.req.names)
    requires i < |r.sent| == |r.req.names|
    ensures Holds(r.after.files, r.req.Snap(r.req.names[i]), Dump(r.sent[i]))
  {
    var q := r.req;
    var k := LastPlace(q.names, i);
    LastPlaceWrites(q, k);
    assert Published(q, r.sent, s.files, r.after.files) && SentFor(Mid(s, q), q.names, q.lbl, r.sent);
    SameStream(Mid(s, q), q.names[i], q.lbl, r.sent[i], r.sent[k]);
  }

  /** The last place of the name at place i. */
  function LastPlace(names: seq<string>, i: nat): (k: nat)
    requires i < |names|
    ensures k < |names| && names[k] == names[i] && forall j :: k < j < |names| ==> names[j] != names[k]
  {
    if names[|names| - 1] == names[i] then |names| - 1 else LastPlace(names[..|names| - 1], i)
  }

  lemma LastPlaceWrites(q: Request, k: nat)
    requires k < |q.names| && DashFormsDiffer(q.names)
    requires forall j :: k < j < |q.names| ==> q.names[j] != q.names[k]
    ensures WritesLast(q, k)
  {
    forall j | k < j < |q.names| ensures q.Snap(q.names[j]) != q.Snap(q.names[k]) {
      DumpPathsDiffer(q.dir, q.names[k], q.names[j], q.TheStamp());
    }
  }

  lemma SameStream(snaps: map<string, Snapshot>, n: string, l: string, a: Stream, b: Stream)
    requires IsNextStream(snaps, n, l, a) && IsNextStream(snaps, n, l, b)
    ensures a == b
  {
    NewestPairUnique(Group(snaps.Keys, n, l), a.From(), a.to, b.From(), b.to);
  }

  /** The streams of two datasets are never the same. */
  lemma StreamsDiffer(snaps: map<string, Snapshot>, l: string, n: string, a: Stream, m: string, b: Stream)
    requires Free('@', n) && Free('@', m) && n != m
    requires IsNextStream(snaps, n, l, a) && IsNextStream(snaps, m, l, b)
    ensures a != b
  {
    GroupInDataset(a.to, n, l);
    GroupInDataset(b.to, m, l);
    if a.to == b.to {
      DatasetUnique(a.to, n, m);
    }
  }
}
