/**
 Which snapshots survive a run: for a `keep` of at least 1 how many and which ones, for a
 negative `keep` none of the old ones.
 */
module Rotation {
  import opened Text
  import opened Names
  import opened Streams
  import opened Stores
  import opened Runs

  ghost predicate AtFree(names: seq<string>) {
    forall n :: n in names ==> Free('@', n)
  }

  /** The snapshots of the datasets of a call. */
  ghost function Listed(snaps: set<string>, names: seq<string>): set<string> {
    set s | s in snaps && Belongs(s, names)
  }

  ghost predicate Belongs(s: string, names: seq<string>) {
    exists n :: n in names && OfDataset(s, n)
  }

  ghost function Of(snaps: set<string>, name: string): set<string> {
    set s | s in snaps && OfDataset(s, name)
  }

  // ----- the pool -----

  lemma {:induction false} SnapshotsOfElements(listing: seq<string>, n: string)
    ensures Elements(SnapshotsOf(listing, n)) == Of(Elements(listing), n)
    ensures Distinct(listing) ==> Distinct(SnapshotsOf(listing, n))
  {
    if listing != [] {
      var init, s := listing[..|listing| - 1], listing[|listing| - 1];
      SnapshotsOfElements(init, n);
      assert listing == init + [s];
      assert Elements(listing) == Elements(init) + {s};
      var rest := SnapshotsOf(init, n);
      assert Elements(rest + [s]) == Elements(rest) + {s};
      if Distinct(listing) {
        assert s !in Elements(init);
        assert s !in Elements(SnapshotsOf(init, n));
      }
    }
  }

  /** Each old snapshot of a dataset of the call is pooled exactly once, and nothing else is. */
  lemma {:induction false} PoolIsExact(listing: seq<string>, names: seq<string>)
    requires AtFree(names)
    ensures Elements(Pool(listing, names)) == Listed(Elements(listing), names)
    ensures Distinct(listing) && Distinct(names) ==> Distinct(Pool(listing, names))
  {
    if names != [] {
      var init, n := names[..|names| - 1], names[|names| - 1];
      PoolIsExact(listing, init);
      SnapshotsOfElements(listing, n);
      assert names == init + [n];
      var a, b := Pool(listing, init), SnapshotsOf(listing, n);
      assert Elements(a + b) == Elements(a) + Elements(b);
      assert Listed(Elements(listing), names) == Listed(Elements(listing), init) + Of(Elements(listing), n);
      if Distinct(listing) && Distinct(names) {
        forall x | x in a ensures x !in b {
          assert x in Elements(a);
          if x in b {
            assert x in Elements(b);
            var m :| m in init && OfDataset(x, m);
            DatasetUnique(x, m, n);
          }
        }
        Concatenated(a, b);
      }
    }
  }

  lemma Concatenated<T>(a: seq<T>, b: seq<T>)
    requires Distinct(a) && Distinct(b) && forall x :: x in a ==> x !in b
    ensures Distinct(a + b)
  {
    var s := a + b;
    forall i, j | 0 <= i < j < |s| ensures s[i] != s[j] {
      assert i < |a| ==> s[i] in a;
      assert j >= |a| ==> s[j] in b;
    }
  }

  // ----- what is doomed -----

  /** The doomed snapshots are the smallest of the pool. */
  lemma DoomedFirst(pool: seq<string>, keep: int, a: string, b: string)
    requires a in pool && b in Doomed(pool, keep) && Lt(a, b)
    ensures a in Doomed(pool, keep)
  {
    if keep >= 1 {
      DoomedFirstOf(pool, keep, a, b);
    }
  }

  lemma DoomedFirstOf(pool: seq<string>, keep: nat, a: string, b: string)
    requires keep >= 1 && a in pool && b in Doomed(pool, keep) && Lt(a, b)
    ensures a in Doomed(pool, keep)
  {
    var s, k := Sort(pool), |pool| - keep + 1;
    SortSorted(pool);
    SortElements(pool);
    assert a in Elements(s);
    var i :| 0 <= i < |s| && s[i] == a;
    var j :| 0 <= j < k && s[j] == b;
    if k <= i {
      assert Le(b, a);
      LeAntisymmetric(a, b);
    }
    assert s[i] in s[..k];
  }

  lemma PrefixCount(s: seq<string>, all: set<string>, k: nat)
    requires Distinct(s) && Elements(s) == all && k <= |s|
    ensures Elements(s[..k]) <= all && |all - Elements(s[..k])| == |s| - k
  {
    DistinctCount(s);
    DistinctCount(s[..k]);
    assert Elements(s[..k]) <= Elements(s);
    assert |all - Elements(s[..k])| == |all| - |Elements(s[..k])|;
  }

  lemma DoomedCount(pool: seq<string>, keep: nat)
    requires keep >= 1 && Distinct(pool)
    ensures Doomed(pool, keep) <= Elements(pool)
    ensures |Elements(pool)| == |pool|
    ensures |Elements(pool) - Doomed(pool, keep)| == if |pool| < keep then |pool| else keep - 1
  {
    DistinctCount(pool);
    if |pool| < keep {
      assert Elements(pool) - {} == Elements(pool);
    } else {
      DoomedSomeCount(pool, keep);
    }
  }

  lemma DoomedSomeCount(pool: seq<string>, keep: nat)
    requires keep >= 1 && Distinct(pool) && keep <= |pool|
    ensures Doomed(pool, keep) <= Elements(pool)
    ensures |Elements(pool) - Doomed(pool, keep)| == keep - 1
  {
    PermutedCount(pool, Sort(pool), |pool| - keep + 1);
  }

  lemma PermutedCount(pool: seq<string>, s: seq<string>, k: nat)
    requires Distinct(pool) && multiset(s) == multiset(pool) && k <= |s| == |pool|
    ensures Elements(s[..k]) <= Elements(pool) && |Elements(pool) - Elements(s[..k])| == |pool| - k
  {
    PermutedElements(pool, s);
    PermutedDistinct(pool, s);
    PrefixCount(s, Elements(pool), k);
  }

  lemma {:induction false} SnapshotsOfCount(listing: seq<string>, n: string, x: string)
    ensures multiset(SnapshotsOf(listing, n))[x] == if OfDataset(x, n) then multiset(listing)[x] else 0
  {
    if listing != [] {
      var init, s := listing[..|listing| - 1], listing[|listing| - 1];
      SnapshotsOfCount(init, n, x);
      assert listing == init + [s];
    }
  }

  /** Listings that differ in their order only give pools that differ in their order only. */
  lemma {:induction false} PermutedPools(a: seq<string>, b: seq<string>, names: seq<string>)
    requires multiset(a) == multiset(b)
    ensures multiset(Pool(a, names)) == multiset(Pool(b, names))
  {
    if names != [] {
      var init, n := names[..|names| - 1], names[|names| - 1];
      PermutedPools(a, b, init);
      assert multiset(SnapshotsOf(a, n)) == multiset(SnapshotsOf(b, n)) by {
        forall x ensures multiset(SnapshotsOf(a, n))[x] == multiset(SnapshotsOf(b, n))[x] {
          SnapshotsOfCount(a, n, x);
          SnapshotsOfCount(b, n, x);
        }
      }
    }
  }

  lemma DoomedOfPermuted(pool: seq<string>, other: seq<string>, keep: int)
    requires multiset(pool) == multiset(other)
    ensures Doomed(pool, keep) == Doomed(other, keep)
  {
    assert |pool| == |multiset(pool)| == |multiset(other)| == |other|;
    PermutedElements(pool, other);
    SortSorted(pool);
    SortSorted(other);
    SortUnique(Sort(pool), Sort(other));
  }

  /** The order of the driver's listing does not matter. */
  lemma DoomedIgnoresOrder(a: seq<string>, b: seq<string>, names: seq<string>, keep: int)
    requires multiset(a) == multiset(b)
    ensures Doomed(Pool(a, names), keep) == Doomed(Pool(b, names), keep)
  {
    PermutedPools(a, b, names);
    DoomedOfPermuted(Pool(a, names), Pool(b, names), keep);
  }

  // ----- the new snapshots -----

  lemma NewIsListed(q: Request)
    requires AtFree(q.names)
    ensures Listed(q.AllNew(), q.names) == q.AllNew()
    ensures |q.AllNew()| == |Elements(q.names)|
  {
    forall n | n in q.names ensures OfDataset(q.New(n), n) {
      FullNameOf(n, q.TheStamp(), n);
    }
    NewCount(q.names, q.TheStamp());
  }

  lemma {:induction false} NewCount(names: seq<string>, stamp: string)
    ensures |NewNames(names, stamp)| == |Elements(names)|
  {
    if names != [] {
      var init, n := names[..|names| - 1], names[|names| - 1];
      assert names == init + [n];
      NewCount(init, stamp);
      NewNamesGrow(init, n, stamp);
      GrowBoth(NewNames(init, stamp), FullName(n, stamp), Elements(init), n);
    }
  }

  lemma GrowBoth<T, U>(a: set<T>, x: T, b: set<U>, y: U)
    requires |a| == |b| && (x in a <==> y in b)
    ensures |a + {x}| == |b + {y}|
  {
    if x in a {
      assert a + {x} == a && b + {y} == b;
    }
  }

  lemma NewNamesGrow(init: seq<string>, n: string, stamp: string)
    ensures NewNames(init + [n], stamp) == NewNames(init, stamp) + {FullName(n, stamp)}
    ensures Elements(init + [n]) == Elements(init) + {n}
    ensures FullName(n, stamp) in NewNames(init, stamp) <==> n in Elements(init)
  {
    assert forall x :: x in init + [n] <==> x in init || x == n;
    if m :| m in init && FullName(m, stamp) == FullName(n, stamp) {
      FullNameInjective(m, n, stamp);
    }
  }

  lemma DoomedIsListed(listing: seq<string>, names: seq<string>, keep: int)
    requires AtFree(names)
    ensures Doomed(Pool(listing, names), keep) <= Listed(Elements(listing), names)
  {
    var pool := Pool(listing, names);
    PoolIsExact(listing, names);
    SortElements(pool);
    forall x | x in Doomed(pool, keep) ensures x in Elements(pool) {
      assert keep >= 1 ==> x in Elements(Sort(pool));
    }
  }

  lemma ListedSplits(a: set<string>, b: set<string>, names: seq<string>)
    ensures Listed(a + b, names) == Listed(a, names) + Listed(b, names)
    ensures Listed(a - b, names) == Listed(a, names) - b
  {
  }

  // ----- a successful run that rotates -----

  /** A run that ended well with keep >= 1 and proper dataset names, and the deletion of no
      old snapshot of its datasets may be refused. */
  ghost predicate Rotates(s: State, r: Run) {
    && Step(s, r) && r.result == Done && r.req.keep >= 1 && AtFree(r.req.names)
    && r.env.held !! Listed(s.snaps.Keys, r.req.names)
  }

  /** What such a run does to the names of snapshots alone. */
  ghost predicate RotatesNames(snaps: set<string>, q: Request, listing: seq<string>, after: set<string>) {
    && snaps !! q.AllNew() && AtFree(q.names) && q.keep >= 1
    && Distinct(listing) && Elements(listing) == snaps
    && after == (snaps - Doomed(Pool(listing, q.names), q.keep)) + q.AllNew()
  }

  lemma RunRotatesContents(s: State, r: Run)
    requires Rotates(s, r)
    ensures s.snaps.Keys !! r.req.AllNew()
    ensures Distinct(r.listing) && Elements(r.listing) == s.snaps.Keys
    ensures AllLive(r.req.live, r.req.names)
    ensures r.after.snaps == Mid(s, r.req) - Doomed(Pool(r.listing, r.req.names), r.req.keep)
  {
    var doomed := Doomed(Pool(r.listing, r.req.names), r.req.keep);
    RunRotated(s, r);
    DoomedIsListed(r.listing, r.req.names, r.req.keep);
    RotatedExactly(r.env, Mid(s, r.req), r.after.snaps, doomed);
  }

  lemma RunRotated(s: State, r: Run)
    requires Step(s, r) && r.result == Done && r.req.keep != 0
    ensures s.snaps.Keys !! r.req.AllNew() && AllLive(r.req.live, r.req.names)
    ensures Distinct(r.listing) && Elements(r.listing) == s.snaps.Keys
    ensures Rotated(r.env, Mid(s, r.req), r.after.snaps, Doomed(Pool(r.listing, r.req.names), r.req.keep))
    ensures r.req.keep < 0 ==> Pool(r.listing, r.req.names) != []
  {
    FreshIsNew(s.snaps.Keys, r.req);
    assert EndsDone(r.env, s, r.req, Pool(r.listing, r.req.names), r.sent, r.after);
  }

  /** A refused deletion does not stop the rotation: every doomed snapshot goes, except those
      whose own deletion may be refused, and no other snapshot goes. */
  lemma RotationGoesOn(s: State, r: Run)
    requires Step(s, r) && r.result == Done && r.req.keep != 0
    ensures var doomed := Doomed(Pool(r.listing, r.req.names), r.req.keep);
      && (forall x :: x in doomed && x in r.after.snaps ==> x in r.env.held)
      && (forall x :: x in s.snaps && x !in doomed ==> x in r.after.snaps)
  {
    RunRotated(s, r);
    var doomed := Doomed(Pool(r.listing, r.req.names), r.req.keep);
    forall x | x in doomed && x in r.after.snaps ensures x in r.env.held {
      assert r.after.snaps.Keys !! doomed - r.env.held;
    }
    forall x | x in s.snaps && x !in doomed ensures x in r.after.snaps {
      assert x in Mid(s, r.req).Keys - doomed;
    }
  }

  /** Nor does it stop the rollback: every new snapshot goes, except those whose own deletion
      may be refused. */
  lemma RollbackGoesOn(s: State, r: Run, n: string)
    requires Step(s, r) && !Completes(r.result) && n in r.req.names
    ensures r.req.New(n) in r.after.snaps ==> r.req.New(n) in s.snaps || r.req.New(n) in r.env.held
  {
    assert r.req.New(n) in r.req.AllNew();
    assert RolledBack(r.env, s.snaps, r.after.snaps, r.req.AllNew()) by {
      assert r.result == ListFailed || r.result == AlreadyExists ==> r.after == s;
    }
  }

  lemma RotatedKeys(snaps: set<string>, q: Request, listing: seq<string>)
    requires snaps !! q.AllNew() && AtFree(q.names) && q.keep >= 1 && Elements(listing) == snaps
    ensures var doomed := Doomed(Pool(listing, q.names), q.keep);
      (snaps + q.AllNew()) - doomed == (snaps - doomed) + q.AllNew()
  {
    DoomedIsListed(listing, q.names, q.keep);
  }

  lemma RunRotates(s: State, r: Run)
    requires Rotates(s, r)
    ensures RotatesNames(s.snaps.Keys, r.req, r.listing, r.after.snaps.Keys)
  {
    RunRotatesContents(s, r);
    RotatedKeys(s.snaps.Keys, r.req, r.listing);
  }

  /** The doomed were old snapshots of the datasets of the call. */
  lemma DoomedAreOld(snaps: set<string>, q: Request, listing: seq<string>, after: set<string>)
    requires RotatesNames(snaps, q, listing, after)
    ensures var doomed := Doomed(Pool(listing, q.names), q.keep);
      && doomed <= Listed(snaps, q.names) && doomed !! q.AllNew()
  {
    DoomedIsListed(listing, q.names, q.keep);
  }

  /** Whatever the result and whatever works, snapshots of other datasets stay as they are,
      and a run that completes leaves all its new snapshots with the live contents. */
  lemma OthersUntouched(s: State, r: Run)
    requires Step(s, r) && AtFree(r.req.names)
    ensures forall x :: x in s.snaps && !Belongs(x, r.req.names) ==>
      x in r.after.snaps && r.after.snaps[x] == s.snaps[x]
    ensures Completes(r.result) ==> forall n :: n in r.req.names ==>
      n in r.req.live && r.req.New(n) in r.after.snaps && r.after.snaps[r.req.New(n)].contents == r.req.live[n]
  {
    if Completes(r.result) {
      CompletesWithin(s, r);
      KeptByDoomed(s, r.req, r.listing, r.after.snaps);
    }
  }

  lemma CompletesWithin(s: State, r: Run)
    requires Step(s, r) && Completes(r.result)
    ensures AllLive(r.req.live, r.req.names) && s.snaps.Keys !! r.req.AllNew() && Elements(r.listing) == s.snaps.Keys
    ensures Extends(r.after.snaps, Mid(s, r.req))
    ensures Mid(s, r.req).Keys - Doomed(Pool(r.listing, r.req.names), r.req.keep) <= r.after.snaps.Keys
  {
    FreshIsNew(s.snaps.Keys, r.req);
    assert Ends(r.result, r.env, s, r.req, Pool(r.listing, r.req.names), r.sent, r.after);
  }

  lemma KeptByDoomed(s: State, q: Request, listing: seq<string>, after: map<string, Snapshot>)
    requires AllLive(q.live, q.names) && s.snaps.Keys !! q.AllNew() && Elements(listing) == s.snaps.Keys
    requires AtFree(q.names) && Extends(after, Mid(s, q))
    requires Mid(s, q).Keys - Doomed(Pool(listing, q.names), q.keep) <= after.Keys
    ensures forall x :: x in s.snaps && !Belongs(x, q.names) ==> x in after && after[x] == s.snaps[x]
    ensures forall n :: n in q.names ==> q.New(n) in after && after[q.New(n)].contents == q.live[n]
  {
    var doomed := Doomed(Pool(listing, q.names), q.keep);
    DoomedIsListed(listing, q.names, q.keep);
    forall x | x in s.snaps && !Belongs(x, q.names) ensures x in after && after[x] == s.snaps[x] {
      assert x !in doomed && x in Mid(s, q).Keys;
    }
    forall n | n in q.names ensures q.New(n) in after && after[q.New(n)].contents == q.live[n] {
      assert q.New(n) in q.AllNew();
      assert q.New(n) !in doomed && q.New(n) in Mid(s, q).Keys;
    }
  }

  /** How many of the old snapshots survive. */
  lemma OldSurvivors(snaps: set<string>, q: Request, listing: seq<string>, after: set<string>)
    requires RotatesNames(snaps, q, listing, after) && Distinct(q.names)
    ensures var old', doomed := Listed(snaps, q.names), Doomed(Pool(listing, q.names), q.keep);
      |old' - doomed| == if |old'| < q.keep then |old'| else q.keep - 1
  {
    PoolIsExact(listing, q.names);
    DoomedCount(Pool(listing, q.names), q.keep);
  }

  lemma NamesRetained(snaps: set<string>, q: Request, listing: seq<string>, after: set<string>)
    requires RotatesNames(snaps, q, listing, after) && Distinct(q.names)
    ensures var old' := |Listed(snaps, q.names)|;
      |Listed(after, q.names)| == (if old' < q.keep then old' else q.keep - 1) + |q.names|
  {
    var doomed := Doomed(Pool(listing, q.names), q.keep);
    OldSurvivors(snaps, q, listing, after);
    ListedSplits(snaps, doomed, q.names);
    ListedSplits(snaps - doomed, q.AllNew(), q.names);
    assert Listed(q.AllNew(), q.names) == q.AllNew() && |q.AllNew()| == |q.names| by {
      NewIsListed(q);
      DistinctCount(q.names);
    }
    assert (Listed(snaps, q.names) - doomed) !! q.AllNew();
  }

  /** Exact retention: the old snapshots, or the greatest keep - 1 of them if there are
      at least keep, and one new snapshot of each dataset. */
  lemma RetentionCount(s: State, r: Run)
    requires Rotates(s, r) && Distinct(r.req.names)
    ensures var old', keep := |Listed(s.snaps.Keys, r.req.names)|, r.req.keep;
      |Listed(r.after.snaps.Keys, r.req.names)| == (if old' < keep then old' else keep - 1) + |r.req.names|
  {
    RunRotates(s, r);
    NamesRetained(s.snaps.Keys, r.req, r.listing, r.after.snaps.Keys);
  }

  lemma GreaterSurvive(snaps: set<string>, q: Request, listing: seq<string>, after: set<string>, a: string, b: string)
    requires RotatesNames(snaps, q, listing, after)
    requires a in snaps && Belongs(a, q.names) && a in after && Lt(a, b)
    requires b in snaps
    ensures b in after
  {
    var pool := Pool(listing, q.names);
    if b in Doomed(pool, q.keep) {
      PoolIsExact(listing, q.names);
      assert a in Elements(pool);
      DoomedFirst(pool, q.keep, a, b);
    }
  }

  /** Rotation goes from the smallest on: if a snapshot of a dataset of the call survives,
      so does every greater one. Within a group that is every later one. */
  lemma OldestFirst(s: State, r: Run, n: string, a: string, b: string)
    requires Rotates(s, r) && n in r.req.names
    requires a in Of(s.snaps.Keys, n) && a in r.after.snaps
    requires b in s.snaps && Le(a, b)
    ensures b in r.after.snaps
  {
    if a != b {
      RunRotates(s, r);
      assert Belongs(a, r.req.names);
      GreaterSurvive(s.snaps.Keys, r.req, r.listing, r.after.snaps.Keys, a, b);
    }
  }

  /** A negative keep, which ends in a panic if there is no old snapshot, otherwise removes every
      old snapshot of the datasets of the call, and nothing else, if it does not panic. */
  lemma NegativeKeep(s: State, r: Run)
    requires Step(s, r) && r.result == Done && r.req.keep < 0 && AtFree(r.req.names)
    requires r.env.held !! Listed(s.snaps.Keys, r.req.names)
    ensures r.after.snaps.Keys == (s.snaps.Keys - Listed(s.snaps.Keys, r.req.names)) + r.req.AllNew()
    ensures Listed(s.snaps.Keys, r.req.names) != {}
  {
    PoolIsExact(r.listing, r.req.names);
    var pool := Pool(r.listing, r.req.names);
    RunRotated(s, r);
    assert pool[0] in Elements(pool);
    RotatedExactly(r.env, Mid(s, r.req), r.after.snaps, Doomed(pool, r.req.keep));
    NegativeNames(s.snaps.Keys, r.req, r.listing);
  }

  lemma NegativeNames(snaps: set<string>, q: Request, listing: seq<string>)
    requires snaps !! q.AllNew() && AtFree(q.names) && q.keep < 0 && Elements(listing) == snaps
    ensures (snaps + q.AllNew()) - Doomed(Pool(listing, q.names), q.keep)
         == (snaps - Listed(snaps, q.names)) + q.AllNew()
  {
    PoolIsExact(listing, q.names);
  }

  // ----- retention per dataset -----

  /** min(old, keep - 1) */
  function Quota(old': nat, keep: nat): int {
    if old' < keep - 1 then old' else keep - 1
  }

  /** What the documentation of TakeSnapshot suggests: of each dataset the call names,
      `keep` versions are left (fewer only if there never were so many). */
  ghost predicate KeepsPerDataset(snaps: set<string>, names: seq<string>, keep: nat, after: set<string>) {
    forall n :: n in names ==> |Of(after, n)| == Quota(|Of(snaps, n)|, keep) + 1
  }

  /** All old snapshots of the call belong to one dataset. */
  ghost predicate OneDataset(snaps: set<string>, names: seq<string>) {
    forall n, m :: n in names && m in names && Of(snaps, n) != {} && Of(snaps, m) != {} ==> n == m
  }

  lemma OfAfter(snaps: set<string>, q: Request, listing: seq<string>, after: set<string>, n: string)
    requires RotatesNames(snaps, q, listing, after) && n in q.names
    ensures |Of(after, n)| == |Of(snaps, n) - Doomed(Pool(listing, q.names), q.keep)| + 1
  {
    var old' := snaps - Doomed(Pool(listing, q.names), q.keep);
    OfNew(q, n);
    OfUnion(old', q.AllNew(), n);
    assert Of(old', n) == Of(snaps, n) - Doomed(Pool(listing, q.names), q.keep);
    assert q.New(n) !in Of(old', n);
  }

  lemma OfUnion(a: set<string>, b: set<string>, n: string)
    ensures Of(a + b, n) == Of(a, n) + Of(b, n)
  {
  }

  lemma OfNew(q: Request, n: string)
    requires AtFree(q.names) && n in q.names
    ensures Of(q.AllNew(), n) == {q.New(n)}
  {
    forall m | m in q.names ensures OfDataset(q.New(m), n) <==> m == n {
      FullNameOf(m, q.TheStamp(), n);
    }
  }

  lemma NamesPerDataset(snaps: set<string>, q: Request, listing: seq<string>, after: set<string>)
    requires RotatesNames(snaps, q, listing, after) && Distinct(q.names)
    ensures KeepsPerDataset(snaps, q.names, q.keep, after) <==>
      q.keep == 1 || |Listed(snaps, q.names)| < q.keep || OneDataset(snaps, q.names)
  {
    var doomed := Doomed(Pool(listing, q.names), q.keep);
    DoomedAreOld(snaps, q, listing, after);
    OldSurvivors(snaps, q, listing, after);
    QuotasExactly(doomed, snaps, q.names, q.keep);
    KeepsByQuota(snaps, q, listing, after, doomed);
  }

  lemma KeepsByQuota(snaps: set<string>, q: Request, listing: seq<string>, after: set<string>, doomed: set<string>)
    requires RotatesNames(snaps, q, listing, after) && doomed == Doomed(Pool(listing, q.names), q.keep)
    ensures KeepsPerDataset(snaps, q.names, q.keep, after) <==> MeetsQuotas(snaps, doomed, q.names, q.keep)
  {
    forall n | n in q.names ensures |Of(after, n)| == |Of(snaps, n) - doomed| + 1 {
      OfAfter(snaps, q, listing, after, n);
    }
  }

  ghost predicate MeetsQuotas(snaps: set<string>, doomed: set<string>, names: seq<string>, keep: nat) {
    forall n :: n in names ==> |Of(snaps, n) - doomed| == Quota(|Of(snaps, n)|, keep)
  }

  lemma QuotasExactly(doomed: set<string>, snaps: set<string>, names: seq<string>, keep: nat)
    requires AtFree(names) && keep >= 1 && doomed <= Listed(snaps, names)
    requires var old' := Listed(snaps, names); |old' - doomed| == if |old'| < keep then |old'| else keep - 1
    ensures MeetsQuotas(snaps, doomed, names, keep) <==>
      keep == 1 || |Listed(snaps, names)| < keep || OneDataset(snaps, names)
  {
    if keep == 1 || |Listed(snaps, names)| < keep || OneDataset(snaps, names) {
      forall n | n in names ensures |Of(snaps, n) - doomed| == Quota(|Of(snaps, n)|, keep) {
        PerDatasetKept(doomed, snaps, names, keep, n);
      }
    } else {
      var n, m :| n in names && m in names && Of(snaps, n) != {} && Of(snaps, m) != {} && n != m;
      PerDatasetBroken(snaps, names, doomed, keep, n, m);
    }
  }

  /** The promise per dataset is kept exactly if keep is 1, or the pool has fewer than
      keep snapshots, or all of them belong to one dataset. */
  lemma PerDatasetExactly(s: State, r: Run)
    requires Rotates(s, r) && Distinct(r.req.names)
    ensures KeepsPerDataset(s.snaps.Keys, r.req.names, r.req.keep, r.after.snaps.Keys) <==>
      r.req.keep == 1 || |Listed(s.snaps.Keys, r.req.names)| < r.req.keep || OneDataset(s.snaps.Keys, r.req.names)
  {
    RunRotates(s, r);
    NamesPerDataset(s.snaps.Keys, r.req, r.listing, r.after.snaps.Keys);
  }

  lemma PerDatasetKept(doomed: set<string>, snaps: set<string>, names: seq<string>, keep: nat, n: string)
    requires n in names && keep >= 1 && doomed <= Listed(snaps, names)
    requires var old' := Listed(snaps, names); |old' - doomed| == if |old'| < keep then |old'| else keep - 1
    requires keep == 1 || |Listed(snaps, names)| < keep || OneDataset(snaps, names)
    ensures |Of(snaps, n) - doomed| == Quota(|Of(snaps, n)|, keep)
  {
    var old' := Listed(snaps, names);
    assert Of(snaps, n) <= old';
    if Of(snaps, n) == {} {
      assert Of(snaps, n) - doomed == {};
    } else if |old'| < keep {
      assert |old' - doomed| == |old'| - |doomed|;
      assert doomed == {};
      assert Of(snaps, n) - doomed == Of(snaps, n);
      Subset(Of(snaps, n), old');
    } else if keep == 1 {
      assert old' - doomed == {};
      assert Of(snaps, n) - doomed == {};
    } else {
      forall x | x in old' ensures x in Of(snaps, n) {
        var m :| m in names && OfDataset(x, m);
        assert x in Of(snaps, m);
      }
      assert Of(snaps, n) == old';
    }
  }

  lemma Subset<T>(a: set<T>, b: set<T>)
    requires a <= b
    ensures |a| <= |b|
  {
    assert b == a + (b - a);
  }

  /** Two datasets with old snapshots and a pool that is too large: one of them loses too many. */
  lemma PerDatasetBroken(snaps: set<string>, names: seq<string>, doomed: set<string>, keep: nat, n: string, m: string)
    requires AtFree(names) && n in names && m in names && n != m
    requires Of(snaps, n) != {} && Of(snaps, m) != {}
    requires 1 < keep <= |Listed(snaps, names)| && doomed <= Listed(snaps, names)
    requires |Listed(snaps, names) - doomed| == keep - 1
    ensures exists k :: k in names && |Of(snaps, k) - doomed| != Quota(|Of(snaps, k)|, keep)
  {
    var old' := Listed(snaps, names);
    var x :| x in doomed;
    var k :| k in names && x in Of(snaps, k);
    Smaller(Of(snaps, k) - doomed, Of(snaps, k), x);
    if |Of(snaps, k) - doomed| == keep - 1 {
      var j := if k == n then m else n;
      DisjointDatasets(snaps, k, j);
      assert Of(snaps, j) - doomed == {} by {
        if y :| y in Of(snaps, j) - doomed {
          assert (Of(snaps, k) - doomed) + {y} <= old' - doomed;
          Subset((Of(snaps, k) - doomed) + {y}, old' - doomed);
        }
      }
      assert |Of(snaps, j) - doomed| == 0;
    }
  }

  lemma Smaller<T>(a: set<T>, b: set<T>, x: T)
    requires a <= b && x in b && x !in a
    ensures |a| < |b|
  {
    Subset(a + {x}, b);
  }

  lemma DisjointDatasets(snaps: set<string>, n: string, m: string)
    requires Free('@', n) && Free('@', m) && n != m
    ensures Of(snaps, n) !! Of(snaps, m)
  {
    if x :| x in Of(snaps, n) && x in Of(snaps, m) {
      DatasetUnique(x, n, m);
    }
  }
}
