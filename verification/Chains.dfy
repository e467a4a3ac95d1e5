/**
 What holds over whole histories of runs: for a dataset and a label, every stream
 continues exactly where the last successful run left off.
 */
module Chains {
  import opened Text
  import opened WallClock
  import opened Names
  import opened Streams
  import opened Stores
  import opened Runs
  import opened Rotation

  // ----- one run and one group -----

  /** The run makes a snapshot of dataset `n` under label `l`. */
  predicate Touches(q: Request, n: string, l: string) {
    n in q.names && q.lbl == l
  }

  /** What a run must respect for the group to stay in order: proper names, no label
      that extends `l` with a dash, and, if the dataset is concerned, no member of the
      group whose deletion may be refused. */
  ghost predicate Proper(r: Run, n: string, l: string) {
    && AtFree(r.req.names)
    && (n in r.req.names ==> !HasPrefix(r.req.lbl, l + "-") && Spares(r.env, n, l))
  }

  /** The deletion of no snapshot of the group may be refused. */
  ghost predicate Spares(env: Env, n: string, l: string) {
    forall x :: x in env.held ==> !InGroup(x, n, l)
  }

  /** The member of the group that the run creates. */
  ghost function NewMembers(q: Request, n: string, l: string): set<string>
  {
    if Touches(q, n, l) then {q.New(n)} else {}
  }

  lemma NewInGroup(q: Request, n: string, l: string)
    requires AtFree(q.names) && Free('@', n) && Free('-', l)
    requires n in q.names ==> !HasPrefix(q.lbl, l + "-")
    ensures Group(q.AllNew(), n, l) == NewMembers(q, n, l)
  {
    forall m | m in q.names ensures InGroup(q.New(m), n, l) <==> m == n && q.lbl == l {
      GroupMembership(m, q.lbl, q.clock, n, l);
    }
  }

  lemma GroupUnion(a: set<string>, b: set<string>, n: string, l: string)
    ensures Group(a + b, n, l) == Group(a, n, l) + Group(b, n, l)
    ensures Group(a - b, n, l) == Group(a, n, l) - b
  {
  }

  /** A set of names changes so that the group loses only from its small end. */
  ghost predicate KeepsGreatest(old': set<string>, new': set<string>) {
    && new' <= old'
    && forall a, b :: a in new' && b in old' && Lt(a, b) ==> b in new'
  }

  lemma DoomedInGroup(listing: seq<string>, names: seq<string>, keep: int, n: string, l: string)
    requires AtFree(names) && Free('@', n)
    ensures var g := Group(Elements(listing), n, l);
      && KeepsGreatest(g, g - Doomed(Pool(listing, names), keep))
      && (n !in names ==> g !! Doomed(Pool(listing, names), keep))
  {
    var pool, doomed, g := Pool(listing, names), Doomed(Pool(listing, names), keep), Group(Elements(listing), n, l);
    PoolIsExact(listing, names);
    DoomedIsListed(listing, names, keep);
    forall x | x in g ensures OfDataset(x, n) {
      GroupInDataset(x, n, l);
    }
    forall a, b | a in g - doomed && b in g && Lt(a, b) ensures b !in doomed {
      if b in doomed {
        var m :| m in names && OfDataset(b, m);
        DatasetUnique(b, n, m);
        assert Belongs(a, names);
        assert a in Elements(pool);
        DoomedFirst(pool, keep, a, b);
      }
    }
    if n !in names {
      forall x | x in g ensures x !in doomed {
        if x in doomed {
          var m :| m in names && OfDataset(x, m);
          DatasetUnique(x, n, m);
        }
      }
    }
  }

  /** The contents of the group's members do not change. */
  ghost predicate SameContents(a: map<string, Snapshot>, b: map<string, Snapshot>, names: set<string>) {
    forall x :: x in names && x in a && x in b ==> a[x] == b[x]
  }

  /** What a completed run has rotated away, if deletes work. */
  function Removed(r: Run): set<string> {
    if r.result == Panicked || r.req.keep == 0 then {} else Doomed(Pool(r.listing, r.req.names), r.req.keep)
  }

  /** What a run does to a group: a failure leaves it alone; a success may take away
      smallest members and adds the new one. */
  ghost predicate GroupStep(before: set<string>, r: Run, n: string, l: string, after: set<string>)
  {
    if !Completes(r.result) || n !in r.req.names then after == before
    else
      && before !! NewMembers(r.req, n, l)
      && NewMembers(r.req, n, l) <= after
      && KeepsGreatest(before, after - NewMembers(r.req, n, l))
  }

  lemma RolledBackGroup(env: Env, before: map<string, Snapshot>, after: map<string, Snapshot>, q: Request,
                        n: string, l: string)
    requires AtFree(q.names) && Free('@', n) && Free('-', l)
    requires n in q.names ==> !HasPrefix(q.lbl, l + "-") && Spares(env, n, l)
    requires RolledBack(env, before, after, q.AllNew())
    ensures Group(after.Keys, n, l) == Group(before.Keys, n, l)
  {
    NewInGroup(q, n, l);
    GroupUnion(before.Keys, q.AllNew(), n, l);
    forall x | x in after && InGroup(x, n, l) ensures x in before {
      assert x in q.AllNew() ==> x in Group(q.AllNew(), n, l) && x !in env.held;
    }
  }

  lemma DoneGroup(snaps: set<string>, r: Run, n: string, l: string, after: set<string>)
    requires Proper(r, n, l) && Free('@', n) && Free('-', l)
    requires snaps !! r.req.AllNew() && Elements(r.listing) == snaps && Completes(r.result)
    requires (snaps + r.req.AllNew()) - Removed(r) <= after <= snaps + r.req.AllNew()
    requires after !! Removed(r) - r.env.held
    ensures GroupStep(Group(snaps, n, l), r, n, l, Group(after, n, l))
  {
    var q, new', g, doomed := r.req, NewMembers(r.req, n, l), Group(snaps, n, l), Removed(r);
    NewInGroup(q, n, l);
    GroupUnion(snaps, q.AllNew(), n, l);
    DoomedInGroup(r.listing, q.names, q.keep, n, l);
    DoomedIsListed(r.listing, q.names, q.keep);
    GroupBetween((snaps + q.AllNew()) - doomed, after, snaps + q.AllNew(), n, l);
    GroupUnion(snaps + q.AllNew(), doomed, n, l);
    if n in q.names {
      GroupLoses(after, snaps + q.AllNew(), doomed, r.env, n, l);
      assert Group(after, n, l) == (g - doomed) + new';
    }
  }

  /** What is doomed in the group is gone. */
  lemma GroupLoses(after: set<string>, mid: set<string>, doomed: set<string>, env: Env, n: string, l: string)
    requires Spares(env, n, l) && after !! doomed - env.held && mid - doomed <= after <= mid
    ensures Group(after, n, l) == Group(mid, n, l) - doomed
  {
    forall x | x in Group(after, n, l) ensures x !in doomed {
      assert x !in env.held;
    }
  }

  lemma GroupBetween(a: set<string>, b: set<string>, c: set<string>, n: string, l: string)
    requires a <= b <= c
    ensures Group(a, n, l) <= Group(b, n, l) <= Group(c, n, l)
  {
  }

  /** Surviving contents are those of before, and the new snapshot has the live contents. */
  lemma DoneContents(s: State, q: Request, after: map<string, Snapshot>)
    requires s.snaps.Keys !! q.AllNew() && AtFree(q.names) && AllLive(q.live, q.names)
    requires Extends(after, Mid(s, q))
    ensures SameContents(s.snaps, after, s.snaps.Keys)
    ensures forall n :: n in q.names && q.New(n) in after ==> after[q.New(n)] == Snapshot(q.live[n], q.txg)
  {
  }

  lemma DoneKeys(s: State, r: Run)
    requires Step(s, r) && Completes(r.result)
    ensures s.snaps.Keys !! r.req.AllNew() && AllLive(r.req.live, r.req.names)
    ensures Elements(r.listing) == s.snaps.Keys
    ensures Extends(r.after.snaps, Mid(s, r.req))
    ensures Mid(s, r.req).Keys - Removed(r) <= r.after.snaps.Keys <= Mid(s, r.req).Keys
    ensures r.after.snaps.Keys !! Removed(r) - r.env.held
  {
    FreshIsNew(s.snaps.Keys, r.req);
    assert Ends(r.result, r.env, s, r.req, Pool(r.listing, r.req.names), r.sent, r.after);
  }

  lemma DoneInGroup(s: State, r: Run, n: string, l: string)
    requires Step(s, r) && Proper(r, n, l) && Free('@', n) && Free('-', l) && Completes(r.result)
    ensures GroupStep(Group(s.snaps.Keys, n, l), r, n, l, Group(r.after.snaps.Keys, n, l))
  {
    DoneKeys(s, r);
    DoneGroup(s.snaps.Keys, r, n, l, r.after.snaps.Keys);
  }

  lemma FailedInGroup(s: State, r: Run, n: string, l: string)
    requires Step(s, r) && Proper(r, n, l) && Free('@', n) && Free('-', l) && !Completes(r.result)
    ensures Group(r.after.snaps.Keys, n, l) == Group(s.snaps.Keys, n, l)
  {
    FailureRollsBack(s, r);
    RolledBackGroup(r.env, s.snaps, r.after.snaps, r.req, n, l);
  }

  /** One run, seen from one group. */
  lemma RunInGroup(s: State, r: Run, n: string, l: string)
    requires Step(s, r) && Proper(r, n, l) && Free('@', n) && Free('-', l)
    ensures GroupStep(Group(s.snaps.Keys, n, l), r, n, l, Group(r.after.snaps.Keys, n, l))
  {
    if Completes(r.result) {
      DoneInGroup(s, r, n, l);
    } else {
      FailedInGroup(s, r, n, l);
    }
  }

  /** A run changes the contents of no snapshot, and what it takes are the live contents. */
  lemma RunKeepsContents(s: State, r: Run, n: string)
    requires Step(s, r) && AtFree(r.req.names)
    ensures SameContents(s.snaps, r.after.snaps, s.snaps.Keys)
    ensures Completes(r.result) && n in r.req.names ==> n in r.req.live
    ensures Completes(r.result) && n in r.req.names && r.req.New(n) in r.after.snaps ==>
      r.after.snaps[r.req.New(n)] == Snapshot(r.req.live[n], r.req.txg)
  {
    if Completes(r.result) {
      DoneKeys(s, r);
      DoneContents(s, r.req, r.after.snaps);
    } else {
      FailureRollsBack(s, r);
    }
  }

  lemma FailureRollsBack(s: State, r: Run)
    requires Step(s, r) && !Completes(r.result)
    ensures RolledBack(r.env, s.snaps, r.after.snaps, r.req.AllNew())
  {
  }

  // ----- the streams of one run -----

  /** The newest member is `last`, if there is a member at all. */
  ghost predicate EndsIn(group: set<string>, last: string) {
    group == {} || (last in group && forall s :: s in group ==> Le(s, last))
  }

  lemma NewestPairUnique(g: set<string>, f: string, t: string, from: string, to: string)
    requires NewestPair(g, f, t) && NewestPair(g, from, to)
    ensures f == from && t == to
  {
    LeAntisymmetric(t, to);
    if g != {t} {
      LeAntisymmetric(f, from);
    }
  }

  /** `newest` has one possible answer, however the driver filters and orders, and it is
      about all snapshots, not only the listed ones. */
  lemma NewestIgnoresListing(snaps: set<string>, n: string, l: string, a: seq<string>, b: seq<string>,
                             f: string, t: string, from: string, to: string)
    requires Lists(snaps, n, a) && NewestPair(Group(Elements(a), n, l), f, t)
    requires Lists(snaps, n, b) && NewestPair(Group(Elements(b), n, l), from, to)
    ensures f == from && t == to && NewestPair(Group(snaps, n, l), f, t)
  {
    ListedGroup(snaps, n, l, a);
    ListedGroup(snaps, n, l, b);
    NewestPairUnique(Group(snaps, n, l), f, t, from, to);
  }

  lemma PairAfterAdding(g: set<string>, last: string, new': string, from: string, to: string)
    requires EndsIn(g, last) && new' !in g && (g != {} ==> Le(last, new'))
    requires NewestPair(g + {new'}, from, to)
    ensures to == new' && from == if g == {} then "" else last
  {
    forall x | x in g ensures Le(x, new') {
      LeTransitive(x, last, new');
    }
    LeReflexive(new');
    LeAntisymmetric(to, new');
    if g == {} {
      assert g + {new'} == {to};
    } else {
      assert last in g + {new'};
      LeAntisymmetric(from, last);
    }
  }

  ghost predicate SendsFrom(r: Run, n: string, from: string)
    requires |r.sent| <= |r.req.names|
  {
    forall i :: 0 <= i < |r.sent| && r.req.names[i] == n ==>
      r.sent[i].to == r.req.New(n) && r.sent[i].From() == from
  }

  lemma SentCount(s: State, r: Run)
    requires Step(s, r)
    ensures |r.sent| <= |r.req.names|
    ensures |r.sent| > 0 ==> AllLive(r.req.live, r.req.names) && SentFor(Mid(s, r.req), r.req.names, r.req.lbl, r.sent)
    ensures s.snaps.Keys !! r.req.AllNew() || r.sent == []
  {
    if r.sent != [] {
      FreshIsNew(s.snaps.Keys, r.req);
    }
  }

  lemma MidGroup(s: State, r: Run, n: string, l: string)
    requires Proper(r, n, l) && Touches(r.req, n, l) && Free('@', n) && Free('-', l)
    requires s.snaps.Keys !! r.req.AllNew() && AllLive(r.req.live, r.req.names)
    ensures Group(Mid(s, r.req).Keys, n, l) == Group(s.snaps.Keys, n, l) + {r.req.New(n)}
    ensures r.req.New(n) !in Group(s.snaps.Keys, n, l)
  {
    NewInGroup(r.req, n, l);
    GroupUnion(s.snaps.Keys, r.req.AllNew(), n, l);
  }

  /** Each stream for the dataset leads to this run's snapshot, and it starts at the
      newest earlier member of the group, or is a full dump if there is none. */
  lemma RunSends(s: State, r: Run, n: string, l: string, last: string)
    requires Step(s, r) && Proper(r, n, l) && Touches(r.req, n, l) && Free('@', n) && Free('-', l)
    requires EndsIn(Group(s.snaps.Keys, n, l), last)
    requires Group(s.snaps.Keys, n, l) != {} ==> Le(last, r.req.New(n))
    ensures |r.sent| <= |r.req.names|
    ensures SendsFrom(r, n, if Group(s.snaps.Keys, n, l) == {} then "" else last)
  {
    SentCount(s, r);
    forall i | 0 <= i < |r.sent| && r.req.names[i] == n
      ensures r.sent[i].to == r.req.New(n)
      ensures r.sent[i].From() == if Group(s.snaps.Keys, n, l) == {} then "" else last
    {
      MidGroup(s, r, n, l);
      assert IsNextStream(Mid(s, r.req), n, l, r.sent[i]);
      PairAfterAdding(Group(s.snaps.Keys, n, l), last, r.req.New(n), r.sent[i].From(), r.sent[i].to);
    }
  }

  lemma SentPair(s: State, r: Run, n: string, l: string, i: nat)
    requires Step(s, r) && Proper(r, n, l) && Touches(r.req, n, l) && Free('@', n) && Free('-', l)
    requires i < |r.sent| <= |r.req.names| && r.req.names[i] == n
    ensures NewestPair(Group(s.snaps.Keys, n, l) + {r.req.New(n)}, r.sent[i].From(), r.sent[i].to)
    ensures r.req.New(n) !in Group(s.snaps.Keys, n, l)
  {
    SentCount(s, r);
    MidGroup(s, r, n, l);
    assert IsNextStream(Mid(s, r.req), n, l, r.sent[i]);
  }

  /** A run sends its own new snapshot exactly if no earlier member of the group has a
      greater name. A clock that was set back breaks this, and nothing else does. */
  lemma OwnSnapshotExactly(s: State, r: Run, n: string, l: string, i: nat)
    requires Step(s, r) && Proper(r, n, l) && Touches(r.req, n, l) && Free('@', n) && Free('-', l)
    requires i < |r.sent| <= |r.req.names| && r.req.names[i] == n
    ensures r.sent[i].to == r.req.New(n) <==> forall x :: x in Group(s.snaps.Keys, n, l) ==> Le(x, r.req.New(n))
  {
    SentPair(s, r, n, l, i);
    var g, new', to := Group(s.snaps.Keys, n, l), r.req.New(n), r.sent[i].to;
    if forall x :: x in g ==> Le(x, new') {
      LeReflexive(new');
      LeAntisymmetric(to, new');
    }
    if to == new' {
      forall x | x in g ensures Le(x, new') {
        assert x in g + {new'};
      }
    }
  }

  /** An incremental stream starts at a given snapshot exactly if this is the newest
      earlier member of the group. So a snapshot that a refused delete left behind, or that
      a run without sending made, breaks the chain. */
  lemma StartsAtExactly(s: State, r: Run, n: string, l: string, i: nat, last: string)
    requires Step(s, r) && Proper(r, n, l) && Touches(r.req, n, l) && Free('@', n) && Free('-', l)
    requires i < |r.sent| <= |r.req.names| && r.req.names[i] == n
    requires Group(s.snaps.Keys, n, l) != {} && forall x :: x in Group(s.snaps.Keys, n, l) ==> Le(x, r.req.New(n))
    ensures r.sent[i].From() == last <==> last in Group(s.snaps.Keys, n, l) && EndsIn(Group(s.snaps.Keys, n, l), last)
  {
    SentPair(s, r, n, l, i);
    PairExactly(Group(s.snaps.Keys, n, l), r.req.New(n), r.sent[i].From(), r.sent[i].to, last);
  }

  lemma PairExactly(g: set<string>, new': string, from: string, to: string, last: string)
    requires g != {} && new' !in g && forall x :: x in g ==> Le(x, new')
    requires NewestPair(g + {new'}, from, to)
    ensures from == last <==> last in g && EndsIn(g, last)
  {
    LeReflexive(new');
    LeAntisymmetric(to, new');
    assert from in g && forall x :: x in g ==> Le(x, from) by {
      var x :| x in g;
      assert x in g + {new'};
    }
    if last in g && EndsIn(g, last) {
      LeAntisymmetric(from, last);
    }
  }

  // ----- histories -----

  function Init<T>(h: seq<T>): seq<T>
    requires h != []
  {
    h[..|h| - 1]
  }

  function Last<T>(h: seq<T>): T
    requires h != []
  {
    h[|h| - 1]
  }

  function Final(s0: State, h: seq<Run>): State {
    if h == [] then s0 else Last(h).after
  }

  /** Each run starts where the one before ended. */
  ghost predicate History(s0: State, h: seq<Run>) {
    h == [] || (History(s0, Init(h)) && Step(Final(s0, Init(h)), Last(h)))
  }

  /** The clock of this run is later than those of the group's runs before. */
  ghost predicate Later(h: seq<Run>, t: Clock, n: string, l: string) {
    forall i :: 0 <= i < |h| && Touches(h[i].req, n, l) ==> Before(h[i].req.clock, t)
  }

  /** A run that may follow a history: it is proper, and the clock has moved on, also since
      the newest snapshot `first` that the group had at the start. */
  ghost predicate MayFollow(first: string, h: seq<Run>, r: Run, n: string, l: string) {
    && Proper(r, n, l)
    && (Touches(r.req, n, l) ==> Later(h, r.req.clock, n, l) && Lt(first, r.req.New(n)))
  }

  ghost predicate Disciplined(first: string, h: seq<Run>, n: string, l: string) {
    h == [] || (Disciplined(first, Init(h), n, l) && MayFollow(first, Init(h), Last(h), n, l))
  }

  predicate Succeeds(r: Run, n: string, l: string) {
    Completes(r.result) && Touches(r.req, n, l)
  }

  /** The snapshot made by the last successful run of the group, or `first` before any. */
  ghost function LastDone(first: string, h: seq<Run>, n: string, l: string): string {
    if h == [] then first
    else if Succeeds(Last(h), n, l) then Last(h).req.New(n)
    else LastDone(first, Init(h), n, l)
  }

  lemma {:induction false} LastDoneIsOlder(first: string, h: seq<Run>, t: Clock, n: string, l: string)
    requires Later(h, t, n, l) && Lt(first, FullName(n, Stamp(l, t)))
    ensures Lt(LastDone(first, h, n, l), FullName(n, Stamp(l, t)))
  {
    if h != [] {
      LastDoneIsOlder(first, Init(h), t, n, l);
      if Succeeds(Last(h), n, l) {
        GroupOrder(n, l, Last(h).req.clock, t);
      }
    }
  }

  lemma GroupEndsIn(g: set<string>, r: Run, n: string, l: string, g': set<string>, last: string)
    requires GroupStep(g, r, n, l, g') && EndsIn(g, last)
    requires Touches(r.req, n, l) ==> Le(last, r.req.New(n))
    ensures EndsIn(g', if Succeeds(r, n, l) then r.req.New(n) else last)
  {
    if Completes(r.result) && n in r.req.names {
      var new' := NewMembers(r.req, n, l);
      if Touches(r.req, n, l) {
        LeReflexive(r.req.New(n));
        forall x | x in g' ensures Le(x, r.req.New(n)) {
          if x in g {
            LeTransitive(x, last, r.req.New(n));
          }
        }
      } else if x :| x in g' {
        assert g' - new' == g' && x in g;
        if x != last {
          assert Lt(x, last);
        }
      }
    }
  }

  lemma RunEndsIn(s: State, r: Run, n: string, l: string, last: string)
    requires Step(s, r) && Proper(r, n, l) && Free('@', n) && Free('-', l)
    requires EndsIn(Group(s.snaps.Keys, n, l), last)
    requires Touches(r.req, n, l) ==> Le(last, r.req.New(n))
    ensures EndsIn(Group(r.after.snaps.Keys, n, l), if Succeeds(r, n, l) then r.req.New(n) else last)
  {
    RunInGroup(s, r, n, l);
    GroupEndsIn(Group(s.snaps.Keys, n, l), r, n, l, Group(r.after.snaps.Keys, n, l), last);
  }

  /** The newest snapshot of the group at the start is `first`. If there is none at all,
      `first` may be the empty name. */
  ghost predicate StartsWith(snaps: set<string>, first: string, n: string, l: string) {
    && (forall x :: x in snaps && InGroup(x, n, l) ==> Le(x, first))
    && (first in snaps || forall x :: x in snaps ==> !InGroup(x, n, l))
    && (first == "" || InGroup(first, n, l))
  }

  lemma StartEndsIn(snaps: set<string>, first: string, n: string, l: string)
    requires StartsWith(snaps, first, n, l)
    ensures EndsIn(Group(snaps, n, l), first)
  {
  }

  /** The invariant behind incremental backups: whatever rotation and rollbacks have
      removed, the newest snapshot of the group is that of its last successful run. */
  lemma {:induction false} NewestIsLastDone(s0: State, first: string, h: seq<Run>, n: string, l: string)
    requires History(s0, h) && Disciplined(first, h, n, l) && Free('@', n) && Free('-', l)
    requires StartsWith(s0.snaps.Keys, first, n, l)
    ensures EndsIn(Group(Final(s0, h).snaps.Keys, n, l), LastDone(first, h, n, l))
  {
    if h == [] {
      StartEndsIn(s0.snaps.Keys, first, n, l);
    } else {
      NewestIsLastDone(s0, first, Init(h), n, l);
      if Touches(Last(h).req, n, l) {
        LastDoneIsOlder(first, Init(h), Last(h).req.clock, n, l);
      }
      RunEndsIn(Final(s0, Init(h)), Last(h), n, l, LastDone(first, Init(h), n, l));
    }
  }

  /** What the last run of a history found. */
  lemma LastRunFound(s0: State, first: string, h: seq<Run>, n: string, l: string)
    requires History(s0, h) && Disciplined(first, h, n, l) && Free('@', n) && Free('-', l)
    requires StartsWith(s0.snaps.Keys, first, n, l) && h != []
    ensures Proper(Last(h), n, l)
    ensures EndsIn(Group(Final(s0, Init(h)).snaps.Keys, n, l), LastDone(first, Init(h), n, l))
    ensures Touches(Last(h).req, n, l) ==> Lt(LastDone(first, Init(h), n, l), Last(h).req.New(n))
  {
    NewestIsLastDone(s0, first, Init(h), n, l);
    if Touches(Last(h).req, n, l) {
      LastDoneIsOlder(first, Init(h), Last(h).req.clock, n, l);
    }
  }

  /** Chain safety: after every history, every stream that the next run sends for the
      dataset leads to the snapshot this run made, and starts at the snapshot of the last
      successful run of the group (before any, at the newest snapshot of the start), or is
      a full dump; it is a full dump exactly if no snapshot of the group was left. */
  lemma ChainSafety(s0: State, first: string, h: seq<Run>, r: Run, n: string, l: string)
    requires History(s0, h) && Disciplined(first, h, n, l) && Free('@', n) && Free('-', l)
    requires StartsWith(s0.snaps.Keys, first, n, l)
    requires Step(Final(s0, h), r) && MayFollow(first, h, r, n, l) && Touches(r.req, n, l)
    ensures |r.sent| <= |r.req.names|
    ensures SendsFrom(r, n, if Group(Final(s0, h).snaps.Keys, n, l) == {} then "" else LastDone(first, h, n, l))
  {
    NewestIsLastDone(s0, first, h, n, l);
    LastDoneIsOlder(first, h, r.req.clock, n, l);
    RunSends(Final(s0, h), r, n, l, LastDone(first, h, n, l));
  }
}
