/**
 One run of TakeSnapshot as a relation between the states before and after it.
 The relation says what the stores look like for every way a run can end; how the
 loops get there is ZfsSnapshots.dfy, and what follows over many runs is Chains.dfy.
 */
module Runs {
  import opened Text
  import opened WallClock
  import opened Names
  import opened Streams
  import opened Stores

  datatype State = State(snaps: map<string, Snapshot>, files: map<string, File>)

  /** The arguments of one call, the wall clock, and what the datasets hold at that time;
      `txg` is the number of the pool's transaction that makes the snapshots. */
  datatype Request = Request(names: seq<string>, lbl: string, clock: Clock, keep: int, send: bool,
                             dir: string, live: map<string, Contents>, txg: nat)
  {
    function TheStamp(): string { Stamp(lbl, clock) }
    function New(n: string): string { FullName(n, TheStamp()) }
    function Snap(n: string): string { DumpPath(dir, n, TheStamp()) }
    function Tmp(n: string): string { TmpPath(dir, n, TheStamp()) }
    ghost function AllNew(): set<string> { NewNames(names, TheStamp()) }
  }

  /** A negative `keep` may end the program with a panic in `cleanup`, and does so if there
      are no old snapshots. */
  datatype Result = Done | ListFailed | AlreadyExists | CreateFailed | SendFailed | RenameFailed | Panicked

  /** The new snapshots and dumps stay: all was done but perhaps the rotation. */
  predicate Completes(result: Result) {
    result == Done || result == Panicked
  }

  /** `listing` is what the driver listed at the start, `sent` the dumps it wrote in order. */
  datatype Run = Run(env: Env, req: Request, listing: seq<string>, result: Result, sent: seq<Stream>, after: State)

  // ----- which stream a dataset gets -----

  ghost function Group(snaps: set<string>, name: string, lbl: string): set<string> {
    set s | s in snaps && InGroup(s, name, lbl)
  }

  /** `to` is the greatest member; `from` is the greatest of the others, or empty. */
  ghost predicate NewestPair(group: set<string>, from: string, to: string) {
    && to in group
    && (forall s :: s in group ==> Le(s, to))
    && (if group == {to} then from == ""
        else from in group && from != to && forall s :: s in group && s != to ==> Le(s, from))
  }

  ghost predicate IsNextStream(snaps: map<string, Snapshot>, name: string, lbl: string, s: Stream) {
    && NewestPair(Group(snaps.Keys, name, lbl), s.From(), s.to)
    && MaySend(snaps, s.From(), s.to) && s == StreamOf(snaps, s.From(), s.to)
  }

  /** The two newest by name are not in the order in which they were made, so that the driver
      refuses to send. */
  ghost predicate Refused(snaps: map<string, Snapshot>, name: string, lbl: string) {
    exists from, to :: NewestPair(Group(snaps.Keys, name, lbl), from, to) && !MaySend(snaps, from, to)
  }

  /** All streams of the call can be sent once its snapshots are there. */
  ghost predicate Sendable(s: State, q: Request)
    requires AllLive(q.live, q.names)
  {
    forall n :: n in q.names ==> !Refused(Mid(s, q), n, q.lbl)
  }

  ghost predicate SentFor(snaps: map<string, Snapshot>, names: seq<string>, lbl: string, sent: seq<Stream>) {
    |sent| <= |names| && forall i {:trigger sent[i]} :: 0 <= i < |sent| ==> IsNextStream(snaps, names[i], lbl, sent[i])
  }

  /** The group is the same whatever else the driver lists. */
  lemma ListedGroup(snaps: set<string>, name: string, lbl: string, listing: seq<string>)
    requires Lists(snaps, name, listing) || Lists(snaps, "", listing)
    ensures Group(Elements(listing), name, lbl) == Group(snaps, name, lbl)
  {
    forall s | s in Group(snaps, name, lbl) ensures s in listing {
      GroupInDataset(s, name, lbl);
    }
  }

  // ----- which snapshots rotation removes -----

  function SnapshotsOf(listing: seq<string>, name: string): seq<string> {
    if listing == [] then []
    else
      var rest, s := SnapshotsOf(listing[..|listing| - 1], name), listing[|listing| - 1];
      if OfDataset(s, name) then rest + [s] else rest
  }

  /** The old snapshots of all datasets of the call, together in one pool. */
  function Pool(listing: seq<string>, names: seq<string>): seq<string> {
    if names == [] then []
    else Pool(listing, names[..|names| - 1]) + SnapshotsOf(listing, names[|names| - 1])
  }

  /** Of n pooled snapshots the n - keep + 1 smallest go; all of them for a negative keep. */
  function Doomed(pool: seq<string>, keep: int): set<string> {
    if |pool| < keep then {}
    else if keep <= 0 then Elements(pool)
    else Elements(Sort(pool)[..|pool| - keep + 1])
  }

  /** Of the doomed at most those are left whose deletion may be refused; nothing else has
      changed. */
  ghost predicate Rotated(env: Env, mid: map<string, Snapshot>, after: map<string, Snapshot>, doomed: set<string>) {
    && Extends(after, mid)
    && mid.Keys - doomed <= after.Keys
    && after.Keys !! doomed - env.held
  }

  /** If no doomed snapshot is held, all of them are gone. */
  lemma RotatedExactly(env: Env, mid: map<string, Snapshot>, after: map<string, Snapshot>, doomed: set<string>)
    requires Rotated(env, mid, after, doomed) && env.held !! doomed
    ensures after == mid - doomed
  {
    assert doomed - env.held == doomed;
  }

  // ----- the ways a run can end -----

  /** No existing snapshot ends in one of the new names. */
  ghost predicate Fresh(snaps: set<string>, q: Request)
  {
    forall n, s :: n in q.names && s in snaps ==> !HasSuffix(s, q.New(n))
  }

  /** So a run never takes the name of a snapshot that is there. */
  lemma FreshIsNew(snaps: set<string>, q: Request)
    requires Fresh(snaps, q)
    ensures snaps !! q.AllNew()
  {
    forall n | n in q.names ensures q.New(n) !in snaps {
      assert HasSuffix(q.New(n), q.New(n));
    }
  }

  /** After a failure nothing old is gone or changed, and of the new at most those are left
      whose deletion may be refused. */
  ghost predicate RolledBack(env: Env, before: map<string, Snapshot>, after: map<string, Snapshot>, new': set<string>) {
    && Extends(before, after)
    && after.Keys <= before.Keys + new'
    && after.Keys !! (new' - before.Keys) - env.held
  }

  lemma RolledBackExactly(env: Env, before: map<string, Snapshot>, after: map<string, Snapshot>, new': set<string>)
    requires RolledBack(env, before, after, new') && env.held !! new'
    ensures after == before
  {
    assert after.Keys == before.Keys;
  }

  ghost predicate SameAt(before: map<string, File>, after: map<string, File>, p: string) {
    if p in before then p in after && after[p] == before[p] else p !in after
  }

  ghost predicate Holds(files: map<string, File>, p: string, f: File) {
    p in files && files[p] == f
  }

  /** The temporary files of the first k datasets. */
  ghost function Tmps(q: Request, k: nat): set<string>
    requires k <= |q.names|
  {
    set n | n in q.names[..k] :: q.Tmp(n)
  }

  ghost function Snaps(q: Request): set<string>
  {
    set n | n in q.names :: q.Snap(n)
  }

  /** Of the first `made` temporary files at most those are left whose removal may be
      refused; nothing else has changed. */
  ghost predicate Discarded(env: Env, q: Request, before: map<string, File>, after: map<string, File>, made: nat)
    requires made <= |q.names|
  {
    && after.Keys !! Tmps(q, made) - env.unremovable
    && (forall p :: p !in Tmps(q, made) ==> SameAt(before, after, p))
  }

  /** Dataset i writes its dump last among those with the same dump path. */
  ghost predicate WritesLast(q: Request, i: nat)
    requires i < |q.names|
  {
    forall j :: i < j < |q.names| ==> q.Snap(q.names[j]) != q.Snap(q.names[i])
  }

  ghost predicate Apart(q: Request, p: string)
  {
    p !in Tmps(q, |q.names|) && p !in Snaps(q)
  }

  /** Every dump is under its final name, no temporary file is left, and nothing else has changed. */
  ghost predicate Published(q: Request, sent: seq<Stream>, before: map<string, File>, after: map<string, File>)
    requires |sent| == |q.names|
  {
    && Tmps(q, |q.names|) !! after.Keys && Snaps(q) <= after.Keys
    && (forall i {:trigger sent[i]} :: 0 <= i < |sent| && WritesLast(q, i) ==>
          Holds(after, q.Snap(q.names[i]), Dump(sent[i])))
    && (forall p :: Apart(q, p) ==> SameAt(before, after, p))
  }

  /** Some renames were refused: each dump is complete, under its final name or, if its own
      rename may be refused, under its temporary one. */
  ghost predicate PartlyPublished(env: Env, q: Request, sent: seq<Stream>, before: map<string, File>,
                                  after: map<string, File>)
    requires |sent| == |q.names|
  {
    && !(Tmps(q, |q.names|) !! after.Keys)
    && after.Keys !! Tmps(q, |q.names|) - env.unmovable
    && (forall i {:trigger sent[i]} :: 0 <= i < |sent| && WritesLast(q, i) ==>
          var (tmp, snap) := (q.Tmp(q.names[i]), q.Snap(q.names[i]));
          if tmp in after then after[tmp] == Dump(sent[i]) && SameAt(before, after, snap)
          else Holds(after, snap, Dump(sent[i])))
    && (forall p :: Apart(q, p) ==> SameAt(before, after, p))
  }

  ghost function Mid(s: State, q: Request): map<string, Snapshot>
    requires AllLive(q.live, q.names)
  {
    s.snaps + Taken(q.live, q.names, q.TheStamp(), q.txg)
  }

  lemma MidContents(s: State, q: Request, n: string)
    requires AllLive(q.live, q.names) && n in q.names
    ensures q.New(n) in Mid(s, q) && Mid(s, q)[q.New(n)] == Snapshot(q.live[n], q.txg)
  {
  }

  ghost predicate EndsCreateFailed(env: Env, s: State, q: Request, sent: seq<Stream>, after: State)
  {
    && (env.createWorks && Distinct(q.names) ==> !AllLive(q.live, q.names))
    && sent == [] && after.files == s.files
    && RolledBack(env, s.snaps, after.snaps, q.AllNew())
  }

  ghost predicate EndsSendFailed(env: Env, s: State, q: Request, sent: seq<Stream>, after: State)
  {
    && q.send && AllLive(q.live, q.names)
    && !(env.listWorks && env.openWorks && env.sendWorks && Sendable(s, q))
    && |sent| < |q.names| && SentFor(Mid(s, q), q.names, q.lbl, sent)
    && RolledBack(env, s.snaps, after.snaps, q.AllNew())
    && (Discarded(env, q, s.files, after.files, |sent|) || Discarded(env, q, s.files, after.files, |sent| + 1))
  }

  ghost predicate EndsRenameFailed(env: Env, s: State, q: Request, sent: seq<Stream>, after: State)
  {
    && q.send
    && AllLive(q.live, q.names)
    && |sent| == |q.names| && SentFor(Mid(s, q), q.names, q.lbl, sent)
    && RolledBack(env, s.snaps, after.snaps, q.AllNew())
    && PartlyPublished(env, q, sent, s.files, after.files)
  }

  /** All datasets have their snapshot and, if asked for, their dump. */
  ghost predicate Dumps(s: State, q: Request, sent: seq<Stream>, after: map<string, File>)
  {
    && AllLive(q.live, q.names)
    && (if q.send then
          && |sent| == |q.names| && SentFor(Mid(s, q), q.names, q.lbl, sent)
          && Published(q, sent, s.files, after)
        else sent == [] && after == s.files)
  }

  ghost predicate EndsDone(env: Env, s: State, q: Request, pool: seq<string>, sent: seq<Stream>, after: State)
  {
    && Dumps(s, q, sent, after.files) && (q.keep < 0 ==> pool != [])
    && (if q.keep == 0 then after.snaps == Mid(s, q)
        else Rotated(env, Mid(s, q), after.snaps, Doomed(pool, q.keep)))
  }

  /** The slice of more snapshots than there are did not fit, so nothing was rotated. */
  ghost predicate EndsPanicked(s: State, q: Request, sent: seq<Stream>, after: State)
  {
    Dumps(s, q, sent, after.files) && q.keep < 0 && after.snaps == Mid(s, q)
  }

  /** How a run ends that got past the freshness check. */
  ghost predicate Ends(result: Result, env: Env, s: State, q: Request, pool: seq<string>, sent: seq<Stream>,
                       after: State)
  {
    match result
    case CreateFailed => EndsCreateFailed(env, s, q, sent, after)
    case SendFailed => EndsSendFailed(env, s, q, sent, after)
    case RenameFailed => EndsRenameFailed(env, s, q, sent, after)
    case Done => EndsDone(env, s, q, pool, sent, after)
    case Panicked => EndsPanicked(s, q, sent, after)
    case _ => false
  }

  /** One run, from its start in `s`. */
  ghost predicate Step(s: State, r: Run) {
    var q := r.req;
    && match r.result
       case ListFailed =>
         !r.env.listWorks && r.after == s && r.sent == []
       case AlreadyExists =>
         !Fresh(s.snaps.Keys, q) && r.after == s && r.sent == []
       case _ =>
         && Fresh(s.snaps.Keys, q) && Lists(s.snaps.Keys, "", r.listing)
         && Ends(r.result, r.env, s, q, Pool(r.listing, q.names), r.sent, r.after)
  }
}
