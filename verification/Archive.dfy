/**
 What the dump directory is worth: after every history, applying the dumps of a dataset
 and label in the order of their file names rebuilds its newest snapshot.
 */
module Archive {
  import opened Text
  import opened WallClock
  import opened Names
  import opened Streams
  import opened Stores
  import opened Runs
  import opened Chains

  // ----- one run and the dumps of one group -----

  /** What the archive of a group in directory `d` needs of a run that sends. Into `d`: a
      label without dashes, no other dataset of the same dash form, and, for a run of the
      group, no file of its own whose renaming may be refused. Into another directory: clean paths. */
  ghost predicate Archives(r: Run, d: string, n: string, l: string) {
    r.req.send ==>
      if r.req.dir == d then
        && Free('-', r.req.lbl)
        && (forall m :: m in r.req.names && m != n ==> Dashed(m) != Dashed(n))
        && (Touches(r.req, n, l) ==> r.env.unmovable !! Tmps(r.req, |r.req.names|))
      else
        CleanDir(d) && CleanDir(r.req.dir) && Free('/', l) && Free('/', r.req.lbl)
  }

  /** The run leaves a snapshot of the group, and its dump in `d`. */
  predicate SendsOne(r: Run, d: string, n: string, l: string) {
    Succeeds(r, n, l) && r.req.send && r.req.dir == d
  }

  function DumpOf(d: string, n: string, l: string, t: Clock): string {
    DumpPath(d, n, Stamp(l, t))
  }

  lemma OtherSnap(q: Request, m: string, d: string, n: string, l: string, t: Clock)
    requires q.dir == d && Free('-', q.lbl) && Free('-', l)
    requires Dashed(m) != Dashed(n) || q.lbl != l || q.clock != t
    ensures q.Snap(m) != DumpOf(d, n, l, t)
  {
    DumpFileDecodes(m, q.lbl, q.clock, n, l, t);
    JoinInjective(d, DumpFile(m, q.TheStamp()), DumpFile(n, Stamp(l, t)));
  }

  /** A run leaves alone the dumps of the group, except the one it makes itself. */
  lemma ApartFrom(q: Request, d: string, n: string, l: string, t: Clock)
    requires q.dir == d && Free('-', q.lbl) && Free('-', l)
    requires forall m :: m in q.names && m != n ==> Dashed(m) != Dashed(n)
    requires !(Touches(q, n, l) && t == q.clock)
    ensures Apart(q, DumpOf(d, n, l, t))
  {
    forall m | m in q.names
      ensures q.Snap(m) != DumpOf(d, n, l, t) && q.Tmp(m) != DumpOf(d, n, l, t)
    {
      OtherSnap(q, m, d, n, l, t);
      TmpIsNoDump(d, m, q.TheStamp(), d, n, Stamp(l, t));
    }
  }

  lemma OtherDirectory(q: Request, d: string, n: string, l: string, t: Clock)
    requires q.dir != d && CleanDir(q.dir) && CleanDir(d) && Free('/', q.lbl) && Free('/', l)
    ensures Apart(q, DumpOf(d, n, l, t))
  {
    forall m | m in q.names
      ensures q.Snap(m) != DumpOf(d, n, l, t) && q.Tmp(m) != DumpOf(d, n, l, t)
    {
      DumpPathDirectory(q.dir, m, q.lbl, q.clock, d, n, l, t);
      TmpIsNoDump(q.dir, m, q.TheStamp(), d, n, Stamp(l, t));
    }
  }

  /** The last place of a name in the list. */
  function LastIndex(names: seq<string>, n: string): (i: nat)
    requires n in names
    ensures i < |names| && names[i] == n && forall j :: i < j < |names| ==> names[j] != n
  {
    if names[|names| - 1] == n then |names| - 1 else LastIndex(names[..|names| - 1], n)
  }

  /** The stream that ends up in the dump file of dataset n. */
  function StreamFor(r: Run, n: string): Stream
    requires n in r.req.names
  {
    var i := LastIndex(r.req.names, n);
    if i < |r.sent| then r.sent[i] else Full("", map[])
  }

  lemma OwnWritesLast(q: Request, n: string)
    requires n in q.names
    requires forall m :: m in q.names && m != n ==> Dashed(m) != Dashed(n)
    ensures WritesLast(q, LastIndex(q.names, n))
  {
    var i := LastIndex(q.names, n);
    forall j | i < j < |q.names| ensures q.Snap(q.names[j]) != q.Snap(q.names[i]) {
      DumpPathsDiffer(q.dir, q.names[j], n, q.TheStamp());
    }
  }

  /** The files that one way of ending a run may touch. */
  lemma FilesApart(s: State, r: Run, p: string)
    requires Step(s, r) && Apart(r.req, p)
    ensures SameAt(s.files, r.after.files, p)
  {
    if r.result == SendFailed {
      assert Tmps(r.req, |r.req.names|) >= Tmps(r.req, |r.sent|);
      assert Tmps(r.req, |r.req.names|) >= Tmps(r.req, |r.sent| + 1);
    }
  }

  lemma FailedFiles(s: State, r: Run, p: string)
    requires Step(s, r) && !Completes(r.result) && (r.req.send ==> r.env.unmovable !! Tmps(r.req, |r.req.names|))
    requires p !in Tmps(r.req, |r.req.names|)
    ensures SameAt(s.files, r.after.files, p)
  {
    if r.result == SendFailed {
      assert Tmps(r.req, |r.req.names|) >= Tmps(r.req, |r.sent|);
      assert Tmps(r.req, |r.req.names|) >= Tmps(r.req, |r.sent| + 1);
    }
  }

  lemma SnapIsNoTmp(q: Request, n: string)
    ensures q.Snap(n) !in Tmps(q, |q.names|)
  {
    forall m | m in q.names ensures q.Tmp(m) != q.Snap(n) {
      TmpIsNoDump(q.dir, m, q.TheStamp(), q.dir, n, q.TheStamp());
    }
  }

  lemma OwnFile(s: State, r: Run, n: string)
    requires Step(s, r) && Completes(r.result) && r.req.send && n in r.req.names
    requires WritesLast(r.req, LastIndex(r.req.names, n))
    ensures |r.sent| == |r.req.names|
    ensures Holds(r.after.files, r.req.Snap(n), Dump(StreamFor(r, n)))
  {
  }

  lemma RunInArchive(s: State, r: Run, d: string, n: string, l: string, t: Clock)
    requires Step(s, r) && Archives(r, d, n, l) && Free('-', l)
    ensures if SendsOne(r, d, n, l) && t == r.req.clock
            then Holds(r.after.files, DumpOf(d, n, l, t), Dump(StreamFor(r, n)))
            else SameAt(s.files, r.after.files, DumpOf(d, n, l, t))
  {
    if !r.req.send {
    } else if r.req.dir != d {
      OtherDirectory(r.req, d, n, l, t);
      FilesApart(s, r, DumpOf(d, n, l, t));
    } else if !(Touches(r.req, n, l) && t == r.req.clock) {
      ApartFrom(r.req, d, n, l, t);
      FilesApart(s, r, DumpOf(d, n, l, t));
    } else if SendsOne(r, d, n, l) {
      OwnWritesLast(r.req, n);
      OwnFile(s, r, n);
    } else if !Completes(r.result) {
      SnapIsNoTmp(r.req, n);
      FailedFiles(s, r, DumpOf(d, n, l, t));
    }
  }

  // ----- histories -----

  ghost predicate Archiving(h: seq<Run>, d: string, n: string, l: string) {
    h == [] || (Archiving(Init(h), d, n, l) && Archives(Last(h), d, n, l))
  }

  datatype LedgerEntry = LedgerEntry(time: Clock, stream: Stream)

  /** Where a history starts: the newest snapshot of the group with its contents, and the
      dumps of the group that are in the directory already. */
  datatype Start = Start(newest: string, contents: Contents, ledger: seq<LedgerEntry>)

  const NEW_SYSTEM := Start("", map[], [])

  /** The dumps of the group: those of the start and those of the successful runs that
      sent, in the order of the runs. */
  ghost function Ledger(start: Start, h: seq<Run>, d: string, n: string, l: string): seq<LedgerEntry> {
    if h == [] then start.ledger
    else if SendsOne(Last(h), d, n, l) then
      Ledger(start, Init(h), d, n, l) + [LedgerEntry(Last(h).req.clock, StreamFor(Last(h), n))]
    else Ledger(start, Init(h), d, n, l)
  }

  /** The group's dumps in the directory are exactly those of the ledger. */
  ghost predicate Keeps(files: map<string, File>, d: string, n: string, l: string, ledger: seq<LedgerEntry>) {
    && (forall e :: e in ledger ==> Holds(files, DumpOf(d, n, l, e.time), Dump(e.stream)))
    && (forall t: Clock :: DumpOf(d, n, l, t) in files ==> exists e :: e in ledger && e.time == t)
  }

  ghost predicate AllBefore(ledger: seq<LedgerEntry>, t: Clock) {
    forall e :: e in ledger ==> Before(e.time, t)
  }

  ghost predicate InOrder(ledger: seq<LedgerEntry>) {
    forall i, j :: 0 <= i < j < |ledger| ==> Before(ledger[i].time, ledger[j].time)
  }

  /** Every dump leads to the snapshot of its own time. */
  ghost predicate TimesMatch(ledger: seq<LedgerEntry>, n: string, l: string) {
    forall e :: e in ledger ==> e.stream.to == FullName(n, Stamp(l, e.time))
  }

  ghost predicate UpTo(ledger: seq<LedgerEntry>, newest: string) {
    forall e :: e in ledger ==> Le(e.stream.to, newest)
  }

  lemma LedgerBefore(ledger: seq<LedgerEntry>, newest: string, t: Clock, n: string, l: string)
    requires TimesMatch(ledger, n, l) && UpTo(ledger, newest) && Lt(newest, FullName(n, Stamp(l, t)))
    ensures AllBefore(ledger, t)
  {
    forall e | e in ledger ensures Before(e.time, t) {
      GroupOrder(n, l, e.time, t);
      LeTransitive(e.stream.to, newest, FullName(n, Stamp(l, t)));
      if e.time == t {
        LeAntisymmetric(e.stream.to, newest);
      }
    }
  }

  lemma {:induction false} LedgerIsOlder(start: Start, h: seq<Run>, t: Clock, d: string, n: string, l: string)
    requires Later(h, t, n, l) && AllBefore(start.ledger, t)
    ensures AllBefore(Ledger(start, h, d, n, l), t)
  {
    if h != [] {
      LedgerIsOlder(start, Init(h), t, d, n, l);
    }
  }

  lemma NextIsLater(start: Start, h: seq<Run>, r: Run, d: string, n: string, l: string)
    requires MayFollow(start.newest, h, r, n, l) && Touches(r.req, n, l)
    requires TimesMatch(start.ledger, n, l) && UpTo(start.ledger, start.newest)
    ensures AllBefore(Ledger(start, h, d, n, l), r.req.clock)
  {
    LedgerBefore(start.ledger, start.newest, r.req.clock, n, l);
    LedgerIsOlder(start, h, r.req.clock, d, n, l);
  }

  lemma {:induction false} LedgerInOrder(start: Start, h: seq<Run>, d: string, n: string, l: string)
    requires Disciplined(start.newest, h, n, l)
    requires TimesMatch(start.ledger, n, l) && UpTo(start.ledger, start.newest) && InOrder(start.ledger)
    ensures InOrder(Ledger(start, h, d, n, l))
  {
    if h != [] {
      LedgerInOrder(start, Init(h), d, n, l);
      if SendsOne(Last(h), d, n, l) {
        NextIsLater(start, Init(h), Last(h), d, n, l);
        AppendInOrder(Ledger(start, Init(h), d, n, l), LedgerEntry(Last(h).req.clock, StreamFor(Last(h), n)));
      }
    }
  }

  lemma AppendInOrder(ledger: seq<LedgerEntry>, e: LedgerEntry)
    requires InOrder(ledger) && AllBefore(ledger, e.time)
    ensures InOrder(ledger + [e])
  {
    assert forall i :: 0 <= i < |ledger| ==> (ledger + [e])[i] == ledger[i] && ledger[i] in ledger;
  }

  lemma KeepsStep(s: State, r: Run, d: string, n: string, l: string, ledger: seq<LedgerEntry>)
    requires Step(s, r) && Archives(r, d, n, l) && Free('-', l)
    requires Keeps(s.files, d, n, l, ledger) && (Touches(r.req, n, l) ==> AllBefore(ledger, r.req.clock))
    ensures Keeps(r.after.files, d, n, l,
                  if SendsOne(r, d, n, l) then ledger + [LedgerEntry(r.req.clock, StreamFor(r, n))] else ledger)
  {
    forall t: Clock
      ensures if SendsOne(r, d, n, l) && t == r.req.clock
              then Holds(r.after.files, DumpOf(d, n, l, t), Dump(StreamFor(r, n)))
              else SameAt(s.files, r.after.files, DumpOf(d, n, l, t))
    {
      RunInArchive(s, r, d, n, l, t);
    }
    KeepsAppend(s.files, r.after.files, d, n, l, ledger, SendsOne(r, d, n, l), r.req.clock,
                if n in r.req.names then StreamFor(r, n) else Full("", map[]));
  }

  lemma KeepsAppend(before: map<string, File>, after: map<string, File>, d: string, n: string, l: string,
                    ledger: seq<LedgerEntry>, added: bool, c: Clock, s: Stream)
    requires Keeps(before, d, n, l, ledger) && (added ==> AllBefore(ledger, c))
    requires forall t: Clock ::
      if added && t == c then Holds(after, DumpOf(d, n, l, t), Dump(s)) else SameAt(before, after, DumpOf(d, n, l, t))
    ensures Keeps(after, d, n, l, if added then ledger + [LedgerEntry(c, s)] else ledger)
  {
    var ledger' := if added then ledger + [LedgerEntry(c, s)] else ledger;
    forall e | e in ledger' ensures Holds(after, DumpOf(d, n, l, e.time), Dump(e.stream)) {
      if e in ledger {
        assert Holds(before, DumpOf(d, n, l, e.time), Dump(e.stream));
        assert added ==> e.time != c;
      }
    }
    forall t: Clock | DumpOf(d, n, l, t) in after ensures exists e :: e in ledger' && e.time == t {
      if added && t == c {
        assert LedgerEntry(c, s) in ledger';
      } else {
        var e :| e in ledger && e.time == t;
        assert e in ledger';
      }
    }
  }

  /** Exactly the dumps of the ledger are in the directory, unchanged. */
  lemma {:induction false} DirectoryIsLedger(s0: State, start: Start, h: seq<Run>, d: string, n: string, l: string)
    requires History(s0, h) && Disciplined(start.newest, h, n, l) && Archiving(h, d, n, l) && Free('-', l)
    requires Keeps(s0.files, d, n, l, start.ledger)
    requires TimesMatch(start.ledger, n, l) && UpTo(start.ledger, start.newest)
    ensures Keeps(Final(s0, h).files, d, n, l, Ledger(start, h, d, n, l))
  {
    if h != [] {
      DirectoryIsLedger(s0, start, Init(h), d, n, l);
      if Touches(Last(h).req, n, l) {
        NextIsLater(start, Init(h), Last(h), d, n, l);
      }
      KeepsStep(Final(s0, Init(h)), Last(h), d, n, l, Ledger(start, Init(h), d, n, l));
    }
  }

  // ----- replay -----

  /** What the dataset held when the last successful run of the group took its snapshot. */
  ghost function LastContents(start: Start, h: seq<Run>, n: string, l: string): Contents {
    if h == [] then start.contents
    else if Succeeds(Last(h), n, l) then
      if n in Last(h).req.live then Last(h).req.live[n] else map[]
    else LastContents(start, Init(h), n, l)
  }

  ghost function StreamsOf(ledger: seq<LedgerEntry>): seq<Stream> {
    seq(|ledger|, i requires 0 <= i < |ledger| => ledger[i].stream)
  }

  /** If the newest snapshot is still there, it holds what was taken then. */
  ghost predicate Intact(snaps: map<string, Snapshot>, last: string, c: Contents) {
    last != "" && last in snaps ==> snaps[last].contents == c
  }

  /** A replica that has followed the group stands where the last successful run ended. */
  ghost predicate Follows(x: Replica, last: string, c: Contents) {
    if last == "" then x == Nothing else x == At(last, c)
  }

  /** A replica that stands at the newest snapshot has its contents. */
  ghost predicate Faithful(x: Replica, last: string, c: Contents) {
    x.At? && x.snapshot == last ==> x.contents == c
  }

  /** A stream to the newest snapshot is received well exactly if it is full or the replica
      stands where the stream starts. */
  lemma StreamExactly(snaps: map<string, Snapshot>, g: set<string>, from: string, to: string,
                      x: Replica, last: string, c: Contents)
    requires to in snaps && (from == "" || from in snaps) && from == if g == {} then "" else last
    requires EndsIn(g, last) && (forall s :: s in g ==> s != "")
    requires Faithful(x, last, c) && (g != {} ==> Intact(snaps, last, c))
    ensures Receive(x, StreamOf(snaps, from, to))
         == if g == {} || Follows(x, last, c) then At(to, snaps[to].contents) else Broken
  {
    if from != "" {
      PatchDiff(snaps[from].contents, snaps[to].contents);
    }
  }

  lemma GroupHasNames(snaps: set<string>, n: string, l: string)
    ensures forall s :: s in Group(snaps, n, l) ==> s != ""
  {
  }

  lemma StreamForSends(r: Run, n: string, from: string)
    requires n in r.req.names && |r.sent| == |r.req.names| && SendsFrom(r, n, from)
    ensures StreamFor(r, n).to == r.req.New(n) && StreamFor(r, n).From() == from
  {
  }

  /** The stream of a successful run, in terms of the last successful one. */
  lemma RunStream(s: State, r: Run, n: string, l: string, last: string)
    requires Step(s, r) && Proper(r, n, l) && Succeeds(r, n, l) && r.req.send && Free('@', n) && Free('-', l)
    requires EndsIn(Group(s.snaps.Keys, n, l), last) && Le(last, r.req.New(n))
    ensures AllLive(r.req.live, r.req.names) && s.snaps.Keys !! r.req.AllNew()
    ensures StreamFor(r, n).to == r.req.New(n)
    ensures StreamFor(r, n).From() == if Group(s.snaps.Keys, n, l) == {} then "" else last
    ensures IsNextStream(Mid(s, r.req), n, l, StreamFor(r, n))
  {
    DoneSends(s, r, n);
    RunSends(s, r, n, l, last);
    StreamForSends(r, n, if Group(s.snaps.Keys, n, l) == {} then "" else last);
  }

  /** The stream that a successful run of the group dumps takes a replica to the end of
      this run exactly if there was no snapshot or the replica follows the group. */
  lemma RunAdvances(s: State, r: Run, n: string, l: string, x: Replica, last: string, c: Contents)
    requires Step(s, r) && Proper(r, n, l) && Succeeds(r, n, l) && r.req.send && Free('@', n) && Free('-', l)
    requires EndsIn(Group(s.snaps.Keys, n, l), last) && Le(last, r.req.New(n))
    requires Faithful(x, last, c) && Intact(s.snaps, last, c)
    ensures n in r.req.live
    ensures Receive(x, StreamFor(r, n))
         == if Group(s.snaps.Keys, n, l) == {} || Follows(x, last, c) then At(r.req.New(n), r.req.live[n]) else Broken
  {
    RunStream(s, r, n, l, last);
    StreamReceived(s, r.req, n, l, StreamFor(r, n), x, last, c);
  }

  lemma StreamReceived(s: State, q: Request, n: string, l: string, st: Stream, x: Replica, last: string, c: Contents)
    requires AllLive(q.live, q.names) && s.snaps.Keys !! q.AllNew() && n in q.names
    requires EndsIn(Group(s.snaps.Keys, n, l), last)
    requires Faithful(x, last, c) && Intact(s.snaps, last, c)
    requires st.to == q.New(n) && st.From() == if Group(s.snaps.Keys, n, l) == {} then "" else last
    requires IsNextStream(Mid(s, q), n, l, st)
    ensures Receive(x, st)
         == if Group(s.snaps.Keys, n, l) == {} || Follows(x, last, c) then At(q.New(n), q.live[n]) else Broken
  {
    MidContents(s, q, n);
    GroupHasNames(s.snaps.Keys, n, l);
    if Group(s.snaps.Keys, n, l) != {} {
      MidIntact(s, q, last, c);
    }
    StreamExactly(Mid(s, q), Group(s.snaps.Keys, n, l), st.From(), st.to, x, last, c);
  }

  lemma DoneSends(s: State, r: Run, n: string)
    requires Step(s, r) && Completes(r.result) && r.req.send && n in r.req.names
    ensures |r.sent| == |r.req.names| && AllLive(r.req.live, r.req.names)
    ensures s.snaps.Keys !! r.req.AllNew()
    ensures IsNextStream(Mid(s, r.req), n, r.req.lbl, StreamFor(r, n))
  {
    FreshIsNew(s.snaps.Keys, r.req);
  }

  lemma MidIntact(s: State, q: Request, last: string, c: Contents)
    requires AllLive(q.live, q.names) && s.snaps.Keys !! q.AllNew() && Intact(s.snaps, last, c)
    ensures last in s.snaps ==> Intact(Mid(s, q), last, c)
  {
  }

  lemma {:induction false} LastDoneInGroup(first: string, h: seq<Run>, n: string, l: string)
    requires first == "" || InGroup(first, n, l)
    ensures LastDone(first, h, n, l) == "" || InGroup(LastDone(first, h, n, l), n, l)
  {
    if h != [] {
      if Succeeds(Last(h), n, l) {
        var q := Last(h).req;
        assert q.New(n) == GroupPrefix(n, l) + Format(q.clock);
      } else {
        LastDoneInGroup(first, Init(h), n, l);
      }
    }
  }

  lemma NewIsNamed(q: Request, n: string)
    ensures q.New(n) != ""
  {
  }

  lemma RunStaysIntact(s: State, r: Run, n: string, l: string, last: string, c: Contents)
    requires Step(s, r) && Proper(r, n, l) && !Succeeds(r, n, l) && Free('@', n) && Free('-', l)
    requires (last == "" || InGroup(last, n, l)) && Intact(s.snaps, last, c)
    ensures Intact(r.after.snaps, last, c)
  {
    if last != "" && last in r.after.snaps {
      RunInGroup(s, r, n, l);
      assert last in Group(r.after.snaps.Keys, n, l);
      assert last in Group(s.snaps.Keys, n, l);
      RunKeepsContents(s, r, n);
    }
  }

  /** What a start must be for the archive: `newest` is the newest snapshot and holds
      `contents`; the ledger has dumps up to it, each leading to the snapshot of its time. */
  ghost predicate Begins(s: State, start: Start, n: string, l: string) {
    && StartsWith(s.snaps.Keys, start.newest, n, l) && Intact(s.snaps, start.newest, start.contents)
    && InOrder(start.ledger) && TimesMatch(start.ledger, n, l) && UpTo(start.ledger, start.newest)
    && Faithful(Replay(StreamsOf(start.ledger)), start.newest, start.contents)
  }

  /** The condition under which the dumps are worth something: going back in time, every
      successful run sent into the directory, until one that found no snapshot of the group and sent a full
      stream; or until the start, whose dumps must be replayable. */
  ghost predicate Sound(s0: State, start: Start, h: seq<Run>, d: string, n: string, l: string) {
    if h == [] then Follows(Replay(StreamsOf(start.ledger)), start.newest, start.contents)
    else if Succeeds(Last(h), n, l) then
      && SendsOne(Last(h), d, n, l)
      && (Group(Final(s0, Init(h)).snaps.Keys, n, l) == {} || Sound(s0, start, Init(h), d, n, l))
    else Sound(s0, start, Init(h), d, n, l)
  }

  /** A replica stands where the last dump leads to. */
  lemma ReplayEndsAt(dumps: seq<Stream>)
    ensures var x := Replay(dumps); x.At? ==> dumps != [] && x.snapshot == dumps[|dumps| - 1].to
  {
  }

  lemma ReplayStands(ledger: seq<LedgerEntry>, n: string, l: string, t: Clock)
    requires TimesMatch(ledger, n, l) && AllBefore(ledger, t)
    ensures var x := Replay(StreamsOf(ledger)); x.At? ==> x.snapshot != FullName(n, Stamp(l, t))
  {
    ReplayEndsAt(StreamsOf(ledger));
    if ledger != [] {
      var e := ledger[|ledger| - 1];
      assert e in ledger;
      GroupOrder(n, l, e.time, t);
    }
  }

  lemma {:induction false} LedgerIsNamed(s0: State, start: Start, h: seq<Run>, d: string, n: string, l: string)
    requires History(s0, h) && Disciplined(start.newest, h, n, l) && Free('@', n) && Free('-', l)
    requires StartsWith(s0.snaps.Keys, start.newest, n, l) && TimesMatch(start.ledger, n, l)
    ensures TimesMatch(Ledger(start, h, d, n, l), n, l)
  {
    if h != [] {
      LedgerIsNamed(s0, start, Init(h), d, n, l);
      if SendsOne(Last(h), d, n, l) {
        LastRunFound(s0, start.newest, h, n, l);
        RunStream(Final(s0, Init(h)), Last(h), n, l, LastDone(start.newest, Init(h), n, l));
      }
    }
  }

  lemma SuccessIntact(s: State, r: Run, n: string, l: string)
    requires Step(s, r) && Proper(r, n, l) && Succeeds(r, n, l)
    ensures n in r.req.live && Intact(r.after.snaps, r.req.New(n), r.req.live[n])
  {
    RunKeepsContents(s, r, n);
  }

  /** A replica that receives the whole ledger follows the group exactly if the history is
      sound; if it stands at the newest snapshot at all, it has its contents. */
  ghost predicate ReplaysExactly(s0: State, start: Start, h: seq<Run>, d: string, n: string, l: string) {
    var x := Replay(StreamsOf(Ledger(start, h, d, n, l)));
    var last, c := LastDone(start.newest, h, n, l), LastContents(start, h, n, l);
    && (Follows(x, last, c) <==> Sound(s0, start, h, d, n, l))
    && Faithful(x, last, c) && Intact(Final(s0, h).snaps, last, c)
  }

  /** Replaying the ledger ends at the last successful run exactly if the history is sound. */
  lemma {:induction false} LedgerReplays(s0: State, start: Start, h: seq<Run>, d: string, n: string, l: string)
    requires History(s0, h) && Disciplined(start.newest, h, n, l) && Free('@', n) && Free('-', l)
    requires Begins(s0, start, n, l)
    ensures ReplaysExactly(s0, start, h, d, n, l)
  {
    if h != [] {
      LedgerReplays(s0, start, Init(h), d, n, l);
      if SendsOne(Last(h), d, n, l) {
        ReplaysAfterSending(s0, start, h, d, n, l);
      } else if Succeeds(Last(h), n, l) {
        ReplaysAfterUnsent(s0, start, h, d, n, l);
      } else {
        LastDoneInGroup(start.newest, Init(h), n, l);
        RunStaysIntact(Final(s0, Init(h)), Last(h), n, l, LastDone(start.newest, Init(h), n, l),
                       LastContents(start, Init(h), n, l));
      }
    }
  }

  lemma ReplayNext(ledger: seq<LedgerEntry>, e: LedgerEntry)
    ensures Replay(StreamsOf(ledger + [e])) == Receive(Replay(StreamsOf(ledger)), e.stream)
  {
    StreamsAppend(ledger, e);
    ReplayAppend(StreamsOf(ledger), e.stream);
  }

  lemma ReplaysAfterSending(s0: State, start: Start, h: seq<Run>, d: string, n: string, l: string)
    requires History(s0, h) && Disciplined(start.newest, h, n, l) && Free('@', n) && Free('-', l)
    requires h != [] && SendsOne(Last(h), d, n, l) && StartsWith(s0.snaps.Keys, start.newest, n, l)
    requires ReplaysExactly(s0, start, Init(h), d, n, l)
    ensures ReplaysExactly(s0, start, h, d, n, l)
  {
    var h', r := Init(h), Last(h);
    LastRunFound(s0, start.newest, h, n, l);
    RunReplays(Final(s0, h'), r, n, l, Ledger(start, h', d, n, l), LastDone(start.newest, h', n, l),
               LastContents(start, h', n, l));
  }

  /** One more dump: the replica follows the group afterwards exactly if there was no
      snapshot of the group or it followed before. */
  lemma RunReplays(s: State, r: Run, n: string, l: string, ledger: seq<LedgerEntry>, last: string, c: Contents)
    requires Step(s, r) && Proper(r, n, l) && Succeeds(r, n, l) && r.req.send && Free('@', n) && Free('-', l)
    requires EndsIn(Group(s.snaps.Keys, n, l), last) && Le(last, r.req.New(n))
    requires Faithful(Replay(StreamsOf(ledger)), last, c) && Intact(s.snaps, last, c)
    ensures n in r.req.live && r.req.New(n) != ""
    ensures var x := Replay(StreamsOf(ledger + [LedgerEntry(r.req.clock, StreamFor(r, n))]));
      && Faithful(x, r.req.New(n), r.req.live[n]) && Intact(r.after.snaps, r.req.New(n), r.req.live[n])
      && (Follows(x, r.req.New(n), r.req.live[n]) <==>
            Group(s.snaps.Keys, n, l) == {} || Follows(Replay(StreamsOf(ledger)), last, c))
  {
    RunAdvances(s, r, n, l, Replay(StreamsOf(ledger)), last, c);
    ReplayNext(ledger, LedgerEntry(r.req.clock, StreamFor(r, n)));
    SuccessIntact(s, r, n, l);
    NewIsNamed(r.req, n);
  }

  lemma ReplaysAfterUnsent(s0: State, start: Start, h: seq<Run>, d: string, n: string, l: string)
    requires History(s0, h) && Disciplined(start.newest, h, n, l) && Free('@', n) && Free('-', l)
    requires Begins(s0, start, n, l) && h != [] && Succeeds(Last(h), n, l) && !SendsOne(Last(h), d, n, l)
    ensures var x := Replay(StreamsOf(Ledger(start, h, d, n, l)));
      var last, c := LastDone(start.newest, h, n, l), LastContents(start, h, n, l);
      && last == Last(h).req.New(n) && (x.At? ==> x.snapshot != last)
      && !Follows(x, last, c) && Intact(Final(s0, h).snaps, last, c)
  {
    NextIsLater(start, Init(h), Last(h), d, n, l);
    LedgerIsNamed(s0, start, Init(h), d, n, l);
    ReplayStands(Ledger(start, Init(h), d, n, l), n, l, Last(h).req.clock);
    SuccessIntact(Final(s0, Init(h)), Last(h), n, l);
    NewIsNamed(Last(h).req, n);
  }

  ghost predicate EverySuccessSends(h: seq<Run>, d: string, n: string, l: string) {
    h == [] || (EverySuccessSends(Init(h), d, n, l) && (Succeeds(Last(h), n, l) ==> SendsOne(Last(h), d, n, l)))
  }

  /** A history in which every successful run of the group sends is sound. */
  lemma {:induction false} SendingIsSound(s0: State, start: Start, h: seq<Run>, d: string, n: string, l: string)
    requires EverySuccessSends(h, d, n, l) && Sound(s0, start, [], d, n, l)
    ensures Sound(s0, start, h, d, n, l)
  {
    if h != [] {
      SendingIsSound(s0, start, Init(h), d, n, l);
    }
  }

  // ----- reading the directory -----

  /** The dumps of a group in a directory. */
  ghost function DumpsIn(files: map<string, File>, d: string, n: string, l: string): set<string> {
    set p | p in files && IsDumpOf(p, d, n, l)
  }

  ghost predicate IsDumpOf(p: string, d: string, n: string, l: string) {
    exists t: Clock :: p == DumpOf(d, n, l, t)
  }

  /** The files at some paths, applied one after the other. */
  function Restore(files: map<string, File>, paths: seq<string>): Replica {
    if paths == [] then Nothing
    else
      var p := paths[|paths| - 1];
      if p in files && files[p].Dump? then Receive(Restore(files, paths[..|paths| - 1]), files[p].stream) else Broken
  }

  function PathsOf(ledger: seq<LedgerEntry>, d: string, n: string, l: string): seq<string> {
    seq(|ledger|, i requires 0 <= i < |ledger| => DumpOf(d, n, l, ledger[i].time))
  }

  lemma StampedOrder(p: string, e: string, a: Clock, b: Clock)
    ensures Le(p + (Format(a) + e), p + (Format(b) + e)) <==> a == b || Before(a, b)
  {
    LeCommonPrefix(p, Format(a) + e, Format(b) + e);
    LeFixedWidth(Format(a), e, Format(b), e);
    FormatOrder(a, b);
    LeReflexive(e);
  }

  /** Dumps of a group sort by time. */
  lemma DumpOrder(d: string, n: string, l: string, a: Clock, b: Clock)
    ensures Le(DumpOf(d, n, l, a), DumpOf(d, n, l, b)) <==> a == b || Before(a, b)
    ensures DumpOf(d, n, l, a) == DumpOf(d, n, l, b) <==> a == b
  {
    var p := InDir(d, Dashed(n) + "-" + l + "-");
    StampedOrder(p, ".snap", a, b);
    DumpOfForm(d, n, l, a);
    DumpOfForm(d, n, l, b);
    if DumpOf(d, n, l, a) == DumpOf(d, n, l, b) {
      DumpPathTime(d, n, l, a, d, n, l, b);
    }
  }

  lemma DumpOfForm(d: string, n: string, l: string, t: Clock)
    ensures DumpOf(d, n, l, t) == InDir(d, Dashed(n) + "-" + l + "-") + (Format(t) + ".snap")
  {
    var x := Dashed(n) + "-" + l + "-";
    assert DumpFile(n, Stamp(l, t)) == x + (Format(t) + ".snap");
    JoinLonger(d, x, Format(t) + ".snap");
  }

  lemma JoinLonger(d: string, f: string, g: string)
    ensures InDir(d, f + g) == InDir(d, f) + g
  {
    assert d + "/" + (f + g) == d + "/" + f + g;
    assert "/" + (f + g) == "/" + f + g;
  }

  lemma StreamsAppend(ledger: seq<LedgerEntry>, e: LedgerEntry)
    ensures StreamsOf(ledger + [e]) == StreamsOf(ledger) + [e.stream]
  {
  }

  lemma PathsAppend(ledger: seq<LedgerEntry>, e: LedgerEntry, d: string, n: string, l: string)
    ensures PathsOf(ledger + [e], d, n, l) == PathsOf(ledger, d, n, l) + [DumpOf(d, n, l, e.time)]
  {
  }

  lemma RestoreAppend(files: map<string, File>, paths: seq<string>, p: string, s: Stream)
    requires Holds(files, p, Dump(s))
    ensures Restore(files, paths + [p]) == Receive(Restore(files, paths), s)
  {
    assert (paths + [p])[..|paths|] == paths;
  }

  lemma {:induction false} RestoreIsReplay(files: map<string, File>, ledger: seq<LedgerEntry>, d: string,
                                           n: string, l: string)
    requires forall e :: e in ledger ==> Holds(files, DumpOf(d, n, l, e.time), Dump(e.stream))
    ensures Restore(files, PathsOf(ledger, d, n, l)) == Replay(StreamsOf(ledger))
  {
    if ledger != [] {
      var rest, e := ledger[..|ledger| - 1], ledger[|ledger| - 1];
      assert ledger == rest + [e] && e in ledger;
      RestoreIsReplay(files, rest, d, n, l);
      PathsAppend(rest, e, d, n, l);
      RestoreAppend(files, PathsOf(rest, d, n, l), DumpOf(d, n, l, e.time), e.stream);
      ReplayNext(rest, e);
    }
  }

  lemma PathsSorted(ledger: seq<LedgerEntry>, d: string, n: string, l: string)
    requires InOrder(ledger)
    ensures Sorted(PathsOf(ledger, d, n, l)) && Distinct(PathsOf(ledger, d, n, l))
  {
    var ps := PathsOf(ledger, d, n, l);
    forall i, j | 0 <= i < j < |ps| ensures Le(ps[i], ps[j]) && ps[i] != ps[j] {
      DumpOrder(d, n, l, ledger[i].time, ledger[j].time);
    }
  }

  lemma PathsComplete(files: map<string, File>, ledger: seq<LedgerEntry>, d: string, n: string, l: string)
    requires Keeps(files, d, n, l, ledger)
    ensures Elements(PathsOf(ledger, d, n, l)) == DumpsIn(files, d, n, l)
  {
    var ps := PathsOf(ledger, d, n, l);
    forall p | p in ps ensures p in DumpsIn(files, d, n, l) {
      var i :| 0 <= i < |ps| && ps[i] == p;
      assert ledger[i] in ledger;
    }
    forall p | p in DumpsIn(files, d, n, l) ensures p in ps {
      var t: Clock :| p == DumpOf(d, n, l, t);
      var e :| e in ledger && e.time == t;
      var i :| 0 <= i < |ledger| && ledger[i] == e;
      assert ps[i] == p;
    }
  }

  lemma SameMultiset(a: seq<string>, b: seq<string>)
    requires Distinct(a) && Distinct(b) && Elements(a) == Elements(b)
    ensures multiset(a) == multiset(b)
  {
    DistinctMultiplicity(a);
    DistinctMultiplicity(b);
    forall x ensures multiset(a)[x] == multiset(b)[x] {
      assert x in a <==> x in Elements(a);
      assert x in b <==> x in Elements(b);
    }
  }

  /** The sorted dump files of the group in the directory after a history. */
  ghost predicate SortedDumps(paths: seq<string>, files: map<string, File>, d: string, n: string, l: string) {
    Sorted(paths) && Distinct(paths) && Elements(paths) == DumpsIn(files, d, n, l)
  }

  /** Replayability: after every history, take the group's dumps from the directory in
      the order of their names and apply them. The result is the snapshot of the last
      successful run with its contents exactly if the history is sound; whenever the group
      has snapshots left, this is the newest of them, and it still has these contents. */
  lemma DirectoryRestores(s0: State, start: Start, h: seq<Run>, d: string, n: string, l: string, paths: seq<string>)
    requires History(s0, h) && Disciplined(start.newest, h, n, l) && Archiving(h, d, n, l)
    requires Free('@', n) && Free('-', l)
    requires Begins(s0, start, n, l) && Keeps(s0.files, d, n, l, start.ledger)
    requires SortedDumps(paths, Final(s0, h).files, d, n, l)
    ensures Follows(Restore(Final(s0, h).files, paths), LastDone(start.newest, h, n, l), LastContents(start, h, n, l))
       <==> Sound(s0, start, h, d, n, l)
    ensures EndsIn(Group(Final(s0, h).snaps.Keys, n, l), LastDone(start.newest, h, n, l))
    ensures Intact(Final(s0, h).snaps, LastDone(start.newest, h, n, l), LastContents(start, h, n, l))
  {
    DirectoryIsReplay(s0, start, h, d, n, l, paths);
    LedgerReplays(s0, start, h, d, n, l);
    NewestIsLastDone(s0, start.newest, h, n, l);
  }

  lemma DirectoryIsReplay(s0: State, start: Start, h: seq<Run>, d: string, n: string, l: string, paths: seq<string>)
    requires History(s0, h) && Disciplined(start.newest, h, n, l) && Archiving(h, d, n, l) && Free('-', l)
    requires Begins(s0, start, n, l) && Keeps(s0.files, d, n, l, start.ledger)
    requires SortedDumps(paths, Final(s0, h).files, d, n, l)
    ensures Restore(Final(s0, h).files, paths) == Replay(StreamsOf(Ledger(start, h, d, n, l)))
  {
    DirectoryIsLedger(s0, start, h, d, n, l);
    LedgerInOrder(start, h, d, n, l);
    ListingIsLedger(Final(s0, h).files, Ledger(start, h, d, n, l), d, n, l, paths);
  }

  /** So for a new system whose runs of the group all send: no condition is left. */
  lemma NewSystemRestores(s0: State, h: seq<Run>, d: string, n: string, l: string, paths: seq<string>)
    requires History(s0, h) && Disciplined("", h, n, l) && Archiving(h, d, n, l) && Free('@', n) && Free('-', l)
    requires (forall x :: x in s0.snaps ==> !InGroup(x, n, l)) && DumpsIn(s0.files, d, n, l) == {}
    requires EverySuccessSends(h, d, n, l) && SortedDumps(paths, Final(s0, h).files, d, n, l)
    ensures Follows(Restore(Final(s0, h).files, paths), LastDone("", h, n, l), LastContents(NEW_SYSTEM, h, n, l))
  {
    EmptyKeeps(s0.files, d, n, l);
    NewBegins(s0, d, n, l);
    SendingIsSound(s0, NEW_SYSTEM, h, d, n, l);
    DirectoryRestores(s0, NEW_SYSTEM, h, d, n, l, paths);
  }

  lemma NewBegins(s0: State, d: string, n: string, l: string)
    requires forall x :: x in s0.snaps ==> !InGroup(x, n, l)
    ensures Begins(s0, NEW_SYSTEM, n, l) && Sound(s0, NEW_SYSTEM, [], d, n, l)
  {
  }

  /** A successful run that does not send, or sends elsewhere, makes the newest snapshot of
      the group, and no replay of the directory ends there. */
  lemma UnsentRun(s0: State, start: Start, h: seq<Run>, d: string, n: string, l: string, paths: seq<string>)
    requires History(s0, h) && Disciplined(start.newest, h, n, l) && Archiving(h, d, n, l)
    requires Free('@', n) && Free('-', l)
    requires Begins(s0, start, n, l) && Keeps(s0.files, d, n, l, start.ledger)
    requires h != [] && Succeeds(Last(h), n, l) && !SendsOne(Last(h), d, n, l)
    requires SortedDumps(paths, Final(s0, h).files, d, n, l)
    ensures Last(h).req.New(n) in Final(s0, h).snaps && EndsIn(Group(Final(s0, h).snaps.Keys, n, l), Last(h).req.New(n))
    ensures var x := Restore(Final(s0, h).files, paths); x.At? ==> x.snapshot != Last(h).req.New(n)
  {
    RunInGroup(Final(s0, Init(h)), Last(h), n, l);
    NewestIsLastDone(s0, start.newest, h, n, l);
    ReplaysAfterUnsent(s0, start, h, d, n, l);
    DirectoryIsReplay(s0, start, h, d, n, l, paths);
  }

  // ----- a history may be cut anywhere -----

  lemma {:induction false} LedgerUpTo(s0: State, start: Start, h: seq<Run>, d: string, n: string, l: string)
    requires History(s0, h) && Disciplined(start.newest, h, n, l) && Free('@', n) && Free('-', l)
    requires Begins(s0, start, n, l)
    ensures UpTo(Ledger(start, h, d, n, l), LastDone(start.newest, h, n, l))
  {
    if h != [] {
      LedgerUpTo(s0, start, Init(h), d, n, l);
      if Succeeds(Last(h), n, l) {
        NextIsLater(start, Init(h), Last(h), d, n, l);
        LedgerIsNamed(s0, start, h, d, n, l);
        BeforeIsUpTo(Ledger(start, h, d, n, l), Last(h).req.clock, n, l);
      }
    }
  }

  lemma BeforeIsUpTo(ledger: seq<LedgerEntry>, t: Clock, n: string, l: string)
    requires TimesMatch(ledger, n, l) && forall e :: e in ledger ==> e.time == t || Before(e.time, t)
    ensures UpTo(ledger, FullName(n, Stamp(l, t)))
  {
    forall e | e in ledger ensures Le(e.stream.to, FullName(n, Stamp(l, t))) {
      GroupOrder(n, l, e.time, t);
    }
  }

  lemma EndStartsWith(snaps: set<string>, last: string, n: string, l: string)
    requires EndsIn(Group(snaps, n, l), last) && (last == "" || InGroup(last, n, l))
    ensures StartsWith(snaps, last, n, l)
  {
    forall x | x in snaps && InGroup(x, n, l) ensures Le(x, last) && last in snaps {
      assert x in Group(snaps, n, l);
      assert last in Group(snaps, n, l);
    }
  }

  /** Where a history ends, another one may begin. So the theorems hold for systems that
      are in use, from every point on. */
  lemma HistoryBeginsAgain(s0: State, start: Start, h: seq<Run>, d: string, n: string, l: string)
    requires History(s0, h) && Disciplined(start.newest, h, n, l) && Archiving(h, d, n, l)
    requires Free('@', n) && Free('-', l)
    requires Begins(s0, start, n, l) && Keeps(s0.files, d, n, l, start.ledger)
    ensures var end := Start(LastDone(start.newest, h, n, l), LastContents(start, h, n, l), Ledger(start, h, d, n, l));
      && Begins(Final(s0, h), end, n, l) && Keeps(Final(s0, h).files, d, n, l, end.ledger)
      && (Sound(Final(s0, h), end, [], d, n, l) <==> Sound(s0, start, h, d, n, l))
  {
    LedgerReplays(s0, start, h, d, n, l);
    LedgerInOrder(start, h, d, n, l);
    LedgerIsNamed(s0, start, h, d, n, l);
    LedgerUpTo(s0, start, h, d, n, l);
    DirectoryIsLedger(s0, start, h, d, n, l);
    NewestIsLastDone(s0, start.newest, h, n, l);
    LastDoneInGroup(start.newest, h, n, l);
    EndStartsWith(Final(s0, h).snaps.Keys, LastDone(start.newest, h, n, l), n, l);
  }

  lemma EmptyKeeps(files: map<string, File>, d: string, n: string, l: string)
    requires DumpsIn(files, d, n, l) == {}
    ensures Keeps(files, d, n, l, [])
  {
    forall t: Clock ensures DumpOf(d, n, l, t) !in files {
      assert IsDumpOf(DumpOf(d, n, l, t), d, n, l);
      assert DumpOf(d, n, l, t) !in DumpsIn(files, d, n, l);
    }
  }

  lemma ListingIsLedger(files: map<string, File>, ledger: seq<LedgerEntry>, d: string, n: string, l: string,
                        paths: seq<string>)
    requires Keeps(files, d, n, l, ledger) && InOrder(ledger)
    requires Sorted(paths) && Distinct(paths) && Elements(paths) == DumpsIn(files, d, n, l)
    ensures Restore(files, paths) == Replay(StreamsOf(ledger))
  {
    PathsSorted(ledger, d, n, l);
    PathsComplete(files, ledger, d, n, l);
    SameMultiset(paths, PathsOf(ledger, d, n, l));
    SortUnique(paths, PathsOf(ledger, d, n, l));
    RestoreIsReplay(files, ledger, d, n, l);
  }
}
