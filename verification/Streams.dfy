/**
 What a dump carries. A snapshot is the frozen contents of a dataset, here a map from
 file to data. `zfs send` writes them whole, `zfs send -i` writes the difference to an
 earlier snapshot, and receiving a difference needs a replica that stands exactly there.
 */
module Streams {

  type Contents = map<string, string>

  /** The difference is the least one: whatever else leads from one contents to the other
      removes and writes at least the same files. */
  lemma DiffIsLeast(a: Contents, b: Contents, d: Delta)
    requires Patch(a, d) == b
    ensures Diff(a, b).removed <= d.removed
    ensures forall p :: p in Diff(a, b).written ==> p in d.written && d.written[p] == Diff(a, b).written[p]
  {
    var r := Patch(a, d);
    forall p | p in a && p !in b ensures p in d.removed {
      assert p !in r;
    }
    forall p | p in Diff(a, b).written ensures p in d.written && d.written[p] == b[p] {
      assert p in r && r[p] == b[p];
    }
  }

  /** `born` is the number of the pool's transaction that made the snapshot: of two snapshots
      the earlier one has the smaller number. */
  datatype Snapshot = Snapshot(contents: Contents, born: nat)

  datatype Delta = Delta(removed: set<string>, written: Contents)

  function Diff(a: Contents, b: Contents): Delta {
    Delta(a.Keys - b.Keys, map p | p in b && (p !in a || a[p] != b[p]) :: b[p])
  }

  function Patch(a: Contents, d: Delta): Contents {
    (a - d.removed) + d.written
  }

  lemma PatchDiff(a: Contents, b: Contents)
    ensures Patch(a, Diff(a, b)) == b
  {
    var r := Patch(a, Diff(a, b));
    assert r.Keys == b.Keys;
    forall p | p in b ensures r[p] == b[p] {
    }
  }

  datatype Stream =
    | Full(to: string, contents: Contents)
    | Incremental(from: string, to: string, delta: Delta)
  {
    /** The empty name stands for "no earlier snapshot". */
    function From(): string {
      if Full? then "" else from
    }
  }

  function StreamOf(snaps: map<string, Snapshot>, from: string, to: string): Stream
    requires to in snaps && (from == "" || from in snaps)
  {
    if from == "" then Full(to, snaps[to].contents)
    else Incremental(from, to, Diff(snaps[from].contents, snaps[to].contents))
  }

  /** What `zfs send` asks for: the source of a difference must be earlier than its target. */
  predicate MaySend(snaps: map<string, Snapshot>, from: string, to: string) {
    to in snaps && (from == "" || (from in snaps && snaps[from].born < snaps[to].born))
  }

  datatype Replica = Nothing | Broken | At(snapshot: string, contents: Contents)

  function Receive(r: Replica, s: Stream): Replica {
    match s
    case Full(to, c) => At(to, c)
    case Incremental(from, to, d) =>
      if r.At? && r.snapshot == from then At(to, Patch(r.contents, d)) else Broken
  }

  /** Applying dumps in order, starting with nothing. */
  function Replay(dumps: seq<Stream>): Replica {
    if dumps == [] then Nothing
    else Receive(Replay(dumps[..|dumps| - 1]), dumps[|dumps| - 1])
  }

  lemma ReplayAppend(dumps: seq<Stream>, s: Stream)
    ensures Replay(dumps + [s]) == Receive(Replay(dumps), s)
  {
    assert (dumps + [s])[..|dumps|] == dumps;
  }
}
