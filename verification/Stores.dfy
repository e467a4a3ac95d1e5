/**
 The two stores a run changes: the snapshots behind a ZFSDriver, and the directory
 with the dumps. Every operation may fail whenever the environment lets it.
 */
module Stores {
  import opened Text
  import opened Names
  import opened Streams

  /** Which kinds of operation are known to work, and for which snapshots the deletion, for
      which files the renaming and for which files the removal may be refused. Whatever is
      not known to work may still work, each time anew. */
  datatype Env = Env(listWorks: bool, createWorks: bool, sendWorks: bool, openWorks: bool,
                     held: set<string>, unmovable: set<string>, unremovable: set<string>)

  ghost predicate Extends<K, V>(small: map<K, V>, big: map<K, V>) {
    forall k :: k in small ==> k in big && big[k] == small[k]
  }

  /** A listing shows existing snapshots, each once, and all those the filter asks for.
      What else it shows (child datasets, names that only contain the filter) is open. */
  ghost predicate Lists(snaps: set<string>, filter: string, listing: seq<string>) {
    && Distinct(listing)
    && (forall s :: s in listing ==> s in snaps)
    && (forall s :: s in snaps && (filter == "" || OfDataset(s, filter)) ==> s in listing)
  }

  ghost function NewNames(names: seq<string>, stamp: string): set<string> {
    set n | n in names :: FullName(n, stamp)
  }

  /** The dataset in a name made by FullName. */
  function DatasetOf(s: string, stamp: string): string {
    if |stamp| < |s| then s[..|s| - |stamp| - 1] else ""
  }

  lemma DatasetOfFullName(n: string, stamp: string)
    ensures DatasetOf(FullName(n, stamp), stamp) == n
  {
  }

  /** The snapshots that one successful creation adds, all in one transaction. */
  ghost function Taken(live: map<string, Contents>, names: seq<string>, stamp: string, txg: nat):
    (m: map<string, Snapshot>)
    requires forall n :: n in names ==> n in live
    ensures m.Keys == NewNames(names, stamp)
    ensures forall n :: n in names ==> FullName(n, stamp) in m && m[FullName(n, stamp)] == Snapshot(live[n], txg)
  {
    assert forall n {:trigger FullName(n, stamp)} :: DatasetOf(FullName(n, stamp), stamp) == n by {
      forall n: string { DatasetOfFullName(n, stamp); }
    }
    map s | s in NewNames(names, stamp) :: Snapshot(live[DatasetOf(s, stamp)], txg)
  }

  lemma TakenAppend(live: map<string, Contents>, names: seq<string>, n: string, stamp: string, txg: nat)
    requires n in live && forall k :: k in names ==> k in live
    ensures Taken(live, names + [n], stamp, txg)
         == Taken(live, names, stamp, txg)[FullName(n, stamp) := Snapshot(live[n], txg)]
  {
    DatasetOfFullName(n, stamp);
    var a, b := Taken(live, names + [n], stamp, txg), Taken(live, names, stamp, txg);
    assert a.Keys == b.Keys + {FullName(n, stamp)};
  }

  ghost predicate AllLive(live: map<string, Contents>, names: seq<string>) {
    forall n :: n in names ==> n in live
  }

  lemma RefusalHasReason(names: seq<string>, i: nat, stamp: string, taken: set<string>)
    requires i < |names|
    ensures NewNames(names[..i], stamp) <= NewNames(names, stamp)
    ensures FullName(names[i], stamp) in NewNames(names[..i], stamp) ==> !Distinct(names)
    ensures FullName(names[i], stamp) in taken ==> !(taken !! NewNames(names, stamp))
  {
    assert FullName(names[i], stamp) in NewNames(names, stamp);
    if n :| n in names[..i] && FullName(n, stamp) == FullName(names[i], stamp) {
      FullNameInjective(n, names[i], stamp);
    }
  }

  class Driver {
    const env: Env
    /** The datasets and what they contain now. */
    var live: map<string, Contents>
    var snaps: map<string, Snapshot>
    /** The number of the pool's next transaction. */
    var txg: nat

    constructor (env: Env, live: map<string, Contents>, snaps: map<string, Snapshot>, txg: nat)
      ensures this.env == env && this.live == live && this.snaps == snaps && this.txg == txg
    {
      this.env, this.live, this.snaps, this.txg := env, live, snaps, txg;
    }

    method Snapshots(filter: string) returns (ok: bool, listing: seq<string>)
      ensures env.listWorks ==> ok
      ensures ok ==> Lists(snaps.Keys, filter, listing)
    {
      listing := [];
      if !env.listWorks {
        if * { return false, listing; }
      }
      var todo := snaps.Keys;
      while todo != {}
        invariant todo <= snaps.Keys
        invariant forall s :: s in listing ==> s in snaps && s !in todo
        invariant Distinct(listing)
        invariant forall s :: s in snaps && s !in todo && (filter == "" || OfDataset(s, filter)) ==> s in listing
      {
        var s :| s in todo;
        todo := todo - {s};
        if filter == "" || OfDataset(s, filter) {
          listing := listing + [s];
        } else if * {
          listing := listing + [s];
        }
      }
      ok := true;
    }

    /** All datasets must exist. A failure may come after a part of the batch. A name that
        occurs twice in a batch may be refused or taken once. */
    method CreateSnapshots(names: seq<string>, stamp: string) returns (ok: bool)
      modifies this`snaps
      ensures ok ==> AllLive(live, names) && snaps == old(snaps) + Taken(live, names, stamp, txg)
      ensures !ok ==> Extends(old(snaps), snaps) && snaps.Keys <= old(snaps).Keys + NewNames(names, stamp)
      ensures (env.createWorks && Distinct(names) && AllLive(live, names)
        && old(snaps).Keys !! NewNames(names, stamp)) ==> ok
    {
      var made: map<string, Snapshot> := map[];
      ok := true;
      for i := 0 to |names|
        invariant AllLive(live, names[..i]) && made == Taken(live, names[..i], stamp, txg)
        invariant snaps == old(snaps) && made.Keys !! snaps.Keys
      {
        var n, full := names[i], FullName(names[i], stamp);
        assert names[..i + 1] == names[..i] + [n];
        RefusalHasReason(names, i, stamp, snaps.Keys);
        if n !in live || full in snaps {
          ok := false;
          break;
        }
        if !env.createWorks || full in made {
          if * { ok := false; break; }
        }
        TakenAppend(live, names[..i], n, stamp, txg);
        made := made[full := Snapshot(live[n], txg)];
      }
      assert names[..|names|] == names;
      snaps := snaps + made;
    }

    /** Deletes nothing but a snapshot: live datasets are not even in the frame. Nothing has
        the empty name. */
    method DeleteSnapshot(name: string) returns (ok: bool)
      modifies this`snaps
      ensures ok ==> name != "" && name in old(snaps) && snaps == old(snaps) - {name}
      ensures !ok ==> snaps == old(snaps)
      ensures name !in env.held && name != "" && name in old(snaps) ==> ok
    {
      if name == "" || name !in snaps { return false; }
      if name in env.held {
        if * { return false; }
      }
      snaps := snaps - {name};
      ok := true;
    }

    /** With an empty `from` the whole snapshot is sent, otherwise the difference to an earlier one. */
    method SendSnapshots(from: string, to: string) returns (ok: bool, output: File)
      ensures ok ==> MaySend(snaps, from, to) && output == Dump(StreamOf(snaps, from, to))
      ensures !ok ==> output == Partial
      ensures env.sendWorks && MaySend(snaps, from, to) ==> ok
    {
      if !MaySend(snaps, from, to) { return false, Partial; }
      if !env.sendWorks {
        if * { return false, Partial; }
      }
      return true, Dump(StreamOf(snaps, from, to));
    }
  }

  /** `Partial` is whatever a send that failed left behind. */
  datatype File = Empty | Partial | Dump(stream: Stream) | Other(data: string)

  class Directory {
    const env: Env
    var files: map<string, File>

    constructor (env: Env, files: map<string, File>)
      ensures this.env == env && this.files == files
    {
      this.env, this.files := env, files;
    }

    /** os.Create */
    method Create(path: string) returns (ok: bool)
      modifies this
      ensures files == if ok then old(files)[path := Empty] else old(files)
      ensures env.openWorks ==> ok
    {
      if !env.openWorks {
        if * { return false; }
      }
      files := files[path := Empty];
      ok := true;
    }

    method Write(path: string, data: File)
      requires path in files
      modifies this
      ensures files == old(files)[path := data]
    {
      files := files[path := data];
    }

    /** os.Remove */
    method Remove(path: string) returns (ok: bool)
      modifies this
      ensures files == if ok then old(files) - {path} else old(files)
      ensures path !in env.unremovable && path in old(files) ==> ok
    {
      if path !in files { return false; }
      if path in env.unremovable {
        if * { return false; }
      }
      files := files - {path};
      ok := true;
    }

    /** os.Rename, which replaces an existing target */
    method Rename(path: string, target: string) returns (ok: bool)
      modifies this
      ensures ok ==> path in old(files) && files == (old(files) - {path})[target := old(files)[path]]
      ensures !ok ==> files == old(files)
      ensures path !in env.unmovable && path in old(files) ==> ok
    {
      if path !in files { return false; }
      if path in env.unmovable {
        if * { return false; }
      }
      files := (files - {path})[target := files[path]];
      ok := true;
    }
  }
}
