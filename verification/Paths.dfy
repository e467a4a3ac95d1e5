/**
 Rooted paths as `path.Join` makes them: the result is cleaned, component by component.
 */
module Paths {
  import opened Text
  import opened WallClock
  import opened Fields
  import opened Names

  /** The components that path.Clean leaves of a rooted path. */
  function Kept(parts: seq<string>): seq<string> {
    if parts == [] then []
    else
      var before, p := Kept(parts[..|parts| - 1]), parts[|parts| - 1];
      if p == "" || p == "." then before
      else if p != ".." then before + [p]
      else if before == [] then []
      else before[..|before| - 1]
  }

  function Rooted(components: seq<string>): string {
    if components == [] then "/" else "/" + Join(components, '/')
  }

  /** path.Join for a rooted directory and one more part */
  function PathJoin(dir: string, part: string): string {
    Rooted(Kept(Split(dir + "/" + part, '/')))
  }

  predicate Plain(component: string) {
    Free('/', component) && component != "" && component != "." && component != ".."
  }

  lemma {:induction false} KeptAppend(a: seq<string>, b: seq<string>)
    requires forall p :: p in b ==> Plain(p)
    ensures Kept(a + b) == Kept(a) + b
  {
    if b == [] {
      assert a + b == a;
    } else {
      var b', p := b[..|b| - 1], b[|b| - 1];
      assert p in b && Plain(p);
      KeptAppend(a, b');
      assert (a + b)[..|a + b| - 1] == a + b' && (a + b)[|a + b| - 1] == p;
      assert b == b' + [p];
      assert Kept(a) + b == Kept(a) + b' + [p];
    }
  }

  /** An empty part, before the first slash or between two slashes, goes. */
  lemma KeptEmpty(a: seq<string>)
    ensures Kept(a + [""]) == Kept(a)
  {
    assert (a + [""])[..|a|] == a;
  }

  lemma {:induction false} JoinAppend(parts: seq<string>, x: string, c: char)
    requires parts != []
    ensures Join(parts + [x], c) == Join(parts, c) + [c] + x
  {
    if |parts| == 1 {
      assert (parts + [x])[1..] == [x];
    } else {
      JoinAppend(parts[1..], x, c);
      assert (parts + [x])[1..] == parts[1..] + [x];
    }
  }

  /** The parts of a clean directory with a slash at its end, followed by a name. */
  function Parts(components: seq<string>, name: string): seq<string> {
    ([""] + components + [""]) + [name]
  }

  lemma PartsAreSplit(components: seq<string>, name: string)
    requires components != [] && (forall p :: p in components ==> Free('/', p)) && Free('/', name)
    ensures Split((Rooted(components) + "/") + "/" + name, '/') == Parts(components, name)
  {
    var front := [""] + components + [""];
    JoinFront(components);
    JoinAppend(front, name, '/');
    FrontIsFree(components);
    SplitJoin(front + [name], '/');
  }

  lemma JoinFront(components: seq<string>)
    requires components != []
    ensures Join([""] + components + [""], '/') == Rooted(components) + "/"
  {
    JoinAppend([""] + components, "", '/');
    JoinFirst("", components, '/');
  }

  lemma FrontIsFree(components: seq<string>)
    requires forall p :: p in components ==> Free('/', p)
    ensures var front := [""] + components + [""]; forall i :: 0 <= i < |front| ==> Free('/', front[i])
  {
    assert forall i :: 0 <= i < |components| ==> components[i] in components;
  }

  lemma FrontIsKept(components: seq<string>)
    requires forall p :: p in components ==> Plain(p)
    ensures Kept([""] + components + [""]) == components
  {
    assert [] + [""] == [""];
    KeptEmpty([]);
    KeptAppend([""], components);
    KeptEmpty([""] + components);
  }

  lemma KeptUp(a: seq<string>)
    ensures Kept(a + [".."]) == if Kept(a) == [] then [] else Kept(a)[..|Kept(a)| - 1]
  {
    assert (a + [".."])[..|a|] == a;
  }

  lemma PartsAreKept(components: seq<string>, name: string)
    requires (forall p :: p in components ==> Plain(p)) && Plain(name)
    ensures Kept(Parts(components, name)) == components + [name]
  {
    FrontIsKept(components);
    KeptAppend([""] + components + [""], [name]);
  }

  /** For a clean directory, with a slash at its end, a plain name is just appended. */
  lemma PlainJoin(components: seq<string>, name: string)
    requires components != [] && (forall p :: p in components ==> Plain(p)) && Plain(name)
    ensures PathJoin(Rooted(components) + "/", name) == (Rooted(components) + "/") + name
  {
    PartsAreSplit(components, name);
    PartsAreKept(components, name);
    RootedAppend(components, name);
  }

  lemma RootedAppend(components: seq<string>, name: string)
    requires components != []
    ensures Rooted(components + [name]) == (Rooted(components) + "/") + name
  {
    JoinAppend(components, name, '/');
  }

  lemma UpIsKept(components: seq<string>, name: string)
    requires components != [] && (forall p :: p in components ==> Plain(p)) && Plain(name)
    ensures Kept(([""] + components + [""] + [".."]) + [name]) == components[..|components| - 1] + [name]
  {
    var front := [""] + components + [""];
    FrontIsKept(components);
    KeptUp(front);
    KeptAppend(front + [".."], [name]);
  }

  lemma UpIsSplit(components: seq<string>, name: string)
    requires components != [] && (forall p :: p in components ==> Free('/', p)) && Free('/', name)
    ensures Split((Rooted(components) + "/") + "/" + ("../" + name), '/')
         == ([""] + components + [""] + [".."]) + [name]
  {
    var front := [""] + components + [""];
    JoinFront(components);
    JoinAppend(front, "..", '/');
    JoinAppend(front + [".."], name, '/');
    assert Join((front + [".."]) + [name], '/') == (Rooted(components) + "/") + "/" + ("../" + name);
    FrontIsFree(components);
    SplitJoin((front + [".."]) + [name], '/');
  }

  /** Two dots lead to the directory above. */
  lemma UpJoin(components: seq<string>, name: string)
    requires |components| >= 2 && (forall p :: p in components ==> Plain(p)) && Plain(name)
    ensures PathJoin(Rooted(components) + "/", "../" + name)
         == (Rooted(components[..|components| - 1]) + "/") + name
  {
    UpIsSplit(components, name);
    UpIsKept(components, name);
    RootedAppend(components[..|components| - 1], name);
  }

  // ----- the directory of the dumps -----

  /** A part after the last separator. */
  lemma SplitAppend(s: string, last: string, c: char)
    requires Free(c, last)
    ensures Split(s + [c] + last, c) == Split(s, c) + [last]
  {
    var parts := Split(s, c);
    JoinSplit(s, c);
    JoinAppend(parts, last, c);
    SplitParts(s, c);
    SplitJoin(parts + [last], c);
  }

  /** Where a file lies: the parts of its path are those of the directory, and the file. */
  lemma InDirParts(dir: string, file: string)
    requires CleanDir(dir) && Free('/', file)
    ensures Split(InDir(dir, file), '/') ==
      if dir == "." then [file] else if dir == "/" then ["", file] else Split(dir, '/') + [file]
  {
    if dir == "." {
      assert Join([file], '/') == file;
      SplitJoin([file], '/');
    } else if dir == "/" {
      JoinFirst("", [file], '/');
      assert [""] + [file] == ["", file] && Join([file], '/') == file;
      SplitJoin(["", file], '/');
    } else {
      SplitAppend(dir, file, '/');
    }
  }

  /** For a clean rooted directory, the simple join is what path.Join gives. */
  lemma InDirIsJoin(components: seq<string>, file: string)
    requires (forall p :: p in components ==> Plain(p)) && Plain(file)
    ensures InDir(Rooted(components), file) == PathJoin(Rooted(components), file)
    ensures InDir(Rooted(components), file) == Rooted(components + [file])
  {
    JoinIsKept(components, file);
    if components == [] {
      assert [] + [file] == [file];
    } else {
      RootedAppend(components, file);
      RootedIsDeep(components);
    }
  }

  lemma RootedIsDeep(components: seq<string>)
    requires components != [] && forall p :: p in components ==> Plain(p)
    ensures Rooted(components) != "/" && Rooted(components)[0] == '/'
  {
    assert components[0] in components && Plain(components[0]);
    if |components| > 1 {
      assert Join(components, '/')[..|components[0]|] == components[0];
    }
  }

  lemma JoinIsKept(components: seq<string>, file: string)
    requires (forall p :: p in components ==> Plain(p)) && Plain(file)
    ensures PathJoin(Rooted(components), file) == Rooted(components + [file])
  {
    var dir := Rooted(components);
    SplitAppend(dir, file, '/');
    assert dir + "/" + file == dir + ['/'] + file;
    RootedIsSplit(components);
    RootedIsKept(components);
    KeptAppend(Split(dir, '/'), [file]);
  }

  lemma RootedIsSplit(components: seq<string>)
    requires forall p :: p in components ==> Plain(p)
    ensures Split(Rooted(components), '/') == if components == [] then ["", ""] else [""] + components
  {
    if components == [] {
      assert [""] + [""] == ["", ""];
      JoinFirst("", [""], '/');
      SplitJoin(["", ""], '/');
    } else {
      JoinFirst("", components, '/');
      forall i | 0 <= i < |[""] + components| ensures Free('/', ([""] + components)[i]) {
        assert i > 0 ==> components[i - 1] in components;
      }
      SplitJoin([""] + components, '/');
    }
  }

  lemma RootedIsKept(components: seq<string>)
    requires forall p :: p in components ==> Plain(p)
    ensures Kept(Split(Rooted(components), '/')) == components
  {
    RootedIsSplit(components);
    assert [] + [""] == [""] && [""] + [""] == ["", ""];
    KeptEmpty([]);
    KeptEmpty([""]);
    KeptAppend([""], components);
  }

  /** Cleaning leaves plain components only, and nothing of a clean path is lost. */
  lemma {:induction false} KeptIsPlain(parts: seq<string>)
    requires forall p :: p in parts ==> Free('/', p)
    ensures forall p :: p in Kept(parts) ==> Plain(p)
  {
    if parts != [] {
      var before, last := parts[..|parts| - 1], parts[|parts| - 1];
      assert parts == before + [last];
      KeptIsPlain(before);
      assert Free('/', last);
    }
  }

  /** How names are put together. */
  lemma NamesSpelled(dir: string, n: string, l: string, t: Clock)
    ensures FullName(n, Stamp(l, t)) == n + "@" + l + "-" + Format(t)
    ensures dir != "" && dir != "." && dir != "/" ==>
      DumpPath(dir, n, Stamp(l, t)) == dir + "/" + Dashed(n) + "-" + l + "-" + Format(t) + ".snap"
    ensures TmpPath(dir, n, Stamp(l, t)) == DumpPath(dir, n, Stamp(l, t)) + ".tmp"
  {
  }
}
