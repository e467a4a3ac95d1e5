/**
 The image bookkeeping of prep.sh: the map of images and tags of the newest release, the
 pull loop with its retries, and the removal of images that the release no longer names.
 */
module Release {
  import opened Text
  import opened Fields

  // ----- fetch_release_data -----

  datatype Release = Release(build: int, codename: string, url: string, images: map<string, string>)

  /** max_by(.build): of several greatest elements jq takes the last */
  function MaxByBuild(releases: seq<Release>): (i: nat)
    requires releases != []
    ensures i < |releases|
    ensures forall j :: 0 <= j < |releases| ==> releases[j].build <= releases[i].build
    ensures forall j :: i < j < |releases| ==> releases[j].build < releases[i].build
  {
    if |releases| == 1 then 0
    else
      var init, last := releases[..|releases| - 1], releases[|releases| - 1];
      var i := MaxByBuild(init);
      assert releases[i] == init[i];
      assert forall j :: 0 <= j < |init| ==> releases[j] == init[j];
      if init[i].build <= last.build then |releases| - 1 else i
  }

  predicate IsBlank(c: char) {
    c == ' ' || c == '\t' || c == '\n'
  }

  predicate NoBlanks(s: string) {
    forall i :: 0 <= i < |s| ==> !IsBlank(s[i])
  }

  function Normalized(s: string): (r: string)
    ensures |r| == |s|
  {
    seq(|s|, i requires 0 <= i < |s| => if IsBlank(s[i]) then '\n' else s[i])
  }

  function NonEmpty(parts: seq<string>): seq<string> {
    if parts == [] then []
    else if parts[0] == "" then NonEmpty(parts[1..]) else [parts[0]] + NonEmpty(parts[1..])
  }

  /** The shell's word splitting of an unquoted expansion */
  function Words(s: string): seq<string> {
    NonEmpty(Split(Normalized(s), '\n'))
  }

  function Entry(name: string, tag: string): string {
    name + ":" + tag
  }

  /** IFS=':' read -ra I <<< "$img", then ${I[0]} and ${I[1]} */
  function ReadEntry(img: string): (string, string) {
    var parts := Split(img, ':');
    (parts[0], if |parts| > 1 then parts[1] else "")
  }

  /** The first two of the parts between the colons, whatever the text; an empty second part
      if there is no colon. */
  lemma ReadEntryParts(parts: seq<string>)
    requires parts != [] && forall i :: 0 <= i < |parts| ==> Free(':', parts[i])
    ensures ReadEntry(Join(parts, ':')) == (parts[0], if |parts| > 1 then parts[1] else "")
  {
    SplitJoin(parts, ':');
  }

  /** An entry reads back exactly if neither the name nor the tag has a colon. A registry
      with a port number is a name with a colon. */
  lemma EntryExactly(name: string, tag: string)
    ensures ReadEntry(Entry(name, tag)) == (name, tag) <==> Free(':', name) && Free(':', tag)
  {
    var s := Entry(name, tag);
    if Free(':', name) && Free(':', tag) {
      assert Join([name, tag], ':') == s;
      SplitJoin([name, tag], ':');
    }
    SplitParts(s, ':');
  }

  /** Names and tags that survive the way through the shell. */
  ghost predicate ShellSafe(images: map<string, string>) {
    forall k :: k in images ==>
      k != "" && Free(':', k) && NoBlanks(k) && Free(':', images[k]) && NoBlanks(images[k])
  }

  /** Lines that list the map, each entry once, in any order. */
  ghost predicate ListsImages(lines: seq<string>, keys: seq<string>, images: map<string, string>) {
    && |lines| == |keys| && Distinct(keys) && Elements(keys) == images.Keys
    && forall i :: 0 <= i < |keys| ==> keys[i] in images && lines[i] == Entry(keys[i], images[keys[i]])
  }

  /** The script's loop over the words of the list; an entry without a name is an error. */
  method BuildTags(list: string) returns (ok: bool, tags: map<string, string>)
    ensures ok <==> forall i :: 0 <= i < |Words(list)| ==> ReadEntry(Words(list)[i]).0 != ""
    ensures ok ==> tags == TagsOf(Words(list))
  {
    tags := map[];
    var words := Words(list);
    for i := 0 to |words|
      invariant tags == TagsOf(words[..i])
      invariant forall j :: 0 <= j < i ==> ReadEntry(words[j]).0 != ""
    {
      assert words[..i + 1][..i] == words[..i];
      var (name, tag) := ReadEntry(words[i]);
      if name == "" {
        return false, tags;
      }
      tags := tags[name := tag];
    }
    assert words[..|words|] == words;
    ok := true;
  }

  function TagsOf(words: seq<string>): map<string, string> {
    if words == [] then map[]
    else
      var (name, tag) := ReadEntry(words[|words| - 1]);
      TagsOf(words[..|words| - 1])[name := tag]
  }

  lemma {:induction false} NonEmptyAll(parts: seq<string>)
    requires forall i :: 0 <= i < |parts| ==> parts[i] != ""
    ensures NonEmpty(parts) == parts
  {
    if parts != [] {
      NonEmptyAll(parts[1..]);
    }
  }

  lemma {:induction false} JoinNoBlanks(lines: seq<string>)
    requires lines != [] && forall i :: 0 <= i < |lines| ==> NoBlanks(lines[i])
    ensures Normalized(Join(lines, '\n')) == Join(lines, '\n')
  {
    var s := Join(lines, '\n');
    if |lines| > 1 {
      var rest := Join(lines[1..], '\n');
      JoinNoBlanks(lines[1..]);
      assert forall i :: 0 <= i < |rest| ==> Normalized(rest)[i] == rest[i];
      assert s == lines[0] + ['\n'] + rest;
    }
  }

  lemma NormalizedAppend(a: string, c: char, b: string)
    requires NoBlanks(a) && IsBlank(c)
    ensures Normalized(a + [c] + b) == a + ['\n'] + Normalized(b)
  {
  }

  /** Word splitting, from left to right: a text without blanks is one word, or none if it is
      empty; otherwise the part before the first blank comes first, unless it is empty. */
  lemma WordsExactly(word: string, c: char, rest: string)
    requires NoBlanks(word) && (c == ' ' || c == '\t' || c == '\n')
    ensures Words(word) == if word == "" then [] else [word]
    ensures Words(word + [c] + rest) == (if word == "" then [] else [word]) + Words(rest)
  {
    NoNewline(word);
    NormalizedAppend(word, c, rest);
    CutAt(word, '\n', Normalized(rest));
    var s := word + ['\n'] + Normalized(rest);
    assert s[..|word|] == word && s[|word| + 1..] == Normalized(rest);
    var parts := Split(Normalized(rest), '\n');
    assert Split(s, '\n') == [word] + parts;
    assert ([word] + parts)[1..] == parts;
  }

  lemma NoNewline(word: string)
    requires NoBlanks(word)
    ensures Normalized(word) == word && Split(word, '\n') == [word]
    ensures NonEmpty([word]) == if word == "" then [] else [word]
  {
    assert Join([word], '\n') == word;
    assert forall j :: 0 <= j < |word| ==> !IsBlank(word[j]);
    SplitJoin([word], '\n');
    assert [word][1..] == [];
  }

  /** Lines without blanks come back as words. */
  lemma WordsOfLines(lines: seq<string>)
    requires lines != [] && forall i :: 0 <= i < |lines| ==> lines[i] != "" && NoBlanks(lines[i])
    ensures Words(Join(lines, '\n')) == lines
  {
    JoinNoBlanks(lines);
    forall i | 0 <= i < |lines| ensures Free('\n', lines[i]) {
      assert forall j :: 0 <= j < |lines[i]| ==> !IsBlank(lines[i][j]);
    }
    SplitJoin(lines, '\n');
    NonEmptyAll(lines);
  }

  lemma {:induction false} TagsOfLines(lines: seq<string>, keys: seq<string>, images: map<string, string>)
    requires |lines| == |keys| && Distinct(keys)
    requires forall i :: 0 <= i < |keys| ==> keys[i] in images && lines[i] == Entry(keys[i], images[keys[i]])
    requires ShellSafe(images)
    ensures TagsOf(lines).Keys == Elements(keys)
    ensures forall i :: 0 <= i < |keys| ==> keys[i] in TagsOf(lines) && TagsOf(lines)[keys[i]] == images[keys[i]]
  {
    if lines != [] {
      var n := |lines| - 1;
      TagsOfLines(lines[..n], keys[..n], images);
      EntryExactly(keys[n], images[keys[n]]);
      assert keys == keys[..n] + [keys[n]];
      assert Elements(keys) == Elements(keys[..n]) + {keys[n]};
      forall i | 0 <= i < |keys| ensures keys[i] in TagsOf(lines) && TagsOf(lines)[keys[i]] == images[keys[i]] {
        if i < n {
          assert keys[..n][i] == keys[i] && keys[i] != keys[n];
        }
      }
    }
  }

  lemma LinesAreSafe(lines: seq<string>, keys: seq<string>, images: map<string, string>)
    requires ListsImages(lines, keys, images) && ShellSafe(images)
    ensures forall i :: 0 <= i < |lines| ==> lines[i] != "" && NoBlanks(lines[i]) && ReadEntry(lines[i]).0 != ""
  {
    forall i | 0 <= i < |lines| ensures lines[i] != "" && NoBlanks(lines[i]) && ReadEntry(lines[i]).0 != "" {
      EntryExactly(keys[i], images[keys[i]]);
    }
  }

  lemma TagsAreImages(lines: seq<string>, keys: seq<string>, images: map<string, string>)
    requires ListsImages(lines, keys, images) && ShellSafe(images)
    ensures TagsOf(lines) == images
  {
    TagsOfLines(lines, keys, images);
    forall k | k in images ensures TagsOf(lines)[k] == images[k] {
      assert k in Elements(keys);
      var i :| 0 <= i < |keys| && keys[i] == k;
    }
  }

  /** Rebuilding the map from its printed form gives back the map of the release. */
  lemma TagsRebuilt(lines: seq<string>, keys: seq<string>, images: map<string, string>)
    requires ListsImages(lines, keys, images) && ShellSafe(images) && lines != []
    ensures TagsOf(Words(Join(lines, '\n'))) == images
    ensures forall i :: 0 <= i < |Words(Join(lines, '\n'))| ==> ReadEntry(Words(Join(lines, '\n'))[i]).0 != ""
  {
    LinesAreSafe(lines, keys, images);
    WordsOfLines(lines);
    TagsAreImages(lines, keys, images);
  }

  /** The words of the printed list. */
  function ListedWords(lines: seq<string>): seq<string> {
    if lines == [] then [] else Words(Join(lines, '\n'))
  }

  /** What the script makes of any map: for some order of the lines it fails exactly on a word
      without a name, and otherwise has the names and tags of the words. */
  ghost predicate TagsRead(images: map<string, string>, ok: bool, tags: map<string, string>) {
    exists lines, keys :: EntriesRead(lines, keys, images, ok, tags)
  }

  ghost predicate EntriesRead(lines: seq<string>, keys: seq<string>, images: map<string, string>,
                              ok: bool, tags: map<string, string>) {
    var words := ListedWords(lines);
    && ListsImages(lines, keys, images)
    && (ok <==> forall i :: 0 <= i < |words| ==> ReadEntry(words[i]).0 != "")
    && (ok ==> tags == TagsOf(words))
  }

  /** Everything comes from the last of the releases with the greatest build number. An
      empty list of releases ends the script. */
  method FetchReleaseData(releases: seq<Release>)
    returns (ok: bool, number: int, codename: string, url: string, tags: map<string, string>)
    ensures releases == [] ==> !ok
    ensures releases != [] ==> var r := releases[MaxByBuild(releases)];
      && number == r.build && codename == r.codename && url == r.url
      && TagsRead(r.images, ok, tags)
      && (ShellSafe(r.images) ==> ok && tags == r.images)
  {
    number, codename, url, tags := 0, "", "", map[];
    if releases == [] {
      return false, number, codename, url, tags;
    }
    var r := releases[MaxByBuild(releases)];
    var lines: seq<string>, keys: seq<string> := [], [];
    var todo := r.images.Keys;
    while todo != {}
      invariant todo <= r.images.Keys
      invariant |lines| == |keys| && Distinct(keys) && Elements(keys) == r.images.Keys - todo
      invariant forall i :: 0 <= i < |keys| ==> keys[i] in r.images && lines[i] == Entry(keys[i], r.images[keys[i]])
    {
      var k :| k in todo;
      assert k !in Elements(keys);
      todo := todo - {k};
      lines, keys := lines + [Entry(k, r.images[k])], keys + [k];
      assert Elements(keys) == Elements(keys[..|keys| - 1]) + {k};
    }
    number, codename, url := r.build, r.codename, r.url;
    if lines == [] {
      assert r.images.Keys == {};
      ok := true;
    } else {
      if ShellSafe(r.images) {
        TagsRebuilt(lines, keys, r.images);
      }
      ok, tags := BuildTags(Join(lines, '\n'));
    }
    assert EntriesRead(lines, keys, r.images, ok, tags);
  }

  // ----- download_and_verify_image -----

  /** The retry loop. `pulls(k)` tells whether the k-th attempt works; the count of retries
      is compared only after an attempt, so one more attempt than the limit may be made,
      and that last one does not count even if it works. */
  method PullWithRetries(pulls: nat -> bool, maxRetries: nat) returns (ok: bool, attempts: nat)
    ensures ok <==> exists k: nat :: k < maxRetries && pulls(k)
    ensures ok ==> attempts <= maxRetries && attempts >= 1 && pulls(attempts - 1)
    ensures forall k: nat :: k < attempts - 1 ==> !pulls(k)
    ensures !ok ==> attempts == maxRetries + 1
  {
    var retries := 0;
    var pulled := pulls(0);
    attempts := 1;
    while !pulled && retries != maxRetries
      invariant retries <= maxRetries && attempts == retries + 1
      invariant pulled == pulls(retries)
      invariant forall k: nat :: k < retries ==> !pulls(k)
    {
      retries := retries + 1;
      pulled := pulls(retries);
      attempts := attempts + 1;
    }
    ok := retries != maxRetries;
  }

  // ----- pull_all_images -----

  function ImageOf(name: string, tags: map<string, string>): string
    requires name in tags
  {
    Entry(name, tags[name])
  }

  /** ${image#$REGISTRY/}: the name under which the id is recorded */
  function StateName(image: string, registry: string): string {
    if HasPrefix(image, registry + "/") then image[|registry| + 1..] else image
  }

  /** The prefix goes if it is there, and then the rest decides the name. */
  lemma StateNameExactly(image: string, registry: string, name: string)
    ensures StateName(image, registry) == name <==>
      image == registry + "/" + name || (image == name && !HasPrefix(image, registry + "/"))
  {
    var p := registry + "/";
    if HasPrefix(image, p) {
      assert image == p + image[|p|..];
      assert (p + name)[|p|..] == name;
    }
  }

  /** How the registry and the storage answer: attempts to pull, the layers of an image,
      whether OverlayFS is in use and which layers are there, ids. */
  datatype World = World(pulls: string -> nat -> bool, layers: string -> seq<string>, overlay: bool,
                         inOverlay: string -> bool, inGraph: string -> bool, id: string -> string)

  const MAX_RETRIES: nat := 10

  /** The image arrives within the limit, and all its layers are there. */
  ghost predicate Arrives(w: World, image: string) {
    && (exists k: nat :: k < MAX_RETRIES && w.pulls(image)(k))
    && (w.overlay ==> forall layer :: layer in w.layers(image) ==> w.inOverlay(layer) && w.inGraph(layer))
  }

  /** Pulls one image and looks for its layers. */
  method DownloadAndVerify(image: string, w: World) returns (ok: bool)
    ensures ok <==> Arrives(w, image)
    ensures ok ==> exists k: nat :: k < 10 && w.pulls(image)(k)
    ensures !w.overlay && (exists k: nat :: k < 10 && w.pulls(image)(k)) ==> ok
  {
    var pulled, attempts := PullWithRetries(w.pulls(image), MAX_RETRIES);
    if !pulled {
      return false;
    }
    if w.overlay {
      var layers := w.layers(image);
      for i := 0 to |layers|
        invariant forall j :: 0 <= j < i ==> w.inOverlay(layers[j]) && w.inGraph(layers[j])
      {
        if !w.inOverlay(layers[i]) || !w.inGraph(layers[i]) {
          assert layers[i] in w.layers(image);
          return false;
        }
      }
    }
    ok := true;
  }

  /** The recorded ids after some images were pulled, one after the other. */
  function RecordAll(tags: map<string, string>, pulled: seq<string>, w: World, registry: string,
                     before: map<string, string>): map<string, string>
    requires forall n :: n in pulled ==> n in tags
  {
    if pulled == [] then before
    else
      var image := ImageOf(pulled[|pulled| - 1], tags);
      RecordAll(tags, pulled[..|pulled| - 1], w, registry, before)[StateName(image, registry) := w.id(image)]
  }

  ghost predicate IsId(tags: map<string, string>, pulled: seq<string>, w: World, registry: string,
                       p: string, id: string)
  {
    exists n :: n in tags && n in pulled && p == StateName(ImageOf(n, tags), registry) && id == w.id(ImageOf(n, tags))
  }

  /** Under the name of a pulled image stands the id of a pulled image of that name, whatever
      stood there before; every other record is as before. */
  lemma {:induction false} RecordedExactly(tags: map<string, string>, pulled: seq<string>, w: World, registry: string,
                                           before: map<string, string>, p: string)
    requires forall n :: n in pulled ==> n in tags
    ensures var state := RecordAll(tags, pulled, w, registry, before);
      if exists n :: n in tags && n in pulled && p == StateName(ImageOf(n, tags), registry)
      then p in state && IsId(tags, pulled, w, registry, p, state[p])
      else (p in state <==> p in before) && (p in state ==> state[p] == before[p])
  {
    if pulled != [] {
      var rest, n := pulled[..|pulled| - 1], pulled[|pulled| - 1];
      assert pulled == rest + [n];
      RecordedExactly(tags, rest, w, registry, before, p);
      var state := RecordAll(tags, rest, w, registry, before);
      if p == StateName(ImageOf(n, tags), registry) {
        assert IsId(tags, pulled, w, registry, p, w.id(ImageOf(n, tags)));
      } else if m :| m in tags && m in pulled && p == StateName(ImageOf(m, tags), registry) {
        assert m in rest;
        IdStays(tags, rest, pulled, w, registry, p, state[p]);
      }
    }
  }

  lemma IdStays(tags: map<string, string>, pulled: seq<string>, more: seq<string>, w: World, registry: string,
                p: string, id: string)
    requires IsId(tags, pulled, w, registry, p, id) && forall n :: n in pulled ==> n in more
    ensures IsId(tags, more, w, registry, p, id)
  {
  }

  /** So an image whose name no other pulled image shares has its own id. */
  lemma OwnIdRecorded(tags: map<string, string>, pulled: seq<string>, w: World, registry: string,
                      before: map<string, string>, n: string)
    requires (forall m :: m in pulled ==> m in tags) && n in pulled
    requires forall m :: m in pulled ==>
      (StateName(ImageOf(m, tags), registry) == StateName(ImageOf(n, tags), registry) ==> m == n)
    ensures var p, state := StateName(ImageOf(n, tags), registry), RecordAll(tags, pulled, w, registry, before);
      p in state && state[p] == w.id(ImageOf(n, tags))
  {
    RecordedExactly(tags, pulled, w, registry, before, StateName(ImageOf(n, tags), registry));
  }

  lemma RecordNext(tags: map<string, string>, pulled: seq<string>, w: World, registry: string,
                   before: map<string, string>, n: string)
    requires (forall m :: m in pulled ==> m in tags) && n in tags
    ensures var image := ImageOf(n, tags);
      RecordAll(tags, pulled + [n], w, registry, before)
        == RecordAll(tags, pulled, w, registry, before)[StateName(image, registry) := w.id(image)]
  {
    assert (pulled + [n])[..|pulled|] == pulled;
  }

  lemma OneMore(all: set<string>, todo: set<string>, pulled: seq<string>, n: string)
    requires n in todo && todo <= all && Elements(pulled) == all - todo && Distinct(pulled)
    ensures Elements(pulled + [n]) == all - (todo - {n}) && Distinct(pulled + [n])
  {
    assert n !in Elements(pulled);
    assert Elements(pulled + [n]) == Elements(pulled) + {n};
  }

  /** Pulls all images in whatever order the map yields them. The first failure ends the
      script; `ok` is false then. `progress` is what was reported before each image, `pulled`
      are the images that were pulled, in their order. */
  method PullAllImages(tags: map<string, string>, w: World, registry: string, before: map<string, string>)
    returns (ok: bool, progress: seq<real>, state: map<string, string>, ghost pulled: seq<string>)
    ensures ok <==> forall n :: n in tags ==> Arrives(w, ImageOf(n, tags))
    ensures Distinct(pulled) && (forall n :: n in pulled ==> n in tags && Arrives(w, ImageOf(n, tags)))
    ensures ok ==> Elements(pulled) == tags.Keys
    ensures state == RecordAll(tags, pulled, w, registry, before)
    ensures |progress| == if ok then |tags| else |pulled| + 1
    ensures Progresses(progress) && ArePercents(progress, |tags|)
  {
    progress, state, pulled := [], before, [];
    var todo := tags.Keys;
    var total, count := |tags|, 0;
    while todo != {}
      invariant todo <= tags.Keys && Elements(pulled) == tags.Keys - todo && Distinct(pulled)
      invariant forall n :: n in pulled ==> n in tags && Arrives(w, ImageOf(n, tags))
      invariant count == |pulled| == total - |todo|
      invariant state == RecordAll(tags, pulled, w, registry, before)
      invariant progress == Reports(count, total)
    {
      var n :| n in todo;
      var image := ImageOf(n, tags);
      ReportsNext(count, total);
      progress := progress + [Percent(count, total)];
      var arrived := DownloadAndVerify(image, w);
      if !arrived {
        ReportsAreProgress(count + 1, total);
        return false, progress, state, pulled;
      }
      OneMore(tags.Keys, todo, pulled, n);
      RecordNext(tags, pulled, w, registry, before, n);
      state := state[StateName(image, registry) := w.id(image)];
      todo, pulled, count := todo - {n}, pulled + [n], count + 1;
    }
    ReportsAreProgress(count, total);
    assert forall n :: n in tags ==> n in Elements(pulled);
    ok := true;
  }

  lemma ReportsAreProgress(count: nat, total: nat)
    requires count <= total
    ensures Progresses(Reports(count, total)) && ArePercents(Reports(count, total), total)
  {
    ProgressGrows(count, total);
    ReportsExactly(count, total);
  }

  function Percent(count: nat, total: nat): real {
    if total == 0 then 0.0 else count as real / total as real * 100.0
  }

  lemma PercentGrows(i: nat, j: nat, total: nat)
    requires i < j < total
    ensures 0.0 <= Percent(i, total) < Percent(j, total) < 100.0
  {
    var x, y, t := i as real, j as real, total as real;
    assert x / t < y / t < 1.0 by {
      Divided(x, y, t);
    }
  }

  lemma Divided(x: real, y: real, t: real)
    requires 0.0 <= x < y < t
    ensures 0.0 <= x / t < y / t < 1.0
  {
    var a, b := x / t, y / t;
    assert a * t == x && b * t == y;
    assert a >= b ==> a * t >= b * t;
    assert b >= 1.0 ==> b * t >= 1.0 * t;
    assert a < 0.0 ==> a * t < 0.0 * t;
  }

  /** What is reported before the first `count` of `total` images. */
  function Reports(count: nat, total: nat): seq<real> {
    seq(count, i requires 0 <= i < count => Percent(i, total))
  }

  lemma ReportsNext(count: nat, total: nat)
    ensures Reports(count + 1, total) == Reports(count, total) + [Percent(count, total)]
  {
  }

  /** Progress starts at 0, grows with every report and never reaches 100. */
  ghost predicate Progresses(progress: seq<real>) {
    && (forall i :: 0 <= i < |progress| ==> 0.0 <= progress[i] < 100.0 && (i == 0 ==> progress[i] == 0.0))
    && (forall i, j :: 0 <= i < j < |progress| ==> progress[i] < progress[j])
  }

  /** Report i is the share of i images in the total, in percent. */
  ghost predicate ArePercents(progress: seq<real>, total: nat) {
    forall i :: 0 <= i < |progress| ==> progress[i] * total as real == 100.0 * i as real
  }

  lemma ReportsExactly(count: nat, total: nat)
    requires count <= total
    ensures ArePercents(Reports(count, total), total)
  {
    forall i | 0 <= i < count ensures Percent(i, total) * total as real == 100.0 * i as real {
      var a, t := i as real / total as real, total as real;
      assert a * t == i as real;
      assert a * 100.0 * t == 100.0 * (a * t);
    }
  }

  lemma ProgressGrows(count: nat, total: nat)
    requires count <= total
    ensures Progresses(Reports(count, total))
  {
    forall i, j | 0 <= i < j < count ensures 0.0 <= Percent(i, total) < Percent(j, total) < 100.0 {
      PercentGrows(i, j, total);
    }
    if count == 1 && total > 1 {
      PercentGrows(0, 1, total);
    }
  }

  // ----- remove_old_images -----

  /** comm -23 on sorted input: the lines only the first file has, counting repetitions */
  method Comm23(a: seq<string>, b: seq<string>) returns (r: seq<string>)
    requires Sorted(a) && Sorted(b)
    ensures multiset(r) == multiset(a) - multiset(b) && Sorted(r)
  {
    r := [];
    var i, j := 0, 0;
    while i < |a|
      invariant i <= |a| && j <= |b|
      invariant multiset(a) - multiset(b) == multiset(r) + (multiset(a[i..]) - multiset(b[j..]))
      invariant Sorted(r) && UpToNext(r, a, i)
      decreases |a| - i + |b| - j
    {
      assert Sorted(a[i..]) && Sorted(b[j..]);
      assert a[i..][1..] == a[i + 1..] && (j < |b| ==> b[j..][1..] == b[j + 1..]);
      if j == |b| || (Le(a[i], b[j]) && a[i] != b[j]) {
        OnlyFirst(a[i..], b[j..]);
        SortedMoves(r, a, i);
        Moved(r, a[i], multiset(a[i + 1..]) - multiset(b[j..]));
        r, i := r + [a[i]], i + 1;
      } else if a[i] == b[j] {
        InBoth(a[i..], b[j..]);
        StillUpTo(r, a, i);
        i, j := i + 1, j + 1;
      } else {
        OnlySecond(a[i..], b[j..]);
        j := j + 1;
      }
    }
    assert a[i..] == [];
  }

  lemma HeadAndTail(s: seq<string>)
    requires s != []
    ensures multiset(s) == multiset{s[0]} + multiset(s[1..])
  {
    assert s == [s[0]] + s[1..];
  }

  /** The smallest line of a sorted list is in the list only if it is the first. */
  lemma SmallerIsAbsent(x: string, s: seq<string>)
    requires Sorted(s) && (s == [] || Lt(x, s[0]))
    ensures x !in multiset(s)
  {
    if x in s {
      var k :| 0 <= k < |s| && s[k] == x;
      LeReflexive(x);
      LeAntisymmetric(x, s[0]);
    }
  }

  /** What was printed comes before what is still to read. */
  ghost predicate UpToNext(r: seq<string>, a: seq<string>, i: nat) {
    i < |a| ==> forall k :: 0 <= k < |r| ==> Le(r[k], a[i])
  }

  lemma StillUpTo(r: seq<string>, a: seq<string>, i: nat)
    requires Sorted(a) && i < |a| && UpToNext(r, a, i)
    ensures UpToNext(r, a, i + 1)
  {
    if i + 1 < |a| {
      forall k | 0 <= k < |r| ensures Le(r[k], a[i + 1]) {
        LeTransitive(r[k], a[i], a[i + 1]);
      }
    }
  }

  lemma SortedMoves(r: seq<string>, a: seq<string>, i: nat)
    requires Sorted(a) && Sorted(r) && i < |a| && UpToNext(r, a, i)
    ensures Sorted(r + [a[i]]) && UpToNext(r + [a[i]], a, i + 1)
  {
    StillUpTo(r, a, i);
  }

  lemma Moved(r: seq<string>, x: string, rest: multiset<string>)
    ensures multiset(r) + (multiset{x} + rest) == multiset(r + [x]) + rest
  {
  }

  lemma OnlyFirst(a: seq<string>, b: seq<string>)
    requires Sorted(b) && a != [] && (b == [] || Lt(a[0], b[0]))
    ensures multiset(a) - multiset(b) == multiset{a[0]} + (multiset(a[1..]) - multiset(b))
  {
    HeadAndTail(a);
    SmallerIsAbsent(a[0], b);
  }

  lemma InBoth(a: seq<string>, b: seq<string>)
    requires a != [] && b != [] && a[0] == b[0]
    ensures multiset(a) - multiset(b) == multiset(a[1..]) - multiset(b[1..])
  {
    HeadAndTail(a);
    HeadAndTail(b);
  }

  lemma OnlySecond(a: seq<string>, b: seq<string>)
    requires Sorted(a) && a != [] && b != [] && !Le(a[0], b[0])
    ensures multiset(a) - multiset(b) == multiset(a) - multiset(b[1..])
  {
    HeadAndTail(b);
    LeTotal(a[0], b[0]);
    LeReflexive(b[0]);
    SmallerIsAbsent(b[0], a);
  }

  /** "quay", any character for the dot of the pattern, the owner, and the rest of the line. */
  predicate HasForm(line: string, c: char, owner: string, rest: string) {
    line == "quay" + [c] + owner + rest
  }

  /** The lines that the script takes for images of the platform. */
  ghost predicate Matches(line: string) {
    || (exists c, rest :: HasForm(line, c, "io/experimentalplatform/", rest))
    || (exists c, rest :: HasForm(line, c, "io/protonetinc/", rest))
  }

  lemma OwnedExactly(line: string, owner: string)
    requires owner != ""
    ensures OwnedBy(line, owner) <==> exists c, rest :: HasForm(line, c, owner, rest)
  {
    if OwnedBy(line, owner) {
      var rest := line[5..][|owner|..];
      assert line[5..] == owner + rest;
      assert HasForm(line, line[4], owner, rest);
    }
    if c, rest :| HasForm(line, c, owner, rest) {
      FormIsOwned(line, c, owner, rest);
    }
  }

  lemma FormIsOwned(line: string, c: char, owner: string, rest: string)
    requires HasForm(line, c, owner, rest) && owner != ""
    ensures OwnedBy(line, owner)
  {
    assert line[..4] == "quay" && line[5..] == owner + rest;
    assert line[5..][..|owner|] == owner;
  }

  lemma PlatformExactly(line: string)
    ensures IsPlatformImage(line) <==> Matches(line)
  {
    OwnedExactly(line, "io/experimentalplatform/");
    OwnedExactly(line, "io/protonetinc/");
  }

  const FIRST_OWNER := "io/experimentalplatform/"
  const SECOND_OWNER := "io/protonetinc/"

  /** grep -e '^quay.io/<owner>/.*'; the dot of the pattern stands for any character */
  predicate OwnedBy(line: string, owner: string) {
    HasPrefix(line, "quay") && |line| > 5 && HasPrefix(line[5..], owner)
  }

  predicate IsPlatformImage(line: string) {
    OwnedBy(line, FIRST_OWNER) || OwnedBy(line, SECOND_OWNER)
  }

  function Filtered(lines: seq<string>): seq<string> {
    if lines == [] then []
    else
      var rest, line := Filtered(lines[..|lines| - 1]), lines[|lines| - 1];
      if IsPlatformImage(line) then rest + [line] else rest
  }

  lemma {:induction false} FilteredCount(lines: seq<string>, x: string)
    ensures multiset(Filtered(lines))[x] == if IsPlatformImage(x) then multiset(lines)[x] else 0
  {
    if lines != [] {
      var init := lines[..|lines| - 1];
      FilteredCount(init, x);
      assert lines == init + [lines[|lines| - 1]];
    }
  }

  /** The names of the release whose line is x. */
  ghost function Named(tags: map<string, string>, x: string): set<string> {
    set n | n in tags && ImageOf(n, tags) == x
  }

  /** The lines of the new release, in any order, and one empty line if there are none. */
  method NewImages(tags: map<string, string>) returns (lines: seq<string>)
    ensures forall x :: x != "" ==> multiset(lines)[x] == |Named(tags, x)|
  {
    lines := [];
    var todo := tags.Keys;
    ghost var seen: map<string, string> := map[];
    while todo != {}
      invariant todo <= tags.Keys && seen == tags - todo
      invariant forall x :: multiset(lines)[x] == |Named(seen, x)|
    {
      var n :| n in todo;
      todo := todo - {n};
      forall x ensures |Named(seen[n := tags[n]], x)| == |Named(seen, x)| + if x == ImageOf(n, tags) then 1 else 0 {
        NewCountGrows(tags, seen, n, x);
      }
      lines, seen := lines + [ImageOf(n, tags)], seen[n := tags[n]];
    }
    assert seen == tags;
    if lines == [] {
      lines := [""];
    }
  }

  lemma NewCountGrows(tags: map<string, string>, seen: map<string, string>, n: string, x: string)
    requires n in tags && n !in seen
    ensures |Named(seen[n := tags[n]], x)| == |Named(seen, x)| + if x == ImageOf(n, tags) then 1 else 0
  {
    var a, b := Named(seen[n := tags[n]], x), Named(seen, x);
    assert a == if x == ImageOf(n, tags) then b + {n} else b;
    assert n !in b;
  }

  /** How many entries of an installed image the release does not account for. */
  ghost function Excess(installed: seq<string>, tags: map<string, string>, x: string): nat {
    if IsPlatformImage(x) && multiset(installed)[x] > |Named(tags, x)|
    then multiset(installed)[x] - |Named(tags, x)| else 0
  }

  /** Old images to remove: every installed platform image as often as it is installed
      beyond what the new release names. Without any installed platform image, grep fails
      and ends the script. */
  method RemoveOldImages(installed: seq<string>, tags: map<string, string>) returns (ok: bool, removed: seq<string>)
    ensures ok <==> exists x :: x in installed && Matches(x)
    ensures ok ==> forall x :: multiset(removed)[x] == Excess(installed, tags, x)
    ensures ok ==> forall x :: x in installed && Matches(x) && !InRelease(tags, x) ==> x in removed
    ensures forall x :: x in removed ==> x in installed && Matches(x)
    ensures Sorted(removed)
  {
    var all := Filtered(installed);
    forall x ensures multiset(all)[x] == if IsPlatformImage(x) then multiset(installed)[x] else 0 {
      FilteredCount(installed, x);
    }
    removed := [];
    AnyPlatform(installed);
    if all == [] {
      assert forall x :: IsPlatformImage(x) ==> x !in multiset(installed);
      return false, removed;
    }
    assert all[0] in multiset(all);
    var news := NewImages(tags);
    SortSorted(all);
    SortSorted(news);
    removed := Comm23(Sort(all), Sort(news));
    RemovedExactly(installed, tags, removed);
    ok := true;
  }

  lemma AnyPlatform(installed: seq<string>)
    ensures (exists x :: x in installed && Matches(x)) <==> (exists x :: x in installed && IsPlatformImage(x))
  {
    forall x ensures IsPlatformImage(x) <==> Matches(x) {
      PlatformExactly(x);
    }
  }

  /** The release names the image. */
  ghost predicate InRelease(tags: map<string, string>, x: string) {
    exists n :: n in tags && ImageOf(n, tags) == x
  }

  lemma RemovedExactly(installed: seq<string>, tags: map<string, string>, removed: seq<string>)
    requires forall x :: multiset(removed)[x] == Excess(installed, tags, x)
    ensures forall x :: x in removed ==> x in installed && Matches(x)
    ensures forall x :: x in installed && Matches(x) && !InRelease(tags, x) ==> x in removed
  {
    forall x
      ensures x in removed ==> x in installed && Matches(x)
      ensures x in installed && Matches(x) && !InRelease(tags, x) ==> x in removed
    {
      assert multiset(removed)[x] == Excess(installed, tags, x);
      PlatformExactly(x);
      RemovedOne(installed, tags, removed, x);
    }
  }

  lemma RemovedOne(installed: seq<string>, tags: map<string, string>, removed: seq<string>, x: string)
    requires multiset(removed)[x] == Excess(installed, tags, x)
    ensures x in removed ==> x in installed && IsPlatformImage(x)
    ensures x in installed && IsPlatformImage(x) && !InRelease(tags, x) ==> x in removed
  {
    assert x in removed <==> multiset(removed)[x] > 0;
    assert x in installed <==> multiset(installed)[x] > 0;
    assert !InRelease(tags, x) ==> Named(tags, x) == {};
  }

  /** No image of the new release with a single installed entry is removed, and every
      installed platform image that the release does not name is. */
  lemma WhatIsRemoved(installed: seq<string>, tags: map<string, string>, removed: seq<string>, x: string)
    requires multiset(removed)[x] == Excess(installed, tags, x)
    ensures (exists n :: n in tags && ImageOf(n, tags) == x) && multiset(installed)[x] <= 1 ==> x !in removed
    ensures (forall n :: n in tags ==> ImageOf(n, tags) != x) && IsPlatformImage(x) && x in installed ==> x in removed
  {
    assert x in removed <==> multiset(removed)[x] > 0;
    assert x in installed <==> multiset(installed)[x] > 0;
    if n :| n in tags && ImageOf(n, tags) == x {
      assert n in Named(tags, x);
    } else {
      assert Named(tags, x) == {};
    }
  }
}
