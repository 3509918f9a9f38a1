// The Android backend of crates/bvault-transfer/src/sink.rs: directories known only by
// URI, resolved one segment at a time, with a cache from relative paths to URIs.
module SafSink {
  import opened Wrappers

  type Uri = nat

  datatype Entry = Entry(name: string, uri: Uri)

  // The directories of the granted tree and their listings; a URI that is not in the map
  // is a file or nothing.
  type Dirs = map<Uri, seq<Entry>>

  // ---- Paths ---------------------------------------------------------------------------------

  // rel.split('/') without the empty pieces; cur is the piece begun.
  function SegmentsFrom(s: string, cur: string): seq<string> {
    if s == [] then Piece(cur)
    else if s[0] == '/' then Piece(cur) + SegmentsFrom(s[1..], [])
    else SegmentsFrom(s[1..], cur + [s[0]])
  }

  function Piece(cur: string): seq<string> {
    if cur == [] then [] else [cur]
  }

  function Segments(rel: string): seq<string> {
    SegmentsFrom(rel, [])
  }

  function Child(parent: string, seg: string): string {
    if parent == [] then seg else parent + "/" + seg
  }

  lemma {:induction false} SegmentsSplit(a: string, b: string, cur: string)
    ensures SegmentsFrom(a + "/" + b, cur) == SegmentsFrom(a, cur) + SegmentsFrom(b, [])
  {
    if a == [] {
      assert ("/" + b)[1..] == b;
      assert a + "/" + b == "/" + b;
    } else {
      assert (a + "/" + b)[1..] == a[1..] + "/" + b;
      SegmentsSplit(a[1..], b, if a[0] == '/' then [] else cur + [a[0]]);
    }
  }

  predicate Plain(seg: string) {
    seg != [] && '/' !in seg
  }

  lemma {:induction false} PlainSegments(s: string, cur: string)
    requires '/' !in s && cur + s != []
    ensures SegmentsFrom(s, cur) == [cur + s]
  {
    if s == [] {
      assert cur + s == cur;
    } else {
      assert cur + s == (cur + [s[0]]) + s[1..];
      PlainSegments(s[1..], cur + [s[0]]);
    }
  }

  // The path of a child has one segment more.
  lemma ChildSegments(parent: string, seg: string)
    requires Plain(seg)
    ensures Segments(Child(parent, seg)) == Segments(parent) + [seg]
  {
    PlainSegments(seg, []);
    assert [] + seg == seg;
    if parent != [] {
      SegmentsSplit(parent, seg, []);
    }
  }

  lemma {:induction false} SegmentsArePlain(s: string, cur: string)
    requires '/' !in cur
    ensures forall k :: 0 <= k < |SegmentsFrom(s, cur)| ==> Plain(SegmentsFrom(s, cur)[k])
  {
    if s != [] {
      if s[0] == '/' {
        SegmentsArePlain(s[1..], []);
      } else {
        SegmentsArePlain(s[1..], cur + [s[0]]);
      }
    }
  }

  // ---- The tree ------------------------------------------------------------------------------

  function Find(entries: seq<Entry>, name: string): Option<Uri> {
    if entries == [] then None
    else if entries[0].name == name then Some(entries[0].uri)
    else Find(entries[1..], name)
  }

  // The segment-by-segment walk, by listing alone.
  function Walk(dirs: Dirs, uri: Uri, segs: seq<string>): Option<Uri>
    decreases |segs|
  {
    if segs == [] then Some(uri)
    else if uri !in dirs then None
    else
      match Find(dirs[uri], segs[0])
      case None => None
      case Some(next) => Walk(dirs, next, segs[1..])
  }

  // A new directory in parent's listing; the provider chooses where in the listing.
  function Mkdir(dirs: Dirs, parent: Uri, name: string, uri: Uri, at: nat): Dirs
    requires parent in dirs && at <= |dirs[parent]|
  {
    dirs[parent := dirs[parent][..at] + [Entry(name, uri)] + dirs[parent][at..]][uri := []]
  }

  lemma {:induction false} FindInserted(entries: seq<Entry>, e: Entry, at: nat, name: string)
    requires at <= |entries| && (name == e.name ==> Find(entries, name) == None)
    ensures Find(entries[..at] + [e] + entries[at..], name)
      == if name == e.name then Some(e.uri) else Find(entries, name)
  {
    var all := entries[..at] + [e] + entries[at..];
    if at == 0 {
      assert all[1..] == entries;
    } else {
      assert all[0] == entries[0] && all[1..] == entries[1..][..at - 1] + [e] + entries[1..][at - 1..];
      FindInserted(entries[1..], e, at - 1, name);
    }
  }

  // Making a directory leaves every walk that worked as it was.
  lemma {:induction false} WalkAfterMkdir(dirs: Dirs, parent: Uri, name: string, uri: Uri, at: nat, from: Uri,
                                          segs: seq<string>)
    requires parent in dirs && at <= |dirs[parent]| && uri !in dirs && Find(dirs[parent], name) == None
    requires Walk(dirs, from, segs).Some?
    ensures Walk(Mkdir(dirs, parent, name, uri, at), from, segs) == Walk(dirs, from, segs)
    decreases |segs|
  {
    hide Find;
    if segs != [] {
      if from == parent && segs[0] != name {
        FindInserted(dirs[parent], Entry(name, uri), at, segs[0]);
      }
      WalkAfterMkdir(dirs, parent, name, uri, at, Find(dirs[from], segs[0]).value, segs[1..]);
    }
  }

  lemma {:induction false} WalkOn(dirs: Dirs, from: Uri, segs: seq<string>, seg: string)
    requires Walk(dirs, from, segs).Some?
    ensures var u := Walk(dirs, from, segs).value;
      Walk(dirs, from, segs + [seg]) == if u in dirs then Find(dirs[u], seg) else None
    decreases |segs|
  {
    hide Find;
    if segs == [] {
      assert [seg][1..] == [];
    } else {
      assert (segs + [seg])[1..] == segs[1..] + [seg];
      WalkOn(dirs, Find(dirs[from], segs[0]).value, segs[1..], seg);
    }
  }

  // Nothing is lost, and whatever is new lies on the path.
  predicate OnPath(dirs: Dirs, root: Uri, segs: seq<string>, u: Uri, name: string) {
    exists k :: 0 <= k < |segs| && Walk(dirs, root, segs[..k]) == Some(u) && segs[k] == name
  }

  ghost predicate Grown(before: Dirs, after: Dirs, root: Uri, segs: seq<string>) {
    && (forall u :: u in before ==> u in after && forall e :: e in before[u] ==> e in after[u])
    && (forall u, e :: u in after && e in after[u] ==>
          (u in before && e in before[u]) || OnPath(after, root, segs, u, e.name))
  }

  predicate NamesDistinct(entries: seq<Entry>) {
    forall i, j :: 0 <= i < j < |entries| ==> entries[i].name != entries[j].name
  }

  predicate NoDuplicates(dirs: Dirs) {
    forall u :: u in dirs ==> NamesDistinct(dirs[u])
  }

  lemma {:induction false} NotFound(entries: seq<Entry>, name: string)
    ensures Find(entries, name) == None <==> forall e :: e in entries ==> e.name != name
  {
    if entries != [] {
      NotFound(entries[1..], name);
      assert forall e :: e in entries <==> e == entries[0] || e in entries[1..];
    }
  }

  lemma MkdirKeepsDistinct(dirs: Dirs, parent: Uri, name: string, uri: Uri, at: nat)
    requires parent in dirs && at <= |dirs[parent]| && uri !in dirs && Find(dirs[parent], name) == None
    requires NoDuplicates(dirs)
    ensures NoDuplicates(Mkdir(dirs, parent, name, uri, at))
  {
    NotFound(dirs[parent], name);
    assert NamesDistinct(dirs[parent]);
    assert forall i :: 0 <= i < |dirs[parent]| ==> dirs[parent][i] in dirs[parent];
  }

  lemma MkdirGrows(before: Dirs, dirs: Dirs, root: Uri, segs: seq<string>, k: nat, parent: Uri, uri: Uri, at: nat)
    requires Grown(before, dirs, root, segs) && k < |segs| && Walk(dirs, root, segs[..k]) == Some(parent)
    requires parent in dirs && at <= |dirs[parent]| && uri !in dirs && Find(dirs[parent], segs[k]) == None
    ensures Grown(before, Mkdir(dirs, parent, segs[k], uri, at), root, segs)
  {
    hide Walk, Find;
    var after := Mkdir(dirs, parent, segs[k], uri, at);
    forall u, e | u in after && e in after[u]
      ensures (u in before && e in before[u]) || OnPath(after, root, segs, u, e.name)
    {
      if u == parent && e == Entry(segs[k], uri) {
        WalkAfterMkdir(dirs, parent, segs[k], uri, at, root, segs[..k]);
        assert OnPath(after, root, segs, u, e.name);
      } else if u in dirs && e in dirs[u] && OnPath(dirs, root, segs, u, e.name) {
        var j :| 0 <= j < |segs| && Walk(dirs, root, segs[..j]) == Some(u) && segs[j] == e.name;
        WalkAfterMkdir(dirs, parent, segs[k], uri, at, root, segs[..j]);
        assert OnPath(after, root, segs, u, e.name);
      }
    }
  }

  // Every walk that worked still leads to the same place.
  ghost predicate Kept(before: Dirs, after: Dirs, root: Uri) {
    forall segs :: Walk(before, root, segs).Some? ==> Walk(after, root, segs) == Walk(before, root, segs)
  }

  // The path of the first segments, as the walk spells it.
  function PathOf(segs: seq<string>): string {
    if segs == [] then "" else Child(PathOf(segs[..|segs| - 1]), segs[|segs| - 1])
  }

  lemma PathSteps(segs: seq<string>, k: nat)
    requires k < |segs|
    ensures PathOf(segs[..k + 1]) == Child(PathOf(segs[..k]), segs[k])
  {
    assert segs[..k + 1] == segs[..k] + [segs[k]] && segs[..k + 1][..k] == segs[..k];
  }

  // The cache answers for the path, at once or segment by segment.
  predicate Known(cache: map<string, Uri>, rel: string) {
    rel in cache || forall k :: 0 <= k <= |Segments(rel)| ==> PathOf(Segments(rel)[..k]) in cache
  }

  // No slash at either end and no two in a row.
  predicate Tidy(rel: string) {
    rel == "" || (rel[0] != '/' && rel[|rel| - 1] != '/' && forall i :: 0 < i < |rel| ==> [rel[i - 1], rel[i]] != "//")
  }

  lemma {:induction false} TidyPath(rel: string)
    requires Tidy(rel)
    ensures PathOf(Segments(rel)) == rel
    decreases |rel|
  {
    if rel != "" {
      var a, b := LastSegment(rel);
      if a == "" {
        PlainSegments(rel, []);
        assert [] + rel == rel && Segments(rel) == [rel] && [rel][..0] == [];
      } else {
        assert rel == a + "/" + b == Child(a, b);
        TidyPath(a);
        ChildSegments(a, b);
        assert (Segments(a) + [b])[..|Segments(a)|] == Segments(a);
      }
    }
  }

  lemma {:induction false} LastSegment(rel: string) returns (a: string, b: string)
    requires Tidy(rel) && rel != ""
    ensures Plain(b) && Tidy(a) && |a| < |rel|
    ensures if a == "" then rel == b else rel == a + "/" + b
  {
    var k := |rel| - 1;
    while k > 0 && rel[k - 1] != '/'
      invariant 0 <= k < |rel| && '/' !in rel[k..]
    {
      k := k - 1;
    }
    b := rel[k..];
    if k == 0 {
      a := "";
    } else {
      a := rel[..k - 1];
      assert k >= 2 && [rel[k - 2], rel[k - 1]] != "//";
      assert rel == a + [rel[k - 1]] + b;
    }
  }

  // A tidy path is then itself in the cache.
  lemma TidyIsCached(cache: map<string, Uri>, rel: string)
    requires Tidy(rel) && Known(cache, rel)
    ensures rel in cache
  {
    hide Segments, PathOf;
    TidyPath(rel);
    var segs := Segments(rel);
    assert segs[..|segs|] == segs;
  }

  lemma WalkNowhere(dirs: Dirs, root: Uri)
    ensures Walk(dirs, root, []) == Some(root) && Segments("") == []
  {}

  // What the commands do at one segment of a path: fail, or work, with the new URI printed
  // or not; where in the listing a new directory appears; and its URI.
  datatype Trouble = LsFails | MkdirFails | RelistFails | Fine(prints: bool)

  datatype World = World(trouble: Trouble, at: nat)

  // A segment can be resolved when the parent is a directory that can be listed, and has
  // the segment or everything works that is needed to make it.
  predicate Resolvable(dirs: Dirs, parent: Uri, seg: string, trouble: Trouble) {
    parent in dirs && trouble != LsFails && (Find(dirs[parent], seg).Some? || trouble.Fine?)
  }

  // What is in the tree then: a directory is made exactly where the segment is missing.
  function AfterResolve(dirs: Dirs, parent: Uri, seg: string, uri: Uri, world: World): Dirs {
    if parent in dirs && world.trouble != LsFails && world.trouble != MkdirFails && Find(dirs[parent], seg) == None
    then Mkdir(dirs, parent, seg, uri, world.at % (|dirs[parent]| + 1))
    else dirs
  }

  lemma WalksStay(before: Dirs, after: Dirs, root: Uri, parent: Uri, name: string, uri: Uri, world: World)
    requires uri !in before && after == AfterResolve(before, parent, name, uri, world)
    ensures Kept(before, after, root)
  {
    hide Walk, Find, Mkdir;
    if after != before {
      forall p | Walk(before, root, p).Some?
        ensures Walk(after, root, p) == Walk(before, root, p)
      {
        WalkAfterMkdir(before, parent, name, uri, world.at % (|before[parent]| + 1), root, p);
      }
    }
  }

  // What the whole walk keeps: nothing is lost or duplicated, only the path is made, and
  // every walk that worked still leads to the same place.
  ghost predicate Sound(before: Dirs, after: Dirs, root: Uri, segs: seq<string>) {
    && Grown(before, after, root, segs) && Kept(before, after, root)
    && (NoDuplicates(before) ==> NoDuplicates(after))
  }

  lemma Unchanged(dirs: Dirs, root: Uri, segs: seq<string>)
    ensures Sound(dirs, dirs, root, segs)
  {}

  lemma ResolveIsSound(before: Dirs, dirs: Dirs, root: Uri, segs: seq<string>, k: nat, parent: Uri, uri: Uri,
                       world: World)
    requires Sound(before, dirs, root, segs) && k < |segs| && uri !in dirs
    requires Walk(dirs, root, segs[..k]) == Some(parent)
    ensures Sound(before, AfterResolve(dirs, parent, segs[k], uri, world), root, segs)
  {
    hide Walk, Find, Grown, NoDuplicates, Mkdir;
    var after := AfterResolve(dirs, parent, segs[k], uri, world);
    if after != dirs {
      var n := world.at % (|dirs[parent]| + 1);
      MkdirGrows(before, dirs, root, segs, k, parent, uri, n);
      if NoDuplicates(dirs) { MkdirKeepsDistinct(dirs, parent, segs[k], uri, n); }
      WalksStay(dirs, after, root, parent, segs[k], uri, world);
    }
  }

  // Segment k of the path works: its directory is cached, or there and listed, or missing
  // and made.
  predicate StepWorks(dirs: Dirs, cache: map<string, Uri>, root: Uri, segs: seq<string>, k: nat, trouble: Trouble)
    requires k < |segs|
  {
    || PathOf(segs[..k + 1]) in cache
    || match Walk(dirs, root, segs[..k])
       case Some(parent) => Resolvable(dirs, parent, segs[k], trouble)
       case None => trouble.Fine?
  }

  // The walk along the path meets a file, or nothing at all at its root.
  predicate MeetsNonDirectory(dirs: Dirs, root: Uri, segs: seq<string>) {
    exists k :: 0 <= k < |segs| && Walk(dirs, root, segs[..k]).Some? && Walk(dirs, root, segs[..k]).value !in dirs
  }

  // Either nothing has been made yet, or the walk has left what was there before and
  // stands in a new, empty directory.
  ghost predicate OldOrFresh(before: Dirs, now: Dirs, root: Uri, segs: seq<string>, k: nat, parent: Uri)
    requires k <= |segs|
  {
    now == before || (Walk(before, root, segs[..k]) == None && parent in now && now[parent] == [])
  }

  // So whether the next segment works can be told from the tree before the call.
  lemma StepAgrees(before: Dirs, now: Dirs, cache: map<string, Uri>, root: Uri, segs: seq<string>, k: nat,
                   parent: Uri, trouble: Trouble)
    requires k < |segs| && Walk(now, root, segs[..k]) == Some(parent)
    requires OldOrFresh(before, now, root, segs, k, parent) && PathOf(segs[..k + 1]) !in cache
    ensures StepWorks(before, cache, root, segs, k, trouble) <==> Resolvable(now, parent, segs[k], trouble)
  {
    hide Walk, PathOf;
  }

  lemma {:induction false} WalkStops(dirs: Dirs, from: Uri, segs: seq<string>, seg: string)
    requires Walk(dirs, from, segs) == None
    ensures Walk(dirs, from, segs + [seg]) == None
    decreases |segs|
  {
    hide Find;
    assert (segs + [seg])[1..] == segs[1..] + [seg];
    if from in dirs && Find(dirs[from], segs[0]).Some? {
      WalkStops(dirs, Find(dirs[from], segs[0]).value, segs[1..], seg);
    }
  }

  lemma StaysFresh(before: Dirs, now: Dirs, after: Dirs, root: Uri, segs: seq<string>, k: nat, parent: Uri,
                   uri: Uri, world: World, next: Uri)
    requires k < |segs| && Walk(now, root, segs[..k]) == Some(parent) && uri !in now
    requires OldOrFresh(before, now, root, segs, k, parent)
    requires after == AfterResolve(now, parent, segs[k], uri, world) && Resolvable(now, parent, segs[k], world.trouble)
    requires parent in after && Find(after[parent], segs[k]) == Some(next)
    ensures OldOrFresh(before, after, root, segs, k + 1, next)
  {
    hide Walk;
    assert segs[..k + 1] == segs[..k] + [segs[k]];
    if Find(now[parent], segs[k]) == None {
      var at := world.at % (|now[parent]| + 1);
      FindInserted(now[parent], Entry(segs[k], uri), at, segs[k]);
      if now == before {
        WalkOn(before, root, segs[..k], segs[k]);
      } else {
        WalkStops(before, root, segs[..k], segs[k]);
      }
    }
  }

  // A cached path was there before, so nothing has been made on the way to it.
  lemma CachedIsOld(before: Dirs, now: Dirs, root: Uri, segs: seq<string>, k: nat, parent: Uri, next: Uri)
    requires k < |segs| && OldOrFresh(before, now, root, segs, k, parent)
    requires Walk(before, root, segs[..k + 1]) == Some(next)
    ensures OldOrFresh(before, now, root, segs, k + 1, next)
  {
    hide Walk;
    assert segs[..k + 1] == segs[..k] + [segs[k]];
    if now != before { WalkStops(before, root, segs[..k], segs[k]); }
  }

  lemma CachedWorks(dirs: Dirs, cache: map<string, Uri>, root: Uri, segs: seq<string>, k: nat, trouble: Trouble)
    requires k < |segs| && PathOf(segs[..k + 1]) in cache
    ensures StepWorks(dirs, cache, root, segs, k, trouble)
  {}

  // A step that does not work although the commands do meets something that is no
  // directory.
  lemma Hindered(dirs: Dirs, cache: map<string, Uri>, root: Uri, segs: seq<string>, k: nat, trouble: Trouble)
    requires k < |segs| && !StepWorks(dirs, cache, root, segs, k, trouble) && trouble.Fine?
    ensures MeetsNonDirectory(dirs, root, segs)
  {
    hide Walk, PathOf;
  }

  lemma SoundParts(before: Dirs, after: Dirs, root: Uri, segs: seq<string>)
    requires Sound(before, after, root, segs)
    ensures Grown(before, after, root, segs) && Kept(before, after, root)
    ensures NoDuplicates(before) ==> NoDuplicates(after)
  {}

  lemma Begin(dirs: Dirs, cache: map<string, Uri>, root: Uri, segs: seq<string>)
    ensures OldOrFresh(dirs, dirs, root, segs, 0, root) && CachedSince(cache, cache, segs, 0)
    ensures segs[..0] == [] && PathOf([]) == ""
  {}

  // Every key of the cache is an old one or a path begun in this call.
  ghost predicate CachedSince(before: map<string, Uri>, cache: map<string, Uri>, segs: seq<string>, n: nat)
    requires n <= |segs|
  {
    forall p :: p in cache ==> p in before || exists j :: 0 <= j <= n && p == PathOf(segs[..j])
  }

  lemma NextIsNotCached(before: map<string, Uri>, cache: map<string, Uri>, segs: seq<string>, k: nat)
    requires k < |segs| && CachedSince(before, cache, segs, k)
    requires forall j :: 0 <= j < |segs| ==> Plain(segs[j])
    ensures PathOf(segs[..k + 1]) in cache ==> PathOf(segs[..k + 1]) in before
  {
    hide PathOf;
    if PathOf(segs[..k + 1]) in cache && PathOf(segs[..k + 1]) !in before {
      var j :| 0 <= j <= k && PathOf(segs[..k + 1]) == PathOf(segs[..j]);
      PathSegments(segs, j);
      PathSegments(segs, k + 1);
    }
  }

  lemma {:induction false} PathSegments(segs: seq<string>, n: nat)
    requires n <= |segs| && forall j :: 0 <= j < |segs| ==> Plain(segs[j])
    ensures Segments(PathOf(segs[..n])) == segs[..n]
  {
    hide Segments;
    if n == 0 {
      WalkNowhere(map[], 0);
    } else {
      PathSegments(segs, n - 1);
      PathSteps(segs, n - 1);
      ChildSegments(PathOf(segs[..n - 1]), segs[n - 1]);
      assert segs[..n] == segs[..n - 1] + [segs[n - 1]];
    }
  }

  lemma CachedNext(before: map<string, Uri>, cache: map<string, Uri>, after: map<string, Uri>, segs: seq<string>,
                   k: nat, uri: Uri)
    requires k < |segs| && CachedSince(before, cache, segs, k)
    requires after == cache || after == cache[PathOf(segs[..k + 1]) := uri]
    ensures CachedSince(before, after, segs, k + 1)
  {
    hide PathOf;
    forall p | p in after && p !in before
      ensures exists j :: 0 <= j <= k + 1 && p == PathOf(segs[..j])
    {
      if p in cache {
        var j :| 0 <= j <= k && p == PathOf(segs[..j]);
        assert 0 <= j <= k + 1;
      } else {
        assert p == PathOf(segs[..k + 1]);
      }
    }
  }

  class Tree {
    var dirs: Dirs
    var nextUri: Uri

    ghost predicate Valid()
      reads this
    {
      forall u :: u in dirs ==> u < nextUri
    }

    constructor (dirs: Dirs, nextUri: Uri)
      requires forall u :: u in dirs ==> u < nextUri
      ensures Valid() && this.dirs == dirs
    {
      this.dirs, this.nextUri := dirs, nextUri;
    }

    method Ls(uri: Uri, fails: bool) returns (r: Option<seq<Entry>>)
      ensures r == if uri in dirs && !fails then Some(dirs[uri]) else None
    {
      r := if uri in dirs && !fails then Some(dirs[uri]) else None;
    }

    // None when the command fails; otherwise the new URI if the helper prints it.
    method MakeDir(parent: Uri, name: string, world: World) returns (r: Option<Option<Uri>>)
      requires Valid() && parent in dirs
      modifies this
      ensures Valid()
      ensures world.trouble == MkdirFails ==> r == None && dirs == old(dirs)
      ensures world.trouble != MkdirFails ==>
        && old(nextUri) !in old(dirs)
        && dirs == Mkdir(old(dirs), parent, name, old(nextUri), world.at % (|old(dirs)[parent]| + 1))
        && r == Some(if world.trouble == Fine(true) then Some(old(nextUri)) else None)
    {
      if world.trouble == MkdirFails {
        return None;
      }
      var uri := nextUri;
      dirs, nextUri := Mkdir(dirs, parent, name, uri, world.at % (|dirs[parent]| + 1)), uri + 1;
      r := Some(if world.trouble == Fine(true) then Some(uri) else None);
    }
  }

  class SafSink {
    const tree: Tree
    const treeUri: Uri
    var dirUris: map<string, Uri>

    // Every cached path maps to the URI that a walk of the tree finds.
    ghost predicate Coherent()
      reads this, tree
    {
      && tree.Valid() && "" in dirUris
      && forall rel :: rel in dirUris ==> Walk(tree.dirs, treeUri, Segments(rel)) == Some(dirUris[rel])
    }

    constructor (tree: Tree, treeUri: Uri)
      requires tree.Valid()
      ensures this.tree == tree && this.treeUri == treeUri && dirUris == map["" := treeUri] && Coherent()
    {
      this.tree, this.treeUri, this.dirUris := tree, treeUri, map["" := treeUri];
    }

    // Some directory of this name under parent, listed or else made.
    method Resolve(parent: Uri, seg: string, world: World) returns (r: Option<Uri>)
      requires tree.Valid()
      modifies tree
      ensures tree.Valid()
      ensures r.Some? ==> parent in tree.dirs && Find(tree.dirs[parent], seg) == r
      ensures r.Some? <==> Resolvable(old(tree.dirs), parent, seg, world.trouble)
      ensures tree.dirs == AfterResolve(old(tree.dirs), parent, seg, old(tree.nextUri), world)
      ensures old(tree.nextUri) !in old(tree.dirs)
    {
      var children := tree.Ls(parent, world.trouble == LsFails);
      if children == None {
        return None;
      }
      r := Find(children.value, seg);
      if r == None {
        FindInserted(tree.dirs[parent], Entry(seg, tree.nextUri), world.at % (|tree.dirs[parent]| + 1), seg);
        var made := tree.MakeDir(parent, seg, world);
        if made == None {
          return None;
        }
        if made.value.Some? {
          return made.value;
        }
        var again := tree.Ls(parent, world.trouble == RelistFails);
        if again == None {
          return None;
        }
        r := Find(again.value, seg);
      }
    }

    // One segment further: from the cache, or resolved and cached.
    method Descend(parentRel: string, parentUri: Uri, seg: string, world: World) returns (r: Option<Uri>)
      requires Coherent() && Plain(seg) && Walk(tree.dirs, treeUri, Segments(parentRel)) == Some(parentUri)
      modifies this, tree
      ensures Coherent()
      ensures r.Some? ==> dirUris == old(dirUris)[Child(parentRel, seg) := r.value]
      ensures r.None? ==> dirUris == old(dirUris)
      ensures Child(parentRel, seg) in old(dirUris) ==>
        r == Some(old(dirUris)[Child(parentRel, seg)]) && tree.dirs == old(tree.dirs) && dirUris == old(dirUris)
      ensures Child(parentRel, seg) !in old(dirUris) ==>
        && (r.Some? <==> Resolvable(old(tree.dirs), parentUri, seg, world.trouble))
        && tree.dirs == AfterResolve(old(tree.dirs), parentUri, seg, old(tree.nextUri), world)
        && old(tree.nextUri) !in old(tree.dirs)
        && (r.Some? ==> parentUri in tree.dirs && Find(tree.dirs[parentUri], seg) == r)
    {
      hide Walk, Find, SegmentsFrom, Mkdir, NoDuplicates, Grown, AfterResolve, Resolvable;
      var childRel := Child(parentRel, seg);
      if childRel in dirUris {
        return Some(dirUris[childRel]);
      }
      ghost var before := tree.dirs;
      r := Resolve(parentUri, seg, world);
      WalksStay(before, tree.dirs, treeUri, parentUri, seg, old(tree.nextUri), world);
      if r.Some? {
        ChildSegments(parentRel, seg);
        WalkOn(tree.dirs, treeUri, Segments(parentRel), seg);
        dirUris := dirUris[childRel := r.value];
      }
    }

    // The directory's URI, made where missing; None exactly when a segment of the path can
    // neither be found nor made.
    method EnsureDirUri(rel: string, world: nat -> World) returns (r: Option<Uri>)
      requires Coherent()
      modifies this, tree
      ensures Coherent()
      ensures r.Some? ==> r == Walk(tree.dirs, treeUri, Segments(rel))
      ensures Grown(old(tree.dirs), tree.dirs, treeUri, Segments(rel))
      ensures NoDuplicates(old(tree.dirs)) ==> NoDuplicates(tree.dirs)
      ensures Kept(old(tree.dirs), tree.dirs, treeUri)
      ensures forall p :: p in old(dirUris) ==> p in dirUris && dirUris[p] == old(dirUris)[p]
      ensures Known(old(dirUris), rel) ==> r.Some? && tree.dirs == old(tree.dirs) && dirUris == old(dirUris)
      ensures r.Some? ==> Known(dirUris, rel) && (Tidy(rel) ==> rel in dirUris)
      ensures r.Some? <==> rel in old(dirUris) || forall k :: 0 <= k < |Segments(rel)| ==>
        StepWorks(old(tree.dirs), old(dirUris), treeUri, Segments(rel), k, world(k).trouble)
      ensures r.None? ==>
        || (exists k :: 0 <= k < |Segments(rel)| && !world(k).trouble.Fine?)
        || MeetsNonDirectory(old(tree.dirs), treeUri, Segments(rel))
    {
      hide Walk, Sound, Find, SegmentsFrom, PathOf, Child, StepWorks, Resolvable, AfterResolve, OldOrFresh,
           CachedSince, MeetsNonDirectory, Tidy;
      ghost var before, cache := tree.dirs, dirUris;
      var segs := Segments(rel);
      Unchanged(tree.dirs, treeUri, segs);
      if rel in dirUris {
        SoundParts(before, tree.dirs, treeUri, segs);
        return Some(dirUris[rel]);
      }
      var parentRel, parentUri := "", treeUri;
      SegmentsArePlain(rel, []);
      WalkNowhere(tree.dirs, treeUri);
      Begin(before, cache, treeUri, segs);
      for k := 0 to |segs|
        invariant Coherent() && Sound(before, tree.dirs, treeUri, segs)
        invariant Segments(parentRel) == segs[..k] && parentRel == PathOf(segs[..k])
        invariant Walk(tree.dirs, treeUri, segs[..k]) == Some(parentUri)
        invariant forall p :: p in cache ==> p in dirUris && dirUris[p] == cache[p]
        invariant Known(cache, rel) ==> tree.dirs == before && dirUris == cache
        invariant forall j :: 0 <= j <= k ==> PathOf(segs[..j]) in dirUris
        invariant OldOrFresh(before, tree.dirs, treeUri, segs, k, parentUri) && CachedSince(cache, dirUris, segs, k)
        invariant forall j :: 0 <= j < k ==> StepWorks(before, cache, treeUri, segs, j, world(j).trouble)
      {
        assert segs[..k + 1] == segs[..k] + [segs[k]];
        PathSteps(segs, k);
        ChildSegments(parentRel, segs[k]);
        NextIsNotCached(cache, dirUris, segs, k);
        ghost var dirs, known, next := tree.dirs, dirUris, tree.nextUri;
        var uri := Descend(parentRel, parentUri, segs[k], world(k));
        if Child(parentRel, segs[k]) in known {
          CachedWorks(before, cache, treeUri, segs, k, world(k).trouble);
        } else {
          StepAgrees(before, dirs, cache, treeUri, segs, k, parentUri, world(k).trouble);
          ResolveIsSound(before, dirs, treeUri, segs, k, parentUri, next, world(k));
        }
        if uri == None {
          SoundParts(before, tree.dirs, treeUri, segs);
          if world(k).trouble.Fine? { Hindered(before, cache, treeUri, segs, k, world(k).trouble); }
          return None;
        }
        CachedNext(cache, known, dirUris, segs, k, uri.value);
        if Child(parentRel, segs[k]) in known {
          CachedIsOld(before, dirs, treeUri, segs, k, parentUri, uri.value);
        } else {
          StaysFresh(before, dirs, tree.dirs, treeUri, segs, k, parentUri, next, world(k), uri.value);
        }
        parentUri := uri.value;
        parentRel := Child(parentRel, segs[k]);
      }
      assert segs[..|segs|] == segs;
      SoundParts(before, tree.dirs, treeUri, segs);
      if Tidy(rel) { TidyIsCached(dirUris, rel); }
      r := Some(parentUri);
    }
  }
}
