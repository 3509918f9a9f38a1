// crates/bvault-store/src/artifact.rs: bundles of files under a content hash, complete
// once their marker exists. `put` is also given as the steps a process takes, because it
// can die between any two of them.
module ArtifactStore {
  import opened Wrappers

  type Content = seq<int>

  datatype File = File(name: string, content: Content)

  // A bundle directory: named files, and whether the marker exists.
  datatype Bundle = Bundle(files: map<string, Content>, marker: bool)

  type Bundles = map<string, Bundle>

  function BundleOf(bundles: Bundles, hash: string): Bundle {
    if hash in bundles then bundles[hash] else Bundle(map[], false)
  }

  // The system's entire definition of "analyzed".
  predicate Exists(bundles: Bundles, hash: string) {
    BundleOf(bundles, hash).marker
  }

  function WithFile(bundles: Bundles, hash: string, name: string, content: Content): Bundles {
    var b := BundleOf(bundles, hash);
    bundles[hash := b.(files := b.files[name := content])]
  }

  function WithMarker(bundles: Bundles, hash: string): Bundles {
    bundles[hash := BundleOf(bundles, hash).(marker := true)]
  }

  predicate Holds(bundles: Bundles, hash: string, file: File) {
    file.name in BundleOf(bundles, hash).files && BundleOf(bundles, hash).files[file.name] == file.content
  }

  predicate HoldsAll(bundles: Bundles, hash: string, files: seq<File>) {
    forall i :: 0 <= i < |files| ==> Holds(bundles, hash, files[i])
  }

  predicate DistinctNames(files: seq<File>) {
    forall i, j :: 0 <= i < j < |files| ==> files[i].name != files[j].name
  }

  function WithFiles(bundles: Bundles, hash: string, files: seq<File>): Bundles {
    if files == [] then bundles
    else
      var last := files[|files| - 1];
      WithFile(WithFiles(bundles, hash, files[..|files| - 1]), hash, last.name, last.content)
  }

  // What an uninterrupted put does.
  function Put(bundles: Bundles, hash: string, files: seq<File>): Bundles {
    if Exists(bundles, hash) then bundles else WithMarker(WithFiles(bundles, hash, files), hash)
  }

  class ArtifactStore {
    var bundles: Bundles

    constructor ()
      ensures bundles == map[]
    {
      bundles := map[];
    }

    method PutBundle(hash: string, files: seq<File>)
      modifies this
      ensures bundles == Put(old(bundles), hash, files)
    {
      if Exists(bundles, hash) {
        return;
      }
      for i := 0 to |files|
        invariant bundles == WithFiles(old(bundles), hash, files[..i])
      {
        assert files[..i + 1][..i] == files[..i];
        bundles := WithFile(bundles, hash, files[i].name, files[i].content);
      }
      assert files[..|files|] == files;
      bundles := WithMarker(bundles, hash);
    }

    method GetArtifact(hash: string, name: string) returns (r: Option<Content>)
      ensures r == if name in BundleOf(bundles, hash).files then Some(BundleOf(bundles, hash).files[name]) else None
    {
      var b := BundleOf(bundles, hash);
      if name in b.files {
        return Some(b.files[name]);
      }
      r := None;
    }
  }

  lemma {:induction false} WithFilesHoldsAll(bundles: Bundles, hash: string, files: seq<File>)
    requires DistinctNames(files)
    ensures HoldsAll(WithFiles(bundles, hash, files), hash, files)
    ensures Exists(WithFiles(bundles, hash, files), hash) == Exists(bundles, hash)
    ensures forall h :: h != hash ==> BundleOf(WithFiles(bundles, hash, files), h) == BundleOf(bundles, h)
  {
    if files != [] {
      WithFilesHoldsAll(bundles, hash, files[..|files| - 1]);
      var before := WithFiles(bundles, hash, files[..|files| - 1]);
      forall i | 0 <= i < |files|
        ensures Holds(WithFiles(bundles, hash, files), hash, files[i])
      {
        assert i < |files| - 1 ==> Holds(before, hash, files[..|files| - 1][i]);
      }
    }
  }

  // A finished put leaves a complete bundle with the given content, touches no other
  // bundle, and is not repeated: a second put of anything changes nothing.
  lemma PutCompletes(bundles: Bundles, hash: string, files: seq<File>, files': seq<File>)
    requires DistinctNames(files)
    ensures Exists(Put(bundles, hash, files), hash)
    ensures !Exists(bundles, hash) ==> HoldsAll(Put(bundles, hash, files), hash, files)
    ensures forall h :: h != hash ==> BundleOf(Put(bundles, hash, files), h) == BundleOf(bundles, h)
    ensures Put(Put(bundles, hash, files), hash, files') == Put(bundles, hash, files)
  {
    WithFilesHoldsAll(bundles, hash, files);
    var written := WithFiles(bundles, hash, files);
    assert forall i :: 0 <= i < |files| ==> Holds(written, hash, files[i]);
  }
}
