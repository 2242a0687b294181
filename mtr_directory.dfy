/** Exporting the MTR sets as directory sets. */
module MtrDirectory {
  import opened Wrappers
  import opened Checkpoints
  import opened MtrRecords

  // ---------------------------------------------------------------------------
  // Exporting the directory
  // ---------------------------------------------------------------------------

  /** The directory blocks of the records whose keys are in `keys`. */
  function DirectoryOver(m: map<nat, MtrRecord>, keys: set<nat>): set<TsDirectoryBlock>
  {
    set b | b in keys && b in m :: GenerateDirectoryBlock(m[b], b)
  }

  lemma DirectoryOverAdd(m: map<nat, MtrRecord>, keys: set<nat>, b: nat)
    requires b in m && b !in keys
    ensures multiset(DirectoryOver(m, keys + {b})) == multiset(DirectoryOver(m, keys)) + multiset{GenerateDirectoryBlock(m[b], b)}
  {
    var g := GenerateDirectoryBlock(m[b], b);
    assert g !in DirectoryOver(m, keys);
    assert DirectoryOver(m, keys + {b}) == DirectoryOver(m, keys) + {g};
  }

  /** The `d` fields of timestamped directory blocks. */
  function DirectoryDs(s: seq<TsDirectoryBlock>): (ds: seq<DirectoryBlock>)
    ensures |ds| == |s| && forall i :: 0 <= i < |s| ==> ds[i] == s[i].d
  {
    seq(|s|, i requires 0 <= i < |s| => s[i].d)
  }

  /** out is one exported directory set: a directory block per record, newest first. */
  ghost predicate IsDirectoryExport(m: map<nat, MtrRecord>, out: seq<DirectoryBlock>)
  {
    exists s :: multiset(s) == multiset(DirectoryOver(m, m.Keys)) && NonIncreasing(s, DirectoryTsOf) && out == DirectoryDs(s)
  }

  /** An exported directory set lists each record once, as `generate_directory_block` makes it. */
  lemma DirectoryExportContents(m: map<nat, MtrRecord>, out: seq<DirectoryBlock>)
    requires IsDirectoryExport(m, out)
    ensures |out| == |m|
    ensures forall i :: 0 <= i < |out| ==> out[i].blockId in m && out[i] == GenerateDirectoryBlock(m[out[i].blockId], out[i].blockId).d
    ensures forall b :: b in m ==> exists i :: 0 <= i < |out| && out[i].blockId == b
  {
    var s :| multiset(s) == multiset(DirectoryOver(m, m.Keys)) && NonIncreasing(s, DirectoryTsOf) && out == DirectoryDs(s);
    var image := DirectoryOver(m, m.Keys);
    assert |image| == |m| by {
      var keysOf := set x | x in image :: x.d.blockId;
      assert keysOf == m.Keys;
      BlockIdsInjective(image);
    }
    forall i | 0 <= i < |out|
      ensures out[i].blockId in m && out[i] == GenerateDirectoryBlock(m[out[i].blockId], out[i].blockId).d
    {
      assert s[i] in multiset(s);
    }
    forall b | b in m
      ensures exists i :: 0 <= i < |out| && out[i].blockId == b
    {
      var g := GenerateDirectoryBlock(m[b], b);
      assert g in multiset(s);
      var i :| 0 <= i < |s| && s[i] == g;
      assert out[i].blockId == b;
    }
  }

  /** Directory blocks with distinct block ids: as many as their ids. */
  lemma {:induction false} BlockIdsInjective(image: set<TsDirectoryBlock>)
    requires forall x, y :: x in image && y in image && x.d.blockId == y.d.blockId ==> x == y
    ensures |image| == |set x | x in image :: x.d.blockId|
    decreases |image|
  {
    if image != {} {
      var x :| x in image;
      BlockIdsInjective(image - {x});
      assert (set y | y in image :: y.d.blockId) == (set y | y in image - {x} :: y.d.blockId) + {x.d.blockId};
    }
  }

  /** One set of `export_directory`: collect the directory blocks, sort them newest first, drop the timestamps. */
  method ExportDirectorySet(m: map<nat, MtrRecord>) returns (out: seq<DirectoryBlock>)
    ensures IsDirectoryExport(m, out)
  {
    var withTs: seq<TsDirectoryBlock> := [];
    var rest := m.Keys;
    while rest != {}
      invariant rest <= m.Keys
      invariant multiset(withTs) == multiset(DirectoryOver(m, m.Keys - rest))
      decreases |rest|
    {
      var b :| b in rest;
      DirectoryOverAdd(m, m.Keys - rest, b);
      assert m.Keys - (rest - {b}) == (m.Keys - rest) + {b};
      withTs := withTs + [GenerateDirectoryBlock(m[b], b)];
      rest := rest - {b};
    }
    var sorted := SortByTsDescending(withTs);
    out := DirectoryDs(sorted);
  }
}
