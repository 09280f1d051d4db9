/** The disk image as the emulator keeps it: a byte buffer changed in place and the
    set of names already handed out (src/fsimage.cpp, class FilesystemImage). */
module CpmImage {
  import opened Bytes
  import opened CpmNames
  import opened CpmDirectory
  import opened CpmFiles

  lemma SpliceAt(s: bytes, p: nat, d: bytes, q: nat)
    requires p + |d| <= |s| && q < |s|
    ensures Splice(s, p, d)[q] == if p <= q < p + |d| then d[q - p] else s[q]
  {
  }

  lemma SpliceEntry(img: bytes, s: nat, e: Entry, t: nat)
    requires |img| >= DIR_END && s < SLOTS && t < SLOTS
    ensures EntryAt(Splice(img, DIR_START + ENTRY_SIZE * s, e), t) == if t == s then e else EntryAt(img, t)
  {
    var img' := Splice(img, DIR_START + ENTRY_SIZE * s, e);
    forall i | 0 <= i < ENTRY_SIZE ensures EntryAt(img', t)[i] == if t == s then e[i] else EntryAt(img, t)[i] {
      SpliceAt(img, DIR_START + ENTRY_SIZE * s, e, DIR_START + ENTRY_SIZE * t + i);
    }
  }

  lemma SpliceClusterEntry(img: bytes, c: nat, d: bytes, t: nat)
    requires 2 <= c && |d| == CLUSTER_BYTES && |img| >= DIR_START + CLUSTER_BYTES * (c + 1) && t < SLOTS
    ensures EntryAt(Splice(img, DIR_START + CLUSTER_BYTES * c, d), t) == EntryAt(img, t)
  {
    var img' := Splice(img, DIR_START + CLUSTER_BYTES * c, d);
    forall i | 0 <= i < ENTRY_SIZE ensures EntryAt(img', t)[i] == EntryAt(img, t)[i] {
      SpliceAt(img, DIR_START + CLUSTER_BYTES * c, d, DIR_START + ENTRY_SIZE * t + i);
    }
  }

  lemma SpliceCluster(img: bytes, c: nat, d: bytes, k: nat)
    requires |d| == CLUSTER_BYTES && |img| >= DIR_START + CLUSTER_BYTES * (c + 1)
    requires |img| >= DIR_START + CLUSTER_BYTES * (k + 1)
    ensures ClusterAt(Splice(img, DIR_START + CLUSTER_BYTES * c, d), k) == if k == c then d else ClusterAt(img, k)
  {
    var img' := Splice(img, DIR_START + CLUSTER_BYTES * c, d);
    forall i | 0 <= i < CLUSTER_BYTES ensures ClusterAt(img', k)[i] == if k == c then d[i] else ClusterAt(img, k)[i] {
      SpliceAt(img, DIR_START + CLUSTER_BYTES * c, d, DIR_START + CLUSTER_BYTES * k + i);
    }
  }

  lemma UsedClustersStep(dir: seq<Entry>, s: nat)
    requires s < |dir|
    ensures LiveCount(dir[..s + 1]) == LiveCount(dir[..s]) + if Live(dir[s]) then 1 else 0
    ensures UsedClusters(dir[..s + 1]) == UsedClusters(dir[..s]) + if Live(dir[s]) then FatSet(dir[s]) else {}
  {
    assert dir[..s + 1][..s] == dir[..s];
  }

  /** The image after the first s slots of allocate_file's directory loop. */
  function AllocatedImage(img: bytes, stem: bytes, ext: bytes, n: nat, chain: seq<nat>, s: nat): (r: bytes)
    requires |img| >= DIR_END && s <= SLOTS
    ensures |r| == |img|
  {
    if s == 0 then img
    else
      var before := AllocatedImage(img, stem, ext, n, chain, s - 1);
      if Live(EntryAt(img, s - 1)) || FreeBefore(Directory(img), s - 1) >= Extents(n) then before
      else Splice(before, DIR_START + ENTRY_SIZE * (s - 1), NewEntry(Directory(img), stem, ext, n, chain, s - 1))
  }

  lemma {:induction false} AllocatedEntry(img: bytes, stem: bytes, ext: bytes, n: nat, chain: seq<nat>, s: nat, t: nat)
    requires |img| >= DIR_END && s <= SLOTS && t < SLOTS
    ensures EntryAt(AllocatedImage(img, stem, ext, n, chain, s), t)
         == if t < s then NewEntry(Directory(img), stem, ext, n, chain, t) else EntryAt(img, t)
  {
    hide Splice, EntryAt, ExtentEntry, MakeEntry, FreeBefore, Extents;
    if s > 0 {
      AllocatedEntry(img, stem, ext, n, chain, s - 1, t);
      var before := AllocatedImage(img, stem, ext, n, chain, s - 1);
      SpliceEntry(before, s - 1, NewEntry(Directory(img), stem, ext, n, chain, s - 1), t);
    }
  }

  lemma {:induction false} AllocatedElsewhere(img: bytes, stem: bytes, ext: bytes, n: nat, chain: seq<nat>, s: nat,
                                              p: nat)
    requires DIR_END <= |img| && s <= SLOTS && p < |img| && (p < DIR_START || p >= DIR_END)
    ensures AllocatedImage(img, stem, ext, n, chain, s)[p] == img[p]
  {
    hide Splice, EntryAt, NewEntry, FreeBefore, Extents;
    if s > 0 {
      AllocatedElsewhere(img, stem, ext, n, chain, s - 1, p);
      var before := AllocatedImage(img, stem, ext, n, chain, s - 1);
      SpliceAt(before, DIR_START + ENTRY_SIZE * (s - 1), NewEntry(Directory(img), stem, ext, n, chain, s - 1), p);
    }
  }

  /** The loop sees each user byte before it is overwritten. */
  lemma HeaderNotYetWritten(img: bytes, stem: bytes, ext: bytes, n: nat, chain: seq<nat>, s: nat)
    requires |img| >= DIR_END && s < SLOTS
    ensures AllocatedImage(img, stem, ext, n, chain, s)[DIR_START + ENTRY_SIZE * s] == Directory(img)[s][0]
  {
    AllocatedEntry(img, stem, ext, n, chain, s, s);
    assert EntryAt(AllocatedImage(img, stem, ext, n, chain, s), s)[0] == EntryAt(img, s)[0];
  }

  /** One turn of the directory loop while bytes remain. */
  lemma SlotStep(img: bytes, stem: bytes, ext: bytes, n: nat, chain: seq<nat>, s: nat, e: nat, remaining: int)
    requires |img| >= DIR_END && s < SLOTS
    requires e == Min(FreeBefore(Directory(img), s), Extents(n))
    requires remaining == n - 2048 * Min(8 * e, Clusters(n)) > 0
    ensures e < SLOTS && remaining == n - 16384 * e
    ensures var live := Directory(img)[s][0] < 0x10;
      && Min(FreeBefore(Directory(img), s + 1), Extents(n)) == (if live then e else e + 1)
      && AllocatedImage(img, stem, ext, n, chain, s + 1) ==
           var before := AllocatedImage(img, stem, ext, n, chain, s);
           if live then before
           else Splice(before, DIR_START + ENTRY_SIZE * s,
                       MakeEntry(stem, ext, e, Min(0x80, (remaining + 127) / 128), ExtentFats(n, chain, e)))
  {
    assert e < Extents(n);
  }

  /** Once every extent has its slot, the rest of the directory stays. */
  lemma {:induction false} RestOfDirectoryStays(img: bytes, stem: bytes, ext: bytes, n: nat, chain: seq<nat>, s: nat)
    requires |img| >= DIR_END && s <= SLOTS
    requires s < SLOTS ==> FreeBefore(Directory(img), s) >= Extents(n)
    ensures AllocatedImage(img, stem, ext, n, chain, SLOTS) == AllocatedImage(img, stem, ext, n, chain, s)
    decreases SLOTS - s
  {
    if s < SLOTS {
      RestOfDirectoryStays(img, stem, ext, n, chain, s + 1);
    }
  }

  /** The image after j clusters of the chain are written. */
  function WrittenImage(img: bytes, content: bytes, chain: seq<nat>, j: nat): (r: bytes)
    requires j <= |chain|
    requires forall k :: 0 <= k < j ==> |img| >= DIR_START + CLUSTER_BYTES * (chain[k] + 1)
    ensures |r| == |img|
  {
    if j == 0 then img
    else Splice(WrittenImage(img, content, chain, j - 1), DIR_START + CLUSTER_BYTES * chain[j - 1],
                PaddedCluster(content, j - 1))
  }

  lemma {:induction false} WrittenEntry(img: bytes, content: bytes, chain: seq<nat>, j: nat, t: nat)
    requires j <= |chain| && |img| >= DIR_END && t < SLOTS
    requires forall k :: 0 <= k < j ==> 2 <= chain[k] && |img| >= DIR_START + CLUSTER_BYTES * (chain[k] + 1)
    ensures EntryAt(WrittenImage(img, content, chain, j), t) == EntryAt(img, t)
  {
    if j > 0 {
      WrittenEntry(img, content, chain, j - 1, t);
      SpliceClusterEntry(WrittenImage(img, content, chain, j - 1), chain[j - 1], PaddedCluster(content, j - 1), t);
    }
  }

  lemma {:induction false} WrittenCluster(img: bytes, content: bytes, chain: seq<nat>, j: nat, k: nat)
    requires k < j <= |chain| && StrictlyIncreasing(chain)
    requires forall k :: 0 <= k < j ==> |img| >= DIR_START + CLUSTER_BYTES * (chain[k] + 1)
    ensures ClusterAt(WrittenImage(img, content, chain, j), chain[k]) == PaddedCluster(content, k)
  {
    hide Splice, ClusterAt, PaddedCluster;
    SpliceCluster(WrittenImage(img, content, chain, j - 1), chain[j - 1], PaddedCluster(content, j - 1), chain[k]);
    if k < j - 1 {
      WrittenCluster(img, content, chain, j - 1, k);
      assert chain[k] < chain[j - 1];
    }
  }

  lemma {:induction false} WrittenElsewhere(img: bytes, content: bytes, chain: seq<nat>, j: nat, p: nat)
    requires j <= |chain| && p < |img| && Untouched(chain[..j], p)
    requires forall k :: 0 <= k < j ==> 2 <= chain[k] && |img| >= DIR_START + CLUSTER_BYTES * (chain[k] + 1)
    ensures WrittenImage(img, content, chain, j)[p] == img[p]
  {
    if j > 0 {
      assert chain[..j] == chain[..j - 1] + [chain[j - 1]];
      WrittenElsewhere(img, content, chain, j - 1, p);
      SpliceAt(WrittenImage(img, content, chain, j - 1), DIR_START + CLUSTER_BYTES * chain[j - 1],
               PaddedCluster(content, j - 1), p);
    }
  }

  /** The directory loop and the data loop together make the whole new image. */
  lemma UpdateComplete(img: bytes, stem: bytes, ext: bytes, content: bytes, chain: seq<nat>)
    requires |img| >= DIR_END && StrictlyIncreasing(chain) && Written(|content|) <= |chain|
    requires forall k :: 0 <= k < |chain| ==> 2 <= chain[k] && |img| >= DIR_START + CLUSTER_BYTES * (chain[k] + 1)
    ensures var mid := AllocatedImage(img, stem, ext, |content|, chain, SLOTS);
      ImageUpdated(img, WrittenImage(mid, content, chain, Written(|content|)), stem, ext, content, chain)
  {
    var mid := AllocatedImage(img, stem, ext, |content|, chain, SLOTS);
    var j := Written(|content|);
    var img' := WrittenImage(mid, content, chain, j);
    forall t | 0 <= t < SLOTS ensures EntryAt(img', t) == NewEntry(Directory(img), stem, ext, |content|, chain, t) {
      AllocatedEntry(img, stem, ext, |content|, chain, SLOTS, t);
      WrittenEntry(mid, content, chain, j, t);
    }
    forall k | 0 <= k < j ensures ClusterAt(img', chain[k]) == PaddedCluster(content, k) {
      WrittenCluster(mid, content, chain, j, k);
    }
    forall p | 0 <= p < |img| && Untouched(chain[..j], p) ensures img'[p] == img[p] {
      WrittenElsewhere(mid, content, chain, j, p);
      AllocatedElsewhere(img, stem, ext, |content|, chain, SLOTS, p);
    }
  }

  function SectorData(content: bytes, src: nat): (r: bytes)
    requires src <= |content|
    ensures |r| == SECTOR_SIZE
  {
    var count := Min(SECTOR_SIZE, |content| - src);
    content[src..src + count] + Filling(SECTOR_SIZE - count)
  }

  function After(content: bytes, src: nat, count: nat): nat
    requires src <= |content|
  {
    Min(|content|, src + count)
  }

  lemma ClusterDataIsPadded(content: bytes, j: nat)
    ensures var src := Min(|content|, CLUSTER_BYTES * j);
      SectorData(content, src) + SectorData(content, After(content, src, SECTOR_SIZE)) == PaddedCluster(content, j)
  {
  }

  lemma SpliceTwice(img: bytes, p: nat, a: bytes, b: bytes)
    requires p + |a| + |b| <= |img|
    ensures Splice(Splice(img, p, a), p + |a|, b) == Splice(img, p, a + b)
  {
  }

  class FilesystemImage {
    const image: array<byte>
    var takenNames: set<bytes>

    ghost function View(): Disk
      reads this, image
    {
      Disk(image[..], takenNames)
    }

    constructor (size: nat)
      ensures fresh(image) && image.Length == size && takenNames == {}
      ensures forall p :: 0 <= p < size ==> image[p] == FORMATTED
    {
      image := new byte[size](_ => FORMATTED);
      takenNames := {};
    }

    /** std::copy or std::fill of a run of bytes into the buffer. */
    method Overwrite(p: nat, data: bytes)
      requires p + |data| <= image.Length
      modifies image
      ensures image[..] == Splice(old(image[..]), p, data)
    {
      forall i | 0 <= i < |data| {
        image[p + i] := data[i];
      }
    }

    /** The first half of build_available_chain: the table of used clusters. */
    method MarkUsedClusters(maxclust: nat) returns (used: array<bool>, usedCount: nat)
      requires image.Length >= DIR_END && TablesInRange(Directory(image[..]), maxclust)
      ensures fresh(used) && used.Length == maxclust
      ensures usedCount == 8 * LiveCount(Directory(image[..]))
      ensures forall k :: 0 <= k < maxclust ==> (used[k] <==> k in UsedClusters(Directory(image[..])))
    {
      ghost var dir := Directory(image[..]);
      used := new bool[maxclust](_ => false);
      usedCount := 0;
      for s := 0 to SLOTS
        invariant usedCount == 8 * LiveCount(dir[..s])
        invariant forall k :: 0 <= k < maxclust ==> (used[k] <==> k in UsedClusters(dir[..s]))
      {
        UsedClustersStep(dir, s);
        if image[DIR_START + ENTRY_SIZE * s] < 0x10 {
          MarkEntry(s, used);
          usedCount := usedCount + 8;
        }
      }
      assert dir[..SLOTS] == dir;
    }

    method MarkEntry(s: nat, used: array<bool>)
      requires image.Length >= DIR_END && s < SLOTS
      requires forall i :: 0 <= i < 8 ==> Fat(EntryAt(image[..], s), i) < used.Length
      modifies used
      ensures forall k :: 0 <= k < used.Length ==> (used[k] <==> old(used[k]) || k in FatSet(EntryAt(image[..], s)))
    {
      ghost var e := EntryAt(image[..], s);
      var fat := DIR_START + ENTRY_SIZE * s + 16;
      for i := 0 to 8
        invariant forall k :: 0 <= k < used.Length ==>
          (used[k] <==> old(used[k]) || exists x :: 0 <= x < i && Fat(e, x) == k)
      {
        var c := Word(image[fat + 2 * i], image[fat + 2 * i + 1]);
        assert c == Fat(e, i);
        used[c] := true;
      }
    }

    method BuildAvailableChain(length: nat) returns (chain: seq<nat>)
      requires GoodSize(image.Length) && length < 0x8000_0000
      requires MaxCluster(image.Length) > 0 ==> TablesInRange(Directory(image[..]), MaxCluster(image.Length))
      ensures chain == AvailableChain(Directory(image[..]), MaxCluster(image.Length), length)
    {
      hide Directory, LiveCount, UsedClusters, TablesInRange;
      var maxclust := (image.Length - SYSTEM_BYTES) / CLUSTER_BYTES;
      if maxclust == 0 {
        return [];
      }
      var used, usedCount := MarkUsedClusters(maxclust);
      // size_t arithmetic
      var left := if usedCount <= maxclust then maxclust - usedCount
        else maxclust - usedCount + 0x1_0000_0000_0000_0000;
      if left < length {
        return [];
      }
      chain := [];
      ghost var usedSet := UsedClusters(Directory(image[..]));
      ghost var all := FreeList(usedSet, 2, maxclust);
      var i := 2;
      while i < maxclust
        invariant 2 <= i
        invariant all == chain + FreeList(usedSet, i, maxclust)
        invariant length == 0 || |chain| < length
      {
        if !used[i] {
          chain := chain + [i];
          if |chain| == length {
            assert chain == all[..length];
            break;
          }
        }
        i := i + 1;
      }
    }

    method UniqueCpmFilename(filename: bytes) returns (stem: bytes, ext: bytes)
      requires SplitPath(filename).ext != []
      ensures UniqueName(takenNames, filename, stem, ext)
    {
      hide BaseStem, BaseExt, Joined, Renumber, SplitPath;
      ext := BaseExt(filename);
      var base := BaseStem(filename);
      stem := base;
      var nameTaken := Joined(stem, ext) in takenNames;
      var n := 1;
      while nameTaken
        invariant 1 <= n <= |takenNames| + 2
        invariant stem == CandidateStem(base, n - 1)
        invariant nameTaken <==> Joined(stem, ext) in takenNames
        invariant forall k: nat :: k < n - 1 ==> Joined(CandidateStem(base, k), ext) in takenNames
        decreases |takenNames| + 2 - n
      {
        TakenRoundsCount(takenNames, base, ext, n - 1);
        stem := Renumber(stem, n);
        n := n + 1;
        nameTaken := Joined(stem, ext) in takenNames;
      }
      ghost var round: nat := n - 1;
      assert base == BaseStem(filename) && ext == BaseExt(filename);
      assert round <= |takenNames| + 1 && stem == CandidateStem(base, round)
        && FirstFreeRound(takenNames, base, ext, round);
    }

    /** Eight table places from the chain, zero once the file is used up. */
    method NextTable(chain: seq<nat>, chainIndex: nat, remaining: int, ghost n: nat, ghost e: nat)
      returns (fat: seq<nat>, chainIndex': nat, remaining': int)
      requires chainIndex == Min(8 * e, Clusters(n)) && remaining == n - 2048 * chainIndex
      requires Clusters(n) <= |chain|
      ensures fat == ExtentFats(n, chain, e)
      ensures chainIndex' == Min(8 * e + 8, Clusters(n)) && remaining' == n - 2048 * chainIndex'
    {
      fat, chainIndex', remaining' := [], chainIndex, remaining;
      for i := 0 to 8
        invariant |fat| == i && fat == ExtentFats(n, chain, e)[..i]
        invariant chainIndex' == Min(8 * e + i, Clusters(n)) && remaining' == n - 2048 * chainIndex'
      {
        fat := fat + [if remaining' > 0 then chain[chainIndex'] else 0];
        if remaining' > 0 {
          remaining' := remaining' - 2048;
          chainIndex' := chainIndex' + 1;
        }
      }
    }

    /** The directory loop of allocate_file. */
    method AllocateExtents(stem: bytes, ext: bytes, n: nat, chain: seq<nat>)
      requires image.Length >= DIR_END && Clusters(n) <= |chain|
      modifies image
      ensures image[..] == AllocatedImage(old(image[..]), stem, ext, n, chain, SLOTS)
    {
      hide Splice, EntryAt, MakeEntry, ExtentFats, FreeBefore, Directory;
      ghost var img := image[..];
      ghost var dir := Directory(img);
      var remaining: int := n;
      var chainIndex, extent, s := 0, 0, 0;
      while s < SLOTS && remaining > 0
        invariant s <= SLOTS
        invariant extent == Min(FreeBefore(dir, s), Extents(n))
        invariant chainIndex == Min(8 * extent, Clusters(n)) && remaining == n - 2048 * chainIndex
        invariant image[..] == AllocatedImage(img, stem, ext, n, chain, s)
      {
        var header := DIR_START + ENTRY_SIZE * s;
        HeaderNotYetWritten(img, stem, ext, n, chain, s);
        SlotStep(img, stem, ext, n, chain, s, extent, remaining);
        assert image[header] == image[..][header];
        if image[header] >= 0x10 {
          var records := Min(0x80, (remaining + 127) / 128);
          var fat;
          fat, chainIndex, remaining := NextTable(chain, chainIndex, remaining, n, extent);
          Overwrite(header, MakeEntry(stem, ext, extent, records, fat));
          extent := extent + 1;
        }
        s := s + 1;
      }
      RestOfDirectoryStays(img, stem, ext, n, chain, s);
    }

    method AllocateFile(filename: bytes, content: bytes, chain: seq<nat>) returns (stem: bytes, ext: bytes)
      requires SplitPath(filename).ext != [] && image.Length >= DIR_END
      requires Clusters(|content|) <= |chain|
      modifies this, image
      ensures UniqueName(old(takenNames), filename, stem, ext)
      ensures takenNames == old(takenNames) + {Joined(stem, ext)}
      ensures image[..] == AllocatedImage(old(image[..]), stem, ext, |content|, chain, SLOTS)
    {
      stem, ext := UniqueCpmFilename(filename);
      takenNames := takenNames + {Joined(stem, ext)};
      AllocateExtents(stem, ext, |content|, chain);
    }

    /** What is left of the content, up to a sector of it, then 0x1A. */
    method WriteSector(k: nat, content: bytes, src: nat) returns (src': nat)
      requires DIR_START + 1024 * k + 1024 < image.Length && src <= |content|
      modifies image
      ensures src' == After(content, src, SECTOR_SIZE)
      ensures image[..] == Splice(old(image[..]), DIR_START + 1024 * k, SectorData(content, src))
    {
      SectorAddress(image.Length, k);
      var sector := MapSector(image.Length, ClusterToThs(k));
      var count := Min(SECTOR_SIZE, |content| - src);
      SpliceTwice(image[..], sector.value, content[src..src + count], Filling(SECTOR_SIZE - count));
      Overwrite(sector.value, content[src..src + count]);
      Overwrite(sector.value + count, Filling(SECTOR_SIZE - count));
      src' := src + count;
    }

    method WriteCluster(c: nat, content: bytes, src: nat) returns (src': nat)
      requires DIR_START + CLUSTER_BYTES * (c + 1) < image.Length && src <= |content|
      modifies image
      ensures src' == After(content, src, CLUSTER_BYTES)
      ensures image[..] == Splice(old(image[..]), DIR_START + CLUSTER_BYTES * c,
                                  SectorData(content, src) + SectorData(content, After(content, src, SECTOR_SIZE)))
    {
      ghost var img := image[..];
      src' := src;
      for i := 0 to 2
        invariant src' == After(content, src, SECTOR_SIZE * i)
        invariant i == 0 ==> image[..] == img
        invariant i == 1 ==> image[..] == Splice(img, DIR_START + CLUSTER_BYTES * c, SectorData(content, src))
        invariant i == 2 ==>
          var second := SectorData(content, After(content, src, SECTOR_SIZE));
          image[..] == Splice(img, DIR_START + CLUSTER_BYTES * c, SectorData(content, src) + second)
      {
        SpliceTwice(img, DIR_START + CLUSTER_BYTES * c, SectorData(content, src), SectorData(content, src'));
        src' := WriteSector(2 * c + i, content, src');
      }
    }

    /** The data loop of save_file: it stops once the content is used up. */
    method WriteContent(content: bytes, chain: seq<nat>)
      requires forall k :: 0 <= k < |chain| ==> image.Length > DIR_START + CLUSTER_BYTES * (chain[k] + 1)
      requires Written(|content|) <= |chain|
      modifies image
      ensures image[..] == WrittenImage(old(image[..]), content, chain, Written(|content|))
    {
      hide PaddedCluster, SectorData, Splice;
      ghost var img := image[..];
      var src, j := 0, 0;
      while j < |chain|
        invariant j < Written(|content|)
        invariant src == After(content, 0, CLUSTER_BYTES * j)
        invariant image[..] == WrittenImage(img, content, chain, j)
      {
        ClusterDataIsPadded(content, j);
        src := WriteCluster(chain[j], content, src);
        j := j + 1;
        if src == |content| {
          assert j == Written(|content|);
          return;
        }
      }
    }

    method SaveFile(filename: bytes, content: bytes) returns (r: SaveResult)
      requires GoodSize(image.Length) && |content| < 0x8000_0000
      requires MaxCluster(image.Length) > 0 ==> TablesInRange(Directory(image[..]), MaxCluster(image.Length))
      requires NoOverrun(image[..], content)
      modifies this, image
      ensures SaveStep(old(View()), filename, content, View(), r)
    {
      var sizeInClusters := (|content| + 2047) / 2048;
      var chain := BuildAvailableChain(sizeInClusters);
      if |chain| == 0 {
        return Refused;
      }
      if SplitPath(filename).ext == [] {
        return NoExtension;
      }
      ChainFitsDisk(image[..], content);
      var stem, ext := AllocateFile(filename, content, chain);
      WriteContent(content, chain);
      UpdateComplete(old(image[..]), stem, ext, content, chain);
      return Saved(stem, ext);
    }

    // ----- reading -----

    method LoadEntries(name: bytes, ext: bytes) returns (d: Dirent)
      requires image.Length >= DIR_END
      ensures d == LoadDirent(Directory(image[..]), 0, name, ext)
    {
      hide NameOf, ExtOf, Fats, EntrySize, EntryAt;
      var chain: seq<nat> := [];
      ghost var dir := Directory(image[..]);
      for s := 0 to SLOTS
        invariant LoadDirent(dir, 0, name, ext)
               == var rest := LoadDirent(dir, s, name, ext); Dirent(chain + rest.chain, rest.size)
      {
        var h := EntryAt(image[..], s);
        if h[0] < 0x10 && NameOf(h) == name && ExtOf(h) == ext {
          chain := chain + Fats(h);
          if h[15] != 0x80 {
            return Dirent(chain, EntrySize(h));
          }
        }
      }
      return Dirent(chain, 0);
    }

    method FindEntries(filename: bytes) returns (d: Dirent)
      requires image.Length >= DIR_END
      ensures d == FindFile(Directory(image[..]), filename)
    {
      hide SplitPath, RTrim, LoadDirent, NameOf, ExtOf, EntryAt;
      var parts := SplitPath(filename);
      var name := RTrim(Field(parts.stem, NAME_SIZE));
      var ext := RTrim(Field(ExtWithoutDot(parts.ext), EXT_SIZE));
      ghost var dir := Directory(image[..]);
      for s := 0 to SLOTS
        invariant FindSlot(dir, 0, name, ext) == FindSlot(dir, s, name, ext)
      {
        var h := EntryAt(image[..], s);
        if h[0] == 0 && NameOf(h) == name && ExtOf(h) == ext {
          d := LoadEntries(NameOf(h), ExtOf(h));
          return;
        }
      }
      return Dirent([], 0);
    }

    /** Sectors k, k + 1, ... up to the first that is not on the disk. */
    method CopySectors(k: nat, count: nat, wanted: nat) returns (content: bytes)
      ensures content == ReadSectors(image[..], k, count, wanted)
    {
      hide SectorPiece;
      var img := image[..];
      var next: nat, left: nat, still: nat := k, count, wanted;
      content := [];
      ghost var rest := ReadSectors(img, k, count, wanted);
      while left > 0
        invariant rest == ReadSectors(img, next, left, still)
        invariant ReadSectors(img, k, count, wanted) == content + rest
      {
        var piece := SectorPiece(img, next, still);
        if piece.None? {
          break;
        }
        next, left, still := next + 1, left - 1, still - |piece.value|;
        rest := ReadSectors(img, next, left, still);
        Assoc(content, piece.value, rest);
        content := content + piece.value;
      }
      assert content + [] == content;
    }

    /** The buffer is zero-filled in the source; here its unwritten rest is added at the end. */
    method ReadBytes(d: Dirent) returns (content: bytes)
      ensures content == ReadChain(image[..], d.chain, d.size)
    {
      ghost var img := image[..];
      content := [];
      var todo, wanted: nat := d.chain, d.size;
      ghost var rest := ReadChain(img, d.chain, d.size);
      while todo != [] && todo[0] * 2 >= 2
        invariant rest == ReadChain(img, todo, wanted)
        invariant ReadChain(img, d.chain, d.size) == content + rest
        decreases |todo|
      {
        var piece := CopySectors(todo[0] * 2, 2, wanted);
        assert image[..] == img;
        todo, wanted := todo[1..], wanted - |piece|;
        rest := ReadChain(img, todo, wanted);
        Assoc(content, piece, rest);
        content := content + piece;
      }
      content := content + Zeros(wanted);
    }

    method ReadBack(filename: bytes) returns (content: bytes)
      requires image.Length >= DIR_END
      ensures content == ReadFile(image[..], filename)
    {
      var d := FindEntries(filename);
      if d.size != 0 {
        content := ReadBytes(d);
      } else {
        content := [];
      }
    }
  }

  lemma ChainFitsDisk(img: bytes, content: bytes)
    requires GoodSize(|img|) && ChainFor(img, content) != [] && NoOverrun(img, content)
    ensures var chain := ChainFor(img, content);
      && StrictlyIncreasing(chain) && Written(|content|) <= |chain|
      && forall k :: 0 <= k < |chain| ==> 2 <= chain[k] && |img| > DIR_START + CLUSTER_BYTES * (chain[k] + 1)
  {
    var chain := ChainFor(img, content);
    ChainIsFree(Directory(img), MaxCluster(|img|), Clusters(|content|));
    forall k | 0 <= k < |chain| ensures 2 <= chain[k] < MaxCluster(|img|) {
      assert chain[k] in chain;
    }
  }
}
