/** Whole histories of a disk image: what every save keeps. */
module CpmHistory {
  import opened Bytes
  import opened CpmNames
  import opened CpmDirectory
  import opened CpmFiles

  /** A file as the history remembers it: the cluster chain it was given, and the run of directory
      slots its extents went to, shorter than it has extents when the directory was nearly full. */
  datatype File = File(stem: bytes, ext: bytes, content: bytes, chain: seq<nat>, start: nat, entered: nat) {
    function Name(): bytes { Joined(stem, ext) }

    function Key(): Key { KeyOf(stem, ext) }

    /** Clusters that some directory entry refers to. */
    function Stored(): nat { Min(8 * entered, Clusters(|content|)) }
  }

  ghost predicate FileOk(img: bytes, f: File)
    requires GoodSize(|img|)
  {
    Storable(f.stem, f.ext) && ChainOk(|img|, f) && EntriesOk(img, f) && DataOk(img, f)
  }

  ghost predicate ChainOk(size: nat, f: File)
    requires GoodSize(size)
  {
    && |f.chain| == Clusters(|f.content|)
    && StrictlyIncreasing(f.chain)
    && forall j :: 0 <= j < |f.chain| ==> 2 <= f.chain[j] < MaxCluster(size)
  }

  ghost predicate EntriesOk(img: bytes, f: File)
    requires GoodSize(|img|)
  {
    && f.entered <= Extents(|f.content|) && f.start + f.entered <= SLOTS
    && forall e :: 0 <= e < f.entered ==> EntryAt(img, f.start + e) == ExtentOf(f, e)
  }

  function ExtentOf(f: File, e: nat): Entry
    requires e < SLOTS && e < Extents(|f.content|)
  {
    ExtentEntry(f.stem, f.ext, |f.content|, f.chain, e)
  }

  ghost predicate DataOk(img: bytes, f: File)
    requires GoodSize(|img|) && ChainOk(|img|, f)
  {
    forall j :: 0 <= j < f.Stored() ==> ClusterAt(img, f.chain[j]) == PaddedCluster(f.content, j)
  }

  /** No cluster that the directory refers to belongs to two files. */
  ghost predicate Apart(f: File, g: File) {
    forall a, b :: 0 <= a < f.Stored() && 0 <= b < g.Stored() && a < |f.chain| && b < |g.chain| ==>
      f.chain[a] != g.chain[b]
  }

  /** The directory slots of all files. */
  function Entered(files: seq<File>): nat {
    if files == [] then 0 else Entered(files[..|files| - 1]) + files[|files| - 1].entered
  }

  /** The slots are taken in the order of the saves, and none is free between them. */
  ghost predicate Laid(img: bytes, files: seq<File>)
    requires GoodSize(|img|)
  {
    && Entered(files) <= SLOTS
    && (forall i :: 0 <= i < |files| ==> files[i].start == Entered(files[..i]))
    && (forall s :: 0 <= s < SLOTS ==> (Live(EntryAt(img, s)) <==> s < Entered(files)))
  }

  ghost predicate Inv(d: Disk, files: seq<File>) {
    && GoodSize(|d.img|)
    && (forall i :: 0 <= i < |files| ==> FileOk(d.img, files[i]))
    && Laid(d.img, files)
    && (forall i, k :: 0 <= i < k < |files| ==> Apart(files[i], files[k]))
    && |d.taken| == |files|
    && (forall i :: 0 <= i < |files| ==> files[i].Name() in d.taken)
  }

  // ----- entries of stored files -----

  lemma ExtentFields(f: File, e: nat)
    requires e < SLOTS && e < Extents(|f.content|)
    requires forall j :: 0 <= j < |f.chain| ==> f.chain[j] < 0x1_0000
    ensures var r := ExtentOf(f, e);
      && r[0] == 0 && r[12] == e && r[15] == Min(0x80, (|f.content| - 16384 * e + 127) / 128)
      && Fats(r) == ExtentFats(|f.content|, f.chain, e) && Key(NameOf(r), ExtOf(r)) == f.Key()
  {
    hide RTrim, Field;
    var records := Min(0x80, (|f.content| - 16384 * e + 127) / 128);
    MakeEntryFields(f.stem, f.ext, e, records, ExtentFats(|f.content|, f.chain, e));
  }

  lemma StoredFields(img: bytes, f: File, e: nat)
    requires GoodSize(|img|) && FileOk(img, f) && e < f.entered
    ensures var r := EntryAt(img, f.start + e);
      && r[0] == 0 && r[12] == e && r[15] == Min(0x80, (|f.content| - 16384 * e + 127) / 128)
      && Fats(r) == ExtentFats(|f.content|, f.chain, e) && Key(NameOf(r), ExtOf(r)) == f.Key()
  {
    hide ExtentOf, NameOf, ExtOf, Fats, KeyOf, DataOk, Storable;
    MaxClusterFits(|img|);
    ExtentFields(f, e);
  }

  lemma MaxClusterFits(size: nat)
    requires GoodSize(size)
    ensures MaxCluster(size) <= 0x1_0000
    ensures DIR_START + CLUSTER_BYTES * MaxCluster(size) + 1024 < size
  {
  }

  /** Stored clusters are in use. */
  lemma StoredIsUsed(img: bytes, f: File, j: nat)
    requires GoodSize(|img|) && FileOk(img, f) && j < f.Stored()
    ensures f.chain[j] in UsedClusters(Directory(img))
  {
    var e, i := j / 8, j % 8;
    assert j == 8 * e + i;
    StoredFields(img, f, e);
    InUse(Directory(img), f.start + e, i);
  }

  lemma InUse(dir: Dir, s: nat, i: nat)
    requires s < SLOTS && i < 8 && Live(dir[s])
    ensures Fats(dir[s])[i] in UsedClusters(dir)
  {
    UsedClustersMembers(dir, Fat(dir[s], i));
  }

  /** The file and extent that a taken slot belongs to. */
  lemma {:induction false} SlotBelongs(files: seq<File>, s: nat) returns (i: nat, e: nat)
    requires s < Entered(files) && forall k :: 0 <= k < |files| ==> files[k].start == Entered(files[..k])
    ensures i < |files| && e < files[i].entered && files[i].start + e == s
  {
    var front, last := files[..|files| - 1], files[|files| - 1];
    if s < Entered(front) {
      assert forall k :: 0 <= k < |front| ==> front[..k] == files[..k];
      i, e := SlotBelongs(front, s);
    } else {
      i, e := |front|, s - Entered(front);
    }
  }

  // ----- one save -----

  /** With the first slots taken and the rest free, the free ones before s. */
  lemma {:induction false} FreeAfterTaken(dir: seq<Entry>, taken: nat, s: nat)
    requires s <= |dir| && forall t :: 0 <= t < |dir| ==> (Live(dir[t]) <==> t < taken)
    ensures FreeBefore(dir, s) == if s < taken then 0 else s - taken
  {
    if s > 0 {
      FreeAfterTaken(dir, taken, s - 1);
    }
  }

  /** The file that saving under a name makes. */
  ghost function NewFile(d: Disk, content: bytes, stem: bytes, ext: bytes): File
    requires GoodSize(|d.img|)
  {
    var chain := ChainFor(d.img, content);
    var free := FreeBefore(Directory(d.img), SLOTS);
    File(stem, ext, content, TakeUpTo(chain, Clusters(|content|)), SLOTS - free, Min(free, Extents(|content|)))
  }

  function TakeUpTo(s: seq<nat>, n: nat): (r: seq<nat>)
    ensures r <= s && |r| == Min(|s|, n)
  {
    if n <= |s| then s[..n] else s
  }

  lemma ClusterStays(img: bytes, img': bytes, chain: seq<nat>, c: nat)
    requires |img| == |img'| >= DIR_START + CLUSTER_BYTES * (c + 1) && 2 <= c && c !in chain
    requires forall p :: 0 <= p < |img| && Untouched(chain, p) ==> img'[p] == img[p]
    ensures ClusterAt(img', c) == ClusterAt(img, c)
  {
    forall i | 0 <= i < CLUSTER_BYTES ensures ClusterAt(img', c)[i] == ClusterAt(img, c)[i] {
      var p := DIR_START + CLUSTER_BYTES * c + i;
      assert ClusterOf(p) == c;
      assert Untouched(chain, p);
    }
  }

  /** A save leaves every earlier file as it was. */
  lemma OldFileStays(img: bytes, img': bytes, f: File, stem: bytes, ext: bytes, content: bytes)
    requires GoodSize(|img|) && FileOk(img, f)
    requires ImageUpdated(img, img', stem, ext, content, ChainFor(img, content))
    ensures FileOk(img', f)
  {
    var chain := ChainFor(img, content);
    ChainIsFree(Directory(img), MaxCluster(|img|), Clusters(|content|));
    forall e | 0 <= e < f.entered ensures EntryAt(img', f.start + e) == ExtentOf(f, e) {
      StoredFields(img, f, e);
    }
    forall j | 0 <= j < f.Stored() ensures ClusterAt(img', f.chain[j]) == ClusterAt(img, f.chain[j]) {
      StoredIsUsed(img, f, j);
      ClusterStays(img, img', chain[..Written(|content|)], f.chain[j]);
    }
  }

  lemma NewFileOk(d: Disk, files: seq<File>, content: bytes, stem: bytes, ext: bytes, img': bytes)
    requires Inv(d, files) && Storable(stem, ext)
    requires ChainFor(d.img, content) != [] && NoOverrun(d.img, content)
    requires ImageUpdated(d.img, img', stem, ext, content, ChainFor(d.img, content))
    ensures FileOk(img', NewFile(d, content, stem, ext))
  {
    hide Inv, ChainOk, EntriesOk, DataOk, ChainFor, ImageUpdated;
    NewStart(d, files, content, stem, ext);
    SameSize(d.img, img', stem, ext, content);
    NewChainOk(d, content, stem, ext);
    NewEntriesOk(d, files, content, stem, ext, img');
    NewDataOk(d, content, stem, ext, img');
  }

  lemma NewChainOk(d: Disk, content: bytes, stem: bytes, ext: bytes)
    requires GoodSize(|d.img|) && ChainFor(d.img, content) != [] && NoOverrun(d.img, content)
    ensures ChainOk(|d.img|, NewFile(d, content, stem, ext))
  {
    hide AvailableChain, FreeBefore;
    var f := NewFile(d, content, stem, ext);
    ChainIsFree(Directory(d.img), MaxCluster(|d.img|), Clusters(|content|));
    assert forall j :: 0 <= j < |f.chain| ==> f.chain[j] in ChainFor(d.img, content);
  }

  lemma NewEntriesOk(d: Disk, files: seq<File>, content: bytes, stem: bytes, ext: bytes, img': bytes)
    requires Inv(d, files) && NoOverrun(d.img, content) && ChainFor(d.img, content) != []
    requires ImageUpdated(d.img, img', stem, ext, content, ChainFor(d.img, content))
    ensures GoodSize(|img'|) && EntriesOk(img', NewFile(d, content, stem, ext))
  {
    hide Inv, ChainFor, ImageUpdated, ExtentOf;
    InvSize(d, files);
    var f := NewFile(d, content, stem, ext);
    NewStart(d, files, content, stem, ext);
    SameSize(d.img, img', stem, ext, content);
    forall e | 0 <= e < f.entered
      ensures f.start + e < SLOTS && EntryAt(img', f.start + e) == ExtentOf(f, e)
    {
      NewExtent(d, files, content, stem, ext, img', e);
    }
  }

  lemma NewDataOk(d: Disk, content: bytes, stem: bytes, ext: bytes, img': bytes)
    requires GoodSize(|d.img|) && ChainOk(|d.img|, NewFile(d, content, stem, ext))
    requires ImageUpdated(d.img, img', stem, ext, content, ChainFor(d.img, content))
    ensures |img'| == |d.img| && DataOk(img', NewFile(d, content, stem, ext))
  {
    hide AvailableChain, FreeBefore, ChainFor;
    var f := NewFile(d, content, stem, ext);
    forall j | 0 <= j < f.Stored() ensures ClusterAt(img', f.chain[j]) == PaddedCluster(content, j) {
      assert f.chain[j] == ChainFor(d.img, content)[j];
    }
  }

  /** A new file's entries start behind those of the files before it. */
  lemma NewStart(d: Disk, files: seq<File>, content: bytes, stem: bytes, ext: bytes)
    requires Inv(d, files)
    ensures GoodSize(|d.img|) && NewFile(d, content, stem, ext).start == Entered(files) <= SLOTS
  {
    FreeAfterTaken(Directory(d.img), Entered(files), SLOTS);
  }

  lemma NewExtent(d: Disk, files: seq<File>, content: bytes, stem: bytes, ext: bytes, img': bytes, e: nat)
    requires Inv(d, files) && NoOverrun(d.img, content) && ChainFor(d.img, content) != []
    requires ImageUpdated(d.img, img', stem, ext, content, ChainFor(d.img, content))
    requires e < NewFile(d, content, stem, ext).entered
    ensures var f := NewFile(d, content, stem, ext);
      f.start + e < SLOTS && EntryAt(img', f.start + e) == ExtentOf(f, e)
  {
    hide FileOk, Apart, ChainFor, MakeEntry;
    var dir, chain, n := Directory(d.img), ChainFor(d.img, content), |content|;
    var f := NewFile(d, content, stem, ext);
    NewStart(d, files, content, stem, ext);
    FreeAfterTaken(dir, Entered(files), SLOTS);
    FreeAfterTaken(dir, Entered(files), f.start + e);
    assert EntryAt(img', f.start + e) == ExtentEntry(stem, ext, n, chain, e);
    assert ExtentFats(n, chain, e) == ExtentFats(n, f.chain, e);
  }

  lemma LaidAfterSave(d: Disk, files: seq<File>, content: bytes, stem: bytes, ext: bytes, img': bytes)
    requires Inv(d, files)
    requires ImageUpdated(d.img, img', stem, ext, content, ChainFor(d.img, content))
    ensures Laid(img', files + [NewFile(d, content, stem, ext)])
  {
    var dir := Directory(d.img);
    var f := NewFile(d, content, stem, ext);
    var files' := files + [f];
    FreeAfterTaken(dir, Entered(files), SLOTS);
    assert files'[..|files|] == files;
    assert forall i :: 0 <= i < |files| ==> files'[..i] == files[..i];
    forall s | 0 <= s < SLOTS ensures Live(EntryAt(img', s)) <==> s < Entered(files') {
      FreeAfterTaken(dir, Entered(files), s);
      assert EntryAt(img', s) == NewEntry(dir, stem, ext, |content|, ChainFor(d.img, content), s);
    }
  }

  lemma NewFileApart(d: Disk, files: seq<File>, i: nat, content: bytes, stem: bytes, ext: bytes)
    requires Inv(d, files) && i < |files|
    ensures Apart(files[i], NewFile(d, content, stem, ext))
  {
    var f, g := files[i], NewFile(d, content, stem, ext);
    assert FileOk(d.img, f);
    ChainIsFree(Directory(d.img), MaxCluster(|d.img|), Clusters(|content|));
    forall a, b | 0 <= a < f.Stored() && 0 <= b < g.Stored() && a < |f.chain| && b < |g.chain|
      ensures f.chain[a] != g.chain[b]
    {
      StoredIsUsed(d.img, f, a);
      assert g.chain[b] in ChainFor(d.img, content);
    }
  }

  lemma UniqueNamesAreStorable(taken: set<bytes>, filename: bytes, stem: bytes, ext: bytes)
    requires SplitPath(filename).ext != [] && UniqueName(taken, filename, stem, ext)
    ensures Storable(stem, ext) && Joined(stem, ext) !in taken
  {
    hide BaseStem, BaseExt, SplitPath, CandidateStem;
    BaseNamesAreStorable(filename);
    var round: nat :| round <= |taken| + 1 && stem == CandidateStem(BaseStem(filename), round)
      && FirstFreeRound(taken, BaseStem(filename), BaseExt(filename), round);
    CandidatesHaveNoSeparator(BaseStem(filename), round);
  }

  /** Saving keeps the invariant, with one more file. */
  lemma SaveKeepsInv(d: Disk, files: seq<File>, filename: bytes, content: bytes, d': Disk, r: SaveResult)
    requires Inv(d, files) && NoOverrun(d.img, content)
    requires SaveStep(d, filename, content, d', r) && r.Saved?
    ensures Inv(d', files + [NewFile(d, content, r.stem, r.ext)])
  {
    hide FileOk, Laid, Apart, ImageUpdated, NoOverrun, ChainFor, NewFile, UniqueName, Joined, Storable, KeyOf,
      SplitPath;
    UniqueNamesAreStorable(d.taken, filename, r.stem, r.ext);
    SameSize(d.img, d'.img, r.stem, r.ext, content);
    FilesAfterSave(d, files, r.stem, r.ext, content, d'.img);
    LaidAfterSave(d, files, content, r.stem, r.ext, d'.img);
    NewFileName(d, content, r.stem, r.ext);
    InvWithOneMore(d, files, NewFile(d, content, r.stem, r.ext), d');
  }

  lemma InvWithOneMore(d: Disk, files: seq<File>, f: File, d': Disk)
    requires Inv(d, files) && GoodSize(|d'.img|) && FileOk(d'.img, f) && Laid(d'.img, files + [f])
    requires forall i :: 0 <= i < |files| ==> FileOk(d'.img, files[i]) && Apart(files[i], f)
    requires |d'.taken| == |d.taken| + 1 && d.taken <= d'.taken && f.Name() in d'.taken
    ensures Inv(d', files + [f])
  {
    hide FileOk, Laid, Apart;
  }

  lemma SameSize(img: bytes, img': bytes, stem: bytes, ext: bytes, content: bytes)
    requires GoodSize(|img|) && ImageUpdated(img, img', stem, ext, content, ChainFor(img, content))
    ensures |img'| == |img|
  {
  }

  lemma NewFileName(d: Disk, content: bytes, stem: bytes, ext: bytes)
    requires GoodSize(|d.img|)
    ensures var f := NewFile(d, content, stem, ext);
      f.Name() == Joined(stem, ext) && f.Key() == KeyOf(stem, ext) && f.content == content
  {
  }

  lemma FilesAfterSave(d: Disk, files: seq<File>, stem: bytes, ext: bytes, content: bytes, img': bytes)
    requires Inv(d, files) && Storable(stem, ext)
    requires ChainFor(d.img, content) != [] && NoOverrun(d.img, content)
    requires ImageUpdated(d.img, img', stem, ext, content, ChainFor(d.img, content))
    ensures |img'| == |d.img|
    ensures var f := NewFile(d, content, stem, ext);
      && FileOk(img', f)
      && forall i :: 0 <= i < |files| ==> FileOk(img', files[i]) && Apart(files[i], f)
  {
    hide FileOk, Laid, Apart, ImageUpdated, NoOverrun, ChainFor, NewFile;
    SameSize(d.img, img', stem, ext, content);
    NewFileOk(d, files, content, stem, ext, img');
    forall i | 0 <= i < |files|
      ensures FileOk(img', files[i]) && Apart(files[i], NewFile(d, content, stem, ext))
    {
      OldFileStays(d.img, img', files[i], stem, ext, content);
      NewFileApart(d, files, i, content, stem, ext);
    }
  }

  // ----- whole histories -----

  datatype Save = Save(filename: bytes, content: bytes)

  /** A history of save attempts on a freshly formatted image, from its first disk to its last. */
  ghost predicate History(disks: seq<Disk>, saves: seq<Save>, results: seq<SaveResult>) {
    && |disks| == |saves| + 1 && |results| == |saves|
    && GoodSize(|disks[0].img|) && disks[0].taken == {}
    && (forall p :: 0 <= p < |disks[0].img| ==> disks[0].img[p] == FORMATTED)
    && (forall k :: 0 <= k < |saves| ==>
          && |disks[k].img| == |disks[0].img|
          && NoOverrun(disks[k].img, saves[k].content)
          && SaveStep(disks[k], saves[k].filename, saves[k].content, disks[k + 1], results[k]))
  }

  /** The files after the first m saves, in the order they were saved. */
  ghost function Files(disks: seq<Disk>, saves: seq<Save>, results: seq<SaveResult>, m: nat): (files: seq<File>)
    requires History(disks, saves, results) && m <= |saves|
    ensures |files| <= m
  {
    if m == 0 then []
    else
      var before, r := Files(disks, saves, results, m - 1), results[m - 1];
      if r.Saved? then before + [NewFile(disks[m - 1], saves[m - 1].content, r.stem, r.ext)] else before
  }

  /** The state after the first m saves of a history. */
  lemma {:induction false} HistoryInv(disks: seq<Disk>, saves: seq<Save>, results: seq<SaveResult>, m: nat)
    requires History(disks, saves, results) && m <= |saves|
    ensures Inv(disks[m], Files(disks, saves, results, m)) && |disks[m].img| == |disks[0].img|
  {
    hide Inv, NewFile, NoOverrun, SaveStep;
    if m == 0 {
      FreshImage(disks[0]);
    } else {
      HistoryInv(disks, saves, results, m - 1);
      var d, s, r := disks[m - 1], saves[m - 1], results[m - 1];
      AttemptKeepsInv(d, Files(disks, saves, results, m - 1), s.filename, s.content, disks[m], r);
    }
  }

  lemma AttemptKeepsInv(d: Disk, files: seq<File>, filename: bytes, content: bytes, d': Disk, r: SaveResult)
    requires Inv(d, files) && NoOverrun(d.img, content) && SaveStep(d, filename, content, d', r)
    ensures |d'.img| == |d.img|
    ensures Inv(d', if r.Saved? then files + [NewFile(d, content, r.stem, r.ext)] else files)
  {
    hide ImageUpdated, NewFile, FileOk, Laid, Apart, NoOverrun, ChainFor;
    if r.Saved? {
      SaveKeepsInv(d, files, filename, content, d', r);
      SameSize(d.img, d'.img, r.stem, r.ext, content);
    }
  }

  lemma InvSize(d: Disk, files: seq<File>)
    requires Inv(d, files)
    ensures GoodSize(|d.img|)
  {
  }

  lemma FreshImage(d: Disk)
    requires GoodSize(|d.img|) && d.taken == {}
    requires forall p :: 0 <= p < |d.img| ==> d.img[p] == FORMATTED
    ensures Inv(d, [])
  {
    forall s | 0 <= s < SLOTS ensures !Live(EntryAt(d.img, s)) {
      assert EntryAt(d.img, s)[0] == d.img[DIR_START + ENTRY_SIZE * s];
    }
  }

  // ----- the directory of every reachable disk -----

  /** The number in place i of a live entry s: zero, or a stored cluster of the file that owns s. */
  lemma PlaceBelongs(d: Disk, files: seq<File>, s: nat, i: nat) returns (k: nat, e: nat)
    requires Inv(d, files) && s < SLOTS && i < 8 && Live(EntryAt(d.img, s))
    ensures k < |files| && e < files[k].entered && files[k].start + e == s
    ensures Fat(EntryAt(d.img, s), i) != 0 ==>
      && 8 * e + i < files[k].Stored() && 8 * e + i < |files[k].chain|
      && Fat(EntryAt(d.img, s), i) == files[k].chain[8 * e + i]
  {
    k, e := SlotBelongs(files, s);
    StoredFields(d.img, files[k], e);
    FatIsTablePlace(EntryAt(d.img, s), |files[k].content|, files[k].chain, e, i);
  }

  lemma FatIsTablePlace(r: Entry, n: nat, chain: seq<nat>, e: nat, i: nat)
    requires Fats(r) == ExtentFats(n, chain, e) && i < 8
    ensures Fat(r, i) == if 8 * e + i < Clusters(n) && 8 * e + i < |chain| then chain[8 * e + i] else 0
  {
    assert Fats(r)[i] == Fat(r, i);
  }

  /** No cluster is entered twice, and none is the directory's or out of range. */
  ghost predicate SoundTables(dir: Dir, maxc: nat) {
    && (forall s, i :: 0 <= s < SLOTS && 0 <= i < 8 && Live(dir[s]) ==>
          Fat(dir[s], i) == 0 || 2 <= Fat(dir[s], i) < maxc)
    && (forall s, i, t, k :: (0 <= s < SLOTS && 0 <= i < 8 && 0 <= t < SLOTS && 0 <= k < 8
          && Live(dir[s]) && Live(dir[t]) && (s, i) != (t, k) && Fat(dir[s], i) != 0) ==>
          Fat(dir[s], i) != Fat(dir[t], k))
  }

  lemma PlaceInRange(d: Disk, files: seq<File>, s: nat, i: nat)
    requires Inv(d, files) && s < SLOTS && i < 8 && Live(EntryAt(d.img, s))
    ensures var c := Fat(EntryAt(d.img, s), i); c == 0 || 2 <= c < MaxCluster(|d.img|)
  {
    var k, e := PlaceBelongs(d, files, s, i);
    assert ChainOk(|d.img|, files[k]);
  }

  lemma PlacesDiffer(d: Disk, files: seq<File>, s: nat, i: nat, t: nat, k: nat)
    requires Inv(d, files) && s < SLOTS && i < 8 && t < SLOTS && k < 8
    requires Live(EntryAt(d.img, s)) && Live(EntryAt(d.img, t)) && (s, i) != (t, k)
    requires Fat(EntryAt(d.img, s), i) != 0
    ensures Fat(EntryAt(d.img, s), i) != Fat(EntryAt(d.img, t), k)
  {
    hide Inv, Fat, EntryAt;
    InvSize(d, files);
    var x, a := PlaceBelongs(d, files, s, i);
    var y, b := PlaceBelongs(d, files, t, k);
    assert 8 * a + i == 8 * b + k ==> a == b && i == k;
    if Fat(EntryAt(d.img, t), k) != 0 {
      StoredClustersDiffer(d, files, x, 8 * a + i, y, 8 * b + k);
    }
  }

  lemma StoredClustersDiffer(d: Disk, files: seq<File>, x: nat, a: nat, y: nat, b: nat)
    requires Inv(d, files) && x < |files| && y < |files| && (x, a) != (y, b)
    requires a < files[x].Stored() && a < |files[x].chain| && b < files[y].Stored() && b < |files[y].chain|
    ensures files[x].chain[a] != files[y].chain[b]
  {
    if x == y {
      assert ChainOk(|d.img|, files[x]);
    } else if x < y {
      assert Apart(files[x], files[y]);
    } else {
      assert Apart(files[y], files[x]);
    }
  }

  lemma TablesAreSound(d: Disk, files: seq<File>)
    requires Inv(d, files)
    ensures SoundTables(Directory(d.img), MaxCluster(|d.img|))
  {
    hide Inv;
    InvSize(d, files);
    var dir := Directory(d.img);
    forall s, i | 0 <= s < SLOTS && 0 <= i < 8 && Live(dir[s])
      ensures Fat(dir[s], i) == 0 || 2 <= Fat(dir[s], i) < MaxCluster(|d.img|)
    {
      PlaceInRange(d, files, s, i);
    }
    forall s, i, t, k | 0 <= s < SLOTS && 0 <= i < 8 && 0 <= t < SLOTS && 0 <= k < 8 && Live(dir[s]) && Live(dir[t])
                        && (s, i) != (t, k) && Fat(dir[s], i) != 0
      ensures Fat(dir[s], i) != Fat(dir[t], k)
    {
      PlacesDiffer(d, files, s, i, t, k);
    }
  }

  /** In every reachable state no cluster is entered twice, clusters are in range and clear of
      the directory, and the next allocation indexes its table within bounds. */
  lemma DirectoryStaysSound(disks: seq<Disk>, saves: seq<Save>, results: seq<SaveResult>, m: nat)
    requires History(disks, saves, results) && m <= |saves|
    ensures |disks[m].img| == |disks[0].img|
    ensures SoundTables(Directory(disks[m].img), MaxCluster(|disks[m].img|))
    ensures MaxCluster(|disks[m].img|) > 0 ==> TablesInRange(Directory(disks[m].img), MaxCluster(|disks[m].img|))
  {
    hide Inv;
    HistoryInv(disks, saves, results, m);
    SoundIsInRange(disks[m], Files(disks, saves, results, m));
  }

  lemma SoundIsInRange(d: Disk, files: seq<File>)
    requires Inv(d, files)
    ensures SoundTables(Directory(d.img), MaxCluster(|d.img|))
    ensures MaxCluster(|d.img|) > 0 ==> TablesInRange(Directory(d.img), MaxCluster(|d.img|))
  {
    TablesAreSound(d, files);
  }

  /** On an empty disk of the emulator's size (860160 bytes, 390 clusters) a request for 389
      clusters passes the check but gets a chain of 388. */
  lemma OverrunOnEmptyDisk(dir: Dir)
    requires forall s :: 0 <= s < SLOTS ==> !Live(dir[s])
    ensures MaxCluster(860160) == 390 && |AvailableChain(dir, 390, 389)| == 388
  {
    NothingUsed(dir);
    AllFree(2, 390);
  }

  lemma {:induction false} NothingUsed(dir: seq<Entry>)
    requires forall s :: 0 <= s < |dir| ==> !Live(dir[s])
    ensures UsedClusters(dir) == {} && LiveCount(dir) == 0
  {
    if dir != [] {
      NothingUsed(dir[..|dir| - 1]);
    }
  }

  lemma {:induction false} AllFree(lo: nat, hi: nat)
    requires lo <= hi
    ensures |FreeList({}, lo, hi)| == hi - lo
    decreases hi - lo
  {
    if lo < hi {
      AllFree(lo + 1, hi);
    }
  }
}
