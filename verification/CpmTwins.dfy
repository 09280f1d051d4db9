/** Two host files whose names differ only in a blank at the end, saved one after the other: the
    second is lost behind the first. */
module CpmTwins {
  import opened Bytes
  import opened CpmNames
  import opened CpmDirectory
  import opened CpmFiles
  import opened CpmHistory
  import opened CpmReading
  import opened CpmImage

  /** An upper-case name that fits, with room for a blank. */
  predicate ShortName(stem: bytes, ext: bytes) {
    && Storable(stem, ext) && |stem| < NAME_SIZE && 0 < |ext| <= EXT_SIZE
    && Upper(stem) == stem && Upper(ext) == ext
  }

  lemma BaseOf(stem: bytes, ext: bytes)
    requires Storable(stem, ext) && |stem| <= NAME_SIZE && |ext| <= EXT_SIZE
    requires Upper(stem) == stem && Upper(ext) == ext
    ensures var filename := Joined(stem, ext);
      SplitPath(filename).ext != [] && BaseStem(filename) == stem && BaseExt(filename) == ext
  {
    hide SplitPath, Joined;
    SplitJoined(stem, ext);
    assert Upper([DOT] + ext)[1..] == Upper(ext);
  }

  lemma BlankedIsStorable(stem: bytes, ext: bytes)
    requires ShortName(stem, ext)
    ensures var blanked := stem + [SPACE];
      Storable(blanked, ext) && Upper(blanked) == blanked && Joined(blanked, ext) != Joined(stem, ext)
  {
    assert |Joined(stem + [SPACE], ext)| == |Joined(stem, ext)| + 1;
  }

  /** The directory cannot tell the two names apart. */
  lemma BlankIsLost(stem: bytes, ext: bytes)
    requires |stem| < NAME_SIZE
    ensures KeyOf(stem + [SPACE], ext) == KeyOf(stem, ext)
  {
    assert Field(stem + [SPACE], NAME_SIZE) == Field(stem, NAME_SIZE);
  }

  lemma NameIsFree(taken: set<bytes>, filename: bytes, stem: bytes, ext: bytes)
    requires SplitPath(filename).ext != [] && UniqueName(taken, filename, stem, ext)
    requires Joined(BaseStem(filename), BaseExt(filename)) !in taken
    ensures stem == BaseStem(filename) && ext == BaseExt(filename)
  {
    hide SplitPath, BaseStem, BaseExt, Joined;
    var round: nat :| round <= |taken| + 1 && stem == CandidateStem(BaseStem(filename), round)
      && FirstFreeRound(taken, BaseStem(filename), BaseExt(filename), round);
    assert CandidateStem(BaseStem(filename), 0) == BaseStem(filename);
    if round > 0 {
      assert false;
    }
  }

  lemma {:induction false} LiveOrFree(dir: seq<Entry>)
    ensures LiveCount(dir) + FreeBefore(dir, |dir|) == |dir|
  {
    if dir != [] {
      var front := dir[..|dir| - 1];
      LiveOrFree(front);
      SameFree(front, dir, |front|);
    }
  }

  lemma {:induction false} SameFree(a: seq<Entry>, b: seq<Entry>, s: nat)
    requires s <= |a| <= |b| && a == b[..|a|]
    ensures FreeBefore(a, s) == FreeBefore(b, s)
  {
    if s > 0 {
      SameFree(a, b, s - 1);
    }
  }

  /** A disk of the emulator's size with few files has room for a small one. */
  lemma SmallFileFits(d: Disk, files: seq<File>, content: bytes)
    requires Inv(d, files) && |d.img| == 860160 && Entered(files) <= 40 && 0 < |content| <= CLUSTER_BYTES
    ensures ChainFor(d.img, content) != [] && NoOverrun(d.img, content)
  {
    hide AvailableChain;
    var dir := Directory(d.img);
    FreeAfterTaken(dir, Entered(files), SLOTS);
    LiveOrFree(dir);
    ChainLongEnough(dir, MaxCluster(|d.img|), 1);
  }

  /** The history of two saves on a new disk, as the steps of the image make it. */
  lemma TwoSaves(d0: Disk, d1: Disk, d2: Disk, saves: seq<Save>, results: seq<SaveResult>)
    requires |saves| == 2 && |results| == 2 && |d0.img| == |d1.img| && GoodSize(|d0.img|) && d0.taken == {}
    requires forall p :: 0 <= p < |d0.img| ==> d0.img[p] == FORMATTED
    requires NoOverrun(d0.img, saves[0].content) && SaveStep(d0, saves[0].filename, saves[0].content, d1, results[0])
    requires NoOverrun(d1.img, saves[1].content) && SaveStep(d1, saves[1].filename, saves[1].content, d2, results[1])
    ensures History([d0, d1, d2], saves, results)
  {
    hide SaveStep, NoOverrun;
    var disks := [d0, d1, d2];
    forall k | 0 <= k < 2
      ensures |disks[k].img| == |disks[0].img| && NoOverrun(disks[k].img, saves[k].content)
      ensures SaveStep(disks[k], saves[k].filename, saves[k].content, disks[k + 1], results[k])
    {
      if k == 0 {
        assert disks[k] == d0 && disks[k + 1] == d1;
      } else {
        assert disks[k] == d1 && disks[k + 1] == d2;
      }
    }
  }

  lemma SavedUnder(d: Disk, filename: bytes, content: bytes, d': Disk, r: SaveResult, stem: bytes, ext: bytes)
    requires GoodSize(|d.img|) && SaveStep(d, filename, content, d', r) && ChainFor(d.img, content) != []
    requires filename == Joined(stem, ext) && filename !in d.taken
    requires Storable(stem, ext) && |stem| <= NAME_SIZE && |ext| <= EXT_SIZE && Upper(stem) == stem && Upper(ext) == ext
    ensures r == Saved(stem, ext) && |d'.img| == |d.img| && d'.taken == d.taken + {filename}
  {
    hide ImageUpdated, ChainFor, UniqueName, Joined, Storable;
    BaseOf(stem, ext);
    NameIsFree(d.taken, filename, r.stem, r.ext);
    SameSize(d.img, d'.img, r.stem, r.ext, content);
  }

  lemma OneFileEntered(d: Disk, content: bytes, stem: bytes, ext: bytes)
    requires GoodSize(|d.img|) && 0 < |content| <= CLUSTER_BYTES
    ensures Entered([NewFile(d, content, stem, ext)]) <= 1
  {
    assert Entered([]) == 0;
    assert [NewFile(d, content, stem, ext)][..0] == [];
  }

  /** Save a under "STEM .EXT" and b under "STEM.EXT" on a new disk, and read "STEM.EXT": it is a. */
  method SaveTwins(stem: bytes, ext: bytes, a: bytes, b: bytes)
    returns (first: SaveResult, second: SaveResult, content: bytes)
    requires ShortName(stem, ext) && 0 < |a| <= CLUSTER_BYTES && 0 < |b| <= CLUSTER_BYTES
    ensures first == Saved(stem + [SPACE], ext) && second == Saved(stem, ext) && content == Padded(a)
  {
    hide SaveStep, NoOverrun, Inv, ReadFile, ChainFor, Joined, Storable, Padded, NewFile, TablesInRange, KeyOf,
      ExpectedRead;
    var disk := new FilesystemImage(860160);
    ghost var d0 := disk.View();
    FreshImage(d0);
    EmptyTables(d0.img);
    SmallFileFits(d0, [], a);
    BlankedIsStorable(stem, ext);
    var blanked := Joined(stem + [SPACE], ext);
    first := disk.SaveFile(blanked, a);
    ghost var d1 := disk.View();
    SavedUnder(d0, blanked, a, d1, first, stem + [SPACE], ext);

    SaveKeepsInv(d0, [], blanked, a, d1, first);
    ghost var f := NewFile(d0, a, first.stem, first.ext);
    assert [] + [f] == [f];
    OneFileEntered(d0, a, first.stem, first.ext);
    SmallFileFits(d1, [f], b);
    SoundIsInRange(d1, [f]);
    second := disk.SaveFile(Joined(stem, ext), b);
    ghost var d2 := disk.View();
    SavedUnder(d1, Joined(stem, ext), b, d2, second, stem, ext);

    ghost var saves, results := [Save(blanked, a), Save(Joined(stem, ext), b)], [first, second];
    TwoSaves(d0, d1, d2, saves, results);
    content := disk.ReadBack(Joined(stem, ext));
    BlankIsLost(stem, ext);
    SmallFileIsRead(d0.img, a);
    FirstOfTwinsIsRead([d0, d1, d2], saves, results, 0, 1, 2);
  }

  lemma EmptyTables(img: bytes)
    requires GoodSize(|img|) && forall p :: 0 <= p < |img| ==> img[p] == FORMATTED
    ensures TablesInRange(Directory(img), MaxCluster(|img|)) && FreeBefore(Directory(img), SLOTS) == SLOTS
  {
    var dir := Directory(img);
    forall s | 0 <= s < SLOTS ensures !Live(dir[s]) {
      assert EntryAt(img, s)[0] == img[DIR_START + ENTRY_SIZE * s];
    }
    FreeAfterTaken(dir, 0, SLOTS);
  }

  lemma SmallFileIsRead(img: bytes, a: bytes)
    requires GoodSize(|img|) && FreeBefore(Directory(img), SLOTS) == SLOTS && 0 < |a| <= CLUSTER_BYTES
    ensures ExpectedRead(img, a) == Padded(a) != []
  {
  }
}
