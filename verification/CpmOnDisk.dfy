/** What a saved file looks like on the disk, byte by byte (src/fsimage.h, MDHeader). */
module CpmOnDisk {
  import opened Bytes
  import opened CpmNames
  import opened CpmDirectory
  import opened CpmFiles
  import opened CpmHistory
  import opened CpmReading

  /** Byte i of a name field: the name's character, a small letter as its capital, or a blank. */
  function NameByte(s: bytes, i: nat): byte {
    if i >= |s| then 32 else if 97 <= s[i] <= 122 then s[i] - 32 else s[i]
  }

  /** The 32 bytes of a live entry of user 0: name and extension, extent e, the count of 128-byte
      records, and eight cluster numbers, low byte first. */
  ghost predicate EntryBytes(r: bytes, f: File, e: nat) {
    && |r| == 32 && r[0] == 0 && (forall i :: 0 <= i < 8 ==> r[1 + i] == NameByte(f.stem, i))
    && (forall i :: 0 <= i < 3 ==> r[9 + i] == NameByte(f.ext, i))
    && r[12] == e && r[13] == 0 && r[14] == 0 && r[15] == RecordsLeft(|f.content|, e)
    && forall i :: 0 <= i < 8 ==> (r[16 + 2 * i] as int) + 256 * (r[17 + 2 * i] as int) == Place(f, 8 * e + i)
  }

  /** Extent e stands in its slot of the directory at 0xA000. */
  ghost predicate InDirectory(img: bytes, f: File, e: nat) {
    var p := 0xa000 + 32 * (f.start + e);
    p + 32 <= |img| && EntryBytes(img[p..p + 32], f, e)
  }

  /** The 128-byte records of extent e of n bytes, at most 128. */
  function RecordsLeft(n: nat, e: nat): nat {
    if n >= 16384 * (e + 1) then 128 else if n <= 16384 * e then 0 else (n - 16384 * e + 127) / 128
  }

  /** The cluster of the j-th 2048 bytes, 0 behind the end. */
  function Place(f: File, j: nat): nat { if 2048 * j < |f.content| && j < |f.chain| then f.chain[j] else 0 }

  lemma ExtentOnDisk(img: bytes, f: File, e: nat)
    requires GoodSize(|img|) && FileOk(img, f) && e < f.entered
    ensures InDirectory(img, f, e)
  {
    hide DataOk, EntryBytes, ExtentOf;
    assert EntryAt(img, f.start + e) == ExtentOf(f, e);
    ExtentBytes(f, e);
  }

  lemma ExtentBytes(f: File, e: nat)
    requires e < SLOTS && e < Extents(|f.content|) && forall j :: 0 <= j < |f.chain| ==> f.chain[j] < 0x1_0000
    ensures EntryBytes(ExtentOf(f, e), f, e)
  {
    hide ExtentOf, NameByte, RecordsLeft, Place;
    FieldsOfExtent(f, e);
    forall i | 0 <= i < 8
      ensures (ExtentOf(f, e)[16 + 2 * i] as int) + 256 * (ExtentOf(f, e)[17 + 2 * i] as int) == Place(f, 8 * e + i)
    {
      TablePlace(f, e, i);
    }
  }

  lemma FieldsOfExtent(f: File, e: nat)
    requires e < SLOTS && e < Extents(|f.content|)
    ensures var r := ExtentOf(f, e);
      && r[0] == 0 && r[12] == e && r[13] == 0 && r[14] == 0 && r[15] == RecordsLeft(|f.content|, e)
      && (forall i :: 0 <= i < 8 ==> r[1 + i] == NameByte(f.stem, i))
      && (forall i :: 0 <= i < 3 ==> r[9 + i] == NameByte(f.ext, i))
  {
    hide ExtentFats;
  }

  lemma TablePlace(f: File, e: nat, i: nat)
    requires e < SLOTS && e < Extents(|f.content|) && i < 8
    requires forall j :: 0 <= j < |f.chain| ==> f.chain[j] < 0x1_0000
    ensures var r := ExtentOf(f, e); (r[16 + 2 * i] as int) + 256 * (r[17 + 2 * i] as int) == Place(f, 8 * e + i)
  {
    hide MakeEntry;
    var fats := ExtentFats(|f.content|, f.chain, e);
    MakeEntryFat(f.stem, f.ext, e, Min(0x80, (|f.content| - 16384 * e + 127) / 128), fats, i);
    ClusterHolds(|f.content|, 8 * e + i);
  }

  lemma ClusterHolds(n: nat, j: nat)
    ensures j < Clusters(n) <==> 2048 * j < n
  {
  }

  /** Byte x of a file stands in its cluster, 0x1A behind the end of the file. */
  lemma ByteOnDisk(img: bytes, f: File, x: nat)
    requires GoodSize(|img|) && FileOk(img, f) && x / 2048 < f.Stored()
    ensures x / 2048 < |f.chain|
    ensures var p := 0xa000 + 2048 * f.chain[x / 2048] + x % 2048;
      p < |img| && img[p] == if x < |f.content| then f.content[x] else 0x1a
  {
    hide EntriesOk;
    var j := x / 2048;
    assert ClusterAt(img, f.chain[j]) == PaddedCluster(f.content, j);
    assert ClusterAt(img, f.chain[j])[x % 2048] == PaddedCluster(f.content, j)[x % 2048];
  }

  /** The file that save k returned is laid out so at any later time. */
  lemma SavedOnDisk(disks: seq<Disk>, saves: seq<Save>, results: seq<SaveResult>, k: nat, m: nat) returns (f: File)
    requires History(disks, saves, results) && k < m <= |saves| && results[k].Saved?
    ensures GoodSize(|disks[m].img|) && FileOk(disks[m].img, f)
    ensures f.content == saves[k].content && (f.stem, f.ext) == (results[k].stem, results[k].ext)
    ensures forall e :: 0 <= e < f.entered ==> InDirectory(disks[m].img, f, e)
  {
    hide FileOk, InDirectory, NewFile, SaveStep, NoOverrun, Apart, Laid;
    HistoryInv(disks, saves, results, m);
    FilePlace(disks, saves, results, k, m);
    f := Files(disks, saves, results, m)[|Files(disks, saves, results, k)|];
    NewFileParts(disks[k], saves[k].content, results[k].stem, results[k].ext);
    forall e | 0 <= e < f.entered
      ensures InDirectory(disks[m].img, f, e)
    {
      ExtentOnDisk(disks[m].img, f, e);
    }
  }

  lemma NewFileParts(d: Disk, content: bytes, stem: bytes, ext: bytes)
    requires GoodSize(|d.img|)
    ensures var f := NewFile(d, content, stem, ext); f.content == content && f.stem == stem && f.ext == ext
  {
  }
}
