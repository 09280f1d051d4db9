/** Reading back what a history of saves stored. */
module CpmReading {
  import opened Bytes
  import opened CpmNames
  import opened CpmDirectory
  import opened CpmFiles
  import opened CpmHistory

  function PaddedSize(n: nat): nat { 128 * ((n + 127) / 128) }

  /** The content filled up with 0x1A to whole 128-byte records. */
  function Padded(content: bytes): (r: bytes)
    ensures |r| == PaddedSize(|content|)
  {
    seq(PaddedSize(|content|), i requires 0 <= i < PaddedSize(|content|) =>
      if i < |content| then content[i] else FILLER)
  }

  /** Every extent got its slot, and the last one is not full: a reader finds the end of the file. */
  predicate Ends(f: File) {
    |f.content| > 0 && f.entered == Extents(|f.content|) && (|f.content| + 127) / 128 % 128 != 0
  }

  // ----- the entries of one file -----

  /** The table places of a file from place j on. */
  function Places(f: File, j: nat): (r: seq<nat>)
    requires j <= 8 * f.entered
    ensures |r| == 8 * f.entered - j
  {
    seq(8 * f.entered - j, k requires 0 <= k < 8 * f.entered - j =>
      if j + k < Clusters(|f.content|) && j + k < |f.chain| then f.chain[j + k] else 0)
  }

  lemma PlacesStep(f: File, e: nat)
    requires e < f.entered
    ensures Places(f, 8 * e) == ExtentFats(|f.content|, f.chain, e) + Places(f, 8 * e + 8)
  {
  }

  /** Only a last extent can have fewer than 128 records. */
  lemma ExtentRecords(n: nat, e: nat)
    requires e < Extents(n)
    ensures var records := Min(0x80, (n - 16384 * e + 127) / 128);
      && (records != 0x80 <==> e + 1 == Extents(n) && (n + 127) / 128 % 128 != 0)
      && (records != 0x80 ==> e * 2048 * 8 + records * 128 == PaddedSize(n))
  {
    var records := (n - 16384 * e + 127) / 128;
    assert records == (n + 127) / 128 - 128 * e;
    if e + 1 == Extents(n) {
      assert 0 < records <= 128;
    }
  }

  /** load_dirent from extent e of a file on: past it when the name differs or its end is not found. */
  ghost predicate LoadsFrom(dir: Dir, f: File, key: Key, e: nat)
    requires e <= f.entered && f.start + f.entered <= SLOTS
  {
    var rest := LoadDirent(dir, f.start + f.entered, key.name, key.ext);
    LoadDirent(dir, f.start + e, key.name, key.ext) ==
      if key != f.Key() then rest
      else if Ends(f) && e < f.entered then Dirent(Places(f, 8 * e), PaddedSize(|f.content|))
      else Dirent(Places(f, 8 * e) + rest.chain, rest.size)
  }

  lemma {:induction false} FileLoads(img: bytes, f: File, key: Key, e: nat)
    requires GoodSize(|img|) && FileOk(img, f) && e <= f.entered
    ensures LoadsFrom(Directory(img), f, key, e)
    decreases f.entered - e
  {
    hide FileOk, LoadsFrom, LoadDirent;
    FileFits(img, f);
    if e == f.entered {
      NothingLoads(Directory(img), f, key);
    } else {
      FileLoads(img, f, key, e + 1);
      EntryLoads(img, f, key, e);
    }
  }

  lemma FileFits(img: bytes, f: File)
    requires GoodSize(|img|) && FileOk(img, f)
    ensures f.entered <= Extents(|f.content|) && f.start + f.entered <= SLOTS
  {
  }

  lemma NothingLoads(dir: Dir, f: File, key: Key)
    requires f.start + f.entered <= SLOTS
    ensures LoadsFrom(dir, f, key, f.entered)
  {
    var rest := LoadDirent(dir, f.start + f.entered, key.name, key.ext);
    assert [] + rest.chain == rest.chain;
  }

  lemma EntryLoads(img: bytes, f: File, key: Key, e: nat)
    requires GoodSize(|img|) && FileOk(img, f) && e < f.entered && f.start + f.entered <= SLOTS
    requires LoadsFrom(Directory(img), f, key, e + 1)
    ensures LoadsFrom(Directory(img), f, key, e)
  {
    hide FileOk, KeyOf, Places, ExtentFats, PaddedSize, NameOf, ExtOf, Fats, EntryAt;
    FileFits(img, f);
    StoredFields(img, f, e);
    ExtentRecords(|f.content|, e);
    PlacesStep(f, e);
    var rest := LoadDirent(Directory(img), f.start + f.entered, key.name, key.ext);
    Assoc(ExtentFats(|f.content|, f.chain, e), Places(f, 8 * e + 8), rest.chain);
    if e + 1 == f.entered {
      assert Places(f, 8 * e + 8) == [];
      assert ExtentFats(|f.content|, f.chain, e) + [] == ExtentFats(|f.content|, f.chain, e);
    }
  }

  // ----- the entries of all files with one key -----

  /** The tables and size that a key stands for: those of its files in the order of their saves, up to
      the first whose end is found. */
  function KeyLoad(files: seq<File>, key: Key, i: nat): Dirent
    requires i <= |files|
    decreases |files| - i
  {
    if i == |files| then Dirent([], 0)
    else if files[i].Key() != key then KeyLoad(files, key, i + 1)
    else if Ends(files[i]) then Dirent(Places(files[i], 0), PaddedSize(|files[i].content|))
    else
      var rest := KeyLoad(files, key, i + 1);
      Dirent(Places(files[i], 0) + rest.chain, rest.size)
  }

  lemma {:induction false} FreeLoads(dir: Dir, s: nat, key: Key)
    requires s <= SLOTS && forall t :: s <= t < SLOTS ==> !Live(dir[t])
    ensures LoadDirent(dir, s, key.name, key.ext) == Dirent([], 0)
    decreases SLOTS - s
  {
    if s < SLOTS {
      FreeLoads(dir, s + 1, key);
    }
  }

  lemma {:induction false} FilesLoad(d: Disk, files: seq<File>, key: Key, i: nat)
    requires Inv(d, files) && i <= |files|
    ensures GoodSize(|d.img|) && Entered(files[..i]) <= SLOTS
    ensures LoadDirent(Directory(d.img), Entered(files[..i]), key.name, key.ext) == KeyLoad(files, key, i)
    decreases |files| - i
  {
    hide FileOk, LoadDirent, Places, PaddedSize, Ends, Apart, EntryAt;
    if i == |files| {
      assert files[..i] == files;
      FreeLoads(Directory(d.img), Entered(files), key);
    } else {
      var f := files[i];
      FilesLoad(d, files, key, i + 1);
      assert files[..i + 1][..i] == files[..i];
      assert f.start + f.entered == Entered(files[..i + 1]);
      FileFits(d.img, f);
      FileLoads(d.img, f, key, 0);
      NoEntries(f);
    }
  }

  lemma NoEntries(f: File)
    ensures Ends(f) ==> f.entered > 0
  {
  }

  /** A size is found only for a file of that key that has an entry. */
  lemma {:induction false} KeyLoadHits(files: seq<File>, key: Key, i: nat) returns (k: nat)
    requires i <= |files| && KeyLoad(files, key, i).size > 0
    ensures i <= k < |files| && files[k].Key() == key && Ends(files[k])
    decreases |files| - i
  {
    if files[i].Key() == key && Ends(files[i]) {
      k := i;
    } else {
      k := KeyLoadHits(files, key, i + 1);
    }
  }

  /** find_file for a name of the history. */
  lemma FindLoads(d: Disk, files: seq<File>, stem: bytes, ext: bytes)
    requires Inv(d, files) && Storable(stem, ext)
    ensures GoodSize(|d.img|)
    ensures var r, load := FindFile(Directory(d.img), Joined(stem, ext)), KeyLoad(files, KeyOf(stem, ext), 0);
      r == load || (r.size == 0 && load.size == 0)
  {
    hide Inv, LoadDirent, KeyLoad, RTrim, SplitPath, Entered;
    InvSize(d, files);
    var dir, key := Directory(d.img), KeyOf(stem, ext);
    SplitJoined(stem, ext);
    assert ExtWithoutDot([DOT] + ext) == ext;
    FilesLoad(d, files, key, 0);
    NoFiles(files);
    if FindSlot(dir, 0, key.name, key.ext).None? && KeyLoad(files, key, 0).size > 0 {
      var k := KeyLoadHits(files, key, 0);
      FirstEntry(d, files, k);
    }
  }

  lemma NoFiles(files: seq<File>)
    ensures Entered(files[..0]) == 0
  {
  }

  lemma FirstEntry(d: Disk, files: seq<File>, k: nat)
    requires Inv(d, files) && k < |files| && Ends(files[k])
    ensures GoodSize(|d.img|) && files[k].start < SLOTS
    ensures var r, key := EntryAt(d.img, files[k].start), files[k].Key();
      r[0] == 0 && Matches(r, key.name, key.ext)
  {
    hide EntryAt, NameOf, ExtOf, KeyOf, Laid, Apart;
    FileFits(d.img, files[k]);
    StoredFields(d.img, files[k], 0);
  }

  // ----- the bytes behind the tables -----

  /** Clusters j to n of a content, filled up with 0x1A. */
  function Clustered(content: bytes, j: nat, n: nat): (r: bytes)
    ensures |r| == if j < n then CLUSTER_BYTES * (n - j) else 0
    decreases n - j
  {
    if j >= n then [] else PaddedCluster(content, j) + Clustered(content, j + 1, n)
  }

  /** Table entries: zero, or a cluster on the disk. */
  ghost predicate OnDisk(size: nat, chain: seq<nat>)
    requires GoodSize(size)
  {
    forall k :: 0 <= k < |chain| ==> chain[k] == 0 || 2 <= chain[k] < MaxCluster(size)
  }

  /** The clusters of a chain up to a zero. */
  function ClustersOf(img: bytes, chain: seq<nat>): bytes
    requires GoodSize(|img|) && OnDisk(|img|, chain)
  {
    if chain == [] || chain[0] == 0 then []
    else
      MaxClusterFits(|img|);
      ClusterAt(img, chain[0]) + ClustersOf(img, chain[1..])
  }

  /** A cluster in range is read whole, or as far as bytes are wanted. */
  lemma ReadOneCluster(img: bytes, c: nat, wanted: nat)
    requires GoodSize(|img|) && c < MaxCluster(|img|)
    ensures |img| >= DIR_START + CLUSTER_BYTES * (c + 1)
    ensures ReadSectors(img, 2 * c, 2, wanted) == ClusterAt(img, c)[..Min(CLUSTER_BYTES, wanted)]
  {
    hide SectorPiece, ReadSectors;
    MaxClusterFits(|img|);
    var p := DIR_START + CLUSTER_BYTES * c;
    var first := Min(SECTOR_SIZE, wanted);
    var second := Min(SECTOR_SIZE, wanted - first);
    PieceAt(img, 2 * c, wanted);
    PieceAt(img, 2 * c + 1, wanted - first);
    ReadTwoSectors(img, 2 * c, wanted, img[p..p + first], img[p + 1024..p + 1024 + second]);
    TwoSectors(img, p, wanted);
  }

  lemma ReadTwoSectors(img: bytes, k: nat, wanted: nat, first: bytes, second: bytes)
    requires SectorPiece(img, k, wanted) == Some(first) && SectorPiece(img, k + 1, wanted - |first|) == Some(second)
    ensures ReadSectors(img, k, 2, wanted) == first + second
  {
    hide SectorPiece;
    ReadOneSector(img, k + 1, wanted - |first|, second);
  }

  lemma ReadOneSector(img: bytes, k: nat, wanted: nat, piece: bytes)
    requires SectorPiece(img, k, wanted) == Some(piece)
    ensures ReadSectors(img, k, 1, wanted) == piece
  {
    hide SectorPiece;
    assert piece + [] == piece;
  }

  lemma TwoSectors(img: bytes, p: nat, wanted: nat)
    requires p + CLUSTER_BYTES <= |img|
    ensures var first := Min(SECTOR_SIZE, wanted);
      img[p..p + first] + img[p + 1024..p + 1024 + Min(SECTOR_SIZE, wanted - first)]
      == img[p..p + CLUSTER_BYTES][..Min(CLUSTER_BYTES, wanted)]
  {
  }

  lemma PieceAt(img: bytes, k: nat, wanted: nat)
    requires DIR_START + 1024 * k + 1024 < |img|
    ensures var p := DIR_START + 1024 * k; SectorPiece(img, k, wanted) == Some(img[p..p + Min(SECTOR_SIZE, wanted)])
  {
    hide MapSector, ClusterToThs;
    SectorAddress(|img|, k);
  }

  /** n bytes of data, zeros where there are none. */
  function Delivered(data: bytes, n: nat): bytes {
    if n <= |data| then data[..n] else data + Zeros(n - |data|)
  }

  /** Reading a chain yields the wanted bytes of its clusters, zeros behind them. */
  lemma {:induction false} ReadChainIs(img: bytes, chain: seq<nat>, wanted: nat)
    requires GoodSize(|img|) && OnDisk(|img|, chain)
    ensures var data := ClustersOf(img, chain);
      ReadChain(img, chain, wanted) == Delivered(data, wanted)
  {
    hide ReadSectors, ClusterAt, Delivered;
    NothingDelivered(wanted);
    if chain == [] || chain[0] == 0 {
    } else {
      var m := Min(CLUSTER_BYTES, wanted);
      ReadOneCluster(img, chain[0], wanted);
      var cluster, rest := ClusterAt(img, chain[0]), ClustersOf(img, chain[1..]);
      ReadChainIs(img, chain[1..], wanted - m);
      TakeAcross(cluster, rest, wanted);
    }
  }

  lemma TakeAcross(a: bytes, b: bytes, n: nat)
    ensures var m := Min(|a|, n); Delivered(a + b, n) == a[..m] + Delivered(b, n - m)
  {
  }

  lemma NothingDelivered(n: nat)
    ensures Delivered([], n) == Zeros(n)
  {
  }

  lemma FirstPlace(f: File, j: nat)
    requires j < 8 * f.entered
    ensures var v := if j < Clusters(|f.content|) && j < |f.chain| then f.chain[j] else 0;
      Places(f, j) == [v] + Places(f, j + 1)
  {
  }

  lemma ClustersOfNext(img: bytes, c: nat, tail: seq<nat>)
    requires GoodSize(|img|) && OnDisk(|img|, tail) && 2 <= c < MaxCluster(|img|)
    ensures |img| >= DIR_START + CLUSTER_BYTES * (c + 1) && OnDisk(|img|, [c] + tail)
    ensures ClustersOf(img, [c] + tail) == ClusterAt(img, c) + ClustersOf(img, tail)
  {
    hide ClusterAt;
    MaxClusterFits(|img|);
    assert ([c] + tail)[1..] == tail;
  }

  lemma NextPadded(content: bytes, j: nat, n: nat)
    requires j < n
    ensures Clustered(content, j, n) == PaddedCluster(content, j) + Clustered(content, j + 1, n)
  {
  }

  /** The places of a file whose tables have no zero, and whatever follows them. */
  lemma {:induction false} PlacesData(img: bytes, f: File, j: nat, rest: seq<nat>)
    requires GoodSize(|img|) && ChainOk(|img|, f) && DataOk(img, f) && OnDisk(|img|, rest)
    requires j <= 8 * f.entered <= Clusters(|f.content|)
    ensures OnDisk(|img|, Places(f, j) + rest)
    ensures ClustersOf(img, Places(f, j) + rest) == Clustered(f.content, j, 8 * f.entered) + ClustersOf(img, rest)
    decreases 8 * f.entered - j
  {
    hide ClusterAt, PaddedCluster, Places, Clustered, ClustersOf, OnDisk;
    var last := 8 * f.entered;
    if j == last {
      NoPlaces(f, rest);
      assert Clustered(f.content, j, last) == [];
    } else {
      var tail := Places(f, j + 1) + rest;
      PlacesData(img, f, j + 1, rest);
      FirstPlace(f, j);
      Assoc([f.chain[j]], Places(f, j + 1), rest);
      ClustersOfNext(img, f.chain[j], tail);
      NextPadded(f.content, j, last);
      Assoc(PaddedCluster(f.content, j), Clustered(f.content, j + 1, last), ClustersOf(img, rest));
    }
  }

  lemma NoPlaces(f: File, rest: seq<nat>)
    ensures Places(f, 8 * f.entered) + rest == rest
  {
  }

  /** The places of a file that has all its clusters in its tables. */
  lemma {:induction false} LastPlacesData(img: bytes, f: File, j: nat)
    requires GoodSize(|img|) && ChainOk(|img|, f) && DataOk(img, f)
    requires j <= Clusters(|f.content|) <= 8 * f.entered
    ensures OnDisk(|img|, Places(f, j))
    ensures ClustersOf(img, Places(f, j)) == Clustered(f.content, j, Clusters(|f.content|))
    decreases Clusters(|f.content|) - j
  {
    hide ClusterAt, PaddedCluster;
    if j < Clusters(|f.content|) {
      LastPlacesData(img, f, j + 1);
      assert Places(f, j)[1..] == Places(f, j + 1);
      assert ClusterAt(img, f.chain[j]) == PaddedCluster(f.content, j);
    }
  }

  /** The bytes that a key's tables lead to. */
  function KeyData(files: seq<File>, key: Key, i: nat): bytes
    requires i <= |files|
    decreases |files| - i
  {
    if i == |files| then []
    else if files[i].Key() != key then KeyData(files, key, i + 1)
    else if Ends(files[i]) then Clustered(files[i].content, 0, Clusters(|files[i].content|))
    else Clustered(files[i].content, 0, 8 * files[i].entered) + KeyData(files, key, i + 1)
  }

  lemma FileCounts(img: bytes, f: File)
    requires GoodSize(|img|) && FileOk(img, f)
    ensures ChainOk(|img|, f) && DataOk(img, f)
    ensures Ends(f) ==> Clusters(|f.content|) <= 8 * f.entered
    ensures !Ends(f) ==> 8 * f.entered <= Clusters(|f.content|)
  {
    var n := |f.content|;
    if !Ends(f) && f.entered == Extents(n) && n > 0 {
      ExtentRecords(n, Extents(n) - 1);
    }
  }

  lemma {:induction false} KeyLoadData(d: Disk, files: seq<File>, key: Key, i: nat)
    requires Inv(d, files) && i <= |files|
    ensures var load := KeyLoad(files, key, i);
      GoodSize(|d.img|) && OnDisk(|d.img|, load.chain) && ClustersOf(d.img, load.chain) == KeyData(files, key, i)
    decreases |files| - i
  {
    hide Inv, Ends, Places, OnDisk, ClustersOf, Clustered, PaddedSize, KeyOf;
    InvSize(d, files);
    if i == |files| {
      NothingOnDisk(d.img);
    } else {
      KeyLoadData(d, files, key, i + 1);
      FileData(d, files, i, KeyLoad(files, key, i + 1).chain);
    }
  }

  lemma FileData(d: Disk, files: seq<File>, i: nat, rest: seq<nat>)
    requires Inv(d, files) && i < |files| && GoodSize(|d.img|) && OnDisk(|d.img|, rest)
    ensures var f := files[i];
      var chain := if Ends(f) then Places(f, 0) else Places(f, 0) + rest;
      && OnDisk(|d.img|, chain)
      && ClustersOf(d.img, chain) ==
        if Ends(f) then Clustered(f.content, 0, Clusters(|f.content|))
        else Clustered(f.content, 0, 8 * f.entered) + ClustersOf(d.img, rest)
  {
    hide Ends, Places, OnDisk, ClustersOf, Clustered, Laid, Apart, ChainOk, DataOk, EntriesOk;
    var f := files[i];
    FileCounts(d.img, f);
    if Ends(f) {
      LastPlacesData(d.img, f, 0);
    } else {
      PlacesData(d.img, f, 0, rest);
    }
  }

  lemma {:induction false} KeySizeFits(files: seq<File>, key: Key, i: nat)
    requires i <= |files|
    ensures KeyLoad(files, key, i).size <= |KeyData(files, key, i)|
    decreases |files| - i
  {
    hide Ends, Places, KeyOf, Clustered, Padded, PaddedSize;
    if i < |files| {
      KeySizeFits(files, key, i + 1);
      ClusteredIsPadded(files[i].content);
    }
  }

  lemma NothingOnDisk(img: bytes)
    requires GoodSize(|img|)
    ensures OnDisk(|img|, []) && ClustersOf(img, []) == []
  {
  }

  // ----- reading by name -----

  /** What reading a key returns: as many bytes as the first file of that key whose end is found is
      long, taken from the clusters of the key's files in the order of their saves up to it; nothing
      when no end is found. */
  function KeyRead(files: seq<File>, key: Key): bytes {
    var data, size := KeyData(files, key, 0), KeyLoad(files, key, 0).size;
    if 0 < size <= |data| then data[..size] else []
  }

  /** Every name read from a disk with a history, whether it was ever saved or not. */
  lemma ReadByKey(d: Disk, files: seq<File>, stem: bytes, ext: bytes)
    requires Inv(d, files) && Storable(stem, ext)
    ensures GoodSize(|d.img|) && ReadFile(d.img, Joined(stem, ext)) == KeyRead(files, KeyOf(stem, ext))
  {
    hide Inv, FindFile, KeyLoad, KeyData, KeyOf, ReadChain, ClustersOf, OnDisk;
    FindLoads(d, files, stem, ext);
    KeyLoadData(d, files, KeyOf(stem, ext), 0);
    KeySizeFits(files, KeyOf(stem, ext), 0);
    var load := KeyLoad(files, KeyOf(stem, ext), 0);
    if load.size > 0 {
      ReadChainIs(d.img, load.chain, load.size);
    }
  }

  lemma {:induction false} ClusteredAt(content: bytes, j: nat, n: nat, p: nat)
    requires p < |Clustered(content, j, n)|
    ensures var q := CLUSTER_BYTES * j + p;
      Clustered(content, j, n)[p] == if q < |content| then content[q] else FILLER
    decreases n - j
  {
    hide Clustered;
    assert j < n;
    NextPadded(content, j, n);
    var first, rest := PaddedCluster(content, j), Clustered(content, j + 1, n);
    if p < CLUSTER_BYTES {
      assert (first + rest)[p] == first[p];
    } else {
      assert (first + rest)[p] == rest[p - CLUSTER_BYTES];
      ClusteredAt(content, j + 1, n, p - CLUSTER_BYTES);
    }
  }

  lemma ClusteredIsPadded(content: bytes)
    ensures var data := Clustered(content, 0, Clusters(|content|));
      PaddedSize(|content|) <= |data| && data[..PaddedSize(|content|)] == Padded(content)
  {
    hide Clustered, Padded, PaddedSize;
    var data := Clustered(content, 0, Clusters(|content|));
    PaddedFits(|content|);
    forall p | 0 <= p < PaddedSize(|content|) ensures data[p] == Padded(content)[p] {
      ClusteredAt(content, 0, Clusters(|content|), p);
      PaddedAt(content, p);
    }
  }

  lemma PaddedFits(n: nat)
    ensures PaddedSize(n) <= CLUSTER_BYTES * Clusters(n)
  {
    var records, clusters := (n + 127) / 128, (n + 2047) / 2048;
    assert 128 * records <= n + 127 && n <= 2048 * clusters;
    assert records <= 16 * clusters;
  }

  lemma PaddedAt(content: bytes, p: nat)
    requires p < PaddedSize(|content|)
    ensures Padded(content)[p] == if p < |content| then content[p] else FILLER
  {
  }

  /** What a file gives when its key is its own. */
  function OwnRead(f: File): bytes { if Ends(f) then Padded(f.content) else [] }

  lemma {:induction false} KeyAlone(files: seq<File>, k: nat, i: nat)
    requires i <= |files| && k < |files| && forall j :: 0 <= j < |files| && j != k ==> files[j].Key() != files[k].Key()
    ensures var f, load := files[k], KeyLoad(files, files[k].Key(), i);
      && load.size == (if i <= k && Ends(f) then PaddedSize(|f.content|) else 0)
      && (load.size > 0 ==> KeyData(files, f.Key(), i) == Clustered(f.content, 0, Clusters(|f.content|)))
    decreases |files| - i
  {
    hide Ends, KeyOf, Places, Clustered, PaddedSize;
    if i < |files| {
      KeyAlone(files, k, i + 1);
    }
    EndsPositive(files[k]);
  }

  lemma EndsPositive(f: File)
    ensures Ends(f) ==> PaddedSize(|f.content|) > 0
  {
  }

  /** A file that shares its key with no other reads back as its padded content, or as nothing when an
      extent is missing or the last one is full. */
  lemma AloneReadsOwn(files: seq<File>, k: nat)
    requires k < |files| && forall j :: 0 <= j < |files| && j != k ==> files[j].Key() != files[k].Key()
    ensures KeyRead(files, files[k].Key()) == OwnRead(files[k])
  {
    hide KeyLoad, KeyData, Ends, KeyOf, Clustered;
    KeyAlone(files, k, 0);
    EndsPositive(files[k]);
    ClusteredIsPadded(files[k].content);
  }

  /** The first file of a key, when its end is found, is what every name of that key reads. */
  lemma {:induction false} FirstIsRead(files: seq<File>, k: nat, i: nat)
    requires i <= k < |files| && Ends(files[k])
    requires forall j :: 0 <= j < k ==> files[j].Key() != files[k].Key()
    ensures var f, load := files[k], KeyLoad(files, files[k].Key(), i);
      load.size == PaddedSize(|f.content|)
      && KeyData(files, f.Key(), i) == Clustered(f.content, 0, Clusters(|f.content|))
    decreases k - i
  {
    hide Ends, KeyOf, Places, Clustered, PaddedSize;
    if i < k {
      FirstIsRead(files, k, i + 1);
    }
  }

  lemma FirstTakesKey(files: seq<File>, k: nat)
    requires k < |files| && Ends(files[k]) && forall j :: 0 <= j < k ==> files[j].Key() != files[k].Key()
    ensures KeyRead(files, files[k].Key()) == Padded(files[k].content)
  {
    hide KeyLoad, KeyData, Ends, KeyOf, Clustered;
    FirstIsRead(files, k, 0);
    EndsPositive(files[k]);
    ClusteredIsPadded(files[k].content);
  }

  // ----- histories -----

  /** The place of save k among the files of any later time. */
  lemma {:induction false} FilePlace(disks: seq<Disk>, saves: seq<Save>, results: seq<SaveResult>, k: nat, m: nat)
    requires History(disks, saves, results) && k < m <= |saves| && results[k].Saved?
    ensures var i := |Files(disks, saves, results, k)|;
      && i < |Files(disks, saves, results, m)| && GoodSize(|disks[k].img|)
      && Files(disks, saves, results, m)[i] == NewFile(disks[k], saves[k].content, results[k].stem, results[k].ext)
    decreases m
  {
    hide NewFile, SaveStep, NoOverrun;
    if k + 1 < m {
      FilePlace(disks, saves, results, k, m - 1);
    }
  }

  /** The save that a file comes from. */
  lemma {:induction false} FileOfSave(disks: seq<Disk>, saves: seq<Save>, results: seq<SaveResult>, m: nat,
                                      i: nat) returns (j: nat)
    requires History(disks, saves, results) && m <= |saves| && i < |Files(disks, saves, results, m)|
    ensures j < m && results[j].Saved? && i == |Files(disks, saves, results, j)|
  {
    hide NewFile, SaveStep, NoOverrun;
    if i < |Files(disks, saves, results, m - 1)| {
      j := FileOfSave(disks, saves, results, m - 1, i);
    } else {
      j := m - 1;
    }
  }

  lemma SavedIsStorable(disks: seq<Disk>, saves: seq<Save>, results: seq<SaveResult>, k: nat)
    requires History(disks, saves, results) && k < |saves| && results[k].Saved?
    ensures Storable(results[k].stem, results[k].ext)
  {
    hide UniqueName, SaveStep, NoOverrun, Storable;
    StepNames(disks[k], saves[k].filename, saves[k].content, disks[k + 1], results[k]);
    UniqueNamesAreStorable(disks[k].taken, saves[k].filename, results[k].stem, results[k].ext);
  }

  lemma StepNames(d: Disk, filename: bytes, content: bytes, d': Disk, r: SaveResult)
    requires GoodSize(|d.img|) && SaveStep(d, filename, content, d', r) && r.Saved?
    ensures SplitPath(filename).ext != [] && UniqueName(d.taken, filename, r.stem, r.ext)
  {
    hide UniqueName, ImageUpdated, ChainFor, SplitPath;
  }

  /** The key of the name that save k returned. */
  function KeyOfResult(r: SaveResult): Key
    requires r.Saved?
  {
    KeyOf(r.stem, r.ext)
  }

  /** The result of reading a file back, known when it is saved: the free slots decide whether all its
      extents are entered, the length whether the last one is full. */
  function ExpectedRead(img: bytes, content: bytes): bytes
    requires |img| >= DIR_END
  {
    var entered := Min(FreeBefore(Directory(img), SLOTS), Extents(|content|));
    if entered == Extents(|content|) && (|content| + 127) / 128 % 128 != 0 then Padded(content) else []
  }

  lemma NewFileReads(d: Disk, content: bytes, stem: bytes, ext: bytes)
    requires GoodSize(|d.img|)
    ensures OwnRead(NewFile(d, content, stem, ext)) == ExpectedRead(d.img, content)
  {
    hide FreeBefore, ChainFor;
  }

  /** What any saved name reads at any later time: what its key stands for among all files so far. */
  lemma NamesReadTheirKey(disks: seq<Disk>, saves: seq<Save>, results: seq<SaveResult>, k: nat, m: nat)
    requires History(disks, saves, results) && k < |saves| && m <= |saves| && results[k].Saved?
    ensures |disks[m].img| == |disks[0].img|
    ensures ReadFile(disks[m].img, Joined(results[k].stem, results[k].ext))
         == KeyRead(Files(disks, saves, results, m), KeyOfResult(results[k]))
  {
    hide Inv, ReadFile, KeyRead, Storable, KeyOf;
    HistoryInv(disks, saves, results, m);
    SavedIsStorable(disks, saves, results, k);
    ReadByKey(disks[m], Files(disks, saves, results, m), results[k].stem, results[k].ext);
  }

  /** At any later time m, the file saved by save k reads back as what was saved, filled up with 0x1A
      to whole records -- if the directory had a slot for each of its extents and its last extent is
      not full -- and as nothing otherwise, unless another save so far shares its trimmed name. */
  lemma SavedFilesReadBack(disks: seq<Disk>, saves: seq<Save>, results: seq<SaveResult>, k: nat, m: nat)
    requires History(disks, saves, results) && k < m <= |saves| && results[k].Saved?
    requires forall j :: 0 <= j < m && j != k && results[j].Saved? ==>
      KeyOfResult(results[j]) != KeyOfResult(results[k])
    ensures |disks[m].img| == |disks[0].img|
    ensures ReadFile(disks[m].img, Joined(results[k].stem, results[k].ext))
      == ExpectedRead(disks[k].img, saves[k].content)
  {
    hide KeyRead, ReadFile, NewFile, KeyOf, SaveStep, NoOverrun, Files;
    var files, i := Files(disks, saves, results, m), |Files(disks, saves, results, k)|;
    NamesReadTheirKey(disks, saves, results, k, m);
    SaveKey(disks, saves, results, k, m);
    forall x | 0 <= x < |files| && x != i ensures files[x].Key() != files[i].Key() {
      var j := FileOfSave(disks, saves, results, m, x);
      SaveKey(disks, saves, results, j, m);
    }
    AloneReadsOwn(files, i);
    NewFileReads(disks[k], saves[k].content, results[k].stem, results[k].ext);
  }

  lemma SaveKey(disks: seq<Disk>, saves: seq<Save>, results: seq<SaveResult>, k: nat, m: nat)
    requires History(disks, saves, results) && k < m <= |saves| && results[k].Saved?
    ensures var files, i := Files(disks, saves, results, m), |Files(disks, saves, results, k)|;
      && GoodSize(|disks[k].img|) && i < |files| && files[i].Key() == KeyOfResult(results[k])
      && files[i] == NewFile(disks[k], saves[k].content, results[k].stem, results[k].ext)
  {
    hide Files, SaveStep, NoOverrun, KeyOf;
    FilePlace(disks, saves, results, k, m);
    NewFileName(disks[k], saves[k].content, results[k].stem, results[k].ext);
  }

  /** Saves that share a trimmed name read as the first of them, if that one reads back at all: a later
      one is read back exactly when its own padded content happens to be the same. */
  lemma FirstOfTwinsIsRead(disks: seq<Disk>, saves: seq<Save>, results: seq<SaveResult>, j: nat, k: nat, m: nat)
    requires History(disks, saves, results) && j <= k < m <= |saves| && results[j].Saved? && results[k].Saved?
    requires KeyOfResult(results[j]) == KeyOfResult(results[k])
    requires forall i :: 0 <= i < j && results[i].Saved? ==> KeyOfResult(results[i]) != KeyOfResult(results[j])
    requires |disks[j].img| == |disks[0].img| && ExpectedRead(disks[j].img, saves[j].content) != []
    ensures |disks[m].img| == |disks[0].img|
    ensures ReadFile(disks[m].img, Joined(results[k].stem, results[k].ext)) == Padded(saves[j].content)
  {
    hide KeyRead, ReadFile, NewFile, KeyOf, SaveStep, NoOverrun, Files, ExpectedRead;
    var files, i := Files(disks, saves, results, m), |Files(disks, saves, results, j)|;
    NamesReadTheirKey(disks, saves, results, k, m);
    SaveKey(disks, saves, results, j, m);
    NewFileReads(disks[j], saves[j].content, results[j].stem, results[j].ext);
    NewFileName(disks[j], saves[j].content, results[j].stem, results[j].ext);
    forall x | 0 <= x < i ensures files[x].Key() != files[i].Key() {
      var y := FileOfSave(disks, saves, results, m, x);
      SaveKey(disks, saves, results, y, m);
      FilesGrow(disks, saves, results, j, y);
    }
    FirstTakesKey(files, i);
  }

  lemma {:induction false} FilesGrow(disks: seq<Disk>, saves: seq<Save>, results: seq<SaveResult>, a: nat, b: nat)
    requires History(disks, saves, results) && a <= |saves| && b <= |saves|
    ensures a <= b ==> |Files(disks, saves, results, a)| <= |Files(disks, saves, results, b)|
    decreases b
  {
    hide NewFile, SaveStep, NoOverrun;
    if a < b {
      FilesGrow(disks, saves, results, a, b - 1);
    }
  }

  /** A 16384-byte file fills its extent: alone under its key, it reads back as nothing. */
  lemma FullExtentIsLost(disks: seq<Disk>, saves: seq<Save>, results: seq<SaveResult>, k: nat, m: nat)
    requires History(disks, saves, results) && k < m <= |saves| && results[k].Saved?
    requires forall j :: 0 <= j < m && j != k && results[j].Saved? ==>
      KeyOfResult(results[j]) != KeyOfResult(results[k])
    requires |saves[k].content| == 16384
    ensures |disks[m].img| == |disks[0].img|
    ensures ReadFile(disks[m].img, Joined(results[k].stem, results[k].ext)) == []
  {
    hide KeyOf, SaveStep, NoOverrun, ReadFile;
    SavedFilesReadBack(disks, saves, results, k, m);
  }
}
