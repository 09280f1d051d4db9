/** What saving a file does to the image and what reading one returns
    (src/fsimage.cpp: find_file, load_dirent, read_bytes, allocate_file, save_file). */
module CpmFiles {
  import opened Bytes
  import opened CpmNames
  import opened CpmDirectory

  function Filling(n: nat): (r: bytes)
    ensures |r| == n && forall i :: 0 <= i < n ==> r[i] == FILLER
  {
    seq(n, _ => FILLER)
  }

  // ----- reading -----

  datatype Dirent = Dirent(chain: seq<nat>, size: nat)

  function Matches(e: Entry, name: bytes, ext: bytes): bool {
    NameOf(e) == name && ExtOf(e) == ext
  }

  /** The file size an extent that is not full stands for. */
  function EntrySize(e: Entry): nat {
    var extent: nat, records: nat := e[12], e[15];
    extent * 2048 * 8 + records * 128
  }

  /** load_dirent from slot s on: tables pile up until an entry that is not full. */
  function LoadDirent(dir: Dir, s: nat, name: bytes, ext: bytes): (d: Dirent)
    requires s <= SLOTS
    decreases SLOTS - s
  {
    if s == SLOTS then Dirent([], 0)
    else if Live(dir[s]) && Matches(dir[s], name, ext) then
      if dir[s][15] != 0x80 then Dirent(Fats(dir[s]), EntrySize(dir[s]))
      else
        var rest := LoadDirent(dir, s + 1, name, ext);
        Dirent(Fats(dir[s]) + rest.chain, rest.size)
    else LoadDirent(dir, s + 1, name, ext)
  }

  /** find_file's scan: the first entry of user 0 with this name. */
  function FindSlot(dir: Dir, s: nat, name: bytes, ext: bytes): (r: Option<nat>)
    requires s <= SLOTS
    ensures r.Some? ==> s <= r.value < SLOTS && dir[r.value][0] == 0 && Matches(dir[r.value], name, ext)
    ensures r.None? ==> forall k :: s <= k < SLOTS ==> !(dir[k][0] == 0 && Matches(dir[k], name, ext))
    decreases SLOTS - s
  {
    if s == SLOTS then None
    else if dir[s][0] == 0 && Matches(dir[s], name, ext) then Some(s)
    else FindSlot(dir, s + 1, name, ext)
  }

  /** The bytes of half-clusters k, k + 1, ... before the first one that is not on
      the disk, as many as are still wanted. */
  function ReadSectors(img: bytes, k: nat, count: nat, wanted: nat): (r: bytes)
    ensures |r| <= wanted
    decreases count
  {
    if count == 0 then []
    else match SectorPiece(img, k, wanted)
      case None => []
      case Some(piece) => piece + ReadSectors(img, k + 1, count - 1, wanted - |piece|)
  }

  function SectorPiece(img: bytes, k: nat, wanted: nat): (r: Option<bytes>)
    ensures r.Some? ==> |r.value| <= wanted
  {
    match MapSector(|img|, ClusterToThs(k))
    case None => None
    case Some(p) => Some(img[p..p + Min(SECTOR_SIZE, wanted)])
  }

  /** read_bytes: a zero-filled buffer of the wanted size, overwritten from its start
      until a table entry of zero. */
  function ReadChain(img: bytes, chain: seq<nat>, wanted: nat): (r: bytes)
    ensures |r| == wanted
  {
    if chain == [] || chain[0] * 2 < 2 then Zeros(wanted)
    else
      var piece := ReadSectors(img, chain[0] * 2, 2, wanted);
      piece + ReadChain(img, chain[1..], wanted - |piece|)
  }

  function ExtWithoutDot(ext: bytes): bytes {
    if ext == [] then [] else ext[1..]
  }

  /** find_file for a name and extension as they come out of their padded fields. */
  function FindByFields(dir: Dir, name: bytes, ext: bytes): (d: Dirent)
  {
    match FindSlot(dir, 0, name, ext)
    case None => Dirent([], 0)
    case Some(s) => LoadDirent(dir, 0, NameOf(dir[s]), ExtOf(dir[s]))
  }

  function FindFile(dir: Dir, filename: bytes): (d: Dirent)
  {
    var parts := SplitPath(filename);
    FindByFields(dir, RTrim(Field(parts.stem, NAME_SIZE)), RTrim(Field(ExtWithoutDot(parts.ext), EXT_SIZE)))
  }

  function ReadFile(img: bytes, filename: bytes): bytes
    requires |img| >= DIR_END
  {
    var d := FindFile(Directory(img), filename);
    if d.size != 0 then ReadChain(img, d.chain, d.size) else []
  }

  // ----- saving -----

  datatype Disk = Disk(img: bytes, taken: set<bytes>)

  datatype SaveResult =
    | Refused                         // no chain
    | NoExtension                     // ext.substr(1, 3) throws out_of_range
    | Saved(stem: bytes, ext: bytes)

  function Clusters(n: nat): nat { (n + 2047) / 2048 }

  function Extents(n: nat): nat { (n + 16383) / 16384 }

  function FreeBefore(dir: seq<Entry>, s: nat): (r: nat)
    requires s <= |dir|
    ensures r <= s
  {
    if s == 0 then 0 else FreeBefore(dir, s - 1) + if Live(dir[s - 1]) then 0 else 1
  }

  /** Extent e of a file of n bytes stored in the chain. */
  function ExtentEntry(stem: bytes, ext: bytes, n: nat, chain: seq<nat>, e: nat): (r: Entry)
    requires e < SLOTS && e < Extents(n)
  {
    MakeEntry(stem, ext, e, Min(0x80, (n - 16384 * e + 127) / 128), ExtentFats(n, chain, e))
  }

  function ExtentFats(n: nat, chain: seq<nat>, e: nat): (r: seq<nat>)
    ensures |r| == 8
  {
    seq(8, i requires 0 <= i < 8 => if 8 * e + i < Clusters(n) && 8 * e + i < |chain| then chain[8 * e + i] else 0)
  }

  /** The directory after allocate_file: the e-th free slot holds extent e. */
  function NewEntry(dir: Dir, stem: bytes, ext: bytes, n: nat, chain: seq<nat>, s: nat): Entry
    requires s < SLOTS
  {
    var e := FreeBefore(dir, s);
    if Live(dir[s]) || e >= Extents(n) then dir[s] else ExtentEntry(stem, ext, n, chain, e)
  }

  /** Cluster j of the content, filled up with 0x1A. */
  function PaddedCluster(content: bytes, j: nat): (r: bytes)
    ensures |r| == CLUSTER_BYTES
  {
    seq(CLUSTER_BYTES, i requires 0 <= i < CLUSTER_BYTES =>
      if CLUSTER_BYTES * j + i < |content| then content[CLUSTER_BYTES * j + i] else FILLER)
  }

  /** The writer fills one cluster even for an empty file. */
  function Written(n: nat): nat { if n == 0 then 1 else Clusters(n) }

  ghost predicate UniqueName(taken: set<bytes>, filename: bytes, stem: bytes, ext: bytes)
    requires SplitPath(filename).ext != []
  {
    && ext == BaseExt(filename)
    && exists round: nat ::
         && round <= |taken| + 1
         && stem == CandidateStem(BaseStem(filename), round)
         && FirstFreeRound(taken, BaseStem(filename), BaseExt(filename), round)
  }

  function ClusterOf(p: nat): nat
    requires p >= DIR_START
  {
    (p - DIR_START) / CLUSTER_BYTES
  }

  /** The whole new image: the directory, the clusters of the chain, and nothing else. */
  ghost predicate ImageUpdated(img: bytes, img': bytes, stem: bytes, ext: bytes, content: bytes, chain: seq<nat>)
    requires |img| >= DIR_END
  {
    && |img'| == |img|
    && (forall s :: 0 <= s < SLOTS ==> EntryAt(img', s) == NewEntry(Directory(img), stem, ext, |content|, chain, s))
    && Written(|content|) <= |chain|
    && (forall j :: 0 <= j < Written(|content|) ==>
          |img'| >= DIR_START + CLUSTER_BYTES * (chain[j] + 1)
            && ClusterAt(img', chain[j]) == PaddedCluster(content, j))
    && (forall p :: 0 <= p < |img| && Untouched(chain[..Written(|content|)], p) ==> img'[p] == img[p])
  }

  /** Bytes outside the directory and outside the clusters of the chain. */
  ghost predicate Untouched(chain: seq<nat>, p: nat) {
    p < DIR_START || (p >= DIR_END && ClusterOf(p) !in chain)
  }

  ghost function ChainFor(img: bytes, content: bytes): seq<nat>
    requires GoodSize(|img|)
  {
    AvailableChain(Directory(img), MaxCluster(|img|), Clusters(|content|))
  }

  /** allocate_file reads past the end of a chain that is too short. */
  ghost predicate NoOverrun(img: bytes, content: bytes)
    requires GoodSize(|img|)
  {
    var chain := ChainFor(img, content);
    chain == [] || |chain| >= Clusters(|content|)
  }

  /** One save_file, from disk d to disk d'. */
  ghost predicate SaveStep(d: Disk, filename: bytes, content: bytes, d': Disk, r: SaveResult)
    requires GoodSize(|d.img|)
  {
    var chain := ChainFor(d.img, content);
    if chain == [] then r == Refused && d' == d
    else if SplitPath(filename).ext == [] then r == NoExtension && d' == d
    else
      && r.Saved?
      && UniqueName(d.taken, filename, r.stem, r.ext)
      && d'.taken == d.taken + {Joined(r.stem, r.ext)}
      && ImageUpdated(d.img, d'.img, r.stem, r.ext, content, chain)
  }
}
