/** The MicroDOS disk layout on plain byte sequences: sector addresses, the 128
    directory entries at 0xA000, the cluster allocator and the reader, each
    as a function of the image (src/fsimage.cpp, src/fsimage.h). */
module CpmDirectory {
  import opened Bytes
  import opened CpmNames

  const SECTOR_SIZE: nat := 1024
  const SECTORS_CYL: nat := 10
  const CLUSTER_BYTES: nat := 2048
  const SYSTEM_TRACKS: nat := 6
  const SYSTEM_BYTES: nat := SECTORS_CYL * SECTOR_SIZE * SYSTEM_TRACKS
  const DIR_START: nat := 0xa000
  const DIR_END: nat := 0xb000
  const ENTRY_SIZE: nat := 32
  const SLOTS: nat := 128
  const FILLER: byte := 0x1a
  const FORMATTED: byte := 0xe5

  type Entry = e: bytes | |e| == 32 witness seq(32, _ => 0)
  const BLANK: Entry := seq(32, _ => 0)
  type Dir = d: seq<Entry> | |d| == 128 witness seq<Entry>(128, _ => BLANK)

  /** Images the source can work on: at least the system tracks, and cluster
      numbers that fit the 16-bit table entries. */
  predicate GoodSize(size: nat) {
    SYSTEM_BYTES <= size < SYSTEM_BYTES + 0x1_0000 * CLUSTER_BYTES
  }

  // ----- addresses -----

  datatype Ths = Ths(track: nat, head: nat, sector: nat)

  /** Byte offset of a sector; None stands for bytes.end(). */
  function MapSector(size: nat, a: Ths): (r: Option<nat>)
    requires a.sector >= 1
    ensures r.Some? ==> r.value + SECTOR_SIZE < size
  {
    var offset := a.track * SECTOR_SIZE * SECTORS_CYL + a.head * SECTOR_SIZE * (SECTORS_CYL / 2)
                  + (a.sector - 1) * SECTOR_SIZE;
    if offset + SECTOR_SIZE >= size then None else Some(offset)
  }

  function ClusterToThs(cluster: nat): (a: Ths)
    ensures a.head < 2 && 1 <= a.sector <= 5
  {
    var track := 8 + cluster / 5;
    Ths(track / 2, track % 2, 1 + cluster % 5)
  }

  /** Half-cluster k of the disk is the kilobyte at 0xA000 + 1024 * k, except that
      a sector ending at or beyond the end of the image is not found. */
  lemma SectorAddress(size: nat, k: nat)
    ensures MapSector(size, ClusterToThs(k))
         == if DIR_START + 1024 * k + 1024 >= size then None else Some(DIR_START + 1024 * k)
  {
    var t := 8 + k / 5;
    assert t == 2 * (t / 2) + t % 2;
    assert k == 5 * (k / 5) + k % 5;
  }

  function MaxCluster(size: nat): nat
    requires size >= SYSTEM_BYTES
  {
    (size - SYSTEM_BYTES) / CLUSTER_BYTES
  }

  // ----- entries -----

  function EntryAt(img: bytes, s: nat): Entry
    requires |img| >= DIR_END && s < SLOTS
  {
    img[DIR_START + ENTRY_SIZE * s..DIR_START + ENTRY_SIZE * s + ENTRY_SIZE]
  }

  function Directory(img: bytes): (d: Dir)
    requires |img| >= DIR_END
    ensures forall s :: 0 <= s < SLOTS ==> d[s] == EntryAt(img, s)
  {
    seq(SLOTS, s requires 0 <= s < SLOTS => EntryAt(img, s))
  }

  function ClusterAt(img: bytes, c: nat): (r: bytes)
    requires |img| >= DIR_START + CLUSTER_BYTES * (c + 1)
    ensures |r| == CLUSTER_BYTES
  {
    img[DIR_START + CLUSTER_BYTES * c..DIR_START + CLUSTER_BYTES * (c + 1)]
  }

  predicate Live(e: Entry) { e[0] < 0x10 }

  function NameOf(e: Entry): bytes { RTrim(e[1..9]) }

  function ExtOf(e: Entry): bytes { RTrim(e[9..12]) }

  function Fat(e: Entry, i: nat): (r: nat)
    requires i < 8
    ensures r < 0x1_0000
  {
    Word(e[16 + 2 * i], e[17 + 2 * i])
  }

  function Fats(e: Entry): (r: seq<nat>)
    ensures |r| == 8
    ensures forall i :: 0 <= i < 8 ==> r[i] == Fat(e, i)
  {
    seq(8, i requires 0 <= i < 8 => Fat(e, i))
  }

  function LowHigh(w: nat, high: bool): byte {
    if high then w / 256 % 256 else w % 256
  }

  function EntryByte(stem: bytes, ext: bytes, extent: byte, records: byte, fat: seq<nat>, k: nat): byte
    requires |fat| == 8 && k < 32
  {
    if k == 0 then 0
    else if k < 9 then Field(stem, NAME_SIZE)[k - 1]
    else if k < 12 then Field(ext, EXT_SIZE)[k - 9]
    else if k == 12 then extent
    else if k < 15 then 0
    else if k == 15 then records
    else LowHigh(fat[(k - 16) / 2], k % 2 == 1)
  }

  function MakeEntry(stem: bytes, ext: bytes, extent: byte, records: byte, fat: seq<nat>): (e: Entry)
    requires |fat| == 8
    ensures forall k :: 0 <= k < 32 ==> e[k] == EntryByte(stem, ext, extent, records, fat, k)
  {
    seq(32, k requires 0 <= k < 32 => EntryByte(stem, ext, extent, records, fat, k))
  }

  lemma MakeEntryFields(stem: bytes, ext: bytes, extent: byte, records: byte, fat: seq<nat>)
    requires |fat| == 8 && forall i :: 0 <= i < 8 ==> fat[i] < 0x1_0000
    ensures var e := MakeEntry(stem, ext, extent, records, fat);
      && e[0] == 0 && e[12] == extent && e[15] == records && Fats(e) == fat
      && e[1..9] == Field(stem, NAME_SIZE) && e[9..12] == Field(ext, EXT_SIZE)
  {
    hide MakeEntry;
    var e := MakeEntry(stem, ext, extent, records, fat);
    forall i | 0 <= i < 8 ensures Fats(e)[i] == fat[i] {
      MakeEntryFat(stem, ext, extent, records, fat, i);
    }
  }

  lemma MakeEntryFat(stem: bytes, ext: bytes, extent: byte, records: byte, fat: seq<nat>, i: nat)
    requires |fat| == 8 && i < 8 && fat[i] < 0x1_0000
    ensures Fat(MakeEntry(stem, ext, extent, records, fat), i) == fat[i]
  {
    hide MakeEntry;
    var e := MakeEntry(stem, ext, extent, records, fat);
    FatByte(stem, ext, extent, records, fat, i, false);
    FatByte(stem, ext, extent, records, fat, i, true);
    assert e[16 + 2 * i] == LowHigh(fat[i], false) && e[17 + 2 * i] == LowHigh(fat[i], true);
  }

  lemma FatByte(stem: bytes, ext: bytes, extent: byte, records: byte, fat: seq<nat>, i: nat, high: bool)
    requires |fat| == 8 && i < 8
    ensures EntryByte(stem, ext, extent, records, fat, if high then 17 + 2 * i else 16 + 2 * i) == LowHigh(fat[i], high)
  {
  }

  // ----- the allocator -----

  function LiveCount(dir: seq<Entry>): (n: nat)
    ensures n <= |dir|
  {
    if dir == [] then 0
    else LiveCount(dir[..|dir| - 1]) + if Live(dir[|dir| - 1]) then 1 else 0
  }

  ghost function FatSet(e: Entry): set<nat> {
    set i | 0 <= i < 8 :: Fat(e, i)
  }

  /** Every number in a table of a live entry, the zero of unused places included. */
  ghost function UsedClusters(dir: seq<Entry>): set<nat> {
    if dir == [] then {}
    else UsedClusters(dir[..|dir| - 1]) + if Live(dir[|dir| - 1]) then FatSet(dir[|dir| - 1]) else {}
  }

  /** The free clusters of [lo, hi) in ascending order. */
  ghost function FreeList(used: set<nat>, lo: nat, hi: nat): (r: seq<nat>)
    decreases hi - lo
  {
    if lo >= hi then []
    else if lo in used then FreeList(used, lo + 1, hi)
    else [lo] + FreeList(used, lo + 1, hi)
  }

  /** What build_available_chain returns. The unsigned difference wraps when the
      eight-per-entry count exceeds the number of clusters, and then never
      refuses; a length of 0 never matches the growing chain, which then takes
      every free cluster. */
  ghost function AvailableChain(dir: Dir, maxc: nat, length: nat): (r: seq<nat>) {
    var counted := 8 * LiveCount(dir);
    var free := FreeList(UsedClusters(dir), 2, maxc);
    if maxc == 0 || (counted <= maxc && maxc - counted < length) then []
    else if length == 0 || |free| < length then free
    else free[..length]
  }

  /** The source indexes its used-cluster table with these numbers. */
  ghost predicate TablesInRange(dir: Dir, maxc: nat) {
    forall s, i :: 0 <= s < SLOTS && 0 <= i < 8 && Live(dir[s]) ==> Fat(dir[s], i) < maxc
  }

  lemma {:induction false} UsedClustersMembers(dir: seq<Entry>, k: nat)
    ensures k in UsedClusters(dir)
       <==> exists s, i :: 0 <= s < |dir| && 0 <= i < 8 && Live(dir[s]) && Fat(dir[s], i) == k
  {
    if dir != [] {
      var front, last := dir[..|dir| - 1], dir[|dir| - 1];
      UsedClustersMembers(front, k);
      if k in UsedClusters(front) {
        var s, i :| 0 <= s < |front| && 0 <= i < 8 && Live(front[s]) && Fat(front[s], i) == k;
        assert dir[s] == front[s];
      } else if k in UsedClusters(dir) {
        var i :| 0 <= i < 8 && Fat(last, i) == k;
        assert Live(dir[|dir| - 1]) && Fat(dir[|dir| - 1], i) == k;
      }
      if s, i :| 0 <= s < |dir| && 0 <= i < 8 && Live(dir[s]) && Fat(dir[s], i) == k {
        if s < |front| {
          assert front[s] == dir[s];
        }
      }
    }
  }

  lemma {:induction false} FreeListMembers(used: set<nat>, lo: nat, hi: nat)
    ensures forall k :: k in FreeList(used, lo, hi) <==> lo <= k < hi && k !in used
    decreases hi - lo
  {
    if lo < hi {
      FreeListMembers(used, lo + 1, hi);
    }
  }

  lemma {:induction false} FreeListAscends(used: set<nat>, lo: nat, hi: nat)
    ensures StrictlyIncreasing(FreeList(used, lo, hi))
    decreases hi - lo
  {
    if lo < hi {
      FreeListAscends(used, lo + 1, hi);
      FreeListMembers(used, lo + 1, hi);
      var rest := FreeList(used, lo + 1, hi);
      forall j | 0 <= j < |rest| ensures lo < rest[j] {
        assert rest[j] in rest;
      }
    }
  }

  /** No table entry is counted twice: at most one cluster per place. */
  lemma {:induction false} FreeListLength(used: set<nat>, lo: nat, hi: nat)
    requires lo <= hi
    ensures |FreeList(used, lo, hi)| + |used| >= hi - lo
    decreases hi - lo
  {
    if lo < hi {
      if lo in used {
        FreeListLength(used - {lo}, lo + 1, hi);
        FreeListIgnores(used, used - {lo}, lo + 1, hi);
      } else {
        FreeListLength(used, lo + 1, hi);
      }
    }
  }

  lemma {:induction false} FreeListIgnores(used: set<nat>, used': set<nat>, lo: nat, hi: nat)
    requires forall k :: lo <= k < hi ==> (k in used <==> k in used')
    ensures FreeList(used, lo, hi) == FreeList(used', lo, hi)
    decreases hi - lo
  {
    if lo < hi {
      FreeListIgnores(used, used', lo + 1, hi);
    }
  }

  lemma FatSetSize(e: Entry)
    ensures |FatSet(e)| <= 8
  {
    assert FatSet(e) == {Fat(e, 0), Fat(e, 1), Fat(e, 2), Fat(e, 3), Fat(e, 4), Fat(e, 5), Fat(e, 6), Fat(e, 7)};
  }

  lemma {:induction false} UsedClustersSize(dir: seq<Entry>)
    ensures |UsedClusters(dir)| <= 8 * LiveCount(dir)
  {
    if dir != [] {
      var front, last := dir[..|dir| - 1], dir[|dir| - 1];
      UsedClustersSize(front);
      FatSetSize(last);
      UnionSize(UsedClusters(front), FatSet(last));
    }
  }

  lemma UnionSize(a: set<nat>, b: set<nat>)
    ensures |a + b| <= |a| + |b|
  {
    assert a + b == a + (b - a);
    assert b == (b - a) + (b * a);
  }

  /** When the check lets a request through, the chain is as long as the request
      exactly when that many clusters are free; and the check can let a request
      through only to overrun the chain in the two reserved clusters or after
      its count has wrapped: counting eight clusters an entry plus the two
      reserved ones always leaves enough. */
  lemma ChainLongEnough(dir: Dir, maxc: nat, length: nat)
    requires maxc > 0 && length > 0
    ensures var counted := 8 * LiveCount(dir);
      !(counted <= maxc && maxc - counted < length) ==>
        (|AvailableChain(dir, maxc, length)| == length <==> |FreeList(UsedClusters(dir), 2, maxc)| >= length)
    ensures 8 * LiveCount(dir) + length + 2 <= maxc ==> |AvailableChain(dir, maxc, length)| == length
  {
    UsedClustersSize(dir);
    if 2 <= maxc {
      FreeListLength(UsedClusters(dir), 2, maxc);
    }
  }

  /** A chain is strictly increasing and made of clusters in range, none of them
      used and none of them the two that hold the directory. */
  lemma ChainIsFree(dir: Dir, maxc: nat, length: nat)
    ensures var chain := AvailableChain(dir, maxc, length);
      && StrictlyIncreasing(chain)
      && (forall c :: c in chain ==> 2 <= c < maxc && c !in UsedClusters(dir))
      && (length > 0 ==> |chain| <= length)
  {
    var free := FreeList(UsedClusters(dir), 2, maxc);
    FreeListMembers(UsedClusters(dir), 2, maxc);
    FreeListAscends(UsedClusters(dir), 2, maxc);
    var chain := AvailableChain(dir, maxc, length);
    assert chain == [] || chain <= free;
    forall c | c in chain ensures c in free {
    }
  }
}
