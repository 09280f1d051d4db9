/** The names that saves return (src/fsimage.cpp, unique_cpm_filename), by their characters. */
module CpmReturned {
  import opened Bytes
  import opened CpmNames
  import opened CpmDirectory
  import opened CpmFiles
  import opened CpmHistory
  import opened CpmReading

  // ----- one name -----

  /** A host path: a directory up to its last separator, a name, and what follows its last dot. */
  predicate HostPath(filename: bytes, dir: bytes, s: bytes, e: bytes) {
    && filename == dir + s + [DOT] + e
    && (dir == [] || IsSeparator(dir[|dir| - 1])) && NoSeparator(s) && NoSeparator(e) && DOT !in e
  }

  lemma HostPathSplits(filename: bytes, dir: bytes, s: bytes, e: bytes)
    requires HostPath(filename, dir, s, e)
    ensures SplitPath(filename).stem == s && SplitPath(filename).ext == [DOT] + e
  {
    CutAtSeparator(filename, dir, s, e);
    SplitJoinedName(s, e);
  }

  lemma CutAtSeparator(filename: bytes, dir: bytes, s: bytes, e: bytes)
    requires HostPath(filename, dir, s, e)
    ensures LastSeparator(filename) == |dir| - 1 && filename[|dir|..] == s + [DOT] + e
  {
    hide NoSeparator;
    var name := s + [DOT] + e;
    assert filename == dir + name;
    NameHasNoSeparator(s, e);
    SeparatorInDir(dir, name);
    assert filename[|dir|..] == name;
  }

  lemma SeparatorInDir(dir: bytes, name: bytes)
    requires (dir == [] || IsSeparator(dir[|dir| - 1])) && NoSeparator(name)
    ensures LastSeparator(dir + name) == |dir| - 1
  {
    var path := dir + name;
    assert forall k :: |dir| <= k < |path| ==> path[k] == name[k - |dir|];
    assert dir != [] ==> path[|dir| - 1] == dir[|dir| - 1];
  }

  lemma NameHasNoSeparator(s: bytes, e: bytes)
    requires NoSeparator(s) && NoSeparator(e)
    ensures NoSeparator(s + [DOT] + e)
  {
  }

  lemma SplitJoinedName(s: bytes, e: bytes)
    requires DOT !in e
    ensures var name := s + [DOT] + e;
      LastDot(name) == |s| && name[..|s|] == s && name[|s|..] == [DOT] + e
  {
    var name := s + [DOT] + e;
    assert name[|s|] == DOT;
    assert forall k :: |s| < k < |name| ==> name[k] == e[k - |s| - 1];
  }

  predicate IsLower(c: byte) { 97 <= c <= 122 }

  /** The first n characters of s, small letters as the capitals 32 below them. */
  predicate Capitals(r: bytes, s: bytes, n: nat) {
    && |r| == (if |s| < n then |s| else n)
    && forall i :: 0 <= i < |r| ==> r[i] == if IsLower(s[i]) then s[i] - 32 else s[i]
  }

  predicate NoLower(s: bytes) { forall i :: 0 <= i < |s| ==> !IsLower(s[i]) }

  lemma BaseIsCapitals(filename: bytes, dir: bytes, s: bytes, e: bytes)
    requires HostPath(filename, dir, s, e)
    ensures SplitPath(filename).ext != []
    ensures Capitals(BaseStem(filename), s, 8) && Capitals(BaseExt(filename), e, 3)
  {
    hide SplitPath, HostPath;
    HostPathSplits(filename, dir, s, e);
    UpperTail([DOT] + e);
    assert ([DOT] + e)[1..] == e;
  }

  lemma CapitalsNoLower(r: bytes, s: bytes, n: nat)
    requires Capitals(r, s, n)
    ensures NoLower(r)
  {
  }

  /** "@" and the decimal digits of n. */
  function Suffix(n: nat): bytes { [AT] + Digits(n) }

  lemma {:induction false} CandidateNoLower(base: bytes, n: nat)
    requires NoLower(base)
    ensures NoLower(CandidateStem(base, n))
  {
    if n > 0 {
      CandidateNoLower(base, n - 1);
    }
  }

  /** Below ten million, round n ends in its number and begins as the name does, as far as eight
      characters allow. */
  lemma {:induction false} CandidateParts(base: bytes, n: nat)
    requires 0 < n < Pow10(7) && |base| <= 8
    ensures Numbered(base, CandidateStem(base, n), n)
  {
    hide Pow10, Digits, CandidateStem, Prefix;
    var before, room := CandidateStem(base, n - 1), 8 - |Suffix(n)|;
    var c := CandidateStem(base, n);
    RoundAdds(base, n);
    assert c[..|c| - |Suffix(n)|] == Prefix(before, room);
    if n == 1 {
      FirstRound(base, room);
    } else {
      DigitsGrow(n);
      CandidateParts(base, n - 1);
      var x := before[..|before| - |Suffix(n - 1)|];
      PrefixOfParts(base, x, Suffix(n - 1), before, 8 - |Suffix(n - 1)|, room);
    }
  }

  lemma RoundAdds(base: bytes, n: nat)
    requires 0 < n < Pow10(7)
    ensures |Suffix(n)| <= 8 && CandidateStem(base, n)
      == Prefix(CandidateStem(base, n - 1), 8 - |Suffix(n)|) + Suffix(n)
  {
    DigitsLength(n, 7);
  }

  lemma FirstRound(base: bytes, room: nat)
    ensures CandidateStem(base, 0) == base
    ensures if |base| <= room then base <= Prefix(base, room) else Prefix(base, room) == base[..room]
  {
  }

  lemma PrefixOfParts(base: bytes, x: bytes, suffix: bytes, before: bytes, wide: nat, room: nat)
    requires before == x + suffix && room <= wide && |x| <= wide
    requires if |base| <= wide then base <= x else x == base[..wide]
    ensures if |base| <= room then base <= Prefix(before, room) else Prefix(before, room) == base[..room]
  {
    if |base| <= wide {
      assert before[..|base|] == base;
    } else {
      assert before[..wide] == base[..wide];
    }
  }

  lemma {:induction false} DigitsGrow(n: nat)
    requires n > 0
    ensures |Digits(n - 1)| <= |Digits(n)|
  {
    if n >= 10 {
      DigitsMonotone((n - 1) / 10, n / 10);
    }
  }

  lemma {:induction false} DigitsMonotone(m: nat, n: nat)
    requires m <= n
    ensures |Digits(m)| <= |Digits(n)|
  {
    if n >= 10 && m >= 10 {
      DigitsMonotone(m / 10, n / 10);
    }
  }

  /** What saving a host file of name s and extension e is called when the names in taken are given
      away: its first eight characters and the first three of its extension in capitals, if that is
      free, and else a name that ends in the first free number. No small letter is left. */
  lemma NameOfHostFile(taken: set<bytes>, filename: bytes, dir: bytes, s: bytes, e: bytes, stem: bytes, ext: bytes)
    requires HostPath(filename, dir, s, e)
    requires SplitPath(filename).ext != [] && UniqueName(taken, filename, stem, ext) && |taken| + 1 < Pow10(7)
    ensures Capitals(ext, e, 3) && NoLower(stem) && NoLower(ext) && Joined(stem, ext) !in taken
    ensures forall plain :: Capitals(plain, s, 8) && Joined(plain, ext) !in taken ==> stem == plain
    ensures Capitals(stem, s, 8)
      || exists plain, n ::
           Capitals(plain, s, 8) && Joined(plain, ext) in taken && Numbered(plain, stem, n)
  {
    hide SplitPath, HostPath, Capitals, BaseStem, BaseExt, CandidateStem, NoLower, Numbered, Pow10;
    BaseIsCapitals(filename, dir, s, e);
    var base := BaseStem(filename);
    CapitalsNoLower(base, s, 8);
    CapitalsNoLower(BaseExt(filename), e, 3);
    var round: nat :| round <= |taken| + 1 && stem == CandidateStem(base, round)
      && FirstFreeRound(taken, base, BaseExt(filename), round);
    CandidateNoLower(base, round);
    PlainRound(base);
    forall plain | Capitals(plain, s, 8) && Joined(plain, ext) !in taken ensures stem == plain {
      CapitalsAreOne(plain, base, s, 8);
    }
    if round > 0 {
      assert Joined(CandidateStem(base, 0), ext) in taken;
      CandidateParts(base, round);
    }
  }

  /** A name of at most eight characters that ends in "@" and n and begins as the plain one does, as far
      as there is room. */
  predicate Numbered(plain: bytes, stem: bytes, n: nat) {
    var room, front := 8 - |Suffix(n)|, |stem| - |Suffix(n)|;
    && 0 < n && 0 <= room && 0 <= front && |stem| <= 8 && stem[front..] == Suffix(n)
    && if |plain| <= room then plain <= stem[..front] else stem[..front] == plain[..room]
  }

  lemma PlainRound(base: bytes)
    ensures CandidateStem(base, 0) == base
  {
  }

  lemma CapitalsAreOne(a: bytes, b: bytes, s: bytes, n: nat)
    requires Capitals(a, s, n) && Capitals(b, s, n)
    ensures a == b
  {
  }

  // ----- all names of a history -----

  lemma NoLowerIsUpper(s: bytes)
    requires NoLower(s)
    ensures Upper(s) == s
  {
  }

  /** A history remembers no more names than it has saves. */
  lemma FewTaken(disks: seq<Disk>, saves: seq<Save>, results: seq<SaveResult>, m: nat)
    requires History(disks, saves, results) && m <= |saves|
    ensures |disks[m].taken| <= m
  {
    hide FileOk, Laid, Apart, NoOverrun, SaveStep;
    HistoryInv(disks, saves, results, m);
  }

  /** The names that saves return have no small letters, and at most eight and three characters. */
  lemma ReturnedIsShort(disks: seq<Disk>, saves: seq<Save>, results: seq<SaveResult>, k: nat)
    requires History(disks, saves, results) && k < |saves| && results[k].Saved? && k + 1 < Pow10(7)
    ensures var r := results[k]; |r.stem| <= 8 && |r.ext| <= 3 && NoLower(r.stem) && NoLower(r.ext)
  {
    hide UniqueName, SaveStep, NoOverrun, NoLower, Pow10;
    StepNames(disks[k], saves[k].filename, saves[k].content, disks[k + 1], results[k]);
    FewTaken(disks, saves, results, k);
    UniqueIsShort(disks[k].taken, saves[k].filename, results[k].stem, results[k].ext);
  }

  lemma UniqueIsShort(taken: set<bytes>, filename: bytes, stem: bytes, ext: bytes)
    requires SplitPath(filename).ext != [] && UniqueName(taken, filename, stem, ext) && |taken| + 1 < Pow10(7)
    ensures |stem| <= 8 && |ext| <= 3 && NoLower(stem) && NoLower(ext)
  {
    hide Pow10, CandidateStem, SplitPath, BaseStem, BaseExt, NoLower;
    BasesHaveNoLower(filename);
    var base := BaseStem(filename);
    var round: nat :| round <= |taken| + 1 && stem == CandidateStem(base, round)
      && FirstFreeRound(taken, base, BaseExt(filename), round);
    CandidateNoLower(base, round);
    CandidateFits(base, round);
  }

  lemma BasesHaveNoLower(filename: bytes)
    requires SplitPath(filename).ext != []
    ensures NoLower(BaseStem(filename)) && NoLower(BaseExt(filename))
  {
    hide SplitPath;
  }

  /** Two saves never return the same name. */
  lemma {:induction false} TakenStay(disks: seq<Disk>, saves: seq<Save>, results: seq<SaveResult>, j: nat, k: nat)
    requires History(disks, saves, results) && j < k <= |saves| && results[j].Saved?
    ensures Joined(results[j].stem, results[j].ext) in disks[k].taken
    decreases k
  {
    hide NoOverrun, UniqueName, ImageUpdated, ChainFor, Joined;
    if j + 1 < k {
      TakenStay(disks, saves, results, j, k - 1);
    }
    StepGrows(disks[k - 1], saves[k - 1].filename, saves[k - 1].content, disks[k], results[k - 1]);
  }

  lemma StepGrows(d: Disk, filename: bytes, content: bytes, d': Disk, r: SaveResult)
    requires GoodSize(|d.img|) && SaveStep(d, filename, content, d', r)
    ensures d.taken <= d'.taken && (r.Saved? ==> Joined(r.stem, r.ext) in d'.taken)
  {
    hide UniqueName, ImageUpdated, ChainFor, SplitPath, Joined;
  }

  /** Over a history of fewer than ten million saves the returned names are all different, and two of
      them are one to the directory exactly when they differ in the blanks they end in alone. */
  lemma KeysAreTrimmedNames(disks: seq<Disk>, saves: seq<Save>, results: seq<SaveResult>, j: nat, k: nat)
    requires History(disks, saves, results) && j < k < |saves| && results[j].Saved? && results[k].Saved?
    requires k + 1 < Pow10(7)
    ensures (results[j].stem, results[j].ext) != (results[k].stem, results[k].ext)
    ensures KeyOfResult(results[j]) == KeyOfResult(results[k])
       <==> RTrim(results[j].stem) == RTrim(results[k].stem) && RTrim(results[j].ext) == RTrim(results[k].ext)
  {
    hide Pow10, SaveStep, NoOverrun, NoLower, UniqueName, KeyOf, RTrim, Storable;
    TakenStay(disks, saves, results, j, k);
    StepNames(disks[k], saves[k].filename, saves[k].content, disks[k + 1], results[k]);
    UniqueNamesAreStorable(disks[k].taken, saves[k].filename, results[k].stem, results[k].ext);
    ReturnedIsShort(disks, saves, results, j);
    ReturnedIsShort(disks, saves, results, k);
    KeyIsTrimmed(results[j].stem, results[j].ext);
    KeyIsTrimmed(results[k].stem, results[k].ext);
    NoLowerIsUpper(results[j].stem);
    NoLowerIsUpper(results[j].ext);
    NoLowerIsUpper(results[k].stem);
    NoLowerIsUpper(results[k].ext);
  }
}
