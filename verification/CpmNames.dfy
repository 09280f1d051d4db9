/** File names on a MicroDOS disk: splitting a host path, the 8+3 upper-case
    form, and the "@n" numbering that makes a name unique
    (src/fsimage.cpp, unique_cpm_filename; src/util.cpp, split_path). */
module CpmNames {
  import opened Bytes

  const NAME_SIZE: nat := 8
  const EXT_SIZE: nat := 3
  const SPACE: byte := 32
  const DOT: byte := 46
  const SLASH: byte := 47
  const AT: byte := 64
  const BACKSLASH: byte := 92

  datatype PathParts = PathParts(dir: bytes, stem: bytes, ext: bytes)

  predicate IsSpace(c: byte) { c == SPACE || 9 <= c <= 13 }

  predicate IsSeparator(c: byte) { c == SLASH || c == BACKSLASH }

  function ToUpper(c: byte): byte { if 97 <= c <= 122 then c - 32 else c }

  function Upper(s: bytes): (r: bytes)
    ensures |r| == |s|
    ensures forall i :: 0 <= i < |s| ==> r[i] == ToUpper(s[i])
  {
    seq(|s|, i requires 0 <= i < |s| => ToUpper(s[i]))
  }

  /** std::string::substr(0, n) */
  function Prefix(s: bytes, n: nat): (r: bytes)
    ensures |r| == Min(|s|, n) && r <= s
  {
    if |s| <= n then s else s[..n]
  }

  function RTrim(s: bytes): (r: bytes) {
    if |s| > 0 && IsSpace(s[|s| - 1]) then RTrim(s[..|s| - 1]) else s
  }

  /** Index of the last path separator, or -1. */
  function LastSeparator(s: bytes): (i: int)
    ensures -1 <= i < |s|
    ensures 0 <= i ==> IsSeparator(s[i])
    ensures forall k :: i < k < |s| ==> !IsSeparator(s[k])
  {
    if s == [] then -1
    else if IsSeparator(s[|s| - 1]) then |s| - 1
    else LastSeparator(s[..|s| - 1])
  }

  /** std::string::rfind of a dot, with -1 for npos. */
  function LastDot(s: bytes): (i: int)
    ensures -1 <= i < |s|
    ensures 0 <= i ==> s[i] == DOT
    ensures forall k :: i < k < |s| ==> s[k] != DOT
  {
    if s == [] then -1
    else if s[|s| - 1] == DOT then |s| - 1
    else LastDot(s[..|s| - 1])
  }

  function SplitPath(path: bytes): (r: PathParts)
    ensures r.dir + r.stem + r.ext == path
  {
    var cut := LastSeparator(path) + 1;
    var name := path[cut..];
    var dot := LastDot(name);
    if dot < 0 then PathParts(path[..cut], name, [])
    else PathParts(path[..cut], name[..dot], name[dot..])
  }

  function Joined(stem: bytes, ext: bytes): bytes {
    stem + [DOT] + ext
  }

  function Digits(n: nat): (r: bytes)
    ensures |r| > 0
    ensures forall i :: 0 <= i < |r| ==> 48 <= r[i] <= 57
  {
    if n < 10 then [48 + n] else Digits(n / 10) + [48 + n % 10]
  }

  function DigitsValue(s: bytes): int {
    if s == [] then 0 else 10 * DigitsValue(s[..|s| - 1]) + s[|s| - 1] - 48
  }

  /** One turn of the numbering loop. When "@n" is longer than 8 characters the
      subtraction 8 - nc wraps round in the source and substr keeps the whole stem. */
  function Renumber(stem: bytes, n: nat): bytes {
    var digits := Digits(n);
    var nc := |digits| + 1;
    (if nc <= NAME_SIZE then Prefix(stem, NAME_SIZE - nc) else stem) + [AT] + digits
  }

  /** The stem tried in round n; round 0 is the name as given. */
  function CandidateStem(stem: bytes, n: nat): bytes {
    if n == 0 then stem else Renumber(CandidateStem(stem, n - 1), n)
  }

  /** The upper-case stem and extension from which numbering starts; the
      extension must have its dot (substr(1, 3) throws on an empty string). */
  function BaseStem(filename: bytes): (r: bytes)
    ensures |r| <= NAME_SIZE
  {
    Prefix(Upper(SplitPath(filename).stem), NAME_SIZE)
  }

  function BaseExt(filename: bytes): (r: bytes)
    requires SplitPath(filename).ext != []
    ensures |r| <= EXT_SIZE
  {
    Prefix(Upper(SplitPath(filename).ext)[1..], EXT_SIZE)
  }

  /** Round n is the first whose name is free. */
  ghost predicate FirstFreeRound(taken: set<bytes>, stem: bytes, ext: bytes, n: nat) {
    && Joined(CandidateStem(stem, n), ext) !in taken
    && forall k: nat :: k < n ==> Joined(CandidateStem(stem, k), ext) in taken
  }

  // ----- digits -----

  lemma {:induction false} DigitsRoundTrip(n: nat)
    ensures DigitsValue(Digits(n)) == n
  {
    if n >= 10 {
      DigitsRoundTrip(n / 10);
      assert Digits(n)[..|Digits(n)| - 1] == Digits(n / 10);
    }
  }

  lemma {:induction false} DigitsLength(n: nat, k: nat)
    requires 0 < k && n < Pow10(k)
    ensures |Digits(n)| <= k
  {
    if n >= 10 {
      assert Pow10(k) == 10 * Pow10(k - 1);
      DigitsLength(n / 10, k - 1);
    }
  }

  // ----- the numbering loop always finds a free name -----

  /** What follows the last "@" is determined by the whole. */
  lemma SuffixAfterLastAt(x: bytes, d: bytes, y: bytes, e: bytes)
    requires x + [AT] + d == y + [AT] + e
    requires AT !in d && AT !in e
    ensures d == e
  {
    var s := x + [AT] + d;
    assert s[|x|] == AT && s[|y|] == AT by { assert (y + [AT] + e)[|y|] == AT; }
    assert forall k :: |x| < k < |s| ==> s[k] == d[k - |x| - 1];
    assert forall k :: |y| < k < |s| ==> s[k] == (y + [AT] + e)[k] == e[k - |y| - 1];
    assert |x| == |y|;
    assert d == s[|x| + 1..] && e == (y + [AT] + e)[|y| + 1..];
  }

  lemma JoinedDetermines(s: bytes, e: bytes, t: bytes)
    requires Joined(s, e) == Joined(t, e)
    ensures s == t
  {
    assert |s| == |t|;
    assert s == Joined(s, e)[..|s|] && t == Joined(t, e)[..|t|];
  }

  /** Two numbered rounds never try the same name. */
  lemma CandidatesDiffer(stem: bytes, m: nat, n: nat)
    requires 0 < m && 0 < n && CandidateStem(stem, m) == CandidateStem(stem, n)
    ensures m == n
  {
    var x :| CandidateStem(stem, m) == x + [AT] + Digits(m);
    var y :| CandidateStem(stem, n) == y + [AT] + Digits(n);
    SuffixAfterLastAt(x, Digits(m), y, Digits(n));
    DigitsRoundTrip(m);
    DigitsRoundTrip(n);
  }

  /** The names tried in rounds 1 to n. */
  ghost function NumberedNames(stem: bytes, ext: bytes, n: nat): set<bytes> {
    if n == 0 then {} else NumberedNames(stem, ext, n - 1) + {Joined(CandidateStem(stem, n), ext)}
  }

  lemma {:induction false} LaterRoundIsNew(stem: bytes, ext: bytes, m: nat, n: nat)
    requires m < n
    ensures Joined(CandidateStem(stem, n), ext) !in NumberedNames(stem, ext, m)
  {
    if m > 0 {
      LaterRoundIsNew(stem, ext, m - 1, n);
      if Joined(CandidateStem(stem, m), ext) == Joined(CandidateStem(stem, n), ext) {
        JoinedDetermines(CandidateStem(stem, m), ext, CandidateStem(stem, n));
        CandidatesDiffer(stem, m, n);
      }
    }
  }

  /** While every numbered round up to n is taken, n names are taken. */
  lemma {:induction false} TakenRoundsCount(taken: set<bytes>, stem: bytes, ext: bytes, n: nat)
    requires forall k: nat :: 0 < k <= n ==> Joined(CandidateStem(stem, k), ext) in taken
    ensures NumberedNames(stem, ext, n) <= taken && |NumberedNames(stem, ext, n)| == n <= |taken|
  {
    if n > 0 {
      TakenRoundsCount(taken, stem, ext, n - 1);
      LaterRoundIsNew(stem, ext, n - 1, n);
      CardinalityMonotone(NumberedNames(stem, ext, n), taken);
    }
  }

  lemma CardinalityMonotone(a: set<bytes>, b: set<bytes>)
    requires a <= b
    ensures |a| <= |b|
  {
    assert b == a + (b - a);
  }

  /** A numbered stem fits the name field as long as its number has at most
      seven digits, and never ends in a blank. */
  lemma CandidateFits(stem: bytes, n: nat)
    requires |stem| <= NAME_SIZE && n < Pow10(7)
    ensures |CandidateStem(stem, n)| <= NAME_SIZE
    ensures n > 0 ==> !IsSpace(CandidateStem(stem, n)[|CandidateStem(stem, n)| - 1])
  {
    if n > 0 {
      DigitsLength(n, 7);
    }
  }

  // ----- names in the name fields -----

  predicate NoSeparator(s: bytes) {
    forall i :: 0 <= i < |s| ==> !IsSeparator(s[i])
  }

  /** A stem and extension that splitting their joined name gives back. */
  predicate Storable(stem: bytes, ext: bytes) {
    NoSeparator(stem) && NoSeparator(ext) && DOT !in ext
  }

  /** What the directory can tell of a name: the padded fields, trimmed again. */
  datatype Key = Key(name: bytes, ext: bytes)

  function KeyOf(stem: bytes, ext: bytes): Key {
    Key(RTrim(Field(stem, NAME_SIZE)), RTrim(Field(ext, EXT_SIZE)))
  }

  /** The space-padded field of n bytes that init_with_filename fills. */
  function Field(s: bytes, n: nat): (r: bytes)
    ensures |r| == n
  {
    seq(n, i requires 0 <= i < n => if i < |s| then ToUpper(s[i]) else SPACE)
  }

  function Spaces(n: nat): (r: bytes)
    ensures |r| == n && forall i :: 0 <= i < n ==> r[i] == SPACE
  {
    seq(n, _ => SPACE)
  }

  lemma {:induction false} RTrimPadding(s: bytes, n: nat)
    ensures RTrim(s + Spaces(n)) == RTrim(s)
  {
    var t := s + Spaces(n);
    if n == 0 {
      assert t == s;
    } else {
      RTrimPadding(s, n - 1);
      assert t[..|t| - 1] == s + Spaces(n - 1);
    }
  }

  /** A stored name is the upper-case name without the blanks it ends in: two short names share a key
      exactly when they differ in those only. */
  lemma KeyIsTrimmed(stem: bytes, ext: bytes)
    requires |stem| <= NAME_SIZE && |ext| <= EXT_SIZE
    ensures KeyOf(stem, ext) == Key(RTrim(Upper(stem)), RTrim(Upper(ext)))
  {
    RTrimPadding(Upper(stem), NAME_SIZE - |stem|);
    RTrimPadding(Upper(ext), EXT_SIZE - |ext|);
    assert Field(stem, NAME_SIZE) == Upper(stem) + Spaces(NAME_SIZE - |stem|);
    assert Field(ext, EXT_SIZE) == Upper(ext) + Spaces(EXT_SIZE - |ext|);
  }

  /** Splitting "STEM.EXT" gives the two parts back. */
  lemma SplitJoined(stem: bytes, ext: bytes)
    requires Storable(stem, ext)
    ensures SplitPath(Joined(stem, ext)) == PathParts([], stem, [DOT] + ext)
  {
    var path := Joined(stem, ext);
    assert NoSeparator(path);
    assert LastSeparator(path) == -1;
    var name := path[0..];
    assert name == path;
    assert forall k :: |stem| < k < |path| ==> path[k] == ext[k - |stem| - 1];
    assert path[|stem|] == DOT;
    assert LastDot(path) == |stem|;
    assert path == stem + ([DOT] + ext);
    assert path[..|stem|] == stem && path[|stem|..] == [DOT] + ext;
  }

  /** The stem and extension from which numbering starts come back from their joined name. */
  lemma BaseNamesAreStorable(filename: bytes)
    requires SplitPath(filename).ext != []
    ensures Storable(BaseStem(filename), BaseExt(filename))
  {
    hide SplitPath, Upper, Prefix, NoSeparator;
    PartsAreClean(filename);
    var p := SplitPath(filename);
    UpperIsClean(p.stem);
    PrefixIsClean(Upper(p.stem), NAME_SIZE);
    UpperTail(p.ext);
    TailIsClean(p.ext);
    UpperIsClean(p.ext[1..]);
    PrefixIsClean(Upper(p.ext[1..]), EXT_SIZE);
  }

  lemma UpperTail(s: bytes)
    requires s != []
    ensures Upper(s)[1..] == Upper(s[1..])
  {
  }

  lemma TailIsClean(s: bytes)
    requires s != [] && NoSeparator(s)
    ensures NoSeparator(s[1..])
  {
  }

  lemma PrefixIsClean(s: bytes, n: nat)
    requires NoSeparator(s)
    ensures NoSeparator(Prefix(s, n)) && (DOT !in s ==> DOT !in Prefix(s, n))
  {
  }

  lemma UpperIsClean(s: bytes)
    requires NoSeparator(s)
    ensures NoSeparator(Upper(s)) && (DOT !in s ==> DOT !in Upper(s))
  {
  }

  lemma PartsAreClean(filename: bytes)
    ensures var p := SplitPath(filename);
      && NoSeparator(p.stem) && NoSeparator(p.ext)
      && (p.ext != [] ==> DOT !in p.ext[1..])
  {
    var cut := LastSeparator(filename) + 1;
    var name := filename[cut..];
    forall k | 0 <= k < |name| ensures !IsSeparator(name[k]) {
      assert name[k] == filename[cut + k];
    }
    NamePartsAreClean(name);
  }

  lemma NamePartsAreClean(name: bytes)
    requires NoSeparator(name)
    ensures var dot := LastDot(name);
      dot >= 0 ==> NoSeparator(name[..dot]) && NoSeparator(name[dot..]) && DOT !in name[dot..][1..]
  {
    var dot := LastDot(name);
    if dot >= 0 {
      forall k | 0 <= k < |name[dot..][1..]| ensures name[dot..][1..][k] != DOT {
        assert name[dot..][1..][k] == name[dot + 1 + k];
      }
    }
  }

  lemma {:induction false} CandidatesHaveNoSeparator(stem: bytes, n: nat)
    requires NoSeparator(stem)
    ensures NoSeparator(CandidateStem(stem, n))
  {
    if n > 0 {
      CandidatesHaveNoSeparator(stem, n - 1);
    }
  }
}
