/** Keyword tracking and suppression in the BASIC converter (bas2txt/bas2asc.py: pick_keywords,
    trackwords, suppress_nonmax, suppress_overlaps). */
module BasicMatcher {
  import opened BasicWords

  /** A keyword under way or complete: how far it has matched, and where it starts. */
  datatype Match = Match(word: string, count: nat, pos: nat) {
    function End(): nat { pos + |word| }
  }

  datatype Mode = Initial | Tokenize(quote: bool) | Verbatim(quote: bool)

  predicate Blocked(mode: Mode) { mode.Verbatim? || (mode.Tokenize? && mode.quote) }

  predicate Picked(m: Match, c: char, i: nat) {
    IsWord(m.word) && m.word != "" && m.word[0] == c && m.count == 0 && m.pos == i
  }

  method PickKeywords(initial: char, i: nat, mode: Mode, words: seq<Match>, complete: seq<Match>)
    returns (words': seq<Match>, complete': seq<Match>)
    ensures mode.Initial? && !IsKey(initial) ==> words' == [] && complete' == []
    ensures Blocked(mode) || (!IsKey(initial) && !mode.Initial?) ==> words' == words && complete' == complete
    ensures !Blocked(mode) && IsKey(initial) ==>
      forall m :: m in words' <==> m in words || (Picked(m, initial, i) && |m.word| > 1)
    ensures !Blocked(mode) && IsKey(initial) ==>
      forall m :: m in complete' <==> m in complete || (Picked(m, initial, i) && |m.word| == 1)
  {
    words', complete' := words, complete;
    if Blocked(mode) {
      return;
    }
    if !IsKey(initial) {
      if mode.Initial? {
        words', complete' := [], [];
      }
      return;
    }
    hide WORDS;
    for j := 0 to |WORDS|
      invariant forall m :: m in words' <==> m in words || (PickedBefore(m, initial, i, j) && |m.word| > 1)
      invariant forall m :: m in complete' <==> m in complete || (PickedBefore(m, initial, i, j) && |m.word| == 1)
    {
      var w := WORDS[j];
      PickedNext(initial, i, j);
      if w != "" && w[0] == initial {
        if |w| == 1 {
          complete' := complete' + [Match(w, 0, i)];
        } else {
          words' := words' + [Match(w, 0, i)];
        }
      }
    }
    AllPicked(initial, i);
  }

  predicate PickedBefore(m: Match, c: char, i: nat, j: nat)
    requires j <= |WORDS|
  {
    m.word in WORDS[..j] && m.word != "" && m.word[0] == c && m.count == 0 && m.pos == i
  }

  lemma PickedNext(c: char, i: nat, j: nat)
    requires j < |WORDS|
    ensures forall m :: PickedBefore(m, c, i, j + 1) <==>
      PickedBefore(m, c, i, j) || (m == Match(WORDS[j], 0, i) && WORDS[j] != "" && WORDS[j][0] == c)
  {
    hide WORDS;
    assert WORDS[..j + 1] == WORDS[..j] + [WORDS[j]];
    forall m: Match
      ensures PickedBefore(m, c, i, j + 1)
         <==> PickedBefore(m, c, i, j) || (m == Match(WORDS[j], 0, i) && WORDS[j] != "" && WORDS[j][0] == c)
    {
      assert m.word in WORDS[..j + 1] <==> m.word in WORDS[..j] || m.word == WORDS[j];
    }
  }

  lemma AllPicked(c: char, i: nat)
    ensures forall m :: !PickedBefore(m, c, i, 0)
    ensures forall m :: PickedBefore(m, c, i, |WORDS|) <==> Picked(m, c, i)
  {
    hide WORDS;
    assert WORDS[..0] == [] && WORDS[..|WORDS|] == WORDS;
  }

  /** The match one character earlier. */
  function Earlier(m: Match): Match
    requires m.count > 0
  {
    m.(count := m.count - 1)
  }

  /** m got its last character c from one of the tracked words. */
  predicate Advanced(m: Match, c: char, words: seq<Match>) {
    m.count > 0 && m.count < |m.word| && m.word[m.count] == c && Earlier(m) in words
  }

  /** The tracked words that take character c go on, or are complete; the others are out. */
  method TrackWords(c: char, words: seq<Match>, complete: seq<Match>)
    returns (words': seq<Match>, complete': seq<Match>)
    requires forall m :: m in words ==> m.count + 1 < |m.word|
    ensures forall m :: m in words' <==> Advanced(m, c, words) && m.count + 1 < |m.word|
    ensures forall m :: m in complete' <==> m in complete || (Advanced(m, c, words) && m.count + 1 == |m.word|)
  {
    words', complete' := [], complete;
    for j := 0 to |words|
      invariant forall m :: m in words' <==> Advanced(m, c, words[..j]) && m.count + 1 < |m.word|
      invariant forall m :: m in complete' <==> m in complete || (Advanced(m, c, words[..j]) && m.count + 1 == |m.word|)
    {
      assert words[..j + 1] == words[..j] + [words[j]];
      var k := words[j].count + 1;
      if words[j].word[k] == c {
        var m := words[j].(count := k);
        assert Earlier(m) == words[j];
        if |m.word| - 1 == k {
          complete' := complete' + [m];
        } else {
          words' := words' + [m];
        }
      }
    }
    assert words[..|words|] == words;
  }

  ghost predicate SortedByPos(s: seq<Match>) {
    forall i, j :: 0 <= i < j < |s| ==> s[i].pos <= s[j].pos
  }

  ghost predicate OnePerPos(s: seq<Match>) {
    forall i, j :: 0 <= i < j < |s| ==> s[i].pos < s[j].pos
  }

  ghost predicate Disjoint(s: seq<Match>) {
    forall i, j :: 0 <= i < j < |s| ==> s[i].End() <= s[j].pos
  }

  ghost predicate Within(s: seq<Match>, all: seq<Match>) {
    forall m :: m in s ==> m in all
  }

  /** list.sort by position: stable. */
  function Sorted(s: seq<Match>): (r: seq<Match>)
    ensures |r| == |s| && SortedByPos(r) && multiset(r) == multiset(s)
  {
    assert s != [] ==> s == s[..|s| - 1] + [s[|s| - 1]];
    if s == [] then [] else Insert(s[|s| - 1], Sorted(s[..|s| - 1]))
  }

  function Insert(m: Match, s: seq<Match>): (r: seq<Match>)
    requires SortedByPos(s)
    ensures |r| == |s| + 1 && r[0] in [m] + s[..if s == [] then 0 else 1]
    ensures SortedByPos(r) && multiset(r) == multiset(s) + multiset{m}
  {
    assert s != [] ==> s == [s[0]] + s[1..];
    if s == [] then [m]
    else if s[0].pos <= m.pos then
      FirstIsLeast(s, Insert(m, s[1..]), m);
      [s[0]] + Insert(m, s[1..])
    else [m] + s
  }

  lemma FirstIsLeast(s: seq<Match>, rest: seq<Match>, m: Match)
    requires s != [] && SortedByPos(s) && s[0].pos <= m.pos && SortedByPos(rest)
    requires multiset(rest) == multiset(s[1..]) + multiset{m}
    ensures SortedByPos([s[0]] + rest)
  {
    forall r | r in rest ensures s[0].pos <= r.pos {
      assert r in multiset(rest);
      if r != m {
        assert r in s[1..];
      }
    }
  }

  /** Some kept match stands at t's position and is no shorter. */
  ghost predicate Covered(t: Match, result: seq<Match>) {
    exists k :: 0 <= k < |result| && result[k].pos == t.pos && |result[k].word| >= |t.word|
  }

  /** What the loop of suppress_nonmax has kept of its first n matches. */
  ghost predicate Longest(s: seq<Match>, n: nat, result: seq<Match>)
    requires n <= |s|
  {
    && OnePerPos(result) && Within(result, s)
    && (n > 0 ==> result != [] && result[|result| - 1].pos == s[n - 1].pos)
    && forall k :: 0 <= k < n ==> Covered(s[k], result)
  }

  lemma LongestReplaced(s: seq<Match>, n: nat, result: seq<Match>)
    requires SortedByPos(s) && 0 < n < |s| && Longest(s, n, result)
    requires s[n].pos == s[n - 1].pos && |s[n].word| > |result[|result| - 1].word|
    ensures Longest(s, n + 1, result[|result| - 1 := s[n]])
  {
    var result' := result[|result| - 1 := s[n]];
    forall k | 0 <= k < n + 1
      ensures Covered(s[k], result')
    {
      if k == n {
        assert result'[|result| - 1] == s[n];
      } else {
        var r :| 0 <= r < |result| && result[r].pos == s[k].pos && |result[r].word| >= |s[k].word|;
        assert result'[r].pos == s[k].pos && |result'[r].word| >= |s[k].word|;
      }
    }
  }

  lemma LongestSkipped(s: seq<Match>, n: nat, result: seq<Match>)
    requires SortedByPos(s) && 0 < n < |s| && Longest(s, n, result)
    requires s[n].pos == s[n - 1].pos && |s[n].word| <= |result[|result| - 1].word|
    ensures Longest(s, n + 1, result)
  {
  }

  lemma LongestAppended(s: seq<Match>, n: nat, result: seq<Match>)
    requires SortedByPos(s) && n < |s| && Longest(s, n, result)
    requires n == 0 ==> result == []
    requires n > 0 ==> s[n].pos != s[n - 1].pos
    ensures Longest(s, n + 1, result + [s[n]])
  {
    var result' := result + [s[n]];
    forall k | 0 <= k < n + 1
      ensures Covered(s[k], result')
    {
      if k == n {
        assert result'[|result|] == s[n];
      } else {
        var r :| 0 <= r < |result| && result[r].pos == s[k].pos && |result[r].word| >= |s[k].word|;
        assert result'[r] == result[r];
      }
    }
  }

  /** One match for each position, the longest there. */
  method SuppressNonmax(complete: seq<Match>) returns (result: seq<Match>)
    requires SortedByPos(complete)
    ensures Longest(complete, |complete|, result)
  {
    hide Longest, Covered;
    var pos: int := -1;
    result := [];
    NothingYet(complete);
    for j := 0 to |complete|
      invariant Longest(complete, j, result)
      invariant j == 0 ==> result == [] && pos == -1
      invariant j > 0 ==> result != [] && pos == complete[j - 1].pos
    {
      var t := complete[j];
      if t.pos == pos {
        if |t.word| > |result[|result| - 1].word| {
          LongestReplaced(complete, j, result);
          result := result[|result| - 1 := t];
        } else {
          LongestSkipped(complete, j, result);
        }
      } else {
        LongestAppended(complete, j, result);
        result := result + [t];
        pos := t.pos;
      }
    }
  }

  lemma NothingYet(s: seq<Match>)
    ensures Longest(s, 0, [])
  {
  }

  /** A longer match that starts inside the first one. */
  predicate Beats(t: Match, first: Match) {
    first.pos < t.pos < first.End() && |t.word| > |first.word|
  }

  ghost predicate Beaten(s: seq<Match>, n: nat)
    requires n <= |s|
  {
    exists k :: 0 <= k < n && Beats(s[k], s[0])
  }

  /** What the loop of suppress_overlaps has kept of its first n matches. */
  ghost predicate Kept(s: seq<Match>, n: nat, result: seq<Match>)
    requires 0 < n <= |s|
  {
    && OnePerPos(result) && Disjoint(result) && Within(result, s[..n]) && result != []
    && (result[0] == s[0] <==> !Beaten(s, n))
    && (|result| == 1 && result[0] == s[0] ==> forall k :: 0 < k < n ==> s[k].pos < s[0].End())
  }

  lemma KeptBefore(s: seq<Match>, n: nat, result: seq<Match>)
    requires OnePerPos(s) && 0 < n < |s| && Within(result, s[..n])
    ensures Within(result, s[..n + 1])
    ensures forall r :: r in result ==> r.pos < s[n].pos
  {
    forall r | r in result
      ensures r.pos < s[n].pos && r in s[..n + 1]
    {
      assert r in s[..n];
      var k :| 0 <= k < n && s[..n][k] == r;
      assert s[k] == r && s[..n + 1][k] == r;
    }
  }

  lemma BeatenNext(s: seq<Match>, n: nat)
    requires n < |s|
    ensures Beaten(s, n + 1) <==> Beaten(s, n) || Beats(s[n], s[0])
  {
  }

  lemma KeptReplaced(s: seq<Match>, n: nat, result: seq<Match>)
    requires OnePerPos(s) && 0 < n < |s| && Kept(s, n, result)
    requires var last := result[|result| - 1]; s[n].pos < last.End() && |s[n].word| > |last.word|
    ensures Kept(s, n + 1, result[|result| - 1 := s[n]])
  {
    KeptBefore(s, n, result);
    BeatenNext(s, n);
    assert s[n] in s[..n + 1] by {
      assert s[..n + 1][n] == s[n];
    }
    assert forall k :: 0 <= k < |result| - 1 ==> result[k].End() <= result[|result| - 1].pos;
    assert s[0].pos < s[n].pos;
    if |result| > 1 && result[0] == s[0] {
      assert result[0].End() <= result[|result| - 1].pos;
    }
  }

  lemma KeptSkipped(s: seq<Match>, n: nat, result: seq<Match>)
    requires OnePerPos(s) && 0 < n < |s| && Kept(s, n, result)
    requires var last := result[|result| - 1]; s[n].pos < last.End() && |s[n].word| <= |last.word|
    ensures Kept(s, n + 1, result)
  {
    KeptBefore(s, n, result);
    BeatenNext(s, n);
    if |result| > 1 && result[0] == s[0] {
      assert result[0].End() <= result[|result| - 1].pos;
    }
  }

  lemma KeptAppended(s: seq<Match>, n: nat, result: seq<Match>)
    requires OnePerPos(s) && 0 < n < |s| && Kept(s, n, result)
    requires s[n].pos >= result[|result| - 1].End()
    ensures Kept(s, n + 1, result + [s[n]])
  {
    KeptBefore(s, n, result);
    BeatenNext(s, n);
    assert s[n] in s[..n + 1] by {
      assert s[..n + 1][n] == s[n];
    }
    if result[0] == s[0] && |result| > 1 {
      assert result[0].End() <= result[|result| - 1].pos;
    }
  }

  lemma KeptFirst(s: seq<Match>)
    requires s != []
    ensures Kept(s, 1, [] + [s[0]])
  {
    assert s[..1] == [s[0]] && [] + [s[0]] == [s[0]];
  }

  /** One more match after those kept so far. */
  function OverlapStep(kept: seq<Match>, m: Match): seq<Match> {
    if kept == [] || kept[|kept| - 1].End() <= m.pos then kept + [m]
    else if |m.word| > |kept[|kept| - 1].word| then kept[|kept| - 1 := m]
    else kept
  }

  function Suppressed(s: seq<Match>): seq<Match> {
    if s == [] then [] else OverlapStep(Suppressed(s[..|s| - 1]), s[|s| - 1])
  }

  predicate Holds(m: Match, p: nat) { m.pos <= p < m.End() }

  /** Position p lies in a kept match, or in one that a longer match inside it beat. */
  ghost predicate Accounted(p: nat, s: seq<Match>, kept: seq<Match>) {
    || (exists k :: 0 <= k < |kept| && Holds(kept[k], p))
    || (exists a, b :: 0 <= a < |s| && 0 <= b < |s| && Beats(s[b], s[a]) && Holds(s[a], p))
  }

  lemma {:induction false} SuppressedWithin(s: seq<Match>)
    ensures Within(Suppressed(s), s) && (s != [] ==> Suppressed(s) != [])
  {
    if s != [] {
      var front, last := s[..|s| - 1], s[|s| - 1];
      SuppressedWithin(front);
      assert s == front + [last];
    }
  }

  /** The start of every match is accounted for. */
  lemma {:induction false} SuppressedAccounts(s: seq<Match>, k: nat)
    requires OnePerPos(s) && k < |s| && forall m :: m in s ==> m.word != ""
    ensures Accounted(s[k].pos, s, Suppressed(s))
  {
    var front, last := s[..|s| - 1], s[|s| - 1];
    var kept := Suppressed(front);
    assert s == front + [last];
    SuppressedWithin(front);
    if k < |front| {
      SuppressedAccounts(front, k);
      AccountedNext(front, last, kept, s[k].pos);
    } else if kept == [] || kept[|kept| - 1].End() <= last.pos {
      assert (kept + [last])[|kept|] == last && Holds(last, s[k].pos);
    } else {
      assert kept[|kept| - 1] in front;
      if |last.word| > |kept[|kept| - 1].word| {
        assert kept[|kept| - 1 := last][|kept| - 1] == last && Holds(last, s[k].pos);
      } else {
        assert Holds(kept[|kept| - 1], s[k].pos);
      }
    }
  }

  lemma AccountedNext(front: seq<Match>, last: Match, kept: seq<Match>, p: nat)
    requires OnePerPos(front + [last]) && Within(kept, front) && Accounted(p, front, kept)
    ensures Accounted(p, front + [last], OverlapStep(kept, last))
  {
    var s, kept' := front + [last], OverlapStep(kept, last);
    if k :| 0 <= k < |kept| && Holds(kept[k], p) {
      if kept'[k] != kept[k] {
        assert k == |kept| - 1 && kept[k] in front;
        var a :| 0 <= a < |front| && front[a] == kept[k];
        assert s[a] == kept[k] && s[|front|] == last && Beats(s[|front|], s[a]);
      }
    } else {
      var a, b :| 0 <= a < |front| && 0 <= b < |front| && Beats(front[b], front[a]) && Holds(front[a], p);
      assert s[a] == front[a] && s[b] == front[b];
    }
  }

  /** Overlapping matches: the later one wins when it is longer. What is left is in order and does not
      overlap, and the first match is kept exactly when no longer one starts inside it. */
  method SuppressOverlaps(complete: seq<Match>) returns (result: seq<Match>)
    requires OnePerPos(complete) && complete != []
    ensures Kept(complete, |complete|, result) && result == Suppressed(complete)
  {
    hide Kept;
    var currentEnd: int, currentLen: int := -1, -1;
    result := [];
    for j := 0 to |complete|
      invariant j == 0 ==> result == [] && currentEnd == -1
      invariant j > 0 ==> Kept(complete, j, result) && result != []
      invariant result == Suppressed(complete[..j])
      invariant j > 0 ==> currentEnd == result[|result| - 1].End() && currentLen == |result[|result| - 1].word|
    {
      var t := complete[j];
      assert complete[..j + 1][..j] == complete[..j];
      if t.pos < currentEnd {
        if |t.word| > currentLen {
          KeptReplaced(complete, j, result);
          result := result[|result| - 1 := t];
          currentLen := |t.word|;
          currentEnd := t.pos + currentLen;
        } else {
          KeptSkipped(complete, j, result);
        }
      } else {
        if j > 0 {
          KeptAppended(complete, j, result);
        } else {
          KeptFirst(complete);
        }
        result := result + [t];
        currentLen := |t.word|;
        currentEnd := t.pos + currentLen;
      }
    }
    assert complete[..|complete|] == complete;
  }
}
