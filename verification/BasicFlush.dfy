/** What a flush of the tokenizer keeps (bas2txt/bas2asc.py: suppress_nonmax, suppress_overlaps), and
    the keywords it turns into codes, as the function of the text says. */
module BasicFlush {
  import opened Bytes
  import opened BasicWords
  import opened BasicMatcher
  import opened BasicSpans

  // ----- all that is found in a stretch -----

  /** What is found from lo up to n, in order. */
  function AllFrom(t: string, lo: nat, n: nat): seq<Match> {
    if n <= lo then []
    else AllFrom(t, lo, n - 1) + if Starts(t, n - 1) then [MatchAt(t, n - 1)] else []
  }

  lemma {:induction false} AllFromMembers(t: string, lo: nat, n: nat)
    ensures forall m :: m in AllFrom(t, lo, n) <==> lo <= m.pos < n && Starts(t, m.pos) && m == MatchAt(t, m.pos)
    ensures OnePerPos(AllFrom(t, lo, n))
  {
    hide Starts, MatchAt;
    if n > lo {
      AllFromMembers(t, lo, n - 1);
      var front := AllFrom(t, lo, n - 1);
      forall k | 0 <= k < |front| ensures front[k].pos < n - 1 {
        assert front[k] in front;
      }
    }
  }

  /** Two ascending lists of the same matches are the same. */
  lemma {:induction false} SameMembers(a: seq<Match>, b: seq<Match>)
    requires OnePerPos(a) && OnePerPos(b) && Within(a, b) && Within(b, a)
    ensures a == b
  {
    if a == [] || b == [] {
      SomeMember(a);
      SomeMember(b);
    } else {
      var lastA, lastB := a[|a| - 1], b[|b| - 1];
      assert lastA in a && lastB in b && lastA in b && lastB in a;
      LastIsLargest(a, lastB);
      LastIsLargest(b, lastA);
      OneMatchAPos(a, lastA, lastB);
      FrontWithin(a, b);
      FrontWithin(b, a);
      SameMembers(a[..|a| - 1], b[..|b| - 1]);
    }
  }

  lemma FrontWithin(a: seq<Match>, b: seq<Match>)
    requires OnePerPos(a) && OnePerPos(b) && Within(a, b) && a != [] && b != [] && a[|a| - 1] == b[|b| - 1]
    ensures Within(a[..|a| - 1], b[..|b| - 1])
  {
    var frontA, frontB := a[..|a| - 1], b[..|b| - 1];
    forall m | m in frontA
      ensures m in frontB
    {
      WithoutLast(a);
      assert m in a && m in b;
      WithoutLast(b);
    }
  }

  lemma SomeMember(s: seq<Match>)
    ensures s == [] || exists m :: m in s
  {
    assert s == [] || s[0] in s;
  }

  lemma LastIsLargest(s: seq<Match>, m: Match)
    requires OnePerPos(s) && s != []
    ensures m in s ==> m.pos <= s[|s| - 1].pos
  {
  }

  lemma OneMatchAPos(s: seq<Match>, m: Match, m': Match)
    requires OnePerPos(s) && m in s && m' in s && m.pos == m'.pos
    ensures m == m'
  {
  }

  lemma WithoutLast(s: seq<Match>)
    requires OnePerPos(s) && s != []
    ensures OnePerPos(s[..|s| - 1])
    ensures forall m :: m in s[..|s| - 1] <==> m in s && m != s[|s| - 1]
  {
    assert s == s[..|s| - 1] + [s[|s| - 1]];
  }

  // ----- what is kept of it -----

  /** What suppress_overlaps keeps of the stretch. */
  function Fold(t: string, lo: nat, n: nat): seq<Match> { Suppressed(AllFrom(t, lo, n)) }

  lemma FoldNext(t: string, lo: nat, n: nat)
    requires lo <= n
    ensures Fold(t, lo, n + 1) == if Starts(t, n) then OverlapStep(Fold(t, lo, n), MatchAt(t, n)) else Fold(t, lo, n)
  {
    hide Starts, MatchAt, OverlapStep;
    var front := AllFrom(t, lo, n);
    if Starts(t, n) {
      assert (front + [MatchAt(t, n)])[..|front|] == front;
    } else {
      assert front + [] == front;
    }
  }

  lemma NothingFrom(t: string, lo: nat, n: nat)
    requires n <= lo
    ensures Fold(t, lo, n) == []
  {
  }

  /** Nothing is found in the stretch. */
  ghost predicate Bare(t: string, lo: nat, n: nat) { forall p :: lo <= p < n ==> !Starts(t, p) }

  lemma {:induction false} BareFold(t: string, lo: nat, n: nat)
    requires Bare(t, lo, n)
    ensures Fold(t, lo, n) == []
  {
    hide Starts, MatchAt, Suppressed, OverlapStep, AllFrom;
    if n <= lo {
      NothingFrom(t, lo, n);
    } else {
      BareFold(t, lo, n - 1);
      FoldNext(t, lo, n - 1);
    }
  }

  /** Everything found in the stretch ends in it. */
  ghost predicate Settled(t: string, lo: nat, n: nat) {
    forall p :: lo <= p < n && Starts(t, p) ==> MatchAt(t, p).End() <= n
  }

  /** A climb under way is all that is kept so far, and stays in the stretch. */
  lemma {:induction false} FoldClimbs(t: string, lo: nat, n: nat, p: nat, j: nat)
    requires Settled(t, lo, n) && lo <= p < j && Starts(t, p) && j <= MatchAt(t, p).End() <= n
    requires Fold(t, lo, j) == [MatchAt(t, p)]
    ensures var q := ClimbFrom(t, p, j);
      MatchAt(t, q).End() <= n && Fold(t, lo, MatchAt(t, q).End()) == [MatchAt(t, q)]
    decreases n - j
  {
    hide Starts, MatchAt, Fold;
    if j < MatchAt(t, p).End() {
      FoldNext(t, lo, j);
      if Starts(t, j) {
        MatchEnds(t, j);
      }
      MatchEnds(t, p);
      LongerStarts(t, p, j);
      if Length(t, j) > Length(t, p) {
        FoldClimbs(t, lo, n, j, j + 1);
      } else {
        FoldClimbs(t, lo, n, p, j + 1);
      }
    }
  }

  lemma LongerStarts(t: string, p: nat, j: nat)
    requires Starts(t, p)
    ensures Length(t, j) > Length(t, p) ==> Starts(t, j)
    ensures |MatchAt(t, p).word| == Length(t, p) && (Starts(t, j) ==> |MatchAt(t, j).word| == Length(t, j))
    ensures MatchAt(t, p).pos == p && (Starts(t, j) ==> MatchAt(t, j).pos == j && MatchAt(t, j).End() > j)
  {
  }

  lemma {:induction false} FoldBehind(t: string, lo: nat, e: nat, n: nat, m: Match)
    requires lo <= e <= n && Fold(t, lo, e) == [m] && m.End() == e
    ensures Fold(t, lo, n) == [m] + Fold(t, e, n)
    decreases n
  {
    hide Starts, MatchAt, Fold;
    if n == e {
      NothingFrom(t, e, e);
    } else {
      FoldBehind(t, lo, e, n - 1, m);
      FoldNext(t, lo, n - 1);
      FoldNext(t, e, n - 1);
      if Starts(t, n - 1) {
        LongerStarts(t, n - 1, n - 1);
        StepBehind(m, Fold(t, e, n - 1), MatchAt(t, n - 1));
      }
    }
  }

  lemma StepBehind(m: Match, kept: seq<Match>, x: Match)
    requires m.End() <= x.pos
    ensures OverlapStep([m] + kept, x) == [m] + OverlapStep(kept, x)
  {
  }

  /** What is kept of a stretch: where the climb from its first keyword ends, and what is kept behind. */
  lemma FoldSplits(t: string, lo: nat, q: nat, n: nat)
    requires Settled(t, lo, n) && lo <= q < n && Bare(t, lo, q) && Starts(t, q)
    ensures var m := MatchAt(t, Climb(t, q));
      m.End() <= n && Fold(t, lo, n) == [m] + Fold(t, m.End(), n)
  {
    hide Starts, MatchAt, Fold;
    BareFold(t, lo, q);
    FoldNext(t, lo, q);
    LongerStarts(t, q, q);
    OneStep(MatchAt(t, q));
    FoldClimbs(t, lo, n, q, q + 1);
    var m := MatchAt(t, Climb(t, q));
    LongerStarts(t, Climb(t, q), Climb(t, q));
    FoldBehind(t, lo, m.End(), n, m);
  }

  lemma OneStep(m: Match)
    ensures OverlapStep([], m) == [m]
  {
  }

  // ----- the keywords of one flush -----

  /** The first n matches are those that one flush turns into codes: one right behind the other, up to
      a gap or a change of mode. */
  ghost predicate IsGroup(kept: seq<Match>, n: nat) {
    && 0 < n <= |kept|
    && (forall j :: 0 <= j < n - 1 ==> kept[j].End() == kept[j + 1].pos && !Silences(kept[j].word))
    && (n == |kept| || Silences(kept[n - 1].word) || kept[n].pos != kept[n - 1].End())
  }

  lemma GroupRest(m: Match, rest: seq<Match>, n: nat)
    requires IsGroup([m] + rest, n)
    ensures n >= 1
    ensures n > 1 ==> !Silences(m.word) && rest != [] && rest[0].pos == m.End() && IsGroup(rest, n - 1)
    ensures n > 1 ==> ([m] + rest)[..n] == [m] + rest[..n - 1] && ([m] + rest)[n - 1] == rest[n - 2]
    ensures n == 1 ==> ([m] + rest)[..1] == [m] && (Silences(m.word) || rest == [] || rest[0].pos != m.End())
  {
    if n > 1 {
      var kept := [m] + rest;
      assert kept[0] == m && kept[1] == rest[0];
      assert forall j :: 0 <= j < |rest| ==> rest[j] == kept[j + 1];
    }
  }

  /** A flush comes with character k: nothing is under way behind it, or it is the last. */
  ghost predicate FlushesAt(t: string, lo: nat, k: nat) {
    k < |t| && (k + 1 == |t| || !UnderWay(t, lo, k + 1)) && (t[k] != QUOTE ==> QUOTE !in t[Min(lo, k)..k + 1])
  }

  /** The end of the stretch that a flush at k sees; the false LLIST can be one longer than the text. */
  function StretchEnd(t: string, k: nat): nat { if k + 1 == |t| then k + 2 else k + 1 }

  /** What follows the keywords of a flush. */
  ghost function Rest(t: string, last: Match, k: nat): seq<Match>
    requires k < |t|
  {
    if Silences(last.word) then []
    else if t[k] == QUOTE then Shut(t, last.End() + 1)
    else Open(t, last.End(), last.End())
  }

  lemma LaterFlush(t: string, lo: nat, e: nat, k: nat)
    requires FlushesAt(t, lo, k) && lo <= e
    ensures FlushesAt(t, e, k)
  {
    hide Prefixed;
    assert e <= k ==> t[e..k + 1] == t[lo..k + 1][e - lo..];
    if e > k && t[k] != QUOTE {
      assert t[k..k + 1] == [t[k]];
    }
  }

  /** Without a quote at k, a flush from e on comes with no quote either. */
  lemma {:induction false} NoQuoteAtFlush(t: string, e: nat, j: nat, k: nat)
    requires FlushesAt(t, e, k) && t[k] != QUOTE && e <= j <= k
    ensures var f := FlushAt(t, e, j); f <= k && t[f] != QUOTE
    decreases k - j
  {
    hide UnderWay;
    if j + 1 == |t| || !UnderWay(t, e, j + 1) {
      assert t[j] == t[e..k + 1][j - e];
    } else {
      NoQuoteAtFlush(t, e, j + 1, k);
    }
  }

  /** Run is what the flush turns into codes, and what follows. */
  lemma {:induction false} RunIsGroup(t: string, lo: nat, q: nat, k: nat, f: nat, n: nat)
    requires FlushesAt(t, lo, k) && Settled(t, lo, StretchEnd(t, k)) && lo <= q <= k && Bare(t, lo, q) && Starts(t, q)
    requires f < |t| && if t[k] == QUOTE then f == k else t[f] != QUOTE
    requires IsGroup(Fold(t, lo, StretchEnd(t, k)), n)
    ensures var kept := Fold(t, lo, StretchEnd(t, k)); Run(t, q, f) == kept[..n] + Rest(t, kept[n - 1], k)
    decreases n
  {
    hide Starts, MatchAt, Fold, Bare, Settled, FlushesAt, Climb, Silences, Open, Shut, IsGroup, FlushAt;
    var end := StretchEnd(t, k);
    var m := MatchAt(t, Climb(t, q));
    var e := m.End();
    FoldSplits(t, lo, q, end);
    LongerStarts(t, Climb(t, q), Climb(t, q));
    var rest := Fold(t, e, end);
    GroupRest(m, rest, n);
    FlushInText(t, lo, k);
    assert e <= |t| + 1 && e <= end;
    SettledLater(t, lo, e, end);
    if Silences(m.word) {
      assert Run(t, q, f) == [m] + [];
    } else {
      NextKept(t, e, end, rest);
      if n == 1 {
        BeyondLast(t, e, k, f);
      } else {
        LaterFlush(t, lo, e, k);
        StartIsNoQuote(t, e);
        assert e <= k;
        BeyondNext(t, e, k, f);
        var f' := if t[k] == QUOTE then k else FlushAt(t, e, e);
        if t[k] != QUOTE {
          NoQuoteAtFlush(t, e, e, k);
        }
        RunIsGroup(t, e, e, k, f', n - 1);
        Assoc([m], rest[..n - 1], Rest(t, rest[n - 2], k));
      }
    }
  }

  lemma FlushInText(t: string, lo: nat, k: nat)
    requires FlushesAt(t, lo, k)
    ensures k < |t|
  {
  }

  /** Behind the last keyword of a flush. */
  lemma BeyondLast(t: string, e: nat, k: nat, f: nat)
    requires e <= |t| + 1 && k < |t| && f < |t| && if t[k] == QUOTE then f == k else t[f] != QUOTE
    requires !(e < StretchEnd(t, k) && Starts(t, e) && Climb(t, e) == e)
    ensures Beyond(t, e, f) == if t[k] == QUOTE then Shut(t, e + 1) else Open(t, e, e)
  {
    hide Open, Shut, Run, Starts, Climb;
  }

  /** Behind a keyword with another right behind it. */
  lemma BeyondNext(t: string, e: nat, k: nat, f: nat)
    requires k < |t| && f < |t| && if t[k] == QUOTE then f == k else t[f] != QUOTE
    requires e < StretchEnd(t, k) && Starts(t, e) && Climb(t, e) == e && t[e] != QUOTE
    ensures Beyond(t, e, f) == Run(t, e, if t[k] == QUOTE then k else FlushAt(t, e, e))
  {
    hide Run, Climb, Shut, FlushAt;
  }

  lemma SettledLater(t: string, lo: nat, e: nat, n: nat)
    requires Settled(t, lo, n) && lo <= e
    ensures Settled(t, e, n) && Bare(t, e, e)
  {
  }

  /** Something kept right behind means a keyword there whose climb stays. */
  lemma NextKept(t: string, e: nat, n: nat, rest: seq<Match>)
    requires Settled(t, e, n) && Bare(t, e, e) && rest == Fold(t, e, n) && e <= n
    ensures rest != [] && rest[0].pos == e <==> e < n && Starts(t, e) && Climb(t, e) == e
  {
    hide Starts, MatchAt, Settled, Bare, Climb, Suppressed, AllFrom;
    if e < n && Starts(t, e) {
      FoldSplits(t, e, e, n);
      LongerStarts(t, Climb(t, e), Climb(t, e));
    } else {
      AllFromMembers(t, e, n);
      SuppressedWithin(AllFrom(t, e, n));
      if rest != [] {
        assert rest[0] in AllFrom(t, e, n);
      }
    }
  }

  lemma StartIsNoQuote(t: string, p: nat)
    requires Starts(t, p)
    ensures p < |t| && t[p] != QUOTE
  {
    hide IsWord, MatchAt, Length;
    FoundOccurs(t, p);
    if IsFalse(t, p) {
      SecondLetter(t);
    } else {
      var w := MatchAt(t, p).word;
      FirstLetters(t, w, p);
      OccursThere(t, w, p);
      NoQuoteInWord(w);
      assert w[0] in w;
    }
  }
}
