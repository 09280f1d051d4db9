/** One line of BASIC into codes (bas2txt/bas2asc.py: tokenize2), by tracking all keywords at once.
    Positions count from the start of the line's text, behind its number. */
module BasicTokenizer {
  import opened Bytes
  import opened BasicWords
  import opened BasicMatcher
  import opened BasicSpans
  import opened BasicFlush

  // ----- the matches -----

  predicate FalseMatch(t: string, m: Match) {
    m.word == "LLIST" && m.pos == 0 && ListFirst(t)
  }

  /** A complete match: a keyword that stands in the text, or LLIST in a text that starts with LIST. */
  predicate Done(t: string, m: Match) {
    m == Whole(m.word, m.pos) && (Occurs(t, m.word, m.pos) || FalseMatch(t, m))
  }

  /** A keyword whose characters so far stand just before i. */
  predicate Partial(t: string, i: nat, m: Match) {
    m.pos + m.count + 1 == i <= |t| && m.count < |m.word| && t[m.pos..i] == m.word[..m.count + 1]
  }

  /** Whether the first i characters, or the first of all, could begin LIST. */
  predicate ListSoFar(t: string, i: nat) {
    && t != "" && t[0] == 'L'
    && (i >= 2 ==> |t| >= 2 && t[1] == 'I')
    && (i >= 3 ==> |t| >= 3 && t[2] == 'S')
    && (i >= 4 ==> |t| >= 4 && t[3] == 'T')
  }

  /** LLIST one character ahead of the text. */
  predicate PartialList(t: string, i: nat, m: Match) {
    m == Match("LLIST", i, 0) && 1 <= i <= 3 && i <= |t| && ListSoFar(t, i)
  }

  /** A tracked keyword when i characters are done; at the start, those just picked. */
  predicate Under(t: string, i: nat, m: Match) {
    && IsWord(m.word) && m.count + 1 < |m.word|
    && if i == 0 then m.count == 0 && m.pos == 0 && t != "" && m.word[0] == t[0]
       else Partial(t, i, m) || PartialList(t, i, m)
  }

  lemma ListSoFarOrFirst(t: string, i: nat)
    ensures ListFirst(t) ==> ListSoFar(t, i)
    ensures i >= 4 && ListSoFar(t, i) ==> ListFirst(t)
  {
    SecondLetter(t);
    if i >= 4 && ListSoFar(t, i) {
      assert t[..4] == ['L', 'I', 'S', 'T'];
    }
  }

  /** What is complete when i characters are done; the false LLIST is so after the fourth, and a single
      character as soon as it is picked. */
  predicate DoneBy(t: string, i: nat, m: Match) {
    Done(t, m) && if FalseMatch(t, m) then i >= 4 else m.End() <= i || m.End() == 1
  }

  /** One character makes of a tracked keyword a tracked or a complete one. */
  lemma TrackKeeps(t: string, i: nat, m: Match)
    requires i < |t| && m.count > 0 && m.count < |m.word| && m.word[m.count] == t[i] && Under(t, i, Earlier(m))
    ensures if m.count + 1 < |m.word| then Under(t, i + 1, m) else DoneBy(t, i + 1, m)
  {
    hide IsWord;
    if i == 0 {
      FirstLetterTwice(t, m);
    } else if Partial(t, i, Earlier(m)) {
      PartialGrows(t, i, m);
    } else {
      ListSoFarOrFirst(t, i + 1);
    }
  }

  lemma FirstLetterTwice(t: string, m: Match)
    requires t != "" && IsWord(m.word) && |m.word| > 1 && m.count == 1 && m.pos == 0 && m.word[1] == t[0] == m.word[0]
    ensures Under(t, 1, m) && m.count + 1 < |m.word|
  {
    hide IsWord;
    WordsAreWellFormed(m.word);
    assert m.word == "LLIST";
  }

  lemma PartialGrows(t: string, i: nat, m: Match)
    requires 0 < i < |t| && m.count > 0 && m.count < |m.word| && m.word[m.count] == t[i]
    requires IsWord(m.word) && Partial(t, i, Earlier(m))
    ensures if m.count + 1 < |m.word| then Under(t, i + 1, m) else DoneBy(t, i + 1, m)
  {
    hide IsWord;
    assert t[m.pos..i + 1] == t[m.pos..i] + [t[i]];
    assert m.word[..m.count + 1] == m.word[..m.count] + [m.word[m.count]];
    assert m.count + 1 == |m.word| ==> m.word[..m.count + 1] == m.word;
  }

  lemma PickKeeps(t: string, i: nat, m: Match)
    requires i < |t| && Picked(m, t[i], i)
    ensures if |m.word| > 1 then Under(t, i + 1, m) else DoneBy(t, i + 1, m)
  {
    hide IsWord;
    assert t[i..i + 1] == [t[i]] && m.word[..1] == [m.word[0]];
    assert |m.word| == 1 ==> m.word == m.word[..1];
  }

  // ----- one turn -----

  /** One turn's tracking and picking, before anything is flushed. */
  ghost predicate Turned(t: string, i: nat, words: seq<Match>, complete: seq<Match>, mode: Mode, words': seq<Match>,
                         complete': seq<Match>)
    requires i < |t|
  {
    && (forall m :: m in words' <==>
      (Advanced(m, t[i], words) && m.count + 1 < |m.word|)
        || (!Blocked(mode) && IsKey(t[i]) && Picked(m, t[i], i) && |m.word| > 1))
    && (forall m :: m in complete' <==>
      || m in complete || (Advanced(m, t[i], words) && m.count + 1 == |m.word|)
      || (!Blocked(mode) && IsKey(t[i]) && Picked(m, t[i], i) && |m.word| == 1))
  }

  /** mode ^= QUOTE at a quote. */
  function Toggled(mode: Mode, c: char): Mode {
    if c != QUOTE then mode
    else match mode
      case Initial => Initial
      case Tokenize(q) => Tokenize(!q)
      case Verbatim(q) => Verbatim(!q)
  }

  // ----- every keyword is tracked -----

  predicate TrackedAt(i: nat, w: string, p: nat, words: seq<Match>) { p < i && Match(w, i - p - 1, p) in words }

  /** When i characters are done: every keyword from lo on that is under way is tracked, every one that
      has ended is complete, and LLIST in a text that starts with LIST; and there is nothing else. */
  ghost predicate Tracked(t: string, i: nat, lo: nat, words: seq<Match>, complete: seq<Match>) {
    && (i < |t| ==> forall w, p: nat | lo <= p && Prefixed(t, w, p, i) :: TrackedAt(i, w, p, words))
    && (forall w, p: nat | lo <= p && p + |w| <= i && Occurs(t, w, p) :: Whole(w, p) in complete)
    && (lo == 0 && ListSoFar(t, i) && i < 4 && i < |t| ==> Match("LLIST", i, 0) in words)
    && (lo == 0 && ListFirst(t) && i >= 4 ==> Whole("LLIST", 0) in complete)
    && (forall m :: m in words ==> m.pos >= lo && Under(t, i, m))
    && (forall m :: m in complete ==> m.pos >= lo && DoneBy(t, i, m))
  }

  /** A keyword that is under way behind the next character is tracked then. */
  lemma PrefixNext(t: string, i: nat, lo: nat, w: string, p: nat, words: seq<Match>, complete: seq<Match>, mode: Mode,
                   words': seq<Match>, complete': seq<Match>)
    requires lo <= p <= i < |t| && Tracked(t, i, lo, words, complete)
    requires Turned(t, i, words, complete, mode, words', complete') && (Blocked(mode) ==> t[i] == QUOTE)
    requires IsWord(w) && i + 1 - p <= |w| && t[p..i + 1] == w[..i + 1 - p]
    ensures if i + 1 - p < |w| then TrackedAt(i + 1, w, p, words') else Whole(w, p) in complete'
  {
    hide IsWord, Under, DoneBy, Occurs, ListFirst, ListSoFar;
    assert t[i] == t[p..i + 1][i - p] == w[i - p];
    NoQuoteInWord(w);
    assert w[i - p] in w;
    if p == i {
      WordsAreWellFormed(w);
      assert Picked(Match(w, 0, i), t[i], i);
    } else {
      SliceFront(t, p, i);
      SliceFront(w, 0, i - p);
      assert Prefixed(t, w, p, i) && TrackedAt(i, w, p, words);
      assert Earlier(Match(w, i - p, p)) == Match(w, i - p - 1, p);
      assert Advanced(Match(w, i - p, p), t[i], words);
    }
  }

  lemma SliceFront(s: string, a: nat, b: nat)
    requires a <= b < |s|
    ensures s[a..b] == s[a..b + 1][..b - a]
  {
  }

  lemma ListNext(t: string, i: nat, words: seq<Match>, complete: seq<Match>, mode: Mode, words': seq<Match>,
                 complete': seq<Match>)
    requires i < |t| && Tracked(t, i, 0, words, complete)
    requires Turned(t, i, words, complete, mode, words', complete')
    ensures ListSoFar(t, i + 1) && i < 3 ==> Match("LLIST", i + 1, 0) in words'
    ensures ListFirst(t) && i >= 3 ==> Whole("LLIST", 0) in complete'
  {
    hide IsWord, Under, DoneBy, Occurs, Prefixed;
    ListSoFarOrFirst(t, i);
    ListSoFarOrFirst(t, i + 1);
    if ListSoFar(t, i + 1) && i <= 3 {
      assert Earlier(Match("LLIST", i + 1, 0)) == Match("LLIST", i, 0);
      assert Advanced(Match("LLIST", i + 1, 0), t[i], words);
    }
  }

  lemma TurnKeepsMatches(t: string, i: nat, lo: nat, words: seq<Match>, complete: seq<Match>, mode: Mode,
                         words': seq<Match>, complete': seq<Match>)
    requires lo <= i < |t| && Tracked(t, i, lo, words, complete)
    requires Turned(t, i, words, complete, mode, words', complete')
    ensures forall m :: m in words' ==> m.pos >= lo && Under(t, i + 1, m)
    ensures forall m :: m in complete' ==> m.pos >= lo && DoneBy(t, i + 1, m)
  {
    hide Under, Done, IsWord, Prefixed, Occurs, ListFirst, ListSoFar;
    forall m | Advanced(m, t[i], words)
      ensures m.pos >= lo && if m.count + 1 < |m.word| then Under(t, i + 1, m) else DoneBy(t, i + 1, m)
    {
      TrackKeeps(t, i, m);
    }
    forall m | Picked(m, t[i], i)
      ensures if |m.word| > 1 then Under(t, i + 1, m) else DoneBy(t, i + 1, m)
    {
      PickKeeps(t, i, m);
    }
  }

  /** One turn outside of quotes keeps every keyword tracked; at a quote nothing is under way. */
  lemma TurnTracks(t: string, i: nat, lo: nat, words: seq<Match>, complete: seq<Match>, mode: Mode,
                   words': seq<Match>, complete': seq<Match>)
    requires lo <= i < |t| && Tracked(t, i, lo, words, complete)
    requires Turned(t, i, words, complete, mode, words', complete') && (Blocked(mode) ==> t[i] == QUOTE)
    ensures Tracked(t, i + 1, lo, words', complete')
  {
    hide Under, DoneBy, IsWord, ListFirst, ListSoFar, Turned, Occurs;
    var done := i + 1;
    forall w, p: nat | lo <= p && Prefixed(t, w, p, done)
      ensures TrackedAt(done, w, p, words')
    {
      PrefixNext(t, i, lo, w, p, words, complete, mode, words', complete');
    }
    forall w, p: nat | lo <= p && p + |w| <= i + 1 && Occurs(t, w, p)
      ensures Whole(w, p) in complete'
    {
      OccursThere(t, w, p);
      if p + |w| == i + 1 {
        PrefixNext(t, i, lo, w, p, words, complete, mode, words', complete');
      } else {
        StillComplete(t, i, words, complete, mode, words', complete', Whole(w, p));
      }
    }
    if lo == 0 {
      ListNext(t, i, words, complete, mode, words', complete');
    }
    TurnKeepsMatches(t, i, lo, words, complete, mode, words', complete');
  }

  lemma StillComplete(t: string, i: nat, words: seq<Match>, complete: seq<Match>, mode: Mode, words': seq<Match>,
                      complete': seq<Match>, m: Match)
    requires i < |t| && Turned(t, i, words, complete, mode, words', complete') && m in complete
    ensures m in complete'
  {
  }

  /** Tracked words mean that something is under way, and the other way round. */
  lemma WordsAreUnderWay(t: string, i: nat, lo: nat, words: seq<Match>, complete: seq<Match>)
    requires Tracked(t, i, lo, words, complete) && 0 < i < |t|
    ensures words == [] <==> !UnderWay(t, lo, i)
  {
    hide IsWord, DoneBy, Occurs, ListFirst;
    if words != [] {
      var m := words[0];
      assert m in words;
      UnderIsPrefixed(t, i, m);
    }
  }

  lemma UnderIsPrefixed(t: string, i: nat, m: Match)
    requires Under(t, i, m) && i > 0
    ensures exists w :: Prefixed(t, w, m.pos, i)
  {
    hide IsWord;
    if Partial(t, i, m) {
      assert Prefixed(t, m.word, m.pos, i);
    } else {
      ListPrefixed(t, i);
    }
  }

  lemma ListPrefixed(t: string, i: nat)
    requires 0 < i < 4 && i <= |t| && ListSoFar(t, i)
    ensures Prefixed(t, "LIST", 0, i)
  {
    hide IsWord;
    ListIsWord();
    if i == 1 {
      assert t[0..1] == ['L'] == "LIST"[..1];
    } else if i == 2 {
      assert t[0..2] == ['L', 'I'] == "LIST"[..2];
    } else {
      assert t[0..3] == ['L', 'I', 'S'] == "LIST"[..3];
    }
  }

  lemma ToPrefixed(t: string)
    requires |t| >= 4 && t[3] == 'T'
    ensures Prefixed(t, "TO", 3, 4)
  {
    hide IsWord;
    ToIsWord();
    assert t[3..4] == ['T'] == "TO"[..1];
  }

  // ----- a flush -----

  /** What is complete when a flush comes with character k: whatever is found from lo on, and nothing
      that does not stand there. */
  ghost predicate Gathered(t: string, lo: nat, k: nat, complete: seq<Match>) {
    && (forall p :: lo <= p <= k && Starts(t, p) ==> MatchAt(t, p) in complete)
    && (forall m :: m in complete ==> lo <= m.pos <= k && Done(t, m))
  }

  /** Behind LIST something is under way until LLIST is in the stretch. */
  lemma ListUnderWay(t: string, i: nat)
    requires ListFirst(t) && 0 < i <= 4
    ensures i < |t| ==> UnderWay(t, 0, i)
  {
    hide IsWord, ListSoFar, Prefixed;
    FourLetters(t);
    SecondLetter(t);
    ListSoFarOrFirst(t, i);
    if i < 4 {
      ListPrefixed(t, i);
    } else {
      ToPrefixed(t);
    }
  }

  /** When nothing is under way behind character k, or it is the last, all that is found is complete. */
  lemma AllIsGathered(t: string, k: nat, lo: nat, words: seq<Match>, complete: seq<Match>)
    requires k < |t| && Tracked(t, k + 1, lo, words, complete) && (words == [] || k + 1 == |t|)
    ensures Gathered(t, lo, k, complete) && Settled(t, lo, StretchEnd(t, k))
    ensures k + 1 == |t| || !UnderWay(t, lo, k + 1)
  {
    hide IsWord, MatchAt, Starts, UnderWay, Under, DoneBy, Occurs, ListFirst, Prefixed;
    if k + 1 < |t| {
      WordsAreUnderWay(t, k + 1, lo, words, complete);
    }
    forall p | lo <= p <= k && Starts(t, p)
      ensures MatchAt(t, p) in complete && MatchAt(t, p).End() <= StretchEnd(t, k)
    {
      FoundIsComplete(t, k, lo, words, complete, p);
    }
    LastIsBare(t, k);
    forall m | m in complete
      ensures lo <= m.pos <= k && Done(t, m)
    {
      DoneStarts(t, k + 1, m);
    }
  }

  lemma LastIsBare(t: string, k: nat)
    requires k < |t|
    ensures k + 1 == |t| ==> !Starts(t, k + 1)
  {
    hide LongestFrom;
  }

  lemma DoneStarts(t: string, i: nat, m: Match)
    requires DoneBy(t, i, m) && i > 0
    ensures m.pos < i && Done(t, m)
  {
    hide IsWord;
  }

  lemma FoundIsComplete(t: string, k: nat, lo: nat, words: seq<Match>, complete: seq<Match>, p: nat)
    requires k < |t| && Tracked(t, k + 1, lo, words, complete)
    requires k + 1 == |t| || !UnderWay(t, lo, k + 1)
    requires lo <= p <= k && Starts(t, p)
    ensures MatchAt(t, p) in complete && MatchAt(t, p).End() <= StretchEnd(t, k)
  {
    hide IsWord, MatchAt, Starts, UnderWay, Under, DoneBy, Occurs, ListFirst, Prefixed, Length;
    FoundOccurs(t, p);
    if IsFalse(t, p) {
      if k < 4 {
        ListUnderWay(t, k + 1);
      }
      FourLetters(t);
    } else {
      var w := MatchAt(t, p).word;
      FoundIsWhole(t, p);
      OccursThere(t, w, p);
      if p + |w| > k + 1 {
        UnderWayAt(t, w, p, lo, k + 1);
      }
    }
  }

  lemma FourLetters(t: string)
    ensures ListFirst(t) ==> |t| >= 4
  {
  }

  lemma FoundIsWhole(t: string, p: nat)
    requires Starts(t, p)
    ensures MatchAt(t, p) == Whole(MatchAt(t, p).word, p) && MatchAt(t, p).End() == p + |MatchAt(t, p).word|
  {
  }

  lemma UnderWayAt(t: string, w: string, p: nat, lo: nat, i: nat)
    requires Occurs(t, w, p) && lo <= p < i < p + |w|
    ensures UnderWay(t, lo, i)
  {
    hide IsWord;
    assert t[p..i] == t[p..p + |w|][..i - p];
    assert Prefixed(t, w, p, i);
  }

  /** The longest complete match of each place is what is found there. */
  lemma LongestIsAll(t: string, lo: nat, k: nat, complete: seq<Match>, longest: seq<Match>)
    requires k < |t| && Gathered(t, lo, k, complete) && Longest(Sorted(complete), |complete|, longest)
    requires |Sorted(complete)| == |complete| && forall m :: m in Sorted(complete) <==> m in complete
    ensures longest == AllFrom(t, lo, StretchEnd(t, k))
  {
    hide Sorted, MatchAt, Starts, Done, AllFrom;
    AllFromMembers(t, lo, k + 1);
    var all := AllFrom(t, lo, k + 1);
    forall m | m in all
      ensures m in longest
    {
      var j :| 0 <= j < |complete| && Sorted(complete)[j] == m;
      assert Covered(Sorted(complete)[j], longest);
      var r :| 0 <= r < |longest| && longest[r].pos == m.pos && |longest[r].word| >= |m.word|;
      assert longest[r] in longest && longest[r] in complete;
      AsLongAsFound(t, longest[r]);
    }
    forall m | m in longest
      ensures m in all
    {
      assert m in complete;
      DoneIsFound(t, m);
      var p := m.pos;
      assert MatchAt(t, p) in complete;
      var j :| 0 <= j < |complete| && Sorted(complete)[j] == MatchAt(t, p);
      assert Covered(Sorted(complete)[j], longest);
      var r :| 0 <= r < |longest| && longest[r].pos == MatchAt(t, p).pos && |longest[r].word| >= |MatchAt(t, p).word|;
      FoundIsWhole(t, p);
      assert longest[r] in longest;
      OneMatchAPos(longest, m, longest[r]);
      AsLongAsFound(t, m);
    }
    SameMembers(longest, all);
    AllToEnd(t, lo, k);
  }

  lemma AllToEnd(t: string, lo: nat, k: nat)
    requires k < |t|
    ensures AllFrom(t, lo, StretchEnd(t, k)) == AllFrom(t, lo, k + 1)
  {
    hide MatchAt, Starts;
    LastIsBare(t, k);
  }

  lemma DoneIsFound(t: string, m: Match)
    requires Done(t, m)
    ensures Starts(t, m.pos) && |m.word| <= |MatchAt(t, m.pos).word|
  {
    hide IsWord;
    if Occurs(t, m.word, m.pos) {
      OccursIsFound(t, m.word, m.pos);
    }
  }

  /** A complete match as long as what is found at its place is what is found there. */
  lemma AsLongAsFound(t: string, m: Match)
    requires Done(t, m) && Starts(t, m.pos) && |m.word| >= |MatchAt(t, m.pos).word|
    ensures m == MatchAt(t, m.pos)
  {
    hide IsWord, MatchAt, Starts;
    DoneIsFound(t, m);
    FoundOccurs(t, m.pos);
    FoundIsWhole(t, m.pos);
    if IsFalse(t, m.pos) {
      if Occurs(t, m.word, 0) {
        ShortAtStart(t, m.word);
      }
    } else {
      OccursThere(t, m.word, m.pos);
      OccursThere(t, MatchAt(t, m.pos).word, m.pos);
    }
  }

  // ----- turning what is kept into codes -----

  /** The codes so far are those of the spans so far. */
  predicate Stream(t: string, codes: seq<nat>, spans: seq<Match>, end: nat) {
    AllWords(spans) && codes == Coded(t, spans) && EndOf(spans) == end
  }

  lemma StreamFirst(t: string, codes: seq<nat>, spans: seq<Match>, m: Match, start: nat)
    requires Stream(t, codes, spans, start) && IsWord(m.word) && start <= m.pos <= |t|
    ensures Stream(t, codes + EncodeText(t[start..m.pos]) + [EncodeWord(m.word)], spans + [m], m.End())
  {
    hide IsWord, EncodeText, EncodeWord, Coded, AllWords;
    CodedNext(t, spans, m);
  }

  lemma StreamNext(t: string, codes: seq<nat>, spans: seq<Match>, m: Match, end: nat)
    requires Stream(t, codes, spans, end) && IsWord(m.word) && m.pos == end
    ensures Stream(t, codes + [EncodeWord(m.word)], spans + [m], m.End())
  {
    hide IsWord, EncodeText, EncodeWord, Coded, AllWords, Gap;
    CodedNext(t, spans, m);
    CodedBehind(t, spans, m);
  }

  lemma CodedNext(t: string, spans: seq<Match>, m: Match)
    requires AllWords(spans) && IsWord(m.word)
    ensures AllWords(spans + [m]) && EndOf(spans + [m]) == m.End()
    ensures Coded(t, spans + [m])
         == Coded(t, spans) + EncodeText(Gap(t, EndOf(spans), m.pos)) + [EncodeWord(m.word)]
  {
    hide IsWord, EncodeText, EncodeWord, Gap;
    assert (spans + [m])[..|spans|] == spans;
  }

  /** The next keyword, right behind the last. */
  lemma CodedBehind(t: string, spans: seq<Match>, m: Match)
    requires AllWords(spans) && IsWord(m.word) && m.pos == EndOf(spans)
    ensures Coded(t, spans) + EncodeText(Gap(t, EndOf(spans), m.pos)) == Coded(t, spans)
  {
    hide IsWord, Coded;
    assert Gap(t, m.pos, m.pos) == "";
    assert EncodeText("") == [];
    assert Coded(t, spans) + [] == Coded(t, spans);
  }

  /** The loop that turns what was kept into codes, up to a gap or a change of mode. */
  method Emit(t: string, kept: seq<Match>, start: nat, tokens: seq<nat>, mode: Mode, ghost spans: seq<Match>)
    returns (tokens': seq<nat>, end: nat, mode': Mode, ghost n: nat)
    requires kept != [] && AllWords(kept) && start <= kept[0].pos <= |t|
    requires Stream(t, tokens, spans, start)
    ensures IsGroup(kept, n) && Stream(t, tokens', spans + kept[..n], end) && end == kept[n - 1].End()
    ensures mode' == if Silences(kept[n - 1].word) then Verbatim(false) else mode
  {
    hide EncodeText, EncodeWord, IsWord, Stream;
    tokens' := tokens + EncodeText(t[start..kept[0].pos]);
    end := start;
    mode' := mode;
    n := 0;
    var j := 0;
    while j < |kept|
      invariant j == n <= |kept| && mode' == mode
      invariant j == 0 ==> tokens' == tokens + EncodeText(t[start..kept[0].pos])
      invariant j > 0 ==> Stream(t, tokens', spans + kept[..j], end) && end == kept[j - 1].End()
      invariant forall x :: 0 <= x < j - 1 ==> kept[x].End() == kept[x + 1].pos
      invariant forall x :: 0 <= x < j ==> !Silences(kept[x].word)
    {
      var b := kept[j];
      assert b in kept;
      if j > 0 && b.pos != end {
        break;
      }
      n := j + 1;
      assert spans + kept[..j + 1] == (if j == 0 then spans else spans + kept[..j]) + [b];
      if j == 0 {
        StreamFirst(t, tokens, spans, b, start);
      } else {
        StreamNext(t, tokens', spans + kept[..j], b, end);
      }
      tokens' := tokens' + [EncodeWord(b.word)];
      end := b.End();
      j := j + 1;
      if b.word == "DATA" || b.word == "REM" {
        mode' := Verbatim(false);
        break;
      }
    }
  }

  lemma KeptAreFound(t: string, lo: nat, n: nat)
    requires n <= |t| + 1
    ensures AllWords(Fold(t, lo, n))
    ensures forall m :: m in Fold(t, lo, n) ==> lo <= m.pos < |t| && m.pos < m.End() <= |t| + 1
    ensures Fold(t, lo, n) != [] <==> AllFrom(t, lo, n) != []
  {
    hide IsWord, MatchAt, Starts, Suppressed, AllFrom;
    var all := AllFrom(t, lo, n);
    AllFromMembers(t, lo, n);
    SuppressedWithin(all);
    forall m | m in Fold(t, lo, n)
      ensures IsWord(m.word) && lo <= m.pos < |t| && m.pos < m.End() <= |t| + 1
    {
      assert m in all;
      FoundOccurs(t, m.pos);
      FoundInText(t, m.pos);
    }
    SuppressedNothing(all);
  }

  lemma SuppressedNothing(s: seq<Match>)
    ensures s == [] ==> Suppressed(s) == []
  {
  }

  lemma FoundInText(t: string, p: nat)
    requires Starts(t, p)
    ensures p < |t| && p < MatchAt(t, p).End() <= |t| + 1
  {
  }

  /** A flush, with character k: what is complete is suppressed and turned into codes. What follows its
      keywords in the text's own is the rest behind them. */
  method Flush(t: string, k: nat, start: nat, complete: seq<Match>, tokens: seq<nat>, mode: Mode, ghost lo: nat,
               ghost q: nat, ghost spans: seq<Match>)
    returns (tokens': seq<nat>, end: nat, mode': Mode, ghost spans': seq<Match>)
    requires FlushesAt(t, lo, k) && Gathered(t, lo, k, complete) && Settled(t, lo, StretchEnd(t, k))
    requires complete != [] && start <= lo <= q <= k && Bare(t, lo, q) && Starts(t, q)
    requires Stream(t, tokens, spans, start)
    ensures start < end <= |t| + 1 && spans' != [] && end == spans'[|spans'| - 1].End()
    ensures Stream(t, tokens', spans', end)
    ensures mode' == if Silences(spans'[|spans'| - 1].word) then Verbatim(false) else mode
    ensures k < |t| && spans + Run(t, q, k) == spans' + Rest(t, spans'[|spans'| - 1], k)
  {
    hide IsWord, Sorted, Stream, Suppressed, Kept, Longest, Done, FlushesAt, Gathered, Settled, Starts, MatchAt,
      AllFrom, Silences, Run, Rest, IsGroup, Bare;
    FlushInText(t, lo, k);
    SameMatches(complete);
    var longest := SuppressNonmax(Sorted(complete));
    LongestSays(Sorted(complete), longest);
    LongestIsAll(t, lo, k, complete, longest);
    var kept := SuppressOverlaps(longest);
    KeptAreFound(t, lo, StretchEnd(t, k));
    assert kept == Fold(t, lo, StretchEnd(t, k)) && kept[0] in kept;
    ghost var n: nat;
    tokens', end, mode', n := Emit(t, kept, start, tokens, mode, spans);
    GroupIsSome(kept, n);
    RunIsGroup(t, lo, q, k, k, n);
    spans' := spans + kept[..n];
    assert kept[n - 1] in kept && spans'[|spans'| - 1] == kept[n - 1];
    Assoc(spans, kept[..n], Rest(t, kept[n - 1], k));
  }

  lemma GroupIsSome(kept: seq<Match>, n: nat)
    requires IsGroup(kept, n)
    ensures 0 < n <= |kept|
  {
  }

  lemma SameMatches(complete: seq<Match>)
    ensures |Sorted(complete)| == |complete| && forall m :: m in Sorted(complete) <==> m in complete
  {
    assert multiset(Sorted(complete)) == multiset(complete);
    assert |Sorted(complete)| == |multiset(Sorted(complete))| == |multiset(complete)| == |complete|;
    assert forall m :: m in Sorted(complete) <==> m in multiset(Sorted(complete));
    assert forall m :: m in complete <==> m in multiset(complete);
  }

  lemma LongestSays(s: seq<Match>, longest: seq<Match>)
    requires s != [] && Longest(s, |s|, longest)
    ensures longest != [] && OnePerPos(longest)
  {
  }

  // ----- the loop -----

  ghost predicate Unquoted(t: string, lo: nat, i: nat) { forall p :: lo <= p < i && p < |t| ==> t[p] != QUOTE }

  /** Outside of quotes: the scan since lo, with its first keyword at q, or none before i = q. */
  ghost predicate Scanning(t: string, i: nat, lo: nat, q: nat, words: seq<Match>, complete: seq<Match>,
                           spans: seq<Match>) {
    && lo <= q <= i && Bare(t, lo, q) && Unquoted(t, lo, i) && Tracked(t, i, lo, words, complete)
    && (q < i ==> i < |t| && Starts(t, q) && FlushAt(t, lo, q) == FlushAt(t, lo, i))
    && spans + Open(t, lo, q) == Encoded(t)
  }

  /** What the text's encoded keywords are, when i characters are done and spans are found. */
  ghost predicate Ahead(t: string, i: nat, lo: nat, q: nat, words: seq<Match>, complete: seq<Match>, mode: Mode,
                        spans: seq<Match>) {
    if mode == Tokenize(false) then Scanning(t, i, lo, q, words, complete, spans)
    else (words == [] && complete == [] && !mode.Initial?
          && spans + (if mode.Tokenize? then Shut(t, i) else []) == Encoded(t))
  }

  /** The same after the tracking of character i, before a flush. */
  ghost predicate Scanned(t: string, i: nat, lo: nat, q: nat, words: seq<Match>, complete: seq<Match>,
                          spans: seq<Match>) {
    && i < |t| && lo <= q <= i + 1 && Bare(t, lo, q) && Unquoted(t, lo, i) && Tracked(t, i + 1, lo, words, complete)
    && (t[i] == QUOTE ==> q <= i && words == [])
    && (q < i || (q == i && t[i] != QUOTE) ==> Starts(t, q) && FlushAt(t, lo, q) == FlushAt(t, lo, i))
    && spans + Open(t, lo, q) == Encoded(t)
  }

  /** Outside of quotes one turn goes on with the scan. */
  lemma TurnScans(t: string, i: nat, lo: nat, q: nat, words: seq<Match>, complete: seq<Match>, mode: Mode,
                  words': seq<Match>, complete': seq<Match>, spans: seq<Match>) returns (q': nat)
    requires i < |t| && Scanning(t, i, lo, q, words, complete, spans)
    requires Turned(t, i, words, complete, mode, words', complete') && (Blocked(mode) ==> t[i] == QUOTE)
    ensures Scanned(t, i, lo, q', words', complete', spans)
  {
    hide Tracked, Turned, Starts, Open, Encoded, FlushAt;
    TurnTracks(t, i, lo, words, complete, mode, words', complete');
    q' := q;
    if t[i] == QUOTE {
      QuoteEnds(t, i, lo, words, complete, mode, words', complete');
    } else if q == i && !Starts(t, i) {
      q' := i + 1;
      OpenGoesOn(t, lo, i);
    }
  }

  lemma OpenGoesOn(t: string, lo: nat, i: nat)
    requires i < |t| && t[i] != QUOTE && !Starts(t, i)
    ensures Open(t, lo, i) == Open(t, lo, i + 1)
  {
  }

  /** No keyword goes on with a quote. */
  lemma QuoteEnds(t: string, i: nat, lo: nat, words: seq<Match>, complete: seq<Match>, mode: Mode,
                  words': seq<Match>, complete': seq<Match>)
    requires i < |t| && t[i] == QUOTE && Tracked(t, i, lo, words, complete)
    requires Turned(t, i, words, complete, mode, words', complete')
    ensures words' == []
  {
    hide IsWord, Picked, DoneBy, Occurs, ListFirst, ListSoFar, Prefixed;
    if words' != [] {
      var m := words'[0];
      assert m in words';
      assert Earlier(m) in words && m.word[m.count] in m.word;
      UnderIsWord(t, i, Earlier(m));
      NoQuoteInWord(m.word);
      assert false;
    }
  }

  lemma UnderIsWord(t: string, i: nat, m: Match)
    requires Under(t, i, m)
    ensures IsWord(m.word)
  {
  }

  /** Inside of quotes and behind DATA or REM nothing is matched. */
  lemma TurnSkips(t: string, i: nat, lo: nat, q: nat, words: seq<Match>, complete: seq<Match>, mode: Mode, mode': Mode,
                  words': seq<Match>, complete': seq<Match>, spans: seq<Match>)
    requires i < |t| && Ahead(t, i, lo, q, words, complete, mode, spans) && mode != Tokenize(false)
    requires mode' == Toggled(mode, t[i]) && Turned(t, i, words, complete, mode', words', complete')
    ensures words' == [] && complete' == [] && Ahead(t, i + 1, i + 1, i + 1, [], [], mode', spans)
  {
    hide Tracked, Open, Encoded, Starts, IsWord, Picked;
    SomeMember(words');
    SomeMember(complete');
    ScanBegins(t, i + 1);
  }

  /** A scan that begins has nothing to track. */
  lemma ScanBegins(t: string, i: nat)
    requires i > 0
    ensures Tracked(t, i, i, [], []) && Bare(t, i, i) && Unquoted(t, i, i)
  {
    hide IsWord;
  }

  /** Something is under way, and there is more of the text. */
  lemma NoFlush(t: string, i: nat, lo: nat, q: nat, words: seq<Match>, complete: seq<Match>, spans: seq<Match>)
    requires Scanned(t, i, lo, q, words, complete, spans) && words != [] && i + 1 < |t|
    ensures Scanning(t, i + 1, lo, q, words, complete, spans) && t[i] != QUOTE
  {
    hide Tracked, Starts, Open, Encoded, UnderWay;
    WordsAreUnderWay(t, i + 1, lo, words, complete);
  }

  /** Nothing is under way, and nothing was found. */
  lemma NothingToFlush(t: string, i: nat, lo: nat, q: nat, words: seq<Match>, mode: Mode, spans: seq<Match>)
    requires Scanned(t, i, lo, q, words, [], spans) && (words == [] || i + 1 == |t|)
    requires mode == Toggled(Tokenize(false), t[i])
    ensures Ahead(t, i + 1, lo, q, [], [], mode, spans) && (mode == Tokenize(false) ==> q == i + 1)
  {
    hide Tracked, Starts, Encoded, UnderWay, FlushAt, Settled;
    AllIsGathered(t, i, lo, words, []);
    NothingFound(t, lo, i);
    if t[i] == QUOTE {
      QuoteShuts(t, lo, i);
    } else {
      NothingTracked(t, i + 1, lo, words);
    }
  }

  lemma NothingFound(t: string, lo: nat, k: nat)
    requires Gathered(t, lo, k, [])
    ensures Bare(t, lo, k + 1)
  {
  }

  lemma QuoteShuts(t: string, lo: nat, i: nat)
    requires i < |t| && t[i] == QUOTE
    ensures Open(t, lo, i) == Shut(t, i + 1)
  {
  }

  lemma NothingTracked(t: string, i: nat, lo: nat, words: seq<Match>)
    requires Tracked(t, i, lo, words, []) && (words == [] || i == |t|)
    ensures Tracked(t, i, lo, [], [])
  {
    hide IsWord, Prefixed, Occurs, Under;
  }

  /** Nothing is under way, and something was found. */
  lemma FlushComes(t: string, i: nat, lo: nat, q: nat, words: seq<Match>, complete: seq<Match>, spans: seq<Match>)
    requires Scanned(t, i, lo, q, words, complete, spans) && (words == [] || i + 1 == |t|) && complete != []
    ensures FlushesAt(t, lo, i) && Gathered(t, lo, i, complete) && Settled(t, lo, StretchEnd(t, i))
    ensures q <= i && Starts(t, q) && spans + Run(t, q, i) == Encoded(t)
  {
    hide Tracked, Starts, UnderWay, Settled, Run, Open, Bare, Unquoted, Gathered, FlushAt, Encoded;
    AllIsGathered(t, i, lo, words, complete);
    FirstIsBefore(t, lo, q, i, complete);
    StartIsNoQuote(t, q);
    if t[i] != QUOTE {
      NoQuoteIn(t, lo, i);
    }
    FlushAtHere(t, lo, i);
    RunFromOpen(t, lo, q, i);
  }

  /** The first keyword is no later than what is complete. */
  lemma FirstIsBefore(t: string, lo: nat, q: nat, i: nat, complete: seq<Match>)
    requires Gathered(t, lo, i, complete) && complete != [] && Bare(t, lo, q) && i < |t|
    ensures lo <= i && q <= i && (t[i] == QUOTE ==> q < i)
  {
    hide Done, Starts, MatchAt;
    var m := complete[0];
    assert m in complete;
    DoneIsFound(t, m);
    StartIsNoQuote(t, m.pos);
  }

  lemma FlushAtHere(t: string, lo: nat, i: nat)
    requires i < |t| && (i + 1 == |t| || !UnderWay(t, lo, i + 1))
    ensures FlushAt(t, lo, i) == i
  {
    hide UnderWay;
  }

  lemma NoQuoteIn(t: string, lo: nat, k: nat)
    requires lo <= k < |t| && Unquoted(t, lo, k) && t[k] != QUOTE
    ensures QUOTE !in t[lo..k + 1]
  {
  }

  lemma RunFromOpen(t: string, lo: nat, q: nat, k: nat)
    requires q <= k < |t| && Starts(t, q) && t[q] != QUOTE && FlushAt(t, lo, q) == k
    ensures Open(t, lo, q) == Run(t, q, k)
  {
  }

  /** Behind a flush: the scan goes back to the end of the last keyword, or to the character after the
      next, inside of quotes, when it came with a quote. */
  lemma AfterFlush(t: string, k: nat, end: nat, mode: Mode, mode': Mode, spans: seq<Match>)
    requires k < |t| && end > 0 && spans != [] && end == spans[|spans| - 1].End()
    requires mode == Toggled(Tokenize(false), t[k])
    requires mode' == if Silences(spans[|spans| - 1].word) then Verbatim(false) else mode
    requires spans + Rest(t, spans[|spans| - 1], k) == Encoded(t)
    ensures var i := if t[k] == QUOTE then end + 1 else end; Ahead(t, i, i, i, [], [], mode', spans)
  {
    hide Tracked, Encoded, Open, Shut, Silences;
    ScanBegins(t, end);
  }

  /** The loop of tokenize2 when i characters are done and the codes reach start. */
  ghost predicate Looping(t: string, i: nat, start: nat, lo: nat, q: nat, words: seq<Match>, complete: seq<Match>,
                          mode: Mode, tokens: seq<nat>, spans: seq<Match>) {
    && start <= |t| + 1 && Stream(t, tokens, spans, start) && Ahead(t, i, lo, q, words, complete, mode, spans)
    && (mode.Tokenize? ==> start <= i) && (mode == Tokenize(false) ==> start <= lo)
    && (i >= |t| && mode == Tokenize(false) ==> q >= |t|)
  }

  /** trackwords, the quote and pick_keywords of one turn. */
  method Track(t: string, i: nat, words: seq<Match>, complete: seq<Match>, mode: Mode)
    returns (words': seq<Match>, complete': seq<Match>, mode': Mode)
    requires i < |t| && !mode.Initial? && forall m :: m in words ==> m.count + 1 < |m.word|
    ensures mode' == Toggled(mode, t[i]) && Turned(t, i, words, complete, mode', words', complete')
  {
    hide IsWord;
    words', complete' := TrackWords(t[i], words, complete);
    mode' := mode;
    if t[i] == QUOTE {
      mode' := Toggled(mode, QUOTE);
    }
    words', complete' := PickKeywords(t[i], i, mode', words', complete');
  }

  lemma LoopTracks(t: string, i: nat, start: nat, lo: nat, q: nat, words: seq<Match>, complete: seq<Match>, mode: Mode,
                   tokens: seq<nat>, spans: seq<Match>)
    requires Looping(t, i, start, lo, q, words, complete, mode, tokens, spans)
    ensures !mode.Initial? && forall m :: m in words ==> m.count + 1 < |m.word|
  {
    hide IsWord, Prefixed, Occurs, DoneBy, Partial, PartialList, Encoded, Open, Shut, Stream;
  }

  /** One turn of the loop, flush included. */
  method Turn(t: string, i: nat, start: nat, words: seq<Match>, complete: seq<Match>, mode: Mode, tokens: seq<nat>,
              ghost lo: nat, ghost q: nat, ghost spans: seq<Match>)
    returns (i': nat, start': nat, words': seq<Match>, complete': seq<Match>, mode': Mode, tokens': seq<nat>,
             ghost lo': nat, ghost q': nat, ghost spans': seq<Match>)
    requires i < |t| && Looping(t, i, start, lo, q, words, complete, mode, tokens, spans)
    ensures Looping(t, i', start', lo', q', words', complete', mode', tokens', spans')
    ensures start' > start || (start' == start && i' == i + 1)
  {
    hide Ahead, Scanned, Scanning, Turned, Stream, IsWord, Starts, Run, Rest, Encoded, FlushesAt, Gathered, Settled,
      Bare, Silences;
    LoopTracks(t, i, start, lo, q, words, complete, mode, tokens, spans);
    words', complete', mode' := Track(t, i, words, complete, mode);
    i', start', tokens', lo', q', spans' := i, start, tokens, lo, q, spans;
    if mode == Tokenize(false) {
      AheadScans(t, i, lo, q, words, complete, spans);
      q' := TurnScans(t, i, lo, q, words, complete, mode', words', complete', spans);
    } else {
      TurnSkips(t, i, lo, q, words, complete, mode, mode', words', complete', spans);
      lo', q' := i + 1, i + 1;
    }
    if words' == [] || i + 1 == |t| {
      ghost var under := words';
      words' := [];
      if complete' != [] {
        FlushComes(t, i, lo, q', under, complete', spans);
        ScannedSays(t, i, lo, q', under, complete', spans);
        ghost var toggled := mode';
        tokens', start', mode', spans' := Flush(t, i, start, complete', tokens, mode', lo, q', spans);
        AfterFlush(t, i, start', toggled, mode', spans');
        i' := start';
        if t[i] != QUOTE {
          i' := i' - 1;
        }
        complete' := [];
        lo', q' := i' + 1, i' + 1;
      } else if mode == Tokenize(false) {
        NothingToFlush(t, i, lo, q', under, mode', spans);
      }
    } else {
      NoFlush(t, i, lo, q', words', complete', spans);
      ScansAhead(t, i + 1, lo, q', words', complete', spans);
    }
    i' := i' + 1;
  }

  lemma AheadScans(t: string, i: nat, lo: nat, q: nat, words: seq<Match>, complete: seq<Match>, spans: seq<Match>)
    requires Ahead(t, i, lo, q, words, complete, Tokenize(false), spans)
    ensures Scanning(t, i, lo, q, words, complete, spans)
  {
  }

  lemma ScansAhead(t: string, i: nat, lo: nat, q: nat, words: seq<Match>, complete: seq<Match>, spans: seq<Match>)
    requires Scanning(t, i, lo, q, words, complete, spans)
    ensures Ahead(t, i, lo, q, words, complete, Tokenize(false), spans)
  {
  }

  lemma ScannedSays(t: string, i: nat, lo: nat, q: nat, words: seq<Match>, complete: seq<Match>, spans: seq<Match>)
    requires Scanned(t, i, lo, q, words, complete, spans)
    ensures lo <= q && Bare(t, lo, q)
  {
  }

  /** When the text is done its encoded keywords are all found. */
  lemma LoopEnds(t: string, i: nat, start: nat, lo: nat, q: nat, words: seq<Match>, complete: seq<Match>, mode: Mode,
                 tokens: seq<nat>, spans: seq<Match>)
    requires Looping(t, i, start, lo, q, words, complete, mode, tokens, spans) && i >= |t|
    ensures tokens + EncodeText(t[Min(start, |t|)..]) == Codes(t)
  {
    hide Tracked, Coded, EncodeText, AllWords, Bare, Unquoted, Encoded;
    assert spans + [] == spans;
  }

  lemma LoopBegins(t: string, words: seq<Match>, complete: seq<Match>)
    requires t != ""
    requires IsKey(t[0]) ==> forall m :: m in words <==> Picked(m, t[0], 0) && |m.word| > 1
    requires IsKey(t[0]) ==> forall m :: m in complete <==> Picked(m, t[0], 0) && |m.word| == 1
    requires !IsKey(t[0]) ==> words == [] && complete == []
    ensures Looping(t, 0, 0, 0, 0, words, complete, Tokenize(false), [], [])
  {
    hide IsWord, Open, Under, DoneBy, Prefixed, Occurs, Picked, ListSoFar, ListFirst;
    assert [] + Encoded(t) == Encoded(t);
    forall m | m in words ensures Under(t, 0, m) {
      PickedIsUnder(t, m);
    }
    forall m | m in complete ensures DoneBy(t, 0, m) {
      PickedIsDone(t, m);
    }
    ListIsPicked(t, words);
    NothingBefore(t);
  }

  lemma PickedIsUnder(t: string, m: Match)
    requires t != "" && Picked(m, t[0], 0) && |m.word| > 1
    ensures Under(t, 0, m)
  {
    hide IsWord;
  }

  lemma PickedIsDone(t: string, m: Match)
    requires t != "" && Picked(m, t[0], 0) && |m.word| == 1
    ensures DoneBy(t, 0, m)
  {
    hide IsWord;
    PickKeeps(t, 0, m);
  }

  lemma ListIsPicked(t: string, words: seq<Match>)
    requires t != "" && (IsKey(t[0]) ==> forall m :: m in words <==> Picked(m, t[0], 0) && |m.word| > 1)
    ensures ListSoFar(t, 0) ==> Match("LLIST", 0, 0) in words
  {
    hide IsWord;
    LlistIsWord();
    assert t[0] == 'L' ==> Picked(Match("LLIST", 0, 0), t[0], 0);
  }

  lemma NothingBefore(t: string)
    ensures forall w, p: nat | Prefixed(t, w, p, 0) :: false
    ensures forall w, p: nat | Occurs(t, w, p) :: w != ""
  {
    hide IsWord;
  }

  /** The body of tokenize2: the text's codes are those of the function, and so they expand to what comes
      back of it. */
  method TokenizeText(t: string) returns (tokens: seq<nat>)
    requires t != ""
    ensures tokens == Codes(t)
    ensures Plain(t) ==> CodesOk(tokens) && Expand(tokens) == ComesBack(t)
  {
    hide Looping, IsWord, Expand, CodesOk, EncodeText, Codes, ComesBack;
    var words, complete := PickKeywords(t[0], 0, Initial, [], []);
    var mode := Tokenize(false);
    var i: nat, start: nat := 0, 0;
    tokens := [];
    ghost var lo: nat, q: nat, spans: seq<Match> := 0, 0, [];
    LoopBegins(t, words, complete);
    while i < |t|
      invariant Looping(t, i, start, lo, q, words, complete, mode, tokens, spans)
      decreases |t| + 1 - start, |t| - i
    {
      i, start, words, complete, mode, tokens, lo, q, spans :=
        Turn(t, i, start, words, complete, mode, tokens, lo, q, spans);
      StartInText(t, i, start, lo, q, words, complete, mode, tokens, spans);
    }
    LoopEnds(t, i, start, lo, q, words, complete, mode, tokens, spans);
    tokens := tokens + EncodeText(t[Min(start, |t|)..]);
    if Plain(t) {
      CodesComeBack(t);
    }
  }

  lemma StartInText(t: string, i: nat, start: nat, lo: nat, q: nat, words: seq<Match>, complete: seq<Match>, mode: Mode,
                    tokens: seq<nat>, spans: seq<Match>)
    requires Looping(t, i, start, lo, q, words, complete, mode, tokens, spans)
    ensures start <= |t| + 1
  {
  }
}
