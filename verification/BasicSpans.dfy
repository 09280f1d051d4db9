/** Which keywords of a BASIC text become codes (bas2txt/bas2asc.py: tokenize2), as a function of the
    text: from left to right the leftmost keyword, then for as long as there is one the next longer
    keyword that starts inside it. */
module BasicSpans {
  import opened Bytes
  import opened BasicWords
  import opened BasicMatcher

  // ----- keywords in a text -----

  predicate ListFirst(t: string) { |t| >= 4 && t[..4] == "LIST" }

  /** Keyword w stands at p. */
  predicate Occurs(t: string, w: string, p: nat) {
    IsWord(w) && w != "" && p + |w| <= |t| && t[p..p + |w|] == w
  }

  /** The keywords of the first letter are picked once before the loop and tracked again on that
      letter, so that LLIST, which repeats it, is found in a text that starts with LIST. */
  predicate IsFalse(t: string, p: nat) { p == 0 && ListFirst(t) }

  /** The length of the longest keyword at p, of at most n characters. */
  function LongestFrom(t: string, p: nat, n: nat): (r: nat)
    requires p + n <= |t|
    ensures r <= n
  {
    if n == 0 then 0 else if IsWord(t[p..p + n]) then n else LongestFrom(t, p, n - 1)
  }

  /** The length of what is found at p, 0 for nothing. */
  function Length(t: string, p: nat): (n: nat)
    ensures p + n <= |t| + 1 || n == 0
  {
    if IsFalse(t, p) then 5 else if p >= |t| then 0 else LongestFrom(t, p, |t| - p)
  }

  predicate Starts(t: string, p: nat) { Length(t, p) > 0 }

  function Whole(w: string, p: nat): Match { Match(w, if w == "" then 0 else |w| - 1, p) }

  /** What is found at p: the longest keyword, or the false LLIST. */
  function MatchAt(t: string, p: nat): (m: Match)
    requires Starts(t, p)
    ensures m.pos == p && |m.word| == Length(t, p) && m == Whole(m.word, p) && p < m.End() <= |t| + 1 && p < |t|
  {
    if IsFalse(t, p) then Whole("LLIST", 0) else Whole(t[p..p + Length(t, p)], p)
  }

  lemma {:induction false} LongestIsWord(t: string, p: nat, n: nat)
    requires p + n <= |t|
    ensures var r := LongestFrom(t, p, n); r > 0 ==> IsWord(t[p..p + r])
  {
    hide IsWord;
    if n > 0 && !IsWord(t[p..p + n]) {
      LongestIsWord(t, p, n - 1);
    }
  }

  lemma {:induction false} LongestIsLongest(t: string, p: nat, n: nat, w: string)
    requires p + n <= |t| && Occurs(t, w, p) && |w| <= n
    ensures |w| <= LongestFrom(t, p, n)
  {
    hide IsWord;
    if |w| < n {
      LongestIsLongest(t, p, n - 1, w);
    }
  }

  /** No keyword that truly starts with LIST is as long as LLIST. */
  lemma ShortAtStart(t: string, w: string)
    requires ListFirst(t) && Occurs(t, w, 0)
    ensures |w| < 5
  {
    hide IsWord;
    WordsAreWellFormed(w);
    SecondLetter(t);
    if |w| >= 2 {
      assert w[0] == t[..|w|][0] && w[1] == t[..|w|][1];
    }
  }

  lemma SecondLetter(t: string)
    ensures ListFirst(t) ==> t[0] == 'L' && t[1] == 'I' && t[2] == 'S' && t[3] == 'T'
  {
    if ListFirst(t) {
      assert t[0] == t[..4][0] && t[1] == t[..4][1] && t[2] == t[..4][2] && t[3] == t[..4][3];
    }
  }

  /** A keyword at p is found there, or a longer one is. */
  lemma OccursIsFound(t: string, w: string, p: nat)
    requires Occurs(t, w, p)
    ensures Starts(t, p) && |w| <= Length(t, p)
  {
    hide IsWord;
    if IsFalse(t, p) {
      ShortAtStart(t, w);
    } else {
      LongestIsLongest(t, p, |t| - p, w);
    }
  }

  /** What is found stands there, but for the false LLIST. */
  lemma FoundOccurs(t: string, p: nat)
    requires Starts(t, p)
    ensures IsFalse(t, p) ==> MatchAt(t, p) == Match("LLIST", 4, 0)
    ensures !IsFalse(t, p) ==> Occurs(t, MatchAt(t, p).word, p) && p + Length(t, p) <= |t|
    ensures IsWord(MatchAt(t, p).word)
  {
    hide IsWord, MatchAt, Length, Occurs;
    if IsFalse(t, p) {
      FalseFound(t);
      LlistIsWord();
    } else {
      TrueFound(t, p);
      OccursThere(t, MatchAt(t, p).word, p);
    }
  }

  lemma FalseFound(t: string)
    requires ListFirst(t)
    ensures Starts(t, 0) && MatchAt(t, 0) == Match("LLIST", 4, 0)
  {
  }

  lemma TrueFound(t: string, p: nat)
    requires Starts(t, p) && !IsFalse(t, p)
    ensures Occurs(t, MatchAt(t, p).word, p)
  {
    hide IsWord, ListFirst;
    LongestIsWord(t, p, |t| - p);
    var n := Length(t, p);
    SliceOccurs(t, p, n);
  }

  lemma SliceOccurs(t: string, p: nat, n: nat)
    requires 0 < n && p + n <= |t| && IsWord(t[p..p + n])
    ensures Occurs(t, t[p..p + n], p)
  {
    hide IsWord;
  }

  // ----- the climb -----

  /** The climb from the keyword at p, seen up to j: each longer keyword that starts inside takes over. */
  function ClimbFrom(t: string, p: nat, j: nat): (r: nat)
    requires Starts(t, p) && p < j
    ensures p <= r && Starts(t, r) && Length(t, r) >= Length(t, p)
    decreases |t| + 1 - j
  {
    if j >= MatchAt(t, p).End() then p
    else if Length(t, j) > Length(t, p) then ClimbFrom(t, j, j + 1)
    else ClimbFrom(t, p, j + 1)
  }

  /** Where the climb from p ends. */
  function Climb(t: string, p: nat): (r: nat)
    requires Starts(t, p)
    ensures p <= r && Starts(t, r)
  {
    ClimbFrom(t, p, p + 1)
  }

  // ----- the encoded keywords -----

  predicate Silences(w: string) { w == "DATA" || w == "REM" }

  /** A keyword whose first characters stand from p up to i, with more of it to come. */
  predicate Prefixed(t: string, w: string, p: nat, i: nat) {
    IsWord(w) && p < i <= |t| && i - p < |w| && t[p..i] == w[..i - p]
  }

  /** Some keyword that starts at or behind lo is under way when i characters are done. */
  ghost predicate UnderWay(t: string, lo: nat, i: nat) {
    exists w, p: nat :: lo <= p && Prefixed(t, w, p, i)
  }

  /** The character with which a flush comes: the first from j on that leaves nothing under way, or the
      last. */
  ghost function FlushAt(t: string, lo: nat, j: nat): (k: nat)
    requires j < |t|
    ensures j <= k < |t|
    decreases |t| - j
  {
    if j + 1 == |t| || !UnderWay(t, lo, j + 1) then j else FlushAt(t, lo, j + 1)
  }

  /** Outside of quotes since lo, with nothing found before i. */
  ghost function Open(t: string, lo: nat, i: nat): seq<Match>
    decreases |t| + 3 - i, 1
  {
    if i >= |t| then []
    else if t[i] == QUOTE then Shut(t, i + 1)
    else if !Starts(t, i) then Open(t, lo, i + 1)
    else Run(t, i, FlushAt(t, lo, i))
  }

  /** Inside of quotes. */
  ghost function Shut(t: string, i: nat): seq<Match>
    decreases |t| + 3 - i, 1
  {
    if i >= |t| then [] else if t[i] == QUOTE then Open(t, i + 1, i + 1) else Shut(t, i + 1)
  }

  /** From the keyword at p on, in a flush that comes with character k. */
  ghost function Run(t: string, p: nat, k: nat): seq<Match>
    requires Starts(t, p)
    decreases |t| + 3 - p, 0
  {
    var m := MatchAt(t, Climb(t, p));
    [m] + if Silences(m.word) then [] else Beyond(t, m.End(), k)
  }

  /** Behind a keyword that ends at e. At a quote the flush goes on with the keywords right behind, and
      the scan with the character after the next. */
  ghost function Beyond(t: string, e: nat, k: nat): seq<Match>
    requires e <= |t| + 1
    decreases |t| + 3 - e, 2
  {
    if !(k < |t| && t[k] == QUOTE) then Open(t, e, e)
    else if e < k && Starts(t, e) && Climb(t, e) == e then Run(t, e, k)
    else Shut(t, e + 1)
  }

  /** The keywords of a text that become codes. */
  ghost function Encoded(t: string): seq<Match> { Open(t, 0, 0) }

  /** Without quotes: the leftmost keyword from p, its climb, and on behind that. */
  function Leftmost(t: string, p: nat): seq<Match>
    decreases |t| + 3 - p
  {
    if p >= |t| then []
    else if !Starts(t, p) then Leftmost(t, p + 1)
    else
      var m := MatchAt(t, Climb(t, p));
      [m] + if Silences(m.word) then [] else Leftmost(t, m.End())
  }

  // ----- in order -----

  /** What is found at ascending places of a text, from a place on, without overlaps. */
  ghost predicate InOrder(t: string, from: nat, spans: seq<Match>) {
    && (forall k :: 0 <= k < |spans| ==>
          spans[k].pos >= from && Starts(t, spans[k].pos) && spans[k] == MatchAt(t, spans[k].pos))
    && Disjoint(spans)
  }

  lemma InOrderLater(t: string, from: nat, later: nat, spans: seq<Match>)
    requires InOrder(t, later, spans) && from <= later
    ensures InOrder(t, from, spans)
  {
  }

  lemma InOrderFirst(t: string, p: nat, spans: seq<Match>)
    requires Starts(t, p) && InOrder(t, MatchAt(t, p).End(), spans)
    ensures InOrder(t, p, [MatchAt(t, p)] + spans)
  {
    hide Starts, MatchAt;
  }

  lemma {:induction false} OpenInOrder(t: string, lo: nat, i: nat)
    ensures InOrder(t, i, Open(t, lo, i))
    decreases |t| + 3 - i, 1
  {
    hide InOrder, MatchAt, Starts, Run, Climb, FlushAt;
    NothingInOrder(t, i);
    if i < |t| {
      if t[i] == QUOTE {
        ShutInOrder(t, i + 1);
        InOrderLater(t, i, i + 1, Shut(t, i + 1));
      } else if !Starts(t, i) {
        OpenInOrder(t, lo, i + 1);
        InOrderLater(t, i, i + 1, Open(t, lo, i + 1));
      } else {
        RunInOrder(t, i, FlushAt(t, lo, i));
      }
    }
  }

  lemma {:induction false} ShutInOrder(t: string, i: nat)
    ensures InOrder(t, i, Shut(t, i))
    decreases |t| + 3 - i, 1
  {
    hide InOrder, Open;
    NothingInOrder(t, i);
    if i < |t| {
      if t[i] == QUOTE {
        OpenInOrder(t, i + 1, i + 1);
        InOrderLater(t, i, i + 1, Open(t, i + 1, i + 1));
      } else {
        ShutInOrder(t, i + 1);
        InOrderLater(t, i, i + 1, Shut(t, i + 1));
      }
    }
  }

  lemma {:induction false} RunInOrder(t: string, p: nat, k: nat)
    requires Starts(t, p)
    ensures InOrder(t, p, Run(t, p, k))
    decreases |t| + 3 - p, 0
  {
    hide InOrder, Open, Shut, Starts, Climb, Silences;
    var q := Climb(t, p);
    var m := MatchAt(t, q);
    NothingInOrder(t, m.End());
    if !Silences(m.word) {
      BeyondInOrder(t, m.End(), k);
      InOrderFirst(t, q, Beyond(t, m.End(), k));
    } else {
      InOrderFirst(t, q, []);
    }
    InOrderLater(t, p, q, Run(t, p, k));
  }

  lemma {:induction false} BeyondInOrder(t: string, e: nat, k: nat)
    requires e <= |t| + 1
    ensures InOrder(t, e, Beyond(t, e, k))
    decreases |t| + 3 - e, 2
  {
    hide InOrder, Open, Shut, Run, Starts, Climb;
    if !(k < |t| && t[k] == QUOTE) {
      OpenInOrder(t, e, e);
    } else if e < k && Starts(t, e) && Climb(t, e) == e {
      RunInOrder(t, e, k);
    } else {
      ShutInOrder(t, e + 1);
      InOrderLater(t, e, e + 1, Shut(t, e + 1));
    }
  }

  lemma NothingInOrder(t: string, from: nat)
    ensures InOrder(t, from, [])
  {
  }

  /** In a text without quotes the flushes do not matter. */
  lemma {:induction false} OpenIsLeftmost(t: string, lo: nat, i: nat)
    requires QUOTE !in t
    ensures Open(t, lo, i) == Leftmost(t, i)
    decreases |t| + 3 - i
  {
    hide IsWord, FlushAt;
    if i < |t| {
      if !Starts(t, i) {
        OpenIsLeftmost(t, lo, i + 1);
      } else {
        var e := MatchAt(t, Climb(t, i)).End();
        OpenIsLeftmost(t, e, e);
        NoQuoteBeyond(t, e, FlushAt(t, lo, i));
        assert Open(t, lo, i) == Run(t, i, FlushAt(t, lo, i));
      }
    }
  }

  lemma NoQuoteBeyond(t: string, e: nat, k: nat)
    requires e <= |t| + 1 && (k < |t| ==> t[k] != QUOTE)
    ensures Beyond(t, e, k) == Open(t, e, e)
  {
  }

  // ----- the codes -----

  /** The end of the last of some encoded keywords. */
  function EndOf(spans: seq<Match>): nat { if spans == [] then 0 else spans[|spans| - 1].End() }

  function Gap(t: string, from: nat, to: nat): string { if from <= to <= |t| then t[from..to] else "" }

  predicate AllWords(spans: seq<Match>) { forall m :: m in spans ==> IsWord(m.word) }

  /** The codes of a text up to the last of its encoded keywords: the characters between them, one by
      one, and a code for each of them. */
  function Coded(t: string, spans: seq<Match>): seq<nat>
    requires AllWords(spans)
  {
    if spans == [] then []
    else
      var front, last := spans[..|spans| - 1], spans[|spans| - 1];
      assert last in spans;
      Coded(t, front) + EncodeText(Gap(t, EndOf(front), last.pos)) + [EncodeWord(last.word)]
  }

  lemma InOrderAreWords(t: string, spans: seq<Match>)
    requires InOrder(t, 0, spans)
    ensures AllWords(spans)
  {
    hide IsWord, MatchAt;
    forall m | m in spans ensures IsWord(m.word) {
      var k :| 0 <= k < |spans| && spans[k] == m;
      FoundOccurs(t, spans[k].pos);
    }
  }

  lemma EncodedInOrder(t: string)
    ensures InOrder(t, 0, Encoded(t)) && AllWords(Encoded(t))
  {
    hide IsWord, Open, InOrder, AllWords;
    OpenInOrder(t, 0, 0);
    InOrderAreWords(t, Encoded(t));
  }

  /** The codes of a text. */
  ghost function Codes(t: string): seq<nat> {
    EncodedInOrder(t);
    Coded(t, Encoded(t)) + EncodeText(t[Min(EndOf(Encoded(t)), |t|)..])
  }

  // ----- what comes back -----

  /** Keyword w stands right behind the first four characters and is longer than LLIST. */
  predicate LongAt(t: string, w: string) {
    IsWord(w) && |w| > 5 && 4 + |w| <= |t| && t[4..4 + |w|] == w
  }

  /** LLIST is found in a text that starts with LIST; only a longer keyword that starts inside the false
      match takes it away again. */
  ghost predicate Misread(t: string) {
    ListFirst(t) && !exists w :: LongAt(t, w)
  }

  /** What the first n characters come back as. */
  ghost function Back(t: string, n: nat): string {
    if Misread(t) && n >= 5 then "LLIST" + t[Min(5, |t|)..Min(n, |t|)] else t[..Min(n, |t|)]
  }

  /** What the whole text comes back as. */
  ghost function ComesBack(t: string): string {
    if Misread(t) then "LLIST" + t[Min(5, |t|)..] else t
  }

  /** A text comes back unchanged exactly when it is not misread. */
  lemma ComesBackExactly(t: string)
    ensures ComesBack(t) == t <==> !Misread(t)
  {
    if Misread(t) {
      assert ComesBack(t)[1] == 'L' && t[..4][1] == 'I';
    }
  }

  /** No keyword longer than LLIST starts inside LIST. */
  lemma InsideList(t: string, j: nat)
    requires ListFirst(t) && 0 < j < 4
    ensures Length(t, j) <= 5
  {
    hide IsWord, Length;
    SecondLetter(t);
    if Starts(t, j) {
      FoundOccurs(t, j);
      var w := MatchAt(t, j).word;
      WordsAreWellFormed(w);
      FirstLetters(t, w, j);
    }
  }

  lemma FirstLetters(t: string, w: string, p: nat)
    requires Occurs(t, w, p)
    ensures w[0] == t[p] && (|w| >= 2 ==> w[1] == t[p + 1])
  {
    hide IsWord;
    assert w[0] == t[p..p + |w|][0];
    assert |w| >= 2 ==> w[1] == t[p..p + |w|][1];
  }

  lemma BehindList(t: string)
    requires ListFirst(t)
    ensures Length(t, 4) > 5 <==> exists w :: LongAt(t, w)
  {
    hide IsWord, Length;
    if Length(t, 4) > 5 {
      FoundOccurs(t, 4);
      assert LongAt(t, MatchAt(t, 4).word);
    }
    if w :| LongAt(t, w) {
      OccursIsFound(t, w, 4);
    }
  }

  /** The climb stays at the false LLIST exactly when the text is misread. */
  lemma ClimbAtList(t: string)
    requires ListFirst(t)
    ensures Starts(t, 0) && (Climb(t, 0) == 0 <==> Misread(t))
  {
    InsideList(t, 1);
    InsideList(t, 2);
    InsideList(t, 3);
    BehindList(t);
    hide LongAt, Misread, IsWord, LongestFrom, ListFirst;
    assert MatchAt(t, 0).End() == 5;
    assert Climb(t, 0) == ClimbFrom(t, 0, 2) == ClimbFrom(t, 0, 3) == ClimbFrom(t, 0, 4);
  }

  /** The first encoded keyword is the false LLIST exactly when the text is misread. */
  lemma FirstIsFalse(t: string)
    requires t != ""
    ensures Misread(t) <==> Encoded(t) != [] && IsFalse(t, Encoded(t)[0].pos)
  {
    hide IsWord, Misread, Beyond, MatchAt, Climb;
    SecondLetter(t);
    if ListFirst(t) {
      ClimbAtList(t);
      assert Encoded(t) == Run(t, 0, FlushAt(t, 0, 0));
    } else {
      NotMisread(t);
    }
  }

  lemma NotMisread(t: string)
    ensures Misread(t) ==> ListFirst(t)
  {
  }

  /** A keyword more. */
  lemma BackNext(t: string, from: nat, p: nat)
    requires Starts(t, p) && from <= p && if IsFalse(t, p) then Misread(t) else !Misread(t) || from >= 5
    ensures Back(t, from) + Gap(t, from, p) + MatchAt(t, p).word == Back(t, MatchAt(t, p).End())
  {
    hide IsWord, Misread, Occurs, MatchAt, ListFirst;
    var m := MatchAt(t, p);
    FoundOccurs(t, p);
    if IsFalse(t, p) {
      assert Back(t, 0) + Gap(t, 0, 0) == "" && "" + "LLIST" == "LLIST" + t[Min(5, |t|)..Min(5, |t|)];
    } else {
      OccursThere(t, m.word, p);
      var a := if Misread(t) then 5 else 0;
      JoinSlices(t, a, from, p);
      JoinSlices(t, a, p, m.End());
      if Misread(t) {
        Assoc("LLIST", t[5..from], t[from..p]);
        Assoc("LLIST", t[5..p], m.word);
      }
    }
  }

  lemma OccursThere(t: string, w: string, p: nat)
    requires Occurs(t, w, p)
    ensures IsWord(w) && w != "" && p + |w| <= |t| && t[p..p + |w|] == w
  {
    hide IsWord;
  }

  lemma JoinSlices(t: string, a: nat, b: nat, c: nat)
    requires a <= b <= c <= |t|
    ensures t[a..c] == t[a..b] + t[b..c]
  {
  }

  /** The false match comes first, if at all, and exactly when the text is misread. */
  ghost predicate FalseFirst(t: string, spans: seq<Match>) {
    spans != [] ==> (Misread(t) <==> IsFalse(t, spans[0].pos))
  }

  lemma InOrderSays(t: string, spans: seq<Match>)
    requires InOrder(t, 0, spans) && FalseFirst(t, spans) && spans != []
    ensures var front, p := spans[..|spans| - 1], spans[|spans| - 1].pos;
      && InOrder(t, 0, front) && FalseFirst(t, front) && EndOf(front) <= p
      && Starts(t, p) && spans[|spans| - 1] == MatchAt(t, p)
      && (front != [] ==> !IsFalse(t, p) && (Misread(t) ==> EndOf(front) >= 5))
  {
    hide MatchAt, Misread, ListFirst;
    var front := spans[..|spans| - 1];
    if |spans| > 1 {
      MatchEnds(t, spans[0].pos);
    }
  }

  lemma MatchEnds(t: string, p: nat)
    requires Starts(t, p)
    ensures MatchAt(t, p).End() > p && (IsFalse(t, p) ==> MatchAt(t, p).End() == 5)
  {
  }

  lemma {:induction false} CodedComesBack(t: string, spans: seq<Match>)
    requires InOrder(t, 0, spans) && FalseFirst(t, spans) && Plain(t)
    ensures AllWords(spans) && CodesOk(Coded(t, spans)) && Expand(Coded(t, spans)) == Back(t, EndOf(spans))
  {
    hide IsWord, InOrder, FalseFirst, MatchAt, Misread, Back, Expand, CodesOk, EncodeText, EncodeWord, AllWords, Gap;
    InOrderAreWords(t, spans);
    if spans == [] {
      NothingBack(t);
    } else {
      var front, last := spans[..|spans| - 1], spans[|spans| - 1];
      InOrderSays(t, spans);
      InOrderAreWords(t, front);
      CodedComesBack(t, front);
      assert front + [MatchAt(t, last.pos)] == spans;
      LastBack(t, front, last.pos);
      LastIsWord(spans);
      var gap := Gap(t, EndOf(front), last.pos);
      GapComesBack(t, EndOf(front), last.pos);
      ExpandAppend(Coded(t, front), EncodeText(gap));
      WordComesBack(Coded(t, front) + EncodeText(gap), last.word);
    }
  }

  lemma LastIsWord(spans: seq<Match>)
    requires AllWords(spans) && spans != []
    ensures IsWord(spans[|spans| - 1].word)
  {
    hide IsWord;
  }

  lemma LastBack(t: string, front: seq<Match>, p: nat)
    requires Starts(t, p) && EndOf(front) <= p && FalseFirst(t, front + [MatchAt(t, p)])
    requires front != [] ==> !IsFalse(t, p) && (Misread(t) ==> EndOf(front) >= 5)
    ensures Back(t, EndOf(front)) + Gap(t, EndOf(front), p) + MatchAt(t, p).word == Back(t, MatchAt(t, p).End())
  {
    hide IsWord, Back, Gap, Misread, ListFirst;
    BackNext(t, EndOf(front), p);
  }

  lemma GapComesBack(t: string, from: nat, to: nat)
    requires Plain(t)
    ensures var gap := Gap(t, from, to); CodesOk(EncodeText(gap)) && Expand(EncodeText(gap)) == gap
  {
    hide Expand, CodesOk, EncodeText;
    TextComesBack(Gap(t, from, to));
  }

  lemma NothingBack(t: string)
    ensures AllWords([]) && CodesOk(Coded(t, [])) && Expand(Coded(t, [])) == Back(t, EndOf([]))
  {
  }

  /** The codes of a text of surviving characters expand to the text, or to LLIST and the rest of it
      when it is misread. */
  lemma CodesComeBack(t: string)
    requires t != "" && Plain(t)
    ensures CodesOk(Codes(t)) && Expand(Codes(t)) == ComesBack(t)
  {
    hide IsWord, InOrder, Misread, Encoded, Coded, Expand, CodesOk, EncodeText;
    EncodedInOrder(t);
    FirstIsFalse(t);
    var spans := Encoded(t);
    var rest := t[Min(EndOf(spans), |t|)..];
    CodedComesBack(t, spans);
    TextComesBack(rest);
    ExpandAppend(Coded(t, spans), EncodeText(rest));
    RestBack(t, spans);
  }

  lemma RestBack(t: string, spans: seq<Match>)
    requires InOrder(t, 0, spans) && (Misread(t) <==> spans != [] && IsFalse(t, spans[0].pos))
    ensures Back(t, EndOf(spans)) + t[Min(EndOf(spans), |t|)..] == ComesBack(t)
  {
    hide Misread, MatchAt, ListFirst;
    var e := EndOf(spans);
    if Misread(t) {
      MatchEnds(t, spans[0].pos);
      assert e >= 5;
      JoinSlices(t, Min(5, |t|), Min(e, |t|), |t|);
      Assoc("LLIST", t[Min(5, |t|)..Min(e, |t|)], t[Min(e, |t|)..]);
    }
  }
}
