/** Where tokenize2 (bas2txt/bas2asc.py) leaves a keyword as characters, and where it takes a quote
    twice. */
module BasicLosses {
  import opened Bytes
  import opened BasicWords
  import opened BasicMatcher
  import opened BasicSpans
  import opened BasicFlush

  // ----- keywords that stay characters -----

  /** The first place from p where a keyword is found, or behind the text. */
  function First(t: string, p: nat): (q: nat)
    ensures p <= q && (q < |t| ==> Starts(t, q))
    decreases |t| - p
  {
    if p >= |t| || Starts(t, p) then p else First(t, p + 1)
  }

  /** Where the scan for span k began: behind the span before it. */
  function Behind(spans: seq<Match>, k: nat): nat
    requires k <= |spans|
  {
    if k == 0 then 0 else spans[k - 1].End()
  }

  /** The keyword at x shares a character with an encoded one. */
  ghost predicate Overlapped(w: string, x: nat, spans: seq<Match>) {
    exists k :: 0 <= k < |spans| && spans[k].pos < x + |w| && x < spans[k].End()
  }

  /** Position x is behind an encoded DATA or REM. */
  predicate Silent(spans: seq<Match>, x: nat) {
    spans != [] && Silences(spans[|spans| - 1].word) && spans[|spans| - 1].End() <= x
  }

  /** The keyword at x ends no later than where the climb that passes it gets to. */
  ghost predicate Passed(t: string, w: string, x: nat, spans: seq<Match>) {
    exists k :: 0 <= k < |spans| && PassedBy(t, w, x, Behind(spans, k))
  }

  predicate PassedBy(t: string, w: string, x: nat, from: nat) {
    var q := First(t, from);
    from <= x && q < |t| && x + |w| <= Climb(t, q)
  }

  lemma {:induction false} LeftmostClimbs(t: string, p: nat, k: nat)
    requires k < |Leftmost(t, p)|
    ensures var s := Leftmost(t, p);
      var q := First(t, if k == 0 then p else s[k - 1].End());
      q < |t| && s[k] == MatchAt(t, Climb(t, q))
    decreases |t| + 3 - p
  {
    hide Starts, MatchAt, Climb, Silences;
    if !Starts(t, p) {
      LeftmostClimbs(t, p + 1, k);
    } else if k > 0 {
      LongerStarts(t, Climb(t, p), Climb(t, p));
      LeftmostClimbs(t, MatchAt(t, Climb(t, p)).End(), k - 1);
    }
  }

  /** Behind the last encoded keyword nothing is found, unless it is DATA or REM. */
  lemma {:induction false} LeftmostEnds(t: string, p: nat)
    ensures var s := Leftmost(t, p);
      if s == [] then Bare(t, p, |t|) else Silences(s[|s| - 1].word) || Bare(t, s[|s| - 1].End(), |t|)
    decreases |t| + 3 - p
  {
    hide Starts, MatchAt, Climb, Silences;
    if p < |t| {
      if !Starts(t, p) {
        LeftmostEnds(t, p + 1);
      } else {
        LongerStarts(t, Climb(t, p), Climb(t, p));
        LeftmostEnds(t, MatchAt(t, Climb(t, p)).End());
      }
    }
  }

  lemma EncodedIsLeftmost(t: string)
    requires QUOTE !in t
    ensures Encoded(t) == Leftmost(t, 0)
  {
    hide Open, Leftmost;
    OpenIsLeftmost(t, 0, 0);
  }

  /** Every encoded keyword is where the climb from the first keyword behind the one before it ends. */
  lemma SpansAreClimbs(t: string, k: nat)
    requires QUOTE !in t && k < |Encoded(t)|
    ensures var q := First(t, Behind(Encoded(t), k));
      q < |t| && Encoded(t)[k] == MatchAt(t, Climb(t, q)) && Encoded(t)[k].pos == Climb(t, q)
  {
    hide Encoded, Starts, MatchAt, Climb, Leftmost;
    EncodedIsLeftmost(t);
    LeftmostClimbs(t, 0, k);
    var q := First(t, Behind(Encoded(t), k));
    LongerStarts(t, Climb(t, q), Climb(t, q));
  }

  /** The gap of ascending spans that a stretch without any of them lies in. */
  lemma {:induction false} GapOf(spans: seq<Match>, w: string, x: nat, n: nat) returns (k: nat)
    requires n <= |spans| && Disjoint(spans) && w != ""
    requires forall j :: 0 <= j < |spans| ==> spans[j].pos < spans[j].End()
    requires !Overlapped(w, x, spans) && (n < |spans| ==> x < spans[n].End())
    ensures k <= n && Behind(spans, k) <= x && (k < |spans| ==> x + |w| <= spans[k].pos)
  {
    if n > 0 && x < spans[n - 1].End() {
      k := GapOf(spans, w, x, n - 1);
    } else {
      k := n;
    }
  }

  lemma {:induction false} InGapIsBare(spans: seq<Match>, w: string, x: nat, k: nat)
    requires k < |spans| && Disjoint(spans) && forall j :: 0 <= j < |spans| ==> spans[j].pos < spans[j].End()
    requires Behind(spans, k) <= x && x + |w| <= spans[k].pos
    ensures !Overlapped(w, x, spans)
  {
    forall j | 0 <= j < |spans|
      ensures !(spans[j].pos < x + |w| && x < spans[j].End())
    {
      if j < k {
        assert j < k - 1 ==> spans[j].End() <= spans[k - 1].pos;
      } else if j > k {
        assert spans[k].End() <= spans[j].pos;
      }
    }
  }

  lemma SpansHaveLength(t: string)
    ensures Disjoint(Encoded(t)) && forall j :: 0 <= j < |Encoded(t)| ==> Encoded(t)[j].pos < Encoded(t)[j].End()
  {
    hide Encoded, Starts, MatchAt, AllWords;
    EncodedInOrder(t);
    forall j | 0 <= j < |Encoded(t)| ensures Encoded(t)[j].pos < Encoded(t)[j].End() {
      LongerStarts(t, Encoded(t)[j].pos, Encoded(t)[j].pos);
    }
  }

  /** In a text without quotes, a keyword is neither encoded nor overlaps one that is exactly when it lies
      behind DATA or REM, or between the keyword behind which the scan began and the one that the climb
      got to. */
  lemma LostExactly(t: string, w: string, x: nat)
    requires QUOTE !in t && Occurs(t, w, x)
    ensures !Overlapped(w, x, Encoded(t)) <==> Silent(Encoded(t), x) || Passed(t, w, x, Encoded(t))
  {
    hide Encoded, Starts, MatchAt, Climb, Overlapped, Silences, PassedBy, Leftmost, IsWord;
    var spans := Encoded(t);
    OccursThere(t, w, x);
    OccursIsFound(t, w, x);
    SpansHaveLength(t);
    if !Overlapped(w, x, spans) {
      var k := GapOf(spans, w, x, |spans|);
      if k < |spans| {
        PassedWhere(t, w, x, k);
      } else {
        EncodedIsLeftmost(t);
        LeftmostEnds(t, 0);
      }
    }
    if Passed(t, w, x, spans) {
      var k :| 0 <= k < |spans| && PassedBy(t, w, x, Behind(spans, k));
      PassedWhere(t, w, x, k);
      InGapIsBare(spans, w, x, k);
    }
    if Silent(spans, x) {
      BehindAll(w, x, spans);
    }
  }

  lemma PassedWhere(t: string, w: string, x: nat, k: nat)
    requires QUOTE !in t && k < |Encoded(t)|
    ensures PassedBy(t, w, x, Behind(Encoded(t), k))
       <==> Behind(Encoded(t), k) <= x && x + |w| <= Encoded(t)[k].pos
  {
    hide Encoded, MatchAt, Climb;
    SpansAreClimbs(t, k);
  }

  lemma BehindAll(w: string, x: nat, spans: seq<Match>)
    requires Disjoint(spans) && spans != [] && spans[|spans| - 1].End() <= x
    requires forall j :: 0 <= j < |spans| ==> spans[j].pos < spans[j].End()
    ensures !Overlapped(w, x, spans)
  {
    forall j | 0 <= j < |spans|
      ensures x >= spans[j].End()
    {
      assert j < |spans| - 1 ==> spans[j].End() <= spans[|spans| - 1].pos;
    }
  }

  // ----- quotes taken twice -----

  /** The keywords of one flush that comes with the quote at k. */
  function Group(t: string, p: nat, k: nat): (r: seq<Match>)
    requires Starts(t, p)
    ensures r != [] && r[|r| - 1].End() > p
    decreases |t| + 1 - p
  {
    var m := MatchAt(t, Climb(t, p));
    if !Silences(m.word) && m.End() < k && Starts(t, m.End()) && Climb(t, m.End()) == m.End() then
      [m] + Group(t, m.End(), k)
    else [m]
  }

  /** Behind such a flush. A quote that is taken once opens a string that goes on behind it; a flush that
      ends before its quote goes back, the quote is taken again, and what follows it is scanned for
      keywords. Only the false LLIST can reach beyond the quote. */
  ghost function BehindQuote(t: string, last: Match, k: nat): seq<Match> {
    if Silences(last.word) then []
    else if last.End() < k then Open(t, k + 1, k + 1)
    else Shut(t, last.End() + 1)
  }

  lemma {:induction false} ShutToQuote(t: string, i: nat, k: nat)
    requires i <= k < |t| && t[k] == QUOTE && forall x :: i <= x < k ==> t[x] != QUOTE
    ensures Shut(t, i) == Open(t, k + 1, k + 1)
    decreases k - i
  {
    if i < k {
      ShutToQuote(t, i + 1, k);
    }
  }

  lemma {:induction false} RunIsGroupOf(t: string, p: nat, k: nat)
    requires Starts(t, p) && p <= k < |t| && t[k] == QUOTE && forall x :: p <= x < k ==> t[x] != QUOTE
    ensures var g := Group(t, p, k); Run(t, p, k) == g + BehindQuote(t, g[|g| - 1], k)
    decreases |t| + 1 - p
  {
    hide Starts, MatchAt, Climb, Silences, Open, Shut, BehindQuote;
    var m := MatchAt(t, Climb(t, p));
    var e := m.End();
    LongerStarts(t, Climb(t, p), Climb(t, p));
    if !Silences(m.word) && e < k && Starts(t, e) && Climb(t, e) == e {
      RunIsGroupOf(t, e, k);
      var g := Group(t, e, k);
      assert ([m] + g)[|g|] == g[|g| - 1];
      Assoc([m], g, BehindQuote(t, g[|g| - 1], k));
    } else {
      LastAtQuote(t, m, k);
    }
  }

  lemma LastAtQuote(t: string, m: Match, k: nat)
    requires k < |t| && t[k] == QUOTE && forall x :: m.End() <= x < k ==> t[x] != QUOTE
    ensures BehindQuote(t, m, k) == if Silences(m.word) then [] else Shut(t, m.End() + 1)
  {
    hide Open, Shut;
    if m.End() < k {
      ShutToQuote(t, m.End() + 1, k);
    }
  }

  /** What is under way holds no quote. */
  lemma {:induction false} NoQuoteBeforeFlush(t: string, lo: nat, j: nat)
    requires j < |t|
    ensures forall x :: j <= x < FlushAt(t, lo, j) ==> t[x] != QUOTE
    decreases |t| - j
  {
    hide UnderWay;
    if j + 1 < |t| && UnderWay(t, lo, j + 1) {
      UnderWayHasNoQuote(t, lo, j);
      NoQuoteBeforeFlush(t, lo, j + 1);
    }
  }

  lemma UnderWayHasNoQuote(t: string, lo: nat, j: nat)
    requires j < |t| && UnderWay(t, lo, j + 1)
    ensures t[j] != QUOTE
  {
    hide IsWord;
    var w, p: nat :| lo <= p && Prefixed(t, w, p, j + 1);
    NoQuoteInWord(w);
    assert t[j] == t[p..j + 1][j - p] == w[..j + 1 - p][j - p] == w[j - p];
    assert w[j - p] in w;
  }

  /** When a flush comes with a quote, the quote is taken twice exactly when the last keyword of the flush
      ends before it: the scan then goes on outside of quotes, where the string should begin. */
  lemma QuoteTakenTwice(t: string, lo: nat, q: nat)
    requires Starts(t, q) && q < |t| && t[q] != QUOTE && t[FlushAt(t, lo, q)] == QUOTE
    ensures var k, g := FlushAt(t, lo, q), Group(t, q, FlushAt(t, lo, q));
      Open(t, lo, q) == g + BehindQuote(t, g[|g| - 1], k)
  {
    hide Starts, Run, Group, BehindQuote, FlushAt;
    NoQuoteBeforeFlush(t, lo, q);
    RunIsGroupOf(t, q, FlushAt(t, lo, q));
  }

  // ----- two lines -----

  /** How long a keyword found at p can be, with x characters to the end or to a quote. */
  lemma LengthBound(t: string, p: nat, x: nat)
    requires !ListFirst(t) && p <= x <= |t| && (x < |t| ==> t[x] == QUOTE)
    ensures p + Length(t, p) <= x
  {
    hide IsWord, Length, Occurs, MatchAt;
    if Starts(t, p) {
      FoundOccurs(t, p);
      var w := MatchAt(t, p).word;
      OccursThere(t, w, p);
      FoundInside(t, p);
      NoQuoteInWord(w);
      if x < p + |w| {
        CharacterOf(t, w, p, x);
      }
    }
  }

  lemma CharacterOf(t: string, w: string, p: nat, x: nat)
    requires Occurs(t, w, p) && p <= x < p + |w|
    ensures t[x] in w
  {
    hide IsWord;
    assert t[x] == t[p..p + |w|][x - p];
  }

  lemma FoundInside(t: string, p: nat)
    requires Starts(t, p)
    ensures |MatchAt(t, p).word| == Length(t, p)
  {
  }

  /** The keyword that alone begins as the text does at p. */
  lemma OnlyKeyword(t: string, w: string, p: nat)
    requires !ListFirst(t) && Occurs(t, w, p) && |w| >= 2
    requires (w[0] == 'I' && w[1] == 'F') || (w[0] == 'F' && (w[1] == 'R' || w[1] == 'O'))
      || (w[0] == 'P' && w[1] == 'R')
    ensures Starts(t, p) && Length(t, p) == |w| && MatchAt(t, p) == Whole(w, p)
  {
    hide IsWord, Length, MatchAt;
    OccursIsFound(t, w, p);
    FoundOccurs(t, p);
    FoundInside(t, p);
    FoundIsWhole(t, p);
    var v := MatchAt(t, p).word;
    WordsFewBegin(v);
    WordsFewBegin(w);
    FirstLetters(t, w, p);
    FirstLetters(t, v, p);
  }

  lemma FoundIsWhole(t: string, p: nat)
    requires Starts(t, p)
    ensures MatchAt(t, p) == Whole(MatchAt(t, p).word, p)
  {
  }

  lemma ReadFound(t: string)
    requires !ListFirst(t) && |t| == 6 && Occurs(t, "READ", 2)
    ensures Starts(t, 2) && Length(t, 2) == 4 && MatchAt(t, 2) == Whole("READ", 2)
  {
    hide IsWord, Length, MatchAt;
    OccursIsFound(t, "READ", 2);
    LengthBound(t, 2, 6);
    FoundOccurs(t, 2);
    FoundInside(t, 2);
    FoundIsWhole(t, 2);
    OccursThere(t, MatchAt(t, 2).word, 2);
    OccursThere(t, "READ", 2);
  }

  /** The climb from two letters, over three, to the last four of six. */
  lemma ClimbToLast(t: string)
    requires |t| == 6 && Starts(t, 0) && Length(t, 0) == 2 && Length(t, 1) == 3 && Length(t, 2) == 4
    requires forall p :: 2 < p < 6 ==> p + Length(t, p) <= 6
    ensures Starts(t, 2) && Climb(t, 0) == 2
  {
    hide Length;
    assert Climb(t, 0) == ClimbFrom(t, 1, 2) == ClimbFrom(t, 2, 3);
    assert ClimbFrom(t, 2, 3) == ClimbFrom(t, 2, 4) == ClimbFrom(t, 2, 5) == ClimbFrom(t, 2, 6) == 2;
  }

  /** A keyword can get lost: in IFREAD the longer FRE takes over from IF, and READ from FRE, so that IF
      stays characters although READ does not touch it. */
  lemma LostKeyword(t: string)
    requires t == "IFREAD"
    ensures Occurs(t, "IF", 0) && Encoded(t) == [Whole("READ", 2)] && !Overlapped("IF", 0, Encoded(t))
  {
    hide IsWord, Occurs, ListFirst, MatchAt, Starts, Climb, Encoded, Leftmost;
    IfOccurs(t);
    FreOccurs(t);
    ReadOccurs(t);
    NotList(t);
    LostClimbs(t);
    EncodedIsLeftmost(t);
    OneLeftmost(t, 0, Whole("READ", 2));
  }

  lemma IfOccurs(t: string)
    requires t == "IFREAD"
    ensures Occurs(t, "IF", 0)
  {
    hide IsWord, Occurs;
    IfIsWord();
    OccursBy(t, "IF", 0);
  }

  lemma FreOccurs(t: string)
    requires t == "IFREAD"
    ensures Occurs(t, "FRE", 1)
  {
    hide IsWord, Occurs;
    FreIsWord();
    OccursBy(t, "FRE", 1);
  }

  lemma ReadOccurs(t: string)
    requires t == "IFREAD"
    ensures Occurs(t, "READ", 2)
  {
    hide IsWord, Occurs;
    ReadIsWord();
    OccursBy(t, "READ", 2);
  }

  lemma LostClimbs(t: string)
    requires |t| == 6 && !ListFirst(t) && Occurs(t, "IF", 0) && Occurs(t, "FRE", 1) && Occurs(t, "READ", 2)
    ensures Starts(t, 0) && Climb(t, 0) == 2 && Starts(t, 2) && MatchAt(t, 2) == Whole("READ", 2)
  {
    hide IsWord, Occurs, ListFirst, Length, MatchAt, Starts, Climb;
    OnlyKeyword(t, "IF", 0);
    OnlyKeyword(t, "FRE", 1);
    ReadFound(t);
    forall p | 2 < p < 6 ensures p + Length(t, p) <= 6 {
      LengthBound(t, p, 6);
    }
    ClimbToLast(t);
  }

  lemma OneLeftmost(t: string, p: nat, m: Match)
    requires p < |t| && Starts(t, p) && MatchAt(t, Climb(t, p)) == m && m.End() == |t|
    ensures Leftmost(t, p) == [m]
  {
    hide Starts, MatchAt, Climb;
    assert Leftmost(t, |t|) == [];
  }

  /** So its codes are two characters and READ. */
  lemma LostKeywordCodes(t: string)
    requires t == "IFREAD"
    ensures IsWord("READ") && Codes(t) == EncodeText("IF") + [EncodeWord("READ")]
  {
    hide IsWord, EncodeWord, EncodeText, Encoded;
    ReadIsWord();
    LostKeyword(t);
    EncodedInOrder(t);
    var m := Whole("READ", 2);
    OneCoded(t, m);
    assert Gap(t, 0, 2) == "IF" && t[6..] == "";
    NothingEncoded();
    assert Codes(t) == Coded(t, [m]) + EncodeText(t[6..]);
    assert Coded(t, [m]) + [] == Coded(t, [m]);
  }

  lemma OneCoded(t: string, m: Match)
    requires IsWord(m.word)
    ensures AllWords([m]) && Coded(t, [m]) == EncodeText(Gap(t, 0, m.pos)) + [EncodeWord(m.word)]
  {
    hide IsWord, EncodeWord, EncodeText, Gap;
    assert [m][..0] == [];
    assert Coded(t, []) == [];
  }

  lemma NothingEncoded()
    ensures EncodeText("") == []
  {
  }


  /** A climb with nothing longer inside stays where it is. */
  lemma ClimbStays(t: string, p: nat)
    requires Starts(t, p) && forall j :: p < j < p + Length(t, p) ==> Length(t, j) <= Length(t, p)
    ensures Climb(t, p) == p
  {
    hide Length;
    ClimbFromStays(t, p, p + 1);
  }

  lemma {:induction false} ClimbFromStays(t: string, p: nat, j: nat)
    requires Starts(t, p) && p < j && forall x :: j <= x < p + Length(t, p) ==> Length(t, x) <= Length(t, p)
    ensures ClimbFrom(t, p, j) == p
    decreases p + Length(t, p) - j
  {
    hide Length, Starts;
    LongerStarts(t, p, p);
    if j < p + Length(t, p) {
      ClimbFromStays(t, p, j + 1);
    }
  }

  lemma UnderWayBy(t: string, w: string, p: nat, lo: nat, i: nat)
    requires IsWord(w) && lo <= p < i <= |t| && i - p < |w| && t[p..i] == w[..i - p]
    ensures UnderWay(t, lo, i)
  {
    hide IsWord;
    assert Prefixed(t, w, p, i);
  }

  lemma QuoteFlushes(t: string, lo: nat, j: nat)
    requires j < |t| && t[j] == QUOTE
    ensures FlushAt(t, lo, j) == j
  {
    hide UnderWay;
    if UnderWay(t, lo, j + 1) {
      UnderWayHasNoQuote(t, lo, j);
    }
  }

  lemma FlushesLater(t: string, lo: nat, j: nat)
    requires j + 1 < |t| && UnderWay(t, lo, j + 1)
    ensures FlushAt(t, lo, j) == FlushAt(t, lo, j + 1)
  {
    hide UnderWay;
  }

  /** Keyword w stands at p: nothing is flushed before its last character. */
  lemma {:induction false} FlushBehind(t: string, w: string, p: nat, lo: nat, j: nat)
    requires Occurs(t, w, p) && lo <= p <= j < p + |w|
    ensures FlushAt(t, lo, j) == FlushAt(t, lo, p + |w| - 1)
    decreases p + |w| - j
  {
    hide IsWord, UnderWay, FlushAt;
    if j + 1 < p + |w| {
      assert t[p..j + 1] == t[p..p + |w|][..j + 1 - p];
      UnderWayBy(t, w, p, lo, j + 1);
      FlushesLater(t, lo, j);
      FlushBehind(t, w, p, lo, j + 1);
    }
  }

  /** A letter that begins a longer keyword is under way. */
  lemma LetterWaits(t: string, w: string, p: nat, lo: nat)
    requires IsWord(w) && |w| >= 2 && lo <= p && p + 1 < |t| && t[p] == w[0]
    ensures FlushAt(t, lo, p) == FlushAt(t, lo, p + 1)
  {
    hide IsWord, UnderWay, FlushAt;
    assert t[p..p + 1] == [t[p]] == w[..1];
    UnderWayBy(t, w, p, lo, p + 1);
    FlushesLater(t, lo, p);
  }

  lemma FlushAfterA(t: string)
    requires |t| > 6 && Occurs(t, "PRINT", 0) && t[4] == 'T' && t[5] == 'A' && t[6] == QUOTE
    ensures FlushAt(t, 0, 0) == 6
  {
    hide IsWord, UnderWay, FlushAt, Occurs;
    FlushBehind(t, "PRINT", 0, 0, 0);
    TeeWaits(t, 4, 0);
    AWaits(t, 5, 0);
    QuoteFlushes(t, 0, 6);
  }

  lemma TeeWaits(t: string, p: nat, lo: nat)
    requires lo <= p && p + 1 < |t| && t[p] == 'T'
    ensures FlushAt(t, lo, p) == FlushAt(t, lo, p + 1)
  {
    hide IsWord, FlushAt;
    ToIsWord();
    LetterWaits(t, "TO", p, lo);
  }

  lemma AWaits(t: string, p: nat, lo: nat)
    requires lo <= p && p + 1 < |t| && t[p] == 'A'
    ensures FlushAt(t, lo, p) == FlushAt(t, lo, p + 1)
  {
    hide IsWord, FlushAt;
    AtIsWord();
    LetterWaits(t, "AT", p, lo);
  }

  lemma FlushAfterFor(t: string)
    requires |t| > 10 && Occurs(t, "FOR", 7) && t[9] == 'R' && t[10] == QUOTE
    ensures FlushAt(t, 7, 7) == 10
  {
    hide IsWord, UnderWay, FlushAt, Occurs;
    ReadIsWord();
    FlushBehind(t, "FOR", 7, 7, 7);
    LetterWaits(t, "READ", 9, 7);
    QuoteFlushes(t, 7, 10);
  }

  /** A before a quote is no keyword. */
  lemma NoKeywordA(t: string, p: nat)
    requires !ListFirst(t) && p + 1 < |t| && t[p] == 'A' && t[p + 1] == QUOTE
    ensures !Starts(t, p)
  {
    hide IsWord, Length, MatchAt, Occurs;
    LengthBound(t, p, p + 1);
    if Starts(t, p) {
      FoundOccurs(t, p);
      FoundInside(t, p);
      var w := MatchAt(t, p).word;
      OccursThere(t, w, p);
      WordsFewBegin(w);
      FirstLetters(t, w, p);
    }
  }

  /** A keyword alone in a flush that comes with a quote. */
  lemma AloneAtQuote(t: string, lo: nat, p: nat, k: nat)
    requires Starts(t, p) && p < |t| && t[p] != QUOTE && Climb(t, p) == p && FlushAt(t, lo, p) == k && t[k] == QUOTE
    requires !Silences(MatchAt(t, p).word) && !(p + Length(t, p) < k && Starts(t, p + Length(t, p)))
    ensures Open(t, lo, p) == [MatchAt(t, p)] + Shut(t, p + Length(t, p) + 1)
  {
    hide Length, Climb, Shut, FlushAt, Silences;
    LongerStarts(t, p, p);
    var m := MatchAt(t, p);
    assert Open(t, lo, p) == Run(t, p, k) == [m] + Beyond(t, m.End(), k);
  }

  /** In PRINTA"FOR" the flush with the first quote goes back to the A, and the quote is taken again: the
      scan goes on outside of quotes, and FOR is encoded inside the string. */
  lemma KeywordInString(t: string)
    requires t == "PRINTA\"FOR\""
    ensures Encoded(t) == [Whole("PRINT", 0), Whole("FOR", 7)]
  {
    hide IsWord, Occurs, ListFirst, Length, MatchAt, Starts, Open, Shut, Climb, FlushAt, Encoded;
    LineOccurs(t);
    LineClimbs(t);
    FlushAfterA(t);
    FlushAfterFor(t);
    NoKeywordA(t, 5);
    AloneAtQuote(t, 0, 0, 6);
    AloneAtQuote(t, 7, 7, 10);
    LineShuts(t);
    assert [Whole("PRINT", 0)] + ([Whole("FOR", 7)] + []) == [Whole("PRINT", 0), Whole("FOR", 7)];
  }

  lemma LineOccurs(t: string)
    requires t == "PRINTA\"FOR\""
    ensures Occurs(t, "PRINT", 0) && Occurs(t, "FOR", 7) && !ListFirst(t)
  {
    hide IsWord, Occurs, ListFirst;
    PrintOccurs(t);
    ForOccurs(t);
    NotList(t);
  }

  lemma PrintOccurs(t: string)
    requires t == "PRINTA\"FOR\""
    ensures Occurs(t, "PRINT", 0)
  {
    hide IsWord, Occurs;
    PrintIsWord();
    OccursBy(t, "PRINT", 0);
  }

  lemma ForOccurs(t: string)
    requires t == "PRINTA\"FOR\""
    ensures Occurs(t, "FOR", 7)
  {
    hide IsWord, Occurs;
    ForIsWord();
    OccursBy(t, "FOR", 7);
  }

  lemma OccursBy(t: string, w: string, p: nat)
    requires IsWord(w) && w != "" && p + |w| <= |t| && forall i :: 0 <= i < |w| ==> t[p + i] == w[i]
    ensures Occurs(t, w, p)
  {
    hide IsWord;
  }

  lemma NotList(t: string)
    requires t != "" && t[0] != 'L'
    ensures !ListFirst(t)
  {
    SecondLetter(t);
  }

  lemma LineClimbs(t: string)
    requires |t| == 11 && t[6] == t[10] == QUOTE && Occurs(t, "PRINT", 0) && Occurs(t, "FOR", 7) && !ListFirst(t)
    ensures Starts(t, 0) && Climb(t, 0) == 0 && MatchAt(t, 0) == Whole("PRINT", 0) && Length(t, 0) == 5
    ensures Starts(t, 7) && Climb(t, 7) == 7 && MatchAt(t, 7) == Whole("FOR", 7) && Length(t, 7) == 3
  {
    hide IsWord, Occurs, ListFirst, Length, MatchAt, Climb;
    OnlyKeyword(t, "PRINT", 0);
    OnlyKeyword(t, "FOR", 7);
    forall p | 0 < p < 5 ensures Length(t, p) <= 5 {
      LengthBound(t, p, 6);
    }
    forall p | 7 < p < 10 ensures Length(t, p) <= 3 {
      LengthBound(t, p, 10);
    }
    ClimbStays(t, 0);
    ClimbStays(t, 7);
  }

  lemma LineShuts(t: string)
    requires |t| == 11 && t[6] == QUOTE
    ensures Encoded(t) == Open(t, 0, 0) && Shut(t, 6) == Open(t, 7, 7) && Shut(t, 11) == []
  {
  }
}
