/** The vocabulary of the BASIC converter (bas2txt/bas2asc.py, class Tokens): keywords, characters
    and their codes. */
module BasicWords {
  // Words, in the order of their codes, in four stretches
  const WORDS_A: seq<string> := [
    "CLS", "FOR", "NEXT", "DATA", "INPUT", "DIM", "READ", "CUR", "GOTO", "RUN", "IF", "RESTORE", "GOSUB",
    "RETURN", "REM", "STOP", "OUT", "ON", "PLOT", "LINE", "POKE", "PRINT", "DEF", "CONT", "LIST", "CLEAR"]
  const WORDS_B: seq<string> := [
    "CLOAD", "CSAVE", "NEW", "TAB(", "TO", "SPC(", "FN", "THEN", "NOT", "STEP", "+", "-", "*", "/", "^", "AND",
    "OR", ">", "=", "<", "SGN", "INT", "ABS", "USR", "FRE"]
  const WORDS_C: seq<string> := [
    "INP", "POS", "SQR", "RND", "LOG", "EXP", "COS", "SIN", "TAN", "ATN", "PEEK", "LEN", "STR$", "VAL", "ASC",
    "CHR$", "LEFT$", "RIGHT$", "MID$", "POINT", "INKEY$", "AT", "&", "BEEP", "PAUSE"]
  const WORDS_D: seq<string> := [
    "VERIFY", "HOME", "EDIT", "DELETE", "MERGE", "AUTO", "HIMEM", "@", "ASN", "ADDR", "PI", "RENUM", "ACS", "LG",
    "LPRINT", "LLIST", "SCREEN", "COLOR", "GET", "PUT", "BSAVE", "BLOAD", "PLAY", "PAINT", "CIRCLE"]

  const WORDS: seq<string> := WORDS_A + WORDS_B + WORDS_C + WORDS_D

  predicate IsWord(w: string) { w in WORDS }

  const CHARS: string :=
    " !\"#$%&'()*+,-./0123456789:;<=>?@ABCDEFGHIJKLMNOPQRSTUVWXYZ[\\]^_ЮАБЦДЕФГХИЙКЛМНОПЯРСТУЖВЬЫЗШЭЩЧ\U{7f}"

  const QUOTE: char := '"'

  /** The keys of by_initial. */
  predicate IsKey(c: char) {
    'A' <= c <= 'Z' || c == '*' || c == '/' || c == '^' || '<' <= c <= '>' || c == '&' || c == '@' || c == '+'
      || c == '-'
  }

  // ----- what the keywords are like -----

  /** All that the tokenizer's correctness asks of a keyword. Only LLIST repeats its first letter. */
  predicate WellFormed(w: string) {
    && 1 <= |w| && IsKey(w[0])
    && (|w| >= 2 && w[0] == w[1] ==> w == "LLIST")
    && (|w| > 5 ==> w[0] != 'T' && !(w[0] == 'I' && w[1] == 'S') && !(w[0] == 'S' && w[1] == 'T'))
    && (|w| > 4 ==> !(w[0] == 'L' && w[1] == 'I'))
  }

  lemma WellFormedA(w: string)
    requires w in WORDS_A
    ensures WellFormed(w)
  {
  }

  lemma WellFormedB(w: string)
    requires w in WORDS_B
    ensures WellFormed(w)
  {
  }

  lemma WellFormedC(w: string)
    requires w in WORDS_C
    ensures WellFormed(w)
  {
  }

  lemma WellFormedD(w: string)
    requires w in WORDS_D
    ensures WellFormed(w)
  {
  }

  lemma WordsAreWellFormed(w: string)
    requires IsWord(w)
    ensures WellFormed(w)
  {
    hide WellFormed;
    if w in WORDS_A {
      WellFormedA(w);
    } else if w in WORDS_B {
      WellFormedB(w);
    } else if w in WORDS_C {
      WellFormedC(w);
    } else {
      WellFormedD(w);
    }
  }

  lemma NoQuoteInA(w: string)
    requires w in WORDS_A
    ensures QUOTE !in w
  {
  }

  lemma NoQuoteInB(w: string)
    requires w in WORDS_B
    ensures QUOTE !in w
  {
  }

  lemma NoQuoteInC(w: string)
    requires w in WORDS_C
    ensures QUOTE !in w
  {
  }

  lemma NoQuoteInD(w: string)
    requires w in WORDS_D
    ensures QUOTE !in w
  {
  }

  /** Keywords hold no quote. */
  lemma NoQuoteInWord(w: string)
    requires IsWord(w)
    ensures QUOTE !in w
  {
    hide WORDS_A, WORDS_B, WORDS_C, WORDS_D;
    if w in WORDS_A {
      NoQuoteInA(w);
    } else if w in WORDS_B {
      NoQuoteInB(w);
    } else if w in WORDS_C {
      NoQuoteInC(w);
    } else {
      NoQuoteInD(w);
    }
  }

  /** Which keywords begin with IF, FR, PR and FO: one each, of this length. A alone is none. */
  predicate FewBegin(w: string) {
    && (|w| == 1 ==> w[0] != 'A')
    && (|w| >= 2 && w[0] == 'I' && w[1] == 'F' ==> |w| == 2)
    && (|w| >= 2 && w[0] == 'F' && (w[1] == 'R' || w[1] == 'O') ==> |w| == 3)
    && (|w| >= 2 && w[0] == 'P' && w[1] == 'R' ==> |w| == 5)
  }

  lemma FewBeginA(w: string)
    requires w in WORDS_A
    ensures FewBegin(w)
  {
  }

  lemma FewBeginB(w: string)
    requires w in WORDS_B
    ensures FewBegin(w)
  {
  }

  lemma FewBeginC(w: string)
    requires w in WORDS_C
    ensures FewBegin(w)
  {
  }

  lemma FewBeginD(w: string)
    requires w in WORDS_D
    ensures FewBegin(w)
  {
  }

  lemma WordsFewBegin(w: string)
    requires IsWord(w)
    ensures FewBegin(w)
  {
    hide FewBegin, WORDS_A, WORDS_B, WORDS_C, WORDS_D;
    if w in WORDS_A {
      FewBeginA(w);
    } else if w in WORDS_B {
      FewBeginB(w);
    } else if w in WORDS_C {
      FewBeginC(w);
    } else {
      FewBeginD(w);
    }
  }

  lemma IfIsWord()
    ensures IsWord("IF")
  {
    assert WORDS_A[10] == "IF";
  }

  lemma FreIsWord()
    ensures IsWord("FRE")
  {
    assert WORDS_B[24] == "FRE";
  }

  lemma ReadIsWord()
    ensures IsWord("READ")
  {
    assert WORDS_A[6] == "READ";
  }

  lemma PrintIsWord()
    ensures IsWord("PRINT")
  {
    assert WORDS_A[21] == "PRINT";
  }

  lemma ForIsWord()
    ensures IsWord("FOR")
  {
    assert WORDS_A[1] == "FOR";
  }

  lemma ToIsWord()
    ensures IsWord("TO")
  {
    assert WORDS_B[4] == "TO";
  }

  lemma AtIsWord()
    ensures IsWord("AT")
  {
    assert WORDS_C[21] == "AT";
  }

  lemma ListIsWord()
    ensures IsWord("LIST")
  {
    assert WORDS_A[24] == "LIST";
  }

  lemma LlistIsWord()
    ensures IsWord("LLIST")
  {
    SomeWords();
  }

  lemma SomeWords()
    ensures |WORDS| == 101 && IsWord("TO") && IsWord("LLIST")
  {
    assert WORDS_B[4] == "TO" && WORDS_D[15] == "LLIST";
  }

  // ----- codes -----

  /** index and find: the first place of x. */
  function IndexOf<T(==)>(s: seq<T>, x: T): (i: nat)
    requires x in s
    ensures i < |s| && s[i] == x
  {
    if s[0] == x then 0 else 1 + IndexOf(s[1..], x)
  }

  /** chars, one character. */
  function EncodeChar(c: char): nat {
    if c in CHARS then 0x20 + IndexOf(CHARS, c) else c as int
  }

  function EncodeWord(w: string): (code: nat)
    requires IsWord(w)
  {
    0x80 + IndexOf(WORDS, w)
  }

  const LAST_WORD: nat := 228

  /** What readbas and format_token make of one code. */
  function Decode(code: nat): string
    requires code < 256
  {
    if 0x20 <= code < 0x80 then SizeOfChars(); [CHARS[code - 0x20]]
    else if 0x80 <= code <= LAST_WORD then SomeWords(); WORDS[code - 0x80]
    else [code as char]
  }

  lemma SizeOfChars()
    ensures |CHARS| == 96
  {
  }

  /** The characters that come back. */
  predicate Survives(c: char) {
    c in CHARS || 1 <= c as int < 0x20 || LAST_WORD < c as int < 256
  }

  /** A character comes back as itself, and never as an end of line, exactly when it survives. */
  lemma SurvivesExactly(c: char)
    ensures Survives(c) <==> 0 < EncodeChar(c) < 256 && Decode(EncodeChar(c)) == [c]
  {
    SizeOfChars();
    SomeWords();
    var code := EncodeChar(c);
    if c !in CHARS && 0x20 <= code < 0x80 {
      assert CHARS[code - 0x20] in CHARS;
    }
    if c !in CHARS && 0x80 <= code <= LAST_WORD {
      WordsAreWellFormed(WORDS[code - 0x80]);
    }
  }

  /** Every keyword comes back. */
  lemma WordsComeBack(w: string)
    requires IsWord(w)
    ensures 0x80 <= EncodeWord(w) <= LAST_WORD && Decode(EncodeWord(w)) == w
  {
    SomeWords();
  }

  predicate Plain(s: string) {
    forall i :: 0 <= i < |s| ==> Survives(s[i])
  }

  /** chars */
  function EncodeText(s: string): (codes: seq<nat>)
    ensures |codes| == |s|
  {
    if s == [] then [] else EncodeText(s[..|s| - 1]) + [EncodeChar(s[|s| - 1])]
  }

  /** Codes that are neither an end of line nor out of a byte. */
  predicate CodesOk(codes: seq<nat>) {
    forall i :: 0 <= i < |codes| ==> 0 < codes[i] < 256
  }

  function Expand(codes: seq<nat>): string
    requires CodesOk(codes)
  {
    if codes == [] then "" else Expand(codes[..|codes| - 1]) + Decode(codes[|codes| - 1])
  }

  lemma {:induction false} ExpandAppend(a: seq<nat>, b: seq<nat>)
    requires CodesOk(a) && CodesOk(b)
    ensures CodesOk(a + b) && Expand(a + b) == Expand(a) + Expand(b)
  {
    hide Decode;
    if b == [] {
      assert a + b == a;
    } else {
      var front, last := b[..|b| - 1], b[|b| - 1];
      ExpandAppend(a, front);
      assert (a + b)[..|a + b| - 1] == a + front && (a + b)[|a + b| - 1] == last;
    }
  }

  lemma {:induction false} TextComesBack(s: string)
    requires Plain(s)
    ensures CodesOk(EncodeText(s)) && Expand(EncodeText(s)) == s
  {
    hide Decode, EncodeChar, Survives;
    if s != [] {
      TextComesBack(s[..|s| - 1]);
      SurvivesExactly(s[|s| - 1]);
      assert s[..|s| - 1] + [s[|s| - 1]] == s;
      assert EncodeText(s)[..|s| - 1] == EncodeText(s[..|s| - 1]);
    }
  }

  lemma WordComesBack(codes: seq<nat>, w: string)
    requires CodesOk(codes) && IsWord(w)
    ensures CodesOk(codes + [EncodeWord(w)]) && Expand(codes + [EncodeWord(w)]) == Expand(codes) + w
  {
    WordsComeBack(w);
    assert (codes + [EncodeWord(w)])[..|codes|] == codes;
  }
}
