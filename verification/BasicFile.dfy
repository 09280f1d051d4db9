/** BASIC programs as files (bas2txt/bas2asc.py: get_linenumber, tokenize2, enbas, readbas). */
module BasicFile {
  import opened Bytes
  import opened BasicWords
  import BasicSpans
  import BasicTokenizer
  import CpmNames

  // ----- line numbers -----

  predicate IsNum(c: char) { '0' <= c <= '9' }

  predicate IsLead(c: char) { IsNum(c) || c == ' ' }

  /** The number that the digits of s make, spaces skipped. */
  function NumberIn(s: string): nat {
    if s == "" then 0
    else
      var front, c := NumberIn(s[..|s| - 1]), s[|s| - 1];
      if IsNum(c) then front * 10 + (c as int - '0' as int) else front
  }

  /** How many digits and spaces come first. */
  function LeadLength(s: string): (n: nat)
    ensures n <= |s| && (forall k :: 0 <= k < n ==> IsLead(s[k])) && (n < |s| ==> !IsLead(s[n]))
  {
    if s == "" || !IsLead(s[0]) then 0 else 1 + LeadLength(s[1..])
  }

  /** Where the text of a line starts: at its last character when there is no other. */
  function TextStart(s: string): (n: nat)
    requires s != ""
    ensures n < |s|
  {
    Min(LeadLength(s), |s| - 1)
  }

  lemma LeadIs(s: string, n: nat)
    requires n <= |s| && (forall k :: 0 <= k < n ==> IsLead(s[k])) && (n < |s| ==> !IsLead(s[n]))
    ensures LeadLength(s) == n
  {
  }

  method GetLineNumber(s: string) returns (linenum: nat, text: nat)
    ensures linenum == NumberIn(s[..LeadLength(s)])
    ensures s != "" ==> text == TextStart(s)
  {
    linenum, text := 0, 0;
    var k := 0;
    while k < |s|
      invariant k <= |s| && forall j :: 0 <= j < k ==> IsLead(s[j])
      invariant linenum == NumberIn(s[..k]) && text == if k == 0 then 0 else k - 1
    {
      text := k;
      if IsNum(s[k]) {
        linenum := linenum * 10 + (s[k] as int - '0' as int);
      } else if s[k] != ' ' {
        break;
      }
      assert s[..k + 1][..k] == s[..k];
      k := k + 1;
    }
    LeadIs(s, k);
  }

  function TextOf(s: string): (t: string)
    requires s != ""
    ensures t != ""
  {
    s[TextStart(s)..]
  }

  // ----- records -----

  /** One line of a tokenized program. */
  datatype Record = Record(number: nat, codes: seq<nat>)

  /** The bytes of a record that ends at addr. */
  function Layout(r: Record, addr: nat): (b: seq<nat>)
    ensures |b| == |r.codes| + 5
  {
    [addr % 256, addr / 256, r.number % 256, r.number / 256 % 256] + r.codes + [0]
  }

  function Size(r: Record): nat { |r.codes| + 5 }

  function EndOf(rs: seq<Record>, addr: nat): nat {
    if rs == [] then addr else EndOf(rs[..|rs| - 1], addr) + Size(rs[|rs| - 1])
  }

  function Layouts(rs: seq<Record>, addr: nat): seq<nat> {
    if rs == [] then [] else Layouts(rs[..|rs| - 1], addr) + Layout(rs[|rs| - 1], EndOf(rs, addr))
  }

  /** A record that stands for a line. */
  ghost predicate Encodes(r: Record, s: string) {
    && s != "" && r.number == NumberIn(s[..LeadLength(s)])
    && (Plain(TextOf(s)) ==> CodesOk(r.codes) && Expand(r.codes) == BasicSpans.ComesBack(TextOf(s)))
    && r.codes == BasicSpans.Codes(TextOf(s))
  }

  method Tokenize2(s: string, addr: nat) returns (tokens: seq<nat>, addr': nat, ghost r: Record)
    requires s != ""
    ensures Encodes(r, s) && addr' == addr + Size(r) && tokens == Layout(r, addr')
  {
    hide BasicSpans.Codes, BasicSpans.ComesBack, Expand, CodesOk;
    var linenum, i := GetLineNumber(s);
    var codes := BasicTokenizer.TokenizeText(s[i..]);
    r := Record(linenum, codes);
    tokens := codes + [0];
    addr' := addr + |tokens| + 4;
    tokens := [addr' % 256, addr' / 256] + [linenum % 256, linenum / 256 % 256] + tokens;
  }

  // ----- readbas -----

  datatype Phase = Dummy0 | Dummy1 | LineNum0 | LineNum1 | Tokens | End

  datatype Reader = Reader(phase: Phase, fin: nat, number: nat, text: string, result: seq<string>)

  const START: Reader := Reader(Dummy0, 0, 0, "", [])

  function AsText(digits: bytes): (s: string)
    ensures |s| == |digits| && forall i :: 0 <= i < |s| ==> s[i] == digits[i] as char
  {
    seq(|digits|, i requires 0 <= i < |digits| => digits[i] as char)
  }

  /** process_line */
  function Shown(number: nat, text: string): string {
    AsText(CpmNames.Digits(number)) + " " + text
  }

  function ReadByte(r: Reader, c: byte): Reader {
    var fin := if c == 0 then r.fin + 1 else r.fin;
    match r.phase
    case Dummy0 => r.(phase := Dummy1, fin := fin)
    case Dummy1 => Reader(if fin == 3 then End else LineNum0, fin, 0, "", r.result)
    case LineNum0 => r.(phase := LineNum1, number := c)
    case LineNum1 => r.(phase := Tokens, number := r.number + c * 256)
    case Tokens =>
      if c == 0 then r.(phase := Dummy0, fin := 1, result := r.result + [Shown(r.number, r.text)])
      else r.(text := r.text + Decode(c))
    case End => r
  }

  function ReadBytes(r: Reader, b: bytes): Reader {
    if b == [] then r else ReadByte(ReadBytes(r, b[..|b| - 1]), b[|b| - 1])
  }

  method ReadBas(mv: bytes) returns (result: seq<string>)
    ensures result == ReadBytes(START, mv).result
  {
    var r := START;
    var i := 0;
    while i < |mv|
      invariant i <= |mv| && r == ReadBytes(START, mv[..i])
    {
      if r.phase.End? {
        EndStays(START, mv[..i], mv[i..]);
        assert mv == mv[..i] + mv[i..];
        break;
      }
      assert mv[..i + 1][..i] == mv[..i];
      r := ReadByte(r, mv[i]);
      i := i + 1;
    }
    assert i == |mv| ==> mv[..i] == mv;
    result := r.result;
  }

  lemma {:induction false} ReadAppend(r: Reader, a: bytes, b: bytes)
    ensures ReadBytes(r, a + b) == ReadBytes(ReadBytes(r, a), b)
  {
    hide ReadByte;
    if b == [] {
      assert a + b == a;
    } else {
      var front, last := b[..|b| - 1], b[|b| - 1];
      ReadAppend(r, a, front);
      assert (a + b)[..|a + b| - 1] == a + front && (a + b)[|a + b| - 1] == last;
    }
  }

  lemma {:induction false} EndStays(r: Reader, a: bytes, b: bytes)
    requires ReadBytes(r, a).phase.End?
    ensures ReadBytes(r, a + b) == ReadBytes(r, a)
  {
    if b == [] {
      assert a + b == a;
    } else {
      var front, last := b[..|b| - 1], b[|b| - 1];
      EndStays(r, a, front);
      assert (a + b)[..|a + b| - 1] == a + front && (a + b)[|a + b| - 1] == last;
    }
  }

  // ----- a record read back -----

  predicate AllBytes(b: seq<nat>) {
    forall i :: 0 <= i < |b| ==> b[i] < 256
  }

  lemma {:induction false} ReadCodes(r: Reader, codes: seq<nat>)
    requires r.phase.Tokens? && CodesOk(codes)
    ensures AllBytes(codes) && ReadBytes(r, codes) == r.(text := r.text + Expand(codes))
  {
    hide Decode;
    if codes == [] {
      assert r.text + "" == r.text;
    } else {
      var front := codes[..|codes| - 1];
      ReadCodes(r, front);
      assert r.text + Expand(front) + Decode(codes[|codes| - 1]) == r.text + Expand(codes);
    }
  }

  lemma ReadHead(r: Reader, a0: byte, a1: byte, n0: byte, n1: byte)
    requires r.phase.Dummy0? && r.fin <= 1 && a1 != 0
    ensures var h := ReadBytes(r, [a0, a1, n0, n1]);
      h == Reader(Tokens, h.fin, n0 + n1 * 256, "", r.result)
  {
    var r1 := ReadByte(r, a0);
    var r2 := ReadByte(r1, a1);
    var r3 := ReadByte(r2, n0);
    ReadOne(r, a0);
    ReadOne(r1, a1);
    ReadOne(r2, n0);
    ReadOne(r3, n1);
    ReadAppend(r, [a0], [a1]);
    ReadAppend(r, [a0, a1], [n0]);
    ReadAppend(r, [a0, a1, n0], [n1]);
    assert [a0] + [a1] == [a0, a1] && [a0, a1] + [n0] == [a0, a1, n0] && [a0, a1, n0] + [n1] == [a0, a1, n0, n1];
  }

  lemma ReadOne(r: Reader, c: byte)
    ensures ReadBytes(r, [c]) == ReadByte(r, c)
  {
    assert ReadBytes(r, []) == r;
    assert [c][..0] == [];
  }

  /** The line that a record comes back as. */
  function Line(r: Record): string
    requires CodesOk(r.codes)
  {
    Shown(r.number % 0x1_0000, Expand(r.codes))
  }

  /** Zero bytes are counted so that a record is read to its end and no further. */
  lemma ReadRecord(r: Reader, rec: Record, addr: nat)
    requires r.phase.Dummy0? && r.fin <= 1 && CodesOk(rec.codes) && 0x100 <= addr < 0x1_0000
    ensures AllBytes(Layout(rec, addr))
    ensures var r' := ReadBytes(r, Layout(rec, addr));
      r'.phase.Dummy0? && r'.fin == 1 && r'.result == r.result + [Line(rec)]
  {
    hide Expand, Shown, CodesOk, ReadBytes;
    var head := [addr % 256, addr / 256, rec.number % 256, rec.number / 256 % 256];
    ReadHead(r, head[0], head[1], head[2], head[3]);
    var h := ReadBytes(r, head);
    ReadCodes(h, rec.codes);
    ReadAppend(r, head, rec.codes);
    ReadAppend(r, head + rec.codes, [0]);
    ReadOne(ReadBytes(r, head + rec.codes), 0);
    NumberBytes(rec.number);
    assert "" + Expand(rec.codes) == Expand(rec.codes);
  }

  lemma NumberBytes(n: nat)
    ensures n % 256 + n / 256 % 256 * 256 == n % 0x1_0000
  {
    var q := n / 256;
    var p := q / 256;
    ModUnique(n, 0x1_0000, p, 256 * (q % 256) + n % 256);
  }

  // ----- enbas -----

  const ORIGIN: nat := 0x4301

  datatype Image = Made(image: bytes) | NotBytes

  /** The lines before the first empty one. */
  function Lead(lines: seq<string>): (r: seq<string>)
    ensures |r| <= |lines| && r == lines[..|r|] && (|r| < |lines| ==> lines[|r|] == "") && "" !in r
  {
    if lines == [] || lines[0] == "" then [] else [lines[0]] + Lead(lines[1..])
  }

  /** The lines that get into the image: an empty line raises an exception, and what came before it
      is taken once more for the second encoding. */
  function Tried(lines: seq<string>): seq<string> {
    if |Lead(lines)| == |lines| then lines else Lead(lines) + Lead(lines)
  }

  ghost predicate EncodesAll(rs: seq<Record>, lines: seq<string>) {
    |rs| == |lines| && forall k :: 0 <= k < |rs| ==> Encodes(rs[k], lines[k])
  }

  /** One reading of the file, up to its end or an exception. */
  method OnePass(lines: seq<string>, result: seq<nat>, addr: nat, ghost rs: seq<Record>, ghost before: seq<string>)
    returns (result': seq<nat>, addr': nat, failed: bool, ghost rs': seq<Record>)
    requires result == Layouts(rs, ORIGIN) && addr == EndOf(rs, ORIGIN) && EncodesAll(rs, before)
    ensures result' == Layouts(rs', ORIGIN) && addr' == EndOf(rs', ORIGIN) && EncodesAll(rs', before + Lead(lines))
    ensures failed == (|Lead(lines)| < |lines|)
  {
    hide Encodes, Layout;
    result', addr', rs', failed := result, addr, rs, false;
    var k := 0;
    assert before + lines[..0] == before;
    while k < |lines|
      invariant k <= |lines| && !failed && "" !in lines[..k]
      invariant result' == Layouts(rs', ORIGIN) && addr' == EndOf(rs', ORIGIN) && EncodesAll(rs', before + lines[..k])
    {
      if lines[k] == "" {
        failed := true;
        LeadIsPrefix(lines, k);
        return;
      }
      assert lines[..k + 1] == lines[..k] + [lines[k]];
      var tokens; ghost var r;
      tokens, addr', r := Tokenize2(lines[k], addr');
      assert (rs' + [r])[..|rs'|] == rs';
      result' := result' + tokens;
      rs' := rs' + [r];
      assert before + lines[..k + 1] == before + lines[..k] + [lines[k]];
      k := k + 1;
    }
    LeadIsPrefix(lines, k);
  }

  lemma {:induction false} LeadIsPrefix(lines: seq<string>, k: nat)
    requires k <= |lines| && "" !in lines[..k] && (k < |lines| ==> lines[k] == "")
    ensures Lead(lines) == lines[..k]
  {
    if k > 0 {
      assert lines[0] == lines[..k][0];
      assert lines[1..][..k - 1] == lines[..k][1..];
      LeadIsPrefix(lines[1..], k - 1);
    }
  }

  /** Two zeros for the end of the program, and at least one more to the end of a block of 256. */
  function Padding(size: nat): (n: nat)
    ensures 2 < n <= 258 && (size + n) % 256 == 0
  {
    var rest := (size + 2) % 256;
    BlockIsFull(size + 2, rest);
    2 + (256 - rest)
  }

  lemma BlockIsFull(size: nat, rest: nat)
    requires rest == size % 256
    ensures (size + (256 - rest)) % 256 == 0
  {
    assert size + (256 - rest) == 256 * (size / 256 + 1);
  }

  /** The image of some records: their bytes and zeros to the end of a block, none when some value leaves
      its byte. */
  ghost function ImageOf(rs: seq<Record>): Image {
    var codes := Layouts(rs, ORIGIN);
    if AllBytes(codes) then Made(codes + Zeros(Padding(|codes|))) else NotBytes
  }

  /** The image has the records of the tried lines and zeros to the end of a block; there is none when
      some code or the address leaves its byte. */
  method EnBas(lines: seq<string>) returns (image: Image, ghost rs: seq<Record>)
    ensures EncodesAll(rs, Tried(lines))
    ensures image == ImageOf(rs) && (image.Made? ==> |image.image| % 256 == 0 && Linked(image.image, 0, rs))
  {
    hide Encodes, EncodesAll, Layout, Layouts, EndOf, Padding, Linked;
    var result: seq<nat>, addr, failed := [], ORIGIN, true;
    rs := [];
    NothingLaidOut();
    var attempts := 0;
    while attempts < 2 && failed
      invariant attempts <= 2
      invariant result == Layouts(rs, ORIGIN) && addr == EndOf(rs, ORIGIN)
      invariant attempts == 0 ==> rs == [] && failed
      invariant attempts > 0 ==> failed == (|Lead(lines)| < |lines|)
      invariant attempts == 1 ==> EncodesAll(rs, Lead(lines))
      invariant attempts == 2 ==> failed && EncodesAll(rs, Lead(lines) + Lead(lines))
    {
      result, addr, failed, rs := OnePass(lines, result, addr, rs, if attempts == 0 then [] else Lead(lines));
      assert [] + Lead(lines) == Lead(lines);
      attempts := attempts + 1;
    }
    assert lines[..|lines|] == lines;
    var n := Padding(|result|);
    ImageIsLinked(rs);
    image := if forall i :: 0 <= i < |result| ==> result[i] < 256 then Made(result + Zeros(n)) else NotBytes;
  }

  lemma NothingLaidOut()
    ensures Layouts([], ORIGIN) == [] && EndOf([], ORIGIN) == ORIGIN && EncodesAll([], [])
  {
  }

  lemma NoProgram(rs: seq<Record>)
    ensures rs == [] ==> Padding(|Layouts(rs, ORIGIN)|) == 256
  {
  }

  // ----- the image as the machine walks it -----

  /** The word at offset i, low byte first. */
  function WordIn(b: seq<nat>, i: nat): nat
    requires i + 1 < |b|
  {
    b[i] + 256 * b[i + 1]
  }

  /** From offset i, where address 0x4301 + i lies, the links lead through exactly these records: each
      begins with the address behind the zero that ends it and with its number, and a zero word ends the
      last. */
  ghost predicate Linked(b: seq<nat>, i: nat, rs: seq<Record>)
    decreases |rs|
  {
    i + 1 < |b| &&
    if rs == [] then WordIn(b, i) == 0
    else
      var next := WordIn(b, i) - 0x4301;
      && i + 4 < next <= |b| && WordIn(b, i + 2) == rs[0].number % 0x1_0000
      && b[i + 4..next - 1] == rs[0].codes && b[next - 1] == 0
      && Linked(b, next, rs[1..])
  }

  lemma {:induction false} LayoutsPrefix(rs: seq<Record>, k: nat)
    requires k <= |rs|
    ensures Layouts(rs[..k], ORIGIN) <= Layouts(rs, ORIGIN)
    ensures |Layouts(rs, ORIGIN)| == EndOf(rs, ORIGIN) - ORIGIN && EndOf(rs, ORIGIN) >= ORIGIN
    decreases |rs|
  {
    hide Layout;
    if rs != [] {
      var front := rs[..|rs| - 1];
      LayoutsPrefix(front, Min(k, |front|));
      LayoutLength(rs[|rs| - 1], EndOf(rs, ORIGIN));
      if k < |rs| {
        assert rs[..k] == front[..k];
      } else {
        assert rs[..k] == rs;
      }
    }
  }

  lemma LayoutLength(r: Record, addr: nat)
    ensures |Layout(r, addr)| == Size(r)
  {
  }

  /** A record by its bytes. */
  lemma LayoutBytes(r: Record, addr: nat)
    ensures var b := Layout(r, addr);
      && |b| == |r.codes| + 5 && WordIn(b, 0) == addr && WordIn(b, 2) == r.number % 0x1_0000
      && b[4..|b| - 1] == r.codes && b[|b| - 1] == 0
  {
    NumberBytes(r.number);
  }

  /** The bytes of a record inside those of all. */
  lemma RecordInside(b: seq<nat>, i: nat, record: seq<nat>)
    requires i + |record| <= |b| && |record| >= 5 && b[i..i + |record|] == record
    ensures WordIn(b, i) == WordIn(record, 0) && WordIn(b, i + 2) == WordIn(record, 2)
    ensures b[i + 4..i + |record| - 1] == record[4..|record| - 1]
    ensures b[i + |record| - 1] == record[|record| - 1]
  {
    forall j | 0 <= j < |record| ensures b[i + j] == record[j] {
      assert b[i..i + |record|][j] == record[j];
    }
  }

  lemma {:induction false} LayoutsAreLinked(rs: seq<Record>, k: nat, rest: seq<nat>)
    requires k <= |rs| && |rest| >= 2 && rest[0] == rest[1] == 0
    ensures var i := EndOf(rs[..k], ORIGIN) - ORIGIN; i >= 0 && Linked(Layouts(rs, ORIGIN) + rest, i, rs[k..])
    decreases |rs| - k
  {
    hide Layout, Layouts, EndOf, WordIn;
    var all := Layouts(rs, ORIGIN);
    LayoutsPrefix(rs, k);
    LayoutsPrefix(rs[..k], k);
    if k == |rs| {
      assert rs[..k] == rs && rs[k..] == [];
      ZeroWord(all, rest);
    } else {
      LayoutsAreLinked(rs, k + 1, rest);
      RecordLinked(rs, k, rest);
      assert rs[k..][0] == rs[k] && rs[k..][1..] == rs[k + 1..];
    }
  }

  /** The bytes of record k in the image. */
  lemma RecordLinked(rs: seq<Record>, k: nat, rest: seq<nat>)
    requires k < |rs|
    ensures var i, end := EndOf(rs[..k], ORIGIN) - ORIGIN, EndOf(rs[..k + 1], ORIGIN);
      var b, next := Layouts(rs, ORIGIN) + rest, end - ORIGIN;
      && 0 <= i && next == i + Size(rs[k]) <= |b|
      && WordIn(b, i) == end && WordIn(b, i + 2) == rs[k].number % 0x1_0000
      && b[i + 4..next - 1] == rs[k].codes && b[next - 1] == 0
  {
    hide Layout, Layouts, EndOf, WordIn;
    RecordOfPrefix(rs, k);
    var i, end := EndOf(rs[..k], ORIGIN) - ORIGIN, EndOf(rs[..k + 1], ORIGIN);
    LayoutBytes(rs[k], end);
    SliceOfFront(Layouts(rs, ORIGIN), rest, i, end - ORIGIN);
    RecordInside(Layouts(rs, ORIGIN) + rest, i, Layout(rs[k], end));
  }

  lemma SliceOfFront(a: seq<nat>, rest: seq<nat>, i: nat, j: nat)
    requires i <= j <= |a|
    ensures (a + rest)[i..j] == a[i..j]
  {
  }

  lemma ZeroWord(a: seq<nat>, rest: seq<nat>)
    requires |rest| >= 2 && rest[0] == rest[1] == 0
    ensures WordIn(a + rest, |a|) == 0
  {
  }

  /** Record k lies between the ends of the records before and up to it. */
  lemma RecordOfPrefix(rs: seq<Record>, k: nat)
    requires k < |rs|
    ensures var i, end := EndOf(rs[..k], ORIGIN) - ORIGIN, EndOf(rs[..k + 1], ORIGIN);
      && 0 <= i && end - ORIGIN == i + Size(rs[k]) <= |Layouts(rs, ORIGIN)|
      && Layouts(rs, ORIGIN)[i..end - ORIGIN] == Layout(rs[k], end)
  {
    hide Layout;
    var one := rs[..k + 1];
    assert one[..k] == rs[..k] && one[k] == rs[k];
    LayoutsPrefix(rs[..k], k);
    LayoutsPrefix(one, k + 1);
    LayoutsPrefix(rs, k + 1);
    LayoutLength(rs[k], EndOf(one, ORIGIN));
    var i, end := EndOf(rs[..k], ORIGIN) - ORIGIN, EndOf(one, ORIGIN);
    assert Layouts(one, ORIGIN) == Layouts(rs[..k], ORIGIN) + Layout(rs[k], end);
    assert Layouts(rs, ORIGIN)[..end - ORIGIN] == Layouts(one, ORIGIN);
  }

  /** An image is walked from its start through its records to a zero word. */
  lemma ImageIsLinked(rs: seq<Record>)
    ensures ImageOf(rs).Made? ==> Linked(ImageOf(rs).image, 0, rs)
  {
    hide Layouts, Linked;
    var codes := Layouts(rs, ORIGIN);
    LayoutsAreLinked(rs, 0, Zeros(Padding(|codes|)));
    StartOfImage(rs);
  }

  lemma StartOfImage(rs: seq<Record>)
    ensures EndOf(rs[..0], ORIGIN) == ORIGIN && rs[0..] == rs
  {
  }

  // ----- a program read back -----

  ghost predicate AllOk(rs: seq<Record>) {
    forall k :: 0 <= k < |rs| ==> CodesOk(rs[k].codes)
  }

  ghost function Lines(rs: seq<Record>): (s: seq<string>)
    requires AllOk(rs)
    ensures |s| == |rs|
  {
    if rs == [] then [] else Lines(rs[..|rs| - 1]) + [Line(rs[|rs| - 1])]
  }

  /** The records' bytes are bytes exactly when the last address is a word; then they are read back
      line by line. */
  lemma {:induction false} ReadLayouts(rs: seq<Record>)
    requires AllOk(rs)
    ensures EndOf(rs, ORIGIN) >= ORIGIN && (AllBytes(Layouts(rs, ORIGIN)) <==> EndOf(rs, ORIGIN) < 0x1_0000)
    ensures EndOf(rs, ORIGIN) < 0x1_0000 ==> var r := ReadBytes(START, Layouts(rs, ORIGIN));
      r.phase.Dummy0? && r.fin == (if rs == [] then 0 else 1) && r.result == Lines(rs)
  {
    hide CodesOk, Line, ReadByte;
    if rs != [] {
      var front, last := rs[..|rs| - 1], rs[|rs| - 1];
      var bytes, end := Layouts(front, ORIGIN), EndOf(rs, ORIGIN);
      ReadLayouts(front);
      LastAddress(bytes, last, end);
      if end < 0x1_0000 {
        ReadRecord(ReadBytes(START, bytes), last, end);
        ReadAppend(START, bytes, Layout(last, end));
      }
    }
  }

  lemma LastAddress(front: seq<nat>, r: Record, end: nat)
    requires CodesOk(r.codes)
    ensures AllBytes(front + Layout(r, end)) <==> AllBytes(front) && end < 0x1_0000
  {
    var layout := Layout(r, end);
    if AllBytes(front + layout) {
      assert (front + layout)[|front| + 1] == layout[1] == end / 256;
      forall i | 0 <= i < |front|
        ensures front[i] < 256
      {
        assert (front + layout)[i] == front[i];
      }
    }
  }

  /** The zeros at the end stop the reader; without any record they first read as one line more. */
  lemma ReadZeros(r: Reader, n: nat)
    requires r.phase.Dummy0? && r.fin <= 1 && n > 2 && (r.fin == 0 ==> n > 6)
    ensures ReadBytes(r, Zeros(n)).result == if r.fin == 1 then r.result else r.result + [Shown(0, "")]
  {
    hide Shown;
    if r.fin == 1 {
      ReadTwo(r, 0, 0);
      EndAfter(r, 2, n);
    } else {
      ReadTwo(r, 0, 0);
      var r2 := ReadByte(ReadByte(r, 0), 0);
      ReadTwo(r2, 0, 0);
      var r4 := ReadByte(ReadByte(r2, 0), 0);
      ReadOne(r4, 0);
      var r5 := ReadByte(r4, 0);
      ReadTwo(r5, 0, 0);
      ReadAppend(r, [0, 0], [0, 0]);
      ReadAppend(r, [0, 0] + [0, 0], [0]);
      ReadAppend(r, [0, 0] + [0, 0] + [0], [0, 0]);
      assert [0, 0] + [0, 0] + [0] + [0, 0] == Zeros(7);
      EndAfter(r, 7, n);
    }
  }

  lemma ReadTwo(r: Reader, c: byte, d: byte)
    ensures ReadBytes(r, [c, d]) == ReadByte(ReadByte(r, c), d)
  {
    ReadOne(r, c);
    ReadOne(ReadByte(r, c), d);
    ReadAppend(r, [c], [d]);
    assert [c] + [d] == [c, d];
  }

  lemma EndAfter(r: Reader, m: nat, n: nat)
    requires m <= n && ReadBytes(r, if m == 2 then [0, 0] else Zeros(m)).phase.End?
    ensures ReadBytes(r, Zeros(n)) == ReadBytes(r, if m == 2 then [0, 0] else Zeros(m))
  {
    hide ReadBytes, ReadByte;
    assert m == 2 ==> [0, 0] == Zeros(m);
    EndStays(r, Zeros(m), Zeros(n - m));
    assert Zeros(m) + Zeros(n - m) == Zeros(n);
  }

  /** The line that comes back of a source line. */
  ghost function LineBack(s: string): string
    requires s != ""
  {
    Shown(NumberIn(s[..LeadLength(s)]) % 0x1_0000, BasicSpans.ComesBack(TextOf(s)))
  }

  ghost predicate AllPlain(lines: seq<string>) {
    forall k :: 0 <= k < |lines| ==> lines[k] != "" && Plain(TextOf(lines[k]))
  }

  ghost function LinesBack(lines: seq<string>): (r: seq<string>)
    requires AllPlain(lines)
    ensures |r| == |lines|
  {
    if lines == [] then [] else LinesBack(lines[..|lines| - 1]) + [LineBack(lines[|lines| - 1])]
  }

  lemma {:induction false} RecordsStandFor(rs: seq<Record>, lines: seq<string>)
    requires EncodesAll(rs, lines) && AllPlain(lines)
    ensures AllOk(rs) && Lines(rs) == LinesBack(lines)
  {
    if rs != [] {
      RecordsStandFor(rs[..|rs| - 1], lines[..|lines| - 1]);
      assert Encodes(rs[|rs| - 1], lines[|lines| - 1]);
    }
  }

  lemma TriedIsPlain(lines: seq<string>)
    requires forall k :: 0 <= k < |lines| && lines[k] != "" ==> Plain(TextOf(lines[k]))
    ensures AllPlain(Tried(lines))
  {
    var lead := Lead(lines);
    assert forall k :: 0 <= k < |lead| ==> lead[k] == lines[k] && lead[k] in lead;
  }

  lemma {:induction false} NumberOfDigits(n: nat)
    ensures NumberIn(AsText(CpmNames.Digits(n))) == n
  {
    var d := CpmNames.Digits(n);
    if n >= 10 {
      NumberOfDigits(n / 10);
      assert AsText(d)[..|d| - 1] == AsText(CpmNames.Digits(n / 10));
    } else {
      assert AsText(d)[..0] == "" && NumberIn("") == 0;
    }
  }

  /** A shown line is read as its own number and text. */
  lemma ShownIsRead(n: nat, t: string)
    requires t != "" && !IsLead(t[0])
    ensures var s := Shown(n, t); TextOf(s) == t && NumberIn(s[..LeadLength(s)]) == n
  {
    var d := AsText(CpmNames.Digits(n));
    var s := Shown(n, t);
    LeadIs(s, |d| + 1);
    assert s[..|d| + 1] == d + " " && (d + " ")[..|d|] == d;
    NumberOfDigits(n);
  }

  /** What came back of a line with text behind its number is stable: it comes back as itself. */
  lemma LineBackIsStable(s: string)
    requires s != "" && LeadLength(s) < |s|
    ensures LineBack(s) != "" && LineBack(LineBack(s)) == LineBack(s)
  {
    hide Shown, NumberIn, LeadLength, BasicSpans.ComesBack, LineBack;
    var t := BasicSpans.ComesBack(TextOf(s));
    var n := NumberIn(s[..LeadLength(s)]) % 0x1_0000;
    TextAfterLead(s);
    FirstCharacter(TextOf(s));
    BackTwice(TextOf(s));
    ShownIsRead(n, t);
    LineBackBy(s, NumberIn(s[..LeadLength(s)]), TextOf(s));
    LineBackBy(Shown(n, t), n, t);
  }

  lemma TextAfterLead(s: string)
    requires s != "" && LeadLength(s) < |s|
    ensures !IsLead(TextOf(s)[0])
  {
  }

  lemma BackTwice(t: string)
    ensures BasicSpans.ComesBack(BasicSpans.ComesBack(t)) == BasicSpans.ComesBack(t)
  {
    var u := BasicSpans.ComesBack(t);
    SecondLetter(u);
    if BasicSpans.Misread(t) {
      assert u[1] == 'L';
    }
  }

  lemma SecondLetter(t: string)
    ensures BasicSpans.ListFirst(t) ==> t[1] == 'I'
  {
    if BasicSpans.ListFirst(t) {
      assert t[1] == t[..4][1];
    }
  }

  /** A line by its number and its text. */
  lemma LineBackBy(s: string, n: nat, t: string)
    requires s != "" && NumberIn(s[..LeadLength(s)]) == n && TextOf(s) == t
    ensures LineBack(s) == Shown(n % 0x1_0000, BasicSpans.ComesBack(t))
  {
  }

  lemma FirstCharacter(t: string)
    requires t != ""
    ensures BasicSpans.ComesBack(t) != "" && BasicSpans.ComesBack(t)[0] == t[0]
  {
    if BasicSpans.Misread(t) {
      assert t[..4][0] == t[0];
    }
  }

  /** Tokenizing a program and reading it back, for every program whose characters survive: there is an
      image exactly when its addresses fit into 16 bits, and every line that was tried comes back as its
      number modulo 65536, a space and its text, LIST misread as LLIST where it is; a program of no
      lines comes back as one line. */
  method ThereAndBack(lines: seq<string>) returns (image: Image, back: seq<string>, ghost rs: seq<Record>)
    requires forall k :: 0 <= k < |lines| && lines[k] != "" ==> Plain(TextOf(lines[k]))
    ensures AllPlain(Tried(lines)) && (image.Made? <==> EndOf(rs, ORIGIN) < 0x1_0000)
    ensures EncodesAll(rs, Tried(lines))
    ensures image.Made? ==> back == if Tried(lines) == [] then [Shown(0, "")] else LinesBack(Tried(lines))
    ensures image == ImageOf(rs)
  {
    hide Encodes, Layouts, ReadBytes, Zeros, Shown, LineBack, Plain, TextOf;
    image, rs := EnBas(lines);
    TriedIsPlain(lines);
    RecordsStandFor(rs, Tried(lines));
    ReadLayouts(rs);
    back := [];
    if image.Made? {
      ghost var n := Padding(|Layouts(rs, ORIGIN)|);
      NoProgram(rs);
      back := ReadBas(image.image);
      ReadAppend(START, Layouts(rs, ORIGIN), Zeros(n));
      ReadZeros(ReadBytes(START, Layouts(rs, ORIGIN)), n);
    }
  }

  // ----- and there again -----

  /** A line whose number and text come back as they are: it has text behind its number, and LIST is not
      misread in it. */
  ghost predicate Keeps(s: string) {
    s != "" && LeadLength(s) < |s| && !BasicSpans.Misread(TextOf(s))
  }

  lemma NumberKept(n: nat)
    ensures n % 0x1_0000 % 256 == n % 256 && n % 0x1_0000 / 256 % 256 == n / 256 % 256
  {
    NumberBytes(n);
    var low, high := n % 256, n / 256 % 256;
    DivUnique(n % 0x1_0000, 256, high, low);
    ModUnique(n % 0x1_0000, 256, high, low);
  }

  /** The line that comes back of a line that keeps has the same bytes. */
  lemma SameLayout(r: Record, r': Record, s: string, addr: nat)
    requires Keeps(s) && Encodes(r, s) && Plain(TextOf(s)) && LineBack(s) != "" && Encodes(r', LineBack(s))
    ensures Layout(r', addr) == Layout(r, addr) && Size(r') == Size(r)
  {
    hide Shown, NumberIn, LeadLength, BasicSpans.Codes, BasicSpans.Misread, Expand, CodesOk, Plain;
    var n, t := NumberIn(s[..LeadLength(s)]), TextOf(s);
    TextAfterLead(s);
    BasicSpans.ComesBackExactly(t);
    ShownIsRead(n % 0x1_0000, t);
    NumberKept(n);
  }

  lemma {:induction false} SameLayouts(rs: seq<Record>, rs': seq<Record>, lines: seq<string>)
    requires EncodesAll(rs, lines) && AllPlain(lines) && EncodesAll(rs', LinesBack(lines))
    requires forall k :: 0 <= k < |lines| ==> Keeps(lines[k])
    ensures Layouts(rs', ORIGIN) == Layouts(rs, ORIGIN) && EndOf(rs', ORIGIN) == EndOf(rs, ORIGIN)
  {
    hide Encodes, Keeps, Layout, LineBack, Plain, TextOf;
    if lines != [] {
      var n := |lines| - 1;
      var front := lines[..n];
      assert LinesBack(lines) == LinesBack(front) + [LineBack(lines[n])];
      assert forall k :: 0 <= k < n ==> Encodes(rs'[k], LinesBack(lines)[k]);
      assert LinesBack(lines)[..n] == LinesBack(front);
      assert Encodes(rs[n], lines[n]) && Encodes(rs'[n], LinesBack(lines)[n]);
      SameLayouts(rs[..n], rs'[..n], front);
      KeepsBack(lines[n]);
      SameLayout(rs[n], rs'[n], lines[n], EndOf(rs, ORIGIN));
    }
  }

  lemma KeepsBack(s: string)
    requires Keeps(s)
    ensures LineBack(s) != ""
  {
    hide BasicSpans.Misread;
    LineBackIsStable(s);
  }

  lemma {:induction false} LinesBackHaveText(lines: seq<string>)
    requires AllPlain(lines) && forall k :: 0 <= k < |lines| ==> Keeps(lines[k])
    ensures "" !in LinesBack(lines)
  {
    hide Keeps, LineBack, Plain, TextOf;
    if lines != [] {
      LinesBackHaveText(lines[..|lines| - 1]);
      KeepsBack(lines[|lines| - 1]);
    }
  }

  lemma TriedAsTheyAre(lines: seq<string>)
    requires "" !in lines
    ensures Tried(lines) == lines
  {
    LeadIsPrefix(lines, |lines|);
  }

  /** A program tokenized, read back and tokenized again is byte for byte the same, when its lines have
      text behind their numbers and none is misread. */
  method ThereBackAndThere(lines: seq<string>) returns (image: Image, again: Image)
    requires forall k :: 0 <= k < |lines| && lines[k] != "" ==> Plain(TextOf(lines[k]))
    requires Tried(lines) != [] && forall k :: 0 <= k < |Tried(lines)| ==> Keeps(Tried(lines)[k])
    ensures again == image
  {
    hide Encodes, Layouts, Keeps, Zeros, LineBack, Plain, TextOf, Tried, LinesBack, Padding;
    var back; ghost var rs;
    image, back, rs := ThereAndBack(lines);
    again := image;
    if image.Made? {
      LinesBackHaveText(Tried(lines));
      TriedAsTheyAre(back);
      ghost var rs';
      again, rs' := EnBas(back);
      SameLayouts(rs, rs', Tried(lines));
    }
  }
}
