/** Chunked bodies, section 7.1 of RFC 9112: what the chunk states read, and what the response writer
    `iwn_http_response_chunk_write` produces. */
module HttpChunks {
  import opened HttpTables
  import opened Characters
  import opened TokenSpec
  import opened HttpMessage

  predicate HexDigits(text: string) {
    forall i :: 0 <= i < |text| ==> IsHex(text[i])
  }

  /** The number that a string of hexadecimal digits stands for. */
  function HexNum(text: string): nat
    requires HexDigits(text)
  {
    if text == "" then 0 else HexNum(text[..|text| - 1]) * 16 + HexVal(text[|text| - 1])
  }

  lemma HexNumSnoc(text: string, c: char)
    requires HexDigits(text + [c])
    ensures HexDigits(text) && IsHex(c) && HexNum(text + [c]) == HexNum(text) * 16 + HexVal(c)
    ensures HexVal(c) == 0 <==> c == '0'
  {
    var n := text + [c];
    assert forall i :: 0 <= i < |text| ==> n[i] == text[i];
    assert n[..|n| - 1] == text && n[|text|] == c;
  }

  /** The size is read as the number that its hexadecimal digits write, in letters of either case. */
  lemma {:induction false} HexSpelling(text: string, n: nat)
    ensures Spells(text, n, 16) <==> HexDigits(text) && HexNum(text) == n
    decreases |text|
  {
    if text != "" {
      var k := |text| - 1;
      assert text == text[..k] + [text[k]];
      HexSpelling(text[..k], n / 16);
      DigitForIff(text[k], n % 16);
      if HexDigits(text) {
        HexNumSnoc(text[..k], text[k]);
      }
    }
  }

  /** A chunk size line: the size in hexadecimal and an optional extension. */
  datatype SizeLine = SizeLine(size: string, ext: string)

  /** What may stand in a chunk extension: visible characters and tabs. */
  predicate ExtChar(c: char) {
    VisibleChar(c) || c == '\t'
  }

  predicate GoodSizeLine(z: SizeLine, n: nat) {
    && z.size != "" && Spells(z.size, n, 16) && n < INT_LIMIT
    && (z.ext != "" ==> z.ext[0] == ';') && (forall i :: 0 <= i < |z.ext| ==> ExtChar(z.ext[i]))
  }

  function EncodeSizeLine(z: SizeLine): string {
    z.size + z.ext + "\r\n"
  }

  // ------------------------------------------------------------------ the size line

  /** Where a chunk size is expected: after the headers or after a chunk. */
  function ChunkStart(st: State, count: nat, at: nat): Live {
    Live(Parser(0, 0, 0, count, st, M_ZER), T_NONE, "", at)
  }

  function SizeMeta(n: nat): Meta {
    if n > 0 then M_CSZ else M_ZER
  }

  function SizeKnown(n: nat): Meta {
    if n > 0 then M_CBD else M_LST
  }

  function InSize(count: nat, at: nat, n: nat): Live {
    Live(Parser(n, 0, 0, count, CS, SizeMeta(n)), T_NONE, "", at)
  }

  function AfterSize(st: State, count: nat, at: nat, n: nat): Live {
    Live(Parser(n, 0, 0, count, st, SizeKnown(n)), T_NONE, "", at)
  }

  predicate SizeState(st: State, count: nat) {
    (st == HN || st == C2) && count < INT16_MAX
  }

  lemma SizeFirst(cfg: Config, st: State, count: nat, at: nat, c: char)
    requires SizeState(st, count) && IsHex(c)
    ensures LiveInv(ChunkStart(st, count, at))
      && Step(cfg, ChunkStart(st, count, at), c) == Go(InSize(count, at, HexVal(c)), [])
  {
    StepTo(cfg, ChunkStart(st, count, at), c, CS);
  }

  lemma SizeStep(cfg: Config, count: nat, at: nat, n: nat, c: char)
    requires count < INT16_MAX && IsHex(c) && n * 16 + HexVal(c) < INT_LIMIT
    ensures LiveInv(InSize(count, at, n))
      && Step(cfg, InSize(count, at, n), c) == Go(InSize(count, at, n * 16 + HexVal(c)), [])
  {
    StepTo(cfg, InSize(count, at, n), c, CS);
  }

  lemma {:induction false} SizeRun(cfg: Config, st: State, count: nat, at: nat, size: string)
    requires SizeState(st, count) && size != "" && HexDigits(size) && HexNum(size) < INT_LIMIT
    ensures Leads(cfg, ChunkStart(st, count, at), size, InSize(count, at, HexNum(size)), [])
    decreases |size|
  {
    var k := |size| - 1;
    var a, c := size[..k], size[k];
    assert size == a + [c];
    HexNumSnoc(a, c);
    if k == 0 {
      assert size == [c];
      SizeFirst(cfg, st, count, at, c);
      LeadsStep(cfg, ChunkStart(st, count, at), c, InSize(count, at, HexVal(c)), []);
    } else {
      SizeRun(cfg, st, count, at, a);
      SizeStep(cfg, count, at, HexNum(a), c);
      LeadsStep(cfg, InSize(count, at, HexNum(a)), c, InSize(count, at, HexNum(size)), []);
      LeadsSeq(cfg, ChunkStart(st, count, at), a, InSize(count, at, HexNum(a)), [], [c],
          InSize(count, at, HexNum(size)), []);
    }
  }

  lemma ExtFirst(cfg: Config, count: nat, at: nat, n: nat)
    requires count < INT16_MAX && n < INT_LIMIT
    ensures LiveInv(InSize(count, at, n)) && Step(cfg, InSize(count, at, n), ';') == Go(AfterSize(CE, count, at, n), [])
  {
    StepTo(cfg, InSize(count, at, n), ';', CE);
  }

  lemma ExtStep(cfg: Config, count: nat, at: nat, n: nat, c: char)
    requires count < INT16_MAX && n < INT_LIMIT && ExtChar(c)
    ensures LiveInv(AfterSize(CE, count, at, n))
      && Step(cfg, AfterSize(CE, count, at, n), c) == Go(AfterSize(CE, count, at, n), [])
  {
    StepTo(cfg, AfterSize(CE, count, at, n), c, CE);
  }

  lemma {:induction false} ExtRun(cfg: Config, count: nat, at: nat, n: nat, ext: string)
    requires count < INT16_MAX && n < INT_LIMIT && ext != "" && ext[0] == ';'
      && forall i :: 0 <= i < |ext| ==> ExtChar(ext[i])
    ensures Leads(cfg, InSize(count, at, n), ext, AfterSize(CE, count, at, n), [])
    decreases |ext|
  {
    var k := |ext| - 1;
    var a, c := ext[..k], ext[k];
    assert ext == a + [c];
    if k == 0 {
      assert ext == [c];
      ExtFirst(cfg, count, at, n);
      LeadsStep(cfg, InSize(count, at, n), c, AfterSize(CE, count, at, n), []);
    } else {
      ExtRun(cfg, count, at, n, a);
      ExtStep(cfg, count, at, n, c);
      LeadsStep(cfg, AfterSize(CE, count, at, n), c, AfterSize(CE, count, at, n), []);
      LeadsSeq(cfg, InSize(count, at, n), a, AfterSize(CE, count, at, n), [], [c], AfterSize(CE, count, at, n), []);
    }
  }

  lemma SizeEnd(cfg: Config, s: Live, count: nat, at: nat, n: nat)
    requires count < INT16_MAX && n < INT_LIMIT && (s == InSize(count, at, n) || s == AfterSize(CE, count, at, n))
    ensures Leads(cfg, s, "\r\n", AfterSize(CN, count, at, n), [])
  {
    var l := AfterSize(CR, count, at, n);
    StepTo(cfg, s, '\r', CR);
    LeadsStep(cfg, s, '\r', l, []);
    StepTo(cfg, l, '\n', CN);
    LeadsStep(cfg, l, '\n', AfterSize(CN, count, at, n), []);
    LeadsSeq(cfg, s, "\r", l, [], "\n", AfterSize(CN, count, at, n), []);
    assert "\r" + "\n" == "\r\n";
  }

  lemma SizeLineRun(cfg: Config, st: State, count: nat, at: nat, z: SizeLine, n: nat)
    requires SizeState(st, count) && GoodSizeLine(z, n)
    ensures Leads(cfg, ChunkStart(st, count, at), EncodeSizeLine(z), AfterSize(CN, count, at, n), [])
  {
    var s := ChunkStart(st, count, at);
    HexSpelling(z.size, n);
    SizeRun(cfg, st, count, at, z.size);
    if z.ext == "" {
      SizeEnd(cfg, InSize(count, at, n), count, at, n);
      LeadsSeq(cfg, s, z.size, InSize(count, at, n), [], "\r\n", AfterSize(CN, count, at, n), []);
      assert z.size + z.ext == z.size;
    } else {
      ExtRun(cfg, count, at, n, z.ext);
      LeadsSeq(cfg, s, z.size, InSize(count, at, n), [], z.ext, AfterSize(CE, count, at, n), []);
      SizeEnd(cfg, AfterSize(CE, count, at, n), count, at, n);
      LeadsSeq(cfg, s, z.size + z.ext, AfterSize(CE, count, at, n), [], "\r\n", AfterSize(CN, count, at, n), []);
    }
  }

  // ------------------------------------------------------------------ whole chunks

  datatype Chunk = Chunk(line: SizeLine, data: string)

  predicate GoodChunk(c: Chunk) {
    c.data != "" && GoodSizeLine(c.line, |c.data|)
  }

  function EncodeChunk(c: Chunk): string {
    EncodeSizeLine(c.line) + c.data + "\r\n"
  }

  function AfterData(st: State, m: Meta, count: nat, at: nat): Live {
    Live(Parser(0, 0, 0, count, st, m), T_NONE, "", at)
  }

  lemma DataRun(cfg: Config, count: nat, at: nat, data: string)
    requires data != "" && |data| < INT_LIMIT
    ensures Leads(cfg, AfterSize(CN, count, at, |data|), data, AfterData(CD, M_CBD, count, at),
      [Tok(T_CHUNK_BODY, data)])
  {
    var s := AfterSize(CN, count, at, |data|);
    BodyCompletes(cfg, s, CB, data);
    assert "" + data == data;
  }

  lemma DataEnd(cfg: Config, count: nat, at: nat)
    requires count < INT16_MAX
    ensures Leads(cfg, AfterData(CD, M_CBD, count, at), "\r\n", ChunkStart(C2, count, at), [])
  {
    var s, l := AfterData(CD, M_CBD, count, at), AfterData(C1, M_CBD, count, at);
    StepTo(cfg, s, '\r', C1);
    LeadsStep(cfg, s, '\r', l, []);
    StepTo(cfg, l, '\n', C2);
    LeadsStep(cfg, l, '\n', ChunkStart(C2, count, at), []);
    LeadsSeq(cfg, s, "\r", l, [], "\n", ChunkStart(C2, count, at), []);
    assert "\r" + "\n" == "\r\n";
  }

  /** One non-empty chunk gives one token that holds its data. */
  lemma ChunkRun(cfg: Config, st: State, count: nat, at: nat, c: Chunk)
    requires SizeState(st, count) && GoodChunk(c)
    ensures Leads(cfg, ChunkStart(st, count, at), EncodeChunk(c), ChunkStart(C2, count, at),
      [Tok(T_CHUNK_BODY, c.data)])
  {
    var s := ChunkStart(st, count, at);
    SizeLineRun(cfg, st, count, at, c.line, |c.data|);
    DataRun(cfg, count, at, c.data);
    LeadsSeq(cfg, s, EncodeSizeLine(c.line), AfterSize(CN, count, at, |c.data|), [], c.data,
        AfterData(CD, M_CBD, count, at),
        [Tok(T_CHUNK_BODY, c.data)]);
    DataEnd(cfg, count, at);
    LeadsSeq(cfg, s, EncodeSizeLine(c.line) + c.data, AfterData(CD, M_CBD, count, at), [] + [Tok(T_CHUNK_BODY, c.data)],
        "\r\n", ChunkStart(C2, count, at), []);
    assert [] + [Tok(T_CHUNK_BODY, c.data)] + [] == [Tok(T_CHUNK_BODY, c.data)];
  }

  function EncodeChunks(cs: seq<Chunk>): string {
    if cs == [] then "" else EncodeChunk(cs[0]) + EncodeChunks(cs[1..])
  }

  function ChunkAtoms(cs: seq<Chunk>): seq<Atom> {
    if cs == [] then [] else [Tok(T_CHUNK_BODY, cs[0].data)] + ChunkAtoms(cs[1..])
  }

  lemma {:induction false} ChunksRun(cfg: Config, st: State, count: nat, at: nat, cs: seq<Chunk>)
    requires SizeState(st, count) && cs != [] && forall i :: 0 <= i < |cs| ==> GoodChunk(cs[i])
    ensures Leads(cfg, ChunkStart(st, count, at), EncodeChunks(cs), ChunkStart(C2, count, at), ChunkAtoms(cs))
    decreases |cs|
  {
    var c, rest := cs[0], cs[1..];
    ChunkRun(cfg, st, count, at, c);
    if rest == [] {
      assert EncodeChunk(c) + "" == EncodeChunk(c);
      assert ChunkAtoms(cs) == [Tok(T_CHUNK_BODY, c.data)];
    } else {
      ChunksRun(cfg, C2, count, at, rest);
      LeadsSeq(cfg, ChunkStart(st, count, at), EncodeChunk(c), ChunkStart(C2, count, at), [Tok(T_CHUNK_BODY, c.data)],
          EncodeChunks(rest), ChunkStart(C2, count, at), ChunkAtoms(rest));
    }
  }

  /** The chunk of size zero and the blank line that close a chunked body. */
  lemma LastChunkRun(cfg: Config, st: State, count: nat, at: nat, z: SizeLine)
    requires SizeState(st, count) && GoodSizeLine(z, 0)
    ensures LiveInv(ChunkStart(st, count, at))
    ensures Run(cfg, ChunkStart(st, count, at), EncodeSizeLine(z) + "\r\n") == Done([Tok(T_CHUNK_BODY, ""), FINISH])
  {
    var s, l := ChunkStart(st, count, at), AfterSize(CN, count, at, 0);
    SizeLineRun(cfg, st, count, at, z, 0);
    LeadsIs(cfg, s, EncodeSizeLine(z), l, []);
    RunGo(cfg, s, EncodeSizeLine(z), "\r\n");
    RunEmptyBody(cfg, l, CB, "\r\n");
    LastBlankLine(cfg, count, at);
    PrefixNil(Run(cfg, l, "\r\n"));
    assert [Tok(T_CHUNK_BODY, "")] + [FINISH] == [Tok(T_CHUNK_BODY, ""), FINISH];
  }

  lemma LastBlankLine(cfg: Config, count: nat, at: nat)
    requires count < INT16_MAX
    ensures LiveInv(AfterData(CD, M_LST, count, at))
      && Run(cfg, AfterData(CD, M_LST, count, at), "\r\n") == Done([FINISH])
  {
    var s, l := AfterData(CD, M_LST, count, at), AfterData(C1, M_LST, count, at);
    StepTo(cfg, s, '\r', C1);
    RunOne(cfg, s, '\r');
    RunGo(cfg, s, "\r", "\n");
    StepTo(cfg, l, '\n', C2);
    RunOne(cfg, l, '\n');
    assert "\r" + "\n" == "\r\n";
    assert [] + [FINISH] == [FINISH];
  }

  /** Chunked decoding is exact: every non-empty chunk gives one token with its data, the last chunk gives
      one empty token, and the message ends there. */
  lemma ChunkedBody(cfg: Config, st: State, count: nat, at: nat, cs: seq<Chunk>, last: SizeLine)
    requires SizeState(st, count) && (forall i :: 0 <= i < |cs| ==> GoodChunk(cs[i])) && GoodSizeLine(last, 0)
    ensures LiveInv(ChunkStart(st, count, at))
    ensures Run(cfg, ChunkStart(st, count, at), EncodeChunks(cs) + EncodeSizeLine(last) + "\r\n") ==
      Done(ChunkAtoms(cs) + [Tok(T_CHUNK_BODY, ""), FINISH])
  {
    var s, tail := ChunkStart(st, count, at), EncodeSizeLine(last) + "\r\n";
    assert EncodeChunks(cs) + EncodeSizeLine(last) + "\r\n" == EncodeChunks(cs) + tail;
    if cs == [] {
      LastChunkRun(cfg, st, count, at, last);
      assert EncodeChunks(cs) + tail == tail;
      assert ChunkAtoms(cs) + [Tok(T_CHUNK_BODY, ""), FINISH] == [Tok(T_CHUNK_BODY, ""), FINISH];
    } else {
      ChunksRun(cfg, st, count, at, cs);
      LeadsIs(cfg, s, EncodeChunks(cs), ChunkStart(C2, count, at), ChunkAtoms(cs));
      LastChunkRun(cfg, C2, count, at, last);
      RunGo(cfg, s, EncodeChunks(cs), tail);
    }
  }

  lemma ChunkedFinishes(cfg: Config, st: State, count: nat, at: nat, cs: seq<Chunk>, last: SizeLine)
    requires SizeState(st, count) && (forall i :: 0 <= i < |cs| ==> GoodChunk(cs[i])) && GoodSizeLine(last, 0)
    ensures Finishes(cfg, ChunkStart(st, count, at), EncodeChunks(cs) + EncodeSizeLine(last) + "\r\n",
                     ChunkAtoms(cs) + [Tok(T_CHUNK_BODY, ""), FINISH])
  {
    ChunkedBody(cfg, st, count, at, cs, last);
  }

  // ------------------------------------------------------------------ the response writer

  /** The "%X" conversion. */
  function HexText(n: nat): string {
    if n < 16 then [HEX_UPPER[n]] else HexText(n / 16) + [HEX_UPPER[n % 16]]
  }

  lemma {:induction false} HexTextSpells(n: nat)
    ensures HexText(n) != "" && Spells(HexText(n), n, 16)
    decreases n
  {
    var t := HexText(n);
    if n < 16 {
      assert t[..0] == "";
    } else {
      HexTextSpells(n / 16);
      assert t[..|t| - 1] == HexText(n / 16);
    }
  }

  /** A chunk as `iwn_http_response_chunk_write` frames it. */
  function WriteChunk(body: string): string {
    HexText(|body|) + "\r\n" + body + "\r\n"
  }

  function WriteChunks(bodies: seq<string>): string {
    if bodies == [] then "" else WriteChunk(bodies[0]) + WriteChunks(bodies[1..])
  }

  /** What `iwn_http_response_chunk_end` appends when no response headers are left to write. */
  const WRITE_END := "0\r\n" + "\r\n"

  /** The chunk that the writer makes of a body. */
  function Written(body: string): Chunk {
    Chunk(SizeLine(HexText(|body|), ""), body)
  }

  lemma WrittenIsGood(body: string)
    requires 0 < |body| < INT_LIMIT
    ensures GoodChunk(Written(body))
  {
    HexTextSpells(|body|);
  }

  lemma WrittenText(body: string)
    ensures EncodeChunk(Written(body)) == WriteChunk(body)
  {
    assert HexText(|body|) + "" == HexText(|body|);
  }

  function AllWritten(bodies: seq<string>): seq<Chunk> {
    seq(|bodies|, i requires 0 <= i < |bodies| => Written(bodies[i]))
  }

  function BodyTokens(bodies: seq<string>): seq<Atom> {
    seq(|bodies|, i requires 0 <= i < |bodies| => Tok(T_CHUNK_BODY, bodies[i]))
  }

  lemma AllWrittenGood(bodies: seq<string>)
    requires forall i :: 0 <= i < |bodies| ==> 0 < |bodies[i]| < INT_LIMIT
    ensures forall i :: 0 <= i < |bodies| ==> GoodChunk(AllWritten(bodies)[i])
  {
    forall i | 0 <= i < |bodies|
      ensures GoodChunk(AllWritten(bodies)[i])
    {
      WrittenIsGood(bodies[i]);
    }
  }

  lemma {:induction false} WriterFrames(bodies: seq<string>)
    ensures EncodeChunks(AllWritten(bodies)) == WriteChunks(bodies)
      && ChunkAtoms(AllWritten(bodies)) == BodyTokens(bodies)
    decreases |bodies|
  {
    if bodies != [] {
      WrittenText(bodies[0]);
      WriterFrames(bodies[1..]);
      assert AllWritten(bodies)[1..] == AllWritten(bodies[1..]);
      assert BodyTokens(bodies) == [Tok(T_CHUNK_BODY, bodies[0])] + BodyTokens(bodies[1..]);
    }
  }

  /** Chunk writer and chunk reader undo each other: reading what the writer frames for any list of
      non-empty bodies returns exactly these bodies, then the empty token that ends the stream. */
  lemma WriterReaderRoundTrip(cfg: Config, st: State, count: nat, at: nat, bodies: seq<string>)
    requires SizeState(st, count) && forall i :: 0 <= i < |bodies| ==> 0 < |bodies[i]| < INT_LIMIT
    ensures LiveInv(ChunkStart(st, count, at))
    ensures Run(cfg, ChunkStart(st, count, at), WriteChunks(bodies) + WRITE_END) ==
      Done(BodyTokens(bodies) + [Tok(T_CHUNK_BODY, ""), FINISH])
  {
    var last := SizeLine("0", "");
    assert GoodSizeLine(last, 0) by {
      assert "0"[..0] == "" && Spells("0", 0, 16);
    }
    assert EncodeSizeLine(last) == "0\r\n";
    AllWrittenGood(bodies);
    WriterFrames(bodies);
    ChunkedBody(cfg, st, count, at, AllWritten(bodies), last);
    assert WriteChunks(bodies) + "0\r\n" + "\r\n" == WriteChunks(bodies) + WRITE_END;
  }
}
