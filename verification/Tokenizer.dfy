/** The request tokeniser as it is implemented: one growable buffer read in place, a token under
    construction given by offsets, and the two table-driven machines. */
module HttpTokenizer {
  import opened Folding
  import opened HttpTables
  import opened TokenSpec

  /** An emitted token; its text is `buf[index..index + len]` at the moment of emission. */
  datatype Token = Token(index: nat, len: nat, kind: TokenKind)

  const NO_TOKEN := Token(0, 0, T_NONE)

  class Tokenizer {
    const cfg: Config

    // struct stream
    var buf: string
    var length: nat
    var index: nat
    var anchor: nat
    var consumed: bool
    var kind: TokenKind
    var tokIndex: nat
    var tokLen: nat

    // struct parser
    var contentLength: nat
    var bodyConsumed: nat
    var matchIndex: nat
    var headerCount: nat
    var state: State
    var meta: Meta

    constructor (cfg: Config)
      ensures this.cfg == cfg && Valid() && Abs() == FRESH && Unread() == "" && length == 0
    {
      this.cfg := cfg;
      buf, length, index, anchor, consumed := "", 0, 0, 0, false;
      kind, tokIndex, tokLen := T_NONE, 0, 0;
      contentLength, bodyConsumed, matchIndex, headerCount, state, meta := 0, 0, 0, 0, ST, M_WFK;
    }

    // ---------------------------------------------------------------- abstraction

    ghost predicate Bounds()
      reads this
    {
      && index <= length <= |buf| && length <= cfg.bufMax
      && (if kind == T_NONE then tokLen == 0 else tokIndex + tokLen == index)
      && (ST < state ==> 0 < index)
      && (HN < state ==> 0 < anchor <= index)
      && (state == CB ==> anchor <= tokIndex)
      && (state == BD && meta == M_STR ==> index == anchor)
    }

    ghost function ParserNow(): Parser
      reads this
    {
      Parser(contentLength, bodyConsumed, matchIndex, headerCount, state, meta)
    }

    ghost function Text(): string
      requires Bounds()
      reads this
    {
      if kind == T_NONE then "" else buf[tokIndex..index]
    }

    /** The reading state that the fields stand for. */
    ghost function Abs(): Live
      requires Bounds()
      reads this
    {
      Live(ParserNow(), kind, Text(), if state <= HN then index else anchor)
    }

    ghost function Unread(): string
      requires index <= length <= |buf|
      reads this
    {
      buf[index..length]
    }

    ghost predicate Valid()
      reads this
    {
      Bounds() && (if Closing(meta) then state != CN && kind == T_NONE else LiveInv(Abs()))
    }

    /** What the unread bytes lead to. */
    ghost function Outcome(): Result
      requires Valid()
      reads this
    {
      if Closing(meta) then (if Unread() == "" then Done(Trailer(meta)) else Outside)
      else Run(cfg, Abs(), Unread())
    }

    // ---------------------------------------------------------------- stream primitives

    method StreamNext() returns (more: bool, c: char)
      requires index <= length <= |buf|
      modifies `consumed
      ensures !consumed
      ensures more <==> index < length
      ensures more ==> c == buf[index]
    {
      consumed := false;
      c := '\0';
      more := index < length;
      if more {
        c := buf[index];
      }
    }

    method StreamConsume()
      modifies `consumed, `index, `tokLen
      ensures consumed
      ensures old(consumed) ==> index == old(index) && tokLen == old(tokLen)
      ensures !old(consumed) ==> index == old(index) + 1 && tokLen == if kind != T_NONE then old(tokLen) + 1 else 0
    {
      if !consumed {
        consumed := true;
        index := index + 1;
        tokLen := if kind != T_NONE then tokLen + 1 else 0;
      }
    }

    /** Moves the unfinished token down to the anchor and forgets everything behind it. */
    method StreamShift()
      requires index == length <= |buf| && anchor <= index
      requires tokLen > 0 ==> anchor <= tokIndex && tokIndex + tokLen == index
      modifies `buf, `tokIndex, `index, `length
      ensures |buf| == old(|buf|) && buf[..anchor] == old(buf[..anchor])
      ensures index == length <= old(length) && tokIndex == anchor
      ensures index == if old(tokIndex) != anchor then anchor + tokLen else old(index)
      ensures tokLen > 0 ==> buf[tokIndex..index] == old(buf[tokIndex..index])
      ensures tokLen == 0 ==> buf == old(buf)
    {
      if tokIndex == anchor {
        return;
      }
      if tokLen > 0 {
        var bytes := length - tokIndex;
        buf := buf[..anchor] + buf[tokIndex..length] + buf[anchor + bytes..];
      }
      tokIndex := anchor;
      index := anchor + tokLen;
      length := index;
    }

    method StreamEmit() returns (t: Token)
      modifies `kind, `tokIndex, `tokLen
      ensures t == old(Token(tokIndex, tokLen, kind))
      ensures kind == T_NONE && tokIndex == 0 && tokLen == 0
    {
      t := Token(tokIndex, tokLen, kind);
      kind, tokIndex, tokLen := T_NONE, 0, 0;
    }

    method StreamJump(offset: nat) returns (ok: bool)
      modifies `consumed, `index, `tokLen
      ensures consumed
      ensures ok <==> old(index) + offset <= length
      ensures ok ==> index == old(index) + offset && tokLen == if kind == T_NONE then 0 else old(tokLen) + offset
      ensures !ok ==> index == old(index) && tokLen == old(tokLen)
    {
      consumed := true;
      if index + offset > length {
        return false;
      }
      index := index + offset;
      tokLen := if kind == T_NONE then 0 else tokLen + offset;
      return true;
    }

    method StreamJumpAll() returns (offset: nat)
      requires index <= length
      modifies `consumed, `index, `tokLen
      ensures consumed
      ensures offset == length - old(index) && index == length
      ensures tokLen == if kind == T_NONE then 0 else old(tokLen) + offset
    {
      consumed := true;
      offset := length - index;
      index := index + offset;
      tokLen := if kind == T_NONE then 0 else tokLen + offset;
    }

    /** A read appends behind `length`, over whatever a shift left there; nothing is read while bytes
        are unread, and never more than the buffer may still grow. */
    method Feed(bytes: string)
      requires Valid() && Unread() == "" && !Closing(meta)
      requires length + |bytes| <= cfg.bufMax
      modifies `buf, `length
      ensures Valid() && Abs() == old(Abs()) && Unread() == bytes
      ensures Ahead(Run(cfg, old(Abs()), bytes)) && length == old(length) + |bytes|
    {
      buf := buf[..length] + bytes + (if length + |bytes| <= |buf| then buf[length + |bytes|..] else "");
      length := length + |bytes|;
      if kind != T_NONE {
        PrefixSlice(old(buf), buf, tokIndex, index);
      }
    }

    method MetaTrigger(e: Event)
      requires meta != M_ERR
      modifies `meta
      ensures meta == MetaNext(old(meta), e)
    {
      meta := MetaNext(meta, e);
    }

    // ---------------------------------------------------------------- transitions

    /** The fields stand for `s`, except that the new state is already stored. */
    ghost predicate Entering(s: Live, c: char, to: State)
      reads this
    {
      && index < length <= |buf| && length <= cfg.bufMax && !consumed && c == buf[index] && state == to
      && s.p == ParserNow().(state := s.p.state) && s.kind == kind
      && (if kind == T_NONE then tokLen == 0 && s.text == ""
          else tokIndex + tokLen == index && s.text == buf[tokIndex..index])
      && s.pos == (if s.p.state <= HN then index else anchor)
      && (ST < s.p.state ==> 0 < index)
      && (HN < s.p.state ==> 0 < anchor <= index)
      && (s.p.state == CB ==> anchor <= tokIndex)
      && (s.p.state == BD && s.p.meta == M_STR ==> index == anchor)
    }

    /** The comparison of one byte of a header name or value with a framing word. */
    method Match(c: char, expected: char, e: Event)
      requires meta != M_ERR
      modifies `meta
      ensures meta == if Lower(c) != expected then MetaNext(old(meta), e) else old(meta)
    {
      if Lower(c) != expected {
        MetaTrigger(e);
      }
    }

    /** The first part of a transition: what is done only when the state changes. */
    method ChangeState(from: State, to: State) returns (e: Token)
      requires meta != M_ERR && !(from == CS && to == HS)
      modifies `anchor, `kind, `tokIndex, `tokLen, `headerCount, `matchIndex, `meta
      ensures anchor == if from == HN then index else old(anchor)
      ensures meta == EnterMeta(from, old(meta), to)
      ensures matchIndex == if from != to then 0 else old(matchIndex)
      ensures headerCount == if from != to && to == HK then old(headerCount) + 1 else old(headerCount)
      ensures e == if from == to then NO_TOKEN else if to == HS then old(Token(tokIndex, tokLen, kind))
                   else NO_TOKEN.(kind := if to == HK && headerCount > cfg.maxHeaders then T_ERROR else T_NONE)
      ensures kind == if from == to then old(kind) else if to == HS then T_NONE
                      else if StartToken(to) != T_NONE then StartToken(to) else old(kind)
      ensures tokIndex == if from == to then old(tokIndex) else if to == HS then 0
                          else if StartToken(to) != T_NONE then index else old(tokIndex)
      ensures tokLen == if from != to && to == HS then 0 else old(tokLen)
    {
      e := NO_TOKEN;
      if from == HN {
        anchor := index;
      }
      if from != to {
        var k := StartToken(to);
        if k != T_NONE {
          kind, tokIndex := k, index;
        }
        if from == CS {
          MetaTrigger(END_CHK_SIZE);
        }
        if to == HK {
          headerCount := headerCount + 1;
          if headerCount > cfg.maxHeaders {
            e := e.(kind := T_ERROR);
          }
        } else if to == HS {
          MetaTrigger(END_KEY);
          e := StreamEmit();
        }
        matchIndex := 0;
      }
    }

    /** Header names are compared with both framing names, values of a framing header are read. */
    method HeaderByte(c: char, to: State)
      requires to == HK ==> (meta == M_ANY || Joint(HK, meta)) && (matchIndex == 0 || meta != M_ANY)
      requires to == HV ==> meta != M_ERR && (meta == M_CLV ==> IsDigit(c))
      requires to == HK || to == HV
      modifies `contentLength, `matchIndex, `meta
      ensures var o := Compare(c, old(matchIndex), false, false, false);
        meta == if to == HK then MatchKey(old(meta), o)
                else if old(meta) == M_MCK && o.notChunked then MetaNext(old(meta), NOT_CHUNKED) else old(meta)
      ensures matchIndex == if to == HK || old(meta) == M_MCK then old(matchIndex) + 1 else old(matchIndex)
      ensures contentLength == if to == HV
        && old(meta) == M_CLV then old(contentLength) * 10 + DigitVal(c) else old(contentLength)
    {
      if to == HK {
        Match(c, TeByte(matchIndex), NOT_TRANSFER_ENC);
        Match(c, ClByte(matchIndex), NOT_CONTENT_LEN);
        matchIndex := matchIndex + 1;
      } else if meta == M_MCK {
        Match(c, ChunkedByte(matchIndex), NOT_CHUNKED);
        matchIndex := matchIndex + 1;
      } else if meta == M_CLV {
        contentLength := contentLength * 10;
        contentLength := contentLength + DigitVal(c);
      }
    }

    /** The switch over the new state, except for the body states. */
    method SwitchState(c: char, to: State, e0: Token) returns (e: Token)
      requires meta != M_ERR && to != CB && to != BD
      requires to == HK ==> (meta == M_ANY || Joint(HK, meta)) && (matchIndex == 0 || meta != M_ANY)
      requires to == HV && meta == M_CLV ==> IsDigit(c)
      requires to == HN ==> Joint(ER, meta)
      requires to == CS ==> IsHex(c)
      modifies `kind, `tokIndex, `tokLen, `contentLength, `matchIndex, `meta
      ensures meta == SwitchMeta(old(meta), to,
        Compare(c, old(matchIndex), to == HN
            && !CanContain(cfg, index, old(contentLength)), old(contentLength) == 0, false))
      ensures matchIndex == if to == HK || (to == HV && old(meta) == M_MCK) then old(matchIndex) + 1
        else old(matchIndex)
      ensures contentLength == if to == HV && old(meta) == M_CLV then old(contentLength) * 10 + DigitVal(c)
                               else if to == CS then old(contentLength) * 16 + HexVal(c) else old(contentLength)
      ensures to == MS || to == TS || to == RR || to == HR ==>
        e == old(Token(tokIndex, tokLen, kind)) && kind == T_NONE && tokLen == 0
      ensures !(to == MS || to == TS || to == RR || to == HR) ==>
        kind == old(kind) && tokIndex == old(tokIndex) && tokLen == old(tokLen)
      ensures to == HN ==> e == if HeadersEnd(meta) != [] then Token(0, 0, HeadersEnd(meta)[0].kind) else NO_TOKEN
      ensures to == BR ==> e == e0.(kind := T_ERROR)
      ensures !(to == MS || to == TS || to == RR || to == HR || to == HN || to == BR) ==> e == e0
    {
      e := e0;
      if to == MS || to == TS {
        e := StreamEmit();
      } else if to == RR || to == HR {
        MetaTrigger(END_VALUE);
        e := StreamEmit();
      } else if to == HK || to == HV {
        HeaderByte(c, to);
      } else if to == HN {
        e := HeadersComplete();
      } else if to == CS {
        if c != '0' {
          MetaTrigger(NON_ZERO);
        }
        contentLength := contentLength * 0x10;
        contentLength := contentLength + HexVal(c);
      } else if to == C2 {
        MetaTrigger(END_CHUNK);
      } else if to == BR {
        e := e.(kind := T_ERROR);
      }
    }

    /** A transition into any state other than a body state: the counters, the meta state and the token
        under construction become those of the byte-at-a-time reading. */
    method TransitionHead(c: char, from: State, to: State, ghost s: Live) returns (e: Token)
      requires s.p.state == from && Entering(s, c, to) && HeadReady(s, to) && to != CB && to != BD
      requires to == BR || Assumed(cfg, s, c, to)
      modifies `anchor, `kind, `tokIndex, `tokLen, `contentLength, `matchIndex, `headerCount, `meta
      ensures e.kind == T_ERROR <==> to == BR || (to == HK && from != HK && s.p.headerCount + 1 > cfg.maxHeaders)
      ensures e.kind != T_ERROR ==>
        && ParserIs(cfg, s, c, to, ParserNow())
        && kind == (if Emits(from, to) then T_NONE else OpenKind(s, to))
        && (if kind == T_NONE then tokLen == 0
            else tokIndex + tokLen == index && buf[tokIndex..index] == OpenText(s, to))
        && e == (if Emits(from, to) then old(Token(tokIndex, tokLen, kind))
                 else if to == HN && HeadersEnd(meta) != [] then Token(0, 0, HeadersEnd(meta)[0].kind)
                 else NO_TOKEN)
        && (from == HN || HN < from ==> 0 < anchor <= index) && anchor == (if from == HN then index else old(anchor))
    {
      e := TransitionCore(c, from, to, s);
    }

    /** The counters, the meta state and the fields of the token. */
    method TransitionCore(c: char, from: State, to: State, ghost s: Live) returns (e: Token)
      requires s.p.state == from && Entering(s, c, to) && HeadReady(s, to) && to != CB && to != BD
      requires to == BR || Assumed(cfg, s, c, to)
      modifies `anchor, `kind, `tokIndex, `tokLen, `contentLength, `matchIndex, `headerCount, `meta
      ensures e.kind == T_ERROR <==> to == BR || (to == HK && from != HK && s.p.headerCount + 1 > cfg.maxHeaders)
      ensures e.kind != T_ERROR ==>
        && ParserIs(cfg, s, c, to, ParserNow())
        && e == (if Emits(from, to) then old(Token(tokIndex, tokLen, kind))
                 else if to == HN && HeadersEnd(meta) != [] then Token(0, 0, HeadersEnd(meta)[0].kind)
                 else NO_TOKEN)
        && (Emits(from, to) ==> kind == T_NONE && tokLen == 0)
        && (!Emits(from, to) ==>
              && kind == OpenKind(s, to) && tokLen == old(tokLen)
              && tokIndex == if from != to && StartToken(to) != T_NONE then index else old(tokIndex))
        && anchor == (if from == HN then index else old(anchor))
    {
      EdgeSwitch(from, meta, to);
      e := ChangeState(from, to);
      assert Observe(cfg, s, c, to) ==
        Compare(c, matchIndex, to == HN && !CanContain(cfg, index, contentLength), contentLength == 0, false);
      e := SwitchState(c, to, e);
    }

    /** The switch case of the state after the blank line: the body framing is settled here. */
    method HeadersComplete() returns (e: Token)
      requires Joint(ER, meta)
      modifies `meta
      ensures forall o: Seen :: o.large == !CanContain(cfg, index, contentLength) && o.empty == (contentLength == 0) ==>
        meta == MetaAtHeadersEnd(old(meta), o)
      ensures e == if HeadersEnd(meta) != [] then Token(0, 0, HeadersEnd(meta)[0].kind) else NO_TOKEN
    {
      e := NO_TOKEN;
      if meta == M_SML && !CanContain(cfg, index, contentLength) {
        MetaTrigger(LARGE_BODY);
      }
      if meta == M_BIG || meta == M_CHK {
        e := e.(kind := T_BODY_STREAM);
      }
      MetaTrigger(END_HEADERS);
      if contentLength == 0 && meta == M_BDY {
        meta := M_END;
      }
      if meta == M_END {
        e := e.(kind := T_BODY);
      }
    }

    /** Opens the token of a body state, or carries on with the one being read. */
    method OpenBody(c: char, from: State, to: State, ghost s: Live)
      requires s.p.state == from && Entering(s, c, to) && BodyReady(s, to)
      modifies `anchor, `kind, `tokIndex, `tokLen, `headerCount, `matchIndex, `meta
      ensures ParserNow() == s.p.(state := to, matchIndex := MatchPos(s, to))
      ensures kind == (if meta == M_STR then T_CHUNK_BODY else OpenKind(s, to)) && kind != T_NONE
      ensures tokIndex + tokLen == index && 0 < anchor <= index && (to == CB ==> anchor <= tokIndex)
      ensures anchor == if from == HN then old(index) else old(anchor)
      ensures buf[tokIndex..index] == Begun(s, to)
    {
      var _ := ChangeState(from, to);
      if meta == M_STR {
        kind, tokIndex := T_CHUNK_BODY, index;
      }
    }

    /** Takes the rest of the body when the buffer holds it, and emits it. */
    method TakeBody(to: State) returns (whole: bool, e: Token)
      requires index < length <= |buf| && kind != T_NONE && tokIndex + tokLen == index && meta != M_ERR
      requires 0 <= bodyConsumed <= contentLength && (to == CB || to == BD) && state == to
      modifies `consumed, `index, `tokLen, `tokIndex, `kind, `meta, `state, `contentLength, `bodyConsumed
      ensures consumed
      ensures whole <==> old(contentLength - bodyConsumed <= length - index)
      ensures !whole ==>
        && e == NO_TOKEN && index == old(index) && tokLen == old(tokLen) && tokIndex == old(tokIndex)
        && kind == old(kind) && ParserNow() == old(ParserNow())
      ensures whole ==>
        && ParserNow() == old(ParserNow()).(contentLength := 0, bodyConsumed := 0, meta := MetaNext(old(meta), NEXT),
                                            state := if to == CB then CD else to)
        && index == old(index + (contentLength - bodyConsumed)) && kind == T_NONE && tokLen == 0
        && e == Token(old(tokIndex), index - old(tokIndex), old(kind))
    {
      e := NO_TOKEN;
      var left := contentLength - bodyConsumed;
      whole := StreamJump(left);
      if whole {
        e := StreamEmit();
        MetaTrigger(NEXT);
        if to == CB {
          state := CD;
        }
        contentLength := 0;
        bodyConsumed := 0;
      }
    }

    /** Takes all there is of a body that the buffer does not complete. */
    method KeepBody() returns (e: Token)
      requires index < length <= |buf| && kind != T_NONE && tokIndex + tokLen == index && 0 < anchor <= index
      modifies `consumed, `buf, `index, `length, `tokLen, `tokIndex, `kind, `bodyConsumed
      ensures consumed && buf == old(buf) && index == length <= old(length) && anchor <= index
      ensures bodyConsumed == old(bodyConsumed + (length - index))
      ensures if meta == M_STR then
          kind == T_NONE && tokLen == 0 && e == Token(old(tokIndex), old(length - tokIndex), old(kind))
              && index == anchor
        else
          && e == NO_TOKEN && kind == old(kind) && tokIndex == old(tokIndex) && tokIndex + tokLen == index
            && length == old(length)
    {
      e := NO_TOKEN;
      var n := StreamJumpAll();
      bodyConsumed := bodyConsumed + n;
      if meta == M_STR {
        e := StreamEmit();
        StreamShift();
      }
    }

    /** A transition into a body state takes every body byte the buffer holds.  A complete body is
        emitted; an incomplete streamed one is emitted as far as it goes and the buffer reset to the
        anchor; any other incomplete body stays under construction.  The token starts at `start`, with
        what was read before this transition. */
    method TransitionBody(c: char, from: State, to: State, ghost s: Live) returns (e: Token, ghost start: nat)
      requires s.p.state == from && Entering(s, c, to) && BodyReady(s, to)
      modifies this
      ensures consumed && buf == old(buf) && index <= length <= old(length) && 0 < anchor <= index
      ensures anchor == if from == HN then old(index) else old(anchor)
      ensures start <= old(index) && buf[start..old(index)] == Begun(s, to)
      ensures BodyLeft(s) <= old(length - index) ==>
          && ParserNow() == s.p.(state := if to == CB then CD else to, matchIndex := MatchPos(s, to),
                                 contentLength := 0, bodyConsumed := 0, meta := MetaNext(s.p.meta, NEXT))
          && kind == T_NONE && tokLen == 0 && index == old(index) + BodyLeft(s) && length == old(length)
          && e == Token(start, index - start, if s.p.meta == M_STR then T_CHUNK_BODY else OpenKind(s, to))
      ensures BodyLeft(s) > old(length - index) ==>
          && ParserNow() == s.p.(state := to, matchIndex := MatchPos(s, to),
            bodyConsumed := s.p.bodyConsumed + old(length - index))
          && index == length
      ensures BodyLeft(s) > old(length - index) && s.p.meta == M_STR ==>
          kind == T_NONE && tokLen == 0 && e == Token(start, old(length) - start, T_CHUNK_BODY) && index == anchor
      ensures BodyLeft(s) > old(length - index) && s.p.meta != M_STR ==>
          && e == NO_TOKEN && kind == OpenKind(s, to) && kind != T_NONE && length == old(length)
          && tokIndex == start && start + tokLen == index && (to == CB ==> anchor <= tokIndex)
    {
      OpenBody(c, from, to, s);
      start := tokIndex;
      var whole;
      whole, e := TakeBody(to);
      if !whole {
        e := KeepBody();
      }
    }

    // ---------------------------------------------------------------- one step of the parse loop

    /** The atoms a token stands for when its text is read from the buffer at emission. */
    ghost function AtomsOf(e: Token, streamed: bool): seq<Atom>
      requires e.index + e.len <= |buf|
      reads this
    {
      var t := buf[e.index..e.index + e.len];
      if e.kind == T_NONE then [] else if streamed then Parts(t) else [Tok(e.kind, t)]
    }

    /** The token that a transition outside bodies emits; one that was read starts at `start`. */
    ghost function HeadToken(s: Live, to: State, m: Meta, start: nat): Token {
      if Emits(s.p.state, to) then Token(start, |s.text|, s.kind)
      else if to == HN && HeadersEnd(m) != [] then Token(0, 0, HeadersEnd(m)[0].kind)
      else NO_TOKEN
    }

    lemma HeadTokenAtoms(e: Token, s: Live, to: State, m: Meta, start: nat)
      requires e == HeadToken(s, to, m, start)
      requires Emits(s.p.state, to) ==>
        s.kind != T_NONE && start + |s.text| <= |buf| && buf[start..start + |s.text|] == s.text
      ensures e.index + e.len <= |buf| && AtomsOf(e, false) == HeadAtoms(s, to, m)
    {
    }

    /** Of `len` bytes in the buffer only those of a streamed body that were handed out can be gone. */
    ghost predicate Stays(len: nat)
      reads this
    {
      length == len || (state == BD && meta == M_STR && index == length <= len)
    }

    /** The transition and the consumption of its byte. */
    method StepHead(c: char, to: State, ghost s: Live) returns (e: Token)
      requires Bounds() && s == Abs() && index < length && !consumed && c == buf[index]
      requires HeadReady(s, to) && to != CB && to != BD && (to == BR || Assumed(cfg, s, c, to))
      modifies this
      ensures buf == old(buf) && index == old(index) + 1 && length == old(length)
      ensures e.kind == T_ERROR <==> to == BR || (to == HK && s.p.state != HK && s.p.headerCount + 1 > cfg.maxHeaders)
      ensures e.kind != T_ERROR ==>
        && Bounds() && ParserIs(cfg, s, c, to, ParserNow()) && e == HeadToken(s, to, meta, old(tokIndex))
        && kind == (if Emits(s.p.state, to) then T_NONE else OpenKind(s, to))
        && (kind != T_NONE ==> Text() == OpenText(s, to) + [c])
        && anchor == (if old(state) == HN then old(index) else old(anchor))
    {
      var from := state;
      state := to;
      e := TransitionHead(c, from, to, s);
      StreamConsume();
      if e.kind != T_ERROR && kind != T_NONE {
        SliceSnoc(buf, tokIndex, index - 1);
      }
    }

    /** The same, with the text of the token read from the buffer. */
    method EmitHead(c: char, to: State, ghost s: Live, ghost l: Live) returns (e: Token)
      requires Bounds() && s == Abs() && index < length && !consumed && c == buf[index]
      requires HeadReady(s, to) && to != CB && to != BD && (to == BR || Assumed(cfg, s, c, to))
      requires !Refused(cfg, s, to) ==> LiveIs(cfg, s, c, to, l)
      modifies this
      ensures buf == old(buf) && index == old(index) + 1 && length == old(length)
      ensures e.kind == T_ERROR <==> to == BR || (to == HK && s.p.state != HK && s.p.headerCount + 1 > cfg.maxHeaders)
      ensures e.kind != T_ERROR ==>
        && Bounds() && Abs() == l
        && e.index + e.len <= |buf| && AtomsOf(e, false) == HeadAtoms(s, to, meta)
    {
      ghost var start := tokIndex;
      e := StepHead(c, to, s);
      if e.kind != T_ERROR {
        assert ParserNow() == HeadParser(cfg, s, c, to) by { assert Peek(ParserNow()); }
        assert l == HeadLive(cfg, s, c, to) by { assert Peek(l); }
        HeadTokenAtoms(e, s, to, meta, start);
      }
    }

    method AdvanceHead(c: char, to: State, ghost r: Result) returns (e: Token, ghost next: Result)
      requires Bounds() && GoesOn(cfg, Abs(), Unread(), r) && !Closing(meta) && !r.Outside?
      requires index < length && !consumed && c == buf[index]
      requires to == Move(state, meta, CType(c)) && to != CB && to != BD
      modifies this
      ensures index == old(index) + 1 && length == old(length)
      ensures e.kind == T_ERROR ==> r == Halt([REJECT])
      ensures e.kind != T_ERROR ==>
        && Bounds() && GoesOn(cfg, Abs(), Unread(), next) && e.index + e.len <= |buf|
        && r == Prefix(AtomsOf(e, false), next)
        && (e.kind == T_NONE ==> meta != M_STR && meta != M_SEN) && e.kind != T_REQ_END && old(meta) != M_STR
    {
      ghost var s, bytes, l := Abs(), Unread(), Abs();
      l, next := HeadGoesTo(cfg, s, to, bytes, r);
      e := EmitHead(c, to, s, l);
      assert Unread() == bytes[1..];
    }

    method StepBody(c: char, to: State, ghost s: Live, ghost left: nat) returns (e: Token, ghost start: nat)
      requires Bounds() && s == Abs() && index < length && !consumed && c == buf[index] && BodyReady(s, to)
        && left == length - index
      modifies this
      ensures Bounds() && buf == old(buf) && length <= old(length)
      ensures anchor == if old(state) == HN then old(index) else old(anchor)
      ensures start <= old(index) && buf[start..old(index)] == Begun(s, to)
      ensures BodyLeft(s) <= left ==>
        && Abs() == AfterBody(s, to) && index == old(index) + BodyLeft(s) && length == old(length)
        && e == Token(start, index - start, if s.p.meta == M_STR then T_CHUNK_BODY else OpenKind(s, to))
      ensures BodyLeft(s) > left ==>
        && ParserNow() == s.p.(state := to, matchIndex := MatchPos(s, to), bodyConsumed := s.p.bodyConsumed + left)
        && index == length && (s.p.meta == M_STR || length == old(length))
        && (if s.p.meta == M_STR then kind == T_NONE && e == Token(start, old(length) - start, T_CHUNK_BODY)
            else e == NO_TOKEN && kind == OpenKind(s, to) && kind != T_NONE && tokIndex == start)
    {
      var from := state;
      state := to;
      e, start := TransitionBody(c, from, to, s);
      StreamConsume();
    }

    /** The same, with the texts read from the buffer. */
    method EmitBody(c: char, to: State, ghost s: Live, ghost bytes: string, ghost n: nat) returns (e: Token)
      requires Bounds() && s == Abs() && bytes == Unread() && index < length && !consumed && c == buf[index]
        && BodyReady(s, to)
      requires n == if BodyLeft(s) <= |bytes| then BodyLeft(s) else |bytes|
      modifies this
      ensures Bounds() && length <= old(length)
      ensures length == old(length) || (s.p.meta == M_STR && BodyLeft(s) > |bytes|)
      ensures BodyLeft(s) <= |bytes| ==>
        Abs() == AfterBody(s, to) && Unread() == bytes[n..] && index == old(index) + n && length == old(length)
      ensures BodyLeft(s) > |bytes| ==> Abs() == MidBody(s, to, bytes) && index == length
      ensures if BodyLeft(s) > |bytes| && s.p.meta != M_STR then e == NO_TOKEN
        else
          && e.kind == (if s.p.meta == M_STR then T_CHUNK_BODY else OpenKind(s, to))
          && e.index + e.len <= |buf| && buf[e.index..e.index + e.len] == Begun(s, to) + bytes[..n]
    {
      ghost var start;
      e, start := StepBody(c, to, s, |bytes|);
      TokenText(buf, start, old(index), old(length), n, Begun(s, to), bytes);
      if BodyLeft(s) > |bytes| {
        assert Abs().text == MidBody(s, to, bytes).text;
      }
    }

    method AdvanceBody(c: char, to: State, ghost r: Result) returns (e: Token, ghost next: Result)
      requires Bounds() && GoesOn(cfg, Abs(), Unread(), r) && !Closing(meta) && !r.Outside?
      requires index < length && !consumed && c == buf[index]
      requires to == Move(state, meta, CType(c)) && (to == CB || to == BD)
      modifies this
      ensures e.kind != T_ERROR && Bounds() && e.index + e.len <= |buf| && index <= length <= old(length)
      ensures GoesOn(cfg, Abs(), Unread(), next) && r == Prefix(AtomsOf(e, old(meta) == M_STR), next)
      ensures Stays(old(length)) && (e.kind == T_NONE ==> length == old(length))
      ensures e.kind == T_NONE ==> old(meta) != M_STR && meta == old(meta) && index == length
      ensures e.kind != T_REQ_END && Work() < old(Work())
    {
      ghost var s, bytes := Abs(), Unread();
      BodyFacts(s, to, CType(c));
      ghost var n := if BodyLeft(s) <= |bytes| then BodyLeft(s) else |bytes|;
      next := BodyGoesTo(cfg, s, to, bytes, n, r);
      e := EmitBody(c, to, s, bytes, n);
      BodyTokenAtoms(e, s, to, bytes, n);
    }

    /** The token of a body step stands for the atoms of the bytes it took. */
    lemma BodyTokenAtoms(e: Token, s: Live, to: State, bytes: string, n: nat)
      requires n <= |bytes| && (BodyLeft(s) > |bytes| ==> n == |bytes|)
        && (s.p.meta != M_STR ==> OpenKind(s, to) != T_NONE)
      requires if BodyLeft(s) > |bytes| && s.p.meta != M_STR then e == NO_TOKEN
        else
          && e.kind == (if s.p.meta == M_STR then T_CHUNK_BODY else OpenKind(s, to))
          && e.index + e.len <= |buf| && buf[e.index..e.index + e.len] == Begun(s, to) + bytes[..n]
      ensures e.index + e.len <= |buf|
      ensures AtomsOf(e, s.p.meta == M_STR) ==
        if BodyLeft(s) > |bytes| then Streamed(s, bytes) else WholeBody(s, to, bytes[..n])
    {
      assert bytes[..|bytes|] == bytes;
      assert s.p.meta == M_STR ==> Begun(s, to) + bytes[..n] == bytes[..n];
    }

    /** Bounds the calls that can still return a token. */
    ghost function Work(): nat
      requires index <= length
      reads this
    {
      2 * (length - index) + if state == CN || meta == M_SEN then 1 else 0
    }

    /** The closing tokens, emitted without looking at the input. */
    method MetaEmitToken() returns (t: Token)
      modifies `contentLength, `bodyConsumed, `matchIndex, `headerCount, `state, `meta
      ensures old(meta) == M_SEN ==> t == Token(0, 0, T_CHUNK_BODY) && ParserNow() == old(ParserNow()).(meta := M_END)
      ensures old(meta) == M_END ==> t == Token(0, 0, T_REQ_END) && ParserNow() == START
      ensures !Closing(old(meta)) ==> t == NO_TOKEN && ParserNow() == old(ParserNow())
    {
      t := NO_TOKEN;
      if meta == M_SEN {
        t := t.(kind := T_CHUNK_BODY);
        MetaTrigger(NEXT);
      } else if meta == M_END {
        t := t.(kind := T_REQ_END);
        contentLength, bodyConsumed, matchIndex, headerCount, state, meta := 0, 0, 0, 0, ST, M_WFK;
      }
    }

    /** The unread bytes lead to `r`.  The bound variable keeps the verifier from looking inside except
        where `Peek(r)` is mentioned. */
    ghost predicate Ahead(r: Result)
      reads this
    {
      forall q :: Peek(q) && q == r ==> Valid() && q == Outcome()
    }

    /** One iteration of the parse loop. */
    method Advance(c: char, ghost r: Result) returns (e: Token, ghost next: Result)
      requires Ahead(r) && !r.Outside? && Bounds() && !Closing(meta) && index < length && !consumed && c == buf[index]
      modifies this
      ensures e.kind != T_REQ_END && length <= old(length)
      ensures e.kind == T_ERROR ==> r == Halt([REJECT])
      ensures e.kind != T_ERROR ==> Stays(old(length))
      ensures e.kind != T_ERROR ==>
        && Bounds() && Ahead(next) && e.index + e.len <= |buf| && Work() < old(Work())
        && r == Prefix(AtomsOf(e, old(meta) == M_STR), next)
      ensures e.kind == T_NONE ==>
        && index <= length == old(length) && length - index < old(length - index)
        && meta != M_STR && meta != M_SEN && old(meta) != M_STR && (meta == M_END ==> index == length)
    {
      AheadIs(r);
      var to := Next(state, CType(c));
      if to == BD && state == HN && meta == M_ZER {
        to := CS;
      }
      if to == CB || to == BD {
        e, next := AdvanceBody(c, to, r);
      } else {
        e, next := AdvanceHead(c, to, r);
      }
      if e.kind != T_ERROR {
        AheadAgain(next);
      }
    }

    lemma AheadIs(r: Result)
      requires Ahead(r) && Bounds()
      ensures GoesOn(cfg, Abs(), Unread(), r)
    {
      assert Peek(r);
    }

    lemma AheadAgain(r: Result)
      requires Bounds() && GoesOn(cfg, Abs(), Unread(), r)
      ensures Ahead(r)
    {
      assert Peek(r);
    }

    /** Looking at the next byte changes nothing that matters. */
    method NextByte(ghost r: Result) returns (more: bool, c: char)
      requires Ahead(r) && Bounds()
      modifies `consumed
      ensures Ahead(r) && Bounds() && !consumed && (more <==> index < length) && (more ==> c == buf[index])
    {
      assert Peek(r);
      ghost var s, unread := Abs(), Unread();
      more, c := StreamNext();
      assert Abs() == s && Unread() == unread;
    }

    /** The loop of the parser: bytes are taken until a token is complete or none are left. */
    method Scan(ghost r: Result) returns (t: Token, ghost next: Result)
      requires Ahead(r) && !r.Outside? && Bounds() && !Closing(meta)
      modifies this
      ensures length <= old(length) && t.kind != T_REQ_END
      ensures t.kind != T_ERROR ==> Stays(old(length))
      ensures old(index == length) ==> t.kind == T_NONE && state == old(state) && meta == old(meta)
      ensures t.kind == T_ERROR ==> r == Halt([REJECT])
      ensures t.kind == T_NONE ==> Bounds() && Ahead(r) && index == length == old(length) && meta != M_SEN
      ensures t.kind != T_NONE && t.kind != T_ERROR ==>
        && Bounds() && Ahead(next) && Work() < old(Work()) && t.index + t.len <= |buf|
        && r == Prefix(AtomsOf(t, old(meta) == M_STR), next)
    {
      t, next := NO_TOKEN, r;
      var more, c := NextByte(r);
      while more
        invariant Ahead(r) && Bounds() && length == old(length) && t.kind == T_NONE
        invariant old(index == length) ==> !more && state == old(state) && meta == old(meta)
        invariant !consumed && (more <==> index < length) && (more ==> c == buf[index])
        invariant meta == M_STR <==> old(meta) == M_STR
        invariant Closing(meta) ==> meta == M_END && !more
        invariant Work() <= old(Work())
        decreases length - index
      {
        t, next := Advance(c, r);
        if t.kind != T_NONE {
          return;
        }
        PrefixNil(next);
        more, c := NextByte(r);
      }
    }

    /** One call of the parser.  The input is exactly what the token it returns, read from the buffer at
        this moment, and the remaining state account for. */
    method TokenParse(ghost r: Result) returns (t: Token, ghost next: Result)
      requires Ahead(r) && !r.Outside? && Bounds()
      modifies this
      ensures length <= old(length)
      ensures t.kind == T_NONE ==>
        Bounds() && length == UsedAfter(Abs(), old(length))
      ensures old(index == length && !Closing(meta)) ==>
        (t.kind == T_NONE || t.kind == T_ERROR) && (t.kind == T_NONE ==> state == old(state) && meta == old(meta))
      ensures t.kind == T_NONE ==>
        && Valid() && !Closing(meta) && Unread() == "" && r == Go(Abs(), []) && !TooLong(cfg, Abs())
      ensures t.kind == T_ERROR ==> r == Halt([REJECT]) || (r.Go? && r.out == [] && TooLong(cfg, r.s))
      ensures t.kind == T_REQ_END ==> r == Done([FINISH])
      ensures t.kind != T_NONE && t.kind != T_ERROR && t.kind != T_REQ_END ==>
        && Bounds() && Ahead(next) && Work() < old(Work()) && t.index + t.len <= |buf|
        && r == Prefix(AtomsOf(t, old(meta) == M_STR), next) && Stays(old(length))
    {
      if Closing(meta) {
        t, next := ClosingToken(r);
      } else {
        t := MetaEmitToken();
        t, next := Scan(r);
        if t.kind == T_NONE {
          t := LastToken(r);
        }
      }
    }

    /** The closing tokens are returned before any byte is looked at. */
    method ClosingToken(ghost r: Result) returns (t: Token, ghost next: Result)
      requires Ahead(r) && !r.Outside? && Bounds() && Closing(meta)
      modifies this
      ensures t == Token(0, 0, if old(meta) == M_SEN then T_CHUNK_BODY else T_REQ_END) && length == old(length)
      ensures t.kind == T_REQ_END ==> r == Done([FINISH])
      ensures t.kind == T_CHUNK_BODY ==>
        state == old(state) && Bounds() && Ahead(next) && Work() < old(Work())
            && r == Prefix([Tok(T_CHUNK_BODY, "")], next)
    {
      assert Peek(r);
      t := MetaEmitToken();
      next := Done([FINISH]);
    }

    /** The end of a parse call that ran out of bytes: an unfinished chunk is moved to the anchor, the
        end of the message is announced, and an unfinished token is measured. */
    method InputExhausted() returns (t: Token)
      requires Valid() && Unread() == "" && meta != M_SEN
      modifies this
      ensures length <= old(length)
      ensures t.kind == T_NONE ==>
        Bounds() && length == if state == CB then anchor + |Text()| else old(length)
      ensures t.kind == T_NONE ==>
        Valid() && !Closing(meta) && Unread() == "" && Abs() == old(Abs()) && !Closing(old(meta))
            && !TooLong(cfg, Abs())
      ensures t.kind == T_ERROR ==> !Closing(old(meta)) && TooLong(cfg, old(Abs()))
      ensures t.kind == T_REQ_END ==> old(meta) == M_END
      ensures t.kind == T_NONE || t.kind == T_ERROR || t.kind == T_REQ_END
    {
      if state == CB {
        StreamShift();
      }
      t := MetaEmitToken();
      if kind != T_CHUNK_BODY && kind != T_BODY && tokLen > cfg.tokenMax {
        t := t.(kind := T_ERROR);
      }
    }

    method LastToken(ghost r: Result) returns (t: Token)
      requires Ahead(r) && !r.Outside? && Bounds() && index == length && meta != M_SEN
      modifies this
      ensures length <= old(length)
      ensures t.kind == T_NONE ==>
        && state == old(state) && meta == old(meta)
        && Bounds() && length == if state == CB then anchor + |Text()| else old(length)
      ensures old(!Closing(meta)) ==> t.kind != T_REQ_END
      ensures t.kind == T_NONE ==>
        && Valid() && !Closing(meta) && Unread() == "" && r == Go(Abs(), []) && !TooLong(cfg, Abs())
      ensures t.kind == T_ERROR ==> r.Go? && r.out == [] && TooLong(cfg, r.s)
      ensures t.kind == T_REQ_END ==> r == Done([FINISH])
      ensures t.kind == T_NONE || t.kind == T_ERROR || t.kind == T_REQ_END
    {
      assert Peek(r);
      t := InputExhausted();
    }

    // ---------------------------------------------------------------- the read loop

    /** Tokens are taken until the parser asks for more input, rejects it or ends the message. */
    method ParseAll(ghost r: Result) returns (es: seq<Emitted>, end: TokenKind)
      requires Ahead(r) && !r.Outside? && Bounds()
      modifies this
      ensures length <= old(length)
      ensures end == T_NONE ==>
        Bounds() && length == UsedAfter(Abs(), old(length))
      ensures end == T_NONE ==>
        Valid() && !Closing(meta) && Unread() == "" && r == Go(Abs(), Atoms(es)) && !TooLong(cfg, Abs())
      ensures end == T_REQ_END ==> r == Done(Atoms(es))
      ensures end == T_ERROR ==>
        r == Halt(Atoms(es)) || (r.Go? && Atoms(es) == r.out + [REJECT] && TooLong(cfg, r.s))
      ensures end == T_NONE || end == T_REQ_END || end == T_ERROR
    {
      es := [];
      ghost var next := r;
      PrefixNil(r);
      while true
        invariant Ahead(next) && !next.Outside? && Bounds() && r == Prefix(Atoms(es), next) && length <= old(length)
        invariant Stays(old(length))
        decreases Work()
      {
        ghost var before, now := es, next;
        var streamed := meta == M_STR;
        var t;
        t, next := TokenParse(now);
        if t.kind == T_NONE {
          assert Atoms(es) + [] == Atoms(es);
          return es, T_NONE;
        }
        if t.kind == T_REQ_END || t.kind == T_ERROR {
          es := es + [Emitted(t.kind, "", false)];
          AtomsSnoc(before, Emitted(t.kind, "", false));
          assert now.Go? && now.out == [] ==> r.out == Atoms(before);
          return es, t.kind;
        }
        var e := Emitted(t.kind, buf[t.index..t.index + t.len], streamed);
        es := es + [e];
        AtomsSnoc(before, e);
        PrefixPrefix(Atoms(before), AtomsOfOne(e), next);
      }
    }

    /** All bytes so far are parsed and the reads to come lead to `r`; kept folded. */
    ghost predicate Awaits(pieces: seq<string>, r: Result)
      reads this
    {
      forall k: int :: Peek(k) ==> Valid() && !Closing(meta) && Unread() == "" && Session(cfg, Abs(), pieces) == r
    }

    /** The reads that will be made of what is to come, and whether the buffer is ever full when one is due; kept
        folded. */
    ghost predicate Plans(arrivals: seq<string>, made: seq<string>, room: bool)
      reads this
    {
      forall k: int :: Peek(k) ==> Valid() && Plan(cfg, Abs(), length, arrivals, made, room)
    }

    lemma PlansSkip(arrivals: seq<string>, made: seq<string>, room: bool)
      requires Plans(arrivals, made, room) && arrivals != [] && arrivals[0] == ""
      ensures Plans(arrivals[1..], made, room)
    {
      assert Peek(0);
      PlanSkips(cfg, Abs(), length, arrivals, made, room);
    }

    /** No read is made any more: everything was read, or the buffer is full. */
    lemma PlansStop(arrivals: seq<string>, made: seq<string>, room: bool, r: Result)
      requires Plans(arrivals, made, room) && Awaits(made, r)
      requires arrivals != [] ==> arrivals[0] != "" && length >= cfg.bufMax
      ensures Valid() && !Closing(meta) && Unread() == "" && r == Go(Abs(), []) && (room <==> arrivals == [])
    {
      assert Peek(0);
      PlanStops(cfg, Abs(), length, arrivals, made, room);
    }

    /** One message served from what arrives. Each read takes what has arrived, or as much of it as the buffer has
        free; `ok` tells that the buffer was never full when a read was due, which is decided by the state and by
        what arrives. The tokens, their texts taken from the buffer as they are emitted, are exactly those of the
        byte-at-a-time reading of the reads that were made. */
    method Serve(arrivals: seq<string>) returns (ok: bool, es: seq<Emitted>, end: TokenKind)
      requires Valid() && !Closing(meta) && Unread() == ""
      requires !Session(cfg, Abs(), Reads(cfg, Abs(), length, arrivals)).Outside?
      modifies this
      ensures ok <==> Room(cfg, old(Abs()), old(length), arrivals)
      ensures old(length) + |Flatten(arrivals)| <= cfg.bufMax ==> ok
      ensures Agrees(Session(cfg, old(Abs()), Reads(cfg, old(Abs()), old(length), arrivals)), es, end)
      ensures end == T_NONE ==>
        && Valid() && !Closing(meta) && Unread() == "" && length <= old(length) + |Flatten(arrivals)|
        && Session(cfg, old(Abs()), Reads(cfg, old(Abs()), old(length), arrivals)) == Go(Abs(), Atoms(es))
      ensures !ok ==> end == T_NONE && length == cfg.bufMax
    {
      ghost var made, room := Reads(cfg, Abs(), length, arrivals), Room(cfg, Abs(), length, arrivals);
      ok, es, end := ServeAll(arrivals, made, Session(cfg, Abs(), made), room);
    }

    method ServeAll(arrivals: seq<string>, ghost made: seq<string>, ghost total: Result, ghost room: bool)
        returns (ok: bool, es: seq<Emitted>, end: TokenKind)
      requires Awaits(made, total) && !total.Outside? && Plans(arrivals, made, room) && Bounds()
      modifies this
      ensures old(length) + |Flatten(arrivals)| <= cfg.bufMax ==> ok
      ensures (ok <==> room) && Agrees(total, es, end)
      ensures end == T_NONE ==>
        && Valid() && !Closing(meta) && Unread() == "" && length <= old(length) + |Flatten(arrivals)|
        && total == Go(Abs(), Atoms(es))
      ensures !ok ==> end == T_NONE && length == cfg.bufMax
    {
      ok, es, end := true, [], T_NONE;
      ghost var now, left := total, made;
      PrefixNil(total);
      var todo := arrivals;
      while todo != [] && (todo[0] == "" || length < cfg.bufMax)
        invariant end == T_NONE && Awaits(left, now) && !now.Outside? && Bounds()
        invariant total == Prefix(Atoms(es), now)
        invariant length + |Flatten(todo)| <= old(length) + |Flatten(arrivals)| && Plans(todo, left, room)
        decreases |Flatten(todo)|, |todo|
      {
        if todo[0] == "" {
          PlansSkip(todo, left, room);
          todo := todo[1..];
        } else {
          ghost var done, before := es, now;
          var n := Take(cfg, length, todo);
          var more;
          more, end, now := ServeOne(todo, n, left, before, room);
          es := es + more;
          AtomsConcat(done, more);
          if end != T_NONE {
            return;
          }
          PrefixPrefix(Atoms(done), Atoms(more), now);
          todo, left := Left(todo, n), left[1..];
        }
      }
      PlansStop(todo, left, room, now);
      ok := todo == [];
      assert Atoms(es) + [] == Atoms(es);
    }

    /** One read and the tokens it completes. */
    method ServeOne(todo: seq<string>, n: nat, ghost made: seq<string>, ghost r: Result, ghost room: bool)
        returns (es: seq<Emitted>, end: TokenKind, ghost next: Result)
      requires Plans(todo, made, room) && Awaits(made, r) && !r.Outside?
      requires todo != [] && todo[0] != "" && length < cfg.bufMax && n == Take(cfg, length, todo)
      modifies this
      ensures length <= old(length) + n
      ensures end == T_NONE ==>
        && Bounds() && made != [] && Awaits(made[1..], next) && !next.Outside? && r == Prefix(Atoms(es), next)
        && Plans(Left(todo, n), made[1..], room)
      ensures end != T_NONE ==> Agrees(r, es, end) && room
    {
      assert Peek(0);
      PlanStep(cfg, Abs(), length, todo, n, made, room);
      es, end := ReadOne(todo[0][..n]);
      next := r;
      if end == T_NONE {
        next := Session(cfg, Abs(), made[1..]);
      }
    }

    method ReadOne(piece: string) returns (es: seq<Emitted>, end: TokenKind)
      requires Valid() && !Closing(meta) && Unread() == "" && length + |piece| <= cfg.bufMax
      requires !Run(cfg, Abs(), piece).Outside?
      modifies this
      ensures length <= old(length) + |piece| && (end == T_NONE || end == T_REQ_END || end == T_ERROR)
      ensures var r := Run(cfg, old(Abs()), piece);
        && (end == T_NONE <==> r.Go? && !TooLong(cfg, r.s))
        && (end == T_REQ_END ==> r == Done(Atoms(es)))
        && (end == T_ERROR ==> r == Halt(Atoms(es)) || (r.Go? && Atoms(es) == r.out + [REJECT] && TooLong(cfg, r.s)))
      ensures end == T_NONE ==>
        && Valid() && !Closing(meta) && Unread() == "" && Run(cfg, old(Abs()), piece) == Go(Abs(), Atoms(es))
        && length == UsedAfter(Abs(), old(length) + |piece|)
    {
      ghost var r := Run(cfg, Abs(), piece);
      Feed(piece);
      es, end := ParseAll(r);
    }
  }

  /** The tokens and the way the session ended are those of a result. */
  ghost predicate Agrees(r: Result, es: seq<Emitted>, end: TokenKind) {
    !r.Outside? && r.out == Atoms(es) && end == (if r.Go? then T_NONE else if r.Done? then T_REQ_END else T_ERROR)
  }

  /** l == HeadLive(cfg, s, c, to), kept folded. */
  ghost predicate LiveIs(cfg: Config, s: Live, c: char, to: State, l: Live) {
    && Edge(s.p.state, s.p.meta, to) && l.p.state == to
    && forall x :: Peek(x) && x == l ==> Assumed(cfg, s, c, to) && x == HeadLive(cfg, s, c, to)
  }

  /** Run(cfg, s, bytes) == r, kept folded. */
  ghost predicate RunIs(cfg: Config, s: Live, bytes: string, r: Result) {
    LiveInv(s) && forall x :: Peek(x) && x == r ==> Run(cfg, s, bytes) == x
  }

  /** What the bytes lead to from a state that may be the last one. */
  ghost predicate GoesOn(cfg: Config, s: Live, bytes: string, r: Result) {
    if Closing(s.p.meta) then
      s.p.state != CN && s.kind == T_NONE && r == if bytes == "" then Done(Trailer(s.p.meta)) else Outside
    else RunIs(cfg, s, bytes, r)
  }

  lemma HeadGoesTo(cfg: Config, s: Live, to: State, bytes: string, r: Result) returns (l: Live, next: Result)
    requires RunIs(cfg, s, bytes, r) && bytes != [] && !r.Outside?
    requires to == Move(s.p.state, s.p.meta, CType(bytes[0])) && to != CB && to != BD
    ensures HeadReady(s, to) && (to == BR || Assumed(cfg, s, bytes[0], to)) && s.p.meta != M_STR
    ensures Refused(cfg, s, to) ==> r == Halt([REJECT])
    ensures !Refused(cfg, s, to) ==>
      && LiveIs(cfg, s, bytes[0], to, l) && GoesOn(cfg, l, bytes[1..], next)
      && r == Prefix(HeadAtoms(s, to, l.p.meta), next) && l.p.meta != M_SEN && (l.p.meta == M_STR ==> to == HN)
  {
    assert Peek(r);
    HeadOutcome(cfg, s, to, bytes);
    if Refused(cfg, s, to) {
      l, next := s, r;
    } else {
      l := HeadLive(cfg, s, bytes[0], to);
      next := if l.p.meta == M_END then Done([FINISH]) else Run(cfg, l, bytes[1..]);
    }
  }

  lemma BodyGoesTo(cfg: Config, s: Live, to: State, bytes: string, n: nat, r: Result) returns (next: Result)
    requires RunIs(cfg, s, bytes, r) && AtBody(s, to) && bytes != [] && !r.Outside? && s.p.meta != M_ERR
    requires 0 <= BodyLeft(s) && n == if BodyLeft(s) <= |bytes| then BodyLeft(s) else |bytes|
    ensures BodyLeft(s) > |bytes| ==>
      GoesOn(cfg, MidBody(s, to, bytes), bytes[n..], next) && r == Prefix(Streamed(s, bytes), next)
    ensures BodyLeft(s) <= |bytes| ==>
      GoesOn(cfg, AfterBody(s, to), bytes[n..], next) && r == Prefix(WholeBody(s, to, bytes[..n]), next)
  {
    assert Peek(r);
    BodyOutcome(cfg, s, to, bytes);
    if BodyLeft(s) > |bytes| {
      next := Go(MidBody(s, to, bytes), []);
      assert bytes[n..] == "";
      assert Streamed(s, bytes) + [] == Streamed(s, bytes);
    } else {
      var l := AfterBody(s, to);
      next := if Closing(l.p.meta) then Done(Trailer(l.p.meta)) else Run(cfg, l, bytes[n..]);
    }
  }

  /** p == HeadParser(cfg, s, c, to), kept folded. */
  ghost predicate ParserIs(cfg: Config, s: Live, c: char, to: State, p: Parser) {
    && Edge(s.p.state, s.p.meta, to)
    && forall x :: Peek(x) && x == p ==> Assumed(cfg, s, c, to) && x == HeadParser(cfg, s, c, to)
  }

  /** What a transition outside bodies relies on. */
  ghost predicate HeadReady(s: Live, to: State) {
    && Edge(s.p.state, s.p.meta, to) && s.kind != T_ERROR
    && (StartToken(s.p.state) == T_NONE <==> s.kind == T_NONE)
  }

  /** What a body transition relies on. */
  ghost predicate BodyReady(s: Live, to: State) {
    && AtBody(s, to) && s.p.bodyConsumed <= s.p.contentLength && s.p.meta != M_ERR
    && (s.kind == T_NONE <==> s.p.meta == M_STR || s.p.state != to) && (s.p.meta == M_STR ==> to == BD)
  }

  /** The part of a body's token that was read before. */
  ghost function Begun(s: Live, to: State): string {
    if s.p.meta == M_STR then "" else OpenText(s, to)
  }

  lemma TokenText(b: string, start: nat, i: nat, j: nat, n: nat, begun: string, bytes: string)
    requires start <= i && i + n <= j <= |b| && b[start..i] == begun && b[i..j] == bytes
    ensures b[start..i + n] == begun + bytes[..n] && b[i + n..j] == bytes[n..]
    ensures i + n == j ==> b[start..j] == begun + bytes
  {
    assert b[i..j][..n] == b[i..i + n];
    SliceJoin(b, start, i, i + n);
    assert bytes[..|bytes|] == bytes;
  }

  lemma PrefixSlice(a: string, b: string, i: nat, j: nat)
    requires i <= j <= |a| && j <= |b| && a[..j] == b[..j]
    ensures a[i..j] == b[i..j]
  {
    assert a[i..j] == a[..j][i..] && b[i..j] == b[..j][i..];
  }

  lemma SliceSnoc(b: string, i: nat, j: nat)
    requires i <= j < |b|
    ensures b[i..j + 1] == b[i..j] + [b[j]]
  {
  }

  lemma SliceJoin(b: string, i: nat, j: nat, k: nat)
    requires i <= j <= k <= |b|
    ensures b[i..j] + b[j..k] == b[i..k]
  {
  }

  /** A token as the application receives it; `streamed` tells that it is a piece of a streamed body. */
  datatype Emitted = Emitted(kind: TokenKind, text: string, streamed: bool)

  function AtomsOfOne(e: Emitted): seq<Atom> {
    if e.streamed then Parts(e.text) else [Tok(e.kind, e.text)]
  }

  function Atoms(es: seq<Emitted>): seq<Atom> {
    if es == [] then [] else AtomsOfOne(es[0]) + Atoms(es[1..])
  }

  lemma {:induction false} AtomsConcat(a: seq<Emitted>, b: seq<Emitted>)
    ensures Atoms(a + b) == Atoms(a) + Atoms(b)
    decreases |a|
  {
    if a == [] {
      assert a + b == b;
    } else {
      assert (a + b)[1..] == a[1..] + b;
      AtomsConcat(a[1..], b);
    }
  }

  lemma AtomsSnoc(es: seq<Emitted>, e: Emitted)
    ensures Atoms(es + [e]) == Atoms(es) + AtomsOfOne(e)
  {
    AtomsConcat(es, [e]);
    assert [e][1..] == [];
  }
}
