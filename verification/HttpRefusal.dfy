/** What the tokeniser refuses: a byte out of place, a request line that section 3 of RFC 9112 does not
    allow, and one header too many. */
module HttpRefusal {
  import opened HttpTables
  import opened Characters
  import opened TokenSpec
  import opened HttpMessage

  /** Behind whatever has been read so far, a byte that is not allowed in its place ends the session with an
      ERROR token, and nothing that follows it matters. */
  lemma ByteOutOfPlace(cfg: Config, a: string, l: Live, o: seq<Atom>, c: char, rest: string)
    requires Leads(cfg, FRESH, a, l, o) && l.p.state != BR && !Allowed(l.p.state, c)
    ensures Run(cfg, FRESH, a + ([c] + rest)) == Halt(o + [REJECT])
  {
    LeadsIs(cfg, FRESH, a, l, o);
    RefusesOthers(l.p.state, c);
    Refuses(cfg, l, c, rest);
    Behind(cfg, a, l, o, [c] + rest);
  }

  lemma Refuses(cfg: Config, l: Live, c: char, rest: string)
    requires LiveInv(l) && Move(l.p.state, l.p.meta, CType(c)) == BR
    ensures Run(cfg, l, [c] + rest) == Halt([REJECT])
  {
    assert ([c] + rest)[1..] == rest && Step(cfg, l, c) == Halt([REJECT]);
  }

  /** The first byte of a header line beyond the configured number. */
  lemma OneHeaderTooMany(cfg: Config, a: string, l: Live, o: seq<Atom>, c: char, rest: string)
    requires Leads(cfg, FRESH, a, l, o) && (l.p.state == RN || l.p.state == HE) && NameChar(c)
    requires l.p.headerCount == cfg.maxHeaders < INT16_MAX && l.p.matchIndex == 0
    ensures Run(cfg, FRESH, a + ([c] + rest)) == Halt(o + [REJECT])
  {
    LeadsIs(cfg, FRESH, a, l, o);
    TooMany(cfg, l, c, rest);
    Behind(cfg, a, l, o, [c] + rest);
  }

  lemma TooMany(cfg: Config, l: Live, c: char, rest: string)
    requires LiveInv(l) && (l.p.state == RN || l.p.state == HE) && NameChar(c)
    requires l.p.headerCount == cfg.maxHeaders < INT16_MAX && l.p.matchIndex == 0
    ensures Run(cfg, l, [c] + rest) == Halt([REJECT])
  {
    ClassesAreSets(c);
    assert ([c] + rest)[1..] == rest && Move(l.p.state, l.p.meta, CType(c)) == HK;
    assert Step(cfg, l, c) == Halt([REJECT]);
  }

  // ------------------------------------------------------------------ the request line

  predicate Cuts(from: State, st: State, c: char) {
    || (from == ST && st == MT && c == ' ')
    || (from == MS && st == TR && c == ' ')
    || (from == TS && st == VN && c == '\r')
  }

  /** The text keeps the state of its part, after a first byte that opens it. */
  predicate Stays(from: State, st: State, text: string)
    requires from != BR && st != BR
  {
    text != "" && Next(from, CType(text[0])) == st && forall i :: 0 <= i < |text| ==> Next(st, CType(text[i])) == st
  }

  lemma {:induction false} LeavesPart(cfg: Config, from: State, st: State, l: Live, text: string, c: char, rest: string)
    requires Cuts(from, st, c) && LiveInv(l) && l.p.state == st && l.p.matchIndex == l.p.headerCount == 0
    requires c !in text && exists i :: 0 <= i < |text| && Next(st, CType(text[i])) != st
    ensures Run(cfg, l, text + ([c] + rest)) == Halt([REJECT])
    decreases |text|
  {
    var all, tail := text + ([c] + rest), text[1..];
    assert text[0] in text && all[0] == text[0] && all[1..] == tail + ([c] + rest);
    if Next(st, CType(text[0])) == st {
      PlainStep(cfg, l, text[0]);
      var i :| 0 <= i < |text| && Next(st, CType(text[i])) != st;
      assert tail[i - 1] == text[i] && forall x :: x in tail ==> x in text;
      LeavesPart(cfg, from, st, l.(text := l.text + [text[0]], pos := l.pos + 1), tail, c, rest);
    } else {
      assert all == [text[0]] + all[1..];
      Refuses(cfg, l, text[0], all[1..]);
    }
  }

  lemma OpensPart(cfg: Config, from: State, st: State, pos: nat, x: char, c: char, rest: string)
    requires Cuts(from, st, c) && Next(from, CType(x)) == st
    ensures LiveInv(InLine(st, [x], pos + 1))
    ensures Run(cfg, InLine(from, "", pos), [x] + rest) == Run(cfg, InLine(st, [x], pos + 1), rest)
  {
    var s, l := InLine(from, "", pos), InLine(st, [x], pos + 1);
    LineToken(cfg, from, st, pos, [x]);
    LeadsIs(cfg, s, [x], l, []);
    RunGo(cfg, s, [x], rest);
    PrefixNil(Run(cfg, l, rest));
  }

  lemma BadPart(cfg: Config, from: State, st: State, pos: nat, text: string, c: char, rest: string)
    requires Cuts(from, st, c) && c !in text && !Stays(from, st, text)
    ensures Run(cfg, InLine(from, "", pos), text + ([c] + rest)) == Halt([REJECT])
  {
    var s, all, tail := InLine(from, "", pos), text + ([c] + rest), if text == "" then "" else text[1..];
    if text == "" {
      assert all == [c] + rest;
      Refuses(cfg, s, c, rest);
    } else if Next(from, CType(text[0])) != st {
      assert all == [text[0]] + all[1..];
      Refuses(cfg, s, text[0], all[1..]);
    } else {
      assert text[0] in text && all == [text[0]] + (tail + ([c] + rest));
      OpensPart(cfg, from, st, pos, text[0], c, tail + ([c] + rest));
      var i :| 0 <= i < |text| && Next(st, CType(text[i])) != st;
      assert tail[i - 1] == text[i] && forall x :: x in tail ==> x in text;
      LeavesPart(cfg, from, st, InLine(st, [text[0]], pos + 1), tail, c, rest);
    }
  }

  lemma StaysIff(m: string, t: string, v: string)
    requires ' ' !in m && ' ' !in t && '\r' !in v
    ensures Stays(ST, MT, m) <==> GoodMethod(m)
    ensures Stays(MS, TR, t) <==> GoodTarget(t)
    ensures Stays(TS, VN, v) <==> GoodVersion(v)
  {
    forall c: char
      ensures Next(MT, CType(c)) == MT <==> NameChar(c)
      ensures Next(TR, CType(c)) == TR <==> VisibleChar(c)
      ensures Next(VN, CType(c)) == VN <==> VisibleChar(c) && c != ':' && c != ';'
    {
      ClassesAreSets(c);
    }
    if m != "" { ClassesAreSets(m[0]); }
    if t != "" { ClassesAreSets(t[0]); }
    if v != "" { ClassesAreSets(v[0]); }
  }

  lemma BadLine(cfg: Config, m: string, t: string, v: string)
    requires ' ' !in m && ' ' !in t && '\r' !in v
    requires !(Stays(ST, MT, m) && Stays(MS, TR, t) && Stays(TS, VN, v))
    ensures Run(cfg, FRESH, RequestLine(m, t, v)).Halt?
  {
    var line, i, j := RequestLine(m, t, v), |m| + 1, |m| + 1 + |t| + 1;
    if !Stays(ST, MT, m) {
      assert line == m + ([' '] + (t + " " + (v + "\r") + "\n"));
      BadPart(cfg, ST, MT, 0, m, ' ', t + " " + (v + "\r") + "\n");
    } else if !Stays(MS, TR, t) {
      assert line == (m + " ") + (t + ([' '] + (v + "\r" + "\n")));
      LinePart(cfg, ST, MT, MS, 0, m, ' ');
      BadPart(cfg, MS, TR, i, t, ' ', v + "\r" + "\n");
      Behind(cfg, m + " ", InLine(MS, "", i), [Tok(T_METHOD, m)], t + ([' '] + (v + "\r" + "\n")));
    } else {
      assert line == (m + " ") + (t + " ") + (v + (['\r'] + "\n"));
      LinePart(cfg, ST, MT, MS, 0, m, ' ');
      LinePart(cfg, MS, TR, TS, i, t, ' ');
      LeadsSeq(cfg, FRESH, m + " ", InLine(MS, "", i), [Tok(T_METHOD, m)], t + " ", InLine(TS, "", j),
          [Tok(T_TARGET, t)]);
      BadPart(cfg, TS, VN, j, v, '\r', "\n");
      Behind(cfg, (m + " ") + (t + " "), InLine(TS, "", j), [Tok(T_METHOD, m)] + [Tok(T_TARGET, t)],
          v + (['\r'] + "\n"));
    }
  }

  lemma Behind(cfg: Config, a: string, l: Live, o: seq<Atom>, b: string)
    requires Leads(cfg, FRESH, a, l, o) && LiveInv(l) && Run(cfg, l, b) == Halt([REJECT])
    ensures Run(cfg, FRESH, a + b) == Halt(o + [REJECT])
  {
    LeadsIs(cfg, FRESH, a, l, o);
    RunGo(cfg, FRESH, a, b);
  }

  /** A request line, cut at its spaces and its line end, is read if and only if its method is made of name
      characters and does not begin with a digit, its target of visible characters, and its version of
      visible characters other than colon and semicolon; otherwise it is refused with an ERROR token. */
  lemma RequestLineIff(cfg: Config, m: string, t: string, v: string)
    requires ' ' !in m && ' ' !in t && '\r' !in v
    ensures Run(cfg, FRESH, RequestLine(m, t, v)).Go? <==> GoodMethod(m) && GoodTarget(t) && GoodVersion(v)
    ensures Run(cfg, FRESH, RequestLine(m, t, v)).Go? || Run(cfg, FRESH, RequestLine(m, t, v)).Halt?
  {
    StaysIff(m, t, v);
    if GoodMethod(m) && GoodTarget(t) && GoodVersion(v) {
      RequestLineTokens(cfg, m, t, v);
      LeadsIs(cfg, FRESH, RequestLine(m, t, v), Between(RN, NoBody, 0, |RequestLine(m, t, v)|),
              [Tok(T_METHOD, m), Tok(T_TARGET, t), Tok(T_VERSION, v)]);
    } else {
      BadLine(cfg, m, t, v);
    }
  }
}
