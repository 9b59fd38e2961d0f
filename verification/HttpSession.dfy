/** A request served from its first read to its last token. */
module HttpSession {
  import opened HttpTables
  import opened TokenSpec
  import opened ReadRoom
  import opened HttpMessage
  import opened HttpRequest
  import opened RequestRoom
  import opened HttpTokenizer

  /** A fresh connection to which a well-formed request arrives in any pieces gets through with it if and only if,
      by the layout of the request, no read before its end leaves the buffer full. It then hands out exactly the
      tokens of the request: the texts, taken from the shared buffer at each emission, are those of the request
      line, the headers, the body or its chunks; a streamed body is handed out in pieces that concatenate to it.
      Otherwise it hands out the first of them. The body may be longer than the buffer. */
  method ServeRequest(cfg: Config, ghost r: Request, arrivals: seq<string>) returns (ok: bool, es: seq<Emitted>)
    requires WellFormed(cfg, r) && ShortHead(cfg, r) && Flatten(arrivals) == Encode(r)
    ensures ok <==> Fits(cfg, r, 0, 0, arrivals)
    ensures |Encode(r)| <= cfg.bufMax ==> ok
    ensures if ok then Atoms(es) == Tokens(cfg, r) else Atoms(es) <= Tokens(cfg, r)
  {
    var t := new Tokenizer(cfg);
    ReadsOfRequest(cfg, r, arrivals, Reads(cfg, FRESH, 0, arrivals));
    RoomIffFits(cfg, r, arrivals);
    var end;
    ok, es, end := t.Serve(arrivals);
  }

  /** The reads made of a request give its tokens, or the first of them. */
  lemma ReadsOfRequest(cfg: Config, r: Request, arrivals: seq<string>, made: seq<string>)
    requires Sound(cfg, r) && Flatten(arrivals) == Encode(r) && made == Reads(cfg, FRESH, 0, arrivals)
    ensures var t := Session(cfg, FRESH, made);
      && !t.Outside? && t.out <= Tokens(cfg, r)
      && (Room(cfg, FRESH, 0, arrivals) ==> t == Done(Tokens(cfg, r)))
  {
    ReadsBytes(cfg, FRESH, 0, arrivals);
    SessionOfBeginning(cfg, r, made);
  }

  lemma SessionOfBeginning(cfg: Config, r: Request, made: seq<string>)
    requires Sound(cfg, r) && Flatten(made) <= Encode(r)
    ensures var t := Session(cfg, FRESH, made);
      && !t.Outside? && t.out <= Tokens(cfg, r)
      && (Flatten(made) == Encode(r) ==> t == Done(Tokens(cfg, r)))
  {
    SoundFits(cfg, r);
    if |Flatten(made)| < |Encode(r)| {
      BeginningGives(cfg, r, Flatten(made));
    }
    SessionOfPart(cfg, made, Encode(r), Tokens(cfg, r));
  }

  lemma SessionOfPart(cfg: Config, made: seq<string>, input: string, out: seq<Atom>)
    requires TokensFit(cfg, FRESH, input) && Run(cfg, FRESH, input) == Done(out) && Flatten(made) <= input
    requires |Flatten(made)| < |input| ==> Run(cfg, FRESH, Flatten(made)).Go?
    ensures var t := Session(cfg, FRESH, made);
      !t.Outside? && t.out <= out && (Flatten(made) == input ==> t == Done(out))
  {
    var a := Flatten(made);
    FitShorter(cfg, a, input);
    FittingReadsAgree(cfg, FRESH, made);
    if |a| < |input| {
      FirstTokens(cfg, a, input[|a|..], input, out);
    } else {
      assert a == input;
    }
  }

  lemma FirstTokens(cfg: Config, a: string, b: string, input: string, out: seq<Atom>)
    requires Run(cfg, FRESH, a).Go? && input == a + b && Run(cfg, FRESH, input) == Done(out)
    ensures Run(cfg, FRESH, a).out <= out
  {
    RunGo(cfg, FRESH, a, b);
  }

  lemma FitShorter(cfg: Config, a: string, input: string)
    requires a <= input && TokensFit(cfg, FRESH, input)
    ensures TokensFit(cfg, FRESH, a)
  {
    forall n | 0 <= n <= |a|
      ensures a[..n] == input[..n]
    {
    }
  }

  /** A body that is kept whole: however the request arrives, it gets through if and only if it fits into the
      buffer. */
  method ServeWhole(cfg: Config, ghost r: Request, arrivals: seq<string>) returns (ok: bool, es: seq<Emitted>)
    requires WellFormed(cfg, r) && ShortHead(cfg, r) && Flatten(arrivals) == Encode(r) && Whole(cfg, r)
    ensures ok <==> |Encode(r)| <= cfg.bufMax
    ensures ok ==> Atoms(es) == Tokens(cfg, r)
  {
    KeptFitsIff(cfg, r, 0, arrivals);
    ok, es := ServeRequest(cfg, r, arrivals);
  }

  /** A streamed body of any length: however the request arrives, it gets through if and only if the buffer has a
      byte more than the head and its blank line. */
  method ServeStreamed(cfg: Config, ghost r: Request, arrivals: seq<string>) returns (ok: bool, es: seq<Emitted>)
    requires WellFormed(cfg, r) && ShortHead(cfg, r) && Flatten(arrivals) == Encode(r)
    requires r.body.Plain? && !Whole(cfg, r)
    ensures ok <==> BodyStart(r) < cfg.bufMax
    ensures ok ==> Atoms(es) == Tokens(cfg, r)
  {
    StreamedFitsIff(cfg, r, arrivals);
    ok, es := ServeRequest(cfg, r, arrivals);
  }
}
