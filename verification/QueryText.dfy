/** Percent-encoding by section 2.1 of RFC 3986 and the pairs of an url-encoded form: what the query parser
    makes of the text that an encoder writes. */
module QueryText {
  import opened Folding
  import opened Characters
  import opened Query

  // ------------------------------------------------------------------ escapes

  /** What strtol skips. */
  predicate SkippedBlank(c: char) {
    c == ' ' || c == '\t' || c == '\n' || c == '\r' || c as int == 11 || c as int == 12
  }

  predicate NoDigit(c: char) {
    c !in HEX_LOWER && c !in HEX_UPPER
  }

  /** Two digits, in letters of either case, write the byte of an escape in base 16. */
  lemma EscapeOfTwo(c: char, d: char, a: nat, b: nat)
    requires a < 16 && b < 16 && DigitFor(c, a, 16) && DigitFor(d, b, 16)
    ensures EscapedByte(c, d) as int == 16 * a + b
  {
    DigitForIff(c, a);
    DigitForIff(d, b);
  }

  /** A digit that is followed by none writes the byte alone; behind a blank or a plus the second digit does, and
      behind a minus its negative. */
  lemma EscapeOfOne(c: char, d: char, a: nat)
    requires a < 16
    ensures DigitFor(c, a, 16) && NoDigit(d) ==> EscapedByte(c, d) as int == a
    ensures (SkippedBlank(c) || c == '+') && DigitFor(d, a, 16) ==> EscapedByte(c, d) as int == a
    ensures c == '-' && DigitFor(d, a, 16) ==> EscapedByte(c, d) as int == if a == 0 then 0 else 256 - a
  {
    DigitForIff(c, a);
    DigitForIff(d, a);
    DigitsListed(d);
  }

  /** An escape without a digit that counts stands for 0. */
  lemma EscapeOfNone(c: char, d: char)
    requires NoDigit(c) && (NoDigit(d) || !(SkippedBlank(c) || c == '+' || c == '-'))
    ensures EscapedByte(c, d) == NUL
  {
    DigitsListed(c);
    DigitsListed(d);
  }

  // ------------------------------------------------------------------ encoded texts

  /** The two places of a text in a form. A value may hold the equals sign. */
  datatype Place = Key | Value

  /** A character that may stand for itself. */
  predicate StandsForItself(at: Place, c: char) {
    c != '%' && c != '+' && c != '&' && c != NUL && (at == Key ==> c != '=')
  }

  /** `t` encodes the bytes `d`: a byte is written as itself, as a percent sign with its two digits in either
      letter case, or, if it is a space, as a plus. */
  predicate Encodes(at: Place, t: string, d: string)
    decreases |d|
  {
    if d == "" then t == ""
    else
      || (t != "" && StandsForItself(at, t[0]) && t[0] == d[0] && Encodes(at, t[1..], d[1..]))
      || (t != "" && t[0] == '+' && d[0] == ' ' && Encodes(at, t[1..], d[1..]))
      || (|t| >= 3 && EscapeOf(t[0], t[1], t[2], d[0]) && Encodes(at, t[3..], d[1..]))
  }

  predicate EscapeOf(p: char, c: char, e: char, b: char) {
    p == '%' && b as int < 256 && DigitFor(c, b as int / 16, 16) && DigitFor(e, b as int % 16, 16)
  }

  lemma EscapeReads(p: char, c: char, e: char, b: char)
    requires EscapeOf(p, c, e, b)
    ensures EscapedByte(c, e) == b && c != NUL && c != '&' && c != '=' && e != NUL && e != '&' && e != '='
  {
    var n := b as int;
    EscapeOfTwo(c, e, n / 16, n % 16);
    DigitForIff(c, n / 16);
    DigitForIff(e, n % 16);
    assert 16 * (n / 16) + n % 16 == n;
  }

  /** Decoding undoes every encoding. */
  lemma {:induction false} DecodeEncoded(at: Place, t: string, d: string)
    requires Encodes(at, t, d)
    ensures Decode(t) == d && WellEscaped(t)
    decreases |d|
  {
    if d != "" {
      if StandsForItself(at, t[0]) || t[0] == '+' {
        DecodeEncoded(at, t[1..], d[1..]);
      } else {
        EscapeReads(t[0], t[1], t[2], d[0]);
        DecodeEncoded(at, t[3..], d[1..]);
      }
      assert d == [d[0]] + d[1..];
    }
  }

  /** No delimiter is left in an encoded text. */
  lemma {:induction false} EncodedIsPlain(at: Place, t: string, d: string, i: nat)
    requires Encodes(at, t, d) && i < |t|
    ensures t[i] != NUL && t[i] != '&' && (at == Key ==> t[i] != '=')
    decreases |d|
  {
    if StandsForItself(at, t[0]) || t[0] == '+' {
      if i > 0 {
        EncodedIsPlain(at, t[1..], d[1..], i - 1);
      }
    } else {
      EscapeReads(t[0], t[1], t[2], d[0]);
      if i >= 3 {
        EncodedIsPlain(at, t[3..], d[1..], i - 3);
      }
    }
  }

  /** An unreserved character of section 2.3 of RFC 3986. */
  predicate Unreserved(c: char) {
    Letter(c) || '0' <= c <= '9' || c == '-' || c == '.' || c == '_' || c == '~'
  }

  predicate Bytes(d: string) {
    forall i :: 0 <= i < |d| ==> d[i] as int < 256
  }

  /** The encoder that escapes all but the unreserved characters. */
  function Encode(d: string): string
    requires Bytes(d)
  {
    if d == "" then ""
    else if Unreserved(d[0]) then [d[0]] + Encode(d[1..])
    else ['%', HEX_UPPER[d[0] as int / 16], HEX_UPPER[d[0] as int % 16]] + Encode(d[1..])
  }

  /** Every byte string has an encoding that is read back. */
  lemma {:induction false} EncodeRoundTrip(at: Place, d: string)
    requires Bytes(d)
    ensures Encodes(at, Encode(d), d) && Decode(Encode(d)) == d
    decreases |d|
  {
    var t := Encode(d);
    if d != "" {
      EncodeRoundTrip(at, d[1..]);
      if Unreserved(d[0]) {
        assert t[1..] == Encode(d[1..]);
      } else {
        assert t[3..] == Encode(d[1..]);
      }
    }
    DecodeEncoded(at, t, d);
  }

  // ------------------------------------------------------------------ encoded pairs

  function PairText(t: (string, string)): string {
    t.0 + "=" + t.1
  }

  /** Pairs joined by ampersands. */
  function QueryOf(ts: seq<(string, string)>): string {
    if ts == [] then ""
    else if |ts| == 1 then PairText(ts[0])
    else PairText(ts[0]) + "&" + QueryOf(ts[1..])
  }

  predicate EncodesPair(t: (string, string), p: (string, string)) {
    Encodes(Key, t.0, p.0) && Encodes(Value, t.1, p.1)
  }

  /** The texts encode the pairs. */
  predicate EncodesAll(ts: seq<(string, string)>, ps: seq<(string, string)>) {
    |ts| == |ps| && forall i :: 0 <= i < |ts| ==> EncodesPair(ts[i], ps[i])
  }

  predicate WithoutNul(ps: seq<(string, string)>) {
    forall i :: 0 <= i < |ps| ==> NUL !in ps[i].0 && NUL !in ps[i].1
  }

  /** What is left of a pair whose texts are read up to their first NUL. */
  function UpToNul(p: (string, string)): (string, string) {
    (CString(p.0), CString(p.1))
  }

  lemma FindIs(t: string, c: char, i: nat)
    requires i <= |t| && (i < |t| ==> t[i] == c) && forall k :: 0 <= k < i ==> t[k] != c
    ensures Find(t, c) == i
  {
  }

  lemma CStringIff(t: string)
    ensures CString(t) == t <==> NUL !in t
  {
    if NUL !in t {
      FindIs(t, NUL, |t|);
    }
  }

  lemma PairPlaces(t: (string, string), p: (string, string))
    requires EncodesPair(t, p)
    ensures Find(PairText(t), '=') == |t.0| && '&' !in PairText(t) && NUL !in PairText(t)
  {
    var s := PairText(t);
    forall i | 0 <= i < |s|
      ensures s[i] != '&' && s[i] != NUL && (i < |t.0| ==> s[i] != '=')
    {
      if i < |t.0| {
        EncodedIsPlain(Key, t.0, p.0, i);
      } else if i > |t.0| {
        EncodedIsPlain(Value, t.1, p.1, i - |t.0| - 1);
      }
    }
    FindIs(s, '=', |t.0|);
  }

  lemma PairReads(t: (string, string), p: (string, string))
    requires EncodesPair(t, p)
    ensures PairOf(PairText(t)) == UpToNul(p) && GoodSegment(PairText(t))
  {
    var s := PairText(t);
    PairPlaces(t, p);
    assert s[..|t.0|] == t.0 && s[|t.0| + 1..] == t.1;
    DecodeEncoded(Key, t.0, p.0);
    DecodeEncoded(Value, t.1, p.1);
  }

  /** The query reads as these pairs, with complete escapes; kept folded. */
  ghost predicate Reads(q: string, ps: seq<(string, string)>) {
    forall x :: Peek(x) && x == q ==> PairsOf(x) == ps && GoodQuery(x) && NUL !in x
  }

  /** A segment that reads as a pair; kept folded. */
  ghost predicate ReadsOne(s: string, p: (string, string)) {
    forall x :: Peek(x) && x == s ==> x != "" && PairOf(x) == p && GoodSegment(x) && '&' !in x && NUL !in x
  }

  /** EncodesPair(t, p) of a pair that is read as r; kept folded. */
  ghost predicate Coded(t: (string, string), p: (string, string), r: (string, string)) {
    forall x :: Peek(x) && x == t ==> EncodesPair(x, p) && r == UpToNul(p)
  }

  lemma OnePair(t: (string, string), p: (string, string), r: (string, string))
    requires Coded(t, p, r)
    ensures ReadsOne(PairText(t), r)
  {
    assert Peek(t);
    PairPlaces(t, p);
    PairReads(t, p);
  }

  lemma ReadsNone()
    ensures Reads("", [])
  {
    FindIs("", '&', 0);
    FindIs("", '=', 0);
  }

  lemma ReadsLast(s: string, p: (string, string))
    requires ReadsOne(s, p)
    ensures Reads(s, [p])
  {
    assert Peek(s);
    FindIs(s, '&', |s|);
    assert s[..|s|] == s;
  }

  lemma ReadsMore(s: string, p: (string, string), rest: string, ps: seq<(string, string)>)
    requires ReadsOne(s, p) && Reads(rest, ps)
    ensures Reads(s + "&" + rest, [p] + ps)
  {
    var q := s + "&" + rest;
    assert Peek(s) && Peek(rest);
    FindIs(q, '&', |s|);
    assert q[..|s|] == s && q[|s| + 1..] == rest;
  }

  /** One more pair in front. */
  lemma FirstPair(ts: seq<(string, string)>, rs: seq<(string, string)>)
    requires |ts| == |rs| > 0 && ReadsOne(PairText(ts[0]), rs[0])
    requires |ts| > 1 ==> Reads(QueryOf(ts[1..]), rs[1..])
    ensures Reads(QueryOf(ts), rs)
  {
    if |ts| == 1 {
      ReadsLast(PairText(ts[0]), rs[0]);
      assert rs == [rs[0]];
    } else {
      ReadsMore(PairText(ts[0]), rs[0], QueryOf(ts[1..]), rs[1..]);
      assert rs == [rs[0]] + rs[1..];
    }
  }

  lemma {:induction false} AllPairs(
    ts: seq<(string, string)>, ps: seq<(string, string)>, rs: seq<(string, string)>)
    requires |ts| == |ps| == |rs| && forall i :: 0 <= i < |ts| ==> Coded(ts[i], ps[i], rs[i])
    ensures Reads(QueryOf(ts), rs)
    decreases |ts|
  {
    if ts == [] {
      ReadsNone();
    } else {
      OnePair(ts[0], ps[0], rs[0]);
      if |ts| > 1 {
        AllPairs(ts[1..], ps[1..], rs[1..]);
      }
      FirstPair(ts, rs);
    }
  }

  /** The pairs of a form as they are read: each key and value up to its first NUL. */
  function AllUpToNul(ps: seq<(string, string)>): (rs: seq<(string, string)>)
    ensures |rs| == |ps|
  {
    seq(|ps|, i requires 0 <= i < |ps| => UpToNul(ps[i]))
  }

  lemma UpToNulIff(ps: seq<(string, string)>)
    ensures AllUpToNul(ps) == ps <==> WithoutNul(ps)
  {
    var rs := AllUpToNul(ps);
    forall i | 0 <= i < |ps|
      ensures rs[i] == ps[i] <==> NUL !in ps[i].0 && NUL !in ps[i].1
    {
      CStringIff(ps[i].0);
      CStringIff(ps[i].1);
    }
    if WithoutNul(ps) {
      assert rs == ps;
    }
  }

  /** A form is read back: for every list of pairs and every encoding of their keys and values, the pairs of the
      query are the pairs, in order, each text up to its first NUL, and no escape is cut. The pairs are all there if
      and only if none of them holds a NUL. */
  lemma QueryRoundTrip(ts: seq<(string, string)>, ps: seq<(string, string)>)
    requires EncodesAll(ts, ps)
    ensures PairsOf(QueryOf(ts)) == AllUpToNul(ps) && GoodQuery(QueryOf(ts)) && NUL !in QueryOf(ts)
    ensures PairsOf(QueryOf(ts)) == ps <==> WithoutNul(ps)
  {
    AllPairs(ts, ps, AllUpToNul(ps));
    assert Peek(QueryOf(ts));
    UpToNulIff(ps);
  }

  /** The in-place parser keeps, of an encoded form that is followed by NUL and anything, slots that read as its
      pairs. */
  lemma FormRoundTrip(ts: seq<(string, string)>, ps: seq<(string, string)>, behind: string)
    requires EncodesAll(ts, ps) && WithoutNul(ps)
    ensures var q := QueryOf(ts);
      var r := Walk(q + [NUL] + behind, |q|, 0, 0, -1, []);
      r.Parsed? && ReadsAs(r.m, r.slots, ps)
  {
    QueryRoundTrip(ts, ps);
    ParseRefinesMeaning(QueryOf(ts), behind);
  }
}
