/** Lines of a MIME listing as they are written, and what the index generator reads in them. */
module MimeLines {
  import opened Folding
  import opened Characters
  import opened MimeIndex

  /** An extension with the blanks in front of it. */
  datatype Item = Item(gap: string, ext: string)

  predicate Printable(t: string) {
    t != "" && forall i :: 0 <= i < |t| ==> VisibleChar(t[i])
  }

  predicate Gap(t: string) {
    t != "" && forall i :: 0 <= i < |t| ==> t[i] == ' ' || t[i] == '\t'
  }

  predicate GoodItem(x: Item) {
    Gap(x.gap) && Printable(x.ext)
  }

  /** The end of a line: nothing, or a line feed behind a carriage return or not. */
  predicate LineEnd(t: string) {
    t == "" || t == "\n" || t == "\r\n"
  }

  function WriteItems(items: seq<Item>, end: string): string {
    if items == [] then end else items[0].gap + (items[0].ext + WriteItems(items[1..], end))
  }

  function Extensions(items: seq<Item>): seq<string> {
    if items == [] then [] else [items[0].ext] + Extensions(items[1..])
  }

  // ------------------------------------------------------------------ runs of one kind of character

  lemma {:induction false} TokenRun(l: string, p: nat, e: nat)
    requires p <= e <= |l| && (forall i :: p <= i < e ==> VisibleChar(l[i])) && (e < |l| ==> !VisibleChar(l[e]))
    ensures TokenEnd(l, p) == e
    decreases e - p
  {
    if p < e {
      TokenRun(l, p + 1, e);
    }
  }

  lemma {:induction false} GapRun(l: string, p: nat, e: nat)
    requires p <= e < |l| && (forall i :: p <= i < e ==> l[i] == ' ' || l[i] == '\t') && VisibleChar(l[e])
    ensures SpaceEnd(l, p) == e && BlankEnd(l, p) == e
    decreases e - p
  {
    if p < e {
      GapRun(l, p + 1, e);
    }
  }

  lemma {:induction false} EndRun(l: string, p: nat)
    requires p <= |l| && forall i :: p <= i < |l| ==> l[i] == '\r' || l[i] == '\n'
    ensures SpaceEnd(l, p) == |l|
    decreases |l| - p
  {
    if p < |l| {
      EndRun(l, p + 1);
    }
  }

  // ------------------------------------------------------------------ pieces of a line

  /** A piece of the line, kept folded. */
  ghost predicate Piece(l: string, p: nat, e: nat, t: string) {
    e == p + |t| && forall x: string :: Peek(x) && x == l ==> e <= |x| && x[p..e] == t
  }

  lemma PieceJoin(l: string, p: nat, m: nat, e: nat, a: string, b: string)
    requires m == p + |a|
    ensures Piece(l, p, e, a + b) <==> Piece(l, p, m, a) && Piece(l, m, e, b)
  {
    assert Peek(l);
    if e == p + |a| + |b| && e <= |l| {
      assert l[p..e] == l[p..m] + l[m..e];
      if l[p..e] == a + b {
        assert l[p..m] == (a + b)[..|a|] && l[m..e] == (a + b)[|a|..];
      }
    }
  }

  lemma PieceAt(l: string, p: nat, e: nat, t: string)
    requires Piece(l, p, e, t)
    ensures e <= |l| && l[p..e] == t && forall i :: p <= i < e ==> l[i] == t[i - p]
  {
    assert Peek(l);
    assert forall i :: p <= i < e ==> l[i] == l[p..e][i - p];
  }

  /** A printable word that is followed by no visible character is one token. */
  lemma WordEnds(l: string, p: nat, e: nat, word: string)
    requires Piece(l, p, e, word) && Printable(word) && e <= |l| && (e < |l| ==> !VisibleChar(l[e]))
    ensures p < e && TokenEnd(l, p) == e && l[p..e] == word
  {
    PieceAt(l, p, e, word);
    TokenRun(l, p, e);
  }

  lemma GapEnds(l: string, p: nat, e: nat, gap: string)
    requires Piece(l, p, e, gap) && Gap(gap) && e < |l| && VisibleChar(l[e])
    ensures p < e && SpaceEnd(l, p) == e && BlankEnd(l, p) == e && !VisibleChar(l[p])
  {
    PieceAt(l, p, e, gap);
    GapRun(l, p, e);
  }

  // ------------------------------------------------------------------ the whole line

  /** The tokens from a position on; kept folded. */
  ghost predicate TokensAre(l: string, p: nat, ts: seq<string>) {
    forall x: string :: Peek(x) && x == l ==> p <= |x| && Tokens(x, p) == ts
  }

  lemma OneToken(l: string, p: nat, e: nat, q: nat)
    requires p < e <= q <= |l| && TokenEnd(l, p) == e && SpaceEnd(l, e) == q
    ensures Tokens(l, p) == [l[p..e]] + Tokens(l, q)
  {
  }

  lemma TokensStep(l: string, p: nat, e: nat, q: nat, word: string, ts: seq<string>)
    requires p < e <= q <= |l| && TokenEnd(l, p) == e && SpaceEnd(l, e) == q && l[p..e] == word && TokensAre(l, q, ts)
    ensures TokensAre(l, p, [word] + ts)
  {
    assert Peek(l);
    OneToken(l, p, e, q);
  }

  lemma LastToken(l: string, p: nat, e: nat, word: string, end: string)
    requires Piece(l, p, e, word) && Printable(word) && Piece(l, e, |l|, end) && LineEnd(end)
    ensures TokensAre(l, p, [word])
  {
    PieceAt(l, e, |l|, end);
    WordEnds(l, p, e, word);
    EndRun(l, e);
    assert Tokens(l, |l|) == [];
    OneToken(l, p, e, |l|);
    assert [word] + [] == [word];
  }

  /** The pieces of the first item: its gap, its extension, and the rest of the line. */
  lemma ItemPieces(l: string, p: nat, items: seq<Item>, end: string, q: nat, e: nat)
    requires items != [] && Piece(l, p, |l|, WriteItems(items, end))
    requires q == p + |items[0].gap| && e == q + |items[0].ext|
    ensures Piece(l, p, q, items[0].gap) && Piece(l, q, e, items[0].ext)
    ensures Piece(l, e, |l|, WriteItems(items[1..], end))
  {
    var rest := WriteItems(items[1..], end);
    PieceJoin(l, p, q, |l|, items[0].gap, items[0].ext + rest);
    PieceJoin(l, q, e, |l|, items[0].ext, rest);
  }

  lemma GapBefore(l: string, p: nat, q: nat, e: nat, x: Item)
    requires Piece(l, p, q, x.gap) && Piece(l, q, e, x.ext) && GoodItem(x)
    ensures p < q < |l| && SpaceEnd(l, p) == q && BlankEnd(l, p) == q && !VisibleChar(l[p])
  {
    PieceAt(l, q, e, x.ext);
    GapEnds(l, p, q, x.gap);
  }

  /** The rest of a line in which items are written is read as the gap, and then as their extensions. */
  lemma {:induction false} ItemsRead(l: string, p: nat, items: seq<Item>, end: string, q: nat)
    requires items != [] && (forall i :: 0 <= i < |items| ==> GoodItem(items[i])) && LineEnd(end)
    requires Piece(l, p, |l|, WriteItems(items, end)) && q == p + |items[0].gap|
    ensures p < q < |l| && SpaceEnd(l, p) == q && BlankEnd(l, p) == q && !VisibleChar(l[p])
    ensures TokensAre(l, q, Extensions(items))
    decreases |items|
  {
    var x, more := items[0], items[1..];
    var e := q + |x.ext|;
    ItemPieces(l, p, items, end, q, e);
    GapBefore(l, p, q, e, x);
    if more == [] {
      LastToken(l, q, e, x.ext, end);
    } else {
      var r := e + |more[0].gap|;
      ItemsRead(l, e, more, end, r);
      WordEnds(l, q, e, x.ext);
      TokensStep(l, q, e, r, x.ext, Extensions(more));
    }
  }

  lemma ListingIs(l: string, ctype: string, e: nat, q: nat, ts: seq<string>)
    requires 0 < e <= q < |l| && l[0] != '#' && VisibleChar(l[0]) && TokenEnd(l, 0) == e && l[0..e] == ctype
    requires BlankEnd(l, e) == q && TokensAre(l, q, ts)
    ensures ListingOf(l) == Listing(ctype, ts)
  {
    assert Peek(l) && l[..e] == l[0..e];
  }

  /** A line that gives a type and its extensions, with blanks between them, is read as that type and these
      extensions in order. */
  lemma LineRead(ctype: string, items: seq<Item>, end: string)
    requires Printable(ctype) && ctype[0] != '#' && LineEnd(end)
    requires items != [] && forall i :: 0 <= i < |items| ==> GoodItem(items[i])
    ensures ListingOf(ctype + WriteItems(items, end)) == Listing(ctype, Extensions(items))
  {
    var rest := WriteItems(items, end);
    var l, e, q := ctype + rest, |ctype|, |ctype| + |items[0].gap|;
    assert l[0..|l|] == l;
    PieceJoin(l, 0, e, |l|, ctype, rest);
    ItemsRead(l, e, items, end, q);
    WordEnds(l, 0, e, ctype);
    PieceAt(l, 0, e, ctype);
    ListingIs(l, ctype, e, q, Extensions(items));
  }

  /** Lines that begin with a number sign, or with a blank, list nothing. */
  lemma CommentsListNothing(l: string)
    requires l == "" || l[0] == '#' || l[0] == ' ' || l[0] == '\t' || l[0] == '\r' || l[0] == '\n'
    ensures ListingOf(l) == Nothing
  {
  }
}
