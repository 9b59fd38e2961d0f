/** The MIME index generator: lines that list a type and its extensions, an index of hash buckets built from
    them, and the generated lookup. */
module MimeIndex {
  import opened Options

  const BUCKETS: nat := 1024
  const TWO32: nat := 0x1_0000_0000

  // ------------------------------------------------------------------ lines

  /** Printable and not blank. Characters are signed: those above 127 are negative. */
  predicate IsToken(c: char) {
    32 < c as int < 127
  }

  predicate IsBlank(c: char) {
    c == ' ' || c == '\t'
  }

  predicate IsSpace(c: char) {
    c == ' ' || c == '\t' || c == '\n' || c == '\r'
  }

  predicate Ignored(c: char) {
    c == '#' || c as int <= 32 || c as int > 127
  }

  function TokenEnd(l: string, p: nat): (e: nat)
    requires p <= |l|
    ensures p <= e <= |l| && (forall i :: p <= i < e ==> IsToken(l[i])) && (e < |l| ==> !IsToken(l[e]))
    decreases |l| - p
  {
    if p < |l| && IsToken(l[p]) then TokenEnd(l, p + 1) else p
  }

  function BlankEnd(l: string, p: nat): (e: nat)
    requires p <= |l|
    ensures p <= e <= |l|
    decreases |l| - p
  {
    if p < |l| && IsBlank(l[p]) then BlankEnd(l, p + 1) else p
  }

  function SpaceEnd(l: string, p: nat): (e: nat)
    requires p <= |l|
    ensures p <= e <= |l|
    decreases |l| - p
  {
    if p < |l| && IsSpace(l[p]) then SpaceEnd(l, p + 1) else p
  }

  /** The tokens from a position on, up to something that is neither a token nor white space. */
  function Tokens(l: string, p: nat): seq<string>
    requires p <= |l|
    decreases |l| - p
  {
    var e := TokenEnd(l, p);
    if e == p then [] else [l[p..e]] + Tokens(l, SpaceEnd(l, e))
  }

  datatype Listing = Nothing | Listing(ctype: string, exts: seq<string>)

  function ListingOf(l: string): Listing {
    if l == "" || Ignored(l[0]) then Nothing
    else
      var e := TokenEnd(l, 0);
      var p := BlankEnd(l, e);
      if p == |l| then Nothing else Listing(l[..e], Tokens(l, p))
  }

  /** A linear scan: the type of the first line that lists the extension. */
  function FirstListing(lines: seq<string>, ext: string): Option<string> {
    if lines == [] then None
    else
      var l := ListingOf(lines[0]);
      if l.Listing? && ext in l.exts then Some(l.ctype) else FirstListing(lines[1..], ext)
  }

  // ------------------------------------------------------------------ the hash

  function HashFrom(h: nat, s: string): (r: nat)
    requires h < TWO32
    ensures r < TWO32
    decreases |s|
  {
    if s == "" then h else HashFrom((33 * h + s[0] as int % 256) % TWO32, s[1..])
  }

  function BucketOf(s: string): (b: nat)
    ensures b < BUCKETS
  {
    HashFrom(5381, s) % BUCKETS
  }

  /** In 32 bits, shifting left by five and adding multiplies by 33. */
  lemma ShiftAndAdd(h: nat, c: nat)
    ensures (h * 32 % TWO32 + h + c) % TWO32 == (33 * h + c) % TWO32
  {
    assert h * 32 == h * 32 / TWO32 * TWO32 + h * 32 % TWO32;
    SameResidue(h * 32 % TWO32 + h + c, h * 32 / TWO32);
  }

  lemma SameResidue(x: nat, k: nat)
    ensures (x + k * TWO32) % TWO32 == x % TWO32
  {
  }

  /** Shift and add, modulo 2^32, over the characters. */
  method Hash(s: string) returns (h: nat)
    ensures h == HashFrom(5381, s)
  {
    h := 5381;
    var i := 0;
    while i < |s|
      invariant i <= |s| && h < TWO32 && HashFrom(5381, s) == HashFrom(h, s[i..])
    {
      assert s[i..][1..] == s[i + 1..];
      ShiftAndAdd(h, s[i] as int % 256);
      h := (h * 32 % TWO32 + h + s[i] as int % 256) % TWO32;
      i := i + 1;
    }
  }

  // ------------------------------------------------------------------ the index

  datatype Entry = Entry(name: string, ctype: string)

  function Search(chain: seq<Entry>, name: string): Option<string> {
    if chain == [] then None
    else if chain[0].name == name then Some(chain[0].ctype)
    else Search(chain[1..], name)
  }

  predicate Distinct(chain: seq<Entry>) {
    forall i, j :: 0 <= i < j < |chain| ==> chain[i].name != chain[j].name
  }

  lemma {:induction false} SearchNone(chain: seq<Entry>, name: string)
    ensures Search(chain, name).None? <==> forall i :: 0 <= i < |chain| ==> chain[i].name != name
    decreases |chain|
  {
    if chain != [] {
      SearchNone(chain[1..], name);
      if Search(chain, name).None? {
        forall i | 0 <= i < |chain|
          ensures chain[i].name != name
        {
          if i > 0 {
            assert chain[1..][i - 1] == chain[i];
          }
        }
      }
    }
  }

  lemma {:induction false} SearchSnoc(chain: seq<Entry>, e: Entry, name: string)
    ensures Search(chain + [e], name) ==
      if Search(chain, name).Some? then Search(chain, name) else if e.name == name then Some(e.ctype) else None
    decreases |chain|
  {
    if chain == [] {
      assert chain + [e] == [e];
    } else {
      assert (chain + [e])[1..] == chain[1..] + [e];
      SearchSnoc(chain[1..], e, name);
    }
  }

  class Index {
    const buckets: array<seq<Entry>>

    /** Every entry is in the bucket of its name, and no name is in a chain twice. */
    ghost predicate Valid()
      reads this, buckets
    {
      && buckets.Length == BUCKETS
      && forall b :: 0 <= b < BUCKETS ==>
           Distinct(buckets[b]) && forall i :: 0 <= i < |buckets[b]| ==> BucketOf(buckets[b][i].name) == b
    }

    ghost function Known(name: string): Option<string>
      requires Valid()
      reads this, buckets
    {
      Search(buckets[BucketOf(name)], name)
    }

    constructor ()
      ensures Valid() && fresh(buckets) && forall x :: Known(x) == None
    {
      buckets := new seq<Entry>[BUCKETS](_ => []);
    }

    /** Walks a chain to its end and appends, unless the name is there already. */
    method Insert(name: string, ctype: string)
      requires Valid()
      modifies buckets
      ensures Valid()
      ensures forall x :: Known(x) == if x == name && old(Known(x)).None? then Some(ctype) else old(Known(x))
    {
      var h := Hash(name);
      var b := h % BUCKETS;
      var chain := buckets[b];
      var i := 0;
      while i < |chain| && chain[i].name != name
        invariant i <= |chain| && forall k :: 0 <= k < i ==> chain[k].name != name
      {
        i := i + 1;
      }
      SearchNone(chain, name);
      if i == |chain| {
        forall x { SearchSnoc(chain, Entry(name, ctype), x); }
        buckets[b] := chain + [Entry(name, ctype)];
      }
    }

    /** The first type that lists an extension keeps it. */
    method AddLine(l: string)
      requires Valid()
      modifies buckets
      ensures Valid()
      ensures var listing := ListingOf(l); forall x ::
        Known(x) ==
          if old(Known(x)).None? && listing.Listing? && x in listing.exts then Some(listing.ctype) else old(Known(x))
    {
      if l == "" || Ignored(l[0]) {
        return;
      }
      var p1 := SkipToken(l, 0);
      var p2 := SkipBlanks(l, p1);
      if p2 == |l| {
        return;
      }
      var ctype := l[..p1];
      ghost var exts := Tokens(l, p2);
      ghost var seen: seq<string> := [];
      p1 := p2;
      while p2 < |l|
        invariant p1 == p2 <= |l| && Valid() && exts == seen + Tokens(l, p2)
        invariant forall x :: Known(x) == if old(Known(x)).None? && x in seen then Some(ctype) else old(Known(x))
        decreases |l| - p2
      {
        p2 := SkipToken(l, p2);
        if p2 == p1 {
          break;
        }
        Insert(l[p1..p2], ctype);
        seen := seen + [l[p1..p2]];
        p2 := SkipSpace(l, p2);
        p1 := p2;
      }
    }

    /** The generated lookup: the chain of the bucket, compared in order. */
    method MimetypeFind(ext: string) returns (r: Option<string>)
      requires Valid()
      ensures r == Known(ext)
    {
      var h := Hash(ext);
      var chain := buckets[h % BUCKETS];
      var i := 0;
      while i < |chain|
        invariant i <= |chain| && Search(chain, ext) == Search(chain[i..], ext)
      {
        if chain[i].name == ext {
          return Some(chain[i].ctype);
        }
        assert chain[i..][1..] == chain[i + 1..];
        i := i + 1;
      }
      return None;
    }
  }

  method SkipToken(l: string, p: nat) returns (e: nat)
    requires p <= |l|
    ensures e == TokenEnd(l, p)
  {
    e := p;
    while e < |l| && IsToken(l[e])
      invariant p <= e <= |l| && TokenEnd(l, p) == TokenEnd(l, e)
    {
      e := e + 1;
    }
  }

  method SkipBlanks(l: string, p: nat) returns (e: nat)
    requires p <= |l|
    ensures e == BlankEnd(l, p)
  {
    e := p;
    while e < |l| && IsBlank(l[e])
      invariant p <= e <= |l| && BlankEnd(l, p) == BlankEnd(l, e)
    {
      e := e + 1;
    }
  }

  method SkipSpace(l: string, p: nat) returns (e: nat)
    requires p <= |l|
    ensures e == SpaceEnd(l, p)
  {
    e := p;
    while e < |l| && IsSpace(l[e])
      invariant p <= e <= |l| && SpaceEnd(l, p) == SpaceEnd(l, e)
    {
      e := e + 1;
    }
  }

  lemma {:induction false} FirstListingSnoc(lines: seq<string>, l: string, ext: string)
    ensures FirstListing(lines + [l], ext) ==
      if FirstListing(lines, ext).Some? then FirstListing(lines, ext) else FirstListing([l], ext)
    decreases |lines|
  {
    if lines == [] {
      assert lines + [l] == [l];
    } else {
      assert (lines + [l])[1..] == lines[1..] + [l];
      FirstListingSnoc(lines[1..], l, ext);
    }
  }

  lemma FirstListingOne(l: string, ext: string)
    ensures FirstListing([l], ext) ==
      var listing := ListingOf(l); if listing.Listing? && ext in listing.exts then Some(listing.ctype) else None
  {
    assert [l][1..] == [];
  }

  /** Generate and look up: for every input of lines and every extension the lookup agrees with a linear scan. */
  method LookUp(lines: seq<string>, ext: string) returns (r: Option<string>)
    ensures r == FirstListing(lines, ext)
  {
    var index := new Index();
    for i := 0 to |lines|
      invariant index.Valid() && fresh(index) && fresh(index.buckets)
      invariant forall x :: index.Known(x) == FirstListing(lines[..i], x)
    {
      assert lines[..i + 1] == lines[..i] + [lines[i]];
      index.AddLine(lines[i]);
      forall x
        ensures index.Known(x) == FirstListing(lines[..i + 1], x)
      {
        FirstListingSnoc(lines[..i], lines[i], x);
        FirstListingOne(lines[i], x);
      }
    }
    assert lines[..|lines|] == lines;
    r := index.MimetypeFind(ext);
  }
}
