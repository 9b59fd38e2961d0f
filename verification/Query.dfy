/** Query strings and url-encoded forms: splitting and decoding in place, inside one NUL-terminated buffer. */
module Query {
  import opened Folding
  import T = HttpTables

  const NUL := '\0'

  // ------------------------------------------------------------------ bytes of an escape

  predicate IsBlank(c: char) {
    c == ' ' || 9 <= c as int <= 13
  }

  /** strtol of one character, base 16. */
  function Number1(c: char): (n: int)
    ensures 0 <= n < 16
  {
    if T.IsHex(c) then T.HexVal(c) else 0
  }

  /** strtol of two characters, base 16: blanks are skipped, a sign counts, and the digits stop at the first
      character that is none. */
  function Number2(c: char, d: char): (n: int)
    ensures -16 < n < 256
  {
    if IsBlank(c) then Number1(d)
    else if c == '+' then Number1(d)
    else if c == '-' then -Number1(d)
    else if !T.IsHex(c) then 0
    else if T.IsHex(d) then 16 * T.HexVal(c) + T.HexVal(d)
    else T.HexVal(c)
  }

  function EscapedByte(c: char, d: char): char {
    (Number2(c, d) % 256) as char
  }

  // ------------------------------------------------------------------ the simple meaning

  /** Every percent sign is followed by two more characters of the text. */
  predicate WellEscaped(t: string) {
    if t == "" then true
    else if t[0] == '%' then |t| >= 3 && WellEscaped(t[3..])
    else WellEscaped(t[1..])
  }

  function Decode(t: string): (d: string)
    ensures |d| <= |t|
  {
    if t == "" then ""
    else if t[0] == '%' then (if |t| < 3 then "" else [EscapedByte(t[1], t[2])] + Decode(t[3..]))
    else [if t[0] == '+' then ' ' else t[0]] + Decode(t[1..])
  }

  function FindFrom(t: string, c: char, from: nat): (i: nat)
    requires from <= |t|
    ensures from <= i <= |t| && (i < |t| ==> t[i] == c) && forall k :: from <= k < i ==> t[k] != c
    decreases |t| - from
  {
    if from == |t| || t[from] == c then from else FindFrom(t, c, from + 1)
  }

  /** The first position of a character, or the length of the text. */
  function Find(t: string, c: char): (i: nat)
    ensures i <= |t| && (i < |t| ==> t[i] == c) && forall k :: 0 <= k < i ==> t[k] != c
  {
    FindFrom(t, c, 0)
  }

  /** The text up to its first NUL, which an escape can bring in. */
  function CString(t: string): string {
    t[..Find(t, NUL)]
  }

  function PairOf(segment: string): (string, string) {
    var i := Find(segment, '=');
    (CString(Decode(segment[..i])), if i == |segment| then "" else CString(Decode(segment[i + 1..])))
  }

  /** The pairs of a query: its segments between ampersands, but not a last one that is empty. */
  function PairsOf(q: string): seq<(string, string)>
    decreases |q|
  {
    var e := Find(q, '&');
    if e < |q| then [PairOf(q[..e])] + PairsOf(q[e + 1..])
    else if q == "" then [] else [PairOf(q)]
  }

  predicate GoodSegment(segment: string) {
    var i := Find(segment, '=');
    WellEscaped(segment[..i]) && (i < |segment| ==> WellEscaped(segment[i + 1..]))
  }

  predicate GoodQuery(q: string)
    decreases |q|
  {
    var e := Find(q, '&');
    GoodSegment(q[..e]) && (e < |q| ==> GoodQuery(q[e + 1..]))
  }

  // ------------------------------------------------------------------ decoding in place

  datatype Memory = Outside | Inside(m: string)

  /** The decoding loop over memory: it reads at rp, writes at wp and stops at a NUL. Outside means that it
      ran off the end of the buffer. */
  function Decoded(m: string, rp: nat, wp: nat): (r: Memory)
    requires wp <= rp
    ensures r.Inside? ==> |r.m| == |m|
    decreases |m| - rp
  {
    if rp >= |m| then Outside
    else if m[rp] == NUL then Inside(m[wp := NUL])
    else if m[rp] == '%' then
      (if rp + 2 >= |m| then Outside else Decoded(m[wp := EscapedByte(m[rp + 1], m[rp + 2])], rp + 3, wp + 1))
    else Decoded(m[wp := if m[rp] == '+' then ' ' else m[rp]], rp + 1, wp + 1)
  }

  /** Where the reading of the decoding loop ends: at the position of a NUL, or outside. */
  function ReadEnd(m: string, rp: nat): int
    decreases |m| - rp
  {
    if rp >= |m| then -1
    else if m[rp] == NUL then rp
    else if m[rp] == '%' then (if rp + 2 >= |m| then -1 else ReadEnd(m, rp + 3))
    else ReadEnd(m, rp + 1)
  }

  /** Decoding a text in the buffer stays within that text if and only if it is well escaped. */
  lemma {:induction false} StaysWithinText(m: string, rp: nat, e: nat)
    requires rp <= e < |m| && m[e] == NUL && NUL !in m[rp..e]
    ensures ReadEnd(m, rp) == e <==> WellEscaped(m[rp..e])
    ensures ReadEnd(m, rp) == -1 || ReadEnd(m, rp) >= e
    decreases e - rp
  {
    if rp < e {
      var t := m[rp..e];
      assert t[0] == m[rp];
      if m[rp] == '%' {
        if rp + 3 <= e {
          assert t[3..] == m[rp + 3..e];
          StaysWithinText(m, rp + 3, e);
        } else if rp + 2 < |m| {
          ReadsOn(m, rp + 3);
        }
      } else {
        assert t[1..] == m[rp + 1..e];
        StaysWithinText(m, rp + 1, e);
      }
    }
  }

  lemma {:induction false} ReadsOn(m: string, rp: nat)
    ensures ReadEnd(m, rp) == -1 || ReadEnd(m, rp) >= rp
    decreases |m| - rp
  {
    if rp < |m| && m[rp] != NUL {
      ReadsOn(m, if m[rp] == '%' then rp + 3 else rp + 1);
    }
  }

  /** The loop reads ahead of where it writes, so that what it reads is the old content. */
  lemma {:induction false} SameReadEnd(m: string, m': string, rp: nat)
    requires |m'| == |m| && forall i :: rp <= i < |m| ==> m'[i] == m[i]
    ensures ReadEnd(m', rp) == ReadEnd(m, rp)
    decreases |m| - rp
  {
    if rp < |m| && m[rp] != NUL {
      SameReadEnd(m, m', if m[rp] == '%' then rp + 3 else rp + 1);
    }
  }

  /** Decoding runs off the buffer if and only if its reading does. */
  lemma {:induction false} DecodedReads(m: string, rp: nat, wp: nat)
    requires wp <= rp
    ensures Decoded(m, rp, wp).Outside? <==> ReadEnd(m, rp) == -1
    decreases |m| - rp
  {
    if rp < |m| && m[rp] != NUL && (m[rp] == '%' ==> rp + 2 < |m|) {
      var k := if m[rp] == '%' then 3 else 1;
      var b := if m[rp] == '%' then EscapedByte(m[rp + 1], m[rp + 2]) else if m[rp] == '+' then ' ' else m[rp];
      SameReadEnd(m, m[wp := b], rp + k);
      DecodedReads(m[wp := b], rp + k, wp + 1);
    }
  }

  /** `end` is where the loop stops reading, or -1 when it runs off the buffer. */
  method UrlDecodeInPlace(a: array<char>, s: nat) returns (ok: bool, ghost end: int)
    modifies a
    ensures end == ReadEnd(old(a[..]), s) && (ok <==> end != -1)
    ensures ok <==> Decoded(old(a[..]), s, s).Inside?
    ensures ok ==> a[..] == Decoded(old(a[..]), s, s).m
  {
    DecodedReads(a[..], s, s);
    var rp, wp := s, s;
    while rp < a.Length && a[rp] != NUL
      invariant s <= wp <= rp
      invariant Decoded(old(a[..]), s, s) == Decoded(a[..], rp, wp)
      invariant ReadEnd(old(a[..]), s) == ReadEnd(a[..], rp)
      decreases a.Length - rp
    {
      ghost var m := a[..];
      if a[rp] == '%' {
        if rp + 2 >= a.Length {
          return false, -1;
        }
        rp := rp + 1;
        var c := a[rp];
        rp := rp + 1;
        a[wp] := EscapedByte(c, a[rp]);
      } else if a[rp] == '+' {
        a[wp] := ' ';
      } else {
        a[wp] := a[rp];
      }
      assert a[..] == m[wp := a[wp]];
      rp := rp + 1;
      SameReadEnd(m, a[..], rp);
      wp := wp + 1;
    }
    if rp >= a.Length {
      return false, -1;
    }
    ghost var m := a[..];
    a[wp] := NUL;
    assert a[..] == m[wp := NUL];
    return true, rp;
  }

  /** The buffer with a text and a NUL put at a position. */
  function Put(m: string, wp: nat, d: string): (r: string)
    requires wp + |d| < |m|
    ensures |r| == |m|
  {
    m[..wp] + d + [NUL] + m[wp + |d| + 1..]
  }

  lemma PutStep(m: string, wp: nat, b: char, d: string)
    requires wp + 1 + |d| < |m|
    ensures Put(m[wp := b], wp + 1, d) == Put(m, wp, [b] + d)
  {
  }

  /** The first item of a well-escaped text. */
  lemma FirstItem(m: string, rp: nat, e: nat, b: char, k: nat)
    requires rp < e < |m| && WellEscaped(m[rp..e])
    requires k == if m[rp] == '%' then 3 else 1
    requires m[rp] == '%' ==> rp + 2 < |m| && b == EscapedByte(m[rp + 1], m[rp + 2])
    requires m[rp] != '%' ==> b == if m[rp] == '+' then ' ' else m[rp]
    ensures rp + k <= e && WellEscaped(m[rp + k..e]) && Decode(m[rp..e]) == [b] + Decode(m[rp + k..e])
  {
    var t := m[rp..e];
    assert t[0] == m[rp];
    assert m[rp] == '%' ==> |t| >= 3 && t[1] == m[rp + 1] && t[2] == m[rp + 2];
    assert t[k..] == m[rp + k..e];
  }

  lemma SameBehind(m: string, wp: nat, b: char, p: nat, e: nat)
    requires wp < p <= e <= |m|
    ensures m[wp := b][p..e] == m[p..e]
  {
  }

  lemma LoopStep(m: string, rp: nat, wp: nat, b: char, k: nat)
    requires wp <= rp < |m| && m[rp] != NUL && k == (if m[rp] == '%' then 3 else 1)
    requires m[rp] == '%' ==> rp + 2 < |m| && b == EscapedByte(m[rp + 1], m[rp + 2])
    requires m[rp] != '%' ==> b == if m[rp] == '+' then ' ' else m[rp]
    ensures Decoded(m, rp, wp) == Decoded(m[wp := b], rp + k, wp + 1)
  {
  }

  lemma LoopStops(m: string, rp: nat, wp: nat)
    requires wp <= rp < |m| && m[rp] == NUL
    ensures Decoded(m, rp, wp) == Inside(Put(m, wp, ""))
  {
    assert Put(m, wp, "") == m[wp := NUL];
  }

  lemma EscapeFits(m: string, rp: nat, e: nat)
    requires rp < e <= |m| && m[rp] == '%' && WellEscaped(m[rp..e])
    ensures rp + 2 < e
  {
    assert m[rp..e][0] == '%';
  }

  /** Within a well-escaped text, the loop leaves the decoded text and a NUL; no byte behind is touched. */
  lemma {:induction false} DecodedText(m: string, rp: nat, wp: nat, e: nat, d: string)
    requires wp <= rp <= e < |m| && m[e] == NUL && (forall i :: rp <= i < e ==> m[i] != NUL) && WellEscaped(m[rp..e])
    requires d == Decode(m[rp..e])
    ensures |d| <= e - rp && Decoded(m, rp, wp) == Inside(Put(m, wp, d))
    decreases e - rp
  {
    if rp < e {
      if m[rp] == '%' {
        EscapeFits(m, rp, e);
      }
      var k := if m[rp] == '%' then 3 else 1;
      var b := if m[rp] == '%' then EscapedByte(m[rp + 1], m[rp + 2]) else if m[rp] == '+' then ' ' else m[rp];
      FirstItem(m, rp, e, b, k);
      var rest := Decode(m[rp + k..e]);
      LoopStep(m, rp, wp, b, k);
      var m' := m[wp := b];
      SameBehind(m, wp, b, rp + k, e);
      DecodedText(m', rp + k, wp + 1, e, rest);
      PutStep(m, wp, b, rest);
    } else {
      LoopStops(m, rp, wp);
    }
  }

  // ------------------------------------------------------------------ splitting in place

  /** A pair as it is kept: where its key and value start in the buffer, and their lengths. */
  datatype Slot = Slot(key: nat, keyLen: nat, val: nat, valLen: nat)

  datatype Stored = Lost | Stored(m: string, slot: Slot)

  function StrLen(m: string, p: nat): nat
    requires p <= |m|
  {
    Find(m[p..], NUL)
  }

  /** Decodes a key, and a value if there is one, and measures them. */
  function Store(m: string, key: nat, val: int): (r: Stored)
    requires key <= |m| && val <= |m|
    ensures r.Stored? ==> |r.m| == |m|
  {
    var k := Decoded(m, key, key);
    if k.Outside? then Lost
    else if val < 0 then Stored(k.m, Slot(key, StrLen(k.m, key), 0, 0))
    else
      var v := Decoded(k.m, val, val);
      if v.Outside? then Lost else Stored(v.m, Slot(key, StrLen(v.m, key), val, StrLen(v.m, val)))
  }

  datatype Parsed = RanOut | Parsed(m: string, slots: seq<Slot>)

  /** The splitting loop over memory; val is negative until an equals sign was seen. */
  function Walk(m: string, len: nat, p: nat, key: nat, val: int, slots: seq<Slot>): (r: Parsed)
    requires key <= p <= len < |m| && val <= p
    decreases len - p
  {
    if p == len then
      if val < 0 && m[key] == NUL then Parsed(m, slots)
      else
        var r := Store(m, key, val);
        if r.Lost? then RanOut else Parsed(r.m, slots + [r.slot])
    else if val < 0 && m[p] == '=' then Walk(m[p := NUL], len, p + 1, key, p + 1, slots)
    else if m[p] == '&' then
      var r := Store(m[p := NUL], key, val);
      if r.Lost? then RanOut else Walk(r.m, len, p + 1, p + 1, -1, slots + [r.slot])
    else Walk(m, len, p + 1, key, val, slots)
  }

  /** Each decoding reads to the end of its own text: of the key, which ends at the equals sign or with the
      segment, and of the value, which ends with the segment. */
  predicate TidyStore(m: string, key: nat, val: int, end: nat)
    requires key <= |m| && val <= |m|
  {
    if val < 0 then ReadEnd(m, key) == end
    else ReadEnd(m, key) == val - 1 && Decoded(m, key, key).Inside? && ReadEnd(Decoded(m, key, key).m, val) == end
  }

  /** Every decoding of the splitting loop reads to the end of its own text. */
  predicate Tidy(m: string, len: nat, p: nat, key: nat, val: int)
    requires key <= p <= len < |m| && val <= p
    decreases len - p
  {
    if p == len then (val < 0 && m[key] == NUL) || TidyStore(m, key, val, len)
    else if val < 0 && m[p] == '=' then Tidy(m[p := NUL], len, p + 1, key, p + 1)
    else if m[p] == '&' then
      var m' := m[p := NUL];
      TidyStore(m', key, val, p) && Store(m', key, val).Stored? && Tidy(Store(m', key, val).m, len, p + 1, p + 1, -1)
    else Tidy(m, len, p + 1, key, val)
  }

  method StoreInPlace(a: array<char>, key: nat, val: int, ghost end: nat)
      returns (ok: bool, slot: Slot, ghost tidy: bool)
    requires key <= a.Length && val <= a.Length
    modifies a
    ensures ok <==> Store(old(a[..]), key, val).Stored?
    ensures ok ==> Store(old(a[..]), key, val) == Stored(a[..], slot)
    ensures tidy <==> TidyStore(old(a[..]), key, val, end)
  {
    slot := Slot(key, 0, 0, 0);
    ghost var at;
    ok, at := UrlDecodeInPlace(a, key);
    tidy := ok && at == if val < 0 then end else val - 1;
    if ok && val >= 0 {
      ok, at := UrlDecodeInPlace(a, val);
      tidy := tidy && at == end;
    }
    if ok {
      slot := if val < 0 then Slot(key, StrLen(a[..], key), 0, 0)
          else Slot(key, StrLen(a[..], key), val, StrLen(a[..], val));
    }
  }

  // ------------------------------------------------------------------ what the parser finds

  predicate InRange(slot: Slot, from: nat, end: nat) {
    && from <= slot.key && slot.key + slot.keyLen <= end
    && (slot.valLen > 0 ==> from <= slot.val && slot.val + slot.valLen <= end)
  }

  function TextOf(m: string, p: nat, n: nat): string
    requires n > 0 ==> p + n <= |m|
  {
    if n == 0 then "" else m[p..p + n]
  }

  /** What a kept pair reads as. */
  function Read(m: string, slot: Slot): (string, string)
    requires InRange(slot, 0, |m|)
  {
    (TextOf(m, slot.key, slot.keyLen), TextOf(m, slot.val, slot.valLen))
  }

  /** Kept pairs read as the given ones, one by one. */
  predicate ReadsAs(m: string, slots: seq<Slot>, pairs: seq<(string, string)>) {
    |slots| == |pairs| && forall i :: 0 <= i < |slots| ==> InRange(slots[i], 0, |m|) && Read(m, slots[i]) == pairs[i]
  }

  /** Outside of a stretch two buffers are the same. */
  predicate SameOutside(m: string, m': string, from: nat, end: nat)
    requires from <= end <= |m|
  {
    |m'| == |m| && m'[..from] == m[..from] && m'[end..] == m[end..]
  }

  lemma FindPrefix(t: string, rest: string)
    ensures Find(t + [NUL] + rest, NUL) == Find(t, NUL)
  {
    var s, i := t + [NUL] + rest, Find(t, NUL);
    assert s[i] == NUL;
    assert forall k :: 0 <= k < i ==> s[k] == t[k];
  }

  lemma PutTail(m: string, p: nat, d: string)
    requires p + |d| < |m|
    ensures Put(m, p, d)[p..] == d + [NUL] + m[p + |d| + 1..]
  {
    var r, rest := Put(m, p, d), m[p + |d| + 1..];
    assert r == m[..p] + (d + [NUL] + rest);
  }

  lemma PrefixText(r: string, p: nat, d: string, rest: string, n: nat)
    requires p <= |r| && r[p..] == d + rest && n <= |d|
    ensures p + n <= |r| && r[p..p + n] == d[..n]
  {
    assert |r| == p + |d| + |rest|;
    assert r[p..p + n] == r[p..][..n];
    assert (d + rest)[..n] == d[..n];
  }

  /** A text that was put in place reads as a C string. */
  lemma PutReads(m: string, p: nat, d: string)
    requires p + |d| < |m|
    ensures StrLen(Put(m, p, d), p) == Find(d, NUL) <= |d|
    ensures TextOf(Put(m, p, d), p, Find(d, NUL)) == CString(d)
  {
    var r, rest := Put(m, p, d), m[p + |d| + 1..];
    PutTail(m, p, d);
    FindPrefix(d, rest);
    assert d + [NUL] + rest == d + ([NUL] + rest);
    PrefixText(r, p, d, [NUL] + rest, Find(d, NUL));
  }

  lemma PutOutside(m: string, p: nat, d: string, end: nat)
    requires p + |d| < end <= |m|
    ensures SameOutside(m, Put(m, p, d), p, end)
  {
    var r := Put(m, p, d);
    assert r[..p] == m[..p];
    assert r[end..] == m[end..];
  }

  /** A text of the query in the buffer: well escaped, ended by a NUL and without one inside. */
  predicate TextIn(m: string, s: nat, e: nat) {
    s <= e < |m| && m[e] == NUL && (forall i :: s <= i < e ==> m[i] != NUL) && WellEscaped(m[s..e])
  }

  /** One decoding: the text reads as its meaning, and nothing outside of it has changed. */
  lemma DecodeStage(m: string, s: nat, e: nat) returns (m': string)
    requires TextIn(m, s, e)
    ensures Decoded(m, s, s) == Inside(m') && SameOutside(m, m', s, e + 1)
    ensures s + StrLen(m', s) <= e && TextOf(m', s, StrLen(m', s)) == CString(Decode(m[s..e]))
  {
    var d := Decode(m[s..e]);
    DecodedText(m, s, s, e, d);
    m' := Put(m, s, d);
    PutReads(m, s, d);
    PutOutside(m, s, d, e + 1);
  }

  lemma StoreKey(m: string, key: nat, e: nat) returns (m': string, slot: Slot)
    requires TextIn(m, key, e)
    ensures Store(m, key, -1) == Stored(m', slot) && SameOutside(m, m', key, e + 1)
    ensures InRange(slot, key, e) && slot.key == key && slot.valLen == 0
    ensures TextOf(m', key, slot.keyLen) == CString(Decode(m[key..e]))
  {
    m' := DecodeStage(m, key, e);
    slot := Slot(key, StrLen(m', key), 0, 0);
  }

  lemma SameTextIn(m: string, m': string, end: nat, s: nat, e: nat)
    requires end <= s && TextIn(m, s, e) && |m'| == |m| && m'[end..] == m[end..]
    ensures TextIn(m', s, e) && m'[s..e] == m[s..e]
  {
    forall i | end <= i < |m|
      ensures m'[i] == m[i]
    {
      assert m'[end..][i - end] == m[end..][i - end];
    }
    assert m'[s..e] == m[s..e];
  }

  lemma SameText(m: string, m': string, s: nat, p: nat, n: nat)
    requires p + n <= s <= |m| && |m'| == |m| && m'[..s] == m[..s]
    ensures TextOf(m', p, n) == TextOf(m, p, n)
  {
    if n > 0 {
      assert m'[p..p + n] == m'[..s][p..p + n] == m[..s][p..p + n] == m[p..p + n];
    }
  }

  /** A NUL inside the unchanged part keeps the length of a text. */
  lemma SameLen(m: string, m': string, s: nat, p: nat)
    requires p <= |m| && p + StrLen(m, p) < s <= |m| && |m'| == |m| && m'[..s] == m[..s]
    ensures StrLen(m', p) == StrLen(m, p)
  {
    var n := StrLen(m, p);
    assert m[p..][n] == NUL;
    assert forall i :: 0 <= i <= n ==> m'[p..][i] == m[p..][i] by {
      forall i | 0 <= i <= n
        ensures m'[p..][i] == m[p..][i]
      {
        assert m'[..s][p + i] == m[..s][p + i];
      }
    }
  }

  lemma StoreBoth(m: string, key: nat, v: nat, e: nat) returns (m': string, slot: Slot)
    requires 0 < v && TextIn(m, key, v - 1) && TextIn(m, v, e)
    ensures Store(m, key, v) == Stored(m', slot) && SameOutside(m, m', key, e + 1)
    ensures InRange(slot, key, e) && slot.key == key && slot.val == v
    ensures TextOf(m', key, slot.keyLen) == CString(Decode(m[key..v - 1]))
    ensures TextOf(m', v, slot.valLen) == CString(Decode(m[v..e]))
  {
    var m1 := DecodeStage(m, key, v - 1);
    SameTextIn(m, m1, v, v, e);
    m' := DecodeStage(m1, v, e);
    SameLen(m1, m', v, key);
    SameText(m1, m', v, key, StrLen(m1, key));
    SameTwice(m, m1, m', key, v, e + 1);
    slot := Slot(key, StrLen(m', key), v, StrLen(m', v));
  }

  lemma SameTwice(m: string, m1: string, m2: string, from: nat, mid: nat, end: nat)
    requires from <= mid <= end <= |m| && SameOutside(m, m1, from, mid) && SameOutside(m1, m2, mid, end)
    ensures SameOutside(m, m2, from, end)
  {
    assert m2[..from] == m2[..mid][..from] == m1[..mid][..from] == m1[..from];
    assert m1[end..] == m1[mid..][end - mid..] == m[mid..][end - mid..] == m[end..];
  }

  // Scanning.

  lemma {:induction false} ScanKey(m: string, len: nat, p: nat, e: nat, key: nat, slots: seq<Slot>)
    requires key <= p <= e <= len < |m| && forall i :: p <= i < e ==> m[i] != '=' && m[i] != '&'
    ensures Walk(m, len, p, key, -1, slots) == Walk(m, len, e, key, -1, slots)
    decreases e - p
  {
    if p < e {
      ScanKey(m, len, p + 1, e, key, slots);
    }
  }

  lemma {:induction false} ScanVal(m: string, len: nat, p: nat, e: nat, key: nat, val: nat, slots: seq<Slot>)
    requires key <= p <= e <= len < |m| && val <= p && forall i :: p <= i < e ==> m[i] != '&'
    ensures Walk(m, len, p, key, val, slots) == Walk(m, len, e, key, val, slots)
    decreases e - p
  {
    if p < e {
      ScanVal(m, len, p + 1, e, key, val, slots);
    }
  }

  /** Where the splitting loop stands when it has stored the segment that ends at e. */
  function Rest(m: string, len: nat, e: nat, slots: seq<Slot>): Parsed
    requires e <= len < |m|
  {
    if e < len then Walk(m, len, e + 1, e + 1, -1, slots) else Parsed(m, slots)
  }

  /** The segment between two separators, with the second one, or the end of the query, already a NUL. */
  predicate SegmentIn(m: string, len: nat, key: nat, e: nat) {
    && key <= e <= len < |m| && (e < len ==> m[e] == '&') && (e == len ==> m[e] == NUL)
    && (forall i :: key <= i < e ==> m[i] != NUL && m[i] != '&') && GoodSegment(m[key..e])
  }

  /** What a stored segment looks like. */
  predicate Holds(m: string, m': string, key: nat, e: nat, slot: Slot)
    requires key <= e < |m|
  {
    && SameOutside(m, m', key, e + 1) && InRange(slot, key, e) && Read(m', slot) == PairOf(m[key..e])
  }

  lemma FindInSegment(m: string, key: nat, e: nat, c: char)
    requires key <= e <= |m|
    ensures var i := key + Find(m[key..e], c); i <= e && (i < e ==> m[i] == c) && forall k :: key <= k < i ==> m[k] != c
  {
    var t := m[key..e];
    forall k | key <= k < key + Find(t, c)
      ensures m[k] != c
    {
      assert t[k - key] == m[k];
    }
  }

  /** Overwriting separators with NUL keeps the texts between them. */
  lemma Cut(m: string, p: nat, s: nat, e: nat)
    requires s <= e < |m| && p < |m| && (p < s || e <= p) && (forall i :: s <= i < e ==> m[i] != NUL)
    requires WellEscaped(m[s..e]) && (p == e || m[e] == NUL)
    ensures TextIn(m[p := NUL], s, e) && m[p := NUL][s..e] == m[s..e]
  {
    assert m[p := NUL][s..e] == m[s..e];
  }

  lemma CutOutside(m: string, p: nat, m': string, from: nat, end: nat)
    requires from <= p < end <= |m| && SameOutside(m[p := NUL], m', from, end)
    ensures SameOutside(m, m', from, end)
  {
    assert m[p := NUL][..from] == m[..from] && m[p := NUL][end..] == m[end..];
  }

  lemma BareSegment(m: string, len: nat, key: nat, e: nat, slots: seq<Slot>) returns (m': string, slot: Slot)
    requires SegmentIn(m, len, key, e) && Find(m[key..e], '=') == e - key && (key < e || e < len)
    ensures Holds(m, m', key, e, slot) && Walk(m, len, key, key, -1, slots) == Rest(m', len, e, slots + [slot])
  {
    FindInSegment(m, key, e, '=');
    ScanKey(m, len, key, e, key, slots);
    assert m[key..e][..e - key] == m[key..e];
    Cut(m, e, key, e);
    m', slot := StoreKey(m[e := NUL], key, e);
    CutOutside(m, e, m', key, e + 1);
    assert e == len ==> m[e := NUL] == m;
  }

  /** The key and the value of a segment with an equals sign, after both separators were overwritten. */
  lemma CutTwice(m: string, key: nat, eq: nat, e: nat)
    requires key <= eq < e < |m| && (forall i :: key <= i < e ==> m[i] != NUL)
    requires WellEscaped(m[key..eq]) && WellEscaped(m[eq + 1..e])
    ensures var m2 := m[eq := NUL][e := NUL];
      && TextIn(m2, key, eq) && m2[key..eq] == m[key..eq] && TextIn(m2, eq + 1, e) && m2[eq + 1..e] == m[eq + 1..e]
  {
    var m1 := m[eq := NUL];
    Cut(m, eq, key, eq);
    Cut(m1, e, key, eq);
    assert m1[eq + 1..e] == m[eq + 1..e];
    Cut(m1, e, eq + 1, e);
  }

  lemma ScanPair(m: string, len: nat, key: nat, eq: nat, e: nat, slots: seq<Slot>)
    requires key <= eq < e <= len < |m| && m[eq] == '=' && (e < len ==> m[e] == '&') && (e == len ==> m[e] == NUL)
    requires forall i :: key <= i < e ==> m[i] != '&' && (i < eq ==> m[i] != '=')
    ensures var r := Store(m[eq := NUL][e := NUL], key, eq + 1);
      Walk(m, len, key, key, -1, slots) == if r.Lost? then RanOut else Rest(r.m, len, e, slots + [r.slot])
  {
    ScanKey(m, len, key, eq, key, slots);
    var m1 := m[eq := NUL];
    ScanVal(m1, len, eq + 1, e, key, eq + 1, slots);
    assert e == len ==> m1[e := NUL] == m1;
  }

  lemma PairHolds(m: string, m': string, key: nat, eq: nat, e: nat, slot: Slot)
    requires key <= eq < e < |m| && Find(m[key..e], '=') == eq - key && SameOutside(m, m', key, e + 1)
    requires InRange(slot, key, e) && slot.key == key && slot.val == eq + 1
    requires TextOf(m', key, slot.keyLen) == CString(Decode(m[key..eq]))
    requires TextOf(m', eq + 1, slot.valLen) == CString(Decode(m[eq + 1..e]))
    ensures Holds(m, m', key, e, slot)
  {
    var seg := m[key..e];
    assert seg[..eq - key] == m[key..eq] && seg[eq - key + 1..] == m[eq + 1..e];
  }

  lemma PairInSegment(m: string, len: nat, key: nat, e: nat, eq: nat)
    requires SegmentIn(m, len, key, e) && eq == key + Find(m[key..e], '=') < e
    ensures m[eq] == '=' && WellEscaped(m[key..eq]) && WellEscaped(m[eq + 1..e])
    ensures forall i :: key <= i < e ==> m[i] != NUL && m[i] != '&' && (i < eq ==> m[i] != '=')
  {
    var seg := m[key..e];
    FindInSegment(m, key, e, '=');
    assert seg[..eq - key] == m[key..eq] && seg[eq - key + 1..] == m[eq + 1..e];
  }

  lemma PairTexts(m: string, len: nat, key: nat, e: nat, eq: nat, m2: string)
    requires SegmentIn(m, len, key, e) && eq == key + Find(m[key..e], '=') < e && m2 == m[eq := NUL][e := NUL]
    ensures TextIn(m2, key, eq) && m2[key..eq] == m[key..eq] && TextIn(m2, eq + 1, e) && m2[eq + 1..e] == m[eq + 1..e]
  {
    PairInSegment(m, len, key, e, eq);
    CutTwice(m, key, eq, e);
  }

  lemma PairKept(m: string, m2: string, m': string, key: nat, eq: nat, e: nat, slot: Slot)
    requires key <= eq < e < |m| && m2 == m[eq := NUL][e := NUL] && Find(m[key..e], '=') == eq - key
    requires SameOutside(m2, m', key, e + 1) && InRange(slot, key, e) && slot.key == key && slot.val == eq + 1
    requires TextOf(m', key, slot.keyLen) == CString(Decode(m[key..eq]))
    requires TextOf(m', eq + 1, slot.valLen) == CString(Decode(m[eq + 1..e]))
    ensures Holds(m, m', key, e, slot)
  {
    CutBoth(m, m', key, eq, e);
    PairHolds(m, m', key, eq, e, slot);
  }

  lemma PairStored(m: string, len: nat, key: nat, e: nat, eq: nat, m2: string) returns (m': string, slot: Slot)
    requires SegmentIn(m, len, key, e) && eq == key + Find(m[key..e], '=') < e && m2 == m[eq := NUL][e := NUL]
    ensures Store(m2, key, eq + 1) == Stored(m', slot) && Holds(m, m', key, e, slot)
  {
    PairTexts(m, len, key, e, eq, m2);
    m', slot := StoreBoth(m2, key, eq + 1, e);
    PairKept(m, m2, m', key, eq, e, slot);
  }

  lemma PairScanned(m: string, len: nat, key: nat, e: nat, eq: nat, slots: seq<Slot>)
    requires SegmentIn(m, len, key, e) && eq == key + Find(m[key..e], '=') < e
    ensures var r := Store(m[eq := NUL][e := NUL], key, eq + 1);
      Walk(m, len, key, key, -1, slots) == if r.Lost? then RanOut else Rest(r.m, len, e, slots + [r.slot])
  {
    PairInSegment(m, len, key, e, eq);
    ScanPair(m, len, key, eq, e, slots);
  }

  lemma ValueSegment(m: string, len: nat, key: nat, e: nat, slots: seq<Slot>) returns (m': string, slot: Slot)
    requires SegmentIn(m, len, key, e) && Find(m[key..e], '=') < e - key
    ensures Holds(m, m', key, e, slot) && Walk(m, len, key, key, -1, slots) == Rest(m', len, e, slots + [slot])
  {
    var eq := key + Find(m[key..e], '=');
    m', slot := PairStored(m, len, key, e, eq, m[eq := NUL][e := NUL]);
    PairScanned(m, len, key, e, eq, slots);
  }

  lemma CutBoth(m: string, m': string, key: nat, eq: nat, e: nat)
    requires key <= eq < e < |m| && SameOutside(m[eq := NUL][e := NUL], m', key, e + 1)
    ensures SameOutside(m, m', key, e + 1)
  {
    CutOutside(m[eq := NUL], e, m', key, e + 1);
    CutOutside(m, eq, m', key, e + 1);
  }

  /** GoodQuery, PairsOf, PairOf and GoodSegment in a form that the verifier does not unfold by itself. */
  ghost predicate IsGood(q: string) {
    forall t: string :: Peek(t) && t == q ==> GoodQuery(t)
  }

  ghost predicate PairsAre(q: string, pairs: seq<(string, string)>) {
    forall t: string :: Peek(t) && t == q ==> PairsOf(t) == pairs
  }

  ghost predicate PairIs(segment: string, pair: (string, string)) {
    forall t: string :: Peek(t) && t == segment ==> PairOf(t) == pair
  }

  ghost predicate IsSegment(m: string, len: nat, key: nat, e: nat) {
    forall t: string :: Peek(t) && t == m ==> SegmentIn(t, len, key, e)
  }

  /** What a stored segment looks like. */
  predicate Kept(m: string, m': string, key: nat, e: nat, slot: Slot, pair: (string, string)) {
    key <= e < |m| && SameOutside(m, m', key, e + 1) && InRange(slot, key, e) && Read(m', slot) == pair
  }

  lemma Segment(m: string, len: nat, key: nat, e: nat, slots: seq<Slot>) returns (m': string, slot: Slot,
      pair: (string, string))
    requires IsSegment(m, len, key, e) && key <= e <= len < |m| && (key < e || e < len)
    ensures Kept(m, m', key, e, slot, pair) && PairIs(m[key..e], pair)
    ensures Walk(m, len, key, key, -1, slots) == Rest(m', len, e, slots + [slot])
  {
    assert SegmentIn(m, len, key, e) by { assert Peek(m); }
    pair := PairOf(m[key..e]);
    if Find(m[key..e], '=') == e - key {
      m', slot := BareSegment(m, len, key, e, slots);
    } else {
      m', slot := ValueSegment(m, len, key, e, slots);
    }
  }

  /** A kept pair reads the same as long as the bytes before a later segment stay. */
  lemma SameRead(m: string, m': string, s: nat, slot: Slot)
    requires InRange(slot, 0, s) && s <= |m| && |m'| == |m| && m'[..s] == m[..s]
    ensures Read(m', slot) == Read(m, slot)
  {
    SameText(m, m', s, slot.key, slot.keyLen);
    if slot.valLen > 0 {
      SameText(m, m', s, slot.val, slot.valLen);
    }
  }

  lemma ReadsCons(m: string, slot: Slot, slots: seq<Slot>, pair: (string, string), pairs: seq<(string, string)>)
    requires InRange(slot, 0, |m|) && Read(m, slot) == pair && ReadsAs(m, slots, pairs)
    ensures ReadsAs(m, [slot] + slots, [pair] + pairs)
  {
    forall i | 0 <= i < |[slot] + slots|
      ensures InRange(([slot] + slots)[i], 0, |m|) && Read(m, ([slot] + slots)[i]) == ([pair] + pairs)[i]
    {
      if i > 0 {
        assert ([slot] + slots)[i] == slots[i - 1] && ([pair] + pairs)[i] == pairs[i - 1];
      }
    }
  }

  predicate QueryIn(m: string, len: nat, key: nat) {
    key <= len < |m| && m[len] == NUL && forall i :: key <= i < len ==> m[i] != NUL
  }

  /** The first segment of a query in the buffer, and what is left behind it. */
  lemma FirstSegment(m: string, len: nat, key: nat, e: nat)
    requires QueryIn(m, len, key) && IsGood(m[key..len]) && e == key + Find(m[key..len], '&')
    ensures IsSegment(m, len, key, e) && (e < len ==> IsGood(m[e + 1..len]))
  {
    var q := m[key..len];
    FindInSegment(m, key, len, '&');
    assert q[..e - key] == m[key..e];
    assert GoodQuery(q) by { assert Peek(q); }
    if e < len {
      assert q[e - key + 1..] == m[e + 1..len];
    }
  }

  lemma PairsCons(m: string, len: nat, key: nat, e: nat, pair: (string, string), pairs: seq<(string, string)>)
    requires key <= len <= |m| && e == key + Find(m[key..len], '&') < len
    requires PairIs(m[key..e], pair) && PairsAre(m[e + 1..len], pairs)
    ensures PairsAre(m[key..len], [pair] + pairs)
  {
    var q := m[key..len];
    assert q[..e - key] == m[key..e] && q[e - key + 1..] == m[e + 1..len];
    assert PairOf(m[key..e]) == pair by { assert Peek(m[key..e]); }
    assert PairsOf(m[e + 1..len]) == pairs by { assert Peek(m[e + 1..len]); }
  }

  lemma PairsLast(q: string, pair: (string, string))
    requires q != "" && Find(q, '&') == |q| && PairIs(q, pair)
    ensures PairsAre(q, [pair])
  {
    assert PairOf(q) == pair by { assert Peek(q); }
  }

  lemma SameQuery(m: string, m': string, s: nat, len: nat)
    requires s <= len < |m| && |m'| == |m| && m'[s..] == m[s..]
    ensures m'[s..len] == m[s..len] && forall i :: s <= i < |m| ==> m'[i] == m[i]
  {
    forall i | s <= i < |m|
      ensures m'[i] == m[i]
    {
      assert m'[s..][i - s] == m[s..][i - s];
    }
  }

  /** The kept pairs read as the given pairs, and the buffer is unchanged in front of the query and behind it. */
  predicate Means(m: string, len: nat, key: nat, mf: string, kept: seq<Slot>, pairs: seq<(string, string)>) {
    key <= len < |m| && SameOutside(m, mf, key, len + 1) && ReadsAs(mf, kept, pairs)
  }

  lemma MeansCons(m: string, m': string, mf: string, len: nat, key: nat, e: nat, slot: Slot, rest: seq<Slot>,
                  pair: (string, string), pairs: seq<(string, string)>)
    requires e < len && Kept(m, m', key, e, slot, pair) && Means(m', len, e + 1, mf, rest, pairs)
    ensures Means(m, len, key, mf, [slot] + rest, [pair] + pairs)
  {
    SameRead(m', mf, e + 1, slot);
    ReadsCons(mf, slot, rest, pair, pairs);
    SameTwice(m, m', mf, key, e + 1, len + 1);
  }

  lemma RestOfQuery(m: string, m': string, len: nat, key: nat, e: nat, slot: Slot, pair: (string, string))
    requires QueryIn(m, len, key) && e < len && Kept(m, m', key, e, slot, pair)
    ensures QueryIn(m', len, e + 1) && m'[e + 1..len] == m[e + 1..len]
  {
    SameQuery(m, m', e + 1, len);
  }

  lemma JoinSlots(slots: seq<Slot>, slot: Slot, rest: seq<Slot>)
    ensures slots + [slot] + rest == slots + ([slot] + rest)
  {
  }

  lemma {:induction false} WalkMeaning(m: string, len: nat, key: nat, slots: seq<Slot>)
      returns (mf: string, kept: seq<Slot>, pairs: seq<(string, string)>)
    requires QueryIn(m, len, key) && IsGood(m[key..len])
    ensures Walk(m, len, key, key, -1, slots) == Parsed(mf, slots + kept)
    ensures Means(m, len, key, mf, kept, pairs) && PairsAre(m[key..len], pairs)
    decreases len - key
  {
    var e := key + Find(m[key..len], '&');
    if key == len {
      mf, kept, pairs := m, [], [];
    } else {
      FirstSegment(m, len, key, e);
      var m', slot, pair := Segment(m, len, key, e, slots);
      if e == len {
        mf, kept, pairs := m', [slot], [pair];
        PairsLast(m[key..len], pair);
      } else {
        RestOfQuery(m, m', len, key, e, slot, pair);
        var rest, more;
        mf, rest, more := WalkMeaning(m', len, e + 1, slots + [slot]);
        kept, pairs := [slot] + rest, [pair] + more;
        JoinSlots(slots, slot, rest);
        MeansCons(m, m', mf, len, key, e, slot, rest, pair, more);
        PairsCons(m, len, key, e, pair, more);
      }
    }
  }

  /** In-place parsing refines the simple meaning: for a query without NUL whose escapes are complete, the
      pairs that are kept read as the pairs of the query, and the terminator and what follows it stay. */
  lemma ParseRefinesMeaning(q: string, behind: string)
    requires NUL !in q && GoodQuery(q)
    ensures var m := q + [NUL] + behind;
      var r := Walk(m, |q|, 0, 0, -1, []);
      r.Parsed? && ReadsAs(r.m, r.slots, PairsOf(q)) && |r.m| == |m| && r.m[|q| + 1..] == behind
  {
    var m := q + [NUL] + behind;
    assert m[0..|q|] == q && m[|q| + 1..] == behind;
    var mf, kept, pairs := WalkMeaning(m, |q|, 0, []);
    assert [] + kept == kept;
    assert PairsOf(q) == pairs by { assert Peek(q); }
  }

  // ------------------------------------------------------------------ when every decoding stays in its text

  lemma {:induction false} TidyKey(m: string, len: nat, p: nat, e: nat, key: nat)
    requires key <= p <= e <= len < |m| && forall i :: p <= i < e ==> m[i] != '=' && m[i] != '&'
    ensures Tidy(m, len, p, key, -1) <==> Tidy(m, len, e, key, -1)
    decreases e - p
  {
    if p < e {
      TidyKey(m, len, p + 1, e, key);
    }
  }

  lemma {:induction false} TidyVal(m: string, len: nat, p: nat, e: nat, key: nat, val: nat)
    requires key <= p <= e <= len < |m| && val <= p && forall i :: p <= i < e ==> m[i] != '&'
    ensures Tidy(m, len, p, key, val) <==> Tidy(m, len, e, key, val)
    decreases e - p
  {
    if p < e {
      TidyVal(m, len, p + 1, e, key, val);
    }
  }

  /** A stretch of the query in front of a separator. */
  predicate Stretch(m: string, s: nat, e: nat) {
    s <= e < |m| && forall i :: s <= i < e ==> m[i] != NUL
  }

  lemma ReadsText(m: string, s: nat, e: nat)
    requires Stretch(m, s, e) && m[e] == NUL
    ensures ReadEnd(m, s) == e <==> WellEscaped(m[s..e])
    ensures WellEscaped(m[s..e]) ==> TextIn(m, s, e)
  {
    StaysWithinText(m, s, e);
  }

  /** The segment that ends at e: it is stored tidily if and only if it is well escaped, and then the rest of the
      query is as it was. */
  predicate SegmentTidy(m: string, m2: string, len: nat, key: nat, val: int, e: nat)
    requires key <= e <= len < |m2| == |m| && val <= e
  {
    && (TidyStore(m2, key, val, e) <==> GoodSegment(m[key..e]))
    && (TidyStore(m2, key, val, e) ==> Store(m2, key, val).Stored? && Store(m2, key, val).m[e + 1..] == m[e + 1..])
  }

  lemma BareTidy(m: string, len: nat, key: nat, e: nat)
    requires Stretch(m, key, e) && e <= len < |m| && Find(m[key..e], '=') == e - key
    ensures SegmentTidy(m, m[e := NUL], len, key, -1, e)
  {
    var m2 := m[e := NUL];
    assert m2[key..e] == m[key..e] == m[key..e][..e - key];
    ReadsText(m2, key, e);
    if WellEscaped(m[key..e]) {
      var m', slot := StoreKey(m2, key, e);
    }
  }

  lemma PairTidy(m: string, len: nat, key: nat, eq: nat, e: nat)
    requires Stretch(m, key, e) && key <= eq < e <= len < |m| && eq == key + Find(m[key..e], '=')
    ensures SegmentTidy(m, m[eq := NUL][e := NUL], len, key, eq + 1, e)
  {
    var m2, seg := m[eq := NUL][e := NUL], m[key..e];
    assert m2[key..eq] == m[key..eq] == seg[..eq - key];
    assert m2[eq + 1..e] == m[eq + 1..e] == seg[eq - key + 1..];
    BothTidy(m2, key, eq, e);
    assert m2[e + 1..] == m[e + 1..];
  }

  /** A key and a value between NULs. */
  lemma BothTidy(m: string, key: nat, eq: nat, e: nat)
    requires Stretch(m, key, eq) && m[eq] == NUL && Stretch(m, eq + 1, e) && m[e] == NUL
    ensures TidyStore(m, key, eq + 1, e) <==> WellEscaped(m[key..eq]) && WellEscaped(m[eq + 1..e])
    ensures TidyStore(m, key, eq + 1, e) ==>
      Store(m, key, eq + 1).Stored? && Store(m, key, eq + 1).m[e + 1..] == m[e + 1..]
  {
    ReadsText(m, key, eq);
    ReadsText(m, eq + 1, e);
    if WellEscaped(m[key..eq]) {
      var m1 := DecodeStage(m, key, eq);
      SameStretch(m, m1, eq + 1, e);
      ReadsText(m1, eq + 1, e);
      if WellEscaped(m[eq + 1..e]) {
        var m', slot := StoreBoth(m, key, eq + 1, e);
      }
    }
  }

  lemma SameStretch(m: string, m': string, s: nat, e: nat)
    requires Stretch(m, s, e) && |m'| == |m| && m'[s..] == m[s..]
    ensures Stretch(m', s, e) && m'[e] == m[e] && m'[s..e] == m[s..e]
  {
    SameQuery(m, m', s, e);
  }

  /** The first segment is read tidily if and only if it is well escaped; then the rest is left as it was. */
  lemma TidyFirst(m: string, len: nat, key: nat, e: nat) returns (good: bool, m': string)
    requires QueryIn(m, len, key) && key <= e <= len && (e < len ==> m[e] == '&') && (key < e || e < len)
    requires forall i :: key <= i < e ==> m[i] != '&'
    ensures good <==> GoodSegment(m[key..e])
    ensures good ==> |m'| == |m| && m'[e + 1..] == m[e + 1..]
    ensures Tidy(m, len, key, key, -1) <==> good && (e < len ==> Tidy(m', len, e + 1, e + 1, -1))
  {
    var i := Find(m[key..e], '=');
    FindInSegment(m, key, e, '=');
    var m2, val := m[e := NUL], -1;
    if i == e - key {
      BareTidy(m, len, key, e);
      TidyKey(m, len, key, e, key);
      assert e == len ==> m2 == m;
    } else {
      var eq := key + i;
      PairTidy(m, len, key, eq, e);
      TidyKey(m, len, key, eq, key);
      var m1 := m[eq := NUL];
      TidyVal(m1, len, eq + 1, e, key, eq + 1);
      assert e == len ==> m1[e := NUL] == m1;
      m2, val := m1[e := NUL], eq + 1;
    }
    good := TidyStore(m2, key, val, e);
    m' := if good then Store(m2, key, val).m else m;
  }

  lemma GoodFirst(m: string, len: nat, key: nat, e: nat)
    requires key <= len <= |m| && e == key + Find(m[key..len], '&')
    ensures GoodQuery(m[key..len]) <==> GoodSegment(m[key..e]) && (e < len ==> GoodQuery(m[e + 1..len]))
  {
    var q := m[key..len];
    assert q[..e - key] == m[key..e];
    if e < len {
      assert q[e - key + 1..] == m[e + 1..len];
    }
  }

  /** Tidy(m, len, key, key, -1) <==> GoodQuery(m[key..len]), kept folded. */
  ghost predicate TidyIsGood(m: string, len: nat, key: nat) {
    && key <= len < |m|
    && forall x: string ::
        Peek(x) && x == m ==> (Tidy(x, len, key, key, -1) <==> GoodQuery(x[key..len]))
  }

  lemma TidyStep(m: string, len: nat, key: nat, e: nat, good: bool, m': string)
    requires key <= len < |m| && e == key + Find(m[key..len], '&')
    requires good <==> GoodSegment(m[key..e])
    requires good && e < len ==> |m'| == |m| && m'[e + 1..] == m[e + 1..] && TidyIsGood(m', len, e + 1)
    requires Tidy(m, len, key, key, -1) <==> good && (e < len ==> |m'| == |m| && Tidy(m', len, e + 1, e + 1, -1))
    ensures TidyIsGood(m, len, key)
  {
    GoodFirst(m, len, key, e);
    if good && e < len {
      SameQuery(m, m', e + 1, len);
      assert Peek(m');
    }
  }

  lemma {:induction false} TidyIff(m: string, len: nat, key: nat)
    requires QueryIn(m, len, key)
    ensures TidyIsGood(m, len, key)
    decreases len - key
  {
    if key < len {
      var e := key + Find(m[key..len], '&');
      FindInSegment(m, key, len, '&');
      var good, m' := TidyFirst(m, len, key, e);
      if good && e < len {
        SameQuery(m, m', e + 1, len);
        TidyIff(m', len, e + 1);
      }
      TidyStep(m, len, key, e, good, m');
    }
  }

  /** In a query without NUL, every decoding reads to the end of its own key or value and no further, if and only
      if every percent sign is followed by two characters of the same key or value. */
  lemma StaysInSegments(q: string, behind: string)
    requires NUL !in q
    ensures Tidy(q + [NUL] + behind, |q|, 0, 0, -1) <==> GoodQuery(q)
  {
    var m := q + [NUL] + behind;
    assert m[0..|q|] == q;
    TidyIff(m, |q|, 0);
    assert Peek(m);
  }

  /** A query without NUL, with its terminator. */
  predicate Terminated(m: string, len: nat)
    requires len < |m|
  {
    m[len] == NUL && NUL !in m[..len]
  }

  lemma QueryOutcome(m: string, len: nat)
    requires len < |m|
    ensures Terminated(m, len) ==> (Tidy(m, len, 0, 0, -1) <==> GoodQuery(m[..len]))
    ensures Terminated(m, len) && GoodQuery(m[..len]) ==>
      var r := Walk(m, len, 0, 0, -1, []);
      r.Parsed? && |r.m| == |m| && ReadsAs(r.m, r.slots, PairsOf(m[..len])) && r.m[len + 1..] == m[len + 1..]
    ensures GoodQuery("") && PairsOf("") == []
  {
    if Terminated(m, len) {
      assert m == m[..len] + [NUL] + m[len + 1..];
      StaysInSegments(m[..len], m[len + 1..]);
      if GoodQuery(m[..len]) {
        ParseRefinesMeaning(m[..len], m[len + 1..]);
      }
    }
  }

  /** The splitting loop has come from `was` to m, and every decoding was tidy so far or not; kept folded. */
  ghost predicate Follows(was: string, len: nat, m: string, p: nat, key: nat, val: int, slots: seq<Slot>, tidy: bool) {
    && len < |was| && key <= p <= len < |m| && val <= p
    && forall x: string ::
        Peek(x) && x == m ==>
          && Walk(was, len, 0, 0, -1, []) == Walk(x, len, p, key, val, slots)
          && (Tidy(was, len, 0, 0, -1) <==> tidy && Tidy(x, len, p, key, val))
  }

  lemma FollowsEquals(was: string, len: nat, m: string, p: nat, key: nat, slots: seq<Slot>, tidy: bool)
    requires Follows(was, len, m, p, key, -1, slots, tidy) && p < len && m[p] == '='
    ensures Follows(was, len, m[p := NUL], p + 1, key, p + 1, slots, tidy)
  {
    assert Peek(m);
  }

  lemma FollowsOther(was: string, len: nat, m: string, p: nat, key: nat, val: int, slots: seq<Slot>, tidy: bool)
    requires Follows(was, len, m, p, key, val, slots, tidy) && p < len && !(val < 0 && m[p] == '=') && m[p] != '&'
    ensures Follows(was, len, m, p + 1, key, val, slots, tidy)
  {
    assert Peek(m);
  }

  lemma FollowsStored(was: string, len: nat, m: string, p: nat, key: nat, val: int, slots: seq<Slot>, tidy: bool,
                      m': string, slot: Slot)
    requires Follows(was, len, m, p, key, val, slots, tidy) && p < len && m[p] == '&'
    requires Store(m[p := NUL], key, val) == Stored(m', slot)
    ensures Follows(was, len, m', p + 1, p + 1, -1, slots + [slot], tidy && TidyStore(m[p := NUL], key, val, p))
  {
    assert Peek(m);
  }

  lemma FollowsLost(was: string, len: nat, m: string, p: nat, key: nat, val: int, slots: seq<Slot>, tidy: bool)
    requires Follows(was, len, m, p, key, val, slots, tidy) && p < len && m[p] == '&'
    requires Store(m[p := NUL], key, val).Lost?
    ensures Walk(was, len, 0, 0, -1, []).RanOut? && !Tidy(was, len, 0, 0, -1)
  {
    assert Peek(m);
  }

  lemma FollowsEnd(was: string, len: nat, m: string, key: nat, val: int, slots: seq<Slot>, tidy: bool)
    requires Follows(was, len, m, len, key, val, slots, tidy)
    ensures var r, none := Store(m, key, val), val < 0 && m[key] == NUL;
      && Walk(was, len, 0, 0, -1, []) ==
           (if none then Parsed(m, slots) else if r.Lost? then RanOut else Parsed(r.m, slots + [r.slot]))
      && (Tidy(was, len, 0, 0, -1) <==> tidy && (none || TidyStore(m, key, val, len)))
  {
    assert Peek(m);
  }

  /** The parser of a query, in a buffer that reaches at least to the byte behind the query. `tidy` says that
      every decoding stopped at the end of its own key or value. */
  method ParseQueryInPlace(a: array<char>, len: nat) returns (ok: bool, slots: seq<Slot>, ghost tidy: bool)
    requires len < a.Length
    modifies a
    ensures len == 0 ==> ok && slots == [] && a[..] == old(a[..])
    ensures len > 0 ==> (ok <==> Walk(old(a[..]), len, 0, 0, -1, []).Parsed?)
    ensures len > 0 && ok ==> Walk(old(a[..]), len, 0, 0, -1, []) == Parsed(a[..], slots)
    ensures len > 0 ==> (tidy <==> Tidy(old(a[..]), len, 0, 0, -1))
    ensures Terminated(old(a[..]), len) ==> (tidy <==> GoodQuery(old(a[..])[..len]))
    ensures Terminated(old(a[..]), len) && tidy ==>
      ok && ReadsAs(a[..], slots, PairsOf(old(a[..])[..len])) && a[..][len + 1..] == old(a[..])[len + 1..]
  {
    ok, slots, tidy := true, [], true;
    QueryOutcome(a[..], len);
    if len > 0 {
      ok, slots, tidy := SplitInPlace(a, len);
    }
  }

  /** Ends a segment at the ampersand at p and keeps its pair. */
  method StoreSegment(a: array<char>, len: nat, p: nat, key: nat, val: int, slots: seq<Slot>, ghost was: string,
                      ghost tidy: bool) returns (ok: bool, more: seq<Slot>, ghost still: bool)
    requires p < len < a.Length && Follows(was, len, a[..], p, key, val, slots, tidy) && a[p] == '&'
    modifies a
    ensures ok ==> Follows(was, len, a[..], p + 1, p + 1, -1, more, still)
    ensures !ok ==> !still && Walk(was, len, 0, 0, -1, []).RanOut? && !Tidy(was, len, 0, 0, -1)
  {
    ghost var m := a[..];
    a[p] := NUL;
    assert a[..] == m[p := NUL];
    var slot;
    ok, slot, still := StoreInPlace(a, key, val, p);
    more, still := slots + [slot], ok && tidy && still;
    if ok {
      FollowsStored(was, len, m, p, key, val, slots, tidy, a[..], slot);
    } else {
      FollowsLost(was, len, m, p, key, val, slots, tidy);
    }
  }

  /** Keeps the pair of the last segment, if there is one. */
  method StoreLast(a: array<char>, len: nat, key: nat, val: int, slots: seq<Slot>, ghost was: string,
                   ghost tidy: bool) returns (ok: bool, more: seq<Slot>, ghost still: bool)
    requires len < a.Length && Follows(was, len, a[..], len, key, val, slots, tidy)
    modifies a
    ensures ok <==> Walk(was, len, 0, 0, -1, []).Parsed?
    ensures ok ==> Walk(was, len, 0, 0, -1, []) == Parsed(a[..], more)
    ensures still <==> Tidy(was, len, 0, 0, -1)
  {
    FollowsEnd(was, len, a[..], key, val, slots, tidy);
    ok, more, still := true, slots, tidy;
    if val >= 0 || a[key] != NUL {
      var slot;
      ghost var t;
      ok, slot, t := StoreInPlace(a, key, val, len);
      more, still := slots + [slot], tidy && t;
    }
  }

  /** The splitting loop. */
  method SplitInPlace(a: array<char>, len: nat) returns (ok: bool, slots: seq<Slot>, ghost tidy: bool)
    requires 0 < len < a.Length
    modifies a
    ensures ok <==> Walk(old(a[..]), len, 0, 0, -1, []).Parsed?
    ensures ok ==> Walk(old(a[..]), len, 0, 0, -1, []) == Parsed(a[..], slots)
    ensures tidy <==> Tidy(old(a[..]), len, 0, 0, -1)
  {
    ok, slots, tidy := true, [], true;
    var p, key, val := 0, 0, -1;
    ghost var was := a[..];
    while p < len
      invariant 0 <= key <= p <= len && -1 <= val <= p
      invariant Follows(was, len, a[..], p, key, val, slots, tidy)
    {
      ghost var m := a[..];
      if val < 0 && a[p] == '=' {
        FollowsEquals(was, len, m, p, key, slots, tidy);
        a[p] := NUL;
        assert a[..] == m[p := NUL];
        val := p + 1;
      } else if a[p] == '&' {
        ok, slots, tidy := StoreSegment(a, len, p, key, val, slots, was, tidy);
        if !ok {
          return;
        }
        key, val := p + 1, -1;
      } else {
        FollowsOther(was, len, m, p, key, val, slots, tidy);
      }
      p := p + 1;
    }
    ok, slots, tidy := StoreLast(a, len, key, val, slots, was, tidy);
  }

  /** A text that ends inside an escape swallows its terminator. In "%&bc" the decoding of the first key reads
      on into the second segment and overwrites its start, so that the second pair is lost. */
  lemma TruncatedEscapeSpills()
    ensures Walk("%&bc\0", 4, 0, 0, -1, []) == Parsed("\0c\0c\0", [Slot(0, 0, 0, 0)])
    ensures PairsOf("%&bc") == [("", ""), ("bc", "")]
  {
    var m1, m2, m3, m4 := "%\0bc\0", "\0\0bc\0", "\0c\0c\0", "\0cbc\0";
    assert Decoded(m1, 0, 0) == Inside(m3) by {
      assert m1[0 := EscapedByte(NUL, 'b')] == m2;
      assert m2[1 := 'c'] == m4;
      assert Decoded(m4, 4, 2) == Inside(m4[2 := NUL]) && m4[2 := NUL] == m3;
      assert Decoded(m2, 3, 1) == Decoded(m4, 4, 2);
    }
    var slot := Slot(0, 0, 0, 0);
    assert Store(m1, 0, -1) == Stored(m3, slot);
    assert Walk(m3, 4, 3, 2, -1, [slot]) == Walk(m3, 4, 4, 2, -1, [slot]);
    assert Walk(m3, 4, 2, 2, -1, [slot]) == Parsed(m3, [slot]);
    assert "%&bc\0"[1 := NUL] == m1;
    assert [] + [slot] == [slot];
    SpilledPairs();
  }

  lemma SpilledPairs()
    ensures PairsOf("%&bc") == [("", ""), ("bc", "")]
  {
    var q := "%&bc";
    assert Find(q, '&') == 1 && q[..1] == "%" && q[2..] == "bc";
    assert PairOf("%") == ("", "") by { assert "%"[..1] == "%" && Decode("%") == ""; }
    assert Find("bc", '&') == 2;
    assert PairOf("bc") == ("bc", "") by {
      assert Find("bc", '=') == 2 && "bc"[..2] == "bc" && "bc"[1..] == "c" && "c"[1..] == "";
      assert Decode("c") == "c" && Decode("bc") == "bc";
      assert Find("bc", NUL) == 2;
    }
  }

  /** Reading on need not do harm: in "%&x" the decoding of the first key stops at the terminator of the second,
      which is one byte long, and both pairs read as they should. */
  lemma SpillMayBeHarmless()
    ensures !GoodQuery("%&x") && PairsOf("%&x") == [("", ""), ("x", "")]
    ensures Walk("%&x\0", 3, 0, 0, -1, []) == Parsed("\0\0x\0", [Slot(0, 0, 0, 0), Slot(2, 1, 0, 0)])
  {
    var m0, m1, m2 := "%&x\0", "%\0x\0", "\0\0x\0";
    assert m0[1 := NUL] == m1;
    assert Decoded(m1, 0, 0) == Inside(m2) by {
      assert m1[0 := EscapedByte(NUL, 'x')] == m2;
      assert Decoded(m2, 3, 1) == Inside(m2[1 := NUL]) && m2[1 := NUL] == m2;
    }
    var a, b := Slot(0, 0, 0, 0), Slot(2, 1, 0, 0);
    assert Store(m1, 0, -1) == Stored(m2, a);
    assert Decoded(m2, 2, 2) == Inside(m2) by {
      assert m2[2 := 'x'] == m2 && m2[3 := NUL] == m2;
      assert Decoded(m2, 3, 3) == Inside(m2);
    }
    assert m2[2..] == "x\0" && StrLen(m2, 2) == 1;
    assert Store(m2, 2, -1) == Stored(m2, b);
    assert Walk(m2, 3, 2, 2, -1, [a]) == Walk(m2, 3, 3, 2, -1, [a]) == Parsed(m2, [a] + [b]);
    assert [] + [a] == [a] && [a] + [b] == [a, b];
    HarmlessPairs();
  }

  lemma HarmlessPairs()
    ensures !GoodQuery("%&x") && PairsOf("%&x") == [("", ""), ("x", "")]
  {
    var q := "%&x";
    assert Find(q, '&') == 1 && q[..1] == "%" && q[2..] == "x";
    assert "%"[..1] == "%" && Find("%", '=') == 1;
    assert PairOf("%") == ("", "") by { assert Decode("%") == ""; }
    assert Find("x", '&') == 1;
    assert PairOf("x") == ("x", "") by {
      assert Find("x", '=') == 1 && "x"[..1] == "x" && "x"[1..] == "";
      assert Decode("x") == "x";
      assert Find("x", NUL) == 1;
    }
  }
}
