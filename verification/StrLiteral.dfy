/** The string-literal tool: any bytes as adjacent C string literals of bounded length, and how a C compiler
    reads them back (sections 6.4.4.4 and 6.4.5 of the C11 standard). */
module StrLiteral {
  import opened Folding

  type Byte = x: int | 0 <= x < 256

  const SEPARATOR := "\"\n\t\""

  function Digit(d: int): char
    requires 0 <= d < 8
  {
    ('0' as int + d) as char
  }

  function Octal(c: Byte): string {
    ['\\', Digit(c / 64), Digit(c / 8 % 8), Digit(c % 8)]
  }

  predicate IsPlain(c: Byte) {
    32 <= c <= 126 && c != '"' as int && c != '\\' as int && c != '?' as int && c != ':' as int && c != '%' as int
  }

  /** How one byte is written. */
  function Escape(c: Byte, always: bool): (t: string)
    ensures 1 <= |t| <= 4
  {
    if always then Octal(c)
    else if IsPlain(c) then [c as char]
    else if c == 13 then "\\r"
    else if c == 10 then "\\n"
    else if c == 9 then "\\t"
    else if c == 34 then "\\\""
    else if c == 92 then "\\\\"
    else Octal(c)
  }

  /** What is written for the rest of the input when n characters stand on the current line. */
  function Text(input: seq<Byte>, always: bool, maxlength: nat, n: nat): string {
    if input == [] then ""
    else
      var e := Escape(input[0], always);
      if n + |e| >= maxlength then e + SEPARATOR + Text(input[1..], always, maxlength, 0)
      else e + Text(input[1..], always, maxlength, n + |e|)
  }

  // ------------------------------------------------------------------ the tool

  /** Appends a text to the line buffer. */
  method Append(buffer: array<char>, linechar: nat, t: string)
    requires linechar + |t| <= buffer.Length
    modifies buffer
    ensures buffer[..linechar + |t|] == old(buffer[..linechar]) + t
  {
    for i := 0 to |t|
      invariant buffer[..linechar + i] == old(buffer[..linechar]) + t[..i]
    {
      buffer[linechar + i] := t[i];
      assert buffer[..linechar + i + 1] == buffer[..linechar + i] + [t[i]];
    }
  }

  /** The loop of the tool: the line buffer holds maxlength + 4 characters, which always suffices, and is
      written out when it holds maxlength or more. */
  method Literal(input: seq<Byte>, always: bool, maxlength: nat) returns (text: string, length: nat)
    ensures text == Text(input, always, maxlength, 0) && length == |input|
  {
    var buffer := new char[maxlength + 4](_ => ' ');
    var linechar: nat := 0;
    text, length := "", 0;
    ghost var all, done := Text(input, always, maxlength, 0), "";
    Begin(input, always, maxlength, all);
    while length < |input|
      invariant length <= |input| && (linechar == 0 || linechar < maxlength)
      invariant text + buffer[..linechar] == done && Remains(done, input, length, always, maxlength, linechar, all)
    {
      var e := Escape(input[length], always);
      ghost var line, before := buffer[..linechar], linechar;
      Append(buffer, linechar, e);
      linechar := linechar + |e|;
      assert text + buffer[..linechar] == done + e by { Line(text, line, e); }
      if linechar >= maxlength {
        text := text + buffer[..linechar] + SEPARATOR;
        done := Advance(done, input, length, always, maxlength, before, all, 0);
        linechar := 0;
      } else {
        done := Advance(done, input, length, always, maxlength, before, all, linechar);
      }
      length := length + 1;
    }
    Finish(done, input, always, maxlength, linechar, all);
    if linechar >= 1 {
      text := text + buffer[..linechar];
    }
  }

  lemma Line(text: string, line: string, e: string)
    ensures text + (line + e) == text + line + e
  {
  }

  /** What was written, with what is still to be written, is the whole text; kept folded. */
  ghost predicate Remains(done: string, input: seq<Byte>, k: nat, always: bool, maxlength: nat, n: nat, all: string)
    requires k <= |input|
  {
    forall u: string :: Peek(u) && u == done ==> u + Text(input[k..], always, maxlength, n) == all
  }

  lemma Advance(done: string, input: seq<Byte>, k: nat, always: bool, maxlength: nat, n: nat, all: string, n': nat)
      returns (next: string)
    requires k < |input| && Remains(done, input, k, always, maxlength, n, all)
    requires var m := n + |Escape(input[k], always)|; n' == if m >= maxlength then 0 else m
    ensures Remains(next, input, k + 1, always, maxlength, n', all)
    ensures var e := Escape(input[k], always); next == done + e + (if n + |e| >= maxlength then SEPARATOR else "")
  {
    assert done + Text(input[k..], always, maxlength, n) == all by { assert Peek(done); }
    var e := Escape(input[k], always);
    assert input[k..][0] == input[k] && input[k..][1..] == input[k + 1..];
    var sep, rest := if n + |e| >= maxlength then SEPARATOR else "", Text(input[k + 1..], always, maxlength, n');
    next := done + e + sep;
    assert Text(input[k..], always, maxlength, n) == e + sep + rest by { assert e + "" == e; }
    Prepended(done, e, sep, rest);
  }

  lemma Prepended(done: string, e: string, sep: string, rest: string)
    ensures done + (e + sep + rest) == done + e + sep + rest
  {
  }

  lemma Begin(input: seq<Byte>, always: bool, maxlength: nat, all: string)
    requires all == Text(input, always, maxlength, 0)
    ensures Remains("", input, 0, always, maxlength, 0, all)
  {
    assert input[0..] == input;
  }

  lemma Finish(done: string, input: seq<Byte>, always: bool, maxlength: nat, n: nat, all: string)
    requires Remains(done, input, |input|, always, maxlength, n, all)
    ensures done == all
  {
    assert Peek(done);
  }

  // ------------------------------------------------------------------ reading literals

  datatype Value = Bad | Bytes(bytes: seq<int>)

  function Cons(c: int, v: Value): Value {
    if v.Bad? then Bad else Bytes([c] + v.bytes)
  }

  predicate IsOctal(c: char) {
    '0' <= c <= '7'
  }

  function OctalValue(c: char): int
    requires IsOctal(c)
  {
    c as int - '0' as int
  }

  function SimpleEscape(c: char): int {
    match c
    case '\'' => 39
    case '"' => 34
    case '?' => 63
    case '\\' => 92
    case 'a' => 7
    case 'b' => 8
    case 'f' => 12
    case 'n' => 10
    case 'r' => 13
    case 't' => 9
    case 'v' => 11
    case _ => -1
  }

  /** How many octal digits an escape takes: as many as there are, at most three. */
  function OctalDigits(t: string): (k: nat)
    ensures k <= 3 && k <= |t|
  {
    if t == "" || !IsOctal(t[0]) then 0
    else if |t| == 1 || !IsOctal(t[1]) then 1
    else if |t| == 2 || !IsOctal(t[2]) then 2
    else 3
  }

  function OctalNumber(t: string, k: nat): int
    requires k <= |t| && k <= 3 && forall i :: 0 <= i < k ==> IsOctal(t[i])
  {
    if k == 0 then 0
    else if k == 1 then OctalValue(t[0])
    else if k == 2 then 8 * OctalValue(t[0]) + OctalValue(t[1])
    else 64 * OctalValue(t[0]) + 8 * OctalValue(t[1]) + OctalValue(t[2])
  }

  /** Inside a literal. Hexadecimal escapes and universal names are not read. */
  function Inside(t: string): Value
    decreases |t|
  {
    if t == "" || t[0] == '\n' then Bad
    else if t[0] == '"' then Outside(t[1..])
    else if t[0] != '\\' then Cons(t[0] as int, Inside(t[1..]))
    else
      var k := OctalDigits(t[1..]);
      if k > 0 then
        var c := OctalNumber(t[1..], k);
        if c > 255 then Bad else Cons(c, Inside(t[1 + k..]))
      else if |t| > 1 && SimpleEscape(t[1]) >= 0 then Cons(SimpleEscape(t[1]), Inside(t[2..]))
      else Bad
  }

  /** Between literals: adjacent ones are one string, and a semicolon ends the declaration. */
  function Outside(t: string): Value
    decreases |t|
  {
    if t == "" then Bad
    else if t[0] == ' ' || t[0] == '\n' || t[0] == '\t' then Outside(t[1..])
    else if t[0] == '"' then Inside(t[1..])
    else if t[0] == ';' then Bytes([])
    else Bad
  }

  // ------------------------------------------------------------------ the round trip

  lemma OctalRead(c: Byte, rest: string)
    ensures Inside(Octal(c) + rest) == Cons(c, Inside(rest))
  {
    var t := Octal(c) + rest;
    assert t[1..][..3] == Octal(c)[1..];
    assert t[1] == Digit(c / 64) && t[2] == Digit(c / 8 % 8) && t[3] == Digit(c % 8);
    assert t[4..] == rest;
    assert OctalNumber(t[1..], 3) == c;
  }

  lemma EscapeRead(c: Byte, always: bool, rest: string)
    ensures Inside(Escape(c, always) + rest) == Cons(c, Inside(rest))
  {
    var e := Escape(c, always);
    var t := e + rest;
    if e == Octal(c) {
      OctalRead(c, rest);
    } else if |e| == 1 {
      assert t[1..] == rest;
    } else {
      assert t[2..] == rest && t[1] == e[1] && t[0] == '\\';
      assert t[1..][0] == e[1];
    }
  }

  lemma SeparatorRead(rest: string)
    ensures Inside(SEPARATOR + rest) == Inside(rest)
  {
    var t0, t1, t2, t3 := SEPARATOR + rest, "\n\t\"" + rest, "\t\"" + rest, "\"" + rest;
    assert t0[1..] == t1 && t1[1..] == t2 && t2[1..] == t3 && t3[1..] == rest;
    assert Outside(t3) == Inside(rest);
    assert Outside(t2) == Outside(t3);
    assert Outside(t1) == Outside(t2);
  }

  /** Inside(t) == v, in a form that the verifier does not unfold by itself. */
  ghost predicate Reads(t: string, v: Value) {
    forall u: string :: Peek(u) && u == t ==> Inside(u) == v
  }

  lemma ReadsEscape(c: Byte, always: bool, rest: string, v: Value)
    requires Reads(rest, v)
    ensures Reads(Escape(c, always) + rest, Cons(c, v))
  {
    assert Inside(rest) == v by { assert Peek(rest); }
    EscapeRead(c, always, rest);
  }

  lemma ReadsSeparator(rest: string, v: Value)
    requires Reads(rest, v)
    ensures Reads(SEPARATOR + rest, v)
  {
    assert Inside(rest) == v by { assert Peek(rest); }
    SeparatorRead(rest);
  }

  lemma Regroup(e: string, sep: string, tail: string, rest: string)
    ensures e + sep + tail + rest == e + (sep + (tail + rest)) && e + tail + rest == e + (tail + rest)
  {
  }

  lemma {:induction false} TextRead(input: seq<Byte>, always: bool, maxlength: nat, n: nat, rest: string,
      bytes: seq<int>)
    requires Reads(rest, Bytes(bytes))
    ensures Reads(Text(input, always, maxlength, n) + rest, Bytes(input + bytes))
    decreases |input|
  {
    if input == [] {
      assert Text(input, always, maxlength, n) + rest == rest && input + bytes == bytes;
    } else {
      var e := Escape(input[0], always);
      var n' := if n + |e| >= maxlength then 0 else n + |e|;
      var tail, v := Text(input[1..], always, maxlength, n'), Bytes(input[1..] + bytes);
      TextRead(input[1..], always, maxlength, n', rest, bytes);
      Regroup(e, SEPARATOR, tail, rest);
      if n + |e| >= maxlength {
        ReadsSeparator(tail + rest, v);
        ReadsEscape(input[0], always, SEPARATOR + (tail + rest), v);
      } else {
        ReadsEscape(input[0], always, tail + rest, v);
      }
      assert [input[0]] + (input[1..] + bytes) == input + bytes;
    }
  }

  /** Round trip: whatever the bytes, the escape mode and the line length, the declaration that the tool
      writes reads back as the input. */
  lemma LiteralRoundTrip(input: seq<Byte>, always: bool, maxlength: nat, rest: string)
    ensures Outside("\"" + Text(input, always, maxlength, 0) + "\";" + rest) == Bytes(input)
  {
    var body := Text(input, always, maxlength, 0);
    var t := "\"" + body + "\";" + rest;
    assert t[1..] == body + ("\";" + rest);
    var tail := "\";" + rest;
    assert tail[1..] == ";" + rest;
    assert Inside(tail) == Bytes([]);
    TextRead(input, always, maxlength, 0, tail, []);
    assert input + [] == input;
    assert Peek(body + tail);
  }

  // ------------------------------------------------------------------ lines

  /** The longest stretch between separators, n characters of which stand before the text. */
  function Widest(input: seq<Byte>, always: bool, maxlength: nat, n: nat): nat {
    if input == [] then n
    else
      var e := Escape(input[0], always);
      var m := n + |e|;
      if m >= maxlength then Max(m, Widest(input[1..], always, maxlength, 0))
        else Widest(input[1..], always, maxlength, m)
  }

  function Max(a: nat, b: nat): nat {
    if a < b then b else a
  }

  /** No line is longer than the buffer. */
  lemma {:induction false} LinesFit(input: seq<Byte>, always: bool, maxlength: nat, n: nat)
    requires n == 0 || n < maxlength
    ensures Widest(input, always, maxlength, n) <= maxlength + (if maxlength == 0 then 4 else 3)
    decreases |input|
  {
    if input != [] {
      var m := n + |Escape(input[0], always)|;
      LinesFit(input[1..], always, maxlength, if m >= maxlength then 0 else m);
    }
  }

  lemma EscapeHidesMarks(c: Byte, always: bool)
    ensures '?' !in Escape(c, always)
  {
  }

  /** A question mark is never written, so that no trigraph can arise. */
  lemma {:induction false} NoTrigraphs(input: seq<Byte>, always: bool, maxlength: nat, n: nat)
    ensures '?' !in Text(input, always, maxlength, n)
    decreases |input|
  {
    if input != [] {
      var e := Escape(input[0], always);
      EscapeHidesMarks(input[0], always);
      NoTrigraphs(input[1..], always, maxlength, if n + |e| >= maxlength then 0 else n + |e|);
    }
  }
}
