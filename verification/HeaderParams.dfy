/** Parameters of header values: the scanner that takes one `key=value`, `key="value"` or bare `key` at a
    time, and what it finds in text that was written in these forms. Positions are offsets into one buffer. */
module HeaderParams {
  import opened Folding
  import opened Characters

  predicate IsSpecial(c: char) {
    || c == ';' || c == ',' || c == ':' || c == '=' || c == '?' || c == '/' || c == '\\' || c == '"'
    || c == '@' || c == '(' || c == ')' || c == '<' || c == '>' || c == '[' || c == ']'
  }

  predicate IsSpace(c: char) {
    c == ' ' || c == '\t'
  }

  predicate IsLineEnd(c: char) {
    c == '\r' || c == '\n'
  }

  predicate IsToken(c: char) {
    c as int > 31 && !IsSpecial(c)
  }

  predicate IsValueToken(c: char) {
    IsSpace(c) || c == ',' || IsToken(c)
  }

  /** A found parameter: where its key starts, its key and value, and where scanning goes on. */
  datatype Param = NoParam | Param(start: nat, key: string, val: string, next: nat)

  /** A backslash stands for the character behind it; a NUL ends the text. */
  function Unescape(s: string): string {
    if s == "" || s[0] == '\0' then ""
    else if s[0] == '\\' then (if |s| > 1 && s[1] != '\0' then [s[1]] + Unescape(s[2..]) else "")
    else [s[0]] + Unescape(s[1..])
  }

  function Text(s: string, vs: nat, ve: nat, escaped: bool): string
    requires vs <= ve <= |s|
  {
    if escaped then Unescape(s[vs..ve]) else s[vs..ve]
  }

  /** Inside quotes. The buffer may end there, which leaves an empty value. */
  function Quoted(s: string, ks: nat, ke: nat, vs: nat, rp: nat, escaped: bool): (p: Param)
    requires ks <= ke <= rp <= |s| && 0 < vs <= rp
    ensures p.Param? ==> rp <= p.next <= |s| && p.start == ks
    decreases |s| - rp
  {
    if rp == |s| then Param(ks, s[ks..ke], Text(s, vs, vs, escaped), rp)
    else if s[rp - 1] == '\\' then Quoted(s, ks, ke, vs, rp + 1, true)
    else if s[rp] == '"' then Param(ks, s[ks..ke], Text(s, vs, rp, escaped), rp + 1)
    else if IsLineEnd(s[rp]) then NoParam
    else Quoted(s, ks, ke, vs, rp + 1, escaped)
  }

  /** Behind the equals sign. */
  function Value(s: string, ks: nat, ke: nat, vs: nat, rp: nat): (p: Param)
    requires ks <= ke <= rp <= |s| && 0 < vs <= rp
    ensures p.Param? ==> rp <= p.next <= |s| && p.start == ks
    decreases |s| - rp
  {
    if rp == |s| then (if rp == vs then NoParam else Param(ks, s[ks..ke], s[vs..rp], rp))
    else if s[rp] == '"' && rp == vs then Quoted(s, ks, ke, rp + 1, rp + 1, false)
    else if s[rp] == ';' || IsSpace(s[rp]) then Param(ks, s[ks..ke], s[vs..rp], rp + 1)
    else if IsLineEnd(s[rp]) then Param(ks, s[ks..ke], s[vs..rp], rp)
    else if IsValueToken(s[rp]) then Value(s, ks, ke, vs, rp + 1)
    else NoParam
  }

  /** The key of the first parameter, which is the header's own value. */
  function FirstKey(s: string, ks: nat, ke: nat, rp: nat): (p: Param)
    requires ks <= ke <= rp <= |s|
    ensures p.Param? ==> p.start <= p.next && rp <= p.next <= |s|
    ensures p.Param? && rp < |s| && !IsLineEnd(s[rp]) ==> rp < p.next
    decreases |s| - rp
  {
    if rp == |s| then NoParam
    else if s[rp] == '=' then Value(s, ks, ke, rp + 1, rp + 1)
    else if IsSpace(s[rp]) then (if ke == ks then FirstKey(s, ks + 1, ks + 1, rp + 1) else FirstKey(s, ks, ke, rp + 1))
    else if s[rp] == ';' then Param(ks, s[ks..ke], "", rp + 1)
    else if IsLineEnd(s[rp]) then Param(ks, s[ks..ke], "", rp)
    else if (s[rp] == '/' && ke != ks) || IsToken(s[rp]) then FirstKey(s, ks, rp + 1, rp + 1)
    else NoParam
  }

  /** The key of a later parameter; after a space behind the key only an equals sign may follow. */
  function Key(s: string, ks: nat, ke: nat, rp: nat, expectEq: bool): (p: Param)
    requires ks <= ke <= rp <= |s|
    ensures p.Param? ==> p.start <= p.next && rp < p.next <= |s|
    decreases |s| - rp
  {
    if rp == |s| then NoParam
    else if s[rp] == '=' then Value(s, ks, ke, rp + 1, rp + 1)
    else if IsSpace(s[rp]) then
      (if ke == ks then Key(s, ks + 1, ks + 1, rp + 1, expectEq) else Key(s, ks, ke, rp + 1, true))
    else if !expectEq && s[rp] == ';' then Param(ks, s[ks..ke], "", rp + 1)
    else if !expectEq && IsToken(s[rp]) then Key(s, ks, rp + 1, rp + 1, expectEq)
    else NoParam
  }

  function ParamAt(s: string, first: bool, rp: nat): (p: Param)
    ensures p.Param? ==> p.start <= p.next && rp < p.next <= |s|
  {
    if rp >= |s| || IsLineEnd(s[rp]) then NoParam
    else if first then FirstKey(s, rp, rp, rp) else Key(s, rp, rp, rp, false)
  }

  /** The next parameter at a position; a colon starts a header's value. */
  function NextParam(s: string, rp: nat): (p: Param)
    ensures p.Param? ==> p.start <= p.next && rp < p.next <= |s|
  {
    if rp < |s| && s[rp] == ':' then ParamAt(s, true, rp + 1) else ParamAt(s, false, rp)
  }

  // ------------------------------------------------------------------ the scanning loop

  /** What remains to be found in each state of the loop. */
  function Ahead(s: string, first: bool, inKey: bool, inQuote: bool, expectEq: bool, escaped: bool,
                 ks: nat, ke: nat, vs: nat, rp: nat): Param
    requires ks <= ke <= rp <= |s| && (!inKey ==> 0 < vs <= rp)
  {
    if inKey then (if first then FirstKey(s, ks, ke, rp) else Key(s, ks, ke, rp, expectEq))
    else if inQuote then Quoted(s, ks, ke, vs, rp, escaped)
    else Value(s, ks, ke, vs, rp)
  }

  method ParseNextParameter2(s: string, first: bool, from: nat) returns (p: Param)
    ensures p == ParamAt(s, first, from)
  {
    var rp := from;
    if rp >= |s| || IsLineEnd(s[rp]) {
      return NoParam;
    }
    var inQuote, inKey, expectEq, escaped := false, true, false, false;
    var ks, ke, vs, ve := rp, rp, 0, 0;
    ghost var found := ParamAt(s, first, from);
    while rp < |s|
      invariant 0 <= ks <= ke <= rp <= |s| && (first ==> !expectEq)
      invariant inKey ==> !inQuote && !escaped && vs == ve == 0
      invariant !inKey ==> 0 < vs <= rp && (inQuote ==> ve == vs)
      invariant !inKey && !inQuote ==> ve == (if rp == vs then 0 else rp) && !escaped
      invariant found == Ahead(s, first, inKey, inQuote, expectEq, escaped, ks, ke, vs, rp)
      decreases |s| - rp
    {
      var c := s[rp];
      if inKey {
        if c == '=' {
          inKey, vs, rp := false, rp + 1, rp + 1;
        } else if IsSpace(c) {
          if ke == ks {
            ks, ke := ks + 1, ks + 1;
          } else if !first {
            expectEq := true;
          }
          rp := rp + 1;
        } else if !expectEq && c == ';' {
          return Param(ks, s[ks..ke], "", rp + 1);
        } else if first && IsLineEnd(c) {
          return Param(ks, s[ks..ke], "", rp);
        } else if (first && c == '/' && ke != ks) || (!expectEq && IsToken(c)) {
          rp := rp + 1;
          ke := rp;
        } else {
          return NoParam;
        }
      } else if inQuote {
        if s[rp - 1] == '\\' {
          escaped := true;
        } else if c == '"' {
          return Param(ks, s[ks..ke], Text(s, vs, rp, escaped), rp + 1);
        } else if IsLineEnd(c) {
          return NoParam;
        }
        rp := rp + 1;
      } else if c == '"' && vs == rp {
        inQuote, vs, ve, rp := true, rp + 1, rp + 1, rp + 1;
      } else if c == ';' || IsSpace(c) {
        return Param(ks, s[ks..ke], s[vs..rp], rp + 1);
      } else if IsLineEnd(c) {
        return Param(ks, s[ks..ke], s[vs..rp], rp);
      } else if IsValueToken(c) {
        rp := rp + 1;
        ve := rp;
      } else {
        return NoParam;
      }
    }
    if ve == 0 {
      return NoParam;
    }
    return Param(ks, s[ks..ke], Text(s, vs, ve, escaped), rp);
  }

  method ParseNextParameter(s: string, rp: nat) returns (p: Param)
    ensures p == NextParam(s, rp)
  {
    if rp < |s| && s[rp] == ':' {
      p := ParseNextParameter2(s, true, rp + 1);
    } else {
      p := ParseNextParameter2(s, false, rp);
    }
  }

  // ------------------------------------------------------------------ reading what was written

  /** The text t stands in the buffer at a position. */
  predicate At(s: string, p: nat, t: string) {
    p + |t| <= |s| && s[p..p + |t|] == t
  }

  /** At(s, p, t), in a form that the verifier does not unfold by itself. */
  ghost predicate Has(s: string, p: nat, t: string) {
    p + |t| <= |s| && forall u: string :: Peek(u) && u == s ==> u[p..p + |t|] == t
  }

  lemma HasIsAt(s: string, p: nat, t: string)
    ensures Has(s, p, t) <==> At(s, p, t)
  {
    assert Peek(s);
  }

  lemma HasJoin(s: string, p: nat, a: string, b: string)
    ensures Has(s, p, a + b) <==> Has(s, p, a) && Has(s, p + |a|, b)
  {
    HasIsAt(s, p, a + b);
    HasIsAt(s, p, a);
    HasIsAt(s, p + |a|, b);
    AtJoin(s, p, a, b);
  }

  lemma AtJoin(s: string, p: nat, a: string, b: string)
    ensures At(s, p, a + b) <==> At(s, p, a) && At(s, p + |a|, b)
  {
    if At(s, p, a + b) {
      assert s[p..p + |a|] == s[p..p + |a + b|][..|a|] == a;
      assert s[p + |a|..p + |a| + |b|] == s[p..p + |a + b|][|a|..] == b;
    }
    if At(s, p, a) && At(s, p + |a|, b) {
      assert s[p..p + |a + b|] == s[p..p + |a|] + s[p + |a|..p + |a| + |b|];
    }
  }

  lemma HasIndex(s: string, p: nat, t: string, i: nat)
    requires Has(s, p, t) && i < |t|
    ensures s[p + i] == t[i]
  {
    HasIsAt(s, p, t);
    assert s[p..p + |t|][i] == t[i];
  }

  predicate IsWord(c: char) {
    IsToken(c) && !IsSpace(c)
  }

  /** What the scanner takes in a word: a `tchar` of section 5.6.2 of RFC 9110, a brace, or a byte above 126. */
  predicate KeyChar(c: char) {
    TokenChar(c) || c == '{' || c == '}' || c as int > 126
  }

  lemma WordIff(c: char)
    ensures IsWord(c) <==> KeyChar(c)
  {
  }

  /** Keys: non-empty words. */
  predicate GoodKey(k: string) {
    k != "" && forall c :: c in k ==> KeyChar(c)
  }

  /** Quoted values: no backslash, no line end, and no NUL together with a quote. */
  predicate GoodQuoted(v: string) {
    '\\' !in v && '\r' !in v && '\n' !in v && ('"' in v ==> '\0' !in v)
  }

  /** A value as it is written between quotes: a quote gets a backslash. */
  function Escaped(v: string): string {
    if v == "" then "" else (if v[0] == '"' then "\\\"" else [v[0]]) + Escaped(v[1..])
  }

  /** Bare values. */
  predicate GoodBare(v: string) {
    forall c :: c in v ==> KeyChar(c) || c == ','
  }

  lemma {:induction false} KeyRun(s: string, ks: nat, ke: nat, rp: nat, end: nat)
    requires ks <= ke <= rp < end <= |s| && forall i :: rp <= i < end ==> IsWord(s[i])
    ensures Key(s, ks, ke, rp, false) == Key(s, ks, end, end, false)
    decreases end - rp
  {
    if rp + 1 < end {
      KeyRun(s, ks, rp + 1, rp + 1, end);
    }
  }

  /** Media types hold a slash behind their first character. */
  lemma {:induction false} FirstKeyRun(s: string, ks: nat, ke: nat, rp: nat, end: nat)
    requires ks <= ke <= rp < end <= |s| && forall i :: rp <= i < end ==> IsWord(s[i]) || s[i] == '/'
    requires ks < ke || IsWord(s[rp])
    ensures FirstKey(s, ks, ke, rp) == FirstKey(s, ks, end, end)
    decreases end - rp
  {
    if rp + 1 < end {
      FirstKeyRun(s, ks, rp + 1, rp + 1, end);
    }
  }

  lemma {:induction false} QuotedRun(s: string, ks: nat, ke: nat, vs: nat, rp: nat, end: nat, escaped: bool)
    requires ks <= ke <= rp <= end <= |s| && 0 < vs <= rp && s[end - 1] != '\\'
    requires forall i :: rp <= i < end ==> !IsLineEnd(s[i]) && (s[i] == '"' ==> s[i - 1] == '\\')
    ensures Quoted(s, ks, ke, vs, rp, escaped) == Quoted(s, ks, ke, vs, end, escaped || '\\' in s[rp - 1..end])
    decreases end - rp
  {
    if rp < end {
      assert s[rp - 1..end] == [s[rp - 1]] + s[rp..end];
      QuotedRun(s, ks, ke, vs, rp + 1, end, escaped || s[rp - 1] == '\\');
    } else {
      assert s[rp - 1..end] == [s[end - 1]];
    }
  }

  lemma {:induction false} UnescapeEscaped(v: string)
    requires '\\' !in v && '\0' !in v
    ensures Unescape(Escaped(v)) == v
  {
    if v != "" {
      var t := Escaped(v[1..]);
      UnescapeEscaped(v[1..]);
      assert v == [v[0]] + v[1..];
      if v[0] == '"' {
        assert Escaped(v)[2..] == t;
      } else {
        assert Escaped(v)[1..] == t;
      }
    }
  }

  lemma {:induction false} EscapedPlain(v: string)
    requires '"' !in v
    ensures Escaped(v) == v
  {
    if v != "" {
      EscapedPlain(v[1..]);
      assert v == [v[0]] + v[1..];
    }
  }

  /** Backslashes are written for quotes and for nothing else. */
  lemma {:induction false} EscapedMarks(v: string)
    requires GoodQuoted(v)
    ensures var t := Escaped(v);
      && ('\\' in t <==> '"' in v) && (t != "" ==> t[|t| - 1] != '\\' && t[0] != '"')
      && forall i :: 0 <= i < |t| ==> !IsLineEnd(t[i]) && (t[i] == '"' ==> i > 0 && t[i - 1] == '\\')
  {
    if v != "" {
      var t, u, x := Escaped(v), Escaped(v[1..]), if v[0] == '"' then "\\\"" else [v[0]];
      EscapedMarks(v[1..]);
      assert t == x + u && v[0] in v;
      forall i | 0 <= i < |t|
        ensures !IsLineEnd(t[i]) && (t[i] == '"' ==> i > 0 && t[i - 1] == '\\')
      {
        if i >= |x| {
          assert t[i] == u[i - |x|];
        }
      }
    }
  }

  lemma {:induction false} ValueRun(s: string, ks: nat, ke: nat, vs: nat, rp: nat, end: nat)
    requires ks <= ke <= rp <= end <= |s| && 0 < vs <= rp
    requires forall i :: rp <= i < end ==> IsWord(s[i]) || s[i] == ','
    ensures Value(s, ks, ke, vs, rp) == Value(s, ks, ke, vs, end)
    decreases end - rp
  {
    if rp < end {
      ValueRun(s, ks, ke, vs, rp + 1, end);
    }
  }

  lemma WordsAt(s: string, p: nat, key: string)
    requires GoodKey(key) && Has(s, p, key)
    ensures forall i :: p <= i < p + |key| ==> IsWord(s[i])
  {
    forall i | p <= i < p + |key|
      ensures IsWord(s[i])
    {
      HasIndex(s, p, key, i - p);
      WordIff(s[i]);
    }
  }

  lemma KeyEnds(s: string, p: nat, e: nat)
    requires p + 1 < e < |s| && s[p] == ' ' && s[e] == '=' && forall i :: p + 1 <= i < e ==> IsWord(s[i])
    ensures NextParam(s, p) == Value(s, p + 1, e, e + 1, e + 1)
  {
    KeyRun(s, p + 1, p + 1, p + 1, e);
    assert Key(s, p + 1, e, e, false) == Value(s, p + 1, e, e + 1, e + 1);
    assert Key(s, p, p, p, false) == Key(s, p + 1, p + 1, p + 1, false);
  }

  lemma KeyPieces(s: string, p: nat, key: string, e: nat)
    requires Has(s, p, " " + key + "=") && e == p + 1 + |key|
    ensures e < |s| && s[p] == ' ' && Has(s, p + 1, key) && s[e] == '='
  {
    HasJoin(s, p, " " + key, "=");
    HasJoin(s, p, " ", key);
    HasIndex(s, p, " ", 0);
    HasIndex(s, e, "=", 0);
  }

  /** A key behind a space, up to its equals sign at e. */
  lemma KeyFound(s: string, p: nat, key: string, e: nat)
    requires GoodKey(key) && Has(s, p, " " + key + "=") && e == p + 1 + |key|
    ensures e < |s| && NextParam(s, p) == Value(s, p + 1, e, e + 1, e + 1) && s[p + 1..e] == key
  {
    KeyPieces(s, p, key, e);
    KeyUpTo(s, p, key, e);
  }

  lemma KeyUpTo(s: string, p: nat, key: string, e: nat)
    requires GoodKey(key) && Has(s, p + 1, key) && e == p + 1 + |key| < |s| && s[p] == ' ' && s[e] == '='
    ensures NextParam(s, p) == Value(s, p + 1, e, e + 1, e + 1) && s[p + 1..e] == key
  {
    HasIsAt(s, p + 1, key);
    WordsAt(s, p + 1, key);
    KeyEnds(s, p, e);
  }

  function QuotedForm(key: string, val: string): string {
    " " + key + "=" + ("\"" + Escaped(val) + "\"")
  }

  lemma TextMarks(s: string, vs: nat, text: string, end: nat)
    requires 0 < vs && Has(s, vs, text) && end == vs + |text| && s[vs - 1] == '"'
    requires text != "" ==> text[|text| - 1] != '\\' && text[0] != '"'
    requires forall i :: 0 <= i < |text| ==> !IsLineEnd(text[i]) && (text[i] == '"' ==> i > 0 && text[i - 1] == '\\')
    ensures s[vs..end] == text && s[end - 1] != '\\' && ('\\' in s[vs - 1..end] <==> '\\' in text)
    ensures forall i :: vs <= i < end ==> !IsLineEnd(s[i]) && (s[i] == '"' ==> s[i - 1] == '\\')
  {
    HasIsAt(s, vs, text);
    assert s[vs - 1..end] == ['"'] + text;
    forall i | vs <= i < end
      ensures s[i] == text[i - vs]
    {
      HasIndex(s, vs, text, i - vs);
    }
  }

  lemma TextOfEscaped(s: string, vs: nat, val: string, end: nat)
    requires GoodQuoted(val) && vs <= end <= |s| && s[vs..end] == Escaped(val)
    ensures Text(s, vs, end, '"' in val) == val
  {
    if '"' in val {
      UnescapeEscaped(val);
    } else {
      EscapedPlain(val);
    }
  }

  /** The text between quotes, found at its closing quote. */
  lemma QuotedText(s: string, ks: nat, ke: nat, vs: nat, val: string, text: string, end: nat)
    requires ks <= ke <= vs && 0 < vs && GoodQuoted(val) && text == Escaped(val)
    requires Has(s, vs, text) && end == vs + |text| < |s| && s[end] == '"' && s[vs - 1] == '"'
    ensures Quoted(s, ks, ke, vs, vs, false) == Param(ks, s[ks..ke], val, end + 1)
  {
    EscapedMarks(val);
    TextMarks(s, vs, text, end);
    QuotedRun(s, ks, ke, vs, vs, end, false);
    TextOfEscaped(s, vs, val, end);
  }

  lemma QuotedValue(s: string, ks: nat, ke: nat, vs: nat, val: string)
    requires ks <= ke <= vs && 0 < vs && GoodQuoted(val) && Has(s, vs, "\"" + Escaped(val) + "\"")
    ensures Value(s, ks, ke, vs, vs) == Param(ks, s[ks..ke], val, vs + 2 + |Escaped(val)|)
  {
    var text := Escaped(val);
    HasJoin(s, vs, "\"" + text, "\"");
    HasJoin(s, vs, "\"", text);
    HasIndex(s, vs, "\"", 0);
    var end := vs + 1 + |text|;
    HasIndex(s, end, "\"", 0);
    QuotedText(s, ks, ke, vs + 1, val, text, end);
  }

  lemma QuotedParam(s: string, p: nat, key: string, val: string)
    requires GoodKey(key) && GoodQuoted(val) && Has(s, p, QuotedForm(key, val))
    ensures NextParam(s, p) == Param(p + 1, key, val, p + |QuotedForm(key, val)|)
  {
    HasJoin(s, p, " " + key + "=", "\"" + Escaped(val) + "\"");
    KeyFound(s, p, key, p + 1 + |key|);
    QuotedValue(s, p + 1, p + 1 + |key|, p + 2 + |key|, val);
  }

  /** What ends a bare value: a semicolon or a blank, which are passed, or the end of the line, which is not. */
  predicate EndsBare(c: char) {
    c == ';' || c == ' ' || c == '\t' || c == '\r' || c == '\n'
  }

  function BehindBare(c: char, e: nat): nat {
    if c == '\r' || c == '\n' then e else e + 1
  }

  function BareForm(key: string, val: string): string {
    " " + key + "=" + val
  }

  lemma BareParam(s: string, p: nat, key: string, val: string)
    requires GoodKey(key) && GoodBare(val) && Has(s, p, BareForm(key, val))
    requires var e := p + |BareForm(key, val)|; e < |s| && EndsBare(s[e])
    ensures var e := p + |BareForm(key, val)|; NextParam(s, p) == Param(p + 1, key, val, BehindBare(s[e], e))
  {
    HasJoin(s, p, " " + key + "=", val);
    KeyFound(s, p, key, p + 1 + |key|);
    BareValue(s, p + 1, p + 1 + |key|, p + 2 + |key|, val, p + |BareForm(key, val)|);
  }

  lemma BareValue(s: string, ks: nat, ke: nat, vs: nat, val: string, e: nat)
    requires ks <= ke <= vs && 0 < vs && GoodBare(val) && Has(s, vs, val)
    requires e == vs + |val| < |s| && EndsBare(s[e])
    ensures Value(s, ks, ke, vs, vs) == Param(ks, s[ks..ke], val, BehindBare(s[e], e))
  {
    forall i | vs <= i < e
      ensures IsWord(s[i]) || s[i] == ','
    {
      HasIndex(s, vs, val, i - vs);
      WordIff(s[i]);
    }
    HasIsAt(s, vs, val);
    ValueRun(s, ks, ke, vs, vs, e);
  }

  /** The value of a header, up to a semicolon or the end of the line. */
  lemma HeaderValue(s: string, p: nat, v: string)
    requires v != "" && KeyChar(v[0]) && (forall c :: c in v ==> KeyChar(c) || c == '/') && Has(s, p, ": " + v)
    requires var e := p + 2 + |v|; e < |s| && (s[e] == ';' || s[e] == '\r' || s[e] == '\n')
    ensures var e := p + 2 + |v|; NextParam(s, p) == Param(p + 2, v, "", if s[e] == ';' then e + 1 else e)
  {
    HasJoin(s, p, ": ", v);
    HasIndex(s, p, ": ", 0);
    HasIndex(s, p, ": ", 1);
    ValueAt(s, p + 2, v, p + 2 + |v|);
    assert ParamAt(s, true, p + 1) == FirstKey(s, p + 2, p + 2, p + 2);
  }

  lemma ValueAt(s: string, p: nat, v: string, end: nat)
    requires v != "" && KeyChar(v[0]) && (forall c :: c in v ==> KeyChar(c) || c == '/') && Has(s, p, v)
    requires end == p + |v| < |s| && (s[end] == ';' || s[end] == '\r' || s[end] == '\n')
    ensures FirstKey(s, p, p, p) == Param(p, v, "", if s[end] == ';' then end + 1 else end)
  {
    forall i | p <= i < end
      ensures IsWord(s[i]) || s[i] == '/'
    {
      HasIndex(s, p, v, i - p);
      WordIff(s[i]);
    }
    HasIndex(s, p, v, 0);
    WordIff(v[0]);
    HasIsAt(s, p, v);
    FirstKeyRun(s, p, p, p, end);
  }

  // ------------------------------------------------------------------ the same, kept folded

  /** NextParam(s, rp) == p, in a form that the verifier does not unfold by itself. */
  ghost predicate Finds(s: string, rp: nat, p: Param) {
    forall t: string :: Peek(t) && t == s ==> NextParam(t, rp) == p
  }

  lemma FindsOpen(s: string, rp: nat, p: Param)
    requires Finds(s, rp, p)
    ensures NextParam(s, rp) == p && (p.Param? ==> rp < p.next <= |s|)
  {
    assert Peek(s);
  }

  lemma FindsQuoted(s: string, p: nat, key: string, val: string)
    requires GoodKey(key) && GoodQuoted(val) && Has(s, p, QuotedForm(key, val))
    ensures Finds(s, p, Param(p + 1, key, val, p + |QuotedForm(key, val)|))
  {
    QuotedParam(s, p, key, val);
  }

  lemma FindsBare(s: string, p: nat, key: string, val: string, e: nat)
    requires GoodKey(key) && GoodBare(val) && Has(s, p, BareForm(key, val)) && e == p + |BareForm(key, val)|
    requires e < |s| && EndsBare(s[e])
    ensures Finds(s, p, Param(p + 1, key, val, BehindBare(s[e], e)))
  {
    BareParam(s, p, key, val);
  }

  lemma FindsValue(s: string, p: nat, v: string, e: nat)
    requires v != "" && KeyChar(v[0]) && (forall c :: c in v ==> KeyChar(c) || c == '/') && Has(s, p, ": " + v)
    requires e == p + 2 + |v| < |s| && (s[e] == ';' || s[e] == '\r')
    ensures Finds(s, p, Param(p + 2, v, "", if s[e] == ';' then e + 1 else e))
  {
    HeaderValue(s, p, v);
  }

  /** A semicolon behind a quoted parameter is found as an empty parameter of its own. */
  lemma FindsSeparator(s: string, p: nat)
    requires p < |s| && s[p] == ';'
    ensures Finds(s, p, Param(p, "", "", p + 1))
  {
    assert s[p..p] == "";
  }

  lemma FindsLineEnd(s: string, p: nat)
    requires p < |s| && s[p] == '\r'
    ensures Finds(s, p, NoParam)
  {
  }
}
