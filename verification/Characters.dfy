/** The characters and digits of the standards, listed without reference to the tokeniser's tables, and what
    the tables make of them. */
module Characters {
  import opened HttpTables

  // ------------------------------------------------------------------ the sets of the standards

  predicate Letter(c: char) {
    'a' <= c <= 'z' || 'A' <= c <= 'Z'
  }

  /** A `tchar` of section 5.6.2 of RFC 9110. */
  predicate TokenChar(c: char) {
    || Letter(c) || '0' <= c <= '9'
    || c == '!' || c == '#' || c == '$' || c == '%' || c == '&' || c == '\'' || c == '*' || c == '+' || c == '-'
    || c == '.' || c == '^' || c == '_' || c == '`' || c == '|' || c == '~'
  }

  /** What the tokeniser takes in a method or a header name: a `tchar`, or a comma. */
  predicate NameChar(c: char) {
    TokenChar(c) || c == ','
  }

  /** A `VCHAR` of appendix B.1 of RFC 5234. */
  predicate VisibleChar(c: char) {
    '!' <= c <= '~'
  }

  /** What may stand in a header value, section 5.5 of RFC 9110 without the bytes above 127. */
  predicate FieldChar(c: char) {
    VisibleChar(c) || c == ' ' || c == '\t'
  }

  const DIGITS := "0123456789"
  const HEX_LOWER := "0123456789abcdef"
  const HEX_UPPER := "0123456789ABCDEF"
  const LETTERS_LOWER := "abcdefghijklmnopqrstuvwxyz"
  const LETTERS_UPPER := "ABCDEFGHIJKLMNOPQRSTUVWXYZ"

  /** `c` is the digit for `d` in base 10, or in base 16 with letters of either case. */
  predicate DigitFor(c: char, d: nat, base: nat)
    requires (base == 10 || base == 16) && d < base
  {
    if base == 10 then c == DIGITS[d] else c == HEX_LOWER[d] || c == HEX_UPPER[d]
  }

  /** `text` writes the number `n` in the base: its last digit is for the remainder, the digits in front of it
      write the quotient.  Zeros may stand in front. */
  predicate Spells(text: string, n: nat, base: nat)
    requires base == 10 || base == 16
    decreases |text|
  {
    if text == "" then n == 0
    else
      var k := |text| - 1;
      DigitFor(text[k], n % base, base) && Spells(text[..k], n / base, base)
  }

  // ------------------------------------------------------------------ the character classes

  /** The classes of the tokeniser are the sets of the standards: names are tokens, with the comma
      besides, and the rest of the visible characters are in a class of their own. */
  lemma ClassesAreSets(c: char)
    ensures Word(CType(c)) <==> NameChar(c)
    ensures Visible(CType(c)) <==> VisibleChar(c) && c != ':' && c != ';'
    ensures CType(c) == C_DIGIT <==> '0' <= c <= '9'
    ensures CType(c) != C_NL && CType(c) != C_CR && CType(c) != C_ETC <==> FieldChar(c)
    ensures IsDigit(c) <==> c in DIGITS
    ensures IsHex(c) <==> c in HEX_LOWER || c in HEX_UPPER
  {
    DigitsListed(c);
  }

  lemma DigitsListed(c: char)
    ensures IsDigit(c) <==> c in DIGITS
    ensures IsHex(c) <==> c in HEX_LOWER || c in HEX_UPPER
  {
    if IsHex(c) {
      var k := HexVal(c);
      assert HEX_LOWER[k] == c || HEX_UPPER[k] == c;
    }
    if IsDigit(c) {
      assert DIGITS[DigitVal(c)] == c;
    }
  }

  // ------------------------------------------------------------------ the state table

  /** The bytes that section 3 and section 7.1 of RFC 9112 let follow in each state outside a body, as far as
      the tokeniser follows them. */
  predicate Allowed(s: State, c: char)
    requires s != BR
  {
    if s == ST then NameChar(c) && !('0' <= c <= '9')
    else if s == MT then NameChar(c) || c == ' '
    else if s == MS || s == TS then VisibleChar(c) && c != ':' && c != ';'
    else if s == TR then VisibleChar(c) || c == ' '
    else if s == VN then (VisibleChar(c) && c != ':' && c != ';') || c == '\r'
    else if s == RN then NameChar(c)
    else if s == HK then NameChar(c) || c == ':'
    else if s == HS then FieldChar(c) || c == '\r' || c == '\n'
    else if s == HV then FieldChar(c) || c == '\r'
    else if s == HE then NameChar(c) || c == '\r'
    else if s == RR || s == HR || s == ER || s == CR || s == C1 then c == '\n'
    else if s == CD then c == '\r'
    else if s == CS then c in HEX_LOWER || c in HEX_UPPER || c == ';' || c == '\r'
    else if s == C2 then c in HEX_LOWER || c in HEX_UPPER
    else if s == CE then VisibleChar(c) || c == '\t' || c == '\r'
    else true
  }

  /** The state table refuses exactly the bytes that are not allowed where they stand. */
  lemma RefusesOthers(s: State, c: char)
    requires s != BR
    ensures Next(s, CType(c)) == BR <==> !Allowed(s, c)
  {
    ClassesAreSets(c);
  }

  // ------------------------------------------------------------------ digits and letters

  /** A digit stands for its place in the list of digits, whichever the case of its letter. */
  lemma DigitPlaces(k: nat)
    requires k < 16
    ensures IsHex(HEX_LOWER[k]) && IsHex(HEX_UPPER[k])
    ensures HexVal(HEX_LOWER[k]) == HexVal(HEX_UPPER[k]) == k
    ensures k < 10 ==> IsDigit(DIGITS[k]) && DigitVal(DIGITS[k]) == k
  {
    assert k == 0 || k == 1 || k == 2 || k == 3 || k == 4 || k == 5 || k == 6 || k == 7
      || k == 8 || k == 9 || k == 10 || k == 11 || k == 12 || k == 13 || k == 14 || k == 15;
  }

  lemma DigitForIff(c: char, d: nat)
    requires d < 16
    ensures DigitFor(c, d, 16) <==> IsHex(c) && HexVal(c) == d
    ensures d < 10 ==> (DigitFor(c, d, 10) <==> IsDigit(c) && DigitVal(c) == d)
  {
    DigitPlaces(d);
    if IsHex(c) {
      HexPlace(c);
    }
  }

  lemma HexPlace(c: char)
    requires IsHex(c)
    ensures HexVal(c) < 16 && (c == HEX_LOWER[HexVal(c)] || c == HEX_UPPER[HexVal(c)])
    ensures IsDigit(c) ==> c == DIGITS[DigitVal(c)]
  {
  }

  /** Letter case is taken away from the letters, and from nothing else. */
  lemma LetterPlaces(c: char)
    ensures forall k :: 0 <= k < 26 ==> Lower(LETTERS_UPPER[k]) == LETTERS_LOWER[k]
    ensures c !in LETTERS_UPPER ==> Lower(c) == c
  {
    if 'A' <= c <= 'Z' {
      assert LETTERS_UPPER[c as int - 65] == c;
    }
  }
}
