/** The constant tables of the HTTP request tokeniser: character classes, the character-level
    state machine, the "meta" machine that decides how the body is framed, and the token kind
    that each state opens.  The enumerations are small integers, as they are in C.
    A C `char` is a Dafny `char`; every value above 127 has class `C_ETC`. */
module HttpTables {

  type CharType = x: int | 0 <= x < 12
  const C_SPC: CharType := 0
  const C_NL: CharType := 1
  const C_CR: CharType := 2
  const C_COLN: CharType := 3
  const C_TAB: CharType := 4
  const C_SCOLN: CharType := 5
  const C_DIGIT: CharType := 6
  const C_HEX: CharType := 7
  const C_ALPHA: CharType := 8
  const C_TCHAR: CharType := 9
  const C_VCHAR: CharType := 10
  const C_ETC: CharType := 11

  /** Character-level states.  `BR` has no row in the table. */
  type State = x: int | 0 <= x < 25
  const ST: State := 0
  const MT: State := 1
  const MS: State := 2
  const TR: State := 3
  const TS: State := 4
  const VN: State := 5
  const RR: State := 6
  const RN: State := 7
  const HK: State := 8
  const HS: State := 9
  const HV: State := 10
  const HR: State := 11
  const HE: State := 12
  const ER: State := 13
  const HN: State := 14
  const BD: State := 15
  const CS: State := 16
  const CB: State := 17
  const CE: State := 18
  const CR: State := 19
  const CN: State := 20
  const CD: State := 21
  const C1: State := 22
  const C2: State := 23
  const BR: State := 24

  /** Meta states.  `M_ERR` has no row in the table. */
  type Meta = x: int | 0 <= x < 18
  const M_WFK: Meta := 0
  const M_ANY: Meta := 1
  const M_MTE: Meta := 2
  const M_MCL: Meta := 3
  const M_CLV: Meta := 4
  const M_MCK: Meta := 5
  const M_SML: Meta := 6
  const M_CHK: Meta := 7
  const M_BIG: Meta := 8
  const M_ZER: Meta := 9
  const M_CSZ: Meta := 10
  const M_CBD: Meta := 11
  const M_LST: Meta := 12
  const M_STR: Meta := 13
  const M_SEN: Meta := 14
  const M_BDY: Meta := 15
  const M_END: Meta := 16
  const M_ERR: Meta := 17

  /** Columns of the meta table; several events share a column. */
  type Event = x: int | 0 <= x < 6
  const NOT_CONTENT_LEN: Event := 0
  const NOT_CHUNKED: Event := 0
  const NON_ZERO: Event := 0
  const NEXT: Event := 0
  const NOT_TRANSFER_ENC: Event := 1
  const END_CHK_SIZE: Event := 1
  const END_KEY: Event := 2
  const END_CHUNK: Event := 2
  const END_VALUE: Event := 3
  const END_HEADERS: Event := 4
  const LARGE_BODY: Event := 5

  type TokenKind = x: int | 0 <= x < 12
  const T_NONE: TokenKind := 0
  const T_METHOD: TokenKind := 1
  const T_TARGET: TokenKind := 2
  const T_VERSION: TokenKind := 3
  const T_HEADER_KEY: TokenKind := 4
  const T_HEADER_VAL: TokenKind := 5
  const T_CHUNK_BODY: TokenKind := 6
  const T_BODY: TokenKind := 7
  const T_BODY_STREAM: TokenKind := 8
  const T_REQ_END: TokenKind := 9
  const T_EOF: TokenKind := 10
  const T_ERROR: TokenKind := 11

  predicate IsDigit(c: char) {
    '0' <= c <= '9'
  }

  predicate IsHex(c: char) {
    IsDigit(c) || 'A' <= c <= 'F' || 'a' <= c <= 'f'
  }

  function CType(c: char): CharType {
    if c == ' ' then C_SPC
    else if c == '\n' then C_NL
    else if c == '\r' then C_CR
    else if c == '\t' then C_TAB
    else if c == ':' then C_COLN
    else if c == ';' then C_SCOLN
    else if IsDigit(c) then C_DIGIT
    else if IsHex(c) then C_HEX
    else if 'G' <= c <= 'Z' || 'g' <= c <= 'z' then C_ALPHA
    else if c == '!' || '#' <= c <= '\'' || '*' <= c <= '.' || '^' <= c <= '`' || c == '|' || c == '~' then C_TCHAR
    else if '"' <= c <= ')' || c == '/' || '<' <= c <= '@' || '[' <= c <= ']' || c == '{' || c == '}' then C_VCHAR
    else C_ETC
  }

  function DigitVal(c: char): nat
    requires IsDigit(c)
  {
    c as int - '0' as int
  }

  /** The value the chunk-size state adds for one hexadecimal digit. */
  function HexVal(c: char): nat
    requires IsHex(c)
  {
    if IsDigit(c) then c as int - '0' as int
    else if 'A' <= c <= 'F' then c as int - 55
    else c as int - 87
  }

  /** Digits, letters and token characters: the four columns that continue a name. */
  predicate Word(t: CharType) {
    C_DIGIT <= t <= C_TCHAR
  }

  /** `Word` and the remaining visible characters other than colon and semicolon. */
  predicate Visible(t: CharType) {
    C_DIGIT <= t <= C_VCHAR
  }

  /** The character-level table, row by row. */
  function Next(s: State, t: CharType): State
    requires s != BR
  {
    if s == ST then (if Word(t) && t != C_DIGIT then MT else BR)
    else if s == MT then (if t == C_SPC then MS else if Word(t) then MT else BR)
    else if s == MS then (if Visible(t) then TR else BR)
    else if s == TR then (if t == C_SPC then TS else if Visible(t) || t == C_COLN || t == C_SCOLN then TR else BR)
    else if s == TS then (if Visible(t) then VN else BR)
    else if s == VN then (if t == C_CR then RR else if Visible(t) then VN else BR)
    else if s == RR then (if t == C_NL then RN else BR)
    else if s == RN then (if Word(t) then HK else BR)
    else if s == HK then (if t == C_COLN then HS else if Word(t) then HK else BR)
    else if s == HS then
      (if t == C_SPC || t == C_NL || t == C_CR || t == C_TAB then HS else if t == C_ETC then BR else HV)
    else if s == HV then (if t == C_CR then HR else if t == C_NL || t == C_ETC then BR else HV)
    else if s == HR then (if t == C_NL then HE else BR)
    else if s == HE then (if t == C_CR then ER else if Word(t) then HK else BR)
    else if s == ER then (if t == C_NL then HN else BR)
    else if s == HN || s == BD then BD
    else if s == CS then
      (if t == C_CR then CR else if t == C_SCOLN then CE else if t == C_DIGIT || t == C_HEX then CS else BR)
    else if s == CB || s == CN then CB
    else if s == CE then (if t == C_CR then CR else if t == C_SPC || t == C_NL || t == C_ETC then BR else CE)
    else if s == CR then (if t == C_NL then CN else BR)
    else if s == CD then (if t == C_CR then C1 else BR)
    else if s == C1 then (if t == C_NL then C2 else BR)
    else if t == C_DIGIT || t == C_HEX then CS else BR
  }

  /** One row of the meta table. */
  function Row(a: Meta, b: Meta, c: Meta, d: Meta, e: Meta, f: Meta, ev: Event): Meta {
    if ev == 0 then a else if ev == 1 then b else if ev == 2 then c
    else if ev == 3 then d else if ev == 4 then e else f
  }

  /** The meta table, row by row. */
  function MetaNext(m: Meta, e: Event): Meta
    requires m != M_ERR
  {
    if m == M_WFK then Row(M_WFK, M_WFK, M_WFK, M_ANY, M_END, M_ERR, e)
    else if m == M_ANY then Row(M_MTE, M_MCL, M_WFK, M_ERR, M_END, M_ERR, e)
    else if m == M_MTE then Row(M_MTE, M_WFK, M_MCK, M_ERR, M_ERR, M_ERR, e)
    else if m == M_MCL then Row(M_WFK, M_MCL, M_CLV, M_ERR, M_ERR, M_ERR, e)
    else if m == M_CLV then Row(M_ERR, M_ERR, M_ERR, M_SML, M_ERR, M_ERR, e)
    else if m == M_MCK then Row(M_WFK, M_ERR, M_ERR, M_CHK, M_ERR, M_ERR, e)
    else if m == M_SML then Row(M_SML, M_SML, M_SML, M_SML, M_BDY, M_BIG, e)
    else if m == M_CHK then Row(M_CHK, M_CHK, M_CHK, M_CHK, M_ZER, M_ERR, e)
    else if m == M_BIG then Row(M_BIG, M_BIG, M_BIG, M_BIG, M_STR, M_ERR, e)
    else if m == M_ZER then Row(M_CSZ, M_LST, M_ERR, M_ERR, M_ERR, M_ERR, e)
    else if m == M_CSZ then Row(M_CSZ, M_CBD, M_ERR, M_ERR, M_ERR, M_ERR, e)
    else if m == M_CBD then Row(M_CBD, M_CBD, M_ZER, M_ERR, M_ERR, M_ERR, e)
    else if m == M_LST then Row(M_LST, M_END, M_END, M_ERR, M_ERR, M_ERR, e)
    else if m == M_STR then Row(M_SEN, M_ERR, M_ERR, M_ERR, M_ERR, M_ERR, e)
    else if m == M_SEN then Row(M_END, M_ERR, M_ERR, M_ERR, M_ERR, M_ERR, e)
    else if m == M_BDY then Row(M_END, M_ERR, M_ERR, M_ERR, M_ERR, M_ERR, e)
    else Row(M_WFK, M_ERR, M_ERR, M_ERR, M_ERR, M_ERR, e)
  }

  /** The kind of token a state opens when it is entered from another state. */
  function StartToken(s: State): TokenKind {
    if s == MT then T_METHOD
    else if s == TR then T_TARGET
    else if s == VN then T_VERSION
    else if s == HK then T_HEADER_KEY
    else if s == HV then T_HEADER_VAL
    else if s == BD then T_BODY
    else if s == CB then T_CHUNK_BODY
    else T_NONE
  }

  const TRANSFER_ENCODING := "transfer-encoding"
  const CONTENT_LENGTH := "content-length"
  const CHUNKED := "chunked"

  function Lower(c: char): char {
    if 'A' <= c <= 'Z' then (c as int + 32) as char else c
  }

  /** What the first key comparison looks at: the byte of "transfer-encoding", or NUL past its end. */
  function TeByte(k: nat): char {
    if k < |TRANSFER_ENCODING| then TRANSFER_ENCODING[k] else '\0'
  }

  /** The second key comparison keeps the first one's byte once "content-length" is exhausted. */
  function ClByte(k: nat): char {
    if k < |CONTENT_LENGTH| then CONTENT_LENGTH[k] else TeByte(k)
  }

  function ChunkedByte(k: nat): char {
    if k < |CHUNKED| then CHUNKED[k] else '\0'
  }
}
