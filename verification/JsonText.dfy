/** JSON texts as RFC 8259 defines them: a value tree that also records the
    insignificant whitespace inside it and the spelling of numbers and strings.
    Every text of the grammar is the printed form of some tree, with white space
    before and after it. */
module JsonText {
  import opened Bytes

  const QUOTE: byte := 0x22
  const BACKSLASH: byte := 0x5C
  const OPEN_BRACE: byte := 0x7B
  const CLOSE_BRACE: byte := 0x7D
  const OPEN_BRACKET: byte := 0x5B
  const CLOSE_BRACKET: byte := 0x5D
  const COMMA: byte := 0x2C
  const COLON: byte := 0x3A

  predicate IsWs(b: byte) {
    b == 0x20 || b == 0x09 || b == 0x0A || b == 0x0D
  }

  predicate IsDigit(b: byte) {
    0x30 <= b <= 0x39
  }

  predicate IsHex(b: byte) {
    IsDigit(b) || 0x41 <= b <= 0x46 || 0x61 <= b <= 0x66
  }

  type Ws = s: seq<byte> | forall i :: 0 <= i < |s| ==> IsWs(s[i])
  type Digits = s: seq<byte> | forall i :: 0 <= i < |s| ==> IsDigit(s[i])
  type Digits1 = s: Digits | s != [] witness [0x30]

  // section 6: number = [ minus ] int [ frac ] [ exp ]
  datatype Exponent = NoExponent | Exponent(upper: bool, sign: Sign, digits: Digits1)
  datatype Sign = NoSign | Plus | Minus
  datatype Number = Number(minus: bool, whole: Whole, frac: Digits, exp: Exponent)
  type Whole = s: Digits1 | |s| > 1 ==> s[0] != 0x30 witness [0x30]

  // section 7: the unescaped bytes of UTF-8 text, two-character and \u escapes
  type Unescaped = b: byte | b >= 0x20 && b != QUOTE && b != BACKSLASH witness 0x20
  type Escapable = b: byte
    | b == QUOTE || b == BACKSLASH || b == 0x2F || b == 0x62 || b == 0x66 || b == 0x6E || b == 0x72 || b == 0x74
    witness QUOTE
  type Hex = b: byte | IsHex(b) witness 0x30
  datatype Char =
    | Plain(b: Unescaped)
    | Escaped(c: Escapable)
    | Unicode(h1: Hex, h2: Hex, h3: Hex, h4: Hex)

  // sections 3 to 5
  datatype Value =
    | False | Null | True
    | Num(number: Number)
    | Text(chars: seq<Char>)
    | Array(pad: Ws, elements: Elements)
    | Object(pad: Ws, members: Members)

  datatype Elements =
    | NoElements
    | Element(before: Ws, value: Value, after: Ws, rest: Elements)

  datatype Members =
    | NoMembers
    | Member(before: Ws, name: seq<Char>, nameAfter: Ws, valueBefore: Ws, value: Value, after: Ws, rest: Members)

  function PrintChar(c: Char): seq<byte> {
    match c
    case Plain(b) => [b]
    case Escaped(e) => [BACKSLASH, e]
    case Unicode(h1, h2, h3, h4) => [BACKSLASH, 0x75, h1, h2, h3, h4]
  }

  function PrintChars(cs: seq<Char>): seq<byte> {
    if cs == [] then [] else PrintChar(cs[0]) + PrintChars(cs[1..])
  }

  function PrintString(cs: seq<Char>): seq<byte> {
    [QUOTE] + PrintChars(cs) + [QUOTE]
  }

  function PrintSign(s: Sign): seq<byte> {
    match s
    case NoSign => []
    case Plus => [0x2B]
    case Minus => [0x2D]
  }

  function PrintExponent(e: Exponent): seq<byte> {
    match e
    case NoExponent => []
    case Exponent(upper, sign, digits) => [if upper then 0x45 else 0x65] + PrintSign(sign) + digits
  }

  function PrintNumber(n: Number): seq<byte> {
    (if n.minus then [0x2D] else []) + n.whole
    + (if n.frac == [] then [] else [0x2E] + n.frac) + PrintExponent(n.exp)
  }

  function Print(v: Value): seq<byte> {
    match v
    case False => [0x66, 0x61, 0x6C, 0x73, 0x65]
    case Null => [0x6E, 0x75, 0x6C, 0x6C]
    case True => [0x74, 0x72, 0x75, 0x65]
    case Num(n) => PrintNumber(n)
    case Text(cs) => PrintString(cs)
    case Array(pad, es) =>
      [OPEN_BRACKET] + (if es.NoElements? then pad else PrintElements(es)) + [CLOSE_BRACKET]
    case Object(pad, ms) =>
      [OPEN_BRACE] + (if ms.NoMembers? then pad else PrintMembers(ms)) + [CLOSE_BRACE]
  }

  function PrintElements(es: Elements): seq<byte>
    requires es.Element?
  {
    es.before + Print(es.value) + es.after
    + (if es.rest.NoElements? then [] else [COMMA] + PrintElements(es.rest))
  }

  function PrintMembers(ms: Members): seq<byte>
    requires ms.Member?
  {
    PrintName(ms) + (Print(ms.value) + ms.after)
    + (if ms.rest.NoMembers? then [] else [COMMA] + PrintMembers(ms.rest))
  }

  /** A member up to its value. */
  function PrintName(ms: Members): seq<byte>
    requires ms.Member?
  {
    ms.before + PrintString(ms.name) + (ms.nameAfter + [COLON] + ms.valueBefore)
  }

  /** Does an object occur anywhere in the value? */
  predicate HasObject(v: Value) {
    match v
    case Object(_, _) => true
    case Array(_, es) => ElementsHaveObject(es)
    case _ => false
  }

  predicate ElementsHaveObject(es: Elements) {
    es.Element? && (HasObject(es.value) || ElementsHaveObject(es.rest))
  }

  /** section 2: JSON-text = ws value ws */
  function PrintText(lead: Ws, v: Value, trail: Ws): seq<byte> {
    lead + Print(v) + trail
  }
}
