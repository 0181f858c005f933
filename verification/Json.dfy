/** JSON values as serde_json represents them; numbers are opaque (only compared). */
module Json {
  datatype Option<+T> = None | Some(value: T)

  datatype Value =
    | Null
    | Bool(b: bool)
    | Number(n: int)
    | String(s: string)
    | Array(items: seq<Value>)
    | Object(members: map<string, Value>)

  // The characters of a JSON text (section 7 of RFC 8259)

  predicate IsControl(c: char) {
    c < ' '
  }

  predicate IsDigit(c: char) { '0' <= c <= '9' }

  function HexValue(c: char): Option<nat> {
    if IsDigit(c) then Some((c - '0') as nat)
    else if 'a' <= c <= 'f' then Some((c - 'a') as nat + 10)
    else if 'A' <= c <= 'F' then Some((c - 'A') as nat + 10)
    else None
  }

  function Unescape(c: char): Option<char> {
    match c
    case '"' => Some('"')
    case '\\' => Some('\\')
    case '/' => Some('/')
    case 'n' => Some('\n')
    case 'r' => Some('\r')
    case 't' => Some('\t')
    case 'b' => Some('\U{0008}')
    case 'f' => Some('\U{000C}')
    case _ => None
  }

  /** Four hexadecimal digits. */
  function CodeUnit(raw: string): Option<nat> {
    if |raw| < 4 then None
    else
      match (HexValue(raw[0]), HexValue(raw[1]),
             HexValue(raw[2]), HexValue(raw[3]))
      case (Some(a), Some(b), Some(c), Some(d)) => Some(((a * 16 + b) * 16 + c) * 16 + d)
      case _ => None
  }

  predicate IsScalar(unit: nat) {
    unit < 0xD800 || 0xE000 <= unit <= 0xFFFF
  }

  /** A `\u` escape, its two characters left out: the character, and how many characters it
      takes; a pair of surrogates makes one character. */
  function UnicodeEscape(raw: string): Option<(char, nat)> {
    match CodeUnit(raw)
    case None => None
    case Some(unit) =>
      if IsScalar(unit) then Some((unit as char, 4))
      else if unit < 0xDC00 && |raw| >= 10 && raw[4] == '\\' && raw[5] == 'u' then
        match CodeUnit(raw[6..])
        case Some(low) =>
          if 0xDC00 <= low <= 0xDFFF then Some((((unit - 0xD800) * 0x400 + (low - 0xDC00) + 0x10000) as char, 10)) else None
        case None => None
      else None
  }

  /** The string that the text between two quotes stands for, if it is a JSON string. */
  function JsonString(raw: string): Option<string> {
    if raw == "" then Some("")
    else if raw[0] == '\\' then
      if |raw| < 2 then None
      else if raw[1] == 'u' then
        match UnicodeEscape(raw[2..])
        case Some((c, n)) => if n <= |raw| - 2 then Prepend(c, JsonString(raw[2 + n..])) else None
        case None => None
      else if Unescape(raw[1]).Some? then
        Prepend(Unescape(raw[1]).value, JsonString(raw[2..]))
      else None
    else if raw[0] == '"' || IsControl(raw[0]) then None
    else Prepend(raw[0], JsonString(raw[1..]))
  }

  function Prepend(c: char, rest: Option<string>): Option<string> {
    if rest.Some? then Some([c] + rest.value) else None
  }
}
