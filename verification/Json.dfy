/** JSON text as Python's json module writes and reads it (RFC 8259): values, the ASCII-only printer,
    and the decoder. */
module Json {
  import opened Options
  import opened CodePoints

  const QUOTE: CodePoint := 34
  const BACKSLASH: CodePoint := 92
  const OPEN: CodePoint := 123
  const CLOSE: CodePoint := 125
  const BRACKET: CodePoint := 91
  const UNBRACKET: CodePoint := 93

  /** The separators between members and inside them. */
  const COMMA: Text := [44, 32]
  const COLON: Text := [58, 32]

  type Digit = d: int | 0 <= d <= 9

  datatype Exponent = Exponent(upper: bool, sign: Option<bool>, digits: seq<Digit>)

  /** A number as written; `sign` is `Some(true)` for a minus. */
  datatype Number = Number(negative: bool, whole: seq<Digit>, frac: Option<seq<Digit>>, exp: Option<Exponent>) {
    predicate Valid() {
      && whole != [] && (whole[0] == 0 ==> |whole| == 1)
      && (frac.Some? ==> frac.value != [])
      && (exp.Some? ==> exp.value.digits != [])
    }
  }

  datatype Json =
    | Null
    | Bool(b: bool)
    | Num(number: Number)
    | NaN
    | Infinity(negative: bool)
    | Str(text: Text)
    | Arr(items: Items)
    | Obj(members: Members)

  datatype Items = NoItems | Item(head: Json, tail: Items)

  datatype Members = NoMembers | Member(key: Text, value: Json, tail: Members)

  // ------------------------------------------------------------------ printing

  function HexDigit(d: int): CodePoint
    requires 0 <= d < 16
  {
    if d < 10 then 48 + d else 87 + d
  }

  function HexEscape(u: CodeUnit): Text {
    [BACKSLASH, 'u' as int, HexDigit(u / 4096), HexDigit(u / 256 % 16), HexDigit(u / 16 % 16), HexDigit(u % 16)]
  }

  /** The letter of a two-character escape. */
  function ShortEscape(u: CodeUnit): Option<CodePoint> {
    if u == QUOTE || u == BACKSLASH then Some(u)
    else if u == 10 then Some('n' as int)
    else if u == 13 then Some('r' as int)
    else if u == 9 then Some('t' as int)
    else if u == 12 then Some('f' as int)
    else if u == 8 then Some('b' as int)
    else None
  }

  function EscapeUnit(u: CodeUnit): Text {
    if ShortEscape(u).Some? then [BACKSLASH, ShortEscape(u).value]
    else if 32 <= u <= 126 then [u]
    else HexEscape(u)
  }

  function EscapeUnits(units: seq<CodeUnit>): Text {
    if units == [] then [] else EscapeUnit(units[0]) + EscapeUnits(units[1..])
  }

  function PrintString(text: Text): Text {
    [QUOTE] + (EscapeUnits(Units(text)) + [QUOTE])
  }

  function PrintDigits(digits: seq<Digit>): Text {
    if digits == [] then [] else [digits[0] as int + 48] + PrintDigits(digits[1..])
  }

  function PrintExponent(e: Exponent): Text {
    [if e.upper then 'E' as int else 'e' as int]
    + ((if e.sign.None? then [] else [if e.sign.value then '-' as int else '+' as int]) + PrintDigits(e.digits))
  }

  function PrintNumber(n: Number): Text {
    (if n.negative then ['-' as int] else [])
    + (PrintDigits(n.whole)
       + ((if n.frac.None? then [] else ['.' as int] + PrintDigits(n.frac.value))
          + (if n.exp.None? then [] else PrintExponent(n.exp.value))))
  }

  function Print(v: Json): Text {
    match v
    case Null => Ascii("null")
    case Bool(b) => if b then Ascii("true") else Ascii("false")
    case Num(n) => PrintNumber(n)
    case NaN => Ascii("NaN")
    case Infinity(negative) => if negative then Ascii("-Infinity") else Ascii("Infinity")
    case Str(text) => PrintString(text)
    case Arr(items) => [BRACKET] + (PrintItems(items) + [UNBRACKET])
    case Obj(members) => [OPEN] + (PrintMembers(members) + [CLOSE])
  }

  function PrintItems(items: Items): Text {
    match items
    case NoItems => []
    case Item(head, tail) => Print(head) + (if tail.NoItems? then [] else COMMA + PrintItems(tail))
  }

  function PrintMembers(members: Members): Text {
    match members
    case NoMembers => []
    case Member(key, value, tail) =>
      PrintString(key) + (COLON + (Print(value) + (if tail.NoMembers? then [] else COMMA + PrintMembers(tail))))
  }

  // ------------------------------------------------------------------ decoding

  function HexValue(c: CodePoint): Option<int>
    ensures HexValue(c).Some? ==> 0 <= HexValue(c).value < 16
  {
    if 48 <= c <= 57 then Some(c - 48)
    else if 97 <= c <= 102 then Some(c - 87)
    else if 65 <= c <= 70 then Some(c - 55)
    else None
  }

  function FourHex(s: Text): Option<CodeUnit>
    requires |s| == 4
  {
    var a, b, c, d := HexValue(s[0]), HexValue(s[1]), HexValue(s[2]), HexValue(s[3]);
    if a.Some? && b.Some? && c.Some? && d.Some?
    then Some(a.value * 4096 + b.value * 256 + c.value * 16 + d.value)
    else None
  }

  function EscapedUnit(s: Text): Option<CodeUnit> {
    if |s| >= 6 && s[0] == BACKSLASH && s[1] == 'u' as int then FourHex(s[2..6]) else None
  }

  function ShortUnescape(c: CodePoint): Option<CodePoint> {
    if c == QUOTE || c == BACKSLASH || c == '/' as int then Some(c)
    else if c == 'n' as int then Some(10)
    else if c == 'r' as int then Some(13)
    else if c == 't' as int then Some(9)
    else if c == 'f' as int then Some(12)
    else if c == 'b' as int then Some(8)
    else None
  }

  function Before(c: CodePoint, rest: Option<(Text, Text)>): Option<(Text, Text)> {
    if rest.None? then None else Some(([c] + rest.value.0, rest.value.1))
  }

  /** The string whose opening quote has just been read, and what follows its closing quote. */
  function DecodeString(s: Text): (r: Option<(Text, Text)>)
    ensures r.Some? ==> |r.value.1| < |s|
  {
    if s == [] then None
    else if s[0] == QUOTE then Some(([], s[1..]))
    else if s[0] != BACKSLASH then (if s[0] < 32 then None else Before(s[0], DecodeString(s[1..])))
    else if EscapedUnit(s).Some? then
      var unit, next := EscapedUnit(s).value, EscapedUnit(s[6..]);
      if High(unit) && next.Some? && Low(next.value) then Before(Combine(unit, next.value), DecodeString(s[12..]))
      else Before(unit, DecodeString(s[6..]))
    else if |s| >= 2 && ShortUnescape(s[1]).Some? then Before(ShortUnescape(s[1]).value, DecodeString(s[2..]))
    else None
  }

  predicate IsDigit(c: CodePoint) {
    48 <= c <= 57
  }

  function SpanDigits(s: Text): (digits: seq<Digit>)
    ensures |digits| <= |s|
  {
    if s != [] && IsDigit(s[0]) then [s[0] - 48] + SpanDigits(s[1..]) else []
  }

  /** A fraction or an exponent is read only if at least one digit is there. */
  function DecodeFraction(s: Text): (r: (Option<seq<Digit>>, Text))
    ensures |r.1| <= |s|
  {
    if s != [] && s[0] == '.' as int then
      var body := s[1..];
      var digits := SpanDigits(body);
      if digits == [] then (None, s) else (Some(digits), body[|digits|..])
    else (None, s)
  }

  function DecodeExponent(s: Text): (r: (Option<Exponent>, Text))
    ensures |r.1| <= |s|
  {
    if s != [] && (s[0] == 'e' as int || s[0] == 'E' as int) then
      var signed := |s| >= 2 && (s[1] == '-' as int || s[1] == '+' as int);
      var body := if signed then s[2..] else s[1..];
      var digits := SpanDigits(body);
      if digits == [] then (None, s)
      else (Some(Exponent(s[0] == 'E' as int, if signed then Some(s[1] == '-' as int) else None, digits)),
            body[|digits|..])
    else (None, s)
  }

  function DecodeNumber(s: Text): (r: Option<(Number, Text)>)
    ensures r.Some? ==> |r.value.1| < |s|
  {
    var negative := s != [] && s[0] == '-' as int;
    var body := if negative then s[1..] else s;
    var span := SpanDigits(body);
    if span == [] then None
    else
      var whole := if span[0] == 0 then [0] else span;
      var (frac, afterFrac) := DecodeFraction(body[|whole|..]);
      var (exp, rest) := DecodeExponent(afterFrac);
      Some((Number(negative, whole, frac, exp), rest))
  }

  predicate IsSpace(c: CodePoint) {
    c == 32 || c == 9 || c == 10 || c == 13
  }

  function SkipSpace(s: Text): (r: Text)
    ensures |r| <= |s|
  {
    if s != [] && IsSpace(s[0]) then SkipSpace(s[1..]) else s
  }

  function DecodeLiteral(s: Text): (r: Option<(Json, Text)>)
    ensures r.Some? ==> |r.value.1| < |s|
  {
    if Ascii("null") <= s then Some((Null, s[4..]))
    else if Ascii("true") <= s then Some((Bool(true), s[4..]))
    else if Ascii("false") <= s then Some((Bool(false), s[5..]))
    else if Ascii("NaN") <= s then Some((NaN, s[3..]))
    else if Ascii("Infinity") <= s then Some((Infinity(false), s[8..]))
    else if Ascii("-Infinity") <= s then Some((Infinity(true), s[9..]))
    else None
  }

  function DecodeValue(s: Text): (r: Option<(Json, Text)>)
    ensures r.Some? ==> |r.value.1| < |s|
    decreases |s|, 1
  {
    if s == [] then None
    else if s[0] == QUOTE then
      var quoted := DecodeString(s[1..]);
      if quoted.None? then None else Some((Str(quoted.value.0), quoted.value.1))
    else if s[0] == OPEN then
      var body := SkipSpace(s[1..]);
      if body != [] && body[0] == CLOSE then Some((Obj(NoMembers), body[1..]))
      else
        var members := DecodeMembers(body);
        if members.None? then None else Some((Obj(members.value.0), members.value.1))
    else if s[0] == BRACKET then
      var body := SkipSpace(s[1..]);
      if body != [] && body[0] == UNBRACKET then Some((Arr(NoItems), body[1..]))
      else
        var items := DecodeItems(body);
        if items.None? then None else Some((Arr(items.value.0), items.value.1))
    else if DecodeLiteral(s).Some? then DecodeLiteral(s)
    else
      var number := DecodeNumber(s);
      if number.None? then None
      else Some((Num(number.value.0), number.value.1))
  }

  /** The members up to the closing brace. */
  function DecodeMembers(s: Text): (r: Option<(Members, Text)>)
    ensures r.Some? ==> |r.value.1| < |s|
    decreases |s|, 2
  {
    if s == [] || s[0] != QUOTE then None
    else
      var key := DecodeString(s[1..]);
      if key.None? then None
      else
        var colon := SkipSpace(key.value.1);
        if colon == [] || colon[0] != ':' as int then None
        else
          var value := DecodeValue(SkipSpace(colon[1..]));
          if value.None? then None
          else
            var next := SkipSpace(value.value.1);
            if next == [] then None
            else if next[0] == CLOSE then Some((Member(key.value.0, value.value.0, NoMembers), next[1..]))
            else if next[0] != ',' as int then None
            else
              var rest := DecodeMembers(SkipSpace(next[1..]));
              if rest.None? then None
              else Some((Member(key.value.0, value.value.0, rest.value.0), rest.value.1))
  }

  /** The items up to the closing bracket. */
  function DecodeItems(s: Text): (r: Option<(Items, Text)>)
    ensures r.Some? ==> |r.value.1| < |s|
    decreases |s|, 2
  {
    var value := DecodeValue(s);
    if value.None? then None
    else
      var next := SkipSpace(value.value.1);
      if next == [] then None
      else if next[0] == UNBRACKET then Some((Item(value.value.0, NoItems), next[1..]))
      else if next[0] != ',' as int then None
      else
        var rest := DecodeItems(SkipSpace(next[1..]));
        if rest.None? then None else Some((Item(value.value.0, rest.value.0), rest.value.1))
  }

  /** A whole document. */
  function Loads(s: Text): Option<Json> {
    var value := DecodeValue(SkipSpace(s));
    if value.Some? && SkipSpace(value.value.1) == [] then Some(value.value.0) else None
  }
}
