/** The observation contract between the engine and its world model: the printer, the lenient parser,
    and the recovery of replies that were cut off in the middle. */
module Parsing {
  import opened Options
  import opened CodePoints
  import opened Json
  import opened ObjectScanner
  import opened Sequences

  datatype Observation = Observation(content: Text, isError: bool, metadata: map<string, Json>)

  /** What the surrounding libraries decide: the truth values a boolean field accepts, the finite
      number a string reads as, and the code point of four odd hexadecimal characters. */
  datatype Coercions = Coercions(boolOf: Json -> Option<bool>, floatOf: Text -> Option<Number>,
                                 oddHex: Text -> Option<CodePoint>)

  ghost predicate Standard(co: Coercions) {
    forall b :: co.boolOf(Bool(b)) == Some(b)
  }

  // ------------------------------------------------------------------ stated confidence

  function DigitsValue(digits: seq<Digit>): nat {
    if digits == [] then 0 else DigitsValue(digits[..|digits| - 1]) * 10 + digits[|digits| - 1]
  }

  function PowerOfTen(e: int): real
    decreases if e < 0 then -e else e
  {
    if e == 0 then 1.0 else if e > 0 then PowerOfTen(e - 1) * 10.0 else PowerOfTen(e + 1) / 10.0
  }

  function FractionOf(n: Number): seq<Digit> {
    if n.frac.None? then [] else n.frac.value
  }

  function ExponentOf(n: Number): int {
    if n.exp.None? then 0
    else if n.exp.value.sign == Some(true) then -(DigitsValue(n.exp.value.digits) as int)
    else DigitsValue(n.exp.value.digits)
  }

  function Scaled(digits: nat, power: real): real {
    digits as real * power
  }

  function Value(n: Number): real {
    var size := Scaled(DigitsValue(n.whole + FractionOf(n)), PowerOfTen(ExponentOf(n) - |FractionOf(n)|));
    if n.negative then -size else size
  }

  /** The number as a float, which always shows a fraction or an exponent. */
  function AsFloat(n: Number): Number {
    if n.frac.None? && n.exp.None? then n.(frac := Some([0])) else n
  }

  predicate InUnit(n: Number) {
    0.0 <= Value(n) <= 1.0
  }

  /** A usable stated confidence is a finite number in the unit interval, and never a truth value. */
  function AcceptedConfidence(value: Json, co: Coercions): Option<Number> {
    match value
    case Num(n) => if InUnit(n) then Some(AsFloat(n)) else None
    case Str(text) =>
      var n := co.floatOf(text);
      if n.Some? && InUnit(n.value) then Some(AsFloat(n.value)) else None
    case _ => None
  }

  // ------------------------------------------------------------------ printing the contract

  function TextNote(o: Observation, key: string): Text {
    if key in o.metadata && o.metadata[key].Str? then o.metadata[key].text else []
  }

  function ConfidenceNote(o: Observation): Option<Json> {
    if "confidence" in o.metadata then
      match o.metadata["confidence"]
      case Num(n) => Some(Num(AsFloat(n)))
      case NaN => Some(NaN)
      case Infinity(negative) => Some(Infinity(negative))
      case _ => None
    else None
  }

  function NoteMembers(o: Observation): Members {
    var note := TextNote(o, "state_note");
    if note == [] then NoMembers else Member(Ascii("state_note"), Str(note), NoMembers)
  }

  function ConfidenceMembers(o: Observation, confidence: Option<Json>): Members {
    if confidence.None? then NoteMembers(o) else Member(Ascii("confidence"), confidence.value, NoteMembers(o))
  }

  function WhyMembers(o: Observation, confidence: Option<Json>): Members {
    var why := TextNote(o, "confidence_why");
    if why == [] then ConfidenceMembers(o, confidence)
    else Member(Ascii("confidence_why"), Str(why), ConfidenceMembers(o, confidence))
  }

  /** A reply in the form of the contract, with any confidence a model may state. */
  function ReplyMembers(o: Observation, confidence: Option<Json>): Members {
    Member(Ascii("output"), Str(o.content), Member(Ascii("is_error"), Bool(o.isError), WhyMembers(o, confidence)))
  }

  function ContractMembers(o: Observation): Members {
    ReplyMembers(o, ConfidenceNote(o))
  }

  function DumpsObservationContract(o: Observation): Text {
    Print(Obj(ContractMembers(o)))
  }

  // ------------------------------------------------------------------ reading a complete reply

  /** The last member of that name, as in a dictionary. */
  function Lookup(members: Members, key: string): Option<Json> {
    match members
    case NoMembers => None
    case Member(name, value, tail) =>
      var later := Lookup(tail, key);
      if later.Some? then later else if name == Ascii(key) then Some(value) else None
  }

  predicate IsContract(members: Members) {
    Lookup(members, "output").Some? || Lookup(members, "is_error").Some? || Lookup(members, "state_note").Some?
  }

  /** An absent text field is empty; anything but a string is off contract. */
  function TextField(members: Members, key: string): Option<Text> {
    match Lookup(members, key)
    case None => Some([])
    case Some(value) => if value.Str? then Some(value.text) else None
  }

  function ErrorField(members: Members, co: Coercions): Option<bool> {
    match Lookup(members, "is_error")
    case None => Some(false)
    case Some(value) => co.boolOf(value)
  }

  function ConfidenceField(members: Members, co: Coercions): Option<Number> {
    match Lookup(members, "confidence")
    case None => None
    case Some(value) => AcceptedConfidence(value, co)
  }

  const NOTES: seq<string> := ["state_note", "reasoning", "kb_note", "ground_query", "state_update", "confidence_why"]

  function Noted(metadata: map<string, Json>, key: string, text: Text): map<string, Json> {
    if text == [] then metadata else metadata[key := Str(text)]
  }

  /** The non-empty notes among the first `n`. */
  function NotesOf(members: Members, n: nat): map<string, Json>
    requires n <= |NOTES|
  {
    if n == 0 then map[]
    else
      var text := TextField(members, NOTES[n - 1]);
      Noted(NotesOf(members, n - 1), NOTES[n - 1], if text.Some? then text.value else [])
  }

  function WithConfidence(metadata: map<string, Json>, confidence: Option<Number>): map<string, Json> {
    if confidence.Some? then metadata["confidence" := Num(confidence.value)] else metadata
  }

  function Validated(members: Members, co: Coercions): Option<Observation> {
    var output, isError := TextField(members, "output"), ErrorField(members, co);
    if output.None? || isError.None? || exists i :: 0 <= i < |NOTES| && TextField(members, NOTES[i]).None? then None
    else Some(Observation(output.value, isError.value,
                          WithConfidence(NotesOf(members, |NOTES|), ConfidenceField(members, co))))
  }

  function CompleteContract(text: Text, co: Coercions): Option<Observation> {
    match Extract(text)
    case None => None
    case Some(raw) =>
      match Loads(raw)
      case None => None
      case Some(value) => if value.Obj? && IsContract(value.members) then Validated(value.members, co) else None
  }

  // ------------------------------------------------------------------ white space

  predicate IsWide(c: CodePoint) {
    || 9 <= c <= 13 || 28 <= c <= 32 || c == 0x85 || c == 0xA0 || c == 0x1680 || 0x2000 <= c <= 0x200A
    || c == 0x2028 || c == 0x2029 || c == 0x202F || c == 0x205F || c == 0x3000
  }

  function StripLeft(t: Text): Text {
    if t != [] && IsWide(t[0]) then StripLeft(t[1..]) else t
  }

  function StripRight(t: Text): Text {
    if t != [] && IsWide(t[|t| - 1]) then StripRight(t[..|t| - 1]) else t
  }

  function Strip(t: Text): Text {
    StripRight(StripLeft(t))
  }

  // ------------------------------------------------------------------ salvaging a truncated reply

  /** The first place where `marker` occurs. */
  function Find(text: Text, marker: Text): (at: Option<nat>)
    ensures at.Some? ==> at.value + |marker| <= |text|
  {
    if marker <= text then Some(0)
    else if text == [] then None
    else Plus(1, Find(text[1..], marker))
  }

  function QuotedName(key: string): Text {
    [QUOTE] + Ascii(key) + [QUOTE]
  }

  predicate IsGap(c: CodePoint) {
    c == ':' as int || c == 32 || c == 9 || c == 10
  }

  function SkipGap(s: Text): Text {
    if s != [] && IsGap(s[0]) then SkipGap(s[1..]) else s
  }

  function SalvageUnescape(c: CodePoint): CodePoint {
    if c == 'n' as int then 10 else if c == 't' as int then 9 else if c == 'r' as int then 13 else c
  }

  function LenientHex(hex: Text, co: Coercions): Option<CodePoint>
    requires |hex| == 4
  {
    if FourHex(hex).Some? then Some(FourHex(hex).value) else co.oddHex(hex)
  }

  /** The string that starts at `s`, unescaped up to its closing quote or to where the text ends. */
  function Unescape(s: Text, co: Coercions): Text
    decreases |s|
  {
    if s == [] || s[0] == QUOTE then []
    else if s[0] == BACKSLASH then UnescapeNext(s[1..], co)
    else [s[0]] + Unescape(s[1..], co)
  }

  /** The same just after a backslash. */
  function UnescapeNext(s: Text, co: Coercions): Text
    decreases |s|
  {
    if s == [] then []
    else if s[0] == 'u' as int && |s| > 4 then
      var c := LenientHex(s[1..5], co);
      if c.Some? then [c.value] + Unescape(s[5..], co) else [s[0]] + Unescape(s[1..], co)
    else [SalvageUnescape(s[0])] + Unescape(s[1..], co)
  }

  function FieldValue(text: Text, key: string, co: Coercions): Option<Text> {
    match Find(text, QuotedName(key))
    case None => None
    case Some(at) =>
      var s := SkipGap(text[at + |QuotedName(key)|..]);
      if s == [] || s[0] != QUOTE then None else Some(Unescape(s[1..], co))
  }

  method StringFieldValue(text: Text, key: string, co: Coercions) returns (value: Option<Text>)
    ensures value == FieldValue(text, key, co)
  {
    var marker := QuotedName(key);
    var at := Find(text, marker);
    if at.None? {
      return None;
    }
    var i := SkipGapFrom(text, at.value + |marker|);
    if i >= |text| || text[i] != QUOTE {
      return None;
    }
    var out := UnescapeFrom(text, i + 1, co);
    assert text[i..][1..] == text[i + 1..];
    return Some(out);
  }

  method SkipGapFrom(text: Text, start: nat) returns (i: nat)
    requires start <= |text|
    ensures i <= |text| && text[i..] == SkipGap(text[start..])
  {
    i := start;
    while i < |text| && IsGap(text[i])
      invariant start <= i <= |text|
      invariant SkipGap(text[i..]) == SkipGap(text[start..])
    {
      assert text[i..][1..] == text[i + 1..];
      i := i + 1;
    }
  }

  method UnescapeFrom(text: Text, start: nat, co: Coercions) returns (out: Text)
    requires start <= |text|
    ensures out == Unescape(text[start..], co)
  {
    out := [];
    var i, escaped := start, false;
    while i < |text|
      invariant i <= |text|
      invariant out + Remaining(text[i..], escaped, co) == Unescape(text[start..], co)
    {
      var ch := text[i];
      RemainingNext(text, i, escaped, co);
      if escaped {
        escaped := false;
        if ch == 'u' as int && i + 4 < |text| {
          var c := LenientHex(text[i + 1..i + 5], co);
          if c.Some? {
            Assoc(out, [c.value], Remaining(text[i + 5..], false, co));
            out := out + [c.value];
            i := i + 4;
          } else {
            Assoc(out, [ch], Remaining(text[i + 1..], false, co));
            out := out + [ch];
          }
        } else {
          Assoc(out, [SalvageUnescape(ch)], Remaining(text[i + 1..], false, co));
          out := out + [SalvageUnescape(ch)];
        }
      } else if ch == BACKSLASH {
        escaped := true;
      } else if ch == QUOTE {
        Nothing(out);
        return;
      } else {
        Assoc(out, [ch], Remaining(text[i + 1..], false, co));
        out := out + [ch];
      }
      i := i + 1;
    }
  }

  function Remaining(s: Text, escaped: bool, co: Coercions): Text {
    if escaped then UnescapeNext(s, co) else Unescape(s, co)
  }

  /** What the next character contributes. */
  lemma RemainingNext(text: Text, i: nat, escaped: bool, co: Coercions)
    requires i < |text|
    ensures var ch, r := text[i], Remaining(text[i..], escaped, co);
            if escaped then
              if ch == 'u' as int && i + 4 < |text| && LenientHex(text[i + 1..i + 5], co).Some?
              then r == [LenientHex(text[i + 1..i + 5], co).value] + Remaining(text[i + 5..], false, co)
              else if ch == 'u' as int && i + 4 < |text| then r == [ch] + Remaining(text[i + 1..], false, co)
              else r == [SalvageUnescape(ch)] + Remaining(text[i + 1..], false, co)
            else if ch == BACKSLASH then r == Remaining(text[i + 1..], true, co)
            else if ch == QUOTE then r == []
            else r == [ch] + Remaining(text[i + 1..], false, co)
  {
    DropMore(text, i, 1);
    if i + 4 < |text| {
      DropMore(text, i, 5);
      Cut(text, i + 1, 4);
      assert text[i..][1..5] == text[i + 1..i + 5];
    }
  }

  /** A search for `"key"`, a colon, and what follows it, with white space allowed in between. */
  function AfterColon(s: Text, key: string): Option<Text> {
    if QuotedName(key) <= s then
      var colon := StripLeft(s[|QuotedName(key)|..]);
      if colon != [] && colon[0] == ':' as int then Some(StripLeft(colon[1..])) else None
    else None
  }

  predicate SaysTrue(s: Text) {
    AfterColon(s, "is_error").Some? && Ascii("true") <= AfterColon(s, "is_error").value
  }

  predicate FindsTrue(s: Text) {
    SaysTrue(s) || (s != [] && FindsTrue(s[1..]))
  }

  /** Digits, and a fraction only if digits follow the point. */
  function ConfidenceAt(s: Text): Option<Number> {
    match AfterColon(s, "confidence")
    case None => None
    case Some(rest) =>
      var whole := SpanDigits(rest);
      if whole == [] then None else Some(Number(false, whole, DecodeFraction(rest[|whole|..]).0, None))
  }

  function FindConfidence(s: Text): Option<Number> {
    if ConfidenceAt(s).Some? then ConfidenceAt(s)
    else if s == [] then None
    else FindConfidence(s[1..])
  }

  const SALVAGED: seq<string> := ["reasoning", "state_note", "kb_note", "ground_query", "state_update",
                                  "confidence_why"]

  function SalvagedNotes(text: Text, n: nat, co: Coercions): map<string, Json>
    requires n <= |SALVAGED|
  {
    if n == 0 then map[]
    else
      var value := FieldValue(text, SALVAGED[n - 1], co);
      Noted(SalvagedNotes(text, n - 1, co), SALVAGED[n - 1], if value.Some? then value.value else [])
  }

  function SalvageTruncatedContract(text: Text, co: Coercions): Option<Observation> {
    var stripped := Strip(text);
    if !(stripped != [] && stripped[0] == OPEN) || Find(stripped, QuotedName("output")).None? then None
    else
      match FieldValue(stripped, "output", co)
      case None => None
      case Some(output) =>
        var stated := FindConfidence(stripped);
        var confidence := if stated.Some? then AcceptedConfidence(Num(stated.value), co) else None;
        Some(Observation(output, FindsTrue(stripped),
                         WithConfidence(SalvagedNotes(stripped, |SALVAGED|, co), confidence)))
  }

  /** Prefer the contract, then what a truncated contract still holds, then the plain text. */
  function ParseObservation(text: Text, co: Coercions): Observation {
    match CompleteContract(text, co)
    case Some(observation) => observation
    case None =>
      match SalvageTruncatedContract(text, co)
      case Some(observation) => observation
      case None => Observation(Strip(text), false, map[])
  }
}
