/** What parsing makes of a reply that was cut off: every field, for every cut after the opening quote of
    the output, and where the two ways of reading a confidence part. */
module TruncatedReply {
  import opened Options
  import opened CodePoints
  import opened Json
  import opened JsonRoundTrip
  import opened ObjectScanner
  import opened Parsing
  import opened Sequences
  import opened TextSearch
  import opened ObservationContract
  import opened PrintedFields
  import opened PrintedSearches

  // ------------------------------------------------------------------ the names of the contract

  lemma NameIsPlain(key: string)
    requires key != "" && forall i :: 0 <= i < |key| ==> 'a' <= key[i] <= 'z' || key[i] == '_'
    ensures PlainName(Ascii(key))
  {
  }

  lemma KeysArePlain()
    ensures PlainName(Ascii("output")) && PlainName(Ascii("is_error")) && PlainName(Ascii("confidence"))
    ensures PlainName(Ascii("confidence_why")) && PlainName(Ascii("state_note")) && PlainName(Ascii("reasoning"))
    ensures PlainName(Ascii("kb_note")) && PlainName(Ascii("ground_query")) && PlainName(Ascii("state_update"))
  {
    NameIsPlain("output");
    NameIsPlain("is_error");
    NameIsPlain("confidence");
    NameIsPlain("confidence_why");
    NameIsPlain("state_note");
    NameIsPlain("reasoning");
    NameIsPlain("kb_note");
    NameIsPlain("ground_query");
    NameIsPlain("state_update");
  }

  lemma Apart(a: string, b: string)
    requires a != b
    ensures Ascii(a) != Ascii(b)
  {
    if Ascii(a) == Ascii(b) {
      AsciiApart(a, b);
    }
  }

  /** The five names of a reply are different from one another, and from any other name. */
  lemma OthersApart(key: string)
    ensures key != "output" ==> Ascii("output") != Ascii(key)
    ensures key != "is_error" ==> Ascii("is_error") != Ascii(key)
    ensures key != "confidence_why" ==> Ascii("confidence_why") != Ascii(key)
    ensures key != "confidence" ==> Ascii("confidence") != Ascii(key)
    ensures key != "state_note" ==> Ascii("state_note") != Ascii(key)
  {
    forall name | name in {"output", "is_error", "confidence_why", "confidence", "state_note"} && name != key
      ensures Ascii(name) != Ascii(key)
    {
      Apart(name, key);
    }
  }

  /** What a reply may state under a name: a model may write any scalar as its confidence. */
  ghost predicate MayState(confidence: Option<Json>) {
    confidence.Some? ==> Scalar(confidence.value) && Writable(confidence.value)
  }

  /** The members of a reply, one after the other. */
  lemma ReplyFields(o: Observation, confidence: Option<Json>)
    requires MayState(confidence)
    ensures Fields(ReplyMembers(o, confidence))
  {
    KeysArePlain();
    assert Fields(NoteMembers(o));
    assert Fields(ConfidenceMembers(o, confidence));
    assert Fields(WhyMembers(o, confidence));
  }

  /** A name that is not one of the five. */
  lemma NotAmong(o: Observation, confidence: Option<Json>, key: string)
    requires key !in {"output", "is_error", "confidence_why", "confidence", "state_note"}
    ensures NotNamed(ReplyMembers(o, confidence), Ascii(key))
  {
    OthersApart(key);
    assert NotNamed(NoteMembers(o), Ascii(key));
    assert NotNamed(ConfidenceMembers(o, confidence), Ascii(key));
    assert NotNamed(WhyMembers(o, confidence), Ascii(key));
  }

  lemma FlagNamedOnce(o: Observation, confidence: Option<Json>)
    ensures OnceNamed(ReplyMembers(o, confidence), Ascii("is_error"), Bool(o.isError))
  {
    var k := Ascii("is_error");
    OthersApart("is_error");
    assert NotNamed(NoteMembers(o), k);
    assert NotNamed(ConfidenceMembers(o, confidence), k);
    assert NotNamed(WhyMembers(o, confidence), k);
  }

  lemma ConfidenceNamedOnce(o: Observation, v: Json)
    ensures OnceNamed(ReplyMembers(o, Some(v)), Ascii("confidence"), v)
  {
    var k := Ascii("confidence");
    OthersApart("confidence");
    assert NotNamed(NoteMembers(o), k);
    assert OnceNamed(ConfidenceMembers(o, Some(v)), k, v);
    assert OnceNamed(WhyMembers(o, Some(v)), k, v);
  }

  lemma NoConfidenceNamed(o: Observation)
    ensures NotNamed(ReplyMembers(o, None), Ascii("confidence"))
  {
    var k := Ascii("confidence");
    OthersApart("confidence");
    assert NotNamed(NoteMembers(o), k);
    assert NotNamed(ConfidenceMembers(o, None), k);
    assert NotNamed(WhyMembers(o, None), k);
  }

  lemma NoteNamedOnce(o: Observation, confidence: Option<Json>)
    requires TextNote(o, "state_note") != []
    ensures OnceNamed(ReplyMembers(o, confidence), Ascii("state_note"), Str(TextNote(o, "state_note")))
  {
    var k, v := Ascii("state_note"), Str(TextNote(o, "state_note"));
    OthersApart("state_note");
    assert OnceNamed(NoteMembers(o), k, v);
    assert OnceNamed(ConfidenceMembers(o, confidence), k, v);
    assert OnceNamed(WhyMembers(o, confidence), k, v);
  }

  lemma NoNoteNamed(o: Observation, confidence: Option<Json>)
    requires TextNote(o, "state_note") == []
    ensures NotNamed(ReplyMembers(o, confidence), Ascii("state_note"))
  {
    var k := Ascii("state_note");
    OthersApart("state_note");
    assert NotNamed(NoteMembers(o), k);
    assert NotNamed(ConfidenceMembers(o, confidence), k);
    assert NotNamed(WhyMembers(o, confidence), k);
  }

  lemma WhyNamedOnce(o: Observation, confidence: Option<Json>)
    requires TextNote(o, "confidence_why") != []
    ensures OnceNamed(ReplyMembers(o, confidence), Ascii("confidence_why"), Str(TextNote(o, "confidence_why")))
  {
    var k, v := Ascii("confidence_why"), Str(TextNote(o, "confidence_why"));
    OthersApart("confidence_why");
    assert NotNamed(NoteMembers(o), k);
    assert NotNamed(ConfidenceMembers(o, confidence), k);
    assert OnceNamed(WhyMembers(o, confidence), k, v);
  }

  lemma NoWhyNamed(o: Observation, confidence: Option<Json>)
    requires TextNote(o, "confidence_why") == []
    ensures NotNamed(ReplyMembers(o, confidence), Ascii("confidence_why"))
  {
    var k := Ascii("confidence_why");
    OthersApart("confidence_why");
    assert NotNamed(NoteMembers(o), k);
    assert NotNamed(ConfidenceMembers(o, confidence), k);
    assert NotNamed(WhyMembers(o, confidence), k);
  }

  // ------------------------------------------------------------------ a text field by its place

  /** How many characters lead up to the value of the member of that name. */
  function StartOf(members: Members, k: Text): nat {
    match members
    case NoMembers => 0
    case Member(name, value, tail) =>
      if name == k then |name| + 4 else |EntryOf(name, value)| + 2 + StartOf(tail, k)
  }

  /** A string before the member of that name is the name, or ends in a quote and the name. */
  predicate Masked(members: Members, k: Text) {
    match members
    case NoMembers => false
    case Member(name, value, tail) =>
      name != k && ((value.Str? && EndsAs(value.text, k)) || Masked(tail, k))
  }

  ghost predicate TextAsShown(members: Members, k: Text, text: Text, c: nat) {
    ShownIn(members, k, c)
 == if StartOf(members, k) < c && !Masked(members, k)
    then Some(ShownUnits(Units(text), c - StartOf(members, k) - 1)) else None
  }

  lemma TextBehind(name: Text, value: Json, tail: Members, k: Text, text: Text, c: nat)
    requires name != k && forall d: nat :: TextAsShown(tail, k, text, d)
    ensures TextAsShown(Member(name, value, tail), k, text, c)
  {
    ShownPast(name, value, tail, k, c);
    if |EntryOf(name, value)| + 2 <= c {
      assert TextAsShown(tail, k, text, c - |EntryOf(name, value)| - 2);
    }
  }

  lemma {:induction false} ShownText(members: Members, k: Text, text: Text, c: nat)
    requires OnceNamed(members, k, Str(text))
    ensures TextAsShown(members, k, text, c)
  {
    match members
    case Member(name, value, tail) =>
      if name != k {
        forall d: nat ensures TextAsShown(tail, k, text, d) {
          ShownText(tail, k, text, d);
        }
        TextBehind(name, value, tail, k, text, c);
      }
  }

  lemma {:induction false} NotShown(members: Members, k: Text, c: nat)
    requires NotNamed(members, k)
    ensures ShownIn(members, k, c).None?
  {
    match members
    case NoMembers =>
    case Member(name, value, tail) =>
      if |EntryOf(name, value)| + 2 <= c {
        NotShown(tail, k, c - |EntryOf(name, value)| - 2);
      }
  }

  // ------------------------------------------------------------------ what a cut leaves

  /** The text of a whole reply. */
  function ReplyText(o: Observation, confidence: Option<Json>): Text {
    Print(Obj(ReplyMembers(o, confidence)))
  }

  lemma {:induction false} StripRightAtLeast(t: Text, k: nat)
    requires 0 < k <= |t| && !IsWide(t[k - 1])
    ensures k <= |StripRight(t)|
    decreases |t|
  {
    if IsWide(t[|t| - 1]) {
      StripRightAtLeast(t[..|t| - 1], k);
    }
  }

  /** The text up to the opening quote of the output. */
  const OPENING := 12

  lemma TenthOf(q: Text, body: Text)
    requires |q| == 8 && body != []
    ensures (q + (COLON + body))[10] == body[0] && |q + (COLON + body)| > 10
  {
  }

  lemma OpensWith(key: string, text: Text, tail: Members)
    requires |key| == 6 && PlainName(Ascii(key))
    ensures var body := Body(Member(Ascii(key), Str(text), tail)); |body| > 10 && body[10] == QUOTE
  {
    var printed := Print(Str(text)) + RestOf(tail);
    WholeMember(key, Str(text), tail);
    assert printed[0] == Print(Str(text))[0] == QUOTE;
    TenthOf(QuotedName(key), printed);
  }

  lemma ObjectText(members: Members)
    ensures Print(Obj(members)) == [OPEN] + Body(members)
  {
  }

  lemma ReplyOpens(o: Observation, confidence: Option<Json>)
    ensures var body := Body(ReplyMembers(o, confidence));
            ReplyText(o, confidence) == [OPEN] + body && |body| > 10 && body[10] == QUOTE
  {
    NameIsPlain("output");
    ObjectText(ReplyMembers(o, confidence));
    OpensWith("output", o.content, Member(Ascii("is_error"), Bool(o.isError), WhyMembers(o, confidence)));
  }

  /** Of a text that is cut after `m` characters and stripped, `c` are left behind the opening brace. */
  predicate Leaves(text: Text, m: nat, c: nat) {
    m <= |text| && |StripRight(text[..m])| == c + 1
  }

  lemma StrippedCut(body: Text, m: nat, c: nat)
    requires 10 < |body| && body[10] == QUOTE && OPENING <= m <= |body| && Leaves([OPEN] + body, m, c)
    ensures 11 <= c < m && c <= |body| && Strip(([OPEN] + body)[..m]) == [OPEN] + body[..c]
  {
    var text := [OPEN] + body;
    var cut := text[..m];
    assert cut[11] == body[10] && cut[0] == OPEN;
    assert !IsWide(QUOTE) && !IsWide(OPEN);
    StripRightAtLeast(cut, 12);
    StripRightShrinks(cut);
    assert StripLeft(cut) == cut;
    assert cut[..c + 1] == text[..c + 1];
    TakePast([OPEN], body, c + 1);
  }

  /** Stripping takes no character that is not white space, nor anything before it. */
  lemma StripReaches(body: Text, m: nat, c: nat, end: nat)
    requires OPENING <= m <= |body| && EndsDark(body, end) && Leaves([OPEN] + body, m, c)
    ensures end <= c <==> end < m
  {
    var cut := ([OPEN] + body)[..m];
    StripRightShrinks(cut);
    if end < m {
      assert cut[end] == body[end - 1];
      StripRightAtLeast(cut, end + 1);
    }
  }

  predicate EndsDark(text: Text, end: nat) {
    0 < end <= |text| && !IsWide(text[end - 1])
  }

  // ------------------------------------------------------------------ the salvage path on a cut reply

  lemma BraceQuiet(x: Text, key: string)
    ensures !OccursAt([OPEN] + x, QuotedName(key), 0)
    ensures AfterColon(([OPEN] + x)[0..], key).None?
  {
    QuietOccurs([OPEN], x, Ascii(key), 0);
    assert QuotedName(key) == Enclosed(Ascii(key));
    ColonNeedsName([OPEN] + x, key, 0);
  }

  lemma BraceField(x: Text, key: string, co: Coercions)
    ensures FieldValue([OPEN] + x, key, co) == FieldValue(x, key, co)
  {
    var brace: Text := [OPEN];
    FieldIsReadAt(x, key, co);
    forall p | 0 <= p < |brace| ensures !OccursAt(brace + x, QuotedName(key), p) {
      QuietOccurs(brace, x, Ascii(key), p);
    }
    FieldPast(brace, x, key, co);
  }

  lemma BraceSearches(x: Text)
    ensures FindsTrue([OPEN] + x) == FindsTrue(x) && FindConfidence([OPEN] + x) == FindConfidence(x)
  {
    BraceQuiet(x, "is_error");
    BraceQuiet(x, "confidence");
    SearchPast([OPEN], x, "is_error");
    SearchPast([OPEN], x, "confidence");
  }

  function OrNothing(text: Option<Text>): Text {
    if text.Some? then text.value else []
  }

  lemma SalvagedMore(text: Text, n: nat, co: Coercions)
    requires n < |SALVAGED|
    ensures SalvagedNotes(text, 0, co) == map[]
    ensures SalvagedNotes(text, n + 1, co)
         == if FieldValue(text, SALVAGED[n], co).None? then SalvagedNotes(text, n, co)
            else Noted(SalvagedNotes(text, n, co), SALVAGED[n], FieldValue(text, SALVAGED[n], co).value)
  {
  }

  /** The two text notes of the contract are all that is salvaged where no other is found. */
  lemma TwoNotes(text: Text, co: Coercions)
    requires FieldValue(text, "reasoning", co).None? && FieldValue(text, "kb_note", co).None?
    requires FieldValue(text, "ground_query", co).None? && FieldValue(text, "state_update", co).None?
    ensures SalvagedNotes(text, 6, co)
         == Noted(Noted(map[], "state_note", OrNothing(FieldValue(text, "state_note", co))),
                  "confidence_why", OrNothing(FieldValue(text, "confidence_why", co)))
  {
    SalvagedMore(text, 0, co);
    SalvagedMore(text, 1, co);
    SalvagedMore(text, 2, co);
    SalvagedMore(text, 3, co);
    SalvagedMore(text, 4, co);
    SalvagedMore(text, 5, co);
  }

  /** The names of the two text notes. */
  predicate NoteNames(note: Text, why: Text) {
    note == Ascii("state_note") && why == Ascii("confidence_why")
  }

  lemma FieldOfCut(o: Observation, confidence: Option<Json>, key: string, c: nat, co: Coercions)
    requires MayState(confidence) && PlainName(Ascii(key)) && c <= |Body(ReplyMembers(o, confidence))|
    ensures FieldValue([OPEN] + Body(ReplyMembers(o, confidence))[..c], key, co)
         == ShownIn(ReplyMembers(o, confidence), Ascii(key), c)
  {
    ReplyFields(o, confidence);
    BraceField(Body(ReplyMembers(o, confidence))[..c], key, co);
    FieldShown(ReplyMembers(o, confidence), key, c, co);
  }

  lemma NoFieldOfCut(o: Observation, confidence: Option<Json>, key: string, c: nat, co: Coercions)
    requires MayState(confidence) && PlainName(Ascii(key)) && c <= |Body(ReplyMembers(o, confidence))|
    requires key !in {"output", "is_error", "confidence_why", "confidence", "state_note"}
    ensures FieldValue([OPEN] + Body(ReplyMembers(o, confidence))[..c], key, co).None?
  {
    FieldOfCut(o, confidence, key, c, co);
    NotAmong(o, confidence, key);
    NotShown(ReplyMembers(o, confidence), Ascii(key), c);
  }

  lemma NotesOfCut(o: Observation, confidence: Option<Json>, note: Text, why: Text, c: nat, co: Coercions)
    requires MayState(confidence) && c <= |Body(ReplyMembers(o, confidence))| && NoteNames(note, why)
    ensures SalvagedNotes([OPEN] + Body(ReplyMembers(o, confidence))[..c], 6, co)
         == Noted(Noted(map[], "state_note", OrNothing(ShownIn(ReplyMembers(o, confidence), note, c))),
                  "confidence_why", OrNothing(ShownIn(ReplyMembers(o, confidence), why, c)))
  {
    KeysArePlain();
    NoFieldOfCut(o, confidence, "reasoning", c, co);
    NoFieldOfCut(o, confidence, "kb_note", c, co);
    NoFieldOfCut(o, confidence, "ground_query", c, co);
    NoFieldOfCut(o, confidence, "state_update", c, co);
    FieldOfCut(o, confidence, "state_note", c, co);
    FieldOfCut(o, confidence, "confidence_why", c, co);
    TwoNotes([OPEN] + Body(ReplyMembers(o, confidence))[..c], co);
  }

  /** The output of a cut reply is what is left of it. */
  lemma OutputOfCut(o: Observation, confidence: Option<Json>, c: nat, co: Coercions)
    requires MayState(confidence) && 10 < c <= |Body(ReplyMembers(o, confidence))|
    ensures FieldValue([OPEN] + Body(ReplyMembers(o, confidence))[..c], "output", co)
         == Some(ShownUnits(Units(o.content), c - 11))
  {
    KeysArePlain();
    FieldOfCut(o, confidence, "output", c, co);
  }

  lemma FlagOfCut(o: Observation, confidence: Option<Json>, c: nat)
    requires MayState(confidence) && c <= |Body(ReplyMembers(o, confidence))|
    ensures FindsTrue([OPEN] + Body(ReplyMembers(o, confidence))[..c])
         == (o.isError && EndOf(ReplyMembers(o, confidence), Ascii("is_error")) <= c)
  {
    KeysArePlain();
    ReplyFields(o, confidence);
    FlagNamedOnce(o, confidence);
    BraceSearches(Body(ReplyMembers(o, confidence))[..c]);
    FlagShown(ReplyMembers(o, confidence), o.isError, c);
  }

  /** The confidence that the salvage path accepts where the search finds this much. */
  function Salvaged(found: Option<Number>, co: Coercions): Option<Number> {
    if found.Some? then AcceptedConfidence(Num(found.value), co) else None
  }

  lemma SalvageIs(text: Text, kept: Text, co: Coercions)
    requires Strip(text) == kept && kept != [] && kept[0] == OPEN && Extract(text).None?
    requires FieldValue(kept, "output", co).Some?
    ensures ParseObservation(text, co)
         == Observation(FieldValue(kept, "output", co).value, FindsTrue(kept),
                        WithConfidence(SalvagedNotes(kept, 6, co), Salvaged(FindConfidence(kept), co)))
  {
  }

  // ------------------------------------------------------------------ where a member ends

  lemma WordEnds(word: string)
    requires word in {"null", "true", "false", "NaN", "Infinity", "-Infinity"}
    ensures Ascii(word) != [] && !IsWide(Ascii(word)[|word| - 1])
  {
  }

  lemma {:induction false} DigitsEnd(digits: seq<Digit>)
    requires digits != []
    ensures PrintDigits(digits) != [] && IsDigit(PrintDigits(digits)[|PrintDigits(digits)| - 1])
  {
    if |digits| > 1 {
      DigitsEnd(digits[1..]);
    }
  }

  lemma NumberEnds(n: Number)
    requires n.Valid()
    ensures PrintNumber(n) != [] && !IsWide(PrintNumber(n)[|PrintNumber(n)| - 1])
  {
    var tail := FractionText(n.frac) + ExponentText(n.exp);
    DigitsEnd(n.whole);
    if n.frac.Some? {
      DigitsEnd(n.frac.value);
    }
    if n.exp.Some? {
      DigitsEnd(n.exp.value.digits);
    }
    assert PrintNumber(n) == (if n.negative then ['-' as int] else []) + (PrintDigits(n.whole) + tail);
  }

  /** No printed scalar ends in white space. */
  lemma ScalarEnds(v: Json)
    requires Scalar(v) && Writable(v)
    ensures Print(v) != [] && !IsWide(Print(v)[|Print(v)| - 1])
  {
    match v
    case Null => WordEnds("null");
    case Bool(b) => WordEnds(if b then "true" else "false");
    case Num(n) => NumberEnds(n);
    case NaN => WordEnds("NaN");
    case Infinity(negative) => WordEnds(if negative then "-Infinity" else "Infinity");
    case Str(text) => assert !IsWide(QUOTE);
  }

  lemma EndsBehind(entry: Text, tail: Text, end: nat)
    requires EndsDark(tail, end)
    ensures EndsDark(entry + (COMMA + tail), |entry| + 2 + end)
  {
    assert (entry + (COMMA + tail))[|entry| + 2 + end - 1] == tail[end - 1];
  }

  lemma EndsHere(name: Text, v: Json, rest: Text)
    requires PlainName(name) && Scalar(v) && Writable(v)
    ensures EndsDark(EntryOf(name, v) + rest, |EntryOf(name, v)|)
  {
    var n := |EntryOf(name, v)|;
    ScalarEnds(v);
    EntryText(name, v, []);
    Nothing(EntryOf(name, v));
    Nothing(Print(v));
    LastOf(Enclosed(name) + COLON, Print(v));
    Assoc(Enclosed(name), COLON, Print(v));
    assert (EntryOf(name, v) + rest)[n - 1] == EntryOf(name, v)[n - 1];
  }

  lemma LastOf(a: Text, b: Text)
    requires b != []
    ensures (a + b)[|a + b| - 1] == b[|b| - 1]
  {
  }

  lemma EndCharHere(k: Text, v: Json, tail: Members)
    requires PlainName(k) && Scalar(v) && Writable(v)
    ensures EndsDark(Body(Member(k, v, tail)), EndOf(Member(k, v, tail), k))
  {
    BodySplits(k, v, tail);
    EndsHere(k, v, RestOf(tail));
  }

  lemma EndCharBehind(name: Text, v: Json, tail: Members, k: Text)
    requires name != k && tail.Member? && EndsDark(Body(tail), EndOf(tail, k))
    ensures EndsDark(Body(Member(name, v, tail)), EndOf(Member(name, v, tail), k))
  {
    BodySplits(name, v, tail);
    EndsBehind(EntryOf(name, v), Body(tail), EndOf(tail, k));
  }

  /** The last character of a member's value stands where the member ends. */
  lemma {:induction false} EndChar(members: Members, k: Text, value: Json)
    requires Fields(members) && OnceNamed(members, k, value)
    ensures EndsDark(Body(members), EndOf(members, k))
  {
    match members
    case Member(name, v, tail) =>
      if name == k {
        EndCharHere(k, v, tail);
      } else {
        EndChar(tail, k, value);
        EndCharBehind(name, v, tail, k);
      }
  }

  /** Where a field of a reply ends. */
  function FieldEnd(o: Observation, confidence: Option<Json>, key: string): nat {
    1 + EndOf(ReplyMembers(o, confidence), Ascii(key))
  }

  lemma Reaches(o: Observation, confidence: Option<Json>, key: string, value: Json, m: nat, c: nat)
    requires MayState(confidence) && OPENING <= m < |ReplyText(o, confidence)|
    requires Leaves(ReplyText(o, confidence), m, c)
    requires OnceNamed(ReplyMembers(o, confidence), Ascii(key), value)
    ensures EndOf(ReplyMembers(o, confidence), Ascii(key)) <= c <==> FieldEnd(o, confidence, key) <= m
  {
    ReplyFields(o, confidence);
    ReplyOpens(o, confidence);
    EndChar(ReplyMembers(o, confidence), Ascii(key), value);
    StripReaches(Body(ReplyMembers(o, confidence)), m, c, EndOf(ReplyMembers(o, confidence), Ascii(key)));
  }

  // ------------------------------------------------------------------ every field of every cut

  lemma CutLeaves(o: Observation, confidence: Option<Json>, m: nat, c: nat)
    requires OPENING <= m < |ReplyText(o, confidence)| && Leaves(ReplyText(o, confidence), m, c)
    ensures 11 <= c < m && c <= |Body(ReplyMembers(o, confidence))|
    ensures Strip(ReplyText(o, confidence)[..m]) == [OPEN] + Body(ReplyMembers(o, confidence))[..c]
    ensures Extract(ReplyText(o, confidence)[..m]).None?
  {
    ReplyOpens(o, confidence);
    StrippedCut(Body(ReplyMembers(o, confidence)), m, c);
    TruncatedPrintIsNotFound(ReplyMembers(o, confidence), m);
  }

  /** What an observation keeps of a reply of which `c` characters are left behind the opening brace. */
  ghost predicate Keeps(cut: Observation, o: Observation, confidence: Option<Json>, note: Text, why: Text, c: nat,
                        stated: Option<Number>)
  {
    cut.metadata
 == WithConfidence(Noted(Noted(map[], "state_note", OrNothing(ShownIn(ReplyMembers(o, confidence), note, c))),
                         "confidence_why", OrNothing(ShownIn(ReplyMembers(o, confidence), why, c))), stated)
  }

  /** A reply that is cut anywhere after the opening quote of its output keeps what is shown of its output
      and of its two text notes, the error flag exactly if it was still written, and no other text field. */
  lemma TruncatedReply(o: Observation, confidence: Option<Json>, note: Text, why: Text, m: nat, c: nat, co: Coercions)
    requires MayState(confidence) && OPENING <= m < |ReplyText(o, confidence)| && NoteNames(note, why)
    requires Leaves(ReplyText(o, confidence), m, c)
    ensures var cut := ParseObservation(ReplyText(o, confidence)[..m], co);
            && 11 <= c && cut.content == ShownUnits(Units(o.content), c - 11)
            && cut.isError == (o.isError && FieldEnd(o, confidence, "is_error") <= m)
            && Keeps(cut, o, confidence, note, why, c,
                     Salvaged(FindConfidence(Strip(ReplyText(o, confidence)[..m])), co))
  {
    CutLeaves(o, confidence, m, c);
    OutputOfCut(o, confidence, c, co);
    NotesOfCut(o, confidence, note, why, c, co);
    FlagOfCut(o, confidence, c);
    FlagNamedOnce(o, confidence);
    Reaches(o, confidence, "is_error", Bool(o.isError), m, c);
    SalvageIs(ReplyText(o, confidence)[..m], [OPEN] + Body(ReplyMembers(o, confidence))[..c], co);
  }

  // ------------------------------------------------------------------ the text notes

  lemma NotesKeep(metadata: map<string, Json>, note: Text, why: Text, stated: Option<Number>, cut: Observation)
    requires metadata == WithConfidence(Noted(Noted(map[], "state_note", note), "confidence_why", why), stated)
    requires cut.metadata == metadata
    ensures TextNote(cut, "state_note") == note && TextNote(cut, "confidence_why") == why
    ensures "confidence" in metadata <==> stated.Some?
    ensures stated.Some? ==> metadata["confidence"] == Num(stated.value)
    ensures forall key :: key in metadata ==> key in {"state_note", "confidence_why", "confidence"}
  {
  }

  /** What hides a state note: an earlier string that is its name, or ends in a quote and its name. */
  predicate HidesNote(o: Observation, confidence: Option<Json>) {
    var k := Ascii("state_note");
    || EndsAs(o.content, k) || EndsAs(TextNote(o, "confidence_why"), k)
    || (confidence.Some? && confidence.value.Str? && EndsAs(confidence.value.text, k))
  }

  /** What hides a justification. */
  predicate HidesWhy(o: Observation) {
    EndsAs(o.content, Ascii("confidence_why"))
  }

  lemma MaskedStep(name: Text, v: Json, tail: Members, k: Text)
    ensures Masked(Member(name, v, tail), k) <==> name != k && ((v.Str? && EndsAs(v.text, k)) || Masked(tail, k))
  {
  }

  lemma NoteMasked(o: Observation, confidence: Option<Json>)
    requires TextNote(o, "state_note") != []
    ensures Masked(ReplyMembers(o, confidence), Ascii("state_note")) <==> HidesNote(o, confidence)
  {
    var k, why := Ascii("state_note"), TextNote(o, "confidence_why");
    OthersApart("state_note");
    MaskedStep(k, Str(TextNote(o, "state_note")), NoMembers, k);
    if confidence.Some? {
      MaskedStep(Ascii("confidence"), confidence.value, NoteMembers(o), k);
    }
    MaskedStep(Ascii("confidence_why"), Str(why), ConfidenceMembers(o, confidence), k);
    MaskedStep(Ascii("is_error"), Bool(o.isError), WhyMembers(o, confidence), k);
    MaskedStep(Ascii("output"), Str(o.content),
               Member(Ascii("is_error"), Bool(o.isError), WhyMembers(o, confidence)), k);
  }

  lemma WhyMasked(o: Observation, confidence: Option<Json>)
    requires TextNote(o, "confidence_why") != []
    ensures Masked(ReplyMembers(o, confidence), Ascii("confidence_why")) <==> HidesWhy(o)
  {
    var k := Ascii("confidence_why");
    OthersApart("confidence_why");
    MaskedStep(k, Str(TextNote(o, "confidence_why")), ConfidenceMembers(o, confidence), k);
    MaskedStep(Ascii("is_error"), Bool(o.isError), WhyMembers(o, confidence), k);
    MaskedStep(Ascii("output"), Str(o.content),
               Member(Ascii("is_error"), Bool(o.isError), WhyMembers(o, confidence)), k);
  }

  /** What is shown of a note that starts at this place: nothing if it is hidden or has not begun, else
      what the characters that are left show. */
  function Placed(hidden: bool, start: nat, text: Text, c: nat): Text {
    if hidden || c + 1 < start then [] else ShownUnits(Units(text), c + 1 - start)
  }

  lemma TextOfNote(members: Members, k: Text, text: Text, hidden: bool, c: nat)
    requires Stands(members, k, text, hidden)
    ensures OrNothing(ShownIn(members, k, c)) == Placed(hidden, 2 + StartOf(members, k), text, c)
  {
    ShownText(members, k, text, c);
  }

  /** The text is under that name once, and hidden or not. */
  ghost predicate Stands(members: Members, k: Text, text: Text, hidden: bool) {
    OnceNamed(members, k, Str(text)) && (Masked(members, k) <==> hidden)
  }

  lemma NoteFacts(o: Observation, confidence: Option<Json>, k: Text, hidden: bool)
    requires TextNote(o, "state_note") != [] && k == Ascii("state_note") && hidden == HidesNote(o, confidence)
    ensures Stands(ReplyMembers(o, confidence), k, TextNote(o, "state_note"), hidden)
  {
    NoteNamedOnce(o, confidence);
    NoteMasked(o, confidence);
  }

  lemma WhyFacts(o: Observation, confidence: Option<Json>, k: Text, hidden: bool)
    requires TextNote(o, "confidence_why") != [] && k == Ascii("confidence_why") && hidden == HidesWhy(o)
    ensures Stands(ReplyMembers(o, confidence), k, TextNote(o, "confidence_why"), hidden)
  {
    WhyNamedOnce(o, confidence);
    WhyMasked(o, confidence);
  }

  lemma TextIsPlaced(o: Observation, confidence: Option<Json>, k: Text, text: Text, hidden: bool, c: nat)
    requires Stands(ReplyMembers(o, confidence), k, text, hidden)
    ensures OrNothing(ShownIn(ReplyMembers(o, confidence), k, c))
         == Placed(hidden, 2 + StartOf(ReplyMembers(o, confidence), k), text, c)
  {
    TextOfNote(ReplyMembers(o, confidence), k, text, hidden, c);
  }

  lemma NoteIsPlaced(o: Observation, confidence: Option<Json>, k: Text, text: Text, hidden: bool, c: nat)
    requires k == Ascii("state_note") && text == TextNote(o, "state_note") && hidden == HidesNote(o, confidence)
    ensures OrNothing(ShownIn(ReplyMembers(o, confidence), k, c))
         == if text == [] then [] else Placed(hidden, 2 + StartOf(ReplyMembers(o, confidence), k), text, c)
  {
    if text == [] {
      NoNoteNamed(o, confidence);
      NotShown(ReplyMembers(o, confidence), k, c);
    } else {
      NoteFacts(o, confidence, k, hidden);
      TextIsPlaced(o, confidence, k, text, hidden, c);
    }
  }

  lemma WhyIsPlaced(o: Observation, confidence: Option<Json>, k: Text, text: Text, hidden: bool, c: nat)
    requires k == Ascii("confidence_why") && text == TextNote(o, "confidence_why") && hidden == HidesWhy(o)
    ensures OrNothing(ShownIn(ReplyMembers(o, confidence), k, c))
         == if text == [] then [] else Placed(hidden, 2 + StartOf(ReplyMembers(o, confidence), k), text, c)
  {
    if text == [] {
      NoWhyNamed(o, confidence);
      NotShown(ReplyMembers(o, confidence), k, c);
    } else {
      WhyFacts(o, confidence, k, hidden);
      TextIsPlaced(o, confidence, k, text, hidden, c);
    }
  }

  /** The state note that is kept, by its place. */
  lemma KeptNote(cut: Observation, o: Observation, confidence: Option<Json>, k: Text, c: nat,
                 why: Text, stated: Option<Number>)
    requires k == Ascii("state_note")
    requires cut.metadata
          == WithConfidence(Noted(Noted(map[], "state_note", OrNothing(ShownIn(ReplyMembers(o, confidence), k, c))),
                                  "confidence_why", why), stated)
    ensures TextNote(cut, "state_note")
         == if TextNote(o, "state_note") == [] then []
            else Placed(HidesNote(o, confidence), 2 + StartOf(ReplyMembers(o, confidence), k),
                        TextNote(o, "state_note"), c)
  {
    NotesKeep(cut.metadata, OrNothing(ShownIn(ReplyMembers(o, confidence), k, c)), why, stated, cut);
    NoteIsPlaced(o, confidence, k, TextNote(o, "state_note"), HidesNote(o, confidence), c);
  }

  /** The justification that is kept, by its place. */
  lemma KeptWhy(cut: Observation, o: Observation, confidence: Option<Json>, k: Text, c: nat,
                note: Text, stated: Option<Number>)
    requires k == Ascii("confidence_why")
    requires cut.metadata
          == WithConfidence(Noted(Noted(map[], "state_note", note), "confidence_why",
                                  OrNothing(ShownIn(ReplyMembers(o, confidence), k, c))), stated)
    ensures TextNote(cut, "confidence_why")
         == if TextNote(o, "confidence_why") == [] then []
            else Placed(HidesWhy(o), 2 + StartOf(ReplyMembers(o, confidence), k), TextNote(o, "confidence_why"), c)
  {
    NotesKeep(cut.metadata, note, OrNothing(ShownIn(ReplyMembers(o, confidence), k, c)), stated, cut);
    WhyIsPlaced(o, confidence, k, TextNote(o, "confidence_why"), HidesWhy(o), c);
  }

  /** The two text notes of a cut reply: each is nothing if it is hidden or has not begun, else what the
      characters that are left show of it. */
  lemma NotesByPlace(o: Observation, confidence: Option<Json>, note: Text, why: Text, m: nat, c: nat, co: Coercions)
    requires MayState(confidence) && OPENING <= m < |ReplyText(o, confidence)| && NoteNames(note, why)
    requires Leaves(ReplyText(o, confidence), m, c)
    ensures var cut := ParseObservation(ReplyText(o, confidence)[..m], co);
            && TextNote(cut, "state_note")
            == (if TextNote(o, "state_note") == [] then []
                else Placed(HidesNote(o, confidence), 2 + StartOf(ReplyMembers(o, confidence), note),
                            TextNote(o, "state_note"), c))
            && TextNote(cut, "confidence_why")
            == (if TextNote(o, "confidence_why") == [] then []
                else Placed(HidesWhy(o), 2 + StartOf(ReplyMembers(o, confidence), why),
                            TextNote(o, "confidence_why"), c))
  {
    var cut := ParseObservation(ReplyText(o, confidence)[..m], co);
    var stated := Salvaged(FindConfidence(Strip(ReplyText(o, confidence)[..m])), co);
    TruncatedReply(o, confidence, note, why, m, c, co);
    KeptNote(cut, o, confidence, note, c, OrNothing(ShownIn(ReplyMembers(o, confidence), why, c)), stated);
    KeptWhy(cut, o, confidence, why, c, OrNothing(ShownIn(ReplyMembers(o, confidence), note, c)), stated);
  }

  // ------------------------------------------------------------------ closed notes

  lemma LeftBehind(body: Text, m: nat) returns (c: nat)
    requires 10 < |body| && body[10] == QUOTE && OPENING <= m <= |body|
    ensures Leaves([OPEN] + body, m, c)
  {
    var cut := ([OPEN] + body)[..m];
    assert cut[11] == body[10] && !IsWide(QUOTE);
    StripRightAtLeast(cut, 12);
    c := |StripRight(cut)| - 1;
  }

  lemma LeftOf(o: Observation, confidence: Option<Json>, m: nat) returns (c: nat)
    requires OPENING <= m < |ReplyText(o, confidence)|
    ensures Leaves(ReplyText(o, confidence), m, c)
  {
    ReplyOpens(o, confidence);
    c := LeftBehind(Body(ReplyMembers(o, confidence)), m);
  }

  lemma StringEndsHere(k: Text, text: Text)
    requires PlainName(k)
    ensures |EntryOf(k, Str(text))| == |k| + 4 + |Escaped(text)| + 2
  {
    EntryText(k, Str(text), []);
    Nothing(EntryOf(k, Str(text)));
  }

  lemma {:induction false} StringEnds(members: Members, k: Text, text: Text)
    requires Fields(members) && OnceNamed(members, k, Str(text))
    ensures EndOf(members, k) == StartOf(members, k) + |Escaped(text)| + 2
  {
    match members
    case Member(name, value, tail) =>
      if name == k {
        StringEndsHere(k, text);
      } else {
        StringEnds(tail, k, text);
      }
  }

  /** A note whose closing quote is there is shown whole. */
  lemma PlacedWhole(hidden: bool, start: nat, text: Text, c: nat)
    requires start + |Escaped(text)| <= c + 1
    ensures Placed(hidden, start, text, c) == if hidden then [] else Recover(Units(text))
  {
    AllShown(Units(text), c + 1 - start);
  }

  lemma RecoveredExactly(text: Text)
    ensures Recover(Units(text)) == text <==> AllFaithful(text)
  {
    if AllFaithful(text) {
      RecoverFaithful(text);
    } else {
      var i := RecoverDeparts(text);
    }
  }


  lemma ReachesNote(o: Observation, confidence: Option<Json>, k: Text, m: nat, c: nat)
    requires MayState(confidence) && OPENING <= m < |ReplyText(o, confidence)|
    requires k == Ascii("state_note") && TextNote(o, "state_note") != []
    requires Leaves(ReplyText(o, confidence), m, c)
    ensures EndOf(ReplyMembers(o, confidence), k) <= c <==> 1 + EndOf(ReplyMembers(o, confidence), k) <= m
  {
    NoteNamedOnce(o, confidence);
    Reaches(o, confidence, "state_note", Str(TextNote(o, "state_note")), m, c);
  }

  lemma ReachesWhy(o: Observation, confidence: Option<Json>, k: Text, m: nat, c: nat)
    requires MayState(confidence) && OPENING <= m < |ReplyText(o, confidence)|
    requires k == Ascii("confidence_why") && TextNote(o, "confidence_why") != []
    requires Leaves(ReplyText(o, confidence), m, c)
    ensures EndOf(ReplyMembers(o, confidence), k) <= c <==> 1 + EndOf(ReplyMembers(o, confidence), k) <= m
  {
    WhyNamedOnce(o, confidence);
    Reaches(o, confidence, "confidence_why", Str(TextNote(o, "confidence_why")), m, c);
  }

  lemma Survives(shown: Text, hidden: bool, start: nat, text: Text, c: nat)
    requires shown == Placed(hidden, start, text, c) && text != [] && start + |Escaped(text)| <= c + 1
    ensures shown == text <==> AllFaithful(text) && !hidden
  {
    PlacedWhole(hidden, start, text, c);
    RecoveredExactly(text);
  }

  /** A text whose closing quote is left. */
  lemma ShownWhole(shown: Text, members: Members, k: Text, text: Text, hidden: bool, c: nat)
    requires Fields(members) && Stands(members, k, text, hidden) && EndOf(members, k) <= c && text != []
    requires shown == Placed(hidden, 2 + StartOf(members, k), text, c)
    ensures shown == text <==> AllFaithful(text) && !hidden
  {
    StringEnds(members, k, text);
    Survives(shown, hidden, 2 + StartOf(members, k), text, c);
  }

  lemma TextWhole(shown: Text, o: Observation, confidence: Option<Json>, k: Text, text: Text, hidden: bool, c: nat)
    requires MayState(confidence) && Stands(ReplyMembers(o, confidence), k, text, hidden) && text != []
    requires EndOf(ReplyMembers(o, confidence), k) <= c
    requires shown == Placed(hidden, 2 + StartOf(ReplyMembers(o, confidence), k), text, c)
    ensures shown == text <==> AllFaithful(text) && !hidden
  {
    ReplyFields(o, confidence);
    ShownWhole(shown, ReplyMembers(o, confidence), k, text, hidden, c);
  }

  /** A state note whose closing quote is still there is kept exactly if all its characters survive the
      salvage and no earlier string ends as its name. */
  lemma NoteSurvives(o: Observation, confidence: Option<Json>, note: Text, why: Text, text: Text, hidden: bool,
                     m: nat, co: Coercions)
    requires MayState(confidence) && NoteNames(note, why)
    requires text == TextNote(o, "state_note") != [] && hidden == HidesNote(o, confidence)
    requires OPENING <= m && 1 + EndOf(ReplyMembers(o, confidence), note) <= m < |ReplyText(o, confidence)|
    ensures TextNote(ParseObservation(ReplyText(o, confidence)[..m], co), "state_note") == text
       <==> AllFaithful(text) && !hidden
  {
    var c := LeftOf(o, confidence, m);
    NotesByPlace(o, confidence, note, why, m, c, co);
    ReachesNote(o, confidence, note, m, c);
    NoteFacts(o, confidence, note, hidden);
    TextWhole(TextNote(ParseObservation(ReplyText(o, confidence)[..m], co), "state_note"),
              o, confidence, note, text, hidden, c);
  }

  /** A justification, likewise; only the content stands before it. */
  lemma WhySurvives(o: Observation, confidence: Option<Json>, note: Text, why: Text, text: Text, hidden: bool,
                    m: nat, co: Coercions)
    requires MayState(confidence) && NoteNames(note, why)
    requires text == TextNote(o, "confidence_why") != [] && hidden == HidesWhy(o)
    requires OPENING <= m && 1 + EndOf(ReplyMembers(o, confidence), why) <= m < |ReplyText(o, confidence)|
    ensures TextNote(ParseObservation(ReplyText(o, confidence)[..m], co), "confidence_why") == text
       <==> AllFaithful(text) && !hidden
  {
    var c := LeftOf(o, confidence, m);
    NotesByPlace(o, confidence, note, why, m, c, co);
    ReachesWhy(o, confidence, why, m, c);
    WhyFacts(o, confidence, why, hidden);
    TextWhole(TextNote(ParseObservation(ReplyText(o, confidence)[..m], co), "confidence_why"),
              o, confidence, why, text, hidden, c);
  }

  // ------------------------------------------------------------------ the two confidence paths

  /** The confidence of a parsed observation. */
  function ConfidenceIn(o: Observation): Option<Number> {
    if "confidence" in o.metadata && o.metadata["confidence"].Num? then Some(o.metadata["confidence"].number) else None
  }

  lemma ConfidenceKeeps(note: Text, why: Text, stated: Option<Number>, cut: Observation)
    requires cut.metadata == WithConfidence(Noted(Noted(map[], "state_note", note), "confidence_why", why), stated)
    ensures ConfidenceIn(cut) == stated
  {
    NotesKeep(cut.metadata, note, why, stated, cut);
  }

  lemma FoundInCut(o: Observation, v: Json, c: nat)
    requires MayState(Some(v)) && c <= |Body(ReplyMembers(o, Some(v)))|
    ensures FindConfidence([OPEN] + Body(ReplyMembers(o, Some(v)))[..c])
         == StatedUpTo(v, Behind(ValueAt(ReplyMembers(o, Some(v)), "confidence"), c))
  {
    KeysArePlain();
    ReplyFields(o, Some(v));
    ConfidenceNamedOnce(o, v);
    BraceSearches(Body(ReplyMembers(o, Some(v)))[..c]);
    ConfidenceShown(ReplyMembers(o, Some(v)), v, c);
  }

  /** Where a reply is cut anywhere behind the opening quote of its output, the confidence that is accepted
      is what is left of the stated one: the digits of a number without a sign and, once one digit stands
      behind the point, its fraction. */
  lemma ConfidenceByPlace(o: Observation, v: Json, m: nat, c: nat, co: Coercions)
    requires MayState(Some(v)) && OPENING <= m < |ReplyText(o, Some(v))| && Leaves(ReplyText(o, Some(v)), m, c)
    ensures ConfidenceIn(ParseObservation(ReplyText(o, Some(v))[..m], co))
         == Salvaged(StatedUpTo(v, Behind(ValueAt(ReplyMembers(o, Some(v)), "confidence"), c)), co)
  {
    var found := StatedUpTo(v, Behind(ValueAt(ReplyMembers(o, Some(v)), "confidence"), c));
    CutLeaves(o, Some(v), m, c);
    FoundInCut(o, v, c);
    var note, why := Ascii("state_note"), Ascii("confidence_why");
    TruncatedReply(o, Some(v), note, why, m, c, co);
    ConfidenceKeeps(OrNothing(ShownIn(ReplyMembers(o, Some(v)), note, c)),
                    OrNothing(ShownIn(ReplyMembers(o, Some(v)), why, c)), Salvaged(found, co),
                    ParseObservation(ReplyText(o, Some(v))[..m], co));
  }

  lemma {:induction false} ValueEnds(members: Members, key: string, v: Json)
    requires Fields(members) && PlainName(Ascii(key)) && OnceNamed(members, Ascii(key), v)
    ensures EndOf(members, Ascii(key)) == ValueAt(members, key) + |Print(v)|
  {
    match members
    case Member(name, value, tail) =>
      if name == Ascii(key) {
        WholeMember(key, v, tail);
      } else {
        ValueEnds(tail, key, v);
      }
  }

  /** The search reads a confidence that is still whole without its exponent, and none that is signed or
      not a number, wherever the reply is cut behind it. */
  lemma SalvageDropsExponent(o: Observation, v: Json, m: nat, co: Coercions)
    requires MayState(Some(v)) && OPENING <= m
    requires FieldEnd(o, Some(v), "confidence") <= m < |ReplyText(o, Some(v))|
    ensures ConfidenceIn(ParseObservation(ReplyText(o, Some(v))[..m], co)) == Salvaged(WithoutExponent(v), co)
  {
    var c := LeftOf(o, Some(v), m);
    ConfidenceByPlace(o, v, m, c, co);
    KeysArePlain();
    ReplyFields(o, Some(v));
    ConfidenceNamedOnce(o, v);
    Reaches(o, Some(v), "confidence", v, m, c);
    ValueEnds(ReplyMembers(o, Some(v)), "confidence", v);
    NumberIsWhole(v, Behind(ValueAt(ReplyMembers(o, Some(v)), "confidence"), c));
  }

  /** A reply that states no confidence is never read as stating one, whatever its strings say. */
  lemma NoneIsSalvaged(o: Observation, m: nat, co: Coercions)
    requires OPENING <= m < |ReplyText(o, None)|
    ensures ConfidenceIn(ParseObservation(ReplyText(o, None)[..m], co)).None?
  {
    var c := LeftOf(o, None, m);
    CutLeaves(o, None, m, c);
    KeysArePlain();
    ReplyFields(o, None);
    NoConfidenceNamed(o);
    BraceSearches(Body(ReplyMembers(o, None))[..c]);
    NoConfidenceShown(ReplyMembers(o, None), c);
    var note, why := Ascii("state_note"), Ascii("confidence_why");
    TruncatedReply(o, None, note, why, m, c, co);
    ConfidenceKeeps(OrNothing(ShownIn(ReplyMembers(o, None), note, c)),
                    OrNothing(ShownIn(ReplyMembers(o, None), why, c)), None,
                    ParseObservation(ReplyText(o, None)[..m], co));
  }

  /** The whole reply is read as the validator reads it. */
  lemma ValidatorAccepts(o: Observation, v: Json, co: Coercions)
    requires MayState(Some(v)) && Standard(co)
    ensures ConfidenceIn(ParseObservation(ReplyText(o, Some(v)), co)) == AcceptedConfidence(Folded(v), co)
  {
    var text := ReplyText(o, Some(v));
    Nothing(text);
    assert [] + text + [] == text;
    ReplyParsed([], o, Some(v), [], co);
    var folded := FoldedObservation(o);
    ConfidenceKeeps(TextNote(folded, "state_note"), TextNote(folded, "confidence_why"),
                    AcceptedConfidence(Folded(v), co), ParseObservation(text, co));
  }

  lemma {:induction false} PowerStep(e: int)
    ensures PowerOfTen(e) > 0.0 && PowerOfTen(e + 1) == PowerOfTen(e) * 10.0
    decreases if e < 0 then -e else e
  {
    if e > 0 {
      PowerStep(e - 1);
    } else if e < 0 {
      PowerStep(e + 1);
    }
  }

  lemma {:induction false} PowerGrows(a: int, b: int)
    requires a < b
    ensures PowerOfTen(a) < PowerOfTen(b)
    decreases b - a
  {
    PowerStep(b - 1);
    if a < b - 1 {
      PowerGrows(a, b - 1);
    }
  }

  /** Dropping the exponent keeps the value exactly of numbers whose exponent or whose digits are zero. */
  predicate PlainlySized(n: Number) {
    ExponentOf(n) == 0 || DigitsValue(n.whole + FractionOf(n)) == 0
  }

  lemma PowersApart(a: int, b: int)
    ensures PowerOfTen(a) == PowerOfTen(b) <==> a == b
  {
    if a < b {
      PowerGrows(a, b);
    } else if b < a {
      PowerGrows(b, a);
    }
  }

  lemma SameProduct(d: nat, p: real, q: real)
    ensures d as real * p == d as real * q <==> d == 0 || p == q
  {
    assert d as real * p - d as real * q == d as real * (p - q);
  }

  lemma SameSize(v: real, w: real, d: nat, p: real, q: real)
    requires v == Scaled(d, p) && w == Scaled(d, q)
    ensures v == w <==> d == 0 || p == q
  {
    SameProduct(d, p, q);
  }

  lemma ExponentMatters(n: Number)
    requires !n.negative
    ensures Value(n.(exp := None)) == Value(n) <==> PlainlySized(n)
  {
    var d, plain := DigitsValue(n.whole + FractionOf(n)), n.(exp := None);
    var p, q := PowerOfTen(ExponentOf(plain) - |FractionOf(n)|), PowerOfTen(ExponentOf(n) - |FractionOf(n)|);
    SameSize(Value(plain), Value(n), d, p, q);
    PowersApart(ExponentOf(plain) - |FractionOf(n)|, ExponentOf(n) - |FractionOf(n)|);
    assert p == q <==> ExponentOf(n) == 0;
  }

  predicate SameConfidence(a: Option<Number>, b: Option<Number>) {
    a.Some? && b.Some? && Value(a.value) == Value(b.value)
  }

  lemma PathsAgree(v: Json, co: Coercions)
    requires Scalar(v) && AcceptedConfidence(Folded(v), co).Some?
    ensures SameConfidence(Salvaged(WithoutExponent(v), co), AcceptedConfidence(Folded(v), co))
       <==> v.Num? && !v.number.negative && PlainlySized(v.number)
  {
    if v.Num? && !v.number.negative {
      ExponentMatters(v.number);
      FloatKeepsValue(v.number);
      FloatKeepsValue(v.number.(exp := None));
    }
  }

  /** Of a confidence that the validator accepts, the salvage path reads the same value from a reply that
      is cut behind it exactly when it is written as a number without a sign, and its exponent or its
      digits are zero. A number in a string, which the validator accepts, is lost. */
  lemma ConfidencePathsAgree(o: Observation, v: Json, m: nat, co: Coercions)
    requires MayState(Some(v)) && Standard(co) && OPENING <= m
    requires FieldEnd(o, Some(v), "confidence") <= m < |ReplyText(o, Some(v))|
    requires ConfidenceIn(ParseObservation(ReplyText(o, Some(v)), co)).Some?
    ensures SameConfidence(ConfidenceIn(ParseObservation(ReplyText(o, Some(v))[..m], co)),
                           ConfidenceIn(ParseObservation(ReplyText(o, Some(v)), co)))
       <==> v.Num? && !v.number.negative && PlainlySized(v.number)
  {
    SalvageDropsExponent(o, v, m, co);
    ValidatorAccepts(o, v, co);
    PathsAgree(v, co);
  }

  /** One hundred-thousandth, as a program prints it. */
  const SMALL := Number(false, [1], None, Some(Exponent(false, Some(true), [0, 5])))

  lemma SmallValue()
    ensures SMALL.Valid() && Value(SMALL) == 0.00001 && Value(SMALL.(exp := None)) == 1.0
  {
    assert [0, 5][..1] == [0] && [0][..0] == [];
    assert DigitsValue([0]) == 0;
    assert DigitsValue([0, 5]) == 5;
    assert [1][..0] == [] && [1] + [] == [1];
    assert DigitsValue([1]) == 1;
    assert PowerOfTen(-5) == 0.00001 by {
      assert PowerOfTen(-1) == 0.1;
      assert PowerOfTen(-2) == 0.01;
      assert PowerOfTen(-3) == 0.001;
      assert PowerOfTen(-4) == 0.0001;
    }
  }

  /** A stated confidence of 1e-05 is read as such from the whole reply, and as certainty from a cut one. */
  lemma SmallConfidenceBecomesCertainty(o: Observation, m: nat, co: Coercions)
    requires Standard(co) && OPENING <= m
    requires FieldEnd(o, Some(Num(SMALL)), "confidence") <= m < |ReplyText(o, Some(Num(SMALL)))|
    ensures var whole, cut := ConfidenceIn(ParseObservation(ReplyText(o, Some(Num(SMALL))), co)),
                              ConfidenceIn(ParseObservation(ReplyText(o, Some(Num(SMALL)))[..m], co));
            whole.Some? && Value(whole.value) == 0.00001 && cut.Some? && Value(cut.value) == 1.0
  {
    var v := Num(SMALL);
    SmallValue();
    SalvageDropsExponent(o, v, m, co);
    ValidatorAccepts(o, v, co);
    FloatKeepsValue(SMALL);
    FloatKeepsValue(SMALL.(exp := None));
  }
}
