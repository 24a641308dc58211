/** What printing an observation and parsing the reply preserves, for complete and truncated text. */
module ObservationContract {
  import opened Options
  import opened CodePoints
  import opened Json
  import opened JsonRoundTrip
  import opened ObjectScanner
  import opened Parsing
  import opened Sequences

  // ------------------------------------------------------------------ field names

  lemma AsciiApart(a: string, b: string)
    requires Ascii(a) == Ascii(b)
    ensures a == b
  {
    forall i | 0 <= i < |a| ensures a[i] == b[i] {
      assert Ascii(a)[i] == Ascii(b)[i];
    }
  }

  ghost predicate Name(key: string) {
    forall i :: 0 <= i < |key| ==> 'a' <= key[i] <= 'z' || key[i] == '_'
  }

  lemma {:induction false} BlandUnits(text: Text)
    requires forall i :: 0 <= i < |text| ==> 95 <= text[i] <= 122
    ensures EscapeUnits(Units(text)) == text
  {
    if text != [] {
      BlandUnits(text[1..]);
      assert Units(text)[1..] == Units(text[1..]);
    }
  }

  lemma NamePrints(key: string)
    requires Name(key)
    ensures PrintString(Ascii(key)) == QuotedName(key)
  {
    BlandUnits(Ascii(key));
  }

  // ------------------------------------------------------------------ the members of a printed contract

  /** The value printed under each name. */
  function Stated(o: Observation, confidence: Option<Json>, key: string): Option<Json> {
    if key == "output" then Some(Str(o.content))
    else if key == "is_error" then Some(Bool(o.isError))
    else if key == "confidence" then confidence
    else if (key == "confidence_why" || key == "state_note") && TextNote(o, key) != [] then Some(Str(TextNote(o, key)))
    else None
  }

  lemma LookupFirst(name: string, value: Json, tail: Members, key: string)
    ensures Lookup(Member(Ascii(name), value, tail), key)
         == if Lookup(tail, key).Some? then Lookup(tail, key) else if name == key then Some(value) else None
  {
    if Ascii(name) == Ascii(key) {
      AsciiApart(name, key);
    }
  }

  lemma StatedIsFound(o: Observation, confidence: Option<Json>, key: string)
    ensures Lookup(ReplyMembers(o, confidence), key) == Stated(o, confidence, key)
  {
    LookupFirst("state_note", Str(TextNote(o, "state_note")), NoMembers, key);
    if confidence.Some? {
      LookupFirst("confidence", confidence.value, NoteMembers(o), key);
    }
    LookupFirst("confidence_why", Str(TextNote(o, "confidence_why")), ConfidenceMembers(o, confidence), key);
    LookupFirst("is_error", Bool(o.isError), WhyMembers(o, confidence), key);
    LookupFirst("output", Str(o.content), Member(Ascii("is_error"), Bool(o.isError), WhyMembers(o, confidence)), key);
  }

  // ------------------------------------------------------------------ what survives

  function KeptConfidence(o: Observation): Option<Number> {
    if "confidence" in o.metadata && o.metadata["confidence"].Num? && InUnit(o.metadata["confidence"].number)
    then Some(AsFloat(o.metadata["confidence"].number))
    else None
  }

  /** Content, error flag, the two non-empty text notes, and a confidence in the unit interval; all
      other metadata is dropped. */
  function Kept(o: Observation): Observation {
    KeptWith(o, KeptConfidence(o))
  }

  lemma {:induction false} DigitsShifted(digits: seq<Digit>)
    ensures DigitsValue(digits + [0]) == DigitsValue(digits) * 10
  {
    assert (digits + [0])[..|digits|] == digits;
  }

  lemma FloatKeepsValue(n: Number)
    ensures Value(AsFloat(n)) == Value(n)
  {
    if n.frac.None? && n.exp.None? {
      DigitsShifted(n.whole);
      assert n.whole + [] == n.whole;
      assert PowerOfTen(-1) == 0.1;
    }
  }

  /** What is kept of a reply whose stated confidence reads as this one. */
  function KeptWith(o: Observation, confidence: Option<Number>): Observation {
    Observation(o.content, o.isError,
                WithConfidence(Noted(Noted(map[], "state_note", TextNote(o, "state_note")),
                                     "confidence_why", TextNote(o, "confidence_why")),
                               confidence))
  }

  lemma NotesKept(o: Observation, confidence: Option<Json>)
    ensures NotesOf(ReplyMembers(o, confidence), 6)
         == Noted(Noted(map[], "state_note", TextNote(o, "state_note")), "confidence_why",
                  TextNote(o, "confidence_why"))
    ensures forall i :: 0 <= i < |NOTES| ==> TextField(ReplyMembers(o, confidence), NOTES[i]).Some?
  {
    var members := ReplyMembers(o, confidence);
    forall i | 0 <= i < |NOTES|
      ensures TextField(members, NOTES[i])
           == Some(if i == 0 || i == 5 then TextNote(o, NOTES[i]) else [])
    {
      StatedIsFound(o, confidence, NOTES[i]);
    }
    assert NotesOf(members, 0) == map[];
    assert NotesOf(members, 1) == Noted(map[], "state_note", TextNote(o, "state_note"));
    assert NotesOf(members, 2) == NotesOf(members, 1);
    assert NotesOf(members, 3) == NotesOf(members, 2);
    assert NotesOf(members, 4) == NotesOf(members, 3);
    assert NotesOf(members, 5) == NotesOf(members, 4);
  }

  /** The confidence that the validator accepts. */
  function Accepted(confidence: Option<Json>, co: Coercions): Option<Number> {
    if confidence.None? then None else AcceptedConfidence(confidence.value, co)
  }

  lemma ReplyValidates(o: Observation, confidence: Option<Json>, co: Coercions)
    requires Standard(co)
    ensures IsContract(ReplyMembers(o, confidence))
    ensures Validated(ReplyMembers(o, confidence), co) == Some(KeptWith(o, Accepted(confidence, co)))
  {
    StatedIsFound(o, confidence, "output");
    StatedIsFound(o, confidence, "is_error");
    StatedIsFound(o, confidence, "confidence");
    NotesKept(o, confidence);
  }

  /** A float is accepted exactly where the number is, and is its own float. */
  lemma FloatIsAccepted(n: Number, co: Coercions)
    ensures AcceptedConfidence(Num(AsFloat(n)), co) == if InUnit(n) then Some(AsFloat(n)) else None
  {
    FloatKeepsValue(n);
  }

  lemma ConfidenceKept(o: Observation, co: Coercions)
    ensures Accepted(ConfidenceNote(o), co) == KeptConfidence(o)
  {
    if "confidence" in o.metadata && o.metadata["confidence"].Num? {
      FloatIsAccepted(o.metadata["confidence"].number, co);
    }
  }

  // ------------------------------------------------------------------ surrogate pairs

  /** The observation with the surrogate pairs of its strings folded. */
  function FoldedObservation(o: Observation): Observation {
    Observation(Fold(Units(o.content)), o.isError, map key | key in o.metadata :: Folded(o.metadata[key]))
  }

  lemma FoldedNote(o: Observation, key: string)
    ensures TextNote(FoldedObservation(o), key) == Fold(Units(TextNote(o, key)))
    ensures TextNote(FoldedObservation(o), key) == [] <==> TextNote(o, key) == []
  {
  }

  /** Names of lower-case letters and underscores hold no surrogates, so only the values change. */
  ghost predicate PlainKeys(members: Members) {
    members.Member? ==> (forall i :: 0 <= i < |members.key| ==> 95 <= members.key[i] <= 122) && PlainKeys(members.tail)
  }

  function FoldedValues(members: Members): Members {
    match members
    case NoMembers => NoMembers
    case Member(key, value, tail) => Member(key, Folded(value), FoldedValues(tail))
  }

  lemma {:induction false} PlainKeysStay(members: Members)
    requires PlainKeys(members)
    ensures FoldedMembers(members) == FoldedValues(members)
  {
    if members.Member? {
      FoldInvertsUnits(members.key);
      PlainKeysStay(members.tail);
    }
  }

  lemma ReplyKeysArePlain(o: Observation, confidence: Option<Json>)
    ensures PlainKeys(ReplyMembers(o, confidence))
  {
    assert PlainKeys(NoteMembers(o));
    assert PlainKeys(ConfidenceMembers(o, confidence));
    assert PlainKeys(WhyMembers(o, confidence));
  }

  function FoldedOption(confidence: Option<Json>): Option<Json> {
    if confidence.None? then None else Some(Folded(confidence.value))
  }

  lemma ReplyFolds(o: Observation, confidence: Option<Json>)
    ensures FoldedMembers(ReplyMembers(o, confidence)) == ReplyMembers(FoldedObservation(o), FoldedOption(confidence))
  {
    ReplyKeysArePlain(o, confidence);
    PlainKeysStay(ReplyMembers(o, confidence));
    ReplyValuesFold(o, confidence);
  }

  lemma ReplyValuesFold(o: Observation, confidence: Option<Json>)
    ensures FoldedValues(ReplyMembers(o, confidence)) == ReplyMembers(FoldedObservation(o), FoldedOption(confidence))
  {
    var folded, fold := FoldedObservation(o), FoldedOption(confidence);
    FoldedNote(o, "state_note");
    FoldedNote(o, "confidence_why");
    assert FoldedValues(NoteMembers(o)) == NoteMembers(folded);
    assert FoldedValues(ConfidenceMembers(o, confidence)) == ConfidenceMembers(folded, fold);
    assert FoldedValues(WhyMembers(o, confidence)) == WhyMembers(folded, fold);
  }

  lemma ConfidenceNoteFolds(o: Observation)
    ensures FoldedOption(ConfidenceNote(o)) == ConfidenceNote(FoldedObservation(o))
  {
  }

  ghost predicate StatesNumber(o: Observation) {
    "confidence" in o.metadata && o.metadata["confidence"].Num? ==> o.metadata["confidence"].number.Valid()
  }

  lemma WritableMore(key: Text, value: Json, tail: Members)
    requires Writable(value) && WritableMembers(tail)
    ensures WritableMembers(Member(key, value, tail))
  {
  }

  lemma ReplyIsWritable(o: Observation, confidence: Option<Json>)
    requires confidence.Some? ==> Writable(confidence.value)
    ensures WritableMembers(ReplyMembers(o, confidence))
  {
    WritableMore(Ascii("state_note"), Str(TextNote(o, "state_note")), NoMembers);
    if confidence.Some? {
      WritableMore(Ascii("confidence"), confidence.value, NoteMembers(o));
    }
    WritableMore(Ascii("confidence_why"), Str(TextNote(o, "confidence_why")), ConfidenceMembers(o, confidence));
    WritableMore(Ascii("is_error"), Bool(o.isError), WhyMembers(o, confidence));
    WritableMore(Ascii("output"), Str(o.content),
                 Member(Ascii("is_error"), Bool(o.isError), WhyMembers(o, confidence)));
  }

  lemma KeptFoldsExactly(o: Observation)
    ensures Kept(FoldedObservation(o)) == Kept(o)
       <==> PairFree(o.content) && PairFree(TextNote(o, "state_note")) && PairFree(TextNote(o, "confidence_why"))
  {
    var folded := FoldedObservation(o);
    FoldUnitsExact(o.content);
    FoldUnitsExact(TextNote(o, "state_note"));
    FoldUnitsExact(TextNote(o, "confidence_why"));
    FoldedNote(o, "state_note");
    FoldedNote(o, "confidence_why");
    assert KeptConfidence(folded) == KeptConfidence(o);
    NoteShows(o, "state_note");
    NoteShows(folded, "state_note");
    NoteShows(o, "confidence_why");
    NoteShows(folded, "confidence_why");
  }

  lemma NoteShows(o: Observation, key: string)
    requires key == "state_note" || key == "confidence_why"
    ensures TextNote(o, key)
         == if key in Kept(o).metadata && Kept(o).metadata[key].Str? then Kept(o).metadata[key].text else []
  {
  }

  /** A complete reply, with prose around it, is read as the validator reads its fields. */
  lemma ReplyParsed(prefix: Text, o: Observation, confidence: Option<Json>, suffix: Text, co: Coercions)
    requires OPEN !in prefix && Standard(co) && (confidence.Some? ==> Writable(confidence.value))
    ensures ParseObservation(prefix + Print(Obj(ReplyMembers(o, confidence))) + suffix, co)
         == KeptWith(FoldedObservation(o), Accepted(FoldedOption(confidence), co))
  {
    var members := ReplyMembers(o, confidence);
    PrintedIsFound(prefix, members, suffix);
    ReplyIsWritable(o, confidence);
    LoadsInvertsPrint(Obj(members));
    ReplyFolds(o, confidence);
    ReplyValidates(FoldedObservation(o), FoldedOption(confidence), co);
  }

  /** Print and parse: wherever the printed contract stands in a reply, as long as no brace opens before
      it, parsing keeps exactly the listed parts, and keeps them unchanged exactly when no string
      hides a surrogate pair. */
  lemma RoundTrip(prefix: Text, o: Observation, suffix: Text, co: Coercions)
    requires OPEN !in prefix && Standard(co) && StatesNumber(o)
    ensures var back := ParseObservation(prefix + DumpsObservationContract(o) + suffix, co);
            && back == Kept(FoldedObservation(o))
            && (back == Kept(o)
                <==> PairFree(o.content) && PairFree(TextNote(o, "state_note"))
                     && PairFree(TextNote(o, "confidence_why")))
  {
    ReplyParsed(prefix, o, ConfidenceNote(o), suffix, co);
    ConfidenceNoteFolds(o);
    ConfidenceKept(FoldedObservation(o), co);
    KeptFoldsExactly(o);
  }

  // ------------------------------------------------------------------ recovering cut text

  /** What the salvage unescaper makes of one printed code unit: backspace and form feed lose their
      meaning, everything else is itself. */
  function Recovered(u: CodeUnit): CodePoint {
    if u == 8 then 'b' as int else if u == 12 then 'f' as int else u
  }

  function Recover(units: seq<CodeUnit>): Text {
    if units == [] then [] else [Recovered(units[0])] + Recover(units[1..])
  }

  lemma UnescapeUnit(u: CodeUnit, rest: Text, co: Coercions)
    ensures Unescape(EscapeUnit(u) + rest, co) == [Recovered(u)] + Unescape(rest, co)
  {
    var s := EscapeUnit(u) + rest;
    if ShortEscape(u).Some? {
      assert s[0] == BACKSLASH && s[1..][0] == ShortEscape(u).value && s[1..][1..] == rest;
    } else if 32 <= u <= 126 {
      assert s[0] == u && s[1..] == rest;
    } else {
      HexEscapeRead(u, rest);
      assert s[1..][1..5] == s[2..6] && s[1..][5..] == rest;
    }
  }

  lemma {:induction false} UnescapeUnits(units: seq<CodeUnit>, tail: Text, co: Coercions)
    requires tail == [] || tail[0] == QUOTE
    ensures Unescape(EscapeUnits(units) + tail, co) == Recover(units)
  {
    if units == [] {
      assert EscapeUnits(units) + tail == tail;
    } else {
      UnescapeUnits(units[1..], tail, co);
      UnescapeUnit(units[0], EscapeUnits(units[1..]) + tail, co);
      EscapeFirst(units, tail);
    }
  }

  /** The printed contract up to the opening quote of its output. */
  function Head(): Text {
    [OPEN] + (QuotedName("output") + (COLON + [QUOTE]))
  }

  function More(o: Observation): Text {
    COMMA + PrintMembers(AfterOutput(o)) + [CLOSE]
  }

  function AfterOutput(o: Observation): Members {
    Member(Ascii("is_error"), Bool(o.isError), WhyMembers(o, ConfidenceNote(o)))
  }

  lemma ContractText(o: Observation)
    ensures DumpsObservationContract(o) == Head() + (EscapeUnits(Units(o.content)) + ([QUOTE] + More(o)))
  {
    FirstMemberText("output", o.content, AfterOutput(o));
  }

  lemma FirstMemberText(name: string, text: Text, tail: Members)
    requires Name(name) && tail.Member?
    ensures Print(Obj(Member(Ascii(name), Str(text), tail)))
         == ([OPEN] + (QuotedName(name) + (COLON + [QUOTE])))
            + (EscapeUnits(Units(text)) + ([QUOTE] + (COMMA + PrintMembers(tail) + [CLOSE])))
  {
    NamePrints(name);
    assert PrintMembers(Member(Ascii(name), Str(text), tail))
        == QuotedName(name) + (COLON + (PrintString(text) + (COMMA + PrintMembers(tail))));
    Regrouping(QuotedName(name), COLON, EscapeUnits(Units(text)), COMMA + PrintMembers(tail));
  }

  lemma Regrouping(name: Text, colon: Text, body: Text, rest: Text)
    ensures [OPEN] + ((name + (colon + (([QUOTE] + (body + [QUOTE])) + rest))) + [CLOSE])
         == ([OPEN] + (name + (colon + [QUOTE]))) + (body + ([QUOTE] + (rest + [CLOSE])))
  {
    var tail := rest + [CLOSE];
    Assoc([QUOTE], body + [QUOTE], rest);
    Assoc(body, [QUOTE], rest);
    Assoc(name, colon + ([QUOTE] + (body + ([QUOTE] + rest))), [CLOSE]);
    Assoc(colon, [QUOTE] + (body + ([QUOTE] + rest)), [CLOSE]);
    Assoc([QUOTE], body + ([QUOTE] + rest), [CLOSE]);
    Assoc(body, [QUOTE] + rest, [CLOSE]);
    Assoc([QUOTE], rest, [CLOSE]);
    Assoc(colon, [QUOTE], body + ([QUOTE] + tail));
    Assoc(name, colon + [QUOTE], body + ([QUOTE] + tail));
    Assoc([OPEN], name + (colon + [QUOTE]), body + ([QUOTE] + tail));
  }

  lemma {:induction false} EscapeConcat(a: seq<CodeUnit>, b: seq<CodeUnit>)
    ensures EscapeUnits(a + b) == EscapeUnits(a) + EscapeUnits(b)
  {
    if a == [] {
      assert a + b == b;
    } else {
      EscapeConcat(a[1..], b);
      Behead(a, b);
      Assoc(EscapeUnit(a[0]), EscapeUnits(a[1..]), EscapeUnits(b));
    }
  }

  // ------------------------------------------------------------------ trailing white space

  function TrimSpaces(t: Text): Text {
    if t != [] && t[|t| - 1] == 32 then TrimSpaces(t[..|t| - 1]) else t
  }

  function TrimUnits(units: seq<CodeUnit>): seq<CodeUnit> {
    if units != [] && units[|units| - 1] == 32 then TrimUnits(units[..|units| - 1]) else units
  }

  lemma {:induction false} StripRightConcat(a: Text, b: Text)
    requires a != [] && !IsWide(a[|a| - 1])
    ensures StripRight(a + b) == a + StripRight(b)
    decreases |b|
  {
    if b == [] {
      assert a + b == a;
    } else if IsWide(b[|b| - 1]) {
      StripRightConcat(a, b[..|b| - 1]);
      assert (a + b)[..|a + b| - 1] == a + b[..|b| - 1];
    }
  }

  lemma LastEscaped(u: CodeUnit)
    ensures var e := EscapeUnit(u); e != [] && (IsWide(e[|e| - 1]) <==> u == 32)
  {
  }

  /** White space at the end of an escaped string is its trailing spaces and nothing else. */
  lemma {:induction false} StripEscaped(units: seq<CodeUnit>)
    ensures StripRight(EscapeUnits(units)) == EscapeUnits(TrimUnits(units))
    decreases |units|
  {
    if units != [] {
      var last := |units| - 1;
      var body := EscapeUnits(units[..last]);
      assert units == units[..last] + [units[last]];
      EscapeConcat(units[..last], [units[last]]);
      assert [units[last]][1..] == [];
      assert EscapeUnits([units[last]]) == EscapeUnit(units[last]);
      LastEscaped(units[last]);
      var e := EscapeUnit(units[last]);
      assert (body + e)[|body + e| - 1] == e[|e| - 1];
      if units[last] == 32 {
        StripEscaped(units[..last]);
        assert (body + e)[..|body + e| - 1] == body;
      }
    }
  }

  /** The output field of a reply that starts as a printed contract does. */
  lemma HeadIsRead(rest: Text, co: Coercions)
    ensures var text := Head() + rest;
            && Find(text, QuotedName("output")) == Some(1) && StripLeft(text) == text && text[0] == OPEN
            && FieldValue(text, "output", co) == Some(Unescape(rest, co))
  {
    var text := Head() + rest;
    var marker := QuotedName("output");
    assert text[1..][..|marker|] == marker;
    assert marker[0] == QUOTE && text[0] == OPEN;
    assert Find(text[1..], marker) == Some(0);
    var gap := text[1 + |marker|..];
    assert gap == COLON + ([QUOTE] + rest);
    assert gap[1..][1..] == [QUOTE] + rest;
    assert SkipGap(gap) == SkipGap(gap[1..]) == SkipGap(gap[1..][1..]);
    assert SkipGap(gap) == [QUOTE] + rest;
    assert ([QUOTE] + rest)[1..] == rest;
  }

  /** A text without a complete object that strips to one starting as a printed contract does. */
  lemma SalvagesHead(rest: Text, text: Text, co: Coercions)
    requires Strip(text) == Head() + rest && Extract(text).None?
    ensures ParseObservation(text, co).content == Unescape(rest, co)
  {
    HeadIsRead(rest, co);
  }

  // ------------------------------------------------------------------ where a reply is cut

  lemma HeadEnds()
    ensures Head() != [] && Head()[|Head()| - 1] == QUOTE && !IsWide(QUOTE)
  {
  }

  lemma CutInside(whole: Text, head: Text, first: Text, more: Text, tail: Text)
    requires whole == head + ((first + more) + tail) && tail != []
    ensures |head| + |first| < |whole| && whole[..|head| + |first|] == head + first
  {
    assert whole == (head + first) + (more + tail);
  }

  lemma CutAfterClose(whole: Text, head: Text, body: Text, more: Text, m: nat) returns (rest: Text)
    requires whole == head + (body + ([QUOTE] + more)) && |head| + |body| < m <= |whole|
    ensures whole[..m] == head + (body + ([QUOTE] + rest))
  {
    rest := more[..m - |head| - |body| - 1];
    assert whole == (head + body + [QUOTE]) + more;
    assert whole[..m] == (head + body + [QUOTE]) + rest;
  }

  lemma StripAfterClose(head: Text, body: Text, rest: Text)
    ensures StripRight(head + (body + ([QUOTE] + rest))) == head + (body + ([QUOTE] + StripRight(rest)))
  {
    var closed := head + body + [QUOTE];
    StripRightConcat(closed, rest);
    assert head + (body + ([QUOTE] + rest)) == closed + rest;
    assert head + (body + ([QUOTE] + StripRight(rest))) == closed + StripRight(rest);
  }

  /** The length of the printed contract up to and including the first `n` code units of its content. */
  function CutAt(o: Observation, n: nat): nat
    requires n <= |Units(o.content)|
  {
    |Head()| + |EscapeUnits(Units(o.content)[..n])|
  }

  lemma CutTextInside(o: Observation, n: nat)
    requires n <= |Units(o.content)|
    ensures CutAt(o, n) < |DumpsObservationContract(o)|
    ensures DumpsObservationContract(o)[..CutAt(o, n)] == Head() + EscapeUnits(Units(o.content)[..n])
  {
    var units := Units(o.content);
    ContractText(o);
    assert units == units[..n] + units[n..];
    EscapeConcat(units[..n], units[n..]);
    CutInside(DumpsObservationContract(o), Head(), EscapeUnits(units[..n]), EscapeUnits(units[n..]), [QUOTE] + More(o));
  }

  /** A reply cut between two code units of its content gives back those units, less trailing spaces. */
  lemma SalvagesUnits(o: Observation, n: nat, co: Coercions)
    requires n <= |Units(o.content)|
    ensures CutAt(o, n) < |DumpsObservationContract(o)|
    ensures ParseObservation(DumpsObservationContract(o)[..CutAt(o, n)], co).content
            == Recover(TrimUnits(Units(o.content)[..n]))
  {
    var units := Units(o.content)[..n];
    var body := EscapeUnits(units);
    CutTextInside(o, n);
    var text := DumpsObservationContract(o)[..CutAt(o, n)];
    TruncatedPrintIsNotFound(ContractMembers(o), CutAt(o, n));
    HeadEnds();
    HeadIsRead(body, co);
    StripRightConcat(Head(), body);
    StripEscaped(units);
    SalvagesHead(EscapeUnits(TrimUnits(units)), text, co);
    UnescapeUnits(TrimUnits(units), [], co);
    assert EscapeUnits(TrimUnits(units)) + [] == EscapeUnits(TrimUnits(units));
  }

  /** A reply cut anywhere after the closing quote of its content gives back all of it. */
  lemma SalvagesWhole(o: Observation, m: nat, co: Coercions)
    requires CutAt(o, |Units(o.content)|) < m < |DumpsObservationContract(o)|
    ensures ParseObservation(DumpsObservationContract(o)[..m], co).content == Recover(Units(o.content))
  {
    var units := Units(o.content);
    assert units[..|units|] == units;
    var text := DumpsObservationContract(o)[..m];
    ContractText(o);
    var rest := CutAfterClose(DumpsObservationContract(o), Head(), EscapeUnits(units), More(o), m);
    TruncatedPrintIsNotFound(ContractMembers(o), m);
    StripAfterClose(Head(), EscapeUnits(units), rest);
    HeadIsRead(EscapeUnits(units) + ([QUOTE] + rest), co);
    SalvagesHead(EscapeUnits(units) + ([QUOTE] + StripRight(rest)), text, co);
    UnescapeUnits(units, [QUOTE] + StripRight(rest), co);
  }

  // ------------------------------------------------------------------ prefixes of the original

  /** The characters that survive printing, truncation and salvage. */
  predicate Faithful(c: CodePoint) {
    c != 8 && c != 12 && c < 0x10000
  }

  ghost predicate AllFaithful(text: Text) {
    forall i :: 0 <= i < |text| ==> Faithful(text[i])
  }

  lemma {:induction false} RecoverFaithful(text: Text)
    requires AllFaithful(text)
    ensures Recover(Units(text)) == text
  {
    if text != [] {
      RecoverFaithful(text[1..]);
      assert Units(text)[1..] == Units(text[1..]);
    }
  }

  /** A character that is not faithful shows: the recovered text departs from the original there. */
  lemma {:induction false} RecoverDeparts(text: Text) returns (k: nat)
    requires !AllFaithful(text)
    ensures k < |text| && k < |Recover(Units(text))| && Recover(Units(text))[k] != text[k]
  {
    var recovered := Recover(Units(text));
    if Faithful(text[0]) {
      var i :| 0 <= i < |text| && !Faithful(text[i]);
      assert text[1..][i - 1] == text[i];
      var j := RecoverDeparts(text[1..]);
      assert Units(text)[1..] == Units(text[1..]);
      assert recovered == [text[0]] + Recover(Units(text[1..]));
      k := j + 1;
    } else {
      assert recovered[0] == Recovered(UnitsOf(text[0])[0]);
      k := 0;
    }
  }

  lemma {:induction false} TrimCommutes(text: Text)
    ensures TrimUnits(Units(text)) == Units(TrimSpaces(text))
    decreases |text|
  {
    if text != [] {
      var last := |text| - 1;
      assert text == text[..last] + [text[last]];
      UnitsConcat(text[..last], [text[last]]);
      assert [text[last]][1..] == [];
      assert Units([text[last]]) == UnitsOf(text[last]);
      var units, u := Units(text), UnitsOf(text[last]);
      assert units[|units| - 1] == u[|u| - 1];
      if text[last] == 32 {
        TrimCommutes(text[..last]);
        assert units[..|units| - 1] == Units(text[..last]);
      }
    }
  }

  lemma {:induction false} TrimmedPart(text: Text)
    ensures TrimSpaces(text) <= text && (AllFaithful(TrimSpaces(text)) <==> AllFaithful(text))
    decreases |text|
  {
    if text != [] && text[|text| - 1] == 32 {
      TrimmedPart(text[..|text| - 1]);
    }
  }

  /** Truncation salvage: a printed contract cut after any character of its content, outside an escape
      sequence, gives back a prefix of the content exactly when none of the characters before the cut
      is a backspace, a form feed, or outside the basic plane; then only trailing spaces are missing. */
  lemma TruncationGivesPrefix(o: Observation, j: nat, co: Coercions)
    requires j <= |o.content| && CutBefore(o, j) < |DumpsObservationContract(o)|
    ensures var content := ParseObservation(DumpsObservationContract(o)[..CutBefore(o, j)], co).content;
            && (content <= o.content <==> AllFaithful(o.content[..j]))
            && (AllFaithful(o.content[..j]) ==> content == TrimSpaces(o.content[..j]))
  {
    var part := o.content[..j];
    assert o.content == part + o.content[j..];
    UnitsConcat(part, o.content[j..]);
    var n := |Units(part)|;
    assert Units(o.content)[..n] == Units(part);
    SalvagesUnits(o, n, co);
    TrimCommutes(part);
    TrimmedPart(part);
    if AllFaithful(part) {
      RecoverFaithful(TrimSpaces(part));
    } else {
      var k := RecoverDeparts(TrimSpaces(part));
      assert TrimSpaces(part)[k] == part[k] == o.content[k];
    }
  }

  /** The length of the printed contract up to and including the first `j` characters of its content. */
  function CutBefore(o: Observation, j: nat): nat
    requires j <= |o.content|
  {
    |Head()| + |EscapeUnits(Units(o.content[..j]))|
  }

  /** Once the closing quote is there the whole content comes back, exactly when all of it is faithful. */
  lemma ClosedContentSurvives(o: Observation, m: nat, co: Coercions)
    requires CutBefore(o, |o.content|) < m < |DumpsObservationContract(o)|
    ensures ParseObservation(DumpsObservationContract(o)[..m], co).content == o.content <==> AllFaithful(o.content)
  {
    assert o.content[..|o.content|] == o.content;
    assert Units(o.content)[..|Units(o.content)|] == Units(o.content);
    SalvagesWhole(o, m, co);
    if AllFaithful(o.content) {
      RecoverFaithful(o.content);
    } else {
      var k := RecoverDeparts(o.content);
    }
  }
}
