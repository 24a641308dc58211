/** Replies that hold no contract: exactly when a text is taken as it stands, and which names a complete or a
    salvaged contract is read by. */
module PlainReplies {
  import opened Options
  import opened CodePoints
  import opened Json
  import opened JsonRoundTrip
  import opened ObjectScanner
  import opened Parsing
  import opened Sequences
  import opened TextSearch
  import opened ObservationContract
  import opened PrintedFields
  import opened TruncatedReply

  // ------------------------------------------------------------------ white space around a text

  ghost predicate AllWide(t: Text) {
    forall i :: 0 <= i < |t| ==> IsWide(t[i])
  }

  /** The text without the white space around it; nothing else is missing. */
  ghost predicate Trimmed(text: Text, core: Text) {
    && (core != [] ==> !IsWide(core[0]) && !IsWide(core[|core| - 1]))
    && exists l, r :: AllWide(l) && AllWide(r) && text == l + (core + r)
  }

  lemma {:induction false} StripLeftParts(t: Text) returns (l: Text)
    ensures AllWide(l) && t == l + StripLeft(t)
  {
    if t != [] && IsWide(t[0]) {
      var more := StripLeftParts(t[1..]);
      l := [t[0]] + more;
    } else {
      l := [];
    }
  }

  lemma {:induction false} StripRightParts(t: Text) returns (r: Text)
    ensures AllWide(r) && t == StripRight(t) + r
    decreases |t|
  {
    if t != [] && IsWide(t[|t| - 1]) {
      var more := StripRightParts(t[..|t| - 1]);
      r := more + [t[|t| - 1]];
    } else {
      r := [];
    }
  }

  lemma StripTrims(text: Text)
    ensures Trimmed(text, Strip(text))
  {
    var l := StripLeftParts(text);
    var r := StripRightParts(StripLeft(text));
    StripLeftShrinks(text);
    StripRightShrinks(StripLeft(text));
  }

  lemma {:induction false} StripLeftHead(l: Text, t: Text)
    requires AllWide(l)
    ensures StripLeft(l + t) == StripLeft(t)
  {
    if l == [] {
      Nothing(t);
    } else {
      Behead(l, t);
      StripLeftHead(l[1..], t);
    }
  }

  /** There is one such text, and it is what stripping leaves. */
  lemma TrimmedOnce(text: Text, core: Text)
    requires Trimmed(text, core)
    ensures core == Strip(text)
  {
    var l, r :| AllWide(l) && AllWide(r) && text == l + (core + r);
    StripLeftHead(l, core + r);
    if core == [] {
      Nothing(r);
      StripLeftHead(r, []);
      Nothing(r);
    } else {
      assert StripLeft(core + r) == core + r;
      StripRightTail(core, r);
    }
  }

  // ------------------------------------------------------------------ a field that is shown

  /** The first place where `m` occurs. */
  ghost predicate FirstAt(text: Text, m: Text, p: nat) {
    OccursAt(text, m, p) && forall i :: 0 <= i < p ==> !OccursAt(text, m, i)
  }

  /** Colons, blanks, tabs and line feeds only. */
  ghost predicate AllGap(t: Text) {
    forall i :: 0 <= i < |t| ==> t[i] == 58 || t[i] == 32 || t[i] == 9 || t[i] == 10
  }

  /** The first place of the name is followed, behind such a gap, by a quote at `q`. */
  ghost predicate ShownAt(text: Text, m: Text, p: nat, q: nat) {
    FirstAt(text, m, p) && p + |m| <= q < |text| && text[q] == QUOTE && AllGap(text[p + |m|..q])
  }

  lemma {:induction false} SkipGapParts(s: Text) returns (gap: Text)
    ensures AllGap(gap) && s == gap + SkipGap(s) && (SkipGap(s) != [] ==> !IsGap(SkipGap(s)[0]))
  {
    if s != [] && IsGap(s[0]) {
      var more := SkipGapParts(s[1..]);
      gap := [s[0]] + more;
    } else {
      gap := [];
    }
  }

  lemma {:induction false} SkipGapHead(gap: Text, s: Text)
    requires AllGap(gap) && s != [] && s[0] == QUOTE
    ensures SkipGap(gap + s) == s
  {
    if gap == [] {
      Nothing(s);
    } else {
      Behead(gap, s);
      SkipGapHead(gap[1..], s);
    }
  }

  lemma FoundIsFirst(text: Text, m: Text, p: nat)
    ensures FirstAt(text, m, p) <==> Find(text, m) == Some(p)
  {
    FindIsFirst(text, m);
    if FirstAt(text, m, p) {
      FindFirst(text, m, p);
    }
  }

  lemma ShownIsRead(text: Text, key: string, p: nat, q: nat, co: Coercions)
    requires ShownAt(text, QuotedName(key), p, q)
    ensures FieldValue(text, key, co) == Some(Unescape(text[q + 1..], co))
  {
    var m := QuotedName(key);
    FoundIsFirst(text, m, p);
    var s := text[q..];
    assert text[p + |m|..] == text[p + |m|..q] + s;
    SkipGapHead(text[p + |m|..q], s);
    assert s[1..] == text[q + 1..];
  }

  lemma ReadIsShown(text: Text, key: string, co: Coercions) returns (p: nat, q: nat)
    requires FieldValue(text, key, co).Some?
    ensures ShownAt(text, QuotedName(key), p, q)
  {
    var m := QuotedName(key);
    p := Find(text, m).value;
    FoundIsFirst(text, m, p);
    var s := text[p + |m|..];
    var gap := SkipGapParts(s);
    q := p + |m| + |gap|;
    assert text[p + |m|..q] == s[..|gap|] == gap;
    assert text[q] == s[|gap|] == SkipGap(s)[0];
  }

  lemma OccursEnds(text: Text, key: string, p: nat)
    ensures OccursAt(text, QuotedName(key), p) ==>
              text[p] == QUOTE && text[p + |QuotedName(key)| - 1] == QUOTE
  {
    var m := QuotedName(key);
    assert m[0] == QUOTE && m[|m| - 1] == QUOTE;
    assert OccursAt(text, m, p) ==> text[p + 0] == m[0] && text[p + (|m| - 1)] == m[|m| - 1];
  }

  lemma PlaceOutside(l: Text, core: Text, r: Text, i: nat)
    ensures i < |l + (core + r)| && i < |l| ==> (l + (core + r))[i] in l
    ensures i < |l + (core + r)| && |l| + |core| <= i ==> (l + (core + r))[i] in r
  {
    var text := l + (core + r);
    assert i < |l| ==> text[i] == l[i];
    assert |l| + |core| <= i < |text| ==> text[i] == r[i - |l| - |core|];
  }

  /** A name does not occur in text without a quote, nor across its edge. */
  lemma OccursInCore(l: Text, core: Text, r: Text, key: string, p: nat)
    requires QUOTE !in l && QUOTE !in r
    ensures OccursAt(l + (core + r), QuotedName(key), p)
       <==> p >= |l| && OccursAt(core, QuotedName(key), p - |l|)
  {
    var text, m := l + (core + r), QuotedName(key);
    OccursEnds(text, key, p);
    PlaceOutside(l, core, r, p);
    PlaceOutside(l, core, r, p + |m| - 1);
    if p >= |l| {
      OccursShifted(l, core + r, m, p - |l|);
      if p - |l| + |m| <= |core| {
        OccursBefore(core, r, m, p - |l|);
      }
    }
  }

  /** A field is shown in a text exactly where it is shown in the text without what is around it. */
  lemma ShownInCore(l: Text, core: Text, r: Text, key: string, p: nat, q: nat)
    requires QUOTE !in l && QUOTE !in r
    ensures ShownAt(core, QuotedName(key), p, q) <==> ShownAt(l + (core + r), QuotedName(key), |l| + p, |l| + q)
  {
    var text, m := l + (core + r), QuotedName(key);
    FirstInCore(l, core, r, key, p);
    PlaceOutside(l, core, r, |l| + q);
    if q < |core| {
      assert text[|l| + q] == core[q];
      if p + |m| <= q {
        assert text[|l| + p + |m|..|l| + q] == core[p + |m|..q];
      }
    }
  }

  lemma FirstInCore(l: Text, core: Text, r: Text, key: string, p: nat)
    requires QUOTE !in l && QUOTE !in r
    ensures FirstAt(core, QuotedName(key), p) <==> FirstAt(l + (core + r), QuotedName(key), |l| + p)
  {
    var text, m := l + (core + r), QuotedName(key);
    forall i: nat ensures OccursAt(text, m, i) <==> i >= |l| && OccursAt(core, m, i - |l|) {
      OccursInCore(l, core, r, key, i);
    }
    assert OccursAt(text, m, |l| + p) <==> OccursAt(core, m, p);
    if FirstAt(text, m, |l| + p) {
      forall i | 0 <= i < p ensures !OccursAt(core, m, i) {
        assert !OccursAt(text, m, |l| + i);
      }
    }
  }

  // ------------------------------------------------------------------ what is salvaged

  /** Behind white space the text begins with a brace. */
  ghost predicate BeginsAsObject(text: Text) {
    exists k :: 0 <= k < |text| && text[k] == OPEN && AllWide(text[..k])
  }

  /** The reply looks like a contract that was cut off: it begins with a brace, and the first `"output"` in it
      is followed by a string. */
  ghost predicate LooksCut(text: Text) {
    BeginsAsObject(text) && exists p: nat, q: nat :: ShownAt(text, QuotedName("output"), p, q)
  }

  lemma BeginsInCore(l: Text, core: Text, r: Text)
    requires AllWide(l) && AllWide(r) && (core != [] ==> !IsWide(core[0]))
    ensures BeginsAsObject(l + (core + r)) <==> core != [] && core[0] == OPEN
  {
    var text := l + (core + r);
    WideHasNoQuote(l);
    WideHasNoQuote(r);
    if core != [] && core[0] == OPEN {
      assert text[..|l|] == l && text[|l|] == OPEN;
    }
    if BeginsAsObject(text) {
      var k :| 0 <= k < |text| && text[k] == OPEN && AllWide(text[..k]);
      PlaceOutside(l, core, r, k);
      assert core != [] && |l| < k ==> text[..k][|l|] == core[0];
      assert core != [] && |l| == k ==> text[k] == core[0];
    }
  }

  lemma WideHasNoQuote(t: Text)
    requires AllWide(t)
    ensures QUOTE !in t && OPEN !in t
  {
  }

  lemma CutLooksSo(l: Text, core: Text, r: Text, co: Coercions)
    requires AllWide(l) && AllWide(r) && BeginsAsObject(l + (core + r)) && FieldValue(core, "output", co).Some?
    ensures LooksCut(l + (core + r))
  {
    WideHasNoQuote(l);
    WideHasNoQuote(r);
    var p, q := ReadIsShown(core, "output", co);
    ShownInCore(l, core, r, "output", p, q);
  }

  lemma LooksSoIsCut(l: Text, core: Text, r: Text, co: Coercions)
    requires AllWide(l) && AllWide(r) && LooksCut(l + (core + r))
    ensures FieldValue(core, "output", co).Some?
  {
    WideHasNoQuote(l);
    WideHasNoQuote(r);
    var p: nat, q: nat :| ShownAt(l + (core + r), QuotedName("output"), p, q);
    OccursInCore(l, core, r, "output", p);
    ShownInCore(l, core, r, "output", p - |l|, q - |l|);
    ShownIsRead(core, "output", p - |l|, q - |l|, co);
  }

  lemma SalvageStarts(text: Text, co: Coercions)
    ensures var core := Strip(text);
            SalvageTruncatedContract(text, co).Some? <==>
              core != [] && core[0] == OPEN && FieldValue(core, "output", co).Some?
  {
  }

  lemma CutInCore(l: Text, core: Text, r: Text, co: Coercions)
    requires AllWide(l) && AllWide(r) && (core != [] ==> !IsWide(core[0]))
    ensures LooksCut(l + (core + r)) <==> core != [] && core[0] == OPEN && FieldValue(core, "output", co).Some?
  {
    BeginsInCore(l, core, r);
    if LooksCut(l + (core + r)) {
      LooksSoIsCut(l, core, r, co);
    } else if BeginsAsObject(l + (core + r)) && FieldValue(core, "output", co).Some? {
      CutLooksSo(l, core, r, co);
    }
  }

  lemma LooksCutExactly(text: Text, co: Coercions)
    ensures LooksCut(text) <==> SalvageTruncatedContract(text, co).Some?
  {
    var core := Strip(text);
    StripTrims(text);
    var l, r :| AllWide(l) && AllWide(r) && text == l + (core + r);
    CutInCore(l, core, r, co);
    SalvageStarts(text, co);
  }

  lemma {:induction false} UnescapeShrinks(s: Text, co: Coercions)
    ensures |Unescape(s, co)| <= |s| && |UnescapeNext(s, co)| <= |s|
    decreases |s|
  {
    if s != [] {
      UnescapeShrinks(s[1..], co);
      if |s| > 4 {
        UnescapeShrinks(s[5..], co);
      }
    }
  }

  // ------------------------------------------------------------------ plain text

  /** The observation shows the text itself, less the white space around it: no error, no notes. */
  ghost predicate Plain(text: Text, o: Observation) {
    Trimmed(text, o.content) && !o.isError && o.metadata == map[]
  }

  /** A reply without a usable contract is taken as it stands, exactly unless it looks like a contract that was
      cut off. */
  lemma PlainExactly(text: Text, co: Coercions)
    requires CompleteContract(text, co).None?
    ensures Plain(text, ParseObservation(text, co)) <==> !LooksCut(text)
  {
    LooksCutExactly(text, co);
    StripTrims(text);
    if LooksCut(text) {
      var core, content := Strip(text), ParseObservation(text, co).content;
      var p, q := ReadIsShown(core, "output", co);
      ShownIsRead(core, "output", p, q, co);
      UnescapeShrinks(core[q + 1..], co);
      if Trimmed(text, content) {
        TrimmedOnce(text, content);
      }
    }
  }

  /** Text without an opening brace is plain. */
  lemma BracelessIsPlain(text: Text, co: Coercions)
    requires OPEN !in text
    ensures Plain(text, ParseObservation(text, co))
  {
    FirstOpenIs(text);
    PlainExactly(text, co);
  }

  // ------------------------------------------------------------------ the members of an object

  function Join(a: Members, b: Members): Members {
    match a
    case NoMembers => b
    case Member(key, value, tail) => Member(key, value, Join(tail, b))
  }

  /** Some member has the name. */
  predicate Named(members: Members, key: string) {
    members.Member? && (members.key == Ascii(key) || Named(members.tail, key))
  }

  lemma {:induction false} LookupUnnamed(members: Members, key: string)
    ensures Lookup(members, key).None? <==> !Named(members, key)
  {
    if members.Member? {
      LookupUnnamed(members.tail, key);
    }
  }

  /** The last member of a name counts, whatever stands before it. */
  lemma {:induction false} LookupIsLast(a: Members, key: string, value: Json, b: Members)
    requires !Named(b, key)
    ensures Lookup(Join(a, Member(Ascii(key), value, b)), key) == Some(value)
  {
    match a
    case NoMembers => LookupUnnamed(b, key);
    case Member(_, _, tail) => LookupIsLast(tail, key, value, b);
  }

  // ------------------------------------------------------------------ a complete contract

  /** The text found under a name, if it is one. */
  function TextAt(members: Members, key: string): Text {
    match Lookup(members, key)
    case Some(Str(text)) => text
    case _ => []
  }

  /** The number that a value states: itself, or what a string reads as. */
  function NumberAt(members: Members, key: string, co: Coercions): Option<Number> {
    match Lookup(members, key)
    case Some(Num(n)) => Some(n)
    case Some(Str(text)) => co.floatOf(text)
    case _ => None
  }

  /** One of the core names occurs. */
  predicate NamesContract(members: Members) {
    Named(members, "output") || Named(members, "is_error") || Named(members, "state_note")
  }

  /** Every text field that occurs is a text, and an error flag that occurs can be read as one. */
  ghost predicate Fits(members: Members, co: Coercions) {
    && (forall key :: key == "output" || IsNote(key) ==>
          Lookup(members, key).None? || Lookup(members, key).value.Str?)
    && (Lookup(members, "is_error").Some? ==> co.boolOf(Lookup(members, "is_error").value).Some?)
  }

  predicate IsNote(key: string) {
    || key == "state_note" || key == "reasoning" || key == "kb_note" || key == "ground_query"
    || key == "state_update" || key == "confidence_why"
  }

  /** The observation that a contract with these members stands for: the output, the error flag, every note
      that is not empty, a confidence in the unit interval, and nothing else. */
  ghost predicate ReadAs(members: Members, o: Observation, co: Coercions) {
    var stated := NumberAt(members, "confidence", co);
    && o.content == TextAt(members, "output")
    && o.isError == (Lookup(members, "is_error").Some?
                     && co.boolOf(Lookup(members, "is_error").value) == Some(true))
    && (forall key :: key in o.metadata ==> IsNote(key) || key == "confidence")
    && (forall key :: IsNote(key) ==>
          (key in o.metadata <==> TextAt(members, key) != [])
          && (key in o.metadata ==> o.metadata[key] == Str(TextAt(members, key))))
    && ("confidence" in o.metadata <==> stated.Some? && 0.0 <= Value(stated.value) <= 1.0)
    && ("confidence" in o.metadata ==>
          o.metadata["confidence"].Num? && Value(o.metadata["confidence"].number) == Value(stated.value))
  }

  lemma NotesListed(i: nat)
    requires i < |NOTES|
    ensures IsNote(NOTES[i]) && NOTES[i] != "confidence"
    ensures forall j :: 0 <= j < i ==> NOTES[j] != NOTES[i]
  {
  }

  lemma NoteListed(key: string)
    ensures IsNote(key) <==> key in NOTES
  {
    assert NOTES[0] == "state_note" && NOTES[1] == "reasoning" && NOTES[2] == "kb_note" && NOTES[3] == "ground_query"
        && NOTES[4] == "state_update" && NOTES[5] == "confidence_why";
  }

  /** The metadata holds the text of each of these names that is not empty, and nothing else. */
  ghost predicate HoldsNotes(metadata: map<string, Json>, names: seq<string>, texts: seq<Text>)
    requires |names| == |texts|
  {
    && (forall key :: key in metadata ==> key in names)
    && (forall i :: 0 <= i < |names| ==>
          (names[i] in metadata <==> texts[i] != []) && (names[i] in metadata ==> metadata[names[i]] == Str(texts[i])))
  }

  lemma OneMoreNote(metadata: map<string, Json>, names: seq<string>, texts: seq<Text>, name: string, text: Text)
    requires |names| == |texts| && HoldsNotes(metadata, names, texts) && name !in names
    ensures HoldsNotes(Noted(metadata, name, text), names + [name], texts + [text])
  {
  }

  lemma NamesStep(names: seq<string>, n: nat)
    requires 0 < n <= |names|
    ensures names[..n] == names[..n - 1] + [names[n - 1]]
  {
  }

  lemma NamesWhole(names: seq<string>)
    ensures names[..|names|] == names
  {
  }

  function TextsAt(members: Members, names: seq<string>): (r: seq<Text>)
    ensures |r| == |names| && forall i :: 0 <= i < |names| ==> r[i] == TextAt(members, names[i])
  {
    if names == [] then []
    else TextsAt(members, names[..|names| - 1]) + [TextAt(members, names[|names| - 1])]
  }

  lemma TextsAtStep(members: Members, names: seq<string>, name: string)
    ensures TextsAt(members, names + [name]) == TextsAt(members, names) + [TextAt(members, name)]
  {
    assert (names + [name])[..|names|] == names;
  }

  lemma NotesStep(members: Members, n: nat)
    requires 0 < n <= |NOTES| && TextField(members, NOTES[n - 1]).Some?
    ensures NotesOf(members, n) == Noted(NotesOf(members, n - 1), NOTES[n - 1], TextAt(members, NOTES[n - 1]))
    ensures NOTES[n - 1] !in NOTES[..n - 1]
  {
    NotesListed(n - 1);
  }

  lemma {:induction false} NotesRead(members: Members, n: nat)
    requires n <= |NOTES| && forall i :: 0 <= i < n ==> TextField(members, NOTES[i]).Some?
    ensures HoldsNotes(NotesOf(members, n), NOTES[..n], TextsAt(members, NOTES[..n]))
  {
    if n > 0 {
      var names, name := NOTES[..n - 1], NOTES[n - 1];
      NotesRead(members, n - 1);
      NotesStep(members, n);
      NamesStep(NOTES, n);
      TextsAtStep(members, names, name);
      OneMoreNote(NotesOf(members, n - 1), names, TextsAt(members, names), name, TextAt(members, name));
    }
  }

  /** The notes of a contract, each under its own name. */
  lemma NotesKnown(members: Members)
    requires forall i :: 0 <= i < |NOTES| ==> TextField(members, NOTES[i]).Some?
    ensures var notes := NotesOf(members, |NOTES|);
            && (forall key :: key in notes ==> IsNote(key) && key != "confidence")
            && (forall key :: IsNote(key) ==>
                  (key in notes <==> TextAt(members, key) != [])
                  && (key in notes ==> notes[key] == Str(TextAt(members, key))))
  {
    var notes, texts := NotesOf(members, |NOTES|), TextsAt(members, NOTES);
    NotesRead(members, |NOTES|);
    NamesWhole(NOTES);
    forall key | key in notes ensures IsNote(key) && key != "confidence" {
      var i :| 0 <= i < |NOTES| && NOTES[i] == key;
      NotesListed(i);
    }
    forall key | IsNote(key)
      ensures key in notes <==> TextAt(members, key) != []
      ensures key in notes ==> notes[key] == Str(TextAt(members, key))
    {
      NoteListed(key);
      var i :| 0 <= i < |NOTES| && NOTES[i] == key;
      assert texts[i] == TextAt(members, key);
    }
  }

  lemma ConfidenceIsFloat(members: Members, co: Coercions)
    ensures var stated := NumberAt(members, "confidence", co);
            ConfidenceField(members, co)
              == if stated.Some? && InUnit(stated.value) then Some(AsFloat(stated.value)) else None
  {
  }

  lemma ConfidenceRead(members: Members, co: Coercions)
    ensures var stated, read := NumberAt(members, "confidence", co), ConfidenceField(members, co);
            && (read.Some? <==> stated.Some? && 0.0 <= Value(stated.value) <= 1.0)
            && (read.Some? ==> Value(read.value) == Value(stated.value))
  {
    var stated := NumberAt(members, "confidence", co);
    ConfidenceIsFloat(members, co);
    if stated.Some? && InUnit(stated.value) {
      FloatKeepsValue(stated.value);
    }
  }

  lemma FitsExactly(members: Members, co: Coercions)
    ensures Fits(members, co) <==>
              && TextField(members, "output").Some? && ErrorField(members, co).Some?
              && forall i :: 0 <= i < |NOTES| ==> TextField(members, NOTES[i]).Some?
  {
    forall i | 0 <= i < |NOTES| ensures IsNote(NOTES[i]) {
      NotesListed(i);
    }
    forall key | IsNote(key) ensures key in NOTES {
      NoteListed(key);
    }
  }

  /** A contract is read by its names, the last member of each, and only if every field fits. */
  lemma ValidatedExactly(members: Members, co: Coercions)
    ensures Validated(members, co).Some? <==> Fits(members, co)
    ensures Validated(members, co).Some? ==> ReadAs(members, Validated(members, co).value, co)
  {
    FitsExactly(members, co);
    if Fits(members, co) {
      NotesKnown(members);
      ConfidenceRead(members, co);
    }
  }

  // ------------------------------------------------------------------ folded names

  /** Folding surrogate pairs makes no name of basic characters out of another. */
  lemma {:induction false} FoldedToBasic(text: Text)
    requires forall i :: 0 <= i < |Fold(Units(text))| ==> Fold(Units(text))[i] < 0x10000
    ensures Fold(Units(text)) == text
  {
    if text != [] {
      var c, rest := text[0], text[1..];
      if c >= 0x10000 {
        BigFolded(text);
      } else {
        assert Units(text)[1..] == Units(rest);
        FirstFolded(text);
        assert forall i :: 0 <= i < |Fold(Units(rest))| ==> Fold(Units(text))[i + 1] == Fold(Units(rest))[i];
        FoldedToBasic(rest);
      }
    }
  }

  lemma BigFolded(text: Text)
    requires text != [] && text[0] >= 0x10000
    ensures Fold(Units(text)) != [] && Fold(Units(text))[0] >= 0x10000
  {
    CombineInvertsUnits(text[0]);
  }

  lemma FirstFolded(text: Text)
    requires text != [] && text[0] < 0x10000
    requires forall i :: 0 <= i < |Fold(Units(text))| ==> Fold(Units(text))[i] < 0x10000
    ensures Fold(Units(text)) == [text[0]] + Fold(Units(text[1..]))
  {
    var units := Units(text);
    assert units[0] == text[0] && units[1..] == Units(text[1..]);
    if |units| >= 2 && High(units[0]) && Low(units[1]) {
      assert Fold(units)[0] == Combine(units[0], units[1]);
    }
  }

  lemma FoldedIsName(text: Text, key: string)
    requires Name(key)
    ensures Fold(Units(text)) == Ascii(key) <==> text == Ascii(key)
  {
    if text == Ascii(key) {
      FoldInvertsUnits(text);
    }
    if Fold(Units(text)) == Ascii(key) {
      FoldedToBasic(text);
    }
  }

  lemma {:induction false} FoldedNamed(members: Members, key: string)
    requires Name(key)
    ensures Named(FoldedMembers(members), key) <==> Named(members, key)
  {
    if members.Member? {
      FoldedIsName(members.key, key);
      FoldedNamed(members.tail, key);
    }
  }

  lemma ContractNames(members: Members)
    ensures IsContract(members) <==> NamesContract(members)
    ensures NamesContract(FoldedMembers(members)) <==> NamesContract(members)
  {
    LookupUnnamed(members, "output");
    LookupUnnamed(members, "is_error");
    LookupUnnamed(members, "state_note");
    FoldedNamed(members, "output");
    FoldedNamed(members, "is_error");
    FoldedNamed(members, "state_note");
  }

  // ------------------------------------------------------------------ any printed object in a reply

  lemma ObjectRead(prefix: Text, members: Members, suffix: Text, co: Coercions)
    requires OPEN !in prefix && WritableMembers(members)
    ensures CompleteContract(prefix + Print(Obj(members)) + suffix, co)
         == if NamesContract(members) then Validated(FoldedMembers(members), co) else None
  {
    PrintedIsFound(prefix, members, suffix);
    LoadsInvertsPrint(Obj(members));
    ContractNames(FoldedMembers(members));
    ContractNames(members);
  }

  /** A reply with a printed object in it is read as a contract exactly if the object has one of the core names
      and all its fields fit; otherwise it is plain text, exactly unless it looks like a contract cut off. */
  lemma ObjectReply(prefix: Text, members: Members, suffix: Text, co: Coercions)
    requires OPEN !in prefix && WritableMembers(members)
    ensures var text, read := prefix + Print(Obj(members)) + suffix, FoldedMembers(members);
            if NamesContract(members) && Fits(read, co) then ReadAs(read, ParseObservation(text, co), co)
            else Plain(text, ParseObservation(text, co)) <==> !LooksCut(text)
  {
    var text, read := prefix + Print(Obj(members)) + suffix, FoldedMembers(members);
    ObjectRead(prefix, members, suffix, co);
    ValidatedExactly(read, co);
    if !(NamesContract(members) && Fits(read, co)) {
      PlainExactly(text, co);
    }
  }

  lemma {:induction false} UnnamedNotShown(members: Members, key: string, c: nat)
    requires !Named(members, key)
    ensures ShownIn(members, Ascii(key), c).None?
  {
    match members
    case NoMembers =>
    case Member(name, value, tail) =>
      var end := |EntryOf(name, value)|;
      if end + 2 <= c {
        UnnamedNotShown(tail, key, c - end - 2);
      }
  }

  /** An object without nested parts and without the core names is plain text, wherever it stands. */
  lemma FlatObjectIsPlain(prefix: Text, members: Members, suffix: Text, co: Coercions)
    requires OPEN !in prefix && QUOTE !in suffix && WritableMembers(members)
    requires Fields(members) && !NamesContract(members)
    ensures var text := prefix + Print(Obj(members)) + suffix; Plain(text, ParseObservation(text, co))
  {
    var text := prefix + Print(Obj(members)) + suffix;
    ObjectReply(prefix, members, suffix, co);
    if LooksCut(text) {
      FlatLooksWhole(prefix, members, suffix, co);
    }
  }

  lemma ShownNowhere(l: Text, core: Text, r: Text, key: string, p: nat, q: nat, co: Coercions)
    requires QUOTE !in l && QUOTE !in r && FieldValue(core, key, co).None?
    ensures !ShownAt(l + (core + r), QuotedName(key), p, q)
  {
    if ShownAt(l + (core + r), QuotedName(key), p, q) {
      OccursInCore(l, core, r, key, p);
      ShownInCore(l, core, r, key, p - |l|, q - |l|);
      ShownIsRead(core, key, p - |l|, q - |l|, co);
    }
  }

  lemma FlatShowsNoOutput(members: Members, co: Coercions)
    requires Fields(members) && !Named(members, "output")
    ensures FieldValue(Body(members), "output", co).None?
  {
    var core := Body(members);
    KeysArePlain();
    FieldShown(members, "output", |core|, co);
    assert core[..|core|] == core;
    UnnamedNotShown(members, "output", |core|);
  }

  lemma FlatLooksWhole(prefix: Text, members: Members, suffix: Text, co: Coercions)
    requires OPEN !in prefix && QUOTE !in suffix && Fields(members) && !Named(members, "output")
    ensures !LooksCut(prefix + Print(Obj(members)) + suffix)
  {
    var text, l, core := prefix + Print(Obj(members)) + suffix, prefix + [OPEN], Body(members);
    ObjectSplits(prefix, members, suffix);
    FlatShowsNoOutput(members, co);
    if BeginsAsObject(text) {
      PrefixIsWide(prefix, text);
      forall p: nat, q: nat ensures !ShownAt(text, QuotedName("output"), p, q) {
        ShownNowhere(l, core, suffix, "output", p, q, co);
      }
    }
  }

  lemma ObjectSplits(prefix: Text, members: Members, suffix: Text)
    ensures var text := prefix + Print(Obj(members)) + suffix;
            && text == (prefix + [OPEN]) + (Body(members) + suffix)
            && |prefix| < |text| && prefix == text[..|prefix|] && text[|prefix|] == OPEN
  {
  }

  lemma PrefixIsWide(prefix: Text, text: Text)
    requires OPEN !in prefix && |prefix| < |text| && prefix == text[..|prefix|] && text[|prefix|] == OPEN
    requires BeginsAsObject(text)
    ensures AllWide(prefix) && QUOTE !in prefix
  {
    var k :| 0 <= k < |text| && text[k] == OPEN && AllWide(text[..k]);
    assert forall i :: 0 <= i < |prefix| ==> text[i] == prefix[i] && text[i] != OPEN;
    assert forall i :: 0 <= i < k ==> IsWide(text[..k][i]) && text[i] == text[..k][i];
    assert k == |prefix|;
    WideHasNoQuote(prefix);
  }

  /** An object with the one member `"output"`, inside an object with the one member `"a"`. */
  function Inner(): Members {
    Member(Ascii("output"), Str(Ascii("x")), NoMembers)
  }

  function Nested(): Members {
    Member(Ascii("a"), Obj(Inner()), NoMembers)
  }

  const BEFORE: Text := [123, 34, 97, 34, 58, 32]
  const BEHIND: Text := [120, 34, 125]

  lemma OneMemberText(name: string, value: Json)
    requires Name(name)
    ensures Print(Obj(Member(Ascii(name), value, NoMembers)))
         == ([OPEN] + (QuotedName(name) + COLON)) + (Print(value) + [CLOSE])
  {
    NamePrints(name);
    var n, c, v := QuotedName(name), COLON, Print(value);
    Nothing(v);
    Assoc(n, c, v);
    Assoc([OPEN], n + c, v);
    Assoc([OPEN] + (n + c), v, [CLOSE]);
    Assoc([OPEN], n + (c + v), [CLOSE]);
  }

  lemma InnerText()
    ensures Print(Obj(Inner())) == Head() + BEHIND
  {
    OneMemberText("output", Str(Ascii("x")));
    NamePrints("x");
    var n := QuotedName("output");
    assert QuotedName("x") == [QUOTE] + [120, 34];
    assert QuotedName("x") + [CLOSE] == [QUOTE] + BEHIND;
    Assoc([OPEN] + (n + COLON), [QUOTE], BEHIND);
    Assoc([OPEN], n + COLON, [QUOTE]);
    Assoc(n, COLON, [QUOTE]);
  }

  lemma NestedText()
    ensures Print(Obj(Nested())) == BEFORE + (Head() + (BEHIND + [CLOSE]))
    ensures !NamesContract(Nested()) && WritableMembers(Nested())
  {
    OneMemberText("a", Obj(Inner()));
    InnerText();
    Assoc(Head(), BEHIND, [CLOSE]);
    assert [OPEN] + (QuotedName("a") + COLON) == BEFORE;
    Apart("a", "output");
    Apart("a", "is_error");
    Apart("a", "state_note");
  }

  lemma BeforeHasNoName(tail: Text, p: nat)
    requires p < |BEFORE|
    ensures !OccursAt(BEFORE + tail, QuotedName("output"), p)
  {
    var m, text := QuotedName("output"), BEFORE + tail;
    assert m[0] == QUOTE && m[1] == 111;
    assert text[..|BEFORE|] == BEFORE;
    assert text[p] == BEFORE[p] && (p + 1 < |BEFORE| ==> text[p + 1] == BEFORE[p + 1]);
  }

  lemma BehindUnescaped(co: Coercions)
    ensures Unescape(BEHIND + [CLOSE], co) == Ascii("x")
  {
    var rest := BEHIND + [CLOSE];
    assert rest[0] == 120 && rest[1..][0] == QUOTE;
    assert Unescape(rest[1..], co) == [];
    Nothing([rest[0]]);
    assert Ascii("x") == [120];
  }

  lemma NestedShows(co: Coercions)
    ensures FieldValue(Print(Obj(Nested())), "output", co) == Some(Ascii("x"))
  {
    NestedText();
    var tail := Head() + (BEHIND + [CLOSE]);
    NoNameBefore(tail, co);
    HeadIsRead(BEHIND + [CLOSE], co);
    BehindUnescaped(co);
  }

  lemma NoNameBefore(tail: Text, co: Coercions)
    ensures FieldValue(BEFORE + tail, "output", co) == FieldValue(tail, "output", co)
  {
    forall p | 0 <= p < |BEFORE| ensures !OccursAt(BEFORE + tail, QuotedName("output"), p) {
      BeforeHasNoName(tail, p);
    }
    FieldPast(BEFORE, tail, "output", co);
  }

  /** A nested `"output"` is taken for that of a contract cut off, if the object begins the reply. */
  lemma NestedOutputIsSalvaged(co: Coercions)
    ensures var text := Print(Obj(Nested()));
            && !NamesContract(Nested()) && ParseObservation(text, co).content == Ascii("x")
            && !Plain(text, ParseObservation(text, co))
  {
    var text := Print(Obj(Nested()));
    NestedText();
    Nothing(text);
    ObjectRead([], Nested(), [], co);
    assert Trimmed(text, text) by {
      var none: Text := [];
      assert AllWide(none) && text == none + (text + none);
    }
    TrimmedOnce(text, text);
    NestedShows(co);
    var content := ParseObservation(text, co).content;
    if Trimmed(text, content) {
      TrimmedOnce(text, content);
    }
  }

  // ------------------------------------------------------------------ a contract cut before its output

  lemma HeadShowsNothing(m: nat)
    requires m < |Head()|
    ensures forall p: nat, q: nat :: !ShownAt(Head()[..m], QuotedName("output"), p, q)
  {
    var head := Head();
    assert head == [123, 34, 111, 117, 116, 112, 117, 116, 34, 58, 32, 34];
    forall p: nat, q: nat ensures !ShownAt(head[..m], QuotedName("output"), p, q) {
      OccursEnds(head[..m], "output", p);
    }
  }

  lemma CutShort(a: Text, b: Text, m: nat)
    requires m < |a|
    ensures m < |a + b| && (a + b)[..m] == a[..m]
  {
  }

  lemma NothingFoundIn(o: Observation, m: nat, co: Coercions)
    requires m < |DumpsObservationContract(o)|
    ensures CompleteContract(DumpsObservationContract(o)[..m], co).None?
  {
    TruncatedPrintIsNotFound(ContractMembers(o), m);
  }

  /** A printed contract that is cut before the opening quote of its output is plain text. */
  lemma CutBeforeOutputIsPlain(o: Observation, m: nat, co: Coercions)
    requires m < |Head()|
    ensures m < |DumpsObservationContract(o)|
    ensures var text := DumpsObservationContract(o)[..m]; Plain(text, ParseObservation(text, co))
  {
    ContractText(o);
    var head := Head();
    CutShort(head, EscapeUnits(Units(o.content)) + ([QUOTE] + More(o)), m);
    NothingFoundIn(o, m, co);
    HeadShowsNothing(m);
    PlainExactly(head[..m], co);
  }

  // ------------------------------------------------------------------ what is read off a contract cut off

  /** A field that is shown is read from behind its quote; no other field is read. */
  lemma FieldExactly(text: Text, key: string, co: Coercions)
    ensures FieldValue(text, key, co).Some? <==> exists p: nat, q: nat :: ShownAt(text, QuotedName(key), p, q)
    ensures forall p: nat, q: nat :: ShownAt(text, QuotedName(key), p, q) ==>
              FieldValue(text, key, co) == Some(Unescape(text[q + 1..], co))
  {
    forall p: nat, q: nat | ShownAt(text, QuotedName(key), p, q)
      ensures FieldValue(text, key, co) == Some(Unescape(text[q + 1..], co))
    {
      ShownIsRead(text, key, p, q, co);
    }
    if FieldValue(text, key, co).Some? {
      var p, q := ReadIsShown(text, key, co);
    }
  }

  function FlagText(w: Text, v: Text): Text {
    QuotedName("is_error") + (w + ([58] + (v + Ascii("true"))))
  }

  /** The name of the error flag, a colon and `true`, with white space around the colon. */
  ghost predicate FlagAt(text: Text, p: nat) {
    exists w, v :: AllWide(w) && AllWide(v) && OccursAt(text, FlagText(w, v), p)
  }

  lemma Prefixed(s: Text, a: Text, b: Text)
    requires a <= s && b <= s[|a|..]
    ensures a + b <= s
  {
    assert s == a + s[|a|..];
  }

  lemma PrefixedParts(s: Text, a: Text, b: Text)
    requires a + b <= s
    ensures a <= s && b <= s[|a|..]
  {
    assert s[..|a|] == (a + b)[..|a|] == a;
    assert s[|a|..][..|b|] == (a + b)[|a|..] == b;
  }

  lemma WideThen(s: Text, w: Text, rest: Text)
    requires AllWide(w) && rest != [] && !IsWide(rest[0]) && w + rest <= s
    ensures StripLeft(s) == s[|w|..] && rest <= StripLeft(s)
  {
    PrefixedParts(s, w, rest);
    assert s == w + s[|w|..];
    StripLeftHead(w, s[|w|..]);
  }

  lemma SaidIsFlag(s: Text)
    requires SaysTrue(s)
    ensures FlagAt(s, 0)
  {
    var m, t := QuotedName("is_error"), Ascii("true");
    var rest := s[|m|..];
    var w := StripLeftParts(rest);
    var colon := StripLeft(rest);
    var v := StripLeftParts(colon[1..]);
    Prefixed(colon[1..], v, t);
    assert [colon[0]] <= colon;
    Prefixed(colon, [58], v + t);
    assert rest[|w|..] == colon;
    Prefixed(rest, w, [58] + (v + t));
    Prefixed(s, m, w + ([58] + (v + t)));
    Starts(s, FlagText(w, v));
  }

  lemma FlagIsSaid(s: Text, w: Text, v: Text)
    requires AllWide(w) && AllWide(v) && FlagText(w, v) <= s
    ensures SaysTrue(s)
  {
    var m, t := QuotedName("is_error"), Ascii("true");
    var inner := [58] + (v + t);
    PrefixedParts(s, m, w + inner);
    WideThen(s[|m|..], w, inner);
    var colon := StripLeft(s[|m|..]);
    PrefixedParts(colon, [58], v + t);
    assert colon[0] == ([58] + (v + t))[0];
    WideThen(colon[1..], v, t);
  }

  lemma FlagHere(s: Text)
    ensures SaysTrue(s) <==> FlagAt(s, 0)
  {
    if SaysTrue(s) {
      SaidIsFlag(s);
    }
    if FlagAt(s, 0) {
      var w, v :| AllWide(w) && AllWide(v) && OccursAt(s, FlagText(w, v), 0);
      Starts(s, FlagText(w, v));
      FlagIsSaid(s, w, v);
    }
  }

  ghost predicate Flagged(s: Text) {
    exists p: nat :: FlagAt(s, p)
  }

  lemma FlaggedNext(s: Text)
    requires s != []
    ensures Flagged(s) <==> FlagAt(s, 0) || Flagged(s[1..])
  {
    if Flagged(s) {
      var p: nat :| FlagAt(s, p);
      if p > 0 {
        FlagLater(s, p - 1);
      }
    }
    if Flagged(s[1..]) {
      var p: nat :| FlagAt(s[1..], p);
      FlagLater(s, p);
    }
  }

  lemma NoFlag(p: nat)
    ensures !FlagAt([], p)
  {
    forall w, v ensures |FlagText(w, v)| > 0 { }
  }

  lemma {:induction false} FindsFlag(s: Text)
    ensures FindsTrue(s) <==> Flagged(s)
  {
    FlagHere(s);
    if s == [] {
      forall p: nat ensures !FlagAt(s, p) {
        NoFlag(p);
      }
    } else {
      FindsFlag(s[1..]);
      FlaggedNext(s);
    }
  }

  lemma FlagLater(s: Text, p: nat)
    requires s != []
    ensures FlagAt(s[1..], p) <==> FlagAt(s, p + 1)
  {
    forall w, v ensures OccursAt(s[1..], FlagText(w, v), p) <==> OccursAt(s, FlagText(w, v), p + 1) {
      OccursLater(s, FlagText(w, v), p);
    }
  }

  /** The text of a field, or nothing. */
  function Shown(core: Text, key: string, co: Coercions): Text {
    match FieldValue(core, key, co)
    case None => []
    case Some(text) => text
  }

  /** What is read off a text that looks like a contract cut off: its output, whether a true error flag stands
      in it, every note that is not empty, a confidence in the unit interval, and nothing else. */
  ghost predicate SalvagedAs(core: Text, o: Observation, co: Coercions) {
    && (forall p: nat, q: nat :: ShownAt(core, QuotedName("output"), p, q) ==>
          o.content == Unescape(core[q + 1..], co))
    && (o.isError <==> Flagged(core))
    && MetadataAs(core, o.metadata, co)
  }

  ghost predicate MetadataAs(core: Text, metadata: map<string, Json>, co: Coercions) {
    var stated := FindConfidence(core);
    && (forall key :: key in metadata ==> IsNote(key) || key == "confidence")
    && (forall key :: IsNote(key) ==>
          (key in metadata <==> Shown(core, key, co) != [])
          && (key in metadata ==> metadata[key] == Str(Shown(core, key, co))))
    && ("confidence" in metadata <==> stated.Some? && 0.0 <= Value(stated.value) <= 1.0)
    && ("confidence" in metadata ==>
          metadata["confidence"].Num? && Value(metadata["confidence"].number) == Value(stated.value))
  }

  lemma SalvagedListed(i: nat)
    requires i < |SALVAGED|
    ensures IsNote(SALVAGED[i]) && SALVAGED[i] != "confidence"
    ensures forall j :: 0 <= j < i ==> SALVAGED[j] != SALVAGED[i]
  {
  }

  lemma SalvageListed(key: string)
    ensures IsNote(key) ==> key in SALVAGED
  {
    assert SALVAGED[0] == "reasoning" && SALVAGED[1] == "state_note" && SALVAGED[2] == "kb_note"
        && SALVAGED[3] == "ground_query" && SALVAGED[4] == "state_update" && SALVAGED[5] == "confidence_why";
  }

  function Texts(core: Text, names: seq<string>, co: Coercions): (r: seq<Text>)
    ensures |r| == |names| && forall i :: 0 <= i < |names| ==> r[i] == Shown(core, names[i], co)
  {
    if names == [] then []
    else Texts(core, names[..|names| - 1], co) + [Shown(core, names[|names| - 1], co)]
  }

  lemma SalvageStep(core: Text, n: nat, co: Coercions)
    requires 0 < n <= |SALVAGED|
    ensures SalvagedNotes(core, n, co)
         == Noted(SalvagedNotes(core, n - 1, co), SALVAGED[n - 1], Shown(core, SALVAGED[n - 1], co))
  {
  }

  lemma TextsStep(core: Text, names: seq<string>, name: string, co: Coercions)
    ensures Texts(core, names + [name], co) == Texts(core, names, co) + [Shown(core, name, co)]
  {
    assert (names + [name])[..|names|] == names;
  }

  lemma NoteIsNew(n: nat)
    requires n < |SALVAGED|
    ensures SALVAGED[n] !in SALVAGED[..n]
  {
    SalvagedListed(n);
  }

  lemma {:induction false} NotesSalvaged(core: Text, n: nat, co: Coercions)
    requires n <= |SALVAGED|
    ensures HoldsNotes(SalvagedNotes(core, n, co), SALVAGED[..n], Texts(core, SALVAGED[..n], co))
  {
    if n > 0 {
      var names, name := SALVAGED[..n - 1], SALVAGED[n - 1];
      NotesSalvaged(core, n - 1, co);
      NoteIsNew(n - 1);
      NamesStep(SALVAGED, n);
      SalvageStep(core, n, co);
      TextsStep(core, names, name, co);
      OneMoreNote(SalvagedNotes(core, n - 1, co), names, Texts(core, names, co), name, Shown(core, name, co));
    }
  }

  lemma ConfidenceSalvaged(core: Text, co: Coercions)
    ensures var stated := FindConfidence(core);
            var read := if stated.Some? then AcceptedConfidence(Num(stated.value), co) else None;
            && (read.Some? <==> stated.Some? && 0.0 <= Value(stated.value) <= 1.0)
            && (read.Some? ==> Value(read.value) == Value(stated.value))
  {
    var stated := FindConfidence(core);
    if stated.Some? && InUnit(stated.value) {
      FloatKeepsValue(stated.value);
    }
  }

  /** What is kept of the notes and the confidence. */
  lemma MetadataSalvaged(core: Text, confidence: Option<Number>, co: Coercions)
    requires var stated := FindConfidence(core);
             confidence == if stated.Some? then AcceptedConfidence(Num(stated.value), co) else None
    ensures MetadataAs(core, WithConfidence(SalvagedNotes(core, |SALVAGED|, co), confidence), co)
  {
    NotesReadOff(core, co);
    ConfidenceSalvaged(core, co);
  }

  /** The notes of a salvaged contract, each under its own name. */
  lemma NotesReadOff(core: Text, co: Coercions)
    ensures var notes := SalvagedNotes(core, |SALVAGED|, co);
            && (forall key :: key in notes ==> IsNote(key) && key != "confidence")
            && (forall key :: IsNote(key) ==>
                  (key in notes <==> Shown(core, key, co) != [])
                  && (key in notes ==> notes[key] == Str(Shown(core, key, co))))
  {
    var notes, texts := SalvagedNotes(core, |SALVAGED|, co), Texts(core, SALVAGED, co);
    NotesSalvaged(core, |SALVAGED|, co);
    NamesWhole(SALVAGED);
    forall key | key in notes ensures IsNote(key) && key != "confidence" {
      var i :| 0 <= i < |SALVAGED| && SALVAGED[i] == key;
      SalvagedListed(i);
    }
    forall key | IsNote(key)
      ensures key in notes <==> Shown(core, key, co) != []
      ensures key in notes ==> notes[key] == Str(Shown(core, key, co))
    {
      SalvageListed(key);
      var i :| 0 <= i < |SALVAGED| && SALVAGED[i] == key;
      assert texts[i] == Shown(core, key, co);
    }
  }

  /** A reply without a usable contract that looks like one cut off is read field by field. */
  lemma SalvagedExactly(text: Text, core: Text, co: Coercions)
    requires CompleteContract(text, co).None? && LooksCut(text) && Trimmed(text, core)
    ensures SalvagedAs(core, ParseObservation(text, co), co)
  {
    LooksCutExactly(text, co);
    TrimmedOnce(text, core);
    FindsFlag(core);
    FieldExactly(core, "output", co);
    var stated := FindConfidence(core);
    MetadataSalvaged(core, if stated.Some? then AcceptedConfidence(Num(stated.value), co) else None, co);
  }
}
