/** What the salvage searches find in the members of a printed object, cut anywhere. */
module PrintedFields {
  import opened Options
  import opened CodePoints
  import opened Json
  import opened JsonRoundTrip
  import opened ObjectScanner
  import opened Parsing
  import opened Sequences
  import opened TextSearch
  import opened ObservationContract

  // ------------------------------------------------------------------ names and string literals

  /** A field name: lower-case letters and underscores. */
  ghost predicate PlainName(name: Text) {
    name != [] && forall i :: 0 <= i < |name| ==> NameChar(name[i])
  }

  predicate NameChar(c: CodePoint) {
    95 <= c <= 122
  }

  function Enclosed(e: Text): Text {
    [QUOTE] + (e + [QUOTE])
  }

  /** The escaped text of a string. */
  function Escaped(text: Text): Text {
    EscapeUnits(Units(text))
  }

  /** Every quote in an escaped text stands behind a backslash. */
  ghost predicate Guarded(e: Text) {
    forall i :: 0 <= i < |e| && e[i] == QUOTE ==> i > 0 && e[i - 1] == BACKSLASH
  }

  /** The text is a name, or ends in a quote and the name. */
  predicate EndsAs(text: Text, name: Text) {
    || text == name
    || (|name| < |text| && text[|text| - |name| - 1] == QUOTE && text[|text| - |name|..] == name)
  }

  /** What can come after a string literal: nothing, or a character no name contains. */
  predicate Follows(rest: Text) {
    rest == [] || !NameChar(rest[0])
  }

  lemma GuardedUnit(u: CodeUnit)
    ensures Guarded(EscapeUnit(u)) && EscapeUnit(u) != []
  {
  }

  lemma GuardedConcat(a: Text, b: Text)
    requires Guarded(a) && Guarded(b)
    ensures Guarded(a + b)
  {
    forall i | 0 <= i < |a + b| && (a + b)[i] == QUOTE ensures i > 0 && (a + b)[i - 1] == BACKSLASH {
      if i >= |a| {
        assert b[i - |a|] == QUOTE;
      }
    }
  }

  lemma {:induction false} EscapedGuarded(units: seq<CodeUnit>)
    ensures Guarded(EscapeUnits(units))
  {
    if units != [] {
      GuardedUnit(units[0]);
      EscapedGuarded(units[1..]);
      GuardedConcat(EscapeUnit(units[0]), EscapeUnits(units[1..]));
    }
  }

  lemma OccurrenceParts(text: Text, name: Text, p: nat)
    requires OccursAt(text, Enclosed(name), p)
    ensures p + |name| + 1 < |text| && text[p] == QUOTE && text[p + |name| + 1] == QUOTE
    ensures forall i :: 0 <= i < |name| ==> text[p + 1 + i] == name[i]
  {
    var m := Enclosed(name);
    assert text[p + 0] == m[0] && text[p + (|name| + 1)] == m[|name| + 1];
    forall i | 0 <= i < |name| ensures text[p + 1 + i] == name[i] {
      assert text[p + (1 + i)] == m[1 + i];
    }
  }

  /** A quoted name that starts in a string literal ends with that literal. */
  lemma LiteralOccurs(e: Text, rest: Text, name: Text, p: nat)
    requires Guarded(e) && PlainName(name) && Follows(rest) && p < |e| + 2
    ensures OccursAt(Enclosed(e) + rest, Enclosed(name), p) ==> p + |name| == |e| && EndsAs(e, name)
  {
    var text, z := Enclosed(e) + rest, |e| + 1;
    if OccursAt(text, Enclosed(name), p) {
      OccurrenceParts(text, name, p);
      assert forall i :: 0 <= i < |e| ==> text[1 + i] == e[i];
      assert text[z] == QUOTE && (rest != [] ==> text[z + 1] == rest[0]);
      InsideName(name, text, p, p + |name|);
      InsideName(name, text, p, p + 1);
      if p + |name| < |e| {
        NoQuoteAfter(e, text, p + |name|);
      }
      if p < z <= p + |name| {
        InsideName(name, text, p, z);
      }
      EndsThere(e, name, text, p);
    }
  }

  /** No quote stands right after a letter of an escaped text. */
  lemma NoQuoteAfter(e: Text, text: Text, i: nat)
    requires Guarded(e) && 0 < i < |e| < |text| && forall j :: 0 <= j < |e| ==> text[1 + j] == e[j]
    requires NameChar(text[i])
    ensures text[i + 1] != QUOTE
  {
    assert text[1 + i] == e[i] && text[1 + (i - 1)] == e[i - 1];
  }

  lemma InsideName(name: Text, text: Text, p: nat, z: nat)
    requires PlainName(name) && p < z <= p + |name| < |text|
    requires forall i :: 0 <= i < |name| ==> text[p + 1 + i] == name[i]
    ensures NameChar(text[z])
  {
    assert text[p + 1 + (z - p - 1)] == name[z - p - 1];
  }

  lemma EndsThere(e: Text, name: Text, text: Text, p: nat)
    requires |text| >= |e| + 2 && p + |name| == |e|
    requires forall i :: 0 <= i < |e| ==> text[1 + i] == e[i]
    requires text[p] == QUOTE && forall i :: 0 <= i < |name| ==> text[p + 1 + i] == name[i]
    ensures EndsAs(e, name)
  {
    forall i | 0 <= i < |name| ensures e[p..][i] == name[i] {
      assert text[1 + (p + i)] == e[p + i] && text[p + 1 + i] == name[i];
    }
    assert e[p..] == name;
    if p == 0 {
      assert e[0..] == e;
    } else {
      assert text[1 + (p - 1)] == e[p - 1];
    }
  }

  /** And a literal that ends in the name does contain the quoted name there. */
  lemma LiteralEnds(e: Text, rest: Text, name: Text)
    requires EndsAs(e, name)
    ensures OccursAt(Enclosed(e) + rest, Enclosed(name), |e| - |name|)
  {
    var text, m, p := Enclosed(e) + rest, Enclosed(name), |e| - |name|;
    assert e[p..] == name;
    forall i | 0 <= i < |m| ensures text[p + i] == m[i] {
      if 0 < i <= |name| {
        assert m[i] == name[i - 1] == e[p..][i - 1];
      }
    }
  }

  // ------------------------------------------------------------------ one member

  /** A value without parts. */
  predicate Scalar(v: Json) {
    !v.Arr? && !v.Obj?
  }

  function EntryOf(name: Text, value: Json): Text {
    PrintString(name) + (COLON + Print(value))
  }

  /** Everything after the opening brace. */
  function Body(members: Members): Text {
    PrintMembers(members) + [CLOSE]
  }

  function RestOf(tail: Members): Text {
    if tail.NoMembers? then [CLOSE] else COMMA + Body(tail)
  }

  lemma BodySplits(name: Text, value: Json, tail: Members)
    ensures Body(Member(name, value, tail)) == EntryOf(name, value) + RestOf(tail)
  {
    var rest := if tail.NoMembers? then [] else COMMA + PrintMembers(tail);
    Assoc(PrintString(name), COLON + (Print(value) + rest), [CLOSE]);
    Assoc(COLON, Print(value) + rest, [CLOSE]);
    Assoc(Print(value), rest, [CLOSE]);
    Assoc(COMMA, PrintMembers(tail), [CLOSE]);
    Assoc(PrintString(name), COLON + Print(value), RestOf(tail));
    Assoc(COLON, Print(value), RestOf(tail));
    Nothing([CLOSE]);
    assert rest + [CLOSE] == RestOf(tail);
  }

  lemma PlainPrints(name: Text)
    requires PlainName(name)
    ensures PrintString(name) == Enclosed(name) && QUOTE !in name && Guarded(name)
  {
    BlandUnits(name);
  }

  lemma WordQuiet(word: string)
    requires word in {"null", "true", "false", "NaN", "Infinity", "-Infinity"}
    ensures QUOTE !in Ascii(word) && Ascii(word) != []
    ensures var c := Ascii(word)[0]; !IsGap(c) && !IsWide(c) && !IsDigit(c)
  {
  }

  lemma NumberQuiet(n: Number)
    requires n.Valid()
    ensures QUOTE !in PrintNumber(n) && PrintNumber(n) != []
    ensures var c := PrintNumber(n)[0]; !IsGap(c) && !IsWide(c) && (IsDigit(c) <==> !n.negative)
  {
    NumberIsBland(n);
    NumberStart(n, []);
    Nothing(PrintNumber(n));
  }

  /** A scalar that is no string prints without quotes. */
  lemma ScalarQuiet(v: Json)
    requires Scalar(v) && Writable(v) && !v.Str?
    ensures QUOTE !in Print(v) && Print(v) != []
    ensures var c := Print(v)[0]; !IsGap(c) && !IsWide(c) && (IsDigit(c) <==> v.Num? && !v.number.negative)
  {
    match v
    case Null => WordQuiet("null");
    case Bool(b) => WordQuiet(if b then "true" else "false");
    case Num(n) => NumberQuiet(n);
    case NaN => WordQuiet("NaN");
    case Infinity(negative) => WordQuiet(if negative then "-Infinity" else "Infinity");
  }

  /** The first character of a printed value tells what it is. */
  lemma ValueBegins(v: Json, rest: Text)
    requires Scalar(v) && Writable(v)
    ensures var s := Print(v) + rest;
            && s != [] && !IsGap(s[0]) && !IsWide(s[0])
            && (s[0] == QUOTE <==> v.Str?) && (IsDigit(s[0]) <==> v.Num? && !v.number.negative)
  {
    if v.Str? {
      assert Print(v)[0] == QUOTE;
    } else {
      ScalarQuiet(v);
      assert Print(v)[0] in Print(v);
    }
  }

  lemma QuietOccurs(seg: Text, rest: Text, name: Text, p: nat)
    requires QUOTE !in seg && p < |seg|
    ensures !OccursAt(seg + rest, Enclosed(name), p)
  {
    assert (seg + rest)[p + 0] == seg[p] && seg[p] in seg && Enclosed(name)[0] == QUOTE;
  }

  /** In a printed scalar a quoted name can only end a string. */
  lemma ValueOccurs(value: Json, rest: Text, k: Text, p: nat)
    requires PlainName(k) && Scalar(value) && Writable(value) && Follows(rest)
    requires p < |Print(value)| && OccursAt(Print(value) + rest, Enclosed(k), p)
    ensures p + |k| + 2 == |Print(value)| && value.Str? && EndsAs(Escaped(value.text), k)
  {
    if value.Str? {
      EscapedGuarded(Units(value.text));
      LiteralOccurs(Escaped(value.text), rest, k, p);
    } else {
      ScalarQuiet(value);
      QuietOccurs(Print(value), rest, k, p);
    }
  }

  lemma EntryText(name: Text, value: Json, rest: Text)
    requires PlainName(name)
    ensures EntryOf(name, value) + rest == Enclosed(name) + (COLON + (Print(value) + rest))
    ensures |EntryOf(name, value)| == |name| + 4 + |Print(value)|
  {
    PlainPrints(name);
    Assoc(Enclosed(name), COLON + Print(value), rest);
    Assoc(COLON, Print(value), rest);
  }

  lemma PlainEndsAs(name: Text, k: Text)
    requires PlainName(name)
    ensures EndsAs(name, k) <==> name == k
  {
  }

  lemma NameOccurs(name: Text, rest: Text, k: Text, p: nat)
    requires PlainName(name) && PlainName(k) && Follows(rest) && p < |name| + 2
    requires OccursAt(Enclosed(name) + rest, Enclosed(k), p)
    ensures p == 0 && name == k
  {
    PlainPrints(name);
    LiteralOccurs(name, rest, k, p);
    PlainEndsAs(name, k);
  }

  /** In a printed member a quoted name can start at the member's own name, or end a string value. */
  lemma EntryOccurs(name: Text, value: Json, rest: Text, k: Text, p: nat)
    requires PlainName(name) && PlainName(k) && Scalar(value) && Writable(value) && Follows(rest)
    requires p < |EntryOf(name, value)| && OccursAt(EntryOf(name, value) + rest, Enclosed(k), p)
    ensures || (p == 0 && name == k)
            || (p + |k| + 2 == |EntryOf(name, value)| && value.Str? && EndsAs(Escaped(value.text), k))
  {
    var n, after := |name| + 2, Print(value) + rest;
    EntryText(name, value, rest);
    if p < n {
      NameOccurs(name, COLON + after, k, p);
    } else {
      OccursShifted(Enclosed(name), COLON + after, Enclosed(k), p - n);
      if p < n + 2 {
        QuietOccurs(COLON, after, k, p - n);
      } else {
        OccursShifted(COLON, after, Enclosed(k), p - n - 2);
        ValueOccurs(value, rest, k, p - n - 2);
      }
    }
  }

  // ------------------------------------------------------------------ a member that is cut

  /** After a member comes nothing, a comma or the closing brace. */
  predicate AfterMember(rest: Text) {
    rest == [] || rest[0] == ',' as int || rest[0] == CLOSE
  }

  lemma RestFollows(tail: Members, d: nat)
    requires d <= |RestOf(tail)|
    ensures AfterMember(RestOf(tail)[..d]) && Follows(RestOf(tail)[..d])
  {
  }

  /** A member that is cut before its end holds no quoted name but its own. */
  lemma NoneInCut(name: Text, value: Json, k: Text, c: nat, p: nat)
    requires PlainName(name) && PlainName(k) && name != k && Scalar(value) && Writable(value)
    requires c < |EntryOf(name, value)|
    ensures !OccursAt(EntryOf(name, value)[..c], Enclosed(k), p)
  {
    var entry := EntryOf(name, value);
    if OccursAt(entry[..c], Enclosed(k), p) {
      Drop(entry[..c], entry[c..]);
      assert entry[..c] + entry[c..] == entry;
      OccursBefore(entry[..c], entry[c..], Enclosed(k), p);
      Nothing(entry);
      EntryOccurs(name, value, [], k, p);
    }
  }

  /** The value ends as the name that is sought. */
  ghost predicate Mimics(value: Json, k: Text) {
    value.Str? && EndsAs(Escaped(value.text), k)
  }

  lemma NoneInEntry(name: Text, value: Json, rest: Text, k: Text, p: nat)
    requires PlainName(name) && PlainName(k) && name != k && Scalar(value) && Writable(value) && Follows(rest)
    requires p < |EntryOf(name, value)| && (Mimics(value, k) ==> p != |EntryOf(name, value)| - |k| - 2)
    ensures !OccursAt(EntryOf(name, value) + rest, Enclosed(k), p)
  {
    if OccursAt(EntryOf(name, value) + rest, Enclosed(k), p) {
      EntryOccurs(name, value, rest, k, p);
    }
  }

  lemma OccursBehind(a: Text, b: Text, text: Text, m: Text, p: nat)
    requires OccursAt(text, m, p)
    ensures OccursAt(a + (b + text), m, |a| + (|b| + p))
  {
    OccursShifted(b, text, m, p);
    OccursShifted(a, b + text, m, |b| + p);
  }

  lemma MimicText(name: Text, e: Text, rest: Text, k: Text)
    requires EndsAs(e, k)
    ensures |k| <= |e|
    ensures OccursAt(Enclosed(name) + (COLON + (Enclosed(e) + rest)), Enclosed(k), |Enclosed(name)| + (2 + (|e| - |k|)))
  {
    LiteralEnds(e, rest, k);
    OccursBehind(Enclosed(name), COLON, Enclosed(e) + rest, Enclosed(k), |e| - |k|);
  }

  lemma MimicOccurs(name: Text, value: Json, rest: Text, k: Text)
    requires PlainName(name) && Mimics(value, k)
    ensures |k| + 2 <= |EntryOf(name, value)|
    ensures OccursAt(EntryOf(name, value) + rest, Enclosed(k), |EntryOf(name, value)| - |k| - 2)
  {
    var e := Escaped(value.text);
    EntryText(name, value, rest);
    MimicText(name, e, rest, k);
    assert Print(value) == Enclosed(e);
  }

  // ------------------------------------------------------------------ reading a string field

  /** What is read behind the first place where the quoted name occurs. */
  function ReadAt(text: Text, at: Option<nat>, n: nat, co: Coercions): Option<Text>
    requires at.Some? ==> at.value + n <= |text|
  {
    if at.None? then None
    else
      var s := SkipGap(text[at.value + n..]);
      if s == [] || s[0] != QUOTE then None else Some(Unescape(s[1..], co))
  }

  lemma FieldIsReadAt(text: Text, key: string, co: Coercions)
    ensures FieldValue(text, key, co) == ReadAt(text, Find(text, QuotedName(key)), |QuotedName(key)|, co)
    ensures QuotedName(key) == Enclosed(Ascii(key))
  {
  }

  /** A search passes over a part in which the quoted name does not start. */
  lemma FieldPast(head: Text, tail: Text, key: string, co: Coercions)
    requires forall p :: 0 <= p < |head| ==> !OccursAt(head + tail, QuotedName(key), p)
    ensures FieldValue(head + tail, key, co) == FieldValue(tail, key, co)
  {
    var m := QuotedName(key);
    FindPast(head, tail, m);
    if Find(tail, m).Some? {
      var n := Find(tail, m).value + |m|;
      Drop(head, tail);
      DropMore(head + tail, |head|, n);
    }
  }

  lemma FieldNowhere(text: Text, key: string, co: Coercions)
    requires forall p: nat :: !OccursAt(text, QuotedName(key), p)
    ensures FieldValue(text, key, co).None?
  {
    FindNowhere(text, QuotedName(key));
  }

  lemma NoneBeforeEnd(name: Text, value: Json, rest: Text, k: Text, p: nat)
    requires PlainName(name) && PlainName(k) && name != k && Scalar(value) && Writable(value) && Follows(rest)
    requires p + |k| + 2 < |EntryOf(name, value)|
    ensures !OccursAt(EntryOf(name, value) + rest, Enclosed(k), p)
  {
    NoneInEntry(name, value, rest, k, p);
  }

  /** Where the search stops at the end of a member it reads nothing. */
  lemma ReadsNothing(entry: Text, rest: Text, key: string, at: nat, co: Coercions)
    requires AfterMember(rest) && at + |QuotedName(key)| == |entry|
    requires OccursAt(entry + rest, QuotedName(key), at)
    requires forall p :: 0 <= p < at ==> !OccursAt(entry + rest, QuotedName(key), p)
    ensures FieldValue(entry + rest, key, co).None?
  {
    FieldIsReadAt(entry + rest, key, co);
    FindFirst(entry + rest, QuotedName(key), at);
    Drop(entry, rest);
    assert SkipGap(rest) == rest;
  }

  /** A string value that ends as the name hides the field: the search stops there and reads nothing. */
  lemma FieldMimicked(name: Text, value: Json, rest: Text, key: string, co: Coercions)
    requires PlainName(name) && PlainName(Ascii(key)) && name != Ascii(key) && Scalar(value) && Writable(value)
    requires AfterMember(rest) && Mimics(value, Ascii(key))
    ensures FieldValue(EntryOf(name, value) + rest, key, co).None?
  {
    MimicOccurs(name, value, rest, Ascii(key));
    var at := |EntryOf(name, value)| - |key| - 2;
    forall p | 0 <= p < at ensures !OccursAt(EntryOf(name, value) + rest, Enclosed(Ascii(key)), p) {
      NoneBeforeEnd(name, value, rest, Ascii(key), p);
    }
    FieldIsReadAt(rest, key, co);
    ReadsNothing(EntryOf(name, value), rest, key, at, co);
  }

  /** Past a member of another name that does not end as the one that is sought. */
  lemma FieldSkips(name: Text, value: Json, rest: Text, key: string, co: Coercions)
    requires PlainName(name) && PlainName(Ascii(key)) && name != Ascii(key) && Scalar(value) && Writable(value)
    requires Follows(rest) && !Mimics(value, Ascii(key))
    ensures FieldValue(EntryOf(name, value) + rest, key, co) == FieldValue(rest, key, co)
  {
    FieldIsReadAt(rest, key, co);
    forall p | 0 <= p < |EntryOf(name, value)| ensures !OccursAt(EntryOf(name, value) + rest, QuotedName(key), p) {
      NoneInEntry(name, value, rest, Ascii(key), p);
    }
    FieldPast(EntryOf(name, value), rest, key, co);
  }

  lemma FieldCut(name: Text, value: Json, key: string, c: nat, co: Coercions)
    requires PlainName(name) && PlainName(Ascii(key)) && name != Ascii(key) && Scalar(value) && Writable(value)
    requires c < |EntryOf(name, value)|
    ensures FieldValue(EntryOf(name, value)[..c], key, co).None?
  {
    FieldIsReadAt([], key, co);
    forall p: nat ensures !OccursAt(EntryOf(name, value)[..c], QuotedName(key), p) {
      NoneInCut(name, value, Ascii(key), c, p);
    }
    FieldNowhere(EntryOf(name, value)[..c], key, co);
  }

  // ------------------------------------------------------------------ a string that is cut

  /** What the first `k` characters of an escaped string show: the units they complete, and of a unit that
      is cut apart everything but its backslash. */
  function ShownUnits(units: seq<CodeUnit>, k: nat): Text {
    if units == [] || k == 0 then []
    else
      var e := EscapeUnit(units[0]);
      if k < |e| then e[1..k] else [Recovered(units[0])] + ShownUnits(units[1..], k - |e|)
  }

  lemma PartialUnit(u: CodeUnit, k: nat, co: Coercions)
    requires 0 < k < |EscapeUnit(u)|
    ensures Unescape(EscapeUnit(u)[..k], co) == EscapeUnit(u)[1..k]
  {
    var e := EscapeUnit(u);
    if ShortEscape(u).Some? {
      assert k == 1 && e[..1][1..] == [];
    } else {
      HexStart(u, k);
      var s := e[..k][1..];
      if s != [] {
        PlainTail(s[1..], co);
        assert s == [s[0]] + s[1..];
      }
      assert s == e[1..k];
    }
  }

  lemma HexStart(u: CodeUnit, k: nat)
    requires 0 < k < 6
    ensures HexEscape(u)[0] == BACKSLASH
    ensures k > 1 ==> HexEscape(u)[1..k][0] == 'u' as int
    ensures forall i :: 1 < i < k ==> HexEscape(u)[i] != QUOTE && HexEscape(u)[i] != BACKSLASH
  {
  }

  lemma {:induction false} PlainTail(s: Text, co: Coercions)
    requires forall i :: 0 <= i < |s| ==> s[i] != QUOTE && s[i] != BACKSLASH
    ensures Unescape(s, co) == s
  {
    if s != [] {
      PlainTail(s[1..], co);
      assert s == [s[0]] + s[1..];
    }
  }

  lemma TakeUnits(units: seq<CodeUnit>, k: nat)
    requires units != [] && k <= |EscapeUnits(units)|
    ensures var e := EscapeUnit(units[0]);
            EscapeUnits(units)[..k] == if k < |e| then e[..k] else e + EscapeUnits(units[1..])[..k - |e|]
  {
  }

  /** The salvage unescaper shows what the characters before the cut show. */
  lemma {:induction false} UnescapePart(units: seq<CodeUnit>, k: nat, co: Coercions)
    requires k <= |EscapeUnits(units)|
    ensures Unescape(EscapeUnits(units)[..k], co) == ShownUnits(units, k)
  {
    if units != [] && k > 0 {
      var e := EscapeUnit(units[0]);
      TakeUnits(units, k);
      if k < |e| {
        PartialUnit(units[0], k, co);
      } else {
        UnescapePart(units[1..], k - |e|, co);
        UnescapeUnit(units[0], EscapeUnits(units[1..])[..k - |e|], co);
      }
    }
  }

  lemma {:induction false} AllShown(units: seq<CodeUnit>, k: nat)
    requires |EscapeUnits(units)| <= k
    ensures ShownUnits(units, k) == Recover(units)
  {
    if units != [] {
      GuardedUnit(units[0]);
      AllShown(units[1..], k - |EscapeUnit(units[0])|);
    }
  }

  lemma StringCut(e: Text, rest: Text, c: nat)
    requires 0 < c <= |e| + 2 + |rest|
    ensures var s := (Enclosed(e) + rest)[..c];
            && s[0] == QUOTE
            && s[1..] == if c - 1 <= |e| then e[..c - 1] else e + ([QUOTE] + rest)[..c - 1 - |e|]
  {
    Assoc([QUOTE], e + [QUOTE], rest);
    Assoc(e, [QUOTE], rest);
    var all := e + ([QUOTE] + rest);
    assert Enclosed(e) + rest == [QUOTE] + all;
    Taken([QUOTE] + all, c);
    Cons(QUOTE, all);
    Cons(QUOTE, all[..c - 1]);
  }

  /** Reading a string of which `c` characters are there, its opening quote included, and then `rest`. */
  lemma StringShown(units: seq<CodeUnit>, rest: Text, c: nat, co: Coercions)
    requires 0 < c <= |EscapeUnits(units)| + 2 + |rest|
    ensures var s := (Enclosed(EscapeUnits(units)) + rest)[..c];
            s[0] == QUOTE && Unescape(s[1..], co) == ShownUnits(units, c - 1)
  {
    var e := EscapeUnits(units);
    StringCut(e, rest, c);
    if c - 1 <= |e| {
      UnescapePart(units, c - 1, co);
    } else {
      UnescapeUnits(units, ([QUOTE] + rest)[..c - 1 - |e|], co);
      AllShown(units, c - 1);
    }
  }

  // ------------------------------------------------------------------ a field of a cut reply

  lemma SkipColon(s: Text)
    requires s == [] || !IsGap(s[0])
    ensures SkipGap(COLON + s) == s
  {
    Cons2(':' as int, 32, s);
    assert COLON + s == [58] + ([32] + s);
    assert SkipGap((COLON + s)[1..]) == SkipGap(s);
  }

  lemma SkipColonCut(j: nat)
    requires j <= 2
    ensures SkipGap(COLON[..j]) == []
  {
    if j == 2 {
      SkipColon([]);
      Nothing(COLON);
      assert COLON[..2] == COLON;
    } else if j == 1 {
      assert COLON[..1][1..] == [];
    }
  }

  /** Reading the field whose name the text starts with. */
  lemma OwnRead(key: string, after: Text, co: Coercions)
    ensures var text := QuotedName(key) + after;
            var s := SkipGap(after);
            FieldValue(text, key, co) == if s == [] || s[0] != QUOTE then None else Some(Unescape(s[1..], co))
  {
    OwnHead(QuotedName(key), after);
  }

  lemma OwnHead(m: Text, after: Text)
    ensures Find(m + after, m) == Some(0) && (m + after)[|m|..] == after
  {
    Drop(m, after);
    assert m <= m + after;
  }

  lemma OwnCutShort(key: string, after: Text, c: nat, co: Coercions)
    requires PlainName(Ascii(key)) && c < |key| + 2
    ensures FieldValue((QuotedName(key) + after)[..c], key, co).None?
  {
    var text := (QuotedName(key) + after)[..c];
    FieldNowhere(text, key, co) by {
      forall p: nat ensures !OccursAt(text, QuotedName(key), p) {
      }
    }
  }

  lemma OwnValueShown(key: string, value: Json, rest: Text, j: nat, co: Coercions)
    requires Scalar(value) && Writable(value) && 0 < j <= |Print(value) + rest|
    ensures FieldValue(QuotedName(key) + (COLON + (Print(value) + rest)[..j]), key, co)
         == if value.Str? then Some(ShownUnits(Units(value.text), j - 1)) else None
  {
    var shown := (Print(value) + rest)[..j];
    OwnRead(key, COLON + shown, co);
    ValueBegins(value, rest);
    SkipColon(shown);
    if value.Str? {
      StringShown(Units(value.text), rest, j, co);
    }
  }

  lemma TakeTwice(a: Text, b: Text, s: Text, c: nat)
    requires |a| <= c <= |a| + |b| + |s|
    ensures (a + (b + s))[..c] == a + (if c <= |a| + |b| then b[..c - |a|] else b + s[..c - |a| - |b|])
  {
  }

  /** The value of a member whose name is sought, of which `c` characters and then `rest` are there. */
  lemma OwnShown(key: string, value: Json, rest: Text, c: nat, co: Coercions)
    requires PlainName(Ascii(key)) && Scalar(value) && Writable(value)
    requires c <= |key| + 4 + |Print(value) + rest|
    ensures FieldValue((QuotedName(key) + (COLON + (Print(value) + rest)))[..c], key, co)
         == if value.Str? && |key| + 4 < c then Some(ShownUnits(Units(value.text), c - |key| - 5)) else None
  {
    var m, body := QuotedName(key), Print(value) + rest;
    if c < |m| {
      OwnCutShort(key, COLON + body, c, co);
    } else {
      TakeTwice(m, COLON, body, c);
      if c <= |m| + 2 {
        OwnRead(key, COLON[..c - |m|], co);
        SkipColonCut(c - |m|);
      } else {
        OwnValueShown(key, value, rest, c - |m| - 2, co);
      }
    }
  }

  /** Every name is plain, and every value a scalar that can be written. */
  ghost predicate Fields(members: Members) {
    members.Member? ==>
      PlainName(members.key) && Scalar(members.value) && Writable(members.value) && Fields(members.tail)
  }

  /** What the first `c` characters of printed members show of a text field: its own characters, unless a
      string before it ends as its name. */
  function ShownIn(members: Members, k: Text, c: nat): Option<Text> {
    match members
    case NoMembers => None
    case Member(name, value, tail) =>
      var start, end := |name| + 4, |EntryOf(name, value)|;
      if name == k then
        if value.Str? && start < c then Some(ShownUnits(Units(value.text), c - start - 1)) else None
      else if c <= end + 1 || (value.Str? && EndsAs(value.text, k)) then None
      else ShownIn(tail, k, c - end - 2)
  }

  // ------------------------------------------------------------------ ends of escaped strings

  /** The escaped text of one character. */
  function Piece(c: CodePoint): Text {
    EscapeUnits(UnitsOf(c))
  }

  lemma OneUnit(u: CodeUnit)
    ensures EscapeUnits([u]) == EscapeUnit(u)
  {
    assert [u][1..] == [];
    Nothing(EscapeUnit(u));
  }

  lemma UnitShape(u: CodeUnit)
    ensures var e := EscapeUnit(u);
            && e != [] && (NameChar(e[0]) || NameChar(u) ==> e == [u])
            && (e[|e| - 1] == QUOTE <==> u == QUOTE)
            && (forall i :: 0 <= i < |e| - 1 ==> e[i] != QUOTE)
            && (u >= 0xD800 ==> e[0] == BACKSLASH)
  {
  }

  lemma PieceShape(c: CodePoint)
    ensures var e := Piece(c);
            && e != [] && (NameChar(e[0]) || NameChar(c) ==> e == [c])
            && (e[|e| - 1] == QUOTE <==> c == QUOTE)
            && (forall i :: 0 <= i < |e| - 1 ==> e[i] != QUOTE)
  {
    if c < 0x10000 {
      OneUnit(c);
      UnitShape(c);
    } else {
      var high, low := UnitsOf(c)[0], UnitsOf(c)[1];
      assert UnitsOf(c)[1..] == [low];
      OneUnit(low);
      UnitShape(high);
      UnitShape(low);
      Unlast(EscapeUnit(high), EscapeUnit(low));
    }
  }

  lemma EscapedFirst(text: Text)
    requires text != []
    ensures Escaped(text) == Piece(text[0]) + Escaped(text[1..])
  {
    EscapeConcat(UnitsOf(text[0]), Units(text[1..]));
  }

  lemma {:induction false} EscapedLonger(text: Text)
    ensures |text| <= |Escaped(text)|
  {
    if text != [] {
      EscapedFirst(text);
      PieceShape(text[0]);
      EscapedLonger(text[1..]);
    }
  }

  /** Only the name itself is escaped to a name. */
  lemma {:induction false} EscapedName(text: Text, k: Text)
    requires forall i :: 0 <= i < |k| ==> NameChar(k[i])
    ensures Escaped(text) == k <==> text == k
  {
    if text != [] {
      EscapedFirst(text);
      PieceShape(text[0]);
      var e, rest := Piece(text[0]), Escaped(text[1..]);
      if k == [] {
        assert Escaped(text) != [];
      } else {
        EscapedName(text[1..], k[1..]);
        Cons(text[0], text[1..]);
        Cons(k[0], k[1..]);
        assert text == [text[0]] + text[1..] && k == [k[0]] + k[1..];
        if e == [text[0]] {
          Cons(text[0], rest);
        } else {
          assert (e + rest)[0] == e[0];
        }
      }
    }
  }

  /** The text ends in a quote and the name. */
  predicate EndsQuoted(text: Text, k: Text) {
    |k| < |text| && text[|text| - |k| - 1] == QUOTE && text[|text| - |k|..] == k
  }

  lemma SuffixOf(a: Text, b: Text, n: nat)
    requires n <= |b|
    ensures (a + b)[|a + b| - n..] == b[|b| - n..]
    ensures n < |b| ==> (a + b)[|a + b| - n - 1] == b[|b| - n - 1]
  {
  }

  lemma EndsInPiece(e: Text, rest: Text, k: Text)
    requires |rest| < |k| && e != [] && forall i :: 0 <= i < |e| - 1 ==> e[i] != QUOTE
    ensures !EndsQuoted(e + rest, k)
  {
    if |k| < |e + rest| {
      var i := |e + rest| - |k| - 1;
      assert (e + rest)[i] == e[i];
    }
  }

  /** Where a text with no quote but its last character is put in front. */
  lemma EndsJoined(e: Text, rest: Text, k: Text)
    requires e != [] && forall i :: 0 <= i < |e| - 1 ==> e[i] != QUOTE
    ensures EndsQuoted(e + rest, k) <==> EndsQuoted(rest, k) || (rest == k && e[|e| - 1] == QUOTE)
  {
    if |rest| < |k| {
      EndsInPiece(e, rest, k);
    } else {
      SuffixOf(e, rest, |k|);
      if |k| == |rest| {
        assert (e + rest)[|e + rest| - |k| - 1] == e[|e| - 1];
        assert rest[|rest| - |k|..] == rest;
      }
    }
  }

  lemma {:induction false} EscapedEnds(text: Text, k: Text)
    requires PlainName(k)
    ensures EndsQuoted(Escaped(text), k) <==> EndsQuoted(text, k)
  {
    if text != [] {
      var c, t := text[0], text[1..];
      EscapedFirst(text);
      PieceShape(c);
      EscapedEnds(t, k);
      EscapedName(t, k);
      EndsJoined(Piece(c), Escaped(t), k);
      EndsJoined([c], t, k);
      assert text == [c] + t;
    }
  }

  lemma EscapedEndsAs(text: Text, k: Text)
    requires PlainName(k)
    ensures EndsAs(Escaped(text), k) <==> EndsAs(text, k)
  {
    EscapedName(text, k);
    EscapedEnds(text, k);
  }

  // ------------------------------------------------------------------ all members of a cut reply

  lemma BodyCut(name: Text, value: Json, tail: Members, c: nat)
    requires c <= |Body(Member(name, value, tail))|
    ensures var entry, text := EntryOf(name, value), Body(Member(name, value, tail))[..c];
            if c < |entry| then text == entry[..c]
            else c - |entry| <= |RestOf(tail)| && text == entry + RestOf(tail)[..c - |entry|]
  {
    BodySplits(name, value, tail);
  }

  lemma RestCut(tail: Members, d: nat)
    requires d <= |RestOf(tail)|
    ensures d <= 1 || tail.NoMembers? ==> QUOTE !in RestOf(tail)[..d]
    ensures d > 1 && tail.Member? ==> d - 2 <= |Body(tail)| && RestOf(tail)[..d] == COMMA + Body(tail)[..d - 2]
  {
  }

  lemma FieldQuiet(text: Text, key: string, co: Coercions)
    requires QUOTE !in text
    ensures FieldValue(text, key, co).None?
  {
    FieldIsReadAt(text, key, co);
    forall p: nat ensures !OccursAt(text, QuotedName(key), p) {
      if p < |text| {
        Nothing(text);
        QuietOccurs(text, [], Ascii(key), p);
      }
    }
    FieldNowhere(text, key, co);
  }

  lemma FieldPastComma(rest: Text, key: string, co: Coercions)
    ensures FieldValue(COMMA + rest, key, co) == FieldValue(rest, key, co)
  {
    FieldIsReadAt(rest, key, co);
    forall p | 0 <= p < |COMMA| ensures !OccursAt(COMMA + rest, QuotedName(key), p) {
      QuietOccurs(COMMA, rest, Ascii(key), p);
    }
    FieldPast(COMMA, rest, key, co);
  }

  lemma OwnField(key: string, value: Json, tail: Members, c: nat, co: Coercions)
    requires PlainName(Ascii(key)) && Scalar(value) && Writable(value)
    requires c <= |Body(Member(Ascii(key), value, tail))|
    ensures FieldValue(Body(Member(Ascii(key), value, tail))[..c], key, co)
         == ShownIn(Member(Ascii(key), value, tail), Ascii(key), c)
  {
    BodySplits(Ascii(key), value, tail);
    EntryText(Ascii(key), value, RestOf(tail));
    FieldIsReadAt([], key, co);
    OwnShown(key, value, RestOf(tail), c, co);
  }

  lemma EntryRead(name: Text, value: Json, rest: Text, key: string, co: Coercions)
    requires PlainName(name) && PlainName(Ascii(key)) && name != Ascii(key) && Scalar(value) && Writable(value)
    requires AfterMember(rest) && Follows(rest)
    ensures FieldValue(EntryOf(name, value) + rest, key, co)
         == if value.Str? && EndsAs(value.text, Ascii(key)) then None else FieldValue(rest, key, co)
  {
    if value.Str? {
      EscapedEndsAs(value.text, Ascii(key));
    }
    if Mimics(value, Ascii(key)) {
      FieldMimicked(name, value, rest, key, co);
    } else {
      FieldSkips(name, value, rest, key, co);
    }
  }

  lemma FieldBehind(name: Text, value: Json, tail: Members, key: string, d: nat, co: Coercions)
    requires PlainName(name) && PlainName(Ascii(key)) && name != Ascii(key) && Scalar(value) && Writable(value)
    requires d <= |RestOf(tail)|
    ensures FieldValue(EntryOf(name, value) + RestOf(tail)[..d], key, co)
         == if d <= 1 || tail.NoMembers? || (value.Str? && EndsAs(value.text, Ascii(key))) then None
            else FieldValue(Body(tail)[..d - 2], key, co)
  {
    RestFollows(tail, d);
    EntryRead(name, value, RestOf(tail)[..d], key, co);
    RestField(tail, key, d, co);
  }

  lemma FieldNotYet(name: Text, value: Json, tail: Members, key: string, c: nat, co: Coercions)
    requires PlainName(name) && PlainName(Ascii(key)) && name != Ascii(key) && Scalar(value) && Writable(value)
    requires c <= |Body(Member(name, value, tail))| && c < |EntryOf(name, value)|
    ensures FieldValue(Body(Member(name, value, tail))[..c], key, co).None?
  {
    BodyCut(name, value, tail, c);
    FieldCut(name, value, key, c, co);
  }

  lemma ShownPast(name: Text, value: Json, tail: Members, k: Text, c: nat)
    requires name != k
    ensures c < |EntryOf(name, value)| ==> ShownIn(Member(name, value, tail), k, c).None?
    ensures c >= |EntryOf(name, value)| ==> (
              ShownIn(Member(name, value, tail), k, c)
           == if c - |EntryOf(name, value)| <= 1 || tail.NoMembers? || (value.Str? && EndsAs(value.text, k)) then None
              else ShownIn(tail, k, c - |EntryOf(name, value)| - 2))
  {
  }

  /** Behind a member of another name the field is what the rest shows of it. */
  lemma OtherField(name: Text, value: Json, tail: Members, key: string, c: nat, co: Coercions)
    requires PlainName(name) && PlainName(Ascii(key)) && name != Ascii(key) && Scalar(value) && Writable(value)
    requires |EntryOf(name, value)| <= c <= |Body(Member(name, value, tail))|
    requires |EntryOf(name, value)| + 2 <= c && tail.Member? ==>
      && c - |EntryOf(name, value)| - 2 <= |Body(tail)|
      && FieldValue(Body(tail)[..c - |EntryOf(name, value)| - 2], key, co)
      == ShownIn(tail, Ascii(key), c - |EntryOf(name, value)| - 2)
    ensures FieldValue(Body(Member(name, value, tail))[..c], key, co)
         == ShownIn(Member(name, value, tail), Ascii(key), c)
  {
    BodyCut(name, value, tail, c);
    FieldBehind(name, value, tail, key, c - |EntryOf(name, value)|, co);
    ShownPast(name, value, tail, Ascii(key), c);
  }

  lemma TailFits(name: Text, value: Json, tail: Members, c: nat)
    requires c <= |Body(Member(name, value, tail))| && tail.Member? && |EntryOf(name, value)| + 2 <= c
    ensures c - |EntryOf(name, value)| - 2 <= |Body(tail)|
  {
    BodySplits(name, value, tail);
  }

  lemma RestField(tail: Members, key: string, d: nat, co: Coercions)
    requires d <= |RestOf(tail)|
    ensures FieldValue(RestOf(tail)[..d], key, co)
         == if d <= 1 || tail.NoMembers? then None else FieldValue(Body(tail)[..d - 2], key, co)
  {
    RestCut(tail, d);
    if d <= 1 || tail.NoMembers? {
      FieldQuiet(RestOf(tail)[..d], key, co);
    } else {
      FieldPastComma(Body(tail)[..d - 2], key, co);
    }
  }

  /** That the field is read as shown. */
  ghost predicate ReadAsShown(members: Members, key: string, c: nat, co: Coercions)
    requires c <= |Body(members)|
  {
    FieldValue(Body(members)[..c], key, co) == ShownIn(members, Ascii(key), c)
  }

  lemma OtherShown(name: Text, value: Json, tail: Members, key: string, c: nat, co: Coercions)
    requires PlainName(name) && PlainName(Ascii(key)) && name != Ascii(key) && Scalar(value) && Writable(value)
    requires c <= |Body(Member(name, value, tail))|
    requires forall d: nat :: d <= |Body(tail)| ==> ReadAsShown(tail, key, d, co)
    ensures ReadAsShown(Member(name, value, tail), key, c, co)
  {
    var end := |EntryOf(name, value)|;
    if c < end {
      FieldNotYet(name, value, tail, key, c, co);
      ShownPast(name, value, tail, Ascii(key), c);
    } else {
      if end + 2 <= c && tail.Member? {
        TailFits(name, value, tail, c);
        assert ReadAsShown(tail, key, c - end - 2, co);
      }
      OtherField(name, value, tail, key, c, co);
    }
  }

  /** Reading a text field off printed members that are cut anywhere. */
  lemma {:induction false} FieldShown(members: Members, key: string, c: nat, co: Coercions)
    requires Fields(members) && PlainName(Ascii(key)) && c <= |Body(members)|
    ensures ReadAsShown(members, key, c, co)
  {
    match members
    case NoMembers =>
      FieldQuiet(Body(members)[..c], key, co);
    case Member(name, value, tail) =>
      if name == Ascii(key) {
        OwnField(key, value, tail, c, co);
      } else {
        forall d: nat | d <= |Body(tail)| ensures ReadAsShown(tail, key, d, co) {
          FieldShown(tail, key, d, co);
        }
        OtherShown(name, value, tail, key, c, co);
      }
  }
}
