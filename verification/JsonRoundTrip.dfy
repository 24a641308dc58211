/** Decoding what the printer wrote gives the value back, whatever text follows it. */
module JsonRoundTrip {
  import opened Options
  import opened CodePoints
  import opened Json
  import opened Sequences

  // ------------------------------------------------------------------ strings

  lemma HexDigitRead(d: int)
    requires 0 <= d < 16
    ensures HexValue(HexDigit(d)) == Some(d)
  {
  }

  lemma HexDigitsOf(u: CodeUnit)
    ensures u / 4096 * 4096 + u / 256 % 16 * 256 + u / 16 % 16 * 16 + u % 16 == u
  {
    var a := u / 16;
    var b := a / 16;
    assert u / 256 == b && u / 4096 == b / 16;
    assert u == a * 16 + u % 16 && a == b * 16 + a % 16 && b == b / 16 * 16 + b % 16;
  }

  lemma HexEscapeRead(u: CodeUnit, post: Text)
    ensures var s := HexEscape(u) + post;
            |s| >= 6 && s[0] == BACKSLASH && s[1] == 'u' as int && EscapedUnit(s) == Some(u) && s[6..] == post
  {
    var s := HexEscape(u) + post;
    assert s[2..6] == [HexDigit(u / 4096), HexDigit(u / 256 % 16), HexDigit(u / 16 % 16), HexDigit(u % 16)];
    HexDigitRead(u / 4096);
    HexDigitRead(u / 256 % 16);
    HexDigitRead(u / 16 % 16);
    HexDigitRead(u % 16);
    HexDigitsOf(u);
  }

  predicate HexWritten(u: CodeUnit) {
    ShortEscape(u).None? && !(32 <= u <= 126)
  }

  /** Only a unit written as \uXXXX reads as one. */
  lemma EscapedUnitOf(u: CodeUnit, post: Text)
    ensures EscapedUnit(EscapeUnit(u) + post) == if HexWritten(u) then Some(u) else None
  {
    if HexWritten(u) {
      HexEscapeRead(u, post);
    } else {
      var s := EscapeUnit(u) + post;
      assert s[0] == EscapeUnit(u)[0];
      assert |EscapeUnit(u)| == 2 ==> s[1] == EscapeUnit(u)[1];
    }
  }

  lemma NextUnit(units: seq<CodeUnit>, tail: Text)
    requires tail != [] && tail[0] == QUOTE
    ensures var next := EscapedUnit(EscapeUnits(units) + tail);
            next.Some? && Low(next.value) <==> units != [] && Low(units[0])
    ensures units != [] && Low(units[0]) ==> EscapedUnit(EscapeUnits(units) + tail) == Some(units[0])
  {
    if units == [] {
      Nothing(tail);
    } else {
      EscapedUnitOf(units[0], EscapeUnits(units[1..]) + tail);
      EscapeFirst(units, tail);
    }
  }

  lemma HexStep(u: CodeUnit, rest: Text)
    ensures var next := EscapedUnit(rest);
            DecodeString(HexEscape(u) + rest)
              == if High(u) && next.Some? && Low(next.value)
                 then Before(Combine(u, next.value), DecodeString(rest[6..]))
                 else Before(u, DecodeString(rest))
  {
    var s := HexEscape(u) + rest;
    HexEscapeRead(u, rest);
    assert |rest| >= 6 ==> s[12..] == rest[6..];
  }

  lemma PlainStep(u: CodeUnit, rest: Text)
    requires !HexWritten(u)
    ensures DecodeString(EscapeUnit(u) + rest) == Before(u, DecodeString(rest))
  {
    var s := EscapeUnit(u) + rest;
    EscapedUnitOf(u, rest);
    if ShortEscape(u).Some? {
      assert s[0] == BACKSLASH && s[1] == ShortEscape(u).value && s[2..] == rest;
    } else {
      assert s[0] == u && s[1..] == rest;
    }
  }

  lemma EscapeFirst(units: seq<CodeUnit>, tail: Text)
    requires units != []
    ensures EscapeUnits(units) + tail == EscapeUnit(units[0]) + (EscapeUnits(units[1..]) + tail)
  {
  }

  ghost predicate ReadBack(units: seq<CodeUnit>, post: Text) {
    DecodeString(EscapeUnits(units) + ([QUOTE] + post)) == Some((Fold(units), post))
  }

  lemma HexReadBack(units: seq<CodeUnit>, post: Text)
    requires units != [] && HexWritten(units[0]) && ReadBack(units[1..], post)
    requires |units| >= 2 ==> ReadBack(units[2..], post)
    ensures ReadBack(units, post)
  {
    var tail := [QUOTE] + post;
    var u, rest := units[0], units[1..];
    EscapeFirst(units, tail);
    HexStep(u, EscapeUnits(rest) + tail);
    NextUnit(rest, tail);
    if High(u) && rest != [] && Low(rest[0]) {
      PairRest(units, tail);
    }
  }

  /** What follows the escape of the second code unit. */
  lemma PairRest(units: seq<CodeUnit>, tail: Text)
    requires |units| >= 2 && HexWritten(units[1])
    ensures |EscapeUnits(units[1..]) + tail| >= 6
            && (EscapeUnits(units[1..]) + tail)[6..] == EscapeUnits(units[2..]) + tail
  {
    DropMore(units, 1, 1);
    EscapeFirst(units[1..], tail);
    HexEscapeRead(units[1], EscapeUnits(units[2..]) + tail);
  }

  lemma {:induction false} DecodeEscaped(units: seq<CodeUnit>, post: Text)
    ensures ReadBack(units, post)
  {
    var tail := [QUOTE] + post;
    if units == [] {
      assert EscapeUnits(units) + tail == tail;
      assert tail[1..] == post;
    } else {
      DecodeEscaped(units[1..], post);
      if HexWritten(units[0]) {
        if |units| >= 2 {
          DecodeEscaped(units[2..], post);
        }
        HexReadBack(units, post);
      } else {
        EscapeFirst(units, tail);
        PlainStep(units[0], EscapeUnits(units[1..]) + tail);
      }
    }
  }

  lemma StringRead(text: Text, post: Text)
    ensures var s := PrintString(text) + post;
            s[0] == QUOTE && DecodeString(s[1..]) == Some((Fold(Units(text)), post))
  {
    var body := EscapeUnits(Units(text));
    Assoc([QUOTE], body + [QUOTE], post);
    Assoc(body, [QUOTE], post);
    Cons(QUOTE, body + ([QUOTE] + post));
    DecodeEscaped(Units(text), post);
  }

  // ------------------------------------------------------------------ numbers

  lemma {:induction false} DigitsRead(digits: seq<Digit>, post: Text)
    requires post == [] || !IsDigit(post[0])
    ensures var s := PrintDigits(digits) + post;
            SpanDigits(s) == digits && s[|digits|..] == post
  {
    if digits == [] {
      Nothing(post);
    } else {
      var more := PrintDigits(digits[1..]) + post;
      DigitsRead(digits[1..], post);
      Assoc([digits[0] as int + 48], PrintDigits(digits[1..]), post);
      Cons(digits[0] as int + 48, more);
      DropMore([digits[0] as int + 48] + more, 1, |digits| - 1);
    }
  }

  /** What follows cannot be read as a continuation of a number. */
  predicate Stops(post: Text) {
    post == [] || !(IsDigit(post[0]) || post[0] == '.' as int || post[0] == 'e' as int || post[0] == 'E' as int)
  }

  function FractionText(frac: Option<seq<Digit>>): Text {
    if frac.None? then [] else ['.' as int] + PrintDigits(frac.value)
  }

  function ExponentText(exp: Option<Exponent>): Text {
    if exp.None? then [] else PrintExponent(exp.value)
  }

  lemma ExponentRead(exp: Option<Exponent>, post: Text)
    requires Stops(post) && (exp.Some? ==> exp.value.digits != [])
    ensures DecodeExponent(ExponentText(exp) + post) == (exp, post)
  {
    if exp.None? {
      assert ExponentText(exp) + post == post;
    } else if exp.value.sign.None? {
      UnsignedRead(exp.value, post);
    } else {
      SignedRead(exp.value, post);
    }
  }

  lemma UnsignedRead(e: Exponent, post: Text)
    requires Stops(post) && e.digits != [] && e.sign.None?
    ensures DecodeExponent(PrintExponent(e) + post) == (Some(e), post)
  {
    var s := PrintExponent(e) + post;
    var digits := PrintDigits(e.digits) + post;
    assert s[1..] == digits;
    DigitsRead(e.digits, post);
    FirstDigit(e.digits);
    assert s[1] == digits[0] == PrintDigits(e.digits)[0];
  }

  lemma SignedRead(e: Exponent, post: Text)
    requires Stops(post) && e.digits != [] && e.sign.Some?
    ensures DecodeExponent(PrintExponent(e) + post) == (Some(e), post)
  {
    var mark, sign := if e.upper then 'E' as int else 'e' as int, if e.sign.value then '-' as int else '+' as int;
    var digits := PrintDigits(e.digits);
    Assoc([mark], [sign] + digits, post);
    Assoc([sign], digits, post);
    Cons2(mark, sign, digits + post);
    DigitsRead(e.digits, post);
  }

  /** Neither an exponent nor what follows a number looks like a digit or a point. */
  lemma ExponentStart(exp: Option<Exponent>, post: Text)
    requires Stops(post)
    ensures var s := ExponentText(exp) + post;
            s == [] || (!IsDigit(s[0]) && s[0] != '.' as int)
  {
    assert exp.None? ==> ExponentText(exp) + post == post;
  }

  lemma FirstDigit(digits: seq<Digit>)
    requires digits != []
    ensures PrintDigits(digits) != [] && IsDigit(PrintDigits(digits)[0])
  {
  }

  lemma FractionRead(frac: Option<seq<Digit>>, post: Text)
    requires frac.Some? ==> frac.value != []
    requires post == [] || (!IsDigit(post[0]) && (frac.None? ==> post[0] != '.' as int))
    ensures DecodeFraction(FractionText(frac) + post) == (frac, post)
  {
    if frac.None? {
      Nothing(post);
    } else {
      var digits := PrintDigits(frac.value);
      Assoc(['.' as int], digits, post);
      Cons('.' as int, digits + post);
      DigitsRead(frac.value, post);
    }
  }

  lemma NumberText(n: Number, post: Text)
    ensures PrintNumber(n) + post
         == (if n.negative then ['-' as int] else [])
            + (PrintDigits(n.whole) + (FractionText(n.frac) + (ExponentText(n.exp) + post)))
  {
    var sign := if n.negative then ['-' as int] else [];
    var whole, frac, exp := PrintDigits(n.whole), FractionText(n.frac), ExponentText(n.exp);
    assert PrintNumber(n) == sign + (whole + (frac + exp));
    Regrouped(sign, whole, frac, exp, post);
  }

  lemma Regrouped(a: Text, b: Text, c: Text, d: Text, e: Text)
    ensures (a + (b + (c + d))) + e == a + (b + (c + (d + e)))
  {
  }

  lemma NumberRead(n: Number, post: Text)
    requires n.Valid() && Stops(post)
    ensures DecodeNumber(PrintNumber(n) + post) == Some((n, post))
  {
    var exponent := ExponentText(n.exp) + post;
    var fraction := FractionText(n.frac) + exponent;
    NumberText(n, post);
    SignRead(n, fraction, PrintDigits(n.whole) + fraction, PrintNumber(n) + post);
    ExponentStart(n.exp, post);
    assert n.frac.None? ==> fraction == exponent;
    ExponentRead(n.exp, post);
    FractionRead(n.frac, exponent);
    DigitsRead(n.whole, fraction);
    assert n.whole[0] == 0 ==> n.whole == [0];
  }

  lemma SignRead(n: Number, fraction: Text, body: Text, s: Text)
    requires n.whole != [] && body == PrintDigits(n.whole) + fraction
    requires s == (if n.negative then ['-' as int] else []) + body
    ensures s != [] && (s[0] == '-' as int <==> n.negative) && (if n.negative then s[1..] else s) == body
  {
    FirstDigit(n.whole);
    assert body[0] == PrintDigits(n.whole)[0];
    assert !n.negative ==> s == body;
  }

  // ------------------------------------------------------------------ values

  /** A value as it comes back: surrogate pairs in its strings have been folded. */
  function Folded(v: Json): Json {
    match v
    case Str(text) => Str(Fold(Units(text)))
    case Arr(items) => Arr(FoldedItems(items))
    case Obj(members) => Obj(FoldedMembers(members))
    case _ => v
  }

  function FoldedItems(items: Items): Items {
    match items
    case NoItems => NoItems
    case Item(head, tail) => Item(Folded(head), FoldedItems(tail))
  }

  function FoldedMembers(members: Members): Members {
    match members
    case NoMembers => NoMembers
    case Member(key, value, tail) => Member(Fold(Units(key)), Folded(value), FoldedMembers(tail))
  }

  predicate Writable(v: Json) {
    match v
    case Num(n) => n.Valid()
    case Arr(items) => WritableItems(items)
    case Obj(members) => WritableMembers(members)
    case _ => true
  }

  predicate WritableItems(items: Items) {
    items.Item? ==> Writable(items.head) && WritableItems(items.tail)
  }

  predicate WritableMembers(members: Members) {
    members.Member? ==> Writable(members.value) && WritableMembers(members.tail)
  }

  lemma LiteralRead(v: Json, post: Text)
    requires v.Null? || v.Bool? || v.NaN? || v.Infinity?
    ensures DecodeValue(Print(v) + post) == Some((v, post))
  {
    var s := Print(v) + post;
    assert Print(v) <= s;
    assert s[|Print(v)|..] == post;
    assert s[0] == Print(v)[0];
    assert forall i :: 0 <= i < |Print(v)| ==> s[i] == Print(v)[i];
  }

  lemma NumberValueRead(n: Number, post: Text)
    requires n.Valid() && Stops(post)
    ensures DecodeValue(PrintNumber(n) + post) == Some((Num(n), post))
  {
    NumberRead(n, post);
    NotLiteral(n, post);
  }

  /** A number starts with a digit, or with a minus and a digit. */
  lemma NumberStart(n: Number, post: Text)
    requires n.Valid()
    ensures var s := PrintNumber(n) + post;
            s != [] && (if n.negative then |s| >= 2 && s[0] == '-' as int && IsDigit(s[1]) else IsDigit(s[0]))
  {
    var s := PrintNumber(n) + post;
    FirstDigit(n.whole);
    assert s[0] == PrintNumber(n)[0];
    assert n.negative ==> s[1] == PrintNumber(n)[1] == PrintDigits(n.whole)[0];
  }

  lemma NotLiteral(n: Number, post: Text)
    requires n.Valid()
    ensures var s := PrintNumber(n) + post;
            s != [] && s[0] != QUOTE && s[0] != OPEN && s[0] != BRACKET && DecodeLiteral(s).None?
  {
    NumberStart(n, post);
    var s := PrintNumber(n) + post;
    forall word: string | word in {"null", "true", "false", "NaN", "Infinity", "-Infinity"}
      ensures !(Ascii(word) <= s)
    {
      assert Ascii(word)[0] == word[0] as int && (word == "-Infinity" ==> Ascii(word)[1] == 'I' as int);
    }
  }

  lemma Spaced(post: Text)
    ensures SkipSpace(COMMA + post) == COMMA + post
    ensures SkipSpace((COMMA + post)[1..]) == SkipSpace(post)
    ensures SkipSpace(COLON + post) == COLON + post
    ensures SkipSpace((COLON + post)[1..]) == SkipSpace(post)
  {
    assert (COMMA + post)[1..][1..] == post;
    assert (COLON + post)[1..][1..] == post;
  }

  /** A printed value starts with a character that is neither space nor a closing bracket. */
  lemma ValueStart(v: Json, post: Text)
    requires Writable(v)
    ensures var s := Print(v) + post;
            s != [] && !IsSpace(s[0]) && s[0] != UNBRACKET && s[0] != CLOSE
  {
    var s := Print(v) + post;
    match v
    case Num(n) => NumberStart(n, post);
    case Str(text) => assert s[0] == Print(v)[0];
    case Arr(items) => assert s[0] == Print(v)[0] == [BRACKET][0];
    case Obj(members) => assert s[0] == Print(v)[0] == [OPEN][0];
    case _ => assert s[0] == Print(v)[0];
  }

  /** Decoding inverts printing, whatever follows. */
  lemma {:induction false} ValueRead(v: Json, post: Text)
    requires Writable(v) && Stops(post)
    ensures DecodeValue(Print(v) + post) == Some((Folded(v), post))
    decreases v, 0
  {
    match v
    case Num(n) => NumberValueRead(n, post);
    case Str(text) => StringRead(text, post);
    case Arr(items) => ArrayRead(items, post);
    case Obj(members) => ObjectRead(members, post);
    case _ => LiteralRead(v, post);
  }

  lemma {:induction false} ArrayRead(items: Items, post: Text)
    requires WritableItems(items)
    ensures DecodeValue(Print(Arr(items)) + post) == Some((Arr(FoldedItems(items)), post))
    decreases items, 3
  {
    var close := [UNBRACKET] + post;
    Assoc([BRACKET], PrintItems(items) + [UNBRACKET], post);
    Assoc(PrintItems(items), [UNBRACKET], post);
    Cons(BRACKET, PrintItems(items) + close);
    Cons(UNBRACKET, post);
    if items.NoItems? {
      Nothing(close);
    } else {
      ItemsRead(items, post);
      ItemsStart(items, close);
    }
  }

  lemma ItemsStart(items: Items, close: Text)
    requires items.Item? && WritableItems(items)
    ensures var s := PrintItems(items) + close;
            s != [] && s[0] != UNBRACKET && SkipSpace(s) == s
  {
    var tail := if items.tail.NoItems? then [] else COMMA + PrintItems(items.tail);
    ValueStart(items.head, tail + close);
    assert PrintItems(items) + close == Print(items.head) + (tail + close);
  }

  lemma {:induction false} ItemsRead(items: Items, post: Text)
    requires items.Item? && WritableItems(items)
    ensures DecodeItems(PrintItems(items) + ([UNBRACKET] + post)) == Some((FoldedItems(items), post))
    decreases items, 2
  {
    var close := [UNBRACKET] + post;
    Cons(UNBRACKET, post);
    if items.tail.NoItems? {
      ValueRead(items.head, close);
      Nothing(Print(items.head));
    } else {
      var rest := PrintItems(items.tail) + close;
      ValueRead(items.head, COMMA + rest);
      Assoc(Print(items.head), COMMA + PrintItems(items.tail), close);
      Assoc(COMMA, PrintItems(items.tail), close);
      Spaced(rest);
      ItemsStart(items.tail, close);
      ItemsRead(items.tail, post);
    }
  }

  lemma {:induction false} ObjectRead(members: Members, post: Text)
    requires WritableMembers(members)
    ensures DecodeValue(Print(Obj(members)) + post) == Some((Obj(FoldedMembers(members)), post))
    decreases members, 3
  {
    var close := [CLOSE] + post;
    ObjectText(members, post);
    if members.NoMembers? {
      Nothing(close);
      EmptyObject(post);
    } else {
      MembersRead(members, post);
      MembersStart(members, close);
      ObjectOpens(PrintMembers(members) + close, FoldedMembers(members), post);
    }
  }

  lemma ObjectText(members: Members, post: Text)
    ensures Print(Obj(members)) + post == [OPEN] + (PrintMembers(members) + ([CLOSE] + post))
  {
    Assoc([OPEN], PrintMembers(members) + [CLOSE], post);
    Assoc(PrintMembers(members), [CLOSE], post);
  }

  lemma EmptyObject(post: Text)
    ensures DecodeValue([OPEN] + ([CLOSE] + post)) == Some((Obj(NoMembers), post))
  {
    Cons(OPEN, [CLOSE] + post);
    Cons(CLOSE, post);
  }

  lemma ObjectOpens(body: Text, members: Members, post: Text)
    requires body != [] && body[0] == QUOTE && SkipSpace(body) == body && DecodeMembers(body) == Some((members, post))
    ensures DecodeValue([OPEN] + body) == Some((Obj(members), post))
  {
    Cons(OPEN, body);
  }

  lemma MembersStart(members: Members, close: Text)
    requires members.Member?
    ensures var s := PrintMembers(members) + close;
            s != [] && s[0] == QUOTE && SkipSpace(s) == s
  {
    assert PrintMembers(members)[0] == PrintString(members.key)[0];
  }

  lemma {:induction false} MembersRead(members: Members, post: Text)
    requires members.Member? && WritableMembers(members)
    ensures DecodeMembers(PrintMembers(members) + ([CLOSE] + post)) == Some((FoldedMembers(members), post))
    decreases members, 2
  {
    var close := [CLOSE] + post;
    var rest := PrintMembers(members.tail) + close;
    var after := if members.tail.NoMembers? then close else COMMA + rest;
    MemberText(members, close, after);
    ValueStart(members.value, after);
    ValueRead(members.value, after);
    MemberRead(members.key, Folded(members.value), Print(members.value) + after, after);
    assert close[1..] == post;
    if !members.tail.NoMembers? {
      Spaced(rest);
      MembersStart(members.tail, close);
      MembersRead(members.tail, post);
    }
  }

  lemma MemberRead(key: Text, v: Json, value: Text, after: Text)
    requires DecodeValue(value) == Some((v, after)) && SkipSpace(value) == value
    requires after != [] && !IsSpace(after[0])
    ensures var r := DecodeMembers(PrintString(key) + (COLON + value));
            && (after[0] == CLOSE ==> r == Some((Member(Fold(Units(key)), v, NoMembers), after[1..])))
            && (after[0] == ',' as int ==>
                  var rest := DecodeMembers(SkipSpace(after[1..]));
                  r == if rest.None? then None else Some((Member(Fold(Units(key)), v, rest.value.0), rest.value.1)))
  {
    StringRead(key, COLON + value);
    Spaced(value);
  }

  lemma MemberText(members: Members, close: Text, after: Text)
    requires members.Member?
    requires after == if members.tail.NoMembers? then close else COMMA + (PrintMembers(members.tail) + close)
    ensures PrintMembers(members) + close == PrintString(members.key) + (COLON + (Print(members.value) + after))
  {
    var tail := if members.tail.NoMembers? then [] else COMMA + PrintMembers(members.tail);
    assert tail + close == after;
    Regrouped(PrintString(members.key), COLON, Print(members.value), tail, close);
  }

  // ------------------------------------------------------------------ documents

  /** No string of the value pairs a high surrogate with a low one; true of all scalar text. */
  ghost predicate PairFreeIn(v: Json) {
    match v
    case Str(text) => PairFree(text)
    case Arr(items) => PairFreeItems(items)
    case Obj(members) => PairFreeMembers(members)
    case _ => true
  }

  ghost predicate PairFreeItems(items: Items) {
    items.Item? ==> PairFreeIn(items.head) && PairFreeItems(items.tail)
  }

  ghost predicate PairFreeMembers(members: Members) {
    members.Member? ==> PairFree(members.key) && PairFreeIn(members.value) && PairFreeMembers(members.tail)
  }

  lemma {:induction false} FoldedExact(v: Json)
    ensures Folded(v) == v <==> PairFreeIn(v)
    decreases v
  {
    match v
    case Str(text) => FoldUnitsExact(text);
    case Arr(items) => FoldedItemsExact(items);
    case Obj(members) => FoldedMembersExact(members);
    case _ =>
  }

  lemma {:induction false} FoldedItemsExact(items: Items)
    ensures FoldedItems(items) == items <==> PairFreeItems(items)
    decreases items
  {
    if items.Item? {
      FoldedExact(items.head);
      FoldedItemsExact(items.tail);
    }
  }

  lemma {:induction false} FoldedMembersExact(members: Members)
    ensures FoldedMembers(members) == members <==> PairFreeMembers(members)
    decreases members
  {
    if members.Member? {
      FoldUnitsExact(members.key);
      FoldedExact(members.value);
      FoldedMembersExact(members.tail);
    }
  }

  /** Printing and reading back a value is the identity exactly when no string hides a surrogate pair. */
  lemma LoadsInvertsPrint(v: Json)
    requires Writable(v)
    ensures Loads(Print(v)) == Some(Folded(v))
    ensures Loads(Print(v)) == Some(v) <==> PairFreeIn(v)
  {
    ValueStart(v, []);
    ValueRead(v, []);
    assert Print(v) + [] == Print(v);
    FoldedExact(v);
  }
}
