/** Finding the first complete JSON object in a noisy reply by counting braces outside strings. */
module ObjectScanner {
  import opened Options
  import opened CodePoints
  import opened Json
  import opened Sequences

  function Plus(n: nat, more: Option<nat>): Option<nat> {
    if more.None? then None else Some(n + more.value)
  }

  /** Where the scanner is: braces open, inside a string literal, just after its backslash. */
  datatype Scan = Scan(depth: int, inString: bool, escaped: bool)

  predicate Ends(at: Scan, c: CodePoint) {
    !at.inString && c == CLOSE && at.depth == 1
  }

  function Step(at: Scan, c: CodePoint): Scan {
    if at.inString then
      if at.escaped then at.(escaped := false)
      else if c == BACKSLASH then at.(escaped := true)
      else at.(inString := c != QUOTE)
    else if c == QUOTE then at.(inString := true)
    else if c == OPEN then at.(depth := at.depth + 1)
    else if c == CLOSE then at.(depth := at.depth - 1)
    else at
  }

  /** How many characters it takes to close the braces open at `at`, if they close at all. */
  function Closes(s: Text, at: Scan): (r: Option<nat>)
    ensures r.Some? ==> 0 < r.value <= |s|
  {
    if s == [] then None
    else if Ends(at, s[0]) then Some(1)
    else Plus(1, Closes(s[1..], Step(at, s[0])))
  }

  /** Where the scanner is after all of `s`, if it has not stopped before. */
  function After(s: Text, at: Scan): Option<Scan> {
    if s == [] then Some(at)
    else if Ends(at, s[0]) then None
    else After(s[1..], Step(at, s[0]))
  }

  const OUTSIDE := Scan(0, false, false)

  /** What the character at `i` does to the count. */
  lemma ClosesNext(text: Text, i: nat, at: Scan)
    requires i < |text|
    ensures Closes(text[i..], at)
         == if Ends(at, text[i]) then Some(1) else Plus(1, Closes(text[i + 1..], Step(at, text[i])))
  {
    DropMore(text, i, 1);
  }

  function FirstOpen(text: Text): Option<nat> {
    if text == [] then None
    else if text[0] == OPEN then Some(0)
    else Plus(1, FirstOpen(text[1..]))
  }

  lemma {:induction false} FirstOpenIs(text: Text)
    ensures match FirstOpen(text)
            case None => OPEN !in text
            case Some(at) => at < |text| && text[at] == OPEN && OPEN !in text[..at]
  {
    if text != [] && text[0] != OPEN {
      FirstOpenIs(text[1..]);
      if FirstOpen(text).Some? {
        var at := FirstOpen(text).value;
        assert text[..at] == [text[0]] + text[1..][..at - 1];
      } else {
        assert text == [text[0]] + text[1..];
      }
    }
  }

  /** The text the scanner returns. */
  function Extract(text: Text): Option<Text> {
    FirstOpenIs(text);
    match FirstOpen(text)
    case None => None
    case Some(start) =>
      var rest := text[start..];
      match Closes(rest, OUTSIDE)
      case None => None
      case Some(n) => Some(rest[..n])
  }

  method ExtractJsonObject(text: Text) returns (found: Option<Text>)
    ensures found == Extract(text)
  {
    FirstOpenIs(text);
    var start := FirstOpen(text);
    if start.None? {
      return None;
    }
    var length := ScanObject(text, start.value);
    if length.None? {
      return None;
    }
    Cut(text, start.value, length.value);
    return Some(text[start.value..start.value + length.value]);
  }

  /** Count braces from `start` on, tracking string literals and escapes. */
  method ScanObject(text: Text, start: nat) returns (length: Option<nat>)
    requires start <= |text|
    ensures length == Closes(text[start..], OUTSIDE)
  {
    var depth, inString, escaped := 0, false, false;
    for i := start to |text|
      invariant escaped ==> inString
      invariant Closes(text[start..], OUTSIDE) == Plus(i - start, Closes(text[i..], Scan(depth, inString, escaped)))
    {
      var ch := text[i];
      ClosesNext(text, i, Scan(depth, inString, escaped));
      if inString {
        if escaped {
          escaped := false;
        } else if ch == BACKSLASH {
          escaped := true;
        } else if ch == QUOTE {
          inString := false;
        }
        continue;
      }
      if ch == QUOTE {
        inString := true;
      } else if ch == OPEN {
        depth := depth + 1;
      } else if ch == CLOSE {
        depth := depth - 1;
        if depth == 0 {
          return Some(i + 1 - start);
        }
      }
    }
    return None;
  }

  // ------------------------------------------------------------------ balanced text

  /** One character of a string literal, or a backslash with the character it protects. */
  datatype Chunk = One(c: CodePoint) | Protected(c: CodePoint)

  /** Text in which braces outside string literals are balanced. */
  datatype Doc =
    | End
    | Plain(c: CodePoint, rest: Doc)
    | Quoted(body: seq<Chunk>, rest: Doc)
    | Nested(inner: Doc, rest: Doc)

  ghost predicate Literal(body: seq<Chunk>) {
    forall i :: 0 <= i < |body| && body[i].One? ==> body[i].c != QUOTE && body[i].c != BACKSLASH
  }

  ghost predicate Balanced(d: Doc) {
    match d
    case End => true
    case Plain(c, rest) => c != QUOTE && c != OPEN && c != CLOSE && Balanced(rest)
    case Quoted(body, rest) => Literal(body) && Balanced(rest)
    case Nested(inner, rest) => Balanced(inner) && Balanced(rest)
  }

  function ShowChunk(c: Chunk): Text {
    match c
    case One(c) => [c]
    case Protected(c) => [BACKSLASH, c]
  }

  function ShowChunks(body: seq<Chunk>): Text {
    if body == [] then [] else ShowChunk(body[0]) + ShowChunks(body[1..])
  }

  function Show(d: Doc): Text
    decreases d, 0
  {
    match d
    case End => []
    case Plain(c, rest) => [c] + Show(rest)
    case Quoted(body, rest) => [QUOTE] + (ShowChunks(body) + ([QUOTE] + Show(rest)))
    case Nested(inner, rest) => Braced(inner) + Show(rest)
  }

  function Braced(d: Doc): Text
    decreases d, 1
  {
    [OPEN] + (Show(d) + [CLOSE])
  }

  // ------------------------------------------------------------------ the scanner finds what is balanced

  lemma {:induction false} AfterConcat(a: Text, b: Text, at: Scan)
    ensures After(a + b, at) == if After(a, at).None? then None else After(b, After(a, at).value)
  {
    if a == [] {
      assert a + b == b;
    } else {
      assert (a + b)[1..] == a[1..] + b;
      if !Ends(at, a[0]) {
        AfterConcat(a[1..], b, Step(at, a[0]));
      }
    }
  }

  lemma {:induction false} ClosesAfter(a: Text, b: Text, at: Scan)
    requires After(a, at).Some?
    ensures Closes(a + b, at) == Plus(|a|, Closes(b, After(a, at).value))
  {
    if a == [] {
      assert a + b == b;
    } else {
      assert (a + b)[1..] == a[1..] + b;
      ClosesAfter(a[1..], b, Step(at, a[0]));
    }
  }

  lemma {:induction false} ChunksPass(body: seq<Chunk>, depth: int)
    requires Literal(body)
    ensures After(ShowChunks(body), Scan(depth, true, false)) == Some(Scan(depth, true, false))
  {
    if body != [] {
      ChunksPass(body[1..], depth);
      var c := ShowChunk(body[0]);
      assert |c| == 2 ==> c[1..] == [body[0].c];
      AfterConcat(c, ShowChunks(body[1..]), Scan(depth, true, false));
    }
  }

  lemma QuotedPasses(body: seq<Chunk>, rest: Text, depth: int)
    requires Literal(body)
    ensures After([QUOTE] + (ShowChunks(body) + ([QUOTE] + rest)), Scan(depth, false, false))
            == After(rest, Scan(depth, false, false))
  {
    var inside := Scan(depth, true, false);
    ChunksPass(body, depth);
    AfterConcat([QUOTE], rest, inside);
    AfterConcat(ShowChunks(body), [QUOTE] + rest, inside);
    AfterConcat([QUOTE], ShowChunks(body) + ([QUOTE] + rest), Scan(depth, false, false));
  }

  lemma {:induction false} DocPasses(d: Doc, depth: int)
    requires Balanced(d) && depth >= 1
    ensures After(Show(d), Scan(depth, false, false)) == Some(Scan(depth, false, false))
    decreases d
  {
    match d
    case End =>
    case Plain(c, rest) => DocPasses(rest, depth);
    case Quoted(body, rest) =>
      DocPasses(rest, depth);
      QuotedPasses(body, Show(rest), depth);
    case Nested(inner, rest) =>
      DocPasses(rest, depth);
      DocPasses(inner, depth + 1);
      BracesPass(inner, depth);
      AfterConcat(Braced(inner), Show(rest), Scan(depth, false, false));
  }

  lemma BracesPass(d: Doc, depth: int)
    requires depth >= 1 && After(Show(d), Scan(depth + 1, false, false)) == Some(Scan(depth + 1, false, false))
    ensures After(Braced(d), Scan(depth, false, false)) == Some(Scan(depth, false, false))
  {
    AfterConcat(Show(d), [CLOSE], Scan(depth + 1, false, false));
    assert Braced(d)[1..] == Show(d) + [CLOSE];
  }

  lemma BracedCloses(d: Doc, tail: Text)
    requires Balanced(d)
    ensures Closes(Braced(d) + tail, OUTSIDE) == Some(|Braced(d)|)
  {
    DocPasses(d, 1);
    assert (Braced(d) + tail)[1..] == Show(d) + ([CLOSE] + tail);
    ClosesAfter(Show(d), [CLOSE] + tail, Scan(1, false, false));
  }

  // ------------------------------------------------------------------ and nothing else

  function ShowAll(docs: seq<Doc>): Text {
    if docs == [] then [] else Show(docs[0]) + ([CLOSE] + ShowAll(docs[1..]))
  }

  ghost predicate AllBalanced(docs: seq<Doc>) {
    forall i :: 0 <= i < |docs| ==> Balanced(docs[i])
  }

  /** The walk from outside a string over `docs`, each closed by a brace, takes `n` characters. */
  ghost predicate Walks(s: Text, n: nat, docs: seq<Doc>, depth: int) {
    n <= |s| && |docs| == depth && AllBalanced(docs) && ShowAll(docs) == s[..n]
  }

  /** What the scanner walks over splits into one balanced text for each brace it closes. */
  lemma {:induction false} WalkedOver(s: Text, depth: int) returns (docs: seq<Doc>)
    requires depth >= 1 && Closes(s, Scan(depth, false, false)).Some?
    ensures Walks(s, Closes(s, Scan(depth, false, false)).value, docs, depth)
    decreases |s|
  {
    Taken(s, Closes(s, Scan(depth, false, false)).value);
    if s[0] == CLOSE {
      var rest := [];
      if depth > 1 {
        rest := WalkedOver(s[1..], depth - 1);
      } else {
        assert s[1..][..0] == [];
      }
      docs := [End] + rest;
      ShowAllCons(End, rest);
      Nothing([CLOSE] + ShowAll(rest));
    } else if s[0] == QUOTE {
      var body, rest := WalkedString(s[1..], depth);
      docs := WalkedQuoted(body, rest);
    } else if s[0] == OPEN {
      var rest := WalkedOver(s[1..], depth + 1);
      docs := WalkedNested(rest);
    } else {
      var rest := WalkedOver(s[1..], depth);
      docs := [Plain(s[0], rest[0])] + rest[1..];
      ShowAllCons(Plain(s[0], rest[0]), rest[1..]);
      Assoc([s[0]], Show(rest[0]), [CLOSE] + ShowAll(rest[1..]));
    }
  }

  lemma ShowAllCons(d: Doc, rest: seq<Doc>)
    ensures ShowAll([d] + rest) == Show(d) + ([CLOSE] + ShowAll(rest))
  {
    Cons(d, rest);
  }

  lemma WalkedQuoted(body: seq<Chunk>, rest: seq<Doc>) returns (docs: seq<Doc>)
    requires rest != [] && AllBalanced(rest) && Literal(body)
    ensures |docs| == |rest| && AllBalanced(docs)
    ensures ShowAll(docs) == [QUOTE] + (ShowChunks(body) + ([QUOTE] + ShowAll(rest)))
  {
    docs := [Quoted(body, rest[0])] + rest[1..];
    ShowAllCons(Quoted(body, rest[0]), rest[1..]);
    Regroup(ShowChunks(body), Show(rest[0]), [CLOSE] + ShowAll(rest[1..]));
  }

  lemma WalkedNested(rest: seq<Doc>) returns (docs: seq<Doc>)
    requires |rest| >= 2 && AllBalanced(rest)
    ensures |docs| == |rest| - 1 && AllBalanced(docs) && ShowAll(docs) == [OPEN] + ShowAll(rest)
  {
    docs := [Nested(rest[0], rest[1])] + rest[2..];
    ShowAllCons(Nested(rest[0], rest[1]), rest[2..]);
    DropMore(rest, 1, 1);
    RegroupNested(Show(rest[0]), Show(rest[1]), [CLOSE] + ShowAll(rest[2..]));
  }

  lemma Regroup(body: Text, first: Text, more: Text)
    ensures [QUOTE] + (body + ([QUOTE] + (first + more))) == ([QUOTE] + (body + ([QUOTE] + first))) + more
  {
  }

  lemma RegroupNested(inner: Text, first: Text, more: Text)
    ensures [OPEN] + (inner + ([CLOSE] + (first + more))) == ([OPEN] + (inner + [CLOSE])) + first + more
  {
  }

  lemma {:induction false} WalkedString(s: Text, depth: int) returns (body: seq<Chunk>, docs: seq<Doc>)
    requires depth >= 1 && Closes(s, Scan(depth, true, false)).Some?
    ensures Literal(body) && |docs| == depth && AllBalanced(docs)
    ensures ShowChunks(body) + ([QUOTE] + ShowAll(docs)) == s[..Closes(s, Scan(depth, true, false)).value]
    decreases |s|
  {
    var n := Closes(s, Scan(depth, true, false)).value;
    Taken(s, n);
    if s[0] == QUOTE {
      docs := WalkedOver(s[1..], depth);
      body := [];
      Nothing([QUOTE] + ShowAll(docs));
    } else if s[0] == BACKSLASH {
      var rest;
      DropMore(s, 1, 1);
      rest, docs := WalkedString(s[2..], depth);
      Taken(s[1..], n - 1);
      body := [Protected(s[1])] + rest;
      ShowChunksCons(Protected(s[1]), rest);
      Assoc([BACKSLASH, s[1]], ShowChunks(rest), [QUOTE] + ShowAll(docs));
      Assoc([BACKSLASH], [s[1]], s[2..][..n - 2]);
    } else {
      var rest;
      rest, docs := WalkedString(s[1..], depth);
      body := [One(s[0])] + rest;
      ShowChunksCons(One(s[0]), rest);
      Assoc([s[0]], ShowChunks(rest), [QUOTE] + ShowAll(docs));
    }
  }

  lemma ShowChunksCons(c: Chunk, rest: seq<Chunk>)
    ensures ShowChunks([c] + rest) == ShowChunk(c) + ShowChunks(rest)
  {
    Cons(c, rest);
  }

  ghost predicate Splits(text: Text, prefix: Text, d: Doc, suffix: Text) {
    OPEN !in prefix && Balanced(d) && text == prefix + Braced(d) + suffix
  }

  /** Scanner correctness, both ways: an object is returned exactly when the text is something without
      an opening brace, that balanced object, and anything after it. */
  lemma ExtractExact(text: Text, found: Text)
    ensures Extract(text) == Some(found)
       <==> exists prefix, d, suffix :: Splits(text, prefix, d, suffix) && found == Braced(d)
  {
    if Extract(text) == Some(found) {
      FoundIsBalanced(text);
    }
    forall prefix, d, suffix | Splits(text, prefix, d, suffix) ensures Extract(text) == Some(Braced(d)) {
      BalancedIsFound(prefix, d, suffix);
    }
  }

  lemma BalancedIsFound(prefix: Text, d: Doc, suffix: Text)
    requires OPEN !in prefix && Balanced(d)
    ensures Extract(prefix + Braced(d) + suffix) == Some(Braced(d))
  {
    var text := prefix + Braced(d) + suffix;
    FirstOpenIs(text);
    assert text[|prefix|] == OPEN && text[..|prefix|] == prefix;
    FirstAt(text, |prefix|);
    assert text[|prefix|..] == Braced(d) + suffix;
    BracedCloses(d, suffix);
  }

  lemma {:induction false} FirstAt(text: Text, n: nat)
    requires n < |text| && text[n] == OPEN && OPEN !in text[..n]
    ensures FirstOpen(text) == Some(n)
  {
    if n > 0 {
      assert text[..n] == [text[0]] + text[1..][..n - 1];
      FirstAt(text[1..], n - 1);
    }
  }

  lemma FoundIsBalanced(text: Text)
    requires Extract(text).Some?
    ensures exists prefix, d, suffix :: Splits(text, prefix, d, suffix) && Extract(text).value == Braced(d)
  {
    FirstOpenIs(text);
    var start := FirstOpen(text).value;
    var rest := text[start..];
    var docs := WalkedOver(rest[1..], 1);
    var n := Closes(rest, OUTSIDE).value;
    assert docs == [docs[0]] + [];
    ShowAllCons(docs[0], []);
    Nothing([CLOSE]);
    Taken(rest, n);
    Cut(text, start, n);
    assert Splits(text, text[..start], docs[0], rest[n..]);
  }

  /** A reply cut off inside its object has no complete object. */
  lemma TruncatedIsNotFound(d: Doc, m: nat)
    requires Balanced(d) && m < |Braced(d)|
    ensures Extract(Braced(d)[..m]) == None
  {
    var whole := Braced(d);
    BracedCloses(d, []);
    assert whole + [] == whole;
    FirstOpenIs(whole[..m]);
    if m > 0 {
      FirstAt(whole[..m], 0);
      assert whole[..m][0..] == whole[..m];
      if Closes(whole[..m], OUTSIDE).Some? {
        ClosesLonger(whole, m, OUTSIDE);
      }
    }
  }

  /** More text does not change where the braces close. */
  lemma {:induction false} ClosesLonger(s: Text, m: nat, at: Scan)
    requires m <= |s| && Closes(s[..m], at).Some?
    ensures Closes(s, at) == Closes(s[..m], at)
    decreases m
  {
    assert m > 0;
    assert s[..m][1..] == s[1..][..m - 1];
    if !Ends(at, s[0]) {
      ClosesLonger(s[1..], m - 1, Step(at, s[0]));
    }
  }

  // ------------------------------------------------------------------ printed values are balanced

  function Join(a: Doc, b: Doc): Doc {
    match a
    case End => b
    case Plain(c, rest) => Plain(c, Join(rest, b))
    case Quoted(body, rest) => Quoted(body, Join(rest, b))
    case Nested(inner, rest) => Nested(inner, Join(rest, b))
  }

  lemma {:induction false} JoinShows(a: Doc, b: Doc)
    requires Balanced(a) && Balanced(b)
    ensures Balanced(Join(a, b)) && Show(Join(a, b)) == Show(a) + Show(b)
  {
    match a
    case End => Nothing(Show(b));
    case Plain(c, rest) =>
      JoinShows(rest, b);
      Assoc([c], Show(rest), Show(b));
    case Quoted(body, rest) =>
      JoinShows(rest, b);
      Assoc([QUOTE], Show(rest), Show(b));
      Assoc(ShowChunks(body), [QUOTE] + Show(rest), Show(b));
      Assoc([QUOTE], ShowChunks(body) + ([QUOTE] + Show(rest)), Show(b));
    case Nested(inner, rest) =>
      JoinShows(rest, b);
      Assoc(Braced(inner), Show(rest), Show(b));
  }

  ghost predicate IsDoc(text: Text) {
    exists d :: Balanced(d) && Show(d) == text
  }

  lemma DocsJoin(a: Text, b: Text)
    requires IsDoc(a) && IsDoc(b)
    ensures IsDoc(a + b)
  {
    var d :| Balanced(d) && Show(d) == a;
    var e :| Balanced(e) && Show(e) == b;
    JoinShows(d, e);
  }

  lemma {:induction false} PlainIsDoc(text: Text)
    requires forall i :: 0 <= i < |text| ==> text[i] != QUOTE && text[i] != OPEN && text[i] != CLOSE
    ensures IsDoc(text)
  {
    if text == [] {
      assert Show(End) == text;
    } else {
      PlainIsDoc(text[1..]);
      var d :| Balanced(d) && Show(d) == text[1..];
      assert Show(Plain(text[0], d)) == text;
    }
  }

  ghost predicate IsLiteral(text: Text) {
    exists body :: Literal(body) && ShowChunks(body) == text
  }

  lemma {:induction false} ChunksJoin(a: seq<Chunk>, b: seq<Chunk>)
    ensures ShowChunks(a + b) == ShowChunks(a) + ShowChunks(b)
  {
    if a == [] {
      assert a + b == b;
    } else {
      ChunksJoin(a[1..], b);
      assert (a + b)[1..] == a[1..] + b && (a + b)[0] == a[0];
      var first, more, tail := ShowChunk(a[0]), ShowChunks(a[1..]), ShowChunks(b);
      assert first + (more + tail) == (first + more) + tail;
    }
  }

  lemma LiteralsJoin(a: Text, b: Text)
    requires IsLiteral(a) && IsLiteral(b)
    ensures IsLiteral(a + b)
  {
    var c :| Literal(c) && ShowChunks(c) == a;
    var d :| Literal(d) && ShowChunks(d) == b;
    ChunksJoin(c, d);
    assert Literal(c + d);
  }

  lemma LiteralOf(body: seq<Chunk>, text: Text)
    requires Literal(body) && ShowChunks(body) == text
    ensures IsLiteral(text)
  {
  }

  lemma UnitIsLiteral(u: CodeUnit)
    ensures IsLiteral(EscapeUnit(u))
  {
    if ShortEscape(u).Some? {
      var body := [Protected(ShortEscape(u).value)];
      assert body[1..] == [] && ShowChunks(body) == ShowChunk(body[0]) + [];
      LiteralOf(body, EscapeUnit(u));
    } else if 32 <= u <= 126 {
      var body := [One(u)];
      assert body[1..] == [] && ShowChunks(body) == ShowChunk(body[0]) + [];
      LiteralOf(body, EscapeUnit(u));
    } else {
      HexIsLiteral(u);
    }
  }

  lemma HexIsLiteral(u: CodeUnit)
    ensures IsLiteral(HexEscape(u))
  {
    var h := HexEscape(u);
    var protected := [Protected('u' as int)];
    assert protected[1..] == [] && ShowChunks(protected) == ShowChunk(protected[0]) + [];
    LiteralOf(protected, h[..2]);
    HexDigitsAreLiteral(h[2..]);
    LiteralsJoin(h[..2], h[2..]);
    assert h[..2] + h[2..] == h;
  }

  function Ones(text: Text): seq<Chunk> {
    if text == [] then [] else [One(text[0])] + Ones(text[1..])
  }

  lemma {:induction false} HexDigitsAreLiteral(text: Text)
    requires forall i :: 0 <= i < |text| ==> text[i] != QUOTE && text[i] != BACKSLASH
    ensures Literal(Ones(text)) && ShowChunks(Ones(text)) == text && IsLiteral(text)
  {
    if text != [] {
      HexDigitsAreLiteral(text[1..]);
      assert Ones(text)[1..] == Ones(text[1..]);
    }
  }

  lemma {:induction false} EscapedIsLiteral(units: seq<CodeUnit>)
    ensures IsLiteral(EscapeUnits(units))
  {
    if units == [] {
      LiteralOf([], []);
    } else {
      UnitIsLiteral(units[0]);
      EscapedIsLiteral(units[1..]);
      LiteralsJoin(EscapeUnit(units[0]), EscapeUnits(units[1..]));
    }
  }

  lemma StringIsDoc(text: Text)
    ensures IsDoc(PrintString(text))
  {
    EscapedIsLiteral(Units(text));
    var body :| Literal(body) && ShowChunks(body) == EscapeUnits(Units(text));
    var d := Quoted(body, End);
    assert Show(d) == [QUOTE] + (ShowChunks(body) + ([QUOTE] + []));
    assert Show(d) == PrintString(text);
    assert Balanced(d);
  }

  predicate Bland(text: Text) {
    forall i :: 0 <= i < |text| ==> text[i] != QUOTE && text[i] != OPEN && text[i] != CLOSE
  }

  lemma {:induction false} DigitsAreBland(digits: seq<Digit>)
    ensures Bland(PrintDigits(digits))
  {
    if digits != [] {
      DigitsAreBland(digits[1..]);
    }
  }

  lemma ExponentIsBland(e: Exponent)
    ensures Bland(PrintExponent(e))
  {
    DigitsAreBland(e.digits);
  }

  lemma NumberIsBland(n: Number)
    ensures Bland(PrintNumber(n))
  {
    DigitsAreBland(n.whole);
    if n.frac.Some? { DigitsAreBland(n.frac.value); }
    if n.exp.Some? { ExponentIsBland(n.exp.value); }
  }

  lemma {:induction false} PrintIsDoc(v: Json)
    ensures IsDoc(Print(v))
    decreases v, 0
  {
    match v
    case Num(n) => NumberIsBland(n); PlainIsDoc(Print(v));
    case Str(text) => StringIsDoc(text);
    case Arr(items) =>
      ItemsAreDoc(items);
      PlainIsDoc([BRACKET]);
      PlainIsDoc([UNBRACKET]);
      DocsJoin([BRACKET], PrintItems(items));
      DocsJoin([BRACKET] + PrintItems(items), [UNBRACKET]);
    case Obj(members) =>
      ObjectIsBraced(members);
      var d :| Balanced(d) && Print(v) == Braced(d);
      assert Show(Nested(d, End)) == Braced(d);
      assert Balanced(Nested(d, End));
    case _ => PlainIsDoc(Print(v));
  }

  lemma {:induction false} ItemsAreDoc(items: Items)
    ensures IsDoc(PrintItems(items))
    decreases items, 0
  {
    if items.NoItems? {
      PlainIsDoc([]);
    } else {
      PrintIsDoc(items.head);
      if items.tail.NoItems? {
        assert PrintItems(items) == Print(items.head);
      } else {
        ItemsAreDoc(items.tail);
        PlainIsDoc(COMMA);
        DocsJoin(COMMA, PrintItems(items.tail));
        DocsJoin(Print(items.head), COMMA + PrintItems(items.tail));
      }
    }
  }

  lemma {:induction false} MembersAreDoc(members: Members)
    ensures IsDoc(PrintMembers(members))
    decreases members, 0
  {
    if members.NoMembers? {
      PlainIsDoc([]);
    } else {
      var tail := if members.tail.NoMembers? then [] else COMMA + PrintMembers(members.tail);
      if members.tail.NoMembers? {
        PlainIsDoc([]);
      } else {
        MembersAreDoc(members.tail);
        PlainIsDoc(COMMA);
        DocsJoin(COMMA, PrintMembers(members.tail));
      }
      PrintIsDoc(members.value);
      DocsJoin(Print(members.value), tail);
      PlainIsDoc(COLON);
      DocsJoin(COLON, Print(members.value) + tail);
      StringIsDoc(members.key);
      DocsJoin(PrintString(members.key), COLON + (Print(members.value) + tail));
    }
  }

  lemma {:induction false} ObjectIsBraced(members: Members)
    ensures exists d :: Balanced(d) && Print(Obj(members)) == Braced(d)
    decreases members, 1
  {
    MembersAreDoc(members);
    var d :| Balanced(d) && Show(d) == PrintMembers(members);
    assert Print(Obj(members)) == Braced(d);
  }

  /** Any printed object, of whatever nesting and string contents, is found between any text without
      an opening brace and any text at all. */
  lemma PrintedIsFound(prefix: Text, members: Members, suffix: Text)
    requires OPEN !in prefix
    ensures Extract(prefix + Print(Obj(members)) + suffix) == Some(Print(Obj(members)))
  {
    ObjectIsBraced(members);
    var d :| Balanced(d) && Print(Obj(members)) == Braced(d);
    BalancedIsFound(prefix, d, suffix);
  }

  lemma TruncatedPrintIsNotFound(members: Members, m: nat)
    requires m < |Print(Obj(members))|
    ensures Extract(Print(Obj(members))[..m]) == None
  {
    ObjectIsBraced(members);
    var d :| Balanced(d) && Print(Obj(members)) == Braced(d);
    TruncatedIsNotFound(d, m);
  }
}
