/** The grounder's cache: one markdown file that has to behave as a map from queries to results. What is
    written to it is read back with translated line ends. */
module Knowledge {
  import opened Options
  import opened CodePoints
  import opened Parsing
  import opened PlainReplies
  import opened Sequences
  import opened TextFiles
  import opened TextSearch
  import opened MarkedText

  const HASH: CodePoint := 35

  /** What starts every cached entry. */
  const MARKER := Ascii("### query: ")

  function Header(query: Text): Text {
    LineOf(MARKER, query)
  }

  datatype Entry = Entry(query: Text, result: Text)

  /** What follows the header of an entry. */
  function Body(result: Text): Text {
    result + [NEWLINE, NEWLINE]
  }

  function EntryText(e: Entry): Text {
    Header(e.query) + Body(e.result)
  }

  /** The lines of an entry, character by character: `### query: ` and the query, the result, an empty line. */
  function Cell(query: Text, result: Text): Text {
    [35, 35, 35, 32, 113, 117, 101, 114, 121, 58, 32] + query + [10] + result + [10, 10]
  }

  lemma EntryLiterally(e: Entry)
    ensures EntryText(e) == Cell(e.query, e.result)
  {
    assert MARKER == [35, 35, 35, 32, 113, 117, 101, 114, 121, 58, 32] && NEWLINE == 10;
    Assoc(MARKER + e.query + [NEWLINE], e.result, [NEWLINE, NEWLINE]);
    Assoc(MARKER, e.query, [NEWLINE]);
  }

  /** The file that these entries were appended to, one after the other. */
  function Render(entries: seq<Entry>): Text {
    if entries == [] then [] else Render(entries[..|entries| - 1]) + EntryText(entries[|entries| - 1])
  }

  /** The map the file stands for: the first write of a query stays. */
  function FirstResult(entries: seq<Entry>, query: Text): Option<Text> {
    if entries == [] then None
    else
      var last := entries[|entries| - 1];
      var earlier := FirstResult(entries[..|entries| - 1], query);
      if earlier.Some? then earlier else if last.query == query then Some(last.result) else None
  }

  /** What a lookup finds in the text it has read. */
  function Cached(content: Text, query: Text): Option<Text> {
    Behind(MARKER, content, Header(query))
  }

  lemma MarkerIsSolid(m: Text)
    requires m == MARKER
    ensures Solid(m) && |m| == 11
  {
    assert m[0] == HASH && m[1] == HASH && m[2] == HASH && m[3] != HASH;
    assert forall i :: 0 <= i < 11 ==> m[i] != NEWLINE;
    forall k | 0 < k < 11 ensures Clashes(m, k) {
      var i := if k < 3 then 3 - k else 0;
      assert m[k + i] != m[i];
    }
  }

  // ------------------------------------------------------------------ one entry

  /** Parts as the cache writes them. */
  predicate Stripped(e: Entry) {
    Strip(e.query) == e.query && Strip(e.result) == e.result
  }

  predicate NoReturns(e: Entry) {
    RETURN !in e.query && RETURN !in e.result
  }

  /** Nothing but its own header reads as one, and it is read as it was written: the query is one line, no
      part holds a carriage return, and none holds the marker. */
  ghost predicate Proper(e: Entry) {
    NEWLINE !in e.query && NoReturns(e) && FreeOf(e.query, MARKER) && FreeOf(e.result, MARKER)
  }

  /** Where a marker starts in an entry: at its beginning, in its query or in its result. */
  lemma MarkersOfEntry(m: Text, query: Text, result: Text, p: nat)
    requires Solid(m)
    ensures OccursAt(LineOf(m, query) + Body(result), m, p)
       <==> || p == 0
            || (|m| <= p && OccursAt(query, m, p - |m|))
            || (|LineOf(m, query)| <= p && OccursAt(result, m, p - |LineOf(m, query)|))
  {
    var head, body := m + query, Body(result);
    var text := LineOf(m, query) + body;
    assert text == head + ([NEWLINE] + body) && text == m + (query + ([NEWLINE] + body));
    if p < |m| {
      MarkerStarts(m, query + ([NEWLINE] + body), p);
    } else if p <= |head| {
      NoneAcross(m, query, body, p - |m|);
      OccursShifted(m, query + ([NEWLINE] + body), m, p - |m|);
    } else {
      MarkerInBody(m, result, p - |head| - 1);
      OccursShifted(LineOf(m, query), body, m, p - |head| - 1);
    }
  }

  lemma MarkerStarts(m: Text, more: Text, p: nat)
    requires Solid(m) && p < |m|
    ensures OccursAt(m + more, m, p) <==> p == 0
  {
    assert OccursAt(m + more, m, 0);
    if p > 0 {
      NoneOverlapping(m, m + more, 0, p);
    }
  }

  lemma MarkerInBody(m: Text, result: Text, p: nat)
    requires Solid(m)
    ensures OccursAt(Body(result), m, p) <==> OccursAt(result, m, p)
  {
    if p <= |result| {
      NoneAcross(m, result, [NEWLINE], p);
      assert Body(result) == result + ([NEWLINE] + [NEWLINE]);
    } else if p + |m| <= |Body(result)| {
      assert m[0] in m && Body(result)[p + 0] == NEWLINE;
    }
  }

  /** The result behind an entry's own header is the stored one exactly when no marker cuts it off. */
  lemma OwnResult(m: Text, result: Text)
    requires Solid(m) && Strip(result) == result
    ensures ResultIn(m, Body(result)) == result <==> FreeOf(result, m)
  {
    FindIsFirst(Body(result), m);
    forall p: nat ensures OccursAt(Body(result), m, p) <==> OccursAt(result, m, p) {
      MarkerInBody(m, result, p);
    }
    if Find(Body(result), m).Some? {
      var end := Find(Body(result), m).value;
      assert OccursAt(result, m, end);
      StripShrinks(Body(result)[..end]);
    } else {
      ResultStrips(result);
    }
  }

  /** In a text, an entry is found under its own query exactly when its result holds no marker. */
  lemma FoundBack(e: Entry)
    requires Strip(e.result) == e.result
    ensures Cached(EntryText(e), e.query) == Some(e.result) <==> FreeOf(e.result, MARKER)
  {
    MarkerIsSolid(MARKER);
    OwnHeader(Header(e.query), Body(e.result));
    OwnResult(MARKER, e.result);
  }

  lemma OwnHeader(h: Text, body: Text)
    ensures Find(h + body, h) == Some(0) && (h + body)[|h|..] == body
  {
    Drop(h, body);
    assert h <= h + body;
  }

  /** Stripping the blank lines gives a stripped result back. */
  lemma ResultStrips(result: Text)
    requires Strip(result) == result
    ensures Strip(Body(result)) == result
  {
    var tail: Text := [NEWLINE, NEWLINE];
    if result == [] {
      assert tail[1..][1..] == [] && Body(result) == tail;
      assert StripLeft(tail) == StripLeft(tail[1..]) == StripLeft(tail[1..][1..]);
    } else {
      StrippedEnds(result);
      Behead(result, tail);
      StripRightTail(result, tail);
    }
  }

  // ------------------------------------------------------------------ what an entry answers

  lemma EntryStarts(e: Entry)
    ensures MARKER <= EntryText(e) && EndsLines(EntryText(e)) && EntryText(e) != []
  {
    var m, rest := MARKER, e.query + [NEWLINE] + Body(e.result);
    assert EntryText(e) == m + rest;
    assert EntryText(e)[|EntryText(e)| - 1] == Body(e.result)[|Body(e.result)| - 1];
  }

  lemma LineFollows(m: Text, text: Text, p: nat)
    requires Solid(m) && EndsLines(text) && OccursAt(text, m, p)
    ensures NEWLINE in text[p + |m|..]
  {
    assert text[p + (|m| - 1)] == m[|m| - 1] && m[|m| - 1] in m;
    var line := text[p + |m|..];
    assert line[|line| - 1] == text[|text| - 1];
  }

  /** The line a marker of an entry opens. */
  function NameAt(e: Entry, p: nat): Text
    requires OccursAt(EntryText(e), MARKER, p)
  {
    RestOfLine(EntryText(e), p + |MARKER|)
  }

  /** An entry answers exactly the lines that its markers open. */
  lemma AnswersNames(e: Entry, q: Text, p: nat)
    requires NEWLINE !in q
    ensures OccursAt(EntryText(e), Header(q), p) <==> OccursAt(EntryText(e), MARKER, p) && NameAt(e, p) == q
  {
    HeaderIsLine(MARKER, q, EntryText(e), p);
    if OccursAt(EntryText(e), MARKER, p) {
      MarkerIsSolid(MARKER);
      EntryStarts(e);
      LineFollows(MARKER, EntryText(e), p);
    }
  }

  lemma RestNamed(m: Text, name: Text, rest: Text)
    requires NEWLINE !in name
    ensures RestOfLine(m + (name + ([NEWLINE] + rest)), |m|) == name
  {
    Drop(m, name + ([NEWLINE] + rest));
    LineNamed(name, rest);
  }

  lemma OwnName(e: Entry)
    requires NEWLINE !in e.query
    ensures OccursAt(EntryText(e), MARKER, 0) && NameAt(e, 0) == e.query
  {
    RestNamed(MARKER, e.query, Body(e.result));
    assert EntryText(e) == MARKER + (e.query + ([NEWLINE] + Body(e.result)));
    EntryStarts(e);
    Starts(EntryText(e), MARKER);
  }

  /** A marker in the query opens a shorter line. */
  lemma InnerName(e: Entry, p: nat)
    requires NEWLINE !in e.query && OccursAt(EntryText(e), MARKER, p)
    requires 0 < p && FreeOf(e.result, MARKER)
    ensures NameAt(e, p) != e.query
  {
    MarkerIsSolid(MARKER);
    MarkersOfEntry(MARKER, e.query, e.result, p);
    assert 11 <= p && OccursAt(e.query, MARKER, p - 11);
    var head, name := MARKER + e.query[..p], e.query[p..];
    RestNamed(head, name, Body(e.result));
    assert EntryText(e) == head + (name + ([NEWLINE] + Body(e.result)));
  }

  // ------------------------------------------------------------------ one more entry

  /** Every one-line query is answered as the map answers it. */
  ghost predicate IsMap(content: Text, entries: seq<Entry>) {
    forall q: Text :: NEWLINE !in q ==> Cached(content, q) == FirstResult(entries, q)
  }

  /** As it is read, an entry says in a file nothing but itself: no marker cuts its result off, and every
      other line that one of its markers opens is answered before it. */
  ghost predicate Contained(content: Text, e: Entry) {
    && (NEWLINE !in e.query ==> FreeOf(e.result, MARKER))
    && forall p: nat :: OccursAt(EntryText(e), MARKER, p) && (0 < p || NEWLINE in e.query) ==>
         Cached(content, NameAt(e, p)).Some?
  }

  /** An entry is safe if it is contained as it is read, and read as it was written if its query is one
      line. */
  ghost predicate Safe(content: Text, e: Entry) {
    (NEWLINE !in e.query ==> NoReturns(e)) && Contained(content, EntryRead(e))
  }

  function Own(e: Entry, q: Text): Option<Text> {
    if q == e.query then Some(e.result) else None
  }

  lemma NotCached(content: Text, q: Text)
    requires forall p: nat :: !OccursAt(content, Header(q), p)
    ensures Cached(content, q).None?
  {
    FindNowhere(content, Header(q));
  }

  /** What an entry that is contained in a file answers beyond the file. */
  lemma SaysItself(content: Text, e: Entry, q: Text)
    requires Contained(content, e) && Strip(e.result) == e.result
    requires NEWLINE !in q && Cached(content, q).None?
    ensures Cached(EntryText(e), q) == Own(e, q)
  {
    if q == e.query {
      FoundBack(e);
    } else {
      forall p: nat ensures !OccursAt(EntryText(e), Header(q), p) {
        AnswersNames(e, q, p);
        if p == 0 && NEWLINE !in e.query {
          OwnName(e);
        }
      }
      NotCached(EntryText(e), q);
    }
  }

  /** An entry that is not contained in a file answers a line that it should not, or its own line wrongly. */
  lemma SaysMore(content: Text, e: Entry) returns (q: Text)
    requires !Contained(content, e) && Strip(e.result) == e.result
    requires NEWLINE !in e.query ==> Cached(content, e.query).None?
    ensures NEWLINE !in q && Cached(content, q).None? && Cached(EntryText(e), q) != Own(e, q)
  {
    if NEWLINE !in e.query && !FreeOf(e.result, MARKER) {
      q := e.query;
      FoundBack(e);
    } else {
      var p: nat :| && OccursAt(EntryText(e), MARKER, p) && (0 < p || NEWLINE in e.query)
                    && Cached(content, NameAt(e, p)).None?;
      q := NameAt(e, p);
      RestIsOneLine(EntryText(e), p + |MARKER|);
      AnswersNames(e, q, p);
      FindIsFirst(EntryText(e), Header(q));
      if NEWLINE !in e.query {
        InnerName(e, p);
      }
    }
  }

  /** In a file of whole lines to which an entry is appended, a line is answered as before, or else by the
      entry. */
  lemma Appended(content: Text, e: Entry, q: Text)
    requires EndsLines(content) && NEWLINE !in q
    ensures Cached(content + EntryText(e), q)
         == if Cached(content, q).Some? then Cached(content, q) else Cached(EntryText(e), q)
  {
    MarkerIsSolid(MARKER);
    EntryStarts(e);
    ReadsOn(MARKER, content, EntryText(e), q);
  }

  lemma FirstAppends(entries: seq<Entry>, e: Entry, q: Text)
    ensures FirstResult(entries + [e], q)
         == if FirstResult(entries, q).Some? then FirstResult(entries, q) else Own(e, q)
  {
    Unlast(entries, [e]);
    Nothing(entries);
  }

  lemma ContainedKeepsMap(content: Text, entries: seq<Entry>, e: Entry)
    requires EndsLines(content) && Strip(e.result) == e.result
    requires IsMap(content, entries) && Contained(content, e)
    ensures IsMap(content + EntryText(e), entries + [e])
  {
    forall q: Text | NEWLINE !in q ensures Cached(content + EntryText(e), q) == FirstResult(entries + [e], q) {
      Appended(content, e, q);
      FirstAppends(entries, e, q);
      if Cached(content, q).None? {
        SaysItself(content, e, q);
      }
    }
  }

  lemma ContainedExactly(content: Text, entries: seq<Entry>, e: Entry)
    requires EndsLines(content) && Strip(e.result) == e.result && IsMap(content, entries)
    requires NEWLINE !in e.query ==> Cached(content, e.query).None?
    ensures IsMap(content + EntryText(e), entries + [e]) <==> Contained(content, e)
  {
    if Contained(content, e) {
      ContainedKeepsMap(content, entries, e);
    } else {
      var q := SaysMore(content, e);
      Appended(content, e, q);
      FirstAppends(entries, e, q);
      assert FirstResult(entries, q) == Cached(content, q);
    }
  }

  // ------------------------------------------------------------------ what is read of an entry

  /** An entry as it is read back. */
  function EntryRead(e: Entry): Entry {
    Entry(AsRead(e.query), AsRead(e.result))
  }

  lemma EntryReadPlain(e: Entry)
    ensures EntryRead(e) == e <==> NoReturns(e)
  {
    ReadUnchanged(e.query);
    ReadUnchanged(e.result);
  }

  lemma StrippedEntryRead(e: Entry)
    requires Stripped(e)
    ensures Stripped(EntryRead(e))
  {
    StrippedRead(e.query);
    StrippedRead(e.result);
  }

  lemma PartRead(a: Text, part: Text, b: Text)
    requires RETURN !in a && Strip(part) == part && Meets(a, part + b)
    ensures AsRead(a + (part + b)) == a + (AsRead(part) + AsRead(b))
  {
    ReadUnchanged(a);
    StrippedMeets(part, b);
    ReadInPieces(part, b);
    ReadInPieces(a, part + b);
  }

  /** An entry is read part by part. */
  lemma TextRead(e: Entry)
    requires Stripped(e)
    ensures AsRead(EntryText(e)) == EntryText(EntryRead(e))
  {
    var m, line: Text, body := MARKER, [NEWLINE], Body(e.result);
    assert m[|m| - 1] == 32;
    assert EntryText(e) == m + (e.query + (line + body));
    PartRead(m, e.query, line + body);
    BodyRead(line, e.result);
    assert EntryText(EntryRead(e)) == m + (AsRead(e.query) + (line + Body(AsRead(e.result))));
  }

  lemma BodyRead(line: Text, result: Text)
    requires line == [NEWLINE] && Strip(result) == result
    ensures AsRead(line + Body(result)) == line + Body(AsRead(result))
  {
    var tail: Text := [NEWLINE, NEWLINE];
    ReadUnchanged(tail);
    PartRead(line, result, tail);
  }

  /** One more entry is read behind what was read before. */
  lemma FileRead(file: Text, e: Entry)
    requires EndsLines(file) && Stripped(e)
    ensures AsRead(file + EntryText(e)) == AsRead(file) + EntryText(EntryRead(e))
    ensures EndsLines(AsRead(file))
  {
    TextRead(e);
    ReadInPieces(file, EntryText(e));
    LinesRead(file);
  }

  lemma LinesRead(file: Text)
    requires EndsLines(file)
    ensures EndsLines(AsRead(file))
  {
    if file != [] {
      var most, last: Text := file[..|file| - 1], [NEWLINE];
      assert file == most + last;
      if most != [] && most[|most| - 1] == RETURN {
        LastReturnRead(most[..|most| - 1]);
        assert file == most[..|most| - 1] + [RETURN, NEWLINE];
      } else {
        ReadUnchanged(last);
        ReadInPieces(most, last);
      }
    }
  }

  lemma LastReturnRead(a: Text)
    ensures AsRead(a + [RETURN, NEWLINE]) == AsRead(a) + [NEWLINE]
  {
    var ends: Text := [RETURN, NEWLINE];
    ReadInPieces(a, ends);
    assert ends[2..] == [] && AsRead(ends) == [NEWLINE] + AsRead([]);
  }

  // ------------------------------------------------------------------ carriage returns

  /** A query with a carriage return is answered by no file. */
  lemma ReturnNeverHit(file: Text, q: Text)
    requires RETURN in q
    ensures Cached(AsRead(file), q).None?
  {
    NoReturnRead(file);
    forall p: nat ensures !OccursAt(AsRead(file), Header(q), p) {
      OccursWhole(AsRead(file), Header(q), p, RETURN);
    }
    NotCached(AsRead(file), q);
  }

  lemma {:induction false} StripLeftMembers(t: Text, c: CodePoint)
    requires c !in t
    ensures c !in StripLeft(t)
  {
    if t != [] && IsWide(t[0]) {
      StripLeftMembers(t[1..], c);
    }
  }

  lemma {:induction false} StripRightMembers(t: Text, c: CodePoint)
    requires c !in t
    ensures c !in StripRight(t)
  {
    if t != [] && IsWide(t[|t| - 1]) {
      StripRightMembers(t[..|t| - 1], c);
    }
  }

  lemma StripMembers(t: Text, c: CodePoint)
    requires c !in t
    ensures c !in Strip(t)
  {
    StripLeftMembers(t, c);
    StripRightMembers(StripLeft(t), c);
  }

  /** No answer holds a carriage return. */
  lemma NoReturnAnswered(content: Text, q: Text)
    requires RETURN !in content && Cached(content, q).Some?
    ensures RETURN !in Cached(content, q).value
  {
    var body := content[Find(content, Header(q)).value + |Header(q)|..];
    StripMembers(body, RETURN);
    if Find(body, MARKER).Some? {
      StripMembers(body[..Find(body, MARKER).value], RETURN);
    }
  }

  /** An entry of one line that is not read as it was written is not what its own query finds. */
  lemma ReturnMisleads(file: Text, entries: seq<Entry>, e: Entry)
    requires EndsLines(file) && Stripped(e) && NEWLINE !in e.query && !NoReturns(e)
    requires Cached(AsRead(file), e.query).None? && FirstResult(entries, e.query).None?
    ensures Cached(AsRead(file + EntryText(e)), e.query) != FirstResult(entries + [e], e.query)
  {
    FirstAppends(entries, e, e.query);
    if RETURN in e.query {
      ReturnNeverHit(file + EntryText(e), e.query);
    } else if Cached(AsRead(file + EntryText(e)), e.query).Some? {
      NoReturnRead(file + EntryText(e));
      NoReturnAnswered(AsRead(file + EntryText(e)), e.query);
    }
  }

  /** The part of a query before its first carriage return answers for it. */
  lemma PartAnswers(e: Entry, i: nat)
    requires Stripped(e) && i < |e.query| && e.query[i] == RETURN && RETURN !in e.query[..i]
    ensures Cached(AsRead(EntryText(e)), e.query[..i]).Some? && Cached(AsRead(EntryText(e)), e.query).None?
  {
    ReturnNeverHit(EntryText(e), e.query);
    TextRead(e);
    var more := PartRuns(e.query, i);
    HeaderOfPart(MARKER, e.query[..i], more, Body(AsRead(e.result)));
    OwnHeader(Header(e.query[..i]), more + ([NEWLINE] + Body(AsRead(e.result))));
  }

  lemma PartRuns(query: Text, i: nat) returns (more: Text)
    requires i < |query| && query[i] == RETURN && RETURN !in query[..i]
    ensures AsRead(query) == query[..i] + ([NEWLINE] + more)
  {
    assert query == query[..i] + query[i..];
    ReadUnchanged(query[..i]);
    ReadInPieces(query[..i], query[i..]);
    more := AsRead(query[i..])[1..];
    assert AsRead(query[i..]) == [NEWLINE] + more;
  }

  lemma HeaderOfPart(m: Text, part: Text, more: Text, body: Text)
    ensures LineOf(m, part + ([NEWLINE] + more)) + body == LineOf(m, part) + (more + ([NEWLINE] + body))
  {
    Assoc(part, [NEWLINE], more);
    Assoc(part + [NEWLINE], more, [NEWLINE]);
    Assoc(m, part + [NEWLINE], more + [NEWLINE]);
    Assoc(LineOf(m, part), more + [NEWLINE], body);
    Assoc(more, [NEWLINE], body);
  }

  // ------------------------------------------------------------------ the file as a map

  lemma SeveralLines(entries: seq<Entry>, e: Entry, e': Entry)
    requires NEWLINE in e.query && NEWLINE in e'.query
    ensures forall content :: IsMap(content, entries + [e]) <==> IsMap(content, entries + [e'])
  {
    forall q: Text | NEWLINE !in q ensures FirstResult(entries + [e], q) == FirstResult(entries + [e'], q) {
      FirstAppends(entries, e, q);
      FirstAppends(entries, e', q);
    }
  }

  /** A file that is a map stays one with one more entry exactly when the entry is safe in it. */
  lemma AppendKeepsMap(file: Text, entries: seq<Entry>, e: Entry)
    requires EndsLines(file) && Stripped(e)
    requires IsMap(AsRead(file), entries) && Cached(AsRead(file), e.query).None?
    ensures IsMap(AsRead(file + EntryText(e)), entries + [e]) <==> Safe(AsRead(file), e)
  {
    FileRead(file, e);
    StrippedEntryRead(e);
    if NEWLINE in e.query {
      LineFeedRead(e.query);
      SeveralLines(entries, e, EntryRead(e));
      ContainedExactly(AsRead(file), entries, EntryRead(e));
    } else if NoReturns(e) {
      EntryReadPlain(e);
      ContainedExactly(AsRead(file), entries, e);
    } else {
      ReturnMisleads(file, entries, e);
    }
  }

  // ------------------------------------------------------------------ whole files

  /** What `append_grounded` writes: both parts are stripped, and a query that has a header already adds
      nothing. */
  ghost predicate Written(entries: seq<Entry>) {
    entries == [] ||
    var earlier, last := entries[..|entries| - 1], entries[|entries| - 1];
    Written(earlier) && Stripped(last) && Cached(AsRead(Render(earlier)), last.query).None?
  }

  /** Every entry was safe in the file it was appended to. */
  ghost predicate AllSafe(entries: seq<Entry>) {
    entries == [] ||
    var earlier, last := entries[..|entries| - 1], entries[|entries| - 1];
    AllSafe(earlier) && Safe(AsRead(Render(earlier)), last)
  }

  lemma {:induction false} RenderEndsLines(entries: seq<Entry>)
    ensures EndsLines(Render(entries))
  {
    if entries != [] {
      EntryStarts(entries[|entries| - 1]);
    }
  }

  /** One more entry in a file as it is read. */
  lemma AppendedRead(file: Text, e: Entry, q: Text)
    requires EndsLines(file) && Stripped(e) && NEWLINE !in q
    ensures Cached(AsRead(file + EntryText(e)), q)
         == if Cached(AsRead(file), q).Some? then Cached(AsRead(file), q) else Cached(EntryText(EntryRead(e)), q)
  {
    FileRead(file, e);
    Appended(AsRead(file), EntryRead(e), q);
  }

  /** What was stored under one line without carriage returns is always found. */
  lemma {:induction false} StoredIsFound(entries: seq<Entry>, q: Text)
    requires Written(entries) && NEWLINE !in q && RETURN !in q && FirstResult(entries, q).Some?
    ensures Cached(AsRead(Render(entries)), q).Some?
  {
    var earlier, last := entries[..|entries| - 1], entries[|entries| - 1];
    RenderEndsLines(earlier);
    AppendedRead(Render(earlier), last, q);
    if FirstResult(earlier, q).Some? {
      StoredIsFound(earlier, q);
    } else {
      ReadUnchanged(q);
      OwnHeader(Header(q), Body(AsRead(last.result)));
    }
  }

  /** A file that is no map does not become one. */
  lemma BrokenStays(entries: seq<Entry>, e: Entry)
    requires Written(entries) && Stripped(e) && Cached(AsRead(Render(entries)), e.query).None?
    requires !IsMap(AsRead(Render(entries)), entries)
    ensures !IsMap(AsRead(Render(entries) + EntryText(e)), entries + [e])
  {
    var q: Text :| NEWLINE !in q && Cached(AsRead(Render(entries)), q) != FirstResult(entries, q);
    FirstAppends(entries, e, q);
    if RETURN in q {
      ReturnNeverHit(Render(entries), q);
      ReturnNeverHit(Render(entries) + EntryText(e), q);
    } else {
      if FirstResult(entries, q).Some? {
        StoredIsFound(entries, q);
      }
      RenderEndsLines(entries);
      AppendedRead(Render(entries), e, q);
    }
    assert Cached(AsRead(Render(entries) + EntryText(e)), q) != FirstResult(entries + [e], q);
  }

  lemma NothingIsMap()
    ensures IsMap([], [])
  {
    forall q: Text | NEWLINE !in q ensures Cached([], q) == FirstResult([], q) {
      NotCached([], q);
    }
  }

  /** Grounding cache: a file the cache has written answers every one-line query with the first result
      stored for it exactly when every entry was safe in the file it was appended to. */
  lemma {:induction false} FileIsMap(entries: seq<Entry>)
    requires Written(entries)
    ensures IsMap(AsRead(Render(entries)), entries) <==> AllSafe(entries)
  {
    if entries == [] {
      NothingIsMap();
    } else {
      var earlier, last := entries[..|entries| - 1], entries[|entries| - 1];
      assert entries == earlier + [last];
      FileIsMap(earlier);
      if IsMap(AsRead(Render(earlier)), earlier) {
        RenderEndsLines(earlier);
        AppendKeepsMap(Render(earlier), earlier, last);
      } else {
        BrokenStays(earlier, last);
      }
    }
  }

  // ------------------------------------------------------------------ entries that are always safe

  lemma ProperIsSafe(content: Text, e: Entry)
    requires Proper(e)
    ensures Safe(content, e)
  {
    MarkerIsSolid(MARKER);
    EntryReadPlain(e);
    forall p: nat | OccursAt(EntryText(e), MARKER, p) ensures p == 0 {
      MarkersOfEntry(MARKER, e.query, e.result, p);
    }
  }

  /** In an empty file exactly the proper entries are safe. */
  lemma SafeAlone(e: Entry)
    ensures Safe([], e) <==> Proper(e)
  {
    if Proper(e) {
      ProperIsSafe([], e);
    } else if NEWLINE in e.query || NoReturns(e) {
      EntryReadPlain(e);
      LineFeedRead(e.query);
      ContainedAlone(EntryRead(e));
    }
  }

  lemma ContainedAlone(e: Entry)
    requires NEWLINE in e.query || !FreeOf(e.query, MARKER) || !FreeOf(e.result, MARKER)
    ensures !Contained([], e)
  {
    MarkerIsSolid(MARKER);
    EntryStarts(e);
    Starts(EntryText(e), MARKER);
    forall q: Text ensures Cached([], q).None? {
      NotCached([], q);
    }
    if NEWLINE in e.query {
      assert Cached([], NameAt(e, 0)).None?;
    } else if !FreeOf(e.query, MARKER) {
      var p: nat :| OccursAt(e.query, MARKER, p);
      MarkersOfEntry(MARKER, e.query, e.result, p + 11);
      assert Cached([], NameAt(e, p + 11)).None?;
    }
  }

  /** One entry is a map of one query exactly when the query is one line, no part holds a carriage return,
      and the marker is in neither part. */
  lemma OneEntryIsMap(e: Entry)
    requires Stripped(e)
    ensures IsMap(AsRead(EntryText(e)), [e]) <==> Proper(e)
  {
    NothingIsMap();
    NotCached([], e.query);
    AppendKeepsMap([], [], e);
    SafeAlone(e);
    assert [] + EntryText(e) == EntryText(e) && [] + [e] == [e];
  }

  /** An entry is read back under its own query exactly when no part holds a carriage return and its result
      holds no marker, whatever the query is. */
  lemma ReadBack(e: Entry)
    requires Stripped(e)
    ensures Cached(AsRead(EntryText(e)), e.query) == Some(e.result) <==> NoReturns(e) && FreeOf(e.result, MARKER)
  {
    TextRead(e);
    EntryReadPlain(e);
    if NoReturns(e) {
      FoundBack(e);
    } else if RETURN in e.query {
      ReturnNeverHit(EntryText(e), e.query);
    } else if Cached(AsRead(EntryText(e)), e.query).Some? {
      NoReturnRead(EntryText(e));
      NoReturnAnswered(AsRead(EntryText(e)), e.query);
    }
  }

  /** Proper entries make a map, also one that holds a query twice. */
  lemma {:induction false} CacheIsFirstWrite(entries: seq<Entry>)
    requires forall i :: 0 <= i < |entries| ==> Proper(entries[i]) && Stripped(entries[i])
    ensures IsMap(AsRead(Render(entries)), entries)
  {
    if entries == [] {
      NothingIsMap();
    } else {
      var earlier, last := entries[..|entries| - 1], entries[|entries| - 1];
      assert entries == earlier + [last];
      CacheIsFirstWrite(earlier);
      RenderEndsLines(earlier);
      FileRead(Render(earlier), last);
      EntryReadPlain(last);
      ProperIsSafe(AsRead(Render(earlier)), last);
      ContainedKeepsMap(AsRead(Render(earlier)), earlier, last);
    }
  }

  lemma LoneBreak(m: Text)
    requires |m| > 1
    ensures ResultIn(m, [NEWLINE]) == []
  {
    var line: Text := [NEWLINE];
    FindIsFirst(line, m);
    assert line[1..] == [];
    assert StripLeft(line) == StripLeft(line[1..]) == [];
  }

  /** Queries of several lines are outside the map, whatever is stored: one that goes on from an entry's
      query into its result, as they are read, is answered. */
  lemma SeveralLinesHit(e: Entry)
    requires Stripped(e)
    ensures var q := AsRead(e.query) + ([NEWLINE] + AsRead(e.result));
            Cached(AsRead(EntryText(e)), q) == Some([]) && Own(e, q).None?
  {
    var read := EntryRead(e);
    var q := read.query + ([NEWLINE] + read.result);
    TextRead(e);
    assert EntryText(read) == Header(q) + [NEWLINE];
    OwnHeader(Header(q), [NEWLINE]);
    MarkerIsSolid(MARKER);
    LoneBreak(MARKER);
    ReadUnchanged(e.query);
    NoReturnRead(e.query);
    NoReturnRead(e.result);
  }

  // ------------------------------------------------------------------ the cache

  /** The grounded file, and the entries it was built from. */
  class KnowledgeBase {
    var grounded: Text
    ghost var entries: seq<Entry>

    ghost predicate Valid()
      reads this
    {
      grounded == Render(entries) && Written(entries)
    }

    /** What a lookup of this query finds. */
    function Hit(query: Text): Option<Text>
      reads this
    {
      Cached(AsRead(grounded), query)
    }

    /** The file answers every one-line query as the map of its entries does. */
    ghost predicate Faithful()
      reads this
    {
      IsMap(AsRead(grounded), entries)
    }

    constructor ()
      ensures Valid() && entries == [] && Faithful()
    {
      grounded, entries := [], [];
      new;
      NothingIsMap();
    }

    /** Return the cached results for the query, or nothing on a cache miss. */
    method LookupGrounded(query: Text) returns (result: Option<Text>)
      ensures result == Hit(Strip(query))
      ensures RETURN in Strip(query) ==> result.None?
      ensures Faithful() && NEWLINE !in Strip(query) ==> result == FirstResult(entries, Strip(query))
    {
      if RETURN in Strip(query) {
        ReturnNeverHit(grounded, Strip(query));
      }
      result := ReadBehind(MARKER, AsRead(grounded), Header(Strip(query)));
    }

    /** Cache one result, so that a query is searched at most once: the first write stays. The file
        stays a map exactly when nothing is appended or what is appended is safe. Text that cannot be
        encoded raises an error and is not written. */
    method AppendGrounded(query: Text, results: Text) returns (raised: bool)
      requires Valid()
      modifies this
      ensures Valid()
      ensures var entry := Entry(Strip(query), Strip(results));
              && (raised <==> old(Hit(Strip(query))).None? && !Encodable(EntryText(entry)))
              && entries == (if old(Hit(Strip(query))).Some? || raised then old(entries) else old(entries) + [entry])
              && (old(Faithful()) ==>
                    (Faithful() <==> entries == old(entries) || Safe(AsRead(old(grounded)), entry)))
      ensures entries == old(entries) ==> grounded == old(grounded)
      ensures entries != old(entries) ==>
                exists q, r :: Trimmed(query, q) && Trimmed(results, r) && grounded == old(grounded) + Cell(q, r)
      ensures old(!Faithful()) ==> !Faithful()
      ensures Hit(Strip(query)).Some? <==> RETURN !in Strip(query) && !raised
      ensures forall q: Text :: NEWLINE !in q && old(Hit(q)).Some? ==> Hit(q) == old(Hit(q))
      ensures forall q: Text :: old(Hit(q)).Some? ==> Hit(q).Some?
    {
      var entry := Entry(Strip(query), Strip(results));
      if RETURN in entry.query {
        ReturnNeverHit(grounded, entry.query);
      }
      if Find(AsRead(grounded), Header(entry.query)).Some? {
        return false;
      }
      if !Encodable(EntryText(entry)) {
        return true;
      }
      StripOnce(query);
      StripOnce(results);
      StripTrims(query);
      StripTrims(results);
      EntryLiterally(entry);
      Append(entry);
      return false;
    }

    method Append(entry: Entry)
      requires Valid() && Stripped(entry) && Hit(entry.query).None?
      modifies this
      ensures Valid() && entries == old(entries) + [entry] && grounded == old(grounded) + EntryText(entry)
      ensures Faithful() <==> old(Faithful()) && Safe(AsRead(old(grounded)), entry)
      ensures Hit(entry.query).Some? <==> RETURN !in entry.query
      ensures forall q: Text :: NEWLINE !in q && old(Hit(q)).Some? ==> Hit(q) == old(Hit(q))
      ensures forall q: Text :: old(Hit(q)).Some? ==> Hit(q).Some?
    {
      Unlast(entries, [entry]);
      Nothing(entries);
      AppendLaw(entries, entry);
      RenderEndsLines(entries);
      AppendFinds(grounded, entry);
      AppendAnswers(entries, entry);
      grounded := grounded + EntryText(entry);
      entries := entries + [entry];
    }
  }

  lemma AppendLaw(entries: seq<Entry>, e: Entry)
    requires Written(entries) && Stripped(e) && Cached(AsRead(Render(entries)), e.query).None?
    ensures IsMap(AsRead(Render(entries) + EntryText(e)), entries + [e])
       <==> IsMap(AsRead(Render(entries)), entries) && Safe(AsRead(Render(entries)), e)
  {
    RenderEndsLines(entries);
    if IsMap(AsRead(Render(entries)), entries) {
      AppendKeepsMap(Render(entries), entries, e);
    } else {
      BrokenStays(entries, e);
    }
  }

  /** What was found stays found, and the entry's own query is found unless it holds a carriage return. */
  lemma AppendAnswers(entries: seq<Entry>, e: Entry)
    requires Stripped(e) && Cached(AsRead(Render(entries)), e.query).None?
    ensures forall q: Text :: NEWLINE !in q && Cached(AsRead(Render(entries)), q).Some? ==>
              Cached(AsRead(Render(entries) + EntryText(e)), q) == Cached(AsRead(Render(entries)), q)
    ensures Cached(AsRead(Render(entries) + EntryText(e)), e.query).Some? <==> RETURN !in e.query
  {
    RenderEndsLines(entries);
    forall q: Text | NEWLINE !in q && Cached(AsRead(Render(entries)), q).Some?
      ensures Cached(AsRead(Render(entries) + EntryText(e)), q) == Cached(AsRead(Render(entries)), q)
    {
      AppendedRead(Render(entries), e, q);
    }
    FileRead(Render(entries), e);
    if RETURN in e.query {
      ReturnNeverHit(Render(entries) + EntryText(e), e.query);
    } else {
      ReadUnchanged(e.query);
      HeaderInMore(AsRead(Render(entries)), Header(e.query), Body(AsRead(e.result)));
    }
  }

  lemma AppendFinds(file: Text, e: Entry)
    requires EndsLines(file) && Stripped(e)
    ensures forall q: Text :: Cached(AsRead(file), q).Some? ==> Cached(AsRead(file + EntryText(e)), q).Some?
  {
    FileRead(file, e);
    forall q: Text | Cached(AsRead(file), q).Some? ensures Cached(AsRead(file + EntryText(e)), q).Some? {
      FindStays(AsRead(file), EntryText(EntryRead(e)), Header(q));
    }
  }

  lemma HeaderInMore(content: Text, h: Text, body: Text)
    ensures Find(content + (h + body), h).Some?
  {
    assert OccursAt(content + (h + body), h, |content|);
    FindIsFirst(content + (h + body), h);
  }
}
