/** A text in which a marker opens a section, named by the rest of its line, that ends at the next
    marker: what is read behind a name, and how the text grows. */
module MarkedText {
  import opened Options
  import opened CodePoints
  import opened Parsing
  import opened Sequences
  import opened TextSearch

  const NEWLINE: CodePoint := 10

  /** A marker lies in one line and does not overlap itself. */
  ghost predicate Solid(m: Text) {
    && m != [] && NEWLINE !in m
    && forall k :: 0 < k < |m| ==> Clashes(m, k)
  }

  /** The marker shifted by `k` disagrees with itself. */
  ghost predicate Clashes(m: Text, k: nat) {
    exists i: nat :: k + i < |m| && m[k + i] != m[i]
  }

  /** What a stretch of the text after a header starts with, up to the next marker. */
  function ResultIn(m: Text, body: Text): Text {
    match Find(body, m)
    case None => Strip(body)
    case Some(end) => Strip(body[..end])
  }

  /** The result behind the first occurrence of a header. */
  function Behind(m: Text, content: Text, header: Text): Option<Text> {
    match Find(content, header)
    case None => None
    case Some(start) => Some(ResultIn(m, content[start + |header|..]))
  }

  method ReadBehind(m: Text, content: Text, header: Text) returns (result: Option<Text>)
    ensures result == Behind(m, content, header)
  {
    var start := Find(content, header);
    if start.None? {
      return None;
    }
    var body := content[start.value + |header|..];
    var end := Find(body, m);
    return Some(Strip(if end.Some? then body[..end.value] else body));
  }

  // ------------------------------------------------------------------ markers and lines

  ghost predicate FreeOf(text: Text, m: Text) {
    forall p: nat :: !OccursAt(text, m, p)
  }

  /** No marker that starts in a text ends beyond the line it starts in. */
  lemma NoneAcross(m: Text, text: Text, more: Text, p: nat)
    requires NEWLINE !in m && m != [] && p <= |text|
    ensures OccursAt(text + ([NEWLINE] + more), m, p) <==> OccursAt(text, m, p)
  {
    var whole := text + ([NEWLINE] + more);
    if p + |m| <= |text| {
      OccursBefore(text, [NEWLINE] + more, m, p);
    } else {
      var i := |text| - p;
      assert whole[p + i] == NEWLINE && m[i] in m;
    }
  }

  lemma NoneOverlapping(m: Text, text: Text, at: nat, p: nat)
    requires Solid(m) && OccursAt(text, m, at) && at < p < at + |m|
    ensures !OccursAt(text, m, p)
  {
    assert Clashes(m, p - at);
    var i: nat :| p - at + i < |m| && m[p - at + i] != m[i];
    assert text[at + (p - at + i)] == m[p - at + i];
    assert text[p + i] != m[i];
  }

  lemma HeaderOccurs(m: Text, query: Text, text: Text, p: nat)
    ensures OccursAt(text, m + query, p) <==> OccursAt(text, m, p) && p + |m| <= |text| && query <= text[p + |m|..]
  {
    var h := m + query;
    if p + |h| <= |text| {
      assert forall i {:trigger m[i]} :: 0 <= i < |m| ==> h[i] == m[i];
      assert forall i {:trigger query[i]} :: 0 <= i < |query| ==> h[|m| + i] == query[i];
      var rest := text[p + |m|..];
      assert query <= rest <==> forall i :: 0 <= i < |query| ==> rest[i] == query[i];
      assert forall i {:trigger query[i]} :: 0 <= i < |query| ==> rest[i] == text[p + (|m| + i)];
      HeaderParts(m, query, text, p);
    }
  }

  lemma HeaderParts(m: Text, query: Text, text: Text, p: nat)
    requires p + |m + query| <= |text|
    ensures OccursAt(text, m + query, p)
       <==> OccursAt(text, m, p) && forall i :: 0 <= i < |query| ==> text[p + |m| + i] == query[i]
  {
    var h := m + query;
    if OccursAt(text, m, p) && forall i :: 0 <= i < |query| ==> text[p + |m| + i] == query[i] {
      forall i | 0 <= i < |h| ensures text[p + i] == h[i] {
        if i >= |m| {
          assert text[p + |m| + (i - |m|)] == query[i - |m|];
        }
      }
    }
    if OccursAt(text, h, p) {
      forall i | 0 <= i < |m| ensures text[p + i] == m[i] {
        assert h[i] == m[i];
      }
      forall i | 0 <= i < |query| ensures text[p + |m| + i] == query[i] {
        assert text[p + (|m| + i)] == h[|m| + i];
      }
    }
  }

  lemma LineNamed(query: Text, rest: Text)
    requires NEWLINE !in query
    ensures Find(query + ([NEWLINE] + rest), [NEWLINE]) == Some(|query|)
    ensures (query + ([NEWLINE] + rest))[..|query|] == query
  {
    FindOne(query, NEWLINE, rest);
  }

  lemma NameEnds(line: Text, n: nat)
    requires OccursAt(line, [NEWLINE], n)
    ensures line[..n] + [NEWLINE] <= line
  {
    assert line[n + 0] == [NEWLINE][0];
    assert line[..n] + [NEWLINE] == line[..n + 1];
  }

  /** A line is its name exactly when the text goes on with that name and the line break. */
  lemma NameOfLine(line: Text, query: Text)
    requires NEWLINE !in query
    ensures query + [NEWLINE] <= line
       <==> Find(line, [NEWLINE]).Some? && line[..Find(line, [NEWLINE]).value] == query
  {
    if query + [NEWLINE] <= line {
      var rest := line[|query| + 1..];
      assert line == query + ([NEWLINE] + rest);
      LineNamed(query, rest);
    } else if Find(line, [NEWLINE]).Some? {
      FindIsFirst(line, [NEWLINE]);
      NameEnds(line, Find(line, [NEWLINE]).value);
    }
  }

  /** The rest of the line from a place on, the whole rest if no line break follows. */
  function RestOfLine(text: Text, from: nat): Text
    requires from <= |text|
  {
    var end := Find(text[from..], [NEWLINE]);
    if end.Some? then text[from..][..end.value] else text[from..]
  }

  /** The line from which a name is read. */
  function LineOf(m: Text, name: Text): Text {
    m + (name + [NEWLINE])
  }

  /** The header of a one-line name occurs exactly where a marker does whose line is that name. */
  lemma HeaderIsLine(m: Text, name: Text, text: Text, p: nat)
    requires NEWLINE !in name
    ensures OccursAt(text, LineOf(m, name), p)
       <==> OccursAt(text, m, p) && RestOfLine(text, p + |m|) == name && NEWLINE in text[p + |m|..]
  {
    HeaderOccurs(m, name + [NEWLINE], text, p);
    if p + |m| <= |text| {
      var line := text[p + |m|..];
      NameOfLine(line, name);
      BreakIsFound(line);
    }
  }

  lemma BreakHere(line: Text, i: nat)
    ensures OccursAt(line, [NEWLINE], i) <==> i < |line| && line[i] == NEWLINE
  {
    assert i < |line| ==> (line[i + 0] == [NEWLINE][0] <==> line[i] == NEWLINE);
  }

  lemma BreakIsFound(line: Text)
    ensures Find(line, [NEWLINE]).Some? <==> NEWLINE in line
  {
    FindIsFirst(line, [NEWLINE]);
    forall i: nat ensures OccursAt(line, [NEWLINE], i) <==> i < |line| && line[i] == NEWLINE {
      BreakHere(line, i);
    }
  }

  lemma RestIsOneLine(text: Text, from: nat)
    requires from <= |text|
    ensures NEWLINE !in RestOfLine(text, from)
  {
    var line := text[from..];
    FindIsFirst(line, [NEWLINE]);
    forall i | 0 <= i < |RestOfLine(text, from)| ensures line[i] != NEWLINE {
      assert !OccursAt(line, [NEWLINE], i);
    }
  }

  // ------------------------------------------------------------------ the text grows

  /** Appending starts on a line of its own. */
  predicate EndsLines(content: Text) {
    content == [] || content[|content| - 1] == NEWLINE
  }

  lemma NoneBefore(m: Text, head: Text, tail: Text, p: nat)
    requires Solid(m) && EndsLines(head) && p < |head|
    ensures OccursAt(head + tail, m, p) <==> OccursAt(head, m, p)
  {
    var text := head[..|head| - 1];
    assert head == text + ([NEWLINE] + []) && head + tail == text + ([NEWLINE] + tail);
    NoneAcross(m, text, tail, p);
    NoneAcross(m, text, [], p);
  }

  /** A search for the marker in lines that are followed by a marker. */
  lemma MarkerInLines(m: Text, head: Text, tail: Text)
    requires Solid(m) && EndsLines(head) && m <= tail
    ensures Find(head + tail, m) == if Find(head, m).Some? then Find(head, m) else Some(|head|)
  {
    if Find(head, m).Some? {
      FindStays(head, tail, m);
    } else {
      FindIsFirst(head, m);
      forall p | 0 <= p < |head| ensures !OccursAt(head + tail, m, p) {
        NoneBefore(m, head, tail, p);
      }
      FindPast(head, tail, m);
    }
  }

  lemma ResultStays(m: Text, body: Text, tail: Text)
    requires Solid(m) && EndsLines(body) && m <= tail
    ensures ResultIn(m, body + tail) == ResultIn(m, body)
  {
    MarkerInLines(m, body, tail);
    if Find(body, m).Some? {
      assert (body + tail)[..Find(body, m).value] == body[..Find(body, m).value];
    } else {
      Drop(body, tail);
    }
  }

  lemma DroppedLater(head: Text, tail: Text, n: nat)
    requires n <= |tail|
    ensures (head + tail)[|head| + n..] == tail[n..]
  {
  }

  lemma DropEarlier(head: Text, tail: Text, n: nat)
    requires n <= |head|
    ensures (head + tail)[n..] == head[n..] + tail
    ensures EndsLines(head) ==> EndsLines(head[n..])
  {
  }

  lemma BehindAt(m: Text, content: Text, header: Text, at: nat)
    requires Find(content, header) == Some(at)
    ensures at + |header| <= |content|
    ensures Behind(m, content, header) == Some(ResultIn(m, content[at + |header|..]))
  {
  }

  lemma BehindStays(m: Text, head: Text, tail: Text, h: Text)
    requires Solid(m) && EndsLines(head) && m <= tail && Find(head, h).Some?
    ensures Behind(m, head + tail, h) == Behind(m, head, h)
  {
    var at := Find(head, h).value;
    FindStays(head, tail, h);
    BehindAt(m, head, h, at);
    BehindAt(m, head + tail, h, at);
    DropEarlier(head, tail, at + |h|);
    ResultStays(m, head[at + |h|..], tail);
  }

  lemma BehindPast(m: Text, head: Text, tail: Text, h: Text)
    requires forall p :: 0 <= p < |head| ==> !OccursAt(head + tail, h, p)
    ensures Behind(m, head + tail, h) == Behind(m, tail, h)
  {
    FindPast(head, tail, h);
    if Find(tail, h).Some? {
      DroppedLater(head, tail, Find(tail, h).value + |h|);
    }
  }

  /** A header lies in one line, and so before or behind the place where lines are appended. */
  lemma HeaderInLines(m: Text, name: Text, head: Text, tail: Text, p: nat)
    requires Solid(m) && NEWLINE !in name && EndsLines(head) && p < |head|
    ensures OccursAt(head + tail, LineOf(m, name), p) ==> OccursAt(head, LineOf(m, name), p)
  {
    var h := LineOf(m, name);
    if p + |h| <= |head| {
      OccursBefore(head, tail, h, p);
    } else {
      var i := |head| - 1 - p;
      assert (head + tail)[p + i] == NEWLINE;
      OneLineBefore(m, name, i);
    }
  }

  lemma OneLineBefore(m: Text, name: Text, i: nat)
    requires NEWLINE !in m && NEWLINE !in name && i < |m| + |name|
    ensures LineOf(m, name)[i] != NEWLINE
  {
    if i < |m| {
      assert LineOf(m, name)[i] == m[i];
    } else {
      assert LineOf(m, name)[i] == name[i - |m|];
    }
  }

  /** In whole lines to which a section is appended, a name is read where it was, or in what is new. */
  lemma ReadsOn(m: Text, head: Text, tail: Text, name: Text)
    requires Solid(m) && NEWLINE !in name && EndsLines(head) && m <= tail
    ensures Behind(m, head + tail, LineOf(m, name))
         == if Behind(m, head, LineOf(m, name)).Some? then Behind(m, head, LineOf(m, name))
            else Behind(m, tail, LineOf(m, name))
  {
    var h := LineOf(m, name);
    if Find(head, h).Some? {
      BehindStays(m, head, tail, h);
    } else {
      FindIsFirst(head, h);
      forall p | 0 <= p < |head| ensures !OccursAt(head + tail, h, p) {
        HeaderInLines(m, name, head, tail, p);
      }
      BehindPast(m, head, tail, h);
    }
  }
}
