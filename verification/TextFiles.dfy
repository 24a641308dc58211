/** A text file as Python reads it back: whatever was written, line ends are translated to line feeds. */
module TextFiles {
  import opened CodePoints
  import opened Parsing
  import opened Sequences
  import opened TextSearch

  const LINE_FEED: CodePoint := 10
  const RETURN: CodePoint := 13

  /** What reading a file gives: a carriage return, and the line feed after it, come back as one line feed. */
  function AsRead(t: Text): Text {
    if t == [] then []
    else if t[0] == RETURN then [LINE_FEED] + AsRead(if |t| > 1 && t[1] == LINE_FEED then t[2..] else t[1..])
    else [t[0]] + AsRead(t[1..])
  }

  /** UTF-8 has no bytes for a surrogate; writing one fails. */
  predicate Encodable(t: Text) {
    forall i :: 0 <= i < |t| ==> !Surrogate(t[i])
  }

  lemma {:induction false} NoReturnRead(t: Text)
    ensures RETURN !in AsRead(t)
  {
    if t != [] {
      NoReturnRead(if t[0] == RETURN && |t| > 1 && t[1] == LINE_FEED then t[2..] else t[1..]);
    }
  }

  /** Exactly the text without carriage returns is read as it was written. */
  lemma ReadUnchanged(t: Text)
    ensures AsRead(t) == t <==> RETURN !in t
  {
    NoReturnRead(t);
    if RETURN !in t {
      ReadPlain(t);
    }
  }

  lemma {:induction false} ReadPlain(t: Text)
    requires RETURN !in t
    ensures AsRead(t) == t
  {
    if t != [] {
      ReadPlain(t[1..]);
    }
  }

  /** No line end lies across the place where two texts meet. */
  predicate Meets(a: Text, b: Text) {
    a == [] || b == [] || a[|a| - 1] != RETURN || b[0] != LINE_FEED
  }

  lemma {:induction false} ReadInPieces(a: Text, b: Text)
    requires Meets(a, b)
    ensures AsRead(a + b) == AsRead(a) + AsRead(b)
    decreases |a|
  {
    if a == [] {
      Nothing(b);
    } else {
      Behead(a, b);
      if a[0] == RETURN && |a| > 1 && a[1] == LINE_FEED {
        Behead(a[1..], b);
        ReadInPieces(a[2..], b);
        assert (a + b)[2..] == a[2..] + b && (a + b)[1] == a[1];
        Assoc([LINE_FEED], AsRead(a[2..]), AsRead(b));
      } else {
        ReadInPieces(a[1..], b);
        FirstRead(a);
        FirstRead(a + b);
        assert |a| == 1 && a[0] == RETURN ==> |a + b| == 1 || (a + b)[1] != LINE_FEED;
        Assoc(AsRead(a)[..1], AsRead(a[1..]), AsRead(b));
      }
    }
  }

  lemma FirstRead(t: Text)
    requires t != [] && !(t[0] == RETURN && |t| > 1 && t[1] == LINE_FEED)
    ensures var first: Text := [if t[0] == RETURN then LINE_FEED else t[0]];
            AsRead(t) == first + AsRead(t[1..]) && AsRead(t)[..1] == first
  {
  }

  lemma {:induction false} LineFeedRead(t: Text)
    ensures LINE_FEED in t || RETURN in t <==> LINE_FEED in AsRead(t)
    ensures t == [] <==> AsRead(t) == []
  {
    if t != [] && t[0] != RETURN {
      LineFeedRead(t[1..]);
      assert t == [t[0]] + t[1..];
    } else if t != [] {
      assert AsRead(t)[0] == LINE_FEED;
    }
  }

  // ------------------------------------------------------------------ stripped text

  lemma {:induction false} LastRead(t: Text)
    requires t != [] && !IsWide(t[|t| - 1])
    ensures AsRead(t) != [] && AsRead(t)[|AsRead(t)| - 1] == t[|t| - 1]
    decreases |t|
  {
    var rest := if t[0] == RETURN && |t| > 1 && t[1] == LINE_FEED then t[2..] else t[1..];
    if rest != [] {
      LastRead(rest);
    }
  }

  /** A stripped text is read as a stripped one. */
  lemma StrippedRead(t: Text)
    requires Strip(t) == t
    ensures Strip(AsRead(t)) == AsRead(t)
  {
    if t != [] {
      StrippedEnds(t);
      LastKept(t);
      LastRead(t);
      EndsKept(AsRead(t));
    }
  }

  lemma LastKept(t: Text)
    requires StripRight(t) == t && t != []
    ensures !IsWide(t[|t| - 1])
  {
    if IsWide(t[|t| - 1]) {
      StripRightShrinks(t[..|t| - 1]);
    }
  }

  lemma EndsKept(t: Text)
    requires t != [] && !IsWide(t[0]) && !IsWide(t[|t| - 1])
    ensures Strip(t) == t
  {
  }

  /** A stripped text meets any line that follows it. */
  lemma StrippedMeets(t: Text, b: Text)
    requires Strip(t) == t
    ensures Meets(t, b)
  {
    if t != [] {
      StrippedEnds(t);
      LastKept(t);
    }
  }
}
