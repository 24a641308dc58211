/** Where one text occurs in another, what the first occurrence is, and what stripping leaves. */
module TextSearch {
  import opened Options
  import opened CodePoints
  import opened Parsing
  import opened Sequences

  predicate OccursAt(text: Text, m: Text, p: nat) {
    p + |m| <= |text| && forall i :: 0 <= i < |m| ==> text[p + i] == m[i]
  }

  /** A text that occurs brings its characters along. */
  lemma OccursWhole(text: Text, m: Text, p: nat, c: CodePoint)
    ensures OccursAt(text, m, p) && c in m ==> c in text
  {
    if OccursAt(text, m, p) && c in m {
      var i :| 0 <= i < |m| && m[i] == c;
      assert text[p + i] == c;
    }
  }

  lemma OccursLater(text: Text, m: Text, p: nat)
    requires text != []
    ensures OccursAt(text[1..], m, p) <==> OccursAt(text, m, p + 1)
  {
    if p + 1 + |m| <= |text| {
      assert forall i {:trigger m[i]} :: 0 <= i < |m| ==> text[1..][p + i] == text[p + 1 + i];
    }
  }

  lemma OccursShifted(head: Text, tail: Text, m: Text, p: nat)
    ensures OccursAt(head + tail, m, |head| + p) <==> OccursAt(tail, m, p)
  {
    if p + |m| <= |tail| {
      assert forall i {:trigger m[i]} :: 0 <= i < |m| ==> (head + tail)[|head| + p + i] == tail[p + i];
    }
  }

  lemma OccursBefore(head: Text, tail: Text, m: Text, p: nat)
    requires p + |m| <= |head|
    ensures OccursAt(head + tail, m, p) <==> OccursAt(head, m, p)
  {
    assert forall i {:trigger m[i]} :: 0 <= i < |m| ==> (head + tail)[p + i] == head[p + i];
  }

  lemma {:induction false} FindFirst(text: Text, m: Text, at: nat)
    requires OccursAt(text, m, at) && forall p :: 0 <= p < at ==> !OccursAt(text, m, p)
    ensures Find(text, m) == Some(at)
  {
    if at == 0 {
      assert m <= text;
    } else {
      assert !(m <= text) by { assert !OccursAt(text, m, 0); }
      forall p | 0 <= p < at - 1 ensures !OccursAt(text[1..], m, p) {
        OccursLater(text, m, p);
      }
      OccursLater(text, m, at - 1);
      FindFirst(text[1..], m, at - 1);
    }
  }

  lemma {:induction false} FindNowhere(text: Text, m: Text)
    requires forall p :: 0 <= p <= |text| ==> !OccursAt(text, m, p)
    ensures Find(text, m) == None
  {
    assert !(m <= text) by { assert !OccursAt(text, m, 0); }
    if text != [] {
      forall p | 0 <= p <= |text[1..]| ensures !OccursAt(text[1..], m, p) {
        OccursLater(text, m, p);
      }
      FindNowhere(text[1..], m);
    }
  }

  ghost predicate NoneBefore(text: Text, m: Text, n: nat) {
    forall p :: 0 <= p < n ==> !OccursAt(text, m, p)
  }

  /** Where nothing starts at the front, all occurrences are those behind the first character. */
  lemma NoneBeforeLater(text: Text, m: Text, n: nat)
    requires text != [] && !OccursAt(text, m, 0) && NoneBefore(text[1..], m, n)
    ensures NoneBefore(text, m, n + 1)
  {
    forall p | 0 <= p < n + 1 ensures !OccursAt(text, m, p) {
      if p > 0 {
        assert !OccursAt(text[1..], m, p - 1);
        OccursLater(text, m, p - 1);
      }
    }
  }

  lemma {:induction false} FindStep(text: Text, m: Text)
    ensures match Find(text, m)
            case None => NoneBefore(text, m, |text| + 1)
            case Some(at) => OccursAt(text, m, at) && NoneBefore(text, m, at)
  {
    Starts(text, m);
    if !(m <= text) && text != [] {
      FindStep(text[1..], m);
      match Find(text[1..], m)
      case None =>
        NoneBeforeLater(text, m, |text|);
      case Some(at) =>
        OccursLater(text, m, at);
        NoneBeforeLater(text, m, at);
    }
  }

  /** A search finds the first occurrence, and nothing exactly when there is none. */
  lemma FindIsFirst(text: Text, m: Text)
    ensures Find(text, m).None? ==> forall p: nat :: !OccursAt(text, m, p)
    ensures Find(text, m).Some? ==> OccursAt(text, m, Find(text, m).value)
    ensures Find(text, m).Some? ==> forall p :: 0 <= p < Find(text, m).value ==> !OccursAt(text, m, p)
  {
    FindStep(text, m);
  }

  lemma Starts(text: Text, m: Text)
    ensures OccursAt(text, m, 0) <==> m <= text
  {
    if |m| <= |text| {
      assert m == text[..|m|] <==> forall i :: 0 <= i < |m| ==> m[i] == text[0 + i];
    }
  }

  /** A search passes over a part in which the text sought does not start. */
  lemma {:induction false} FindPast(head: Text, tail: Text, m: Text)
    requires forall p :: 0 <= p < |head| ==> !OccursAt(head + tail, m, p)
    ensures Find(head + tail, m) == match Find(tail, m) case None => None case Some(at) => Some(|head| + at)
  {
    if head == [] {
      Nothing(tail);
    } else {
      var text := head + tail;
      Behead(head, tail);
      assert !(m <= text) by { assert !OccursAt(text, m, 0); }
      forall p | 0 <= p < |head[1..]| ensures !OccursAt(head[1..] + tail, m, p) {
        OccursLater(text, m, p);
      }
      FindPast(head[1..], tail, m);
    }
  }

  /** What a search finds in a text it finds there whatever follows. */
  lemma FindStays(head: Text, tail: Text, m: Text)
    requires Find(head, m).Some?
    ensures Find(head + tail, m) == Find(head, m)
  {
    var at := Find(head, m).value;
    FindIsFirst(head, m);
    forall p | 0 <= p <= at ensures OccursAt(head + tail, m, p) <==> OccursAt(head, m, p) {
      OccursBefore(head, tail, m, p);
    }
    FindFirst(head + tail, m, at);
  }

  /** The first of one character. */
  lemma FindOne(head: Text, c: CodePoint, tail: Text)
    requires c !in head
    ensures Find(head + ([c] + tail), [c]) == Some(|head|)
  {
    var text := head + ([c] + tail);
    assert text[|head| + 0] == c;
    forall p | 0 <= p < |head| ensures !OccursAt(text, [c], p) {
      assert text[p + 0] == head[p] && head[p] in head;
    }
    FindFirst(text, [c], |head|);
  }

  // ------------------------------------------------------------------ stripping

  lemma {:induction false} StripRightTail(t: Text, tail: Text)
    requires forall i :: 0 <= i < |tail| ==> IsWide(tail[i])
    ensures StripRight(t + tail) == StripRight(t)
    decreases |tail|
  {
    if tail == [] {
      Nothing(t);
    } else {
      StripRightTail(t, tail[..|tail| - 1]);
      Unlast(t, tail);
    }
  }

  lemma {:induction false} StripLeftShrinks(t: Text)
    ensures |StripLeft(t)| <= |t|
    ensures StripLeft(t) != [] ==> !IsWide(StripLeft(t)[0])
  {
    if t != [] && IsWide(t[0]) {
      StripLeftShrinks(t[1..]);
    }
  }

  lemma {:induction false} StripRightShrinks(t: Text)
    ensures |StripRight(t)| <= |t| && StripRight(t) == t[..|StripRight(t)|]
    ensures StripRight(t) != [] ==> !IsWide(StripRight(t)[|StripRight(t)| - 1])
    decreases |t|
  {
    if t != [] && IsWide(t[|t| - 1]) {
      StripRightShrinks(t[..|t| - 1]);
    }
  }

  lemma StripShrinks(t: Text)
    ensures |Strip(t)| <= |t|
  {
    StripLeftShrinks(t);
    StripRightShrinks(StripLeft(t));
  }

  lemma StripOnce(t: Text)
    ensures Strip(Strip(t)) == Strip(t)
  {
    var left := StripLeft(t);
    StripLeftShrinks(t);
    StripRightShrinks(left);
    if StripRight(left) != [] {
      assert StripRight(left)[0] == left[0];
    }
  }

  lemma StrippedEnds(t: Text)
    requires Strip(t) == t && t != []
    ensures !IsWide(t[0]) && StripRight(t) == t
  {
    if IsWide(t[0]) {
      StripLeftShrinks(t[1..]);
      StripRightShrinks(StripLeft(t));
    } else {
      assert StripLeft(t) == t;
    }
  }
}
