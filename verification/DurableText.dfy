/** Canonical text for UTF-8 files, transports and JSON stores: no NUL, no surrogate. */
module DurableText {
  import opened CodePoints
  import opened Sequences

  const REPLACEMENT: CodePoint := 0xFFFD

  /** How much of `value` its first canonical character stands for. */
  function Width(value: Text): (n: nat)
    requires value != []
    ensures 1 <= n <= |value|
  {
    if |value| >= 2 && High(value[0]) && Low(value[1]) then 2 else 1
  }

  function First(value: Text): CodePoint
    requires value != []
  {
    if Width(value) == 2 then Combine(value[0], value[1])
    else if value[0] == 0 || Surrogate(value[0]) then REPLACEMENT
    else value[0]
  }

  /** What the canonical form of `value` is, read from the left. */
  function Normalized(value: Text): Text {
    if value == [] then [] else [First(value)] + Normalized(value[Width(value)..])
  }

  method NormalizeDurableText(value: Text) returns (normalized: Text)
    ensures normalized == Normalized(value)
  {
    normalized := [];
    var index := 0;
    while index < |value|
      invariant 0 <= index <= |value|
      invariant normalized + Normalized(value[index..]) == Normalized(value)
    {
      NormalizedNext(value, index, normalized);
      var codePoint := value[index];
      if codePoint == 0 {
        normalized := normalized + [REPLACEMENT];
      } else if 0xD800 <= codePoint <= 0xDBFF {
        if index + 1 < |value| && 0xDC00 <= value[index + 1] <= 0xDFFF {
          normalized := normalized + [0x10000 + (codePoint - 0xD800) * 0x400 + (value[index + 1] - 0xDC00)];
          index := index + 1;
        } else {
          normalized := normalized + [REPLACEMENT];
        }
      } else if 0xDC00 <= codePoint <= 0xDFFF {
        normalized := normalized + [REPLACEMENT];
      } else {
        normalized := normalized + [codePoint];
      }
      index := index + 1;
    }
  }

  lemma NormalizedNext(value: Text, index: nat, sofar: Text)
    requires index < |value| && sofar + Normalized(value[index..]) == Normalized(value)
    ensures var rest := value[index..];
            (sofar + [First(rest)]) + Normalized(value[index + Width(rest)..]) == Normalized(value)
  {
    var rest := value[index..];
    DropMore(value, index, Width(rest));
    Assoc(sofar, [First(rest)], Normalized(rest[Width(rest)..]));
  }

  datatype Verdict = Durable | EmbeddedNul | UnpairedSurrogate

  function ValidateDurableText(value: Text): Verdict {
    if 0 in value then EmbeddedNul
    else if exists i :: 0 <= i < |value| && Surrogate(value[i]) then UnpairedSurrogate
    else Durable
  }

  ghost predicate Clean(value: Text) {
    forall i :: 0 <= i < |value| ==> value[i] != 0 && !Surrogate(value[i])
  }

  lemma {:induction false} NormalizedIsClean(value: Text)
    ensures Clean(Normalized(value))
  {
    if value != [] {
      NormalizedIsClean(value[Width(value)..]);
    }
  }

  lemma {:induction false} CleanIsKept(value: Text)
    requires Clean(value)
    ensures Normalized(value) == value
  {
    if value != [] {
      CleanIsKept(value[1..]);
    }
  }

  /** Text without surrogate pairs keeps its length: a NUL and a surrogate become one replacement character each,
      and every other character is itself. */
  lemma {:induction false} NormalizedPointwise(value: Text)
    requires PairFree(value)
    ensures |Normalized(value)| == |value|
    ensures forall i :: 0 <= i < |value| ==>
              Normalized(value)[i] == if value[i] == 0 || 0xD800 <= value[i] <= 0xDFFF then 0xFFFD else value[i]
  {
    if value != [] {
      assert value[Width(value)..] == value[1..];
      NormalizedPointwise(value[1..]);
      assert Normalized(value) == [First(value)] + Normalized(value[1..]);
    }
  }

  /** A surrogate pair is the one character it stands for: section 2.2 of RFC 2781. */
  lemma PairNormalized(high: CodePoint, low: CodePoint)
    requires 0xD800 <= high <= 0xDBFF && 0xDC00 <= low <= 0xDFFF
    ensures Normalized([high, low]) == [0x10000 + (high - 0xD800) * 0x400 + (low - 0xDC00)]
  {
    assert [high, low][2..] == [];
    assert Normalized([]) == [];
    Nothing([First([high, low])]);
  }

  /** Validation accepts exactly the fixed points of normalization. */
  lemma {:induction false} ValidatesFixedPoints(value: Text)
    ensures ValidateDurableText(value) == Durable <==> Normalized(value) == value
    ensures ValidateDurableText(value) == Durable <==> Clean(value)
  {
    if Clean(value) {
      CleanIsKept(value);
    } else if Normalized(value) == value {
      NormalizedIsClean(value);
    }
  }

  lemma {:induction false} NormalizesOnce(value: Text)
    ensures Normalized(Normalized(value)) == Normalized(value)
    ensures ValidateDurableText(Normalized(value)) == Durable
  {
    NormalizedIsClean(value);
    CleanIsKept(Normalized(value));
  }

  /** Normalization undoes UTF-16 encoding exactly where the text was durable to begin with. */
  lemma {:induction false} NormalizedInvertsUtf16(text: Text)
    ensures Normalized(Units(text)) == text <==> Clean(text)
  {
    if Clean(text) {
      DecodesUnits(text);
    } else if Normalized(Units(text)) == text {
      NormalizedIsClean(Units(text));
    }
  }

  lemma {:induction false} DecodesUnits(text: Text)
    requires Clean(text)
    ensures Normalized(Units(text)) == text
  {
    if text != [] {
      var c, rest := text[0], text[1..];
      DecodesUnits(rest);
      if c >= 0x10000 {
        CombineInvertsUnits(c);
        assert Units(text)[2..] == Units(rest);
      } else {
        assert Units(text)[1..] == Units(rest);
      }
    }
  }

  /** Text may be normalized piece by piece exactly when no cut falls inside a surrogate pair. */
  lemma {:induction false} NormalizesInPieces(a: Text, b: Text)
    ensures Normalized(a + b) == Normalized(a) + Normalized(b)
       <==> !(a != [] && b != [] && High(a[|a| - 1]) && Low(b[0]))
  {
    if a != [] && b != [] && High(a[|a| - 1]) && Low(b[0]) {
      PairCut(a, b);
    } else {
      PiecesJoin(a, b);
    }
  }

  lemma FirstOfJoined(a: Text, b: Text)
    requires |a| >= 2 || (a != [] && !(b != [] && High(a[0]) && Low(b[0])))
    ensures Width(a + b) == Width(a) && First(a + b) == First(a)
    ensures (a + b)[Width(a)..] == a[Width(a)..] + b
    ensures a[Width(a)..] != [] ==> a[Width(a)..][|a| - Width(a) - 1] == a[|a| - 1]
  {
    assert (a + b)[0] == a[0];
    assert |a| >= 2 ==> (a + b)[1] == a[1];
    assert |a| == 1 && b != [] ==> (a + b)[1] == b[0];
  }

  lemma {:induction false} PiecesJoin(a: Text, b: Text)
    requires !(a != [] && b != [] && High(a[|a| - 1]) && Low(b[0]))
    ensures Normalized(a + b) == Normalized(a) + Normalized(b)
  {
    if a == [] {
      Nothing(b);
    } else {
      var rest := a[Width(a)..];
      FirstOfJoined(a, b);
      PiecesJoin(rest, b);
      Assoc([First(a)], Normalized(rest), Normalized(b));
    }
  }

  lemma {:induction false} PairCut(a: Text, b: Text)
    requires a != [] && b != [] && High(a[|a| - 1]) && Low(b[0])
    ensures |Normalized(a + b)| < |Normalized(a)| + |Normalized(b)|
  {
    if |a| == 1 {
      PairJoined(a, b);
    } else {
      FirstOfJoined(a, b);
      PairCut(a[Width(a)..], b);
    }
  }

  lemma PairJoined(a: Text, b: Text)
    requires |a| == 1 && b != [] && High(a[0]) && Low(b[0])
    ensures |Normalized(a + b)| == |Normalized(b)| && |Normalized(a)| == 1
  {
    assert (a + b)[2..] == b[1..];
    assert Width(b) == 1;
  }
}
