/** Text as Python holds it: a sequence of code points in which surrogates may occur, alone or in
    pairs. */
module CodePoints {

  type CodePoint = c: int | 0 <= c < 0x110000

  type CodeUnit = c: int | 0 <= c < 0x10000

  type Text = seq<CodePoint>

  function Ascii(s: string): (t: Text)
    ensures |t| == |s| && forall i :: 0 <= i < |s| ==> t[i] == s[i] as int
  {
    seq(|s|, i requires 0 <= i < |s| => s[i] as int)
  }

  predicate High(c: CodePoint) {
    0xD800 <= c <= 0xDBFF
  }

  predicate Low(c: CodePoint) {
    0xDC00 <= c <= 0xDFFF
  }

  predicate Surrogate(c: CodePoint) {
    0xD800 <= c <= 0xDFFF
  }

  function Combine(high: CodePoint, low: CodePoint): (c: CodePoint)
    requires High(high) && Low(low)
    ensures 0x10000 <= c
  {
    0x10000 + (high - 0xD800) * 0x400 + (low - 0xDC00)
  }

  /** The UTF-16 code units of one code point: section 2.1 of RFC 2781. */
  function UnitsOf(c: CodePoint): seq<CodeUnit> {
    if c < 0x10000 then [c]
    else [0xD800 + (c - 0x10000) / 0x400, 0xDC00 + (c - 0x10000) % 0x400]
  }

  function Units(text: Text): seq<CodeUnit> {
    if text == [] then [] else UnitsOf(text[0]) + Units(text[1..])
  }

  /** Surrogate pairs folded into the code points they stand for: section 2.2 of RFC 2781. */
  function Fold(units: Text): Text {
    if units == [] then []
    else if |units| >= 2 && High(units[0]) && Low(units[1]) then [Combine(units[0], units[1])] + Fold(units[2..])
    else [units[0]] + Fold(units[1..])
  }

  /** No high surrogate is followed by a low one; true of every string of scalar values. */
  ghost predicate PairFree(text: Text) {
    forall i :: 0 <= i < |text| - 1 ==> !(High(text[i]) && Low(text[i + 1]))
  }

  lemma CombineInvertsUnits(c: CodePoint)
    requires c >= 0x10000
    ensures High(UnitsOf(c)[0]) && Low(UnitsOf(c)[1]) && Combine(UnitsOf(c)[0], UnitsOf(c)[1]) == c
  {
  }

  lemma {:induction false} UnitsConcat(a: Text, b: Text)
    ensures Units(a + b) == Units(a) + Units(b)
  {
    if a == [] {
      assert a + b == b;
    } else {
      UnitsConcat(a[1..], b);
      assert (a + b)[1..] == a[1..] + b;
    }
  }

  lemma {:induction false} FoldInvertsUnits(text: Text)
    requires PairFree(text)
    ensures Fold(Units(text)) == text
  {
    if text != [] {
      var c, rest := text[0], text[1..];
      FoldInvertsUnits(rest);
      if c >= 0x10000 {
        CombineInvertsUnits(c);
        assert Units(text)[2..] == Units(rest);
      } else {
        assert Units(text)[1..] == Units(rest);
        if rest != [] {
          assert text[1] == rest[0];
          FirstUnit(rest);
        }
      }
    }
  }

  lemma FirstUnit(text: Text)
    requires text != []
    ensures Units(text) != [] && (Low(Units(text)[0]) <==> Low(text[0]))
  {
  }

  /** Encoding to UTF-16 and folding back is the identity exactly on text without surrogate pairs. */
  lemma {:induction false} FoldUnitsExact(text: Text)
    ensures Fold(Units(text)) == text <==> PairFree(text)
  {
    if PairFree(text) {
      FoldInvertsUnits(text);
    } else {
      PairsAreLost(text);
    }
  }

  lemma {:induction false} PairsAreLost(text: Text)
    ensures |Fold(Units(text))| <= |text|
    ensures !PairFree(text) ==> |Fold(Units(text))| < |text|
  {
    if text != [] {
      var c, rest := text[0], text[1..];
      if c >= 0x10000 {
        CombineInvertsUnits(c);
        PairsAreLost(rest);
        assert Units(text)[2..] == Units(rest);
        if !PairFree(text) {
          LaterPair(text);
        }
      } else if High(c) && rest != [] && Low(rest[0]) {
        PairsAreLost(rest[1..]);
        assert Units(rest) == [rest[0]] + Units(rest[1..]);
        assert Units(text)[2..] == Units(rest[1..]);
      } else {
        PairsAreLost(rest);
        assert Units(text)[1..] == Units(rest);
        if rest != [] { FirstUnit(rest); }
        if !PairFree(text) {
          LaterPair(text);
        }
      }
    }
  }

  lemma LaterPair(text: Text)
    requires text != [] && !PairFree(text) && !(|text| >= 2 && High(text[0]) && Low(text[1]))
    ensures !PairFree(text[1..])
  {
    var i :| 0 <= i < |text| - 1 && High(text[i]) && Low(text[i + 1]);
    assert High(text[1..][i - 1]) && Low(text[1..][i]);
  }
}
