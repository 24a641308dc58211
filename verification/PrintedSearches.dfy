/** What the two pattern searches of the salvage path, for the error flag and for the confidence, find in
    the members of a printed object, cut anywhere. */
module PrintedSearches {
  import opened Options
  import opened CodePoints
  import opened Json
  import opened JsonRoundTrip
  import opened Parsing
  import opened Sequences
  import opened TextSearch
  import opened PrintedFields

  /** Nowhere in the text is the quoted name followed by a colon. */
  ghost predicate Silent(text: Text, key: string) {
    SilentFrom(text, key, 0)
  }

  ghost predicate SilentFrom(text: Text, key: string, from: nat) {
    forall p :: from <= p <= |text| ==> AfterColon(text[p..], key).None?
  }

  lemma ColonNeedsName(text: Text, key: string, p: nat)
    requires p <= |text|
    ensures AfterColon(text[p..], key).Some? ==> OccursAt(text, Enclosed(Ascii(key)), p)
  {
    var m, s := Enclosed(Ascii(key)), text[p..];
    assert QuotedName(key) == m;
    if m <= s {
      assert forall i {:trigger m[i]} :: 0 <= i < |m| ==> s[i] == m[i] && s[i] == text[p + i];
    }
  }

  // ------------------------------------------------------------------ searching past a silent part

  /** Both searches go past a part in which the name they look for is followed by no colon. */
  lemma {:induction false} SearchPast(head: Text, tail: Text, key: string)
    requires forall p :: 0 <= p < |head| ==> AfterColon((head + tail)[p..], key).None?
    ensures key == "is_error" ==> FindsTrue(head + tail) == FindsTrue(tail)
    ensures key == "confidence" ==> FindConfidence(head + tail) == FindConfidence(tail)
  {
    if head == [] {
      Nothing(tail);
    } else {
      Behead(head, tail);
      assert (head + tail)[0..] == head + tail;
      forall p | 0 <= p < |head[1..]| ensures AfterColon((head[1..] + tail)[p..], key).None? {
        DropMore(head + tail, 1, p);
      }
      SearchPast(head[1..], tail, key);
    }
  }

  lemma SilentEnd(text: Text, key: string)
    ensures AfterColon([], key).None?
  {
  }

  lemma SilentFindsNothing(text: Text, key: string)
    requires Silent(text, key)
    ensures key == "is_error" ==> !FindsTrue(text)
    ensures key == "confidence" ==> FindConfidence(text).None?
  {
    SilentEnd(text, "is_error");
    SilentEnd(text, "confidence");
    Nothing(text);
    SearchPast(text, [], key);
  }

  /** Only the start of the text counts. */
  lemma SearchAtStart(text: Text, key: string)
    requires SilentFrom(text, key, 1)
    ensures key == "is_error" ==> FindsTrue(text) == SaysTrue(text)
    ensures key == "confidence" ==> FindConfidence(text) == ConfidenceAt(text)
  {
    if text != [] {
      forall p | 0 <= p <= |text[1..]| ensures AfterColon(text[1..][p..], key).None? {
        DropMore(text, 1, p);
      }
      SilentFindsNothing(text[1..], key);
    }
  }

  lemma SilentJoined(head: Text, tail: Text, key: string, from: nat)
    requires forall p :: from <= p < |head| ==> AfterColon((head + tail)[p..], key).None?
    requires Silent(tail, key)
    ensures SilentFrom(head + tail, key, from)
  {
    forall p | from <= p <= |head + tail| ensures AfterColon((head + tail)[p..], key).None? {
      if p >= |head| {
        assert (head + tail)[p..] == tail[p - |head|..];
      }
    }
  }

  lemma QuietIsSilent(text: Text, key: string)
    requires QUOTE !in text
    ensures Silent(text, key)
  {
    forall p | 0 <= p <= |text| ensures AfterColon(text[p..], key).None? {
      ColonNeedsName(text, key, p);
      if p < |text| {
        Nothing(text);
        QuietOccurs(text, [], Ascii(key), p);
      }
    }
  }

  // ------------------------------------------------------------------ one member

  lemma NoColonBehind(entry: Text, rest: Text, key: string, at: nat)
    requires AfterMember(rest) && at + |key| + 2 == |entry|
    ensures AfterColon((entry + rest)[at..], key).None?
  {
    assert |QuotedName(key)| == |key| + 2;
    DropMore(entry + rest, at, |key| + 2);
    Drop(entry, rest);
    assert StripLeft(rest) == rest;
  }

  /** In a printed member no quoted name is followed by a colon but the member's own. */
  lemma EntrySilent(name: Text, value: Json, rest: Text, key: string, p: nat)
    requires PlainName(name) && PlainName(Ascii(key)) && Scalar(value) && Writable(value)
    requires AfterMember(rest) && Follows(rest) && (name != Ascii(key) || p > 0) && p < |EntryOf(name, value)|
    ensures AfterColon((EntryOf(name, value) + rest)[p..], key).None?
  {
    ColonNeedsName(EntryOf(name, value) + rest, key, p);
    if OccursAt(EntryOf(name, value) + rest, Enclosed(Ascii(key)), p) {
      EntryOccurs(name, value, rest, Ascii(key), p);
      NoColonBehind(EntryOf(name, value), rest, key, p);
    }
  }

  lemma CutSilent(name: Text, value: Json, key: string, c: nat)
    requires PlainName(name) && PlainName(Ascii(key)) && name != Ascii(key) && Scalar(value) && Writable(value)
    requires c < |EntryOf(name, value)|
    ensures Silent(EntryOf(name, value)[..c], key)
  {
    forall p | 0 <= p <= c ensures AfterColon(EntryOf(name, value)[..c][p..], key).None? {
      ColonNeedsName(EntryOf(name, value)[..c], key, p);
      NoneInCut(name, value, Ascii(key), c, p);
    }
  }

  lemma NameIsShort(key: string, text: Text)
    requires |text| <= |key| + 2
    ensures AfterColon(text, key).None?
  {
    if QuotedName(key) <= text {
      assert text[|QuotedName(key)|..] == [];
    }
  }

  lemma NameStands(key: string, rest: Text, value: Text)
    requires StripLeft(rest) == rest && rest != [] && rest[0] == ':' as int && StripLeft(rest[1..]) == value
    ensures AfterColon(QuotedName(key) + rest, key) == Some(value)
  {
    Drop(QuotedName(key), rest);
  }

  /** What follows the colon of a member whose name the text starts with. */
  lemma OwnColon(key: string, body: Text, c: nat)
    requires c <= |key| + 4 + |body| && body != [] && !IsWide(body[0])
    ensures AfterColon((QuotedName(key) + (COLON + body))[..c], key)
         == if c <= |key| + 2 then None else Some(if c <= |key| + 4 then [] else body[..c - |key| - 4])
  {
    var m := QuotedName(key);
    if c <= |m| {
      NameIsShort(key, (m + (COLON + body))[..c]);
    } else {
      var value := if c <= |m| + 2 then [] else body[..c - |m| - 2];
      var rest := if c <= |m| + 2 then COLON[..c - |m|] else COLON + value;
      TakePast(m, COLON + body, c);
      if c > |m| + 2 {
        TakePast(COLON, body, c - |m|);
      } else {
        assert (COLON + body)[..c - |m|] == COLON[..c - |m|];
      }
      ColonStripped(value, rest, c - |m|);
      NameStands(key, rest, value);
    }
  }

  lemma ColonStripped(value: Text, rest: Text, j: nat)
    requires 0 < j && (value != [] ==> !IsWide(value[0]))
    requires rest == if j <= 2 then COLON[..j] else COLON + value
    requires j <= 2 ==> value == []
    ensures StripLeft(rest) == rest && rest != [] && rest[0] == ':' as int && StripLeft(rest[1..]) == value
  {
    if j == 1 {
      assert rest == [58] && rest[1..] == [];
    } else if j == 2 {
      assert rest == [58, 32] && rest[1..] == [32] && rest[1..][1..] == [];
    } else {
      assert rest[1..] == [32] + value && rest[1..][1..] == value;
    }
  }

  // ------------------------------------------------------------------ all members

  ghost predicate NotNamed(members: Members, k: Text) {
    members.Member? ==> members.key != k && NotNamed(members.tail, k)
  }

  lemma CommaSilent(more: Text, key: string)
    requires Silent(more, key)
    ensures Silent(COMMA + more, key)
  {
    forall p | 0 <= p < |COMMA| ensures AfterColon((COMMA + more)[p..], key).None? {
      ColonNeedsName(COMMA + more, key, p);
      QuietOccurs(COMMA, more, Ascii(key), p);
    }
    SilentJoined(COMMA, more, key, 0);
  }

  lemma EntryThenSilent(name: Text, value: Json, rest: Text, key: string, from: nat)
    requires PlainName(name) && PlainName(Ascii(key)) && (name != Ascii(key) || from > 0) && Scalar(value)
             && Writable(value)
    requires AfterMember(rest) && Follows(rest) && Silent(rest, key)
    ensures SilentFrom(EntryOf(name, value) + rest, key, from)
  {
    forall p | from <= p < |EntryOf(name, value)| ensures AfterColon((EntryOf(name, value) + rest)[p..], key).None? {
      EntrySilent(name, value, rest, key, p);
    }
    SilentJoined(EntryOf(name, value), rest, key, from);
  }

  lemma RestSilent(tail: Members, key: string, d: nat)
    requires d <= |RestOf(tail)|
    requires 2 <= d && tail.Member? ==> d - 2 <= |Body(tail)| && Silent(Body(tail)[..d - 2], key)
    ensures Silent(RestOf(tail)[..d], key)
  {
    RestCut(tail, d);
    if d <= 1 || tail.NoMembers? {
      QuietIsSilent(RestOf(tail)[..d], key);
    } else {
      CommaSilent(Body(tail)[..d - 2], key);
    }
  }

  lemma MemberSilent(name: Text, value: Json, tail: Members, key: string, c: nat)
    requires PlainName(name) && PlainName(Ascii(key)) && name != Ascii(key) && Scalar(value) && Writable(value)
    requires c <= |Body(Member(name, value, tail))|
    requires |EntryOf(name, value)| <= c ==>
      c - |EntryOf(name, value)| <= |RestOf(tail)| && Silent(RestOf(tail)[..c - |EntryOf(name, value)|], key)
    ensures Silent(Body(Member(name, value, tail))[..c], key)
  {
    var end := |EntryOf(name, value)|;
    BodyCut(name, value, tail, c);
    if c < end {
      CutSilent(name, value, key, c);
    } else {
      RestFollows(tail, c - end);
      EntryThenSilent(name, value, RestOf(tail)[..c - end], key, 0);
    }
  }

  lemma RestFits(name: Text, value: Json, tail: Members, c: nat)
    requires c <= |Body(Member(name, value, tail))| && |EntryOf(name, value)| <= c
    ensures c - |EntryOf(name, value)| <= |RestOf(tail)|
    ensures 2 <= c - |EntryOf(name, value)| && tail.Member? ==> c - |EntryOf(name, value)| - 2 <= |Body(tail)|
  {
    BodySplits(name, value, tail);
  }

  ghost predicate SilentUpTo(tail: Members, key: string) {
    forall d: nat :: d <= |Body(tail)| ==> Silent(Body(tail)[..d], key)
  }

  lemma RestAllSilent(tail: Members, key: string, d: nat)
    requires d <= |RestOf(tail)| && SilentUpTo(tail, key)
    ensures Silent(RestOf(tail)[..d], key)
  {
    RestCut(tail, d);
    RestSilent(tail, key, d);
  }

  /** Members of other names never show the field, whatever is in their strings. */
  lemma {:induction false} OthersSilent(members: Members, key: string)
    requires Fields(members) && PlainName(Ascii(key)) && NotNamed(members, Ascii(key))
    ensures SilentUpTo(members, key)
  {
    match members
    case NoMembers =>
      forall d: nat | d <= |Body(members)| ensures Silent(Body(members)[..d], key) {
        QuietIsSilent(Body(members)[..d], key);
      }
    case Member(name, value, tail) =>
      OthersSilent(tail, key);
      forall c: nat | c <= |Body(members)| ensures Silent(Body(members)[..c], key) {
        OtherSilent(name, value, tail, key, c);
      }
  }

  lemma OtherSilent(name: Text, value: Json, tail: Members, key: string, c: nat)
    requires PlainName(name) && PlainName(Ascii(key)) && name != Ascii(key) && Scalar(value) && Writable(value)
    requires c <= |Body(Member(name, value, tail))| && SilentUpTo(tail, key)
    ensures Silent(Body(Member(name, value, tail))[..c], key)
  {
    if |EntryOf(name, value)| <= c {
      RestFits(name, value, tail, c);
      RestAllSilent(tail, key, c - |EntryOf(name, value)|);
    }
    MemberSilent(name, value, tail, key, c);
  }

  /** Behind a member of another name the searches go on. */
  lemma SearchSkips(name: Text, value: Json, tail: Members, key: string, c: nat)
    requires PlainName(name) && name != Ascii(key) && PlainName(Ascii(key)) && Scalar(value) && Writable(value)
    requires |EntryOf(name, value)| + 2 <= c <= |Body(Member(name, value, tail))| && tail.Member?
    ensures c - |EntryOf(name, value)| - 2 <= |Body(tail)|
    ensures var all, rest := Body(Member(name, value, tail))[..c], Body(tail)[..c - |EntryOf(name, value)| - 2];
            && (key == "is_error" ==> FindsTrue(all) == FindsTrue(rest))
            && (key == "confidence" ==> FindConfidence(all) == FindConfidence(rest))
  {
    var end := |EntryOf(name, value)|;
    RestFits(name, value, tail, c);
    BodyCut(name, value, tail, c);
    RestFollows(tail, c - end);
    RestCut(tail, c - end);
    var rest, more := RestOf(tail)[..c - end], Body(tail)[..c - end - 2];
    forall p | 0 <= p < end ensures AfterColon((EntryOf(name, value) + rest)[p..], key).None? {
      EntrySilent(name, value, rest, key, p);
    }
    SearchPast(EntryOf(name, value), rest, key);
    CommaPast(more, key);
  }

  lemma CommaPast(more: Text, key: string)
    ensures key == "is_error" ==> FindsTrue(COMMA + more) == FindsTrue(more)
    ensures key == "confidence" ==> FindConfidence(COMMA + more) == FindConfidence(more)
  {
    forall p | 0 <= p < |COMMA| ensures AfterColon((COMMA + more)[p..], key).None? {
      ColonNeedsName(COMMA + more, key, p);
      QuietOccurs(COMMA, more, Ascii(key), p);
    }
    SearchPast(COMMA, more, key);
  }

  /** Before its member begins, nothing shows the field. */
  lemma NotYetFound(name: Text, value: Json, tail: Members, key: string, c: nat)
    requires PlainName(name) && name != Ascii(key) && PlainName(Ascii(key)) && Scalar(value) && Writable(value)
    requires c <= |EntryOf(name, value)| + 1 && c <= |Body(Member(name, value, tail))|
    ensures key == "is_error" ==> !FindsTrue(Body(Member(name, value, tail))[..c])
    ensures key == "confidence" ==> FindConfidence(Body(Member(name, value, tail))[..c]).None?
  {
    var end := |EntryOf(name, value)|;
    if end <= c {
      RestFits(name, value, tail, c);
      RestSilent(tail, key, c - end);
    }
    MemberSilent(name, value, tail, key, c);
    SilentFindsNothing(Body(Member(name, value, tail))[..c], key);
  }

  /** Behind the start of a member nothing shows the field that is named there. */
  lemma OwnSilent(key: string, value: Json, tail: Members, c: nat)
    requires PlainName(Ascii(key)) && Scalar(value) && Writable(value) && Fields(tail) && NotNamed(tail, Ascii(key))
    requires |EntryOf(Ascii(key), value)| <= c <= |Body(Member(Ascii(key), value, tail))|
    ensures SilentFrom(Body(Member(Ascii(key), value, tail))[..c], key, 1)
  {
    var d := c - |EntryOf(Ascii(key), value)|;
    RestFits(Ascii(key), value, tail, c);
    BodyCut(Ascii(key), value, tail, c);
    RestFollows(tail, d);
    OthersSilent(tail, key);
    RestAllSilent(tail, key, d);
    EntryThenSilent(Ascii(key), value, RestOf(tail)[..d], key, 1);
  }

  lemma WholeValue(key: string, val: Text, rest: Text, c: nat)
    requires val != [] && !IsWide(val[0]) && |key| + 4 + |val| <= c <= |key| + 4 + |val| + |rest|
    ensures AfterColon((QuotedName(key) + (COLON + (val + rest)))[..c], key)
         == Some(val + rest[..c - |key| - 4 - |val|])
  {
    Behead(val, rest);
    OwnColon(key, val + rest, c);
    TakePast(val, rest, c - |key| - 4);
  }

  lemma TakePast(a: Text, b: Text, n: nat)
    requires |a| <= n <= |a| + |b|
    ensures (a + b)[..n] == a + b[..n - |a|]
  {
  }

  lemma WholeMember(key: string, value: Json, tail: Members)
    requires PlainName(Ascii(key))
    ensures Body(Member(Ascii(key), value, tail)) == QuotedName(key) + (COLON + (Print(value) + RestOf(tail)))
    ensures |EntryOf(Ascii(key), value)| == |key| + 4 + |Print(value)|
  {
    BodySplits(Ascii(key), value, tail);
    EntryText(Ascii(key), value, RestOf(tail));
  }

  /** What is read behind the colon of a member whose value is there. */
  lemma OwnValue(key: string, value: Json, tail: Members, c: nat) returns (rest: Text)
    requires PlainName(Ascii(key)) && Scalar(value) && Writable(value)
    requires |EntryOf(Ascii(key), value)| <= c <= |Body(Member(Ascii(key), value, tail))|
    ensures AfterMember(rest)
    ensures AfterColon(Body(Member(Ascii(key), value, tail))[..c], key) == Some(Print(value) + rest)
  {
    var d := c - |EntryOf(Ascii(key), value)|;
    RestFits(Ascii(key), value, tail, c);
    WholeMember(key, value, tail);
    RestFollows(tail, d);
    rest := RestOf(tail)[..d];
    ValueBegins(value, []);
    Nothing(Print(value));
    WholeValue(key, Print(value), RestOf(tail), c);
  }

  // ------------------------------------------------------------------ where a member ends

  /** The member of that name, which occurs once. */
  ghost predicate OnceNamed(members: Members, k: Text, value: Json) {
    members.Member? &&
    if members.key == k then members.value == value && NotNamed(members.tail, k)
    else OnceNamed(members.tail, k, value)
  }

  /** How many characters lead up to the end of the member of that name. */
  function EndOf(members: Members, k: Text): nat {
    match members
    case NoMembers => 0
    case Member(name, value, tail) =>
      if name == k then |EntryOf(name, value)| else |EntryOf(name, value)| + 2 + EndOf(tail, k)
  }

  /** How many of the first `c` characters lie behind the place `at`. */
  function Behind(at: nat, c: nat): nat {
    if c <= at then 0 else c - at
  }

  lemma EntryColon(key: string, v: Json, c: nat)
    requires PlainName(Ascii(key)) && Scalar(v) && Writable(v) && c < |EntryOf(Ascii(key), v)|
    ensures Behind(|key| + 4, c) < |Print(v)|
    ensures AfterColon(EntryOf(Ascii(key), v)[..c], key)
         == if c <= |key| + 2 then None else Some(Print(v)[..Behind(|key| + 4, c)])
  {
    EntryText(Ascii(key), v, []);
    Nothing(Print(v));
    Nothing(EntryOf(Ascii(key), v));
    ValueBegins(v, []);
    assert QuotedName(key) == Enclosed(Ascii(key));
    OwnColon(key, Print(v), c);
  }

  // ------------------------------------------------------------------ the error flag

  /** Nothing but its own name stands in a member that is cut. */
  lemma OwnCutSilent(key: string, value: Json, c: nat)
    requires PlainName(Ascii(key)) && Scalar(value) && Writable(value) && c < |EntryOf(Ascii(key), value)|
    ensures SilentFrom(EntryOf(Ascii(key), value)[..c], key, 1)
  {
    var entry, k := EntryOf(Ascii(key), value), Ascii(key);
    forall p | 1 <= p <= c ensures AfterColon(entry[..c][p..], key).None? {
      ColonNeedsName(entry[..c], key, p);
      if OccursAt(entry[..c], Enclosed(k), p) {
        assert entry[..c] + entry[c..] == entry;
        OccursBefore(entry[..c], entry[c..], Enclosed(k), p);
        Nothing(entry);
        EntryOccurs(k, value, [], k, p);
      }
    }
  }

  lemma BoolPrints(b: bool, rest: Text)
    ensures Ascii("true") <= Print(Bool(b)) + rest <==> b
    ensures |Print(Bool(b))| == if b then 4 else 5
  {
    if !b {
      assert (Ascii("false") + rest)[0] != Ascii("true")[0];
    }
  }

  lemma BoolCut(b: bool, j: nat)
    requires j < |Print(Bool(b))|
    ensures !(Ascii("true") <= Print(Bool(b))[..j])
  {
    BoolPrints(b, []);
    if !b && j > 0 {
      assert Ascii("false")[..j][0] != Ascii("true")[0];
    }
  }

  lemma FlagWhole(b: bool, tail: Members, c: nat)
    requires PlainName(Ascii("is_error")) && Fields(tail) && NotNamed(tail, Ascii("is_error"))
    requires |EntryOf(Ascii("is_error"), Bool(b))| <= c <= |Body(Member(Ascii("is_error"), Bool(b), tail))|
    ensures FindsTrue(Body(Member(Ascii("is_error"), Bool(b), tail))[..c]) == b
  {
    OwnSilent("is_error", Bool(b), tail, c);
    SearchAtStart(Body(Member(Ascii("is_error"), Bool(b), tail))[..c], "is_error");
    var rest := OwnValue("is_error", Bool(b), tail, c);
    BoolPrints(b, rest);
  }

  lemma FlagCut(b: bool, tail: Members, c: nat)
    requires PlainName(Ascii("is_error"))
    requires c < |EntryOf(Ascii("is_error"), Bool(b))| && c <= |Body(Member(Ascii("is_error"), Bool(b), tail))|
    ensures !FindsTrue(Body(Member(Ascii("is_error"), Bool(b), tail))[..c])
  {
    BodyCut(Ascii("is_error"), Bool(b), tail, c);
    OwnCutSilent("is_error", Bool(b), c);
    SearchAtStart(EntryOf(Ascii("is_error"), Bool(b))[..c], "is_error");
    EntryColon("is_error", Bool(b), c);
    if c > |"is_error"| + 2 {
      BoolIsCut(EntryOf(Ascii("is_error"), Bool(b))[..c], b, Behind(|"is_error"| + 4, c));
    }
  }

  lemma BoolIsCut(s: Text, b: bool, j: nat)
    requires j <= |Print(Bool(b))| && AfterColon(s, "is_error") == Some(Print(Bool(b))[..j])
    ensures j < |Print(Bool(b))| ==> !SaysTrue(s)
  {
    if j < |Print(Bool(b))| {
      BoolCut(b, j);
    }
  }

  ghost predicate FlagAsShown(members: Members, b: bool, c: nat)
    requires c <= |Body(members)|
  {
    FindsTrue(Body(members)[..c]) == (b && EndOf(members, Ascii("is_error")) <= c)
  }

  lemma FlagBehind(name: Text, value: Json, tail: Members, b: bool, c: nat)
    requires PlainName(name) && name != Ascii("is_error") && PlainName(Ascii("is_error")) && Scalar(value)
             && Writable(value)
    requires tail.Member? && c <= |Body(Member(name, value, tail))|
    requires forall d: nat :: d <= |Body(tail)| ==> FlagAsShown(tail, b, d)
    ensures FlagAsShown(Member(name, value, tail), b, c)
  {
    if c <= |EntryOf(name, value)| + 1 {
      NotYetFound(name, value, tail, "is_error", c);
    } else {
      SearchSkips(name, value, tail, "is_error", c);
      assert FlagAsShown(tail, b, c - |EntryOf(name, value)| - 2);
    }
  }

  lemma FlagHere(b: bool, tail: Members, c: nat)
    requires PlainName(Ascii("is_error")) && Fields(tail) && NotNamed(tail, Ascii("is_error"))
    requires c <= |Body(Member(Ascii("is_error"), Bool(b), tail))|
    ensures FlagAsShown(Member(Ascii("is_error"), Bool(b), tail), b, c)
  {
    if c < |EntryOf(Ascii("is_error"), Bool(b))| {
      FlagCut(b, tail, c);
    } else {
      FlagWhole(b, tail, c);
    }
  }

  /** The search for a true error flag, in members that are cut anywhere: it is found exactly when it is
      there, whatever is in the strings. */
  lemma {:induction false} FlagShown(members: Members, b: bool, c: nat)
    requires Fields(members) && PlainName(Ascii("is_error")) && OnceNamed(members, Ascii("is_error"), Bool(b))
    requires c <= |Body(members)|
    ensures FlagAsShown(members, b, c)
  {
    match members
    case Member(name, value, tail) =>
      if name == Ascii("is_error") {
        FlagHere(b, tail, c);
      } else {
        forall d: nat | d <= |Body(tail)| ensures FlagAsShown(tail, b, d) {
          FlagShown(tail, b, d);
        }
        FlagBehind(name, value, tail, b, c);
      }
  }

  // ------------------------------------------------------------------ the confidence

  /** What the search for a confidence makes of a whole printed value: the digits and the fraction of a
      number without a sign, and nothing else. */
  function WithoutExponent(v: Json): Option<Number> {
    if v.Num? && !v.number.negative then Some(v.number.(exp := None)) else None
  }

  /** What it makes of the first `j` characters of it: the digits that are left, and of the fraction those
      behind the point, if there is one. */
  function StatedUpTo(v: Json, j: nat): Option<Number> {
    if v.Num? && !v.number.negative && j > 0 && v.number.whole != [] then Some(NumberUpTo(v.number, j)) else None
  }

  function NumberUpTo(n: Number, j: nat): Number {
    var point := |n.whole| + 1;
    Number(false, UpTo(n.whole, j), if n.frac.Some? && point < j then Some(UpTo(n.frac.value, j - point)) else None,
           None)
  }

  function UpTo<T>(s: seq<T>, j: nat): seq<T> {
    if j < |s| then s[..j] else s
  }

  lemma DigitCount(digits: seq<Digit>)
    ensures |PrintDigits(digits)| == |digits|
  {
  }

  lemma {:induction false} DigitsTaken(digits: seq<Digit>, j: nat)
    requires j <= |digits|
    ensures |PrintDigits(digits)| == |digits| && PrintDigits(digits)[..j] == PrintDigits(digits[..j])
  {
    DigitCount(digits);
    if j > 0 {
      DigitsTaken(digits[1..], j - 1);
      Taken(digits, j);
      assert digits[..j][1..] == digits[1..][..j - 1];
      assert PrintDigits(digits)[..j] == [digits[0] as int + 48] + PrintDigits(digits[1..])[..j - 1];
    }
  }

  lemma TailStart(n: Number)
    ensures var tail := FractionText(n.frac) + ExponentText(n.exp);
            && (tail == [] || !IsDigit(tail[0]))
            && (n.frac.None? ==> tail == [] || tail[0] != '.' as int)
            && (n.frac.Some? ==> tail == ['.' as int] + (PrintDigits(n.frac.value) + ExponentText(n.exp)))
  {
    ExponentStart(n.exp, []);
    Nothing(ExponentText(n.exp));
  }

  /** Digits, and something that is none behind them, cut anywhere. */
  lemma DigitsUpTo(digits: seq<Digit>, tail: Text, k: nat)
    requires (tail == [] || !IsDigit(tail[0])) && k <= |PrintDigits(digits) + tail|
    ensures SpanDigits((PrintDigits(digits) + tail)[..k]) == UpTo(digits, k)
  {
    DigitCount(digits);
    var cut := (PrintDigits(digits) + tail)[..k];
    if k <= |digits| {
      DigitsTaken(digits, k);
      DigitsRead(digits[..k], []);
      Nothing(PrintDigits(digits[..k]));
      assert cut == PrintDigits(digits[..k]);
    } else {
      TakePast(PrintDigits(digits), tail, k);
      DigitsRead(digits, tail[..k - |digits|]);
    }
  }

  /** The digits of a cut number, and what is left behind them. */
  lemma WholeUpTo(n: Number, j: nat)
    requires n.Valid() && !n.negative && j <= |PrintNumber(n)|
    ensures var s, tail := PrintNumber(n)[..j], FractionText(n.frac) + ExponentText(n.exp);
            && SpanDigits(s) == UpTo(n.whole, j) && |UpTo(n.whole, j)| <= |s|
            && (j <= |n.whole| ==> s[|UpTo(n.whole, j)|..] == [])
            && (|n.whole| < j ==> j - |n.whole| <= |tail| && s[|n.whole|..] == tail[..j - |n.whole|])
  {
    var tail := FractionText(n.frac) + ExponentText(n.exp);
    DigitCount(n.whole);
    assert PrintNumber(n) == PrintDigits(n.whole) + tail;
    TailStart(n);
    DigitsUpTo(n.whole, tail, j);
    BehindDigits(PrintDigits(n.whole), tail, j);
  }

  lemma BehindDigits(digits: Text, tail: Text, j: nat)
    requires j <= |digits| + |tail|
    ensures var s := (digits + tail)[..j];
            && (j <= |digits| ==> s[j..] == [])
            && (|digits| < j ==> s[|digits|..] == tail[..j - |digits|])
  {
    if |digits| < j {
      TakePast(digits, tail, j);
      Drop(digits, tail[..j - |digits|]);
    }
  }

  lemma PointUpTo(body: Text, i: nat)
    requires 0 < i <= 1 + |body|
    ensures var s := (['.' as int] + body)[..i]; s != [] && s[0] == '.' as int && s[1..] == body[..i - 1]
  {
  }

  lemma FractionUpTo(n: Number, i: nat)
    requires n.Valid() && 0 < i <= |FractionText(n.frac) + ExponentText(n.exp)|
    ensures DecodeFraction((FractionText(n.frac) + ExponentText(n.exp))[..i]).0
         == if n.frac.Some? && 1 < i then Some(UpTo(n.frac.value, i - 1)) else None
  {
    TailStart(n);
    if n.frac.Some? {
      ExponentStart(n.exp, []);
      Nothing(ExponentText(n.exp));
      PointUpTo(PrintDigits(n.frac.value) + ExponentText(n.exp), i);
      DigitsUpTo(n.frac.value, ExponentText(n.exp), i - 1);
    }
  }

  /** The search reads the digits that are left of a number. */
  lemma NumberIsCut(n: Number, j: nat, s: Text)
    requires n.Valid() && !n.negative && j <= |PrintNumber(n)|
    requires AfterColon(s, "confidence") == Some(PrintNumber(n)[..j])
    ensures ConfidenceAt(s) == StatedUpTo(Num(n), j)
  {
    WholeUpTo(n, j);
    if |n.whole| < j {
      FractionUpTo(n, j - |n.whole|);
    }
  }

  lemma NumberParts(n: Number, post: Text)
    requires n.Valid() && !n.negative && Stops(post)
    ensures var s := PrintNumber(n) + post;
            && SpanDigits(s) == n.whole && |n.whole| <= |s|
            && DecodeFraction(s[|n.whole|..]).0 == n.frac
  {
    var exponent := ExponentText(n.exp) + post;
    var fraction := FractionText(n.frac) + exponent;
    NumberText(n, post);
    assert PrintNumber(n) + post == PrintDigits(n.whole) + fraction;
    ExponentStart(n.exp, post);
    assert n.frac.None? ==> fraction == exponent;
    DigitsRead(n.whole, fraction);
    FractionRead(n.frac, exponent);
  }

  /** With all its characters a number is read without its exponent. */
  lemma NumberIsWhole(v: Json, j: nat)
    requires Scalar(v) && Writable(v) && |Print(v)| <= j
    ensures StatedUpTo(v, j) == WithoutExponent(v)
  {
    if v.Num? && !v.number.negative {
      var n := v.number;
      NumberSize(n);
      if n.frac.Some? {
        DigitCount(n.frac.value);
      }
    }
  }

  lemma NumberSize(n: Number)
    requires n.Valid() && !n.negative
    ensures |n.whole| + (if n.frac.Some? then 1 + |n.frac.value| else 0) <= |PrintNumber(n)|
  {
    DigitCount(n.whole);
    if n.frac.Some? {
      DigitCount(n.frac.value);
    }
  }

  lemma ConfidenceReads(s: Text, v: Json, rest: Text)
    requires Scalar(v) && Writable(v) && AfterMember(rest) && AfterColon(s, "confidence") == Some(Print(v) + rest)
    ensures ConfidenceAt(s) == WithoutExponent(v)
  {
    ValueBegins(v, rest);
    if v.Num? && !v.number.negative {
      NumberParts(v.number, rest);
    }
  }

  lemma ConfidenceWhole(v: Json, tail: Members, c: nat)
    requires PlainName(Ascii("confidence")) && Scalar(v) && Writable(v) && Fields(tail)
    requires NotNamed(tail, Ascii("confidence"))
    requires |EntryOf(Ascii("confidence"), v)| <= c <= |Body(Member(Ascii("confidence"), v, tail))|
    ensures FindConfidence(Body(Member(Ascii("confidence"), v, tail))[..c]) == WithoutExponent(v)
  {
    OwnSilent("confidence", v, tail, c);
    SearchAtStart(Body(Member(Ascii("confidence"), v, tail))[..c], "confidence");
    var rest := OwnValue("confidence", v, tail, c);
    ConfidenceReads(Body(Member(Ascii("confidence"), v, tail))[..c], v, rest);
  }

  /** Of a value that is cut, the first `j` characters are read. */
  lemma ValueIsCut(s: Text, v: Json, j: nat)
    requires Scalar(v) && Writable(v) && j <= |Print(v)| && AfterColon(s, "confidence") == Some(Print(v)[..j])
    ensures ConfidenceAt(s) == StatedUpTo(v, j)
  {
    ValueBegins(v, []);
    Nothing(Print(v));
    if v.Num? && !v.number.negative {
      NumberIsCut(v.number, j, s);
    } else if j > 0 {
      assert Print(v)[..j][0] == Print(v)[0];
    }
  }

  lemma ConfidenceCut(v: Json, tail: Members, c: nat)
    requires PlainName(Ascii("confidence")) && Scalar(v) && Writable(v)
    requires c < |EntryOf(Ascii("confidence"), v)| && c <= |Body(Member(Ascii("confidence"), v, tail))|
    ensures FindConfidence(Body(Member(Ascii("confidence"), v, tail))[..c])
         == StatedUpTo(v, Behind(|"confidence"| + 4, c))
  {
    BodyCut(Ascii("confidence"), v, tail, c);
    OwnCutSilent("confidence", v, c);
    SearchAtStart(EntryOf(Ascii("confidence"), v)[..c], "confidence");
    EntryColon("confidence", v, c);
    if c > |"confidence"| + 2 {
      ValueIsCut(EntryOf(Ascii("confidence"), v)[..c], v, Behind(|"confidence"| + 4, c));
    }
  }

  /** Where the value of the member of that name begins. */
  function ValueAt(members: Members, key: string): nat {
    match members
    case NoMembers => 0
    case Member(name, value, tail) =>
      if name == Ascii(key) then |key| + 4 else |EntryOf(name, value)| + 2 + ValueAt(tail, key)
  }

  ghost predicate ConfidenceAsShown(members: Members, v: Json, c: nat)
    requires c <= |Body(members)|
  {
    FindConfidence(Body(members)[..c]) == StatedUpTo(v, Behind(ValueAt(members, "confidence"), c))
  }

  lemma BehindMember(name: Text, value: Json, tail: Members, key: string, c: nat)
    requires name != Ascii(key)
    ensures Behind(ValueAt(Member(name, value, tail), key), c)
         == if c <= |EntryOf(name, value)| + 1 then 0
            else Behind(ValueAt(tail, key), c - |EntryOf(name, value)| - 2)
  {
  }

  lemma ConfidenceBehind(name: Text, value: Json, tail: Members, v: Json, c: nat)
    requires PlainName(name) && name != Ascii("confidence") && PlainName(Ascii("confidence"))
    requires Scalar(value) && Writable(value) && tail.Member? && c <= |Body(Member(name, value, tail))|
    requires forall d: nat :: d <= |Body(tail)| ==> ConfidenceAsShown(tail, v, d)
    ensures ConfidenceAsShown(Member(name, value, tail), v, c)
  {
    BehindMember(name, value, tail, "confidence", c);
    if c <= |EntryOf(name, value)| + 1 {
      NotYetFound(name, value, tail, "confidence", c);
    } else {
      SearchSkips(name, value, tail, "confidence", c);
      assert ConfidenceAsShown(tail, v, c - |EntryOf(name, value)| - 2);
    }
  }

  lemma ConfidenceHere(v: Json, tail: Members, c: nat)
    requires PlainName(Ascii("confidence")) && Scalar(v) && Writable(v) && Fields(tail)
    requires NotNamed(tail, Ascii("confidence")) && c <= |Body(Member(Ascii("confidence"), v, tail))|
    ensures ConfidenceAsShown(Member(Ascii("confidence"), v, tail), v, c)
  {
    if c < |EntryOf(Ascii("confidence"), v)| {
      ConfidenceCut(v, tail, c);
    } else {
      WholeMember("confidence", v, tail);
      ConfidenceWhole(v, tail, c);
      NumberIsWhole(v, Behind(|"confidence"| + 4, c));
    }
  }

  /** The search for a confidence in members that are cut anywhere: it reads the digits that are left of a
      number without a sign, and nothing else, whatever is in the strings. */
  lemma {:induction false} ConfidenceShown(members: Members, v: Json, c: nat)
    requires Fields(members) && PlainName(Ascii("confidence")) && OnceNamed(members, Ascii("confidence"), v)
    requires c <= |Body(members)|
    ensures ConfidenceAsShown(members, v, c)
  {
    match members
    case Member(name, value, tail) =>
      if name == Ascii("confidence") {
        ConfidenceHere(v, tail, c);
      } else {
        forall d: nat | d <= |Body(tail)| ensures ConfidenceAsShown(tail, v, d) {
          ConfidenceShown(tail, v, d);
        }
        ConfidenceBehind(name, value, tail, v, c);
      }
  }

  lemma NoConfidenceShown(members: Members, c: nat)
    requires Fields(members) && PlainName(Ascii("confidence")) && NotNamed(members, Ascii("confidence"))
    requires c <= |Body(members)|
    ensures FindConfidence(Body(members)[..c]).None?
  {
    OthersSilent(members, "confidence");
    SilentFindsNothing(Body(members)[..c], "confidence");
  }
}
