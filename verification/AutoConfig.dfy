/** Choosing a serving configuration: the menu a corpus gets, and an improve-or-hold search over it. */
module AutoConfig {
  import opened Options
  import opened Sequences

  datatype Label =
    | Base | Reason | ReasonKb | ReasonVerify | ReasonWorkspace | ReasonFetch | RagDeep
    | Other(text: string)

  datatype Config = Config(reasoning: bool, knowledge: bool, verify: bool, workspace: bool, fetch: bool, deep: bool)

  datatype Candidate = Candidate(name: Label, config: Config)

  const BASE := Candidate(Base, Config(false, false, false, false, false, false))
  const REASON := Candidate(Reason, Config(true, false, false, false, false, false))
  const REASON_KB := Candidate(ReasonKb, Config(true, true, false, false, false, false))
  const REASON_VERIFY := Candidate(ReasonVerify, Config(true, false, true, false, false, false))
  const WORKSPACE := Candidate(ReasonWorkspace, Config(true, false, false, true, false, false))
  const FETCH := Candidate(ReasonFetch, Config(true, false, false, false, true, false))
  const RAG_DEEP := Candidate(RagDeep, Config(false, false, false, false, false, true))

  const MARGIN := 0.01

  // ------------------------------------------------------------------ menus

  /** What the traces look like, at no cost. */
  datatype Signature = Signature(curlGetShare: real, meanObsChars: real, toolCallShare: real)

  /** The one configuration the lever matrix predicts to be strongest. */
  function SignatureEstimate(s: Signature, hasPins: bool): Candidate {
    if s.toolCallShare >= 0.5 then REASON
    else if s.curlGetShare >= 0.1 then FETCH
    else if hasPins then WORKSPACE
    else if s.meanObsChars >= 600.0 then REASON_KB
    else REASON
  }

  predicate Expensive(c: Candidate) {
    c.name == RagDeep || c.name == ReasonKb || c.name == ReasonVerify
  }

  /** The measured serve cost, as a rank. */
  function Price(c: Candidate): int {
    match c.name
    case Base => 0
    case Reason => 1
    case ReasonWorkspace => 2
    case ReasonFetch => 3
    case RagDeep => 4
    case ReasonKb => 5
    case ReasonVerify => 6
    case Other(_) => 7
  }

  /** Which levers can matter here: grounding needs something to ground in, deliberation a free-form
      corpus, verification a content-heavy one as well, unless the whole ladder is asked for. */
  predicate CanMatter(c: Candidate, s: Signature, fullLadder: bool, hasPins: bool) {
    || c == BASE || c == REASON || c == RAG_DEEP
    || (c == WORKSPACE && hasPins)
    || (c == FETCH && s.curlGetShare >= 0.1)
    || (c == REASON_KB && (fullLadder || s.toolCallShare < 0.5))
    || (c == REASON_VERIFY && (fullLadder || (s.toolCallShare < 0.5 && s.meanObsChars >= 600.0)))
  }

  ghost predicate CheapestFirst(menu: seq<Candidate>) {
    forall i, j :: 0 <= i < j < |menu| ==> Price(menu[i]) < Price(menu[j])
  }

  /** A menu offers exactly the levers that can matter, the cheap ones only when that is asked for, and
      the cheapest first. */
  ghost predicate IsMenu(menu: seq<Candidate>, s: Signature, fullLadder: bool, hasPins: bool, cheapOnly: bool) {
    && CheapestFirst(menu)
    && forall c :: c in menu <==> CanMatter(c, s, fullLadder, hasPins) && !(cheapOnly && Expensive(c))
  }

  function CheapOf(candidates: seq<Candidate>): seq<Candidate> {
    if candidates == [] then []
    else (if Expensive(candidates[0]) then [] else [candidates[0]]) + CheapOf(candidates[1..])
  }

  lemma {:induction false} CheapMembers(candidates: seq<Candidate>, c: Candidate)
    ensures c in CheapOf(candidates) <==> c in candidates && !Expensive(c)
  {
    if candidates != [] {
      var first, rest := candidates[0], candidates[1..];
      CheapMembers(rest, c);
      assert c in candidates <==> c == first || c in rest;
    }
  }

  lemma {:induction false} CheapKeepsOrder(candidates: seq<Candidate>)
    requires CheapestFirst(candidates)
    ensures CheapestFirst(CheapOf(candidates))
  {
    if candidates != [] {
      var first, rest := candidates[0], candidates[1..];
      CheapKeepsOrder(rest);
      forall i | 0 <= i < |CheapOf(rest)| ensures Price(first) < Price(CheapOf(rest)[i]) {
        var c := CheapOf(rest)[i];
        CheapMembers(rest, c);
        var j :| 0 <= j < |rest| && rest[j] == c;
        assert candidates[j + 1] == c;
      }
      CheapestBefore(first, CheapOf(rest));
    }
  }

  lemma CheapestBefore(first: Candidate, rest: seq<Candidate>)
    requires CheapestFirst(rest) && forall i :: 0 <= i < |rest| ==> Price(first) < Price(rest[i])
    ensures CheapestFirst([first] + rest)
  {
  }

  /** `menu` is the part of the ladder up to the price `most`. */
  ghost predicate LadderTo(menu: seq<Candidate>, most: int, s: Signature, fullLadder: bool, hasPins: bool) {
    && CheapestFirst(menu)
    && forall c :: c in menu <==> CanMatter(c, s, fullLadder, hasPins) && Price(c) <= most
  }

  lemma Climb(menu: seq<Candidate>, c: Candidate, s: Signature, fullLadder: bool, hasPins: bool)
    requires LadderTo(menu, Price(c) - 1, s, fullLadder, hasPins)
    requires c in {WORKSPACE, FETCH, RAG_DEEP, REASON_KB, REASON_VERIFY}
    ensures CanMatter(c, s, fullLadder, hasPins) ==> LadderTo(menu + [c], Price(c), s, fullLadder, hasPins)
    ensures !CanMatter(c, s, fullLadder, hasPins) ==> LadderTo(menu, Price(c), s, fullLadder, hasPins)
  {
    forall i | 0 <= i < |menu| ensures Price(menu[i]) < Price(c) {
      assert menu[i] in menu;
    }
  }

  /** The levers up to retrieval depth: nearly free, or never gated. */
  method CheapRungs(s: Signature, fullLadder: bool, hasPins: bool) returns (chosen: seq<Candidate>)
    ensures LadderTo(chosen, 4, s, fullLadder, hasPins)
  {
    chosen := [BASE, REASON];
    assert LadderTo(chosen, 1, s, fullLadder, hasPins);
    Climb(chosen, WORKSPACE, s, fullLadder, hasPins);
    if hasPins {
      chosen := chosen + [WORKSPACE];
    }
    Climb(chosen, FETCH, s, fullLadder, hasPins);
    if s.curlGetShare >= 0.1 {
      chosen := chosen + [FETCH];
    }
    Climb(chosen, RAG_DEEP, s, fullLadder, hasPins);
    chosen := chosen + [RAG_DEEP];
  }

  method Ladder(s: Signature, fullLadder: bool, hasPins: bool) returns (chosen: seq<Candidate>)
    ensures LadderTo(chosen, 6, s, fullLadder, hasPins)
  {
    chosen := CheapRungs(s, fullLadder, hasPins);
    Climb(chosen, REASON_KB, s, fullLadder, hasPins);
    if fullLadder || s.toolCallShare < 0.5 {
      chosen := chosen + [REASON_KB];
    }
    Climb(chosen, REASON_VERIFY, s, fullLadder, hasPins);
    if fullLadder || (s.toolCallShare < 0.5 && s.meanObsChars >= 600.0) {
      chosen := chosen + [REASON_VERIFY];
    }
  }

  /** Ladder the candidates that can matter, cheapest first. */
  method SelectCandidates(s: Signature, fullLadder: bool, hasPins: bool, cheapOnly: bool)
    returns (chosen: seq<Candidate>)
    ensures IsMenu(chosen, s, fullLadder, hasPins, cheapOnly)
  {
    chosen := Ladder(s, fullLadder, hasPins);
    if cheapOnly {
      CheapKeepsOrder(chosen);
      forall c ensures c in CheapOf(chosen) <==> c in chosen && !Expensive(c) {
        CheapMembers(chosen, c);
      }
      chosen := CheapOf(chosen);
    }
  }

  /** Price order and the gates leave no freedom: there is one menu for a corpus and a tier. */
  lemma {:induction false} OneMenu(a: seq<Candidate>, b: seq<Candidate>)
    requires CheapestFirst(a) && CheapestFirst(b) && forall c :: c in a <==> c in b
    ensures a == b
  {
    if a == [] || b == [] {
      Nobody(a, b);
      Nobody(b, a);
    } else {
      assert a[0] in b && b[0] in a;
      var i :| 0 <= i < |b| && b[i] == a[0];
      var j :| 0 <= j < |a| && a[j] == b[0];
      assert i == 0;
      forall c ensures c in a[1..] <==> c in b[1..] {
        InTail(a, c);
        InTail(b, c);
      }
      OneMenu(a[1..], b[1..]);
    }
  }

  lemma Nobody(a: seq<Candidate>, b: seq<Candidate>)
    requires forall c :: c in a ==> c in b
    ensures b == [] ==> a == []
  {
    if a != [] {
      assert a[0] in b;
    }
  }

  lemma InTail(menu: seq<Candidate>, c: Candidate)
    requires menu != [] && CheapestFirst(menu)
    ensures c in menu[1..] <==> c in menu && c != menu[0]
  {
    assert menu == [menu[0]] + menu[1..];
    if c in menu[1..] {
      var i :| 0 <= i < |menu[1..]| && menu[1..][i] == c;
      assert menu[i + 1] == c;
    }
  }

  /** Monotone tiers: the floor that the low tier ships is on the menu of every searching tier, and on
      the truncated menu exactly unless it is the knowledge-base configuration. */
  lemma EstimateIsOnTheMenu(menu: seq<Candidate>, s: Signature, fullLadder: bool, hasPins: bool, cheapOnly: bool)
    requires IsMenu(menu, s, fullLadder, hasPins, cheapOnly)
    ensures SignatureEstimate(s, hasPins) in menu
       <==> !(cheapOnly && s.toolCallShare < 0.5 && s.curlGetShare < 0.1 && !hasPins && s.meanObsChars >= 600.0)
  {
    assert CanMatter(SignatureEstimate(s, hasPins), s, fullLadder, hasPins);
  }

  // ------------------------------------------------------------------ the search

  predicate Named(candidates: seq<Candidate>, name: Label) {
    exists i :: 0 <= i < |candidates| && candidates[i].name == name
  }

  /** The incumbent is always scored on the same sample. */
  function Field(candidates: seq<Candidate>, incumbent: Option<Candidate>): seq<Candidate> {
    if incumbent.Some? && !Named(candidates, incumbent.value.name) then [incumbent.value] + candidates else candidates
  }

  /** `k` is the last candidate of its name, the one whose score is reported. */
  predicate LastNamed(field: seq<Candidate>, name: Label, k: nat) {
    k < |field| && field[k].name == name && forall j :: k < j < |field| ==> field[j].name != name
  }

  /** The reported scores: by name, a later candidate overwriting an earlier one of the same name. */
  ghost predicate Reports(scores: map<Label, real>, field: seq<Candidate>, score: nat -> real) {
    && (forall name :: name in scores <==> Named(field, name))
    && (forall name, k: nat :: LastNamed(field, name, k) ==> name in scores && scores[name] == score(k))
  }

  /** `k` is the first of the candidates that score best among the first `n`. */
  ghost predicate FirstMaximum(score: nat -> real, n: nat, k: nat) {
    && k < n
    && (forall j: nat :: j < n ==> score(j) <= score(k))
    && (forall j: nat :: j < k ==> score(j) < score(k))
  }

  /** Improve or hold: another winner is the first maximum and beats the incumbent's reported score by
      more than the margin, and the incumbent is held exactly when the first maximum does not. */
  ghost predicate ImprovesOrHolds(winner: Candidate, scores: map<Label, real>, field: seq<Candidate>,
                                  incumbent: Candidate, score: nat -> real)
  {
    && incumbent.name in scores
    && exists k: nat ::
         && FirstMaximum(score, |field|, k)
         && if field[k].name == incumbent.name || score(k) > scores[incumbent.name] + MARGIN
            then winner == field[k]
            else winner.name == incumbent.name && winner in field
  }

  ghost predicate DistinctNames(field: seq<Candidate>) {
    forall i, j :: 0 <= i < j < |field| ==> field[i].name != field[j].name
  }

  /** Only the incumbent's name may be repeated. */
  ghost predicate OthersOnce(field: seq<Candidate>, name: Label) {
    forall i, j :: 0 <= i < j < |field| && field[i].name == field[j].name ==> field[i].name == name
  }

  lemma MenuNamesDistinct(menu: seq<Candidate>, s: Signature, fullLadder: bool, hasPins: bool, cheapOnly: bool)
    requires IsMenu(menu, s, fullLadder, hasPins, cheapOnly)
    ensures DistinctNames(menu) && menu != []
  {
    assert BASE in menu;
    forall i, j | 0 <= i < j < |menu| ensures menu[i].name != menu[j].name {
      assert Price(menu[i]) < Price(menu[j]);
    }
  }

  lemma FieldNamesDistinct(candidates: seq<Candidate>, incumbent: Option<Candidate>)
    requires DistinctNames(candidates)
    ensures DistinctNames(Field(candidates, incumbent))
  {
  }

  lemma FieldHasIncumbent(candidates: seq<Candidate>, incumbent: Candidate)
    ensures Named(Field(candidates, Some(incumbent)), incumbent.name)
  {
    var field := Field(candidates, Some(incumbent));
    if !Named(candidates, incumbent.name) {
      assert field[0].name == incumbent.name;
    }
  }

  lemma NamedTake(field: seq<Candidate>, i: nat, name: Label)
    requires i < |field|
    ensures Named(field[..i + 1], name) <==> Named(field[..i], name) || field[i].name == name
  {
    if Named(field[..i], name) {
      var j :| 0 <= j < i && field[..i][j].name == name;
      assert field[..i + 1][j].name == name;
    }
    assert field[..i + 1][i] == field[i];
  }

  lemma ReportsMore(scores: map<Label, real>, field: seq<Candidate>, score: nat -> real, i: nat)
    requires i < |field| && Reports(scores, field[..i], score)
    ensures Reports(scores[field[i].name := score(i)], field[..i + 1], score)
  {
    var more, now := field[..i + 1], scores[field[i].name := score(i)];
    forall name ensures name in now <==> Named(more, name) {
      NamedTake(field, i, name);
    }
    forall name, k: nat | LastNamed(more, name, k) ensures name in now && now[name] == score(k) {
      assert more[i] == field[i];
      if k < i {
        assert more[k] == field[..i][k];
        assert forall j :: k < j < i ==> field[..i][j] == more[j];
        assert LastNamed(field[..i], name, k);
      }
    }
  }

  /** Score every candidate of the field in order and keep the best one, or the incumbent. A fidelity
      is a mean of judgements in the unit interval; `score` gives it by place in the field. */
  method SearchMaxFidelity(given: Option<seq<Candidate>>, s: Signature, fullLadder: bool, hasPins: bool,
                           cheapOnly: bool, incumbent: Option<Candidate>, score: nat -> real)
    returns (winner: Candidate, scores: map<Label, real>, field: seq<Candidate>)
    requires given.Some? ==> given.value != [] || incumbent.Some?
    requires forall i :: 0.0 <= score(i)
    ensures given.Some? ==> field == Field(given.value, incumbent)
    ensures given.None? ==> DistinctNames(field)
    ensures given.None? ==>
      exists menu :: IsMenu(menu, s, fullLadder, hasPins, cheapOnly) && field == Field(menu, incumbent)
    ensures Reports(scores, field, score)
    ensures incumbent.None? ==> exists k: nat :: FirstMaximum(score, |field|, k) && winner == field[k]
    ensures incumbent.Some? ==> ImprovesOrHolds(winner, scores, field, incumbent.value, score)
    ensures incumbent.Some? && OthersOnce(field, incumbent.value.name) ==>
      winner.name in scores && scores[incumbent.value.name] <= scores[winner.name]
  {
    var candidates := [];
    if given.Some? {
      candidates := given.value;
    } else {
      candidates := SelectCandidates(s, fullLadder, hasPins, cheapOnly);
      MenuNamesDistinct(candidates, s, fullLadder, hasPins, cheapOnly);
      FieldNamesDistinct(candidates, incumbent);
    }
    field := Field(candidates, incumbent);
    if incumbent.Some? {
      FieldHasIncumbent(candidates, incumbent.value);
    }
    winner, scores := ScoreField(field, incumbent, score);
  }

  method ScoreField(field: seq<Candidate>, incumbent: Option<Candidate>, score: nat -> real)
    returns (winner: Candidate, scores: map<Label, real>)
    requires field != [] && forall i :: 0.0 <= score(i)
    requires incumbent.Some? ==> Named(field, incumbent.value.name)
    ensures Reports(scores, field, score)
    ensures incumbent.None? ==> exists k: nat :: FirstMaximum(score, |field|, k) && winner == field[k]
    ensures incumbent.Some? ==> ImprovesOrHolds(winner, scores, field, incumbent.value, score)
    ensures incumbent.Some? && OthersOnce(field, incumbent.value.name) ==>
      winner.name in scores && scores[incumbent.value.name] <= scores[winner.name]
  {
    scores := map[];
    winner := if incumbent.Some? then incumbent.value else field[0];
    var bestScore := -1.0;
    ghost var k: nat := 0;
    for i := 0 to |field|
      invariant Reports(scores, field[..i], score)
      invariant i == 0 ==> bestScore == -1.0
      invariant i > 0 ==> FirstMaximum(score, i, k) && winner == field[k] && bestScore == score(k)
    {
      ReportsMore(scores, field, score, i);
      scores := scores[field[i].name := score(i)];
      if score(i) > bestScore {
        winner, bestScore, k := field[i], score(i), i;
      }
    }
    assert field[..|field|] == field;
    if incumbent.Some? {
      var incumbentScore := scores[incumbent.value.name];
      if winner.name != incumbent.value.name && bestScore <= incumbentScore + MARGIN {
        winner := FirstNamed(field, incumbent.value.name);
      }
      ReportedScore(field, score, scores, incumbent.value.name, k);
    }
  }

  function FirstNamed(candidates: seq<Candidate>, name: Label): (c: Candidate)
    requires Named(candidates, name)
    ensures c in candidates && c.name == name
  {
    if candidates[0].name == name then candidates[0]
    else
      assert Named(candidates[1..], name) by {
        var i :| 0 <= i < |candidates| && candidates[i].name == name;
        assert candidates[1..][i - 1].name == name;
      }
      FirstNamed(candidates[1..], name)
  }

  /** A name that occurs once is reported with its one score. */
  lemma ReportedScore(field: seq<Candidate>, score: nat -> real, scores: map<Label, real>, name: Label, k: nat)
    requires Reports(scores, field, score) && k < |field|
    ensures OthersOnce(field, name) && field[k].name != name ==>
              field[k].name in scores && scores[field[k].name] == score(k)
  {
    if OthersOnce(field, name) && field[k].name != name {
      assert LastNamed(field, field[k].name, k);
    }
  }

  // ------------------------------------------------------------------ repeated names

  lemma LastOf(field: seq<Candidate>, name: Label) returns (k: nat)
    requires Named(field, name)
    ensures LastNamed(field, name, k)
  {
    k := |field| - 1;
    while field[k].name != name
      invariant k < |field| && forall j :: k < j < |field| ==> field[j].name != name
      decreases k
    {
      var i :| 0 <= i < |field| && field[i].name == name;
      k := k - 1;
    }
  }

  /** The winner's reported score is below the incumbent's. */
  ghost predicate FallsBelow(field: seq<Candidate>, incumbent: Candidate, score: nat -> real) {
    exists winner, scores: map<Label, real> ::
      && Reports(scores, field, score) && ImprovesOrHolds(winner, scores, field, incumbent, score)
      && winner.name in scores && scores[winner.name] < scores[incumbent.name]
  }

  ghost predicate Fidelities(score: nat -> real) {
    forall i :: 0.0 <= score(i) <= 1.0
  }

  /** Scores with which the earlier of two candidates of one name wins and the later one is reported. */
  function Misleading(i: nat, j: nat, last: nat): nat -> real {
    (n: nat) => if n == i then 0.9 else if n == j then 0.1 else if n == last then 0.5 else 0.0
  }

  lemma NoFallWhenOnce(field: seq<Candidate>, incumbent: Candidate, score: nat -> real)
    requires OthersOnce(field, incumbent.name)
    ensures !FallsBelow(field, incumbent, score)
  {
    forall winner, scores: map<Label, real>
      | && Reports(scores, field, score) && ImprovesOrHolds(winner, scores, field, incumbent, score)
        && winner.name in scores
      ensures scores[incumbent.name] <= scores[winner.name]
    {
      var k: nat :| FirstMaximum(score, |field|, k)
        && if field[k].name == incumbent.name || score(k) > scores[incumbent.name] + MARGIN
           then winner == field[k]
           else winner.name == incumbent.name && winner in field;
      ReportedScore(field, score, scores, incumbent.name, k);
    }
  }

  /** The report of a field: every name with the score of its last candidate. */
  lemma {:induction false} ReportOf(field: seq<Candidate>, score: nat -> real, n: nat)
    returns (scores: map<Label, real>)
    requires n <= |field|
    ensures Reports(scores, field[..n], score)
  {
    if n == 0 {
      scores := map[];
    } else {
      scores := ReportOf(field, score, n - 1);
      ReportsMore(scores, field, score, n - 1);
      scores := scores[field[n - 1].name := score(n - 1)];
    }
  }

  lemma FallsWhenRepeated(field: seq<Candidate>, incumbent: Candidate, i: nat, j: nat)
    requires Named(field, incumbent.name) && i < j < |field|
    requires field[i].name == field[j].name != incumbent.name
    ensures exists score :: Fidelities(score) && FallsBelow(field, incumbent, score)
  {
    assert Named(field, field[j].name);
    var k := LastOf(field, field[j].name);
    var last := LastOf(field, incumbent.name);
    var score := Misleading(i, k, last);
    assert Fidelities(score);
    var scores := ReportOf(field, score, |field|);
    assert field[..|field|] == field;
    assert scores[field[j].name] == 0.1 && scores[incumbent.name] == 0.5;
    assert FirstMaximum(score, |field|, i);
    assert ImprovesOrHolds(field[i], scores, field, incumbent, score);
    assert FallsBelow(field, incumbent, score);
  }

  /** Whatever the scores, the reported winner never falls below the reported incumbent: exactly the
      fields in which no other name than the incumbent's is repeated. */
  lemma NeverFallsBelow(field: seq<Candidate>, incumbent: Candidate)
    requires Named(field, incumbent.name)
    ensures (forall score :: Fidelities(score) ==> !FallsBelow(field, incumbent, score))
       <==> OthersOnce(field, incumbent.name)
  {
    if OthersOnce(field, incumbent.name) {
      forall score | Fidelities(score) ensures !FallsBelow(field, incumbent, score) {
        NoFallWhenOnce(field, incumbent, score);
      }
    } else {
      var i, j :| 0 <= i < j < |field| && field[i].name == field[j].name && field[i].name != incumbent.name;
      FallsWhenRepeated(field, incumbent, i, j);
    }
  }
}
