/** Sessions of the world model: state that is folded in place, a history of deep copies, teacher-forced
    replay, and the budgeted grounding search. */
module WorldModel {
  import opened Options
  import opened CodePoints
  import opened Json
  import opened Parsing
  import opened MarkedText
  import opened Knowledge
  import opened PlainReplies
  import opened Sequences
  import opened TextFiles

  // ------------------------------------------------------------------ the state of an environment

  datatype StateValue = StateValue(scratchpad: Text, structured: map<string, Json>)

  class EnvState {
    var scratchpad: Text
    var structured: map<string, Json>

    constructor (value: StateValue)
      ensures Value() == value
    {
      scratchpad, structured := value.scratchpad, value.structured;
    }

    function Value(): StateValue
      reads this
    {
      StateValue(scratchpad, structured)
    }

    method DeepCopy() returns (copy: EnvState)
      ensures fresh(copy) && copy.Value() == Value()
    {
      copy := new EnvState(Value());
    }
  }

  type Action = Text

  datatype Step = Step(action: Action, observation: Observation, stateBefore: EnvState)

  datatype Recorded = Recorded(action: Action, observation: Observation)

  function Note(o: Observation, key: string): Text {
    if key in o.metadata && o.metadata[key].Str? then Strip(o.metadata[key].text) else []
  }

  /** The effect one observation has on the state: a log line is added, a profile is replaced. */
  function Folded(v: StateValue, o: Observation): StateValue {
    var note, update := Note(o, "state_note"), Note(o, "state_update");
    var separator := if v.scratchpad == [] then [] else v.scratchpad + [NEWLINE];
    StateValue(if note == [] then v.scratchpad else separator + (Ascii("- ") + note),
               if update == [] then v.structured else v.structured["profile" := Str(update)])
  }

  /** The text is what the observation says under the name, less the white space around it. */
  ghost predicate Said(o: Observation, key: string, text: Text) {
    if key in o.metadata && o.metadata[key].Str? then Trimmed(o.metadata[key].text, text) else text == []
  }

  lemma SaidOnce(o: Observation, key: string, text: Text)
    ensures Said(o, key, text) <==> text == Note(o, key)
  {
    if key in o.metadata && o.metadata[key].Str? {
      StripTrims(o.metadata[key].text);
      if Trimmed(o.metadata[key].text, text) {
        TrimmedOnce(o.metadata[key].text, text);
      }
    }
  }

  /** Under the log there is one more line, a dash, a blank and the note, if there is a note. */
  predicate Logged(before: Text, note: Text, after: Text) {
    if note == [] then after == before
    else if before == [] then after == [45, 32] + note
    else after == before + ([10, 45, 32] + note)
  }

  /** One observation further: its note has been logged, and its belief state has replaced the profile. */
  ghost predicate FoldedAs(v: StateValue, o: Observation, w: StateValue) {
    && (forall note :: Said(o, "state_note", note) ==> Logged(v.scratchpad, note, w.scratchpad))
    && (forall update :: Said(o, "state_update", update) ==>
          w.structured == if update == [] then v.structured else v.structured["profile" := Str(update)])
  }

  lemma FoldedLiterally(v: StateValue, o: Observation)
    ensures FoldedAs(v, o, Folded(v, o))
  {
    forall note ensures Said(o, "state_note", note) <==> note == Note(o, "state_note") {
      SaidOnce(o, "state_note", note);
    }
    forall update ensures Said(o, "state_update", update) <==> update == Note(o, "state_update") {
      SaidOnce(o, "state_update", update);
    }
    LogLine(v.scratchpad, Note(o, "state_note"));
  }

  lemma LogLine(before: Text, note: Text)
    ensures (before + [NEWLINE]) + (Ascii("- ") + note) == before + ([10, 45, 32] + note)
    ensures [] + (Ascii("- ") + note) == [45, 32] + note
  {
    assert Ascii("- ") == [45, 32] && NEWLINE == 10;
    Assoc(before, [NEWLINE], Ascii("- ") + note);
    Assoc([NEWLINE], [45, 32], note);
    assert [NEWLINE] + [45, 32] == [10, 45, 32];
    Nothing(Ascii("- ") + note);
  }

  function FoldAll(seed: StateValue, steps: seq<Recorded>): StateValue {
    if steps == [] then seed
    else Folded(FoldAll(seed, steps[..|steps| - 1]), steps[|steps| - 1].observation)
  }

  /** `values` are the states from the seed on, each one observation further. */
  ghost predicate Folds(seed: StateValue, records: seq<Recorded>, values: seq<StateValue>) {
    && |values| == |records| + 1 && values[0] == seed
    && forall i :: 0 <= i < |records| ==> values[i + 1] == Folded(values[i], records[i].observation)
  }

  lemma FoldsNext(seed: StateValue, records: seq<Recorded>, values: seq<StateValue>, r: Recorded)
    requires Folds(seed, records, values)
    ensures Folds(seed, records + [r], values + [Folded(values[|records|], r.observation)])
  {
    var n, next := |records|, Folded(values[|records|], r.observation);
    var more, all := records + [r], values + [next];
    assert all[n] == values[n] && all[n + 1] == next && more[n] == r && all[0] == seed;
    forall i | 0 <= i < |more| ensures all[i + 1] == Folded(all[i], more[i].observation) {
      if i < n {
        assert all[i] == values[i] && all[i + 1] == values[i + 1] && more[i] == records[i];
        assert values[i + 1] == Folded(values[i], records[i].observation);
      }
    }
  }

  lemma {:induction false} FoldsAreFolds(seed: StateValue, records: seq<Recorded>, values: seq<StateValue>, n: nat)
    requires Folds(seed, records, values) && n <= |records|
    ensures values[n] == FoldAll(seed, records[..n])
  {
    if n > 0 {
      FoldsAreFolds(seed, records, values, n - 1);
      assert records[..n][..n - 1] == records[..n - 1];
    }
  }

  /** What reaches the memory that all sessions share: the steps in the retrieval buffer and the facts
      handed to the knowledge base, while enriching is on. */
  class Memory {
    var enriching: bool
    var buffer: seq<Step>
    var noted: seq<Text>

    constructor ()
      ensures enriching && buffer == [] && noted == []
    {
      enriching, buffer, noted := true, [], [];
    }
  }

  /** The facts that these steps hand to the knowledge base. */
  function FactsOf(steps: seq<Recorded>): seq<Text> {
    if steps == [] then []
    else FactsOf(steps[..|steps| - 1]) + Fact(steps[|steps| - 1].observation)
  }

  function Fact(o: Observation): seq<Text> {
    if Note(o, "kb_note") == [] then [] else [Note(o, "kb_note")]
  }

  lemma FactLiterally(o: Observation)
    ensures forall fact :: Said(o, "kb_note", fact) ==> Fact(o) == if fact == [] then [] else [fact]
  {
    forall fact | Said(o, "kb_note", fact) ensures fact == Note(o, "kb_note") {
      SaidOnce(o, "kb_note", fact);
    }
  }

  /** What a session has recorded and the shared memory holds at one moment. */
  datatype Moment = Moment(records: seq<Recorded>, history: seq<Step>, copies: set<EnvState>,
                           buffer: seq<Step>, noted: seq<Text>)

  /** One moment is `more` recorded steps after another: the history has grown by them, and the shared
      memory by exactly them if the session enriches it. */
  ghost predicate Follows(before: Moment, after: Moment, more: seq<Recorded>, enriching: bool) {
    && after.records == before.records + more
    && before.history <= after.history && |after.history| == |before.history| + |more|
    && before.copies <= after.copies
    && after.buffer == before.buffer + (if enriching then after.history[|before.history|..] else [])
    && after.noted == before.noted + (if enriching then FactsOf(more) else [])
  }

  lemma {:induction false} FactsMore(a: seq<Recorded>, b: seq<Recorded>)
    ensures FactsOf(a + b) == FactsOf(a) + FactsOf(b)
  {
    if b == [] {
      Nothing(a);
      Nothing(FactsOf(a));
    } else {
      var n := |b| - 1;
      FactsMore(a, b[..n]);
      Unlast(a, b);
      Assoc(FactsOf(a), FactsOf(b[..n]), Fact(b[n].observation));
    }
  }

  lemma FactOfOne(r: Recorded)
    ensures FactsOf([r]) == Fact(r.observation)
  {
    assert [r][..0] == [];
    Nothing(Fact(r.observation));
  }

  lemma GrownMore<T>(a: seq<T>, b: seq<T>, c: seq<T>)
    requires a <= b <= c
    ensures c[|a|..] == b[|a|..] + c[|b|..]
  {
  }

  lemma FollowsBoth(a: Moment, b: Moment, c: Moment, x: seq<Recorded>, y: seq<Recorded>, enriching: bool)
    requires Follows(a, b, x, enriching) && Follows(b, c, y, enriching)
    ensures Follows(a, c, x + y, enriching)
  {
    Assoc(a.records, x, y);
    if enriching {
      FactsMore(x, y);
      GrownMore(a.history, b.history, c.history);
      Assoc(a.buffer, b.history[|a.history|..], c.history[|b.history|..]);
      Assoc(a.noted, FactsOf(x), FactsOf(y));
    } else {
      Nothing(a.buffer);
      Nothing(a.noted);
    }
  }

  lemma FollowsStep(a: Moment, r: Recorded, copy: EnvState, enriching: bool)
    ensures var step := Step(r.action, r.observation, copy);
            Follows(a, Moment(a.records + [r], a.history + [step], a.copies + {copy},
                              a.buffer + (if enriching then [step] else []),
                              a.noted + (if enriching then Fact(r.observation) else [])), [r], enriching)
  {
    FactOfOne(r);
    Drop(a.history, [Step(r.action, r.observation, copy)]);
  }

  lemma TakeNext<T>(steps: seq<T>, i: nat)
    requires i < |steps|
    ensures steps[..i + 1] == steps[..i] + [steps[i]]
  {
  }

  class Session {
    var state: EnvState
    var history: seq<Step>
    const id: nat
    const enrich: bool
    ghost const seed: StateValue
    ghost var records: seq<Recorded>
    ghost var values: seq<StateValue>
    ghost var copies: set<EnvState>

    constructor (id: nat, state: EnvState, enrich: bool)
      ensures this.state == state && this.id == id && this.enrich == enrich && history == [] && records == []
      ensures seed == state.Value() && copies == {} && Valid()
    {
      this.id, this.state, this.history, this.enrich, this.seed := id, state, [], enrich, state.Value();
      this.records, this.values, this.copies := [], [state.Value()], {};
    }

    /** Every recorded step holds its own copy of the state it started from; `values` are the states the
        session has gone through, each the fold of one more observation. */
    ghost predicate Remembers()
      reads this, copies
    {
      && |records| == |history| && Folds(seed, records, values)
      && forall i :: 0 <= i < |history| ==> RecordedAs(history[i], records[i], values[i])
    }

    ghost predicate RecordedAs(step: Step, record: Recorded, value: StateValue)
      reads this, copies
    {
      && step.action == record.action && step.observation == record.observation
      && step.stateBefore in copies && step.stateBefore.Value() == value
    }

    ghost predicate Valid()
      reads this, state, copies
    {
      state !in copies && Remembers() && state.Value() == values[|records|]
    }

    ghost function Now(memory: Memory): Moment
      reads this, memory
    {
      Moment(records, history, copies, memory.buffer, memory.noted)
    }

    ghost predicate Enriches(memory: Memory)
      reads memory
    {
      enrich && memory.enriching
    }

    /** Append the step with a deep copy of the state, fold its notes into the state in place, and enrich
        the shared memory. No earlier copy is touched. */
    method Advance(memory: Memory, action: Action, observation: Observation)
      requires Valid()
      modifies this`history, this`records, this`values, this`copies, state, memory`buffer, memory`noted
      ensures Valid() && fresh(copies - old(copies))
      ensures state.Value() == Folded(old(state.Value()), observation)
      ensures FoldedAs(old(state.Value()), observation, state.Value())
      ensures Follows(old(Now(memory)), Now(memory), [Recorded(action, observation)], Enriches(memory))
    {
      ghost var before := Now(memory);
      FoldedLiterally(state.Value(), observation);
      var copy := state.DeepCopy();
      Append(action, observation, copy);
      UpdateState(observation);
      Enrich(memory, observation);
      FollowsStep(before, Recorded(action, observation), copy, Enriches(memory));
    }

    /** The last step and its fact reach the shared memory only if both it and this session say so. */
    method Enrich(memory: Memory, observation: Observation)
      requires history != []
      modifies memory`buffer, memory`noted
      ensures memory.buffer == old(memory.buffer) + (if Enriches(memory) then [history[|history| - 1]] else [])
      ensures memory.noted == old(memory.noted) + (if Enriches(memory) then Fact(observation) else [])
    {
      if memory.enriching && enrich {
        UpdateKnowledge(memory, observation);
        memory.buffer := memory.buffer + [history[|history| - 1]];
      }
    }

    method Append(action: Action, observation: Observation, copy: EnvState)
      requires Remembers() && copy !in copies && copy.Value() == values[|records|]
      modifies this`history, this`records, this`values, this`copies
      ensures Remembers() && records == old(records) + [Recorded(action, observation)]
      ensures history == old(history) + [Step(action, observation, copy)] && copies == old(copies) + {copy}
      ensures values == old(values) + [Folded(copy.Value(), observation)]
    {
      FoldsNext(seed, records, values, Recorded(action, observation));
      history := history + [Step(action, observation, copy)];
      values := values + [Folded(copy.Value(), observation)];
      records, copies := records + [Recorded(action, observation)], copies + {copy};
    }

    method UpdateState(observation: Observation)
      modifies state
      ensures state.Value() == Folded(old(state.Value()), observation)
    {
      var note := Note(observation, "state_note");
      if note != [] {
        var prefix := if state.scratchpad != [] then state.scratchpad + [NEWLINE] else [];
        state.scratchpad := prefix + (Ascii("- ") + note);
      }
      var update := Note(observation, "state_update");
      if update != [] {
        state.structured := state.structured["profile" := Str(update)];
      }
    }

    method UpdateKnowledge(memory: Memory, observation: Observation)
      modifies memory`noted
      ensures memory.noted == old(memory.noted) + Fact(observation)
      ensures forall fact :: Said(observation, "kb_note", fact) ==>
                memory.noted == old(memory.noted) + if fact == [] then [] else [fact]
    {
      FactLiterally(observation);
      var note := Note(observation, "kb_note");
      if note != [] {
        memory.noted := memory.noted + [note];
      }
    }

    /** Predict, but advance with the recorded observation. A prediction that raises an error advances
        nothing. */
    method StepOpenLoop(memory: Memory, grounder: Grounder, action: Action, url: Option<Text>, actual: Observation,
                        verify: bool, answers: Answers)
      returns (prediction: Observation, raised: bool)
      requires Valid() && grounder.Valid()
      modifies this`history, this`records, this`values, this`copies, state, memory`buffer, memory`noted
      modifies grounder, grounder.knowledge
      ensures Valid() && fresh(copies - old(copies)) && grounder.Valid()
      ensures raised ==> Now(memory) == old(Now(memory))
      ensures !raised ==> Follows(old(Now(memory)), Now(memory), [Recorded(action, actual)], Enriches(memory))
      ensures grounder.Fine(url, answers) ==> !raised
      ensures !raised ==> Predicts(answers, grounder.live, verify, prediction)
    {
      prediction, raised := grounder.Predict(id, url, verify, answers);
      if !raised {
        Advance(memory, action, actual);
      }
    }

    method SeedNext(memory: Memory, ghost begin: Moment, steps: seq<Recorded>, i: nat)
      requires Valid() && i < |steps| && Follows(begin, Now(memory), steps[..i], Enriches(memory))
      modifies this`history, this`records, this`values, this`copies, state, memory`buffer, memory`noted
      ensures Valid() && fresh(copies - old(copies))
      ensures Follows(begin, Now(memory), steps[..i + 1], Enriches(memory))
    {
      ghost var before := Now(memory);
      Advance(memory, steps[i].action, steps[i].observation);
      FollowsBoth(begin, before, Now(memory), steps[..i], [steps[i]], Enriches(memory));
      TakeNext(steps, i);
    }

    method DemoNext(memory: Memory, grounder: Grounder, ghost begin: Moment, steps: seq<Recorded>, i: nat,
                    url: Option<Text>, verify: bool, answers: Answers)
      returns (prediction: Option<Observation>, next: nat)
      requires Valid() && i < |steps| && Follows(begin, Now(memory), steps[..i], Enriches(memory))
      requires grounder.Valid()
      modifies this`history, this`records, this`values, this`copies, state, memory`buffer, memory`noted
      modifies grounder, grounder.knowledge
      ensures Valid() && fresh(copies - old(copies)) && grounder.Valid()
      ensures next == if prediction.Some? then i + 1 else i
      ensures Follows(begin, Now(memory), steps[..next], Enriches(memory))
      ensures grounder.Fine(url, answers) ==> prediction.Some?
      ensures prediction.Some? ==> Predicts(answers, grounder.live, verify, prediction.value)
    {
      ghost var before := Now(memory);
      var predicted, raised := StepOpenLoop(memory, grounder, steps[i].action, url, steps[i].observation, verify,
                                            answers);
      if raised {
        return None, i;
      }
      FollowsBoth(begin, before, Now(memory), steps[..i], [steps[i]], Enriches(memory));
      TakeNext(steps, i);
      return Some(predicted), i + 1;
    }

    /** Advance over already recorded steps, without predictions. */
    method SeedSession(memory: Memory, steps: seq<Recorded>)
      requires Valid()
      modifies this`history, this`records, this`values, this`copies, state, memory`buffer, memory`noted
      ensures Valid() && fresh(copies - old(copies))
      ensures Follows(old(Now(memory)), Now(memory), steps, Enriches(memory))
    {
      ghost var begin := Now(memory);
      for i := 0 to |steps|
        invariant Valid() && fresh(copies - old(copies))
        invariant Follows(begin, Now(memory), steps[..i], Enriches(memory))
      {
        SeedNext(memory, begin, steps, i);
      }
      assert steps[..|steps|] == steps;
    }

    /** Replay recorded steps open loop; the first `skip` only seed the session. Whatever the model
        predicts and searches, and wherever the replay resumes or an error ends it, the session and the
        shared memory end as the recorded steps up to there leave them. */
    method RunDemo(memory: Memory, grounder: Grounder, steps: seq<Recorded>, skip: nat,
                   urlOf: Action -> Option<Text>, verify: bool, answers: nat -> Answers)
      returns (predicted: seq<Observation>, done: nat)
      requires Valid() && grounder.Valid()
      modifies this`history, this`records, this`values, this`copies, state, memory`buffer, memory`noted
      modifies grounder, grounder.knowledge
      ensures Valid() && fresh(copies - old(copies)) && grounder.Valid()
      ensures done <= |steps| && done == FirstOf(skip, |steps|) + |predicted|
      ensures Follows(old(Now(memory)), Now(memory), steps[..done], Enriches(memory))
      ensures done < |steps| ==> !grounder.Fine(urlOf(steps[done].action), answers(done))
      ensures forall i :: 0 <= i < |predicted| ==>
                Predicts(answers(FirstOf(skip, |steps|) + i), grounder.live, verify, predicted[i])
    {
      var start := FirstOf(skip, |steps|);
      ghost var begin := Now(memory);
      SeedSession(memory, steps[..start]);
      predicted, done := PredictFrom(memory, grounder, begin, steps, start, urlOf, verify, answers);
    }

    /** A replay that is told to skip more steps than there are predicts none. */
    static function FirstOf(skip: nat, n: nat): nat {
      if skip < n then skip else n
    }

    method PredictFrom(memory: Memory, grounder: Grounder, ghost begin: Moment, steps: seq<Recorded>, start: nat,
                       urlOf: Action -> Option<Text>, verify: bool, answers: nat -> Answers)
      returns (predicted: seq<Observation>, done: nat)
      requires Valid() && grounder.Valid() && start <= |steps|
      requires Follows(begin, Now(memory), steps[..start], Enriches(memory))
      modifies this`history, this`records, this`values, this`copies, state, memory`buffer, memory`noted
      modifies grounder, grounder.knowledge
      ensures Valid() && fresh(copies - old(copies)) && grounder.Valid()
      ensures done <= |steps| && done == start + |predicted|
      ensures Follows(begin, Now(memory), steps[..done], Enriches(memory))
      ensures done < |steps| ==> !grounder.Fine(urlOf(steps[done].action), answers(done))
      ensures forall i :: 0 <= i < |predicted| ==>
                Predicts(answers(start + i), grounder.live, verify, predicted[i])
    {
      predicted, done := [], start;
      var raised := false;
      while done < |steps| && !raised
        invariant Valid() && fresh(copies - old(copies)) && grounder.Valid()
        invariant done <= |steps| && done == start + |predicted|
        invariant Follows(begin, Now(memory), steps[..done], Enriches(memory))
        invariant raised ==> done < |steps| && !grounder.Fine(urlOf(steps[done].action), answers(done))
        invariant forall i :: 0 <= i < |predicted| ==>
                    Predicts(answers(start + i), grounder.live, verify, predicted[i])
        decreases |steps| - done, !raised
      {
        var prediction;
        prediction, done := DemoNext(memory, grounder, begin, steps, done, urlOf(steps[done].action), verify,
                                     answers(done));
        raised := prediction.None?;
        predicted := predicted + if raised then [] else [prediction.value];
      }
    }
  }

  /** Session history is a fold: each step remembers the seed state folded over the observations before
      it, and the state is the fold over all of them. */
  lemma HistoryIsFold(a: Session, i: nat)
    requires a.Valid() && i < |a.history|
    ensures a.history[i].stateBefore.Value() == FoldAll(a.seed, a.records[..i])
    ensures a.state.Value() == FoldAll(a.seed, a.records)
  {
    FoldsAreFolds(a.seed, a.records, a.values, i);
    FoldsAreFolds(a.seed, a.records, a.values, |a.records|);
    assert a.records[..|a.records|] == a.records;
  }

  /** What a session remembers is determined by its seed and the recorded steps alone, so two replays
      of one trajectory agree step by step, however each of them was split into seeding and stepping. */
  lemma ReplaysAgree(a: Session, b: Session, i: nat)
    requires a.Valid() && b.Valid() && a.seed == b.seed && a.records == b.records && i < |a.history|
    ensures a.state.Value() == b.state.Value() && |a.history| == |b.history|
    ensures a.history[i].action == b.history[i].action && a.history[i].observation == b.history[i].observation
    ensures a.history[i].stateBefore.Value() == b.history[i].stateBefore.Value()
  {
    HistoryIsFold(a, i);
    HistoryIsFold(b, i);
  }

  /** Seeding on a prefix and folding the rest is folding everything. */
  lemma {:induction false} FoldResumes(seed: StateValue, prefix: seq<Recorded>, rest: seq<Recorded>)
    ensures FoldAll(seed, prefix + rest) == FoldAll(FoldAll(seed, prefix), rest)
  {
    if rest == [] {
      Nothing(prefix);
    } else {
      FoldResumes(seed, prefix, rest[..|rest| - 1]);
      Unlast(prefix, rest);
    }
  }

  /** An observation that says nothing new: no log line, and no profile but the one already there. */
  predicate SaysNothing(v: StateValue, o: Observation) {
    && Note(o, "state_note") == []
    && var update := Note(o, "state_update");
       update == [] || ("profile" in v.structured && v.structured["profile"] == Str(update))
  }

  lemma FoldedSame(v: StateValue, o: Observation)
    ensures Folded(v, o) == v <==> SaysNothing(v, o)
  {
    var note, update := Note(o, "state_note"), Note(o, "state_update");
    if note != [] {
      assert |Folded(v, o).scratchpad| > |v.scratchpad|;
    }
    if update != [] {
      assert Folded(v, o).structured["profile"] == Str(update);
    }
  }

  /** The state object is one a step of the history started from. */
  ghost predicate Started(history: seq<Step>, state: EnvState) {
    exists i :: 0 <= i < |history| && history[i].stateBefore == state
  }

  /** Stepping one session leaves another right exactly when the stepped state object is neither the
      other's state nor one that a step of its history started from, or the observation says nothing new. */
  method StepOneOf(stepped: Session, other: Session, memory: Memory, action: Action, observation: Observation)
    requires stepped.Valid() && other.Valid() && stepped != other
    modifies stepped`history, stepped`records, stepped`values, stepped`copies, stepped.state
    modifies memory`buffer, memory`noted
    ensures stepped.Valid() && other.records == old(other.records)
    ensures other.Valid() <==> || (stepped.state != other.state && !Started(other.history, stepped.state))
                               || SaysNothing(old(stepped.state.Value()), observation)
  {
    ghost var before := stepped.state.Value();
    FoldedSame(before, observation);
    stepped.Advance(memory, action, observation);
    if stepped.state.Value() != before && Started(other.history, stepped.state) {
      var i :| 0 <= i < |other.history| && other.history[i].stateBefore == stepped.state;
      assert other.values[i] == before;
    }
  }

  // ------------------------------------------------------------------ grounding

  datatype Reply = Hiccup | NoHits | Hits(text: Text)

  /** A live search that came back, and whether what it found was handed on. */
  datatype Search = Search(session: nat, query: Text, found: bool)

  function Spent(searches: seq<Search>, session: nat): nat {
    if searches == [] then 0
    else Spent(searches[..|searches| - 1], session) + (if searches[|searches| - 1].session == session then 1 else 0)
  }

  lemma SpentOnce(searches: seq<Search>, one: Search, session: nat)
    ensures Spent(searches + [one], session) == Spent(searches, session) + (if one.session == session then 1 else 0)
  {
    assert (searches + [one])[..|searches|] == searches;
  }

  /** What the search and the model answer during one prediction: the fetch of the action's own address, the
      completion, the search it asks for, the completion after it, and the check; a completion may raise. */
  datatype Answers = Answers(body: Reply, first: Option<Observation>, hits: Reply, second: Option<Observation>,
                             checked: Option<Observation>)

  /** The prediction is the last completion: the check, or the first one if it asks for no search. */
  predicate Predicts(answers: Answers, live: bool, verify: bool, prediction: Observation) {
    if verify then answers.checked == Some(prediction)
    else
      || answers.first == Some(prediction)
      || (live && answers.first.Some? && Note(answers.first.value, "ground_query") != []
          && answers.second == Some(prediction))
  }

  class Grounder {
    const live: bool
    const knowledge: KnowledgeBase?
    const budget: nat
    var spent: map<nat, nat>
    ghost var searches: seq<Search>

    constructor (live: bool, knowledge: KnowledgeBase?, budget: nat)
      requires knowledge != null ==> knowledge.Valid()
      ensures Valid() && this.live == live && this.knowledge == knowledge && this.budget == budget && searches == []
    {
      this.live, this.knowledge, this.budget := live, knowledge, budget;
      this.spent, this.searches := map[], [];
    }

    function SpentBy(session: nat): nat
      reads this
    {
      if session in spent then spent[session] else 0
    }

    /** Each session has spent what it searched, never more than the budget. */
    ghost predicate Budgeted()
      reads this
    {
      forall s :: SpentBy(s) == Spent(searches, s) <= budget
    }

    ghost predicate Valid()
      reads this, knowledge
    {
      && Budgeted()
      && (knowledge != null ==> knowledge.Valid() && Remembered(searches, AsRead(knowledge.grounded)))
    }

    /** What the cache answers. */
    ghost function Hit(query: Text): Option<Text>
      reads knowledge
    {
      if knowledge == null then None else knowledge.Hit(Strip(query))
    }

    /** What a search found can be cached. */
    predicate Storable(query: Text, reply: Reply) {
      knowledge != null && reply.Hits? ==> Encodable(EntryText(Entry(Strip(query), Strip(reply.text))))
    }

    /** A live search that comes back. */
    ghost predicate Searches(session: nat, query: Text, reply: Reply)
      reads this, knowledge
    {
      Hit(query).None? && live && SpentBy(session) < budget && !reply.Hiccup?
    }

    /** The query is answered, by the cache or by a search. */
    ghost predicate Answered(session: nat, query: Text, reply: Reply)
      reads this, knowledge
    {
      Hit(query).Some? || (Searches(session, query, reply) && Storable(query, reply))
    }

    /** Nothing that is asked during a prediction raises an error. */
    predicate Fine(url: Option<Text>, answers: Answers) {
      && answers.first.Some? && answers.second.Some? && answers.checked.Some?
      && (url.Some? ==> Storable(url.value, answers.body))
      && Storable(Note(answers.first.value, "ground_query"), answers.hits)
    }

    /** Resolve a query: the cache first, then one budgeted live search. A query that has ever found
        something is answered by the cache, and not searched again, exactly if it holds no carriage
        return. What was found but cannot be written raises an error after the search. */
    method Ground(session: nat, query: Text, reply: Reply) returns (result: Option<Text>, raised: bool)
      requires Valid()
      modifies this, knowledge
      ensures Valid()
      ensures var live := old(Hit(query)).None? && live && old(SpentBy(session)) < budget && !reply.Hiccup?;
              && (raised <==> live && !Storable(query, reply))
              && searches == (if live then old(searches) + [Search(session, Strip(query), reply.Hits? && !raised)]
                              else old(searches))
              && result == if old(Hit(query)).Some? then old(Hit(query))
                           else if !live || raised then None
                           else Some(if reply.Hits? then reply.text else Ascii("(no results)"))
      ensures RETURN in Strip(query) ==> old(Hit(query)).None?
      ensures knowledge != null && HasFound(old(searches), Strip(query)) ==>
                (old(Hit(query)).Some? <==> RETURN !in Strip(query))
    {
      if knowledge != null {
        FoundIsCached(searches, AsRead(knowledge.grounded), Strip(query));
        var cached := knowledge.LookupGrounded(query);
        if cached.Some? {
          return cached, false;
        }
      }
      if !live || SpentBy(session) >= budget || reply.Hiccup? {
        return None, false;
      }
      result, raised := SearchLive(session, query, reply);
    }

    /** One live search that came back: its hits are cached, a miss is not. */
    method SearchLive(session: nat, query: Text, reply: Reply) returns (result: Option<Text>, raised: bool)
      requires Valid() && !reply.Hiccup? && SpentBy(session) < budget && Hit(query).None?
      modifies this, knowledge
      ensures Valid() && (raised <==> !Storable(query, reply))
      ensures searches == old(searches) + [Search(session, Strip(query), reply.Hits? && !raised)]
      ensures result == if raised then None else Some(if reply.Hits? then reply.text else Ascii("(no results)"))
    {
      raised := false;
      ghost var failed := !Storable(query, reply);
      ghost var search := Search(session, Strip(query), reply.Hits? && !failed);
      Spend(session, search);
      if knowledge != null {
        raised := CacheHits(query, reply, search);
      }
      if raised {
        return None, true;
      }
      return Some(if reply.Hits? then reply.text else Ascii("(no results)")), false;
    }

    method CacheHits(query: Text, reply: Reply, ghost search: Search) returns (raised: bool)
      requires knowledge != null && knowledge.Valid() && knowledge.Hit(Strip(query)).None?
      requires searches != [] && searches[|searches| - 1] == search
      requires Remembered(searches[..|searches| - 1], AsRead(knowledge.grounded))
      requires search.query == Strip(query) && search.found == (reply.Hits? && Storable(query, reply))
      modifies knowledge
      ensures knowledge.Valid() && Remembered(searches, AsRead(knowledge.grounded))
      ensures raised <==> !Storable(query, reply)
    {
      raised := false;
      ghost var before := AsRead(knowledge.grounded);
      if reply.Hits? {
        raised := knowledge.AppendGrounded(query, reply.text);
        forall q: Text | Cached(before, q).Some? ensures Cached(AsRead(knowledge.grounded), q).Some? {
          assert old(knowledge.Hit(q)).Some?;
          assert knowledge.Hit(q).Some?;
        }
        assert knowledge.Hit(Strip(query)).Some? <==> RETURN !in Strip(query) && !raised;
      }
      StillRemembered(searches[..|searches| - 1], before, AsRead(knowledge.grounded));
    }

    method Spend(session: nat, ghost search: Search)
      requires Budgeted() && SpentBy(session) < budget && search.session == session
      modifies this
      ensures Budgeted() && searches == old(searches) + [search]
    {
      spent := spent[session := SpentBy(session) + 1];
      searches := searches + [search];
      forall s ensures SpentBy(s) == Spent(searches, s) <= budget {
        SpentOnce(old(searches), search, s);
        assert old(SpentBy(s)) == Spent(old(searches), s);
      }
    }

    /** One prediction: a fetch of the action's own address, a completion, at most one search it asks for
        and a second completion, and a check. Each completion may raise an error. */
    method Predict(session: nat, url: Option<Text>, verify: bool, answers: Answers)
      returns (prediction: Observation, raised: bool)
      requires Valid()
      modifies this, knowledge
      ensures Valid() && old(searches) <= searches && |searches| <= |old(searches)| + 2
      ensures Fine(url, answers) ==> !raised
      ensures !raised ==> Predicts(answers, live, verify, prediction)
      ensures url.None? || !live ==> (
                raised <==> old(OnceRaises(session, answers)) || (verify && answers.checked.None?))
      ensures (url.None? || !live) && !raised && !verify ==>
                Some(prediction) == if old(SecondAsked(session, answers)) then answers.second else answers.first
    {
      prediction := Observation([], false, map[]);
      raised := Prefetch(session, url, answers.body);
      if !raised {
        prediction, raised := PredictOnce(session, answers);
      }
      if verify && !raised {
        prediction, raised := Complete(answers.checked);
      }
    }

    method Prefetch(session: nat, url: Option<Text>, body: Reply) returns (raised: bool)
      requires Valid()
      modifies this, knowledge
      ensures Valid() && old(searches) <= searches && |searches| <= |old(searches)| + 1
      ensures raised <==>
                live && url.Some? && old(Searches(session, url.value, body)) && !Storable(url.value, body)
      ensures url.None? || !live ==> unchanged(this) && (knowledge != null ==> unchanged(knowledge))
    {
      raised := false;
      if live && url.Some? {
        var _, failed := Ground(session, url.value, body);
        raised := failed;
      }
    }

    /** The first completion asks for a search that is answered. */
    ghost predicate SecondAsked(session: nat, answers: Answers)
      reads this, knowledge
    {
      live && answers.first.Some?
      && var query := Note(answers.first.value, "ground_query");
         query != [] && Answered(session, query, answers.hits)
    }

    /** A completion raises an error, or what a search found cannot be written. */
    ghost predicate OnceRaises(session: nat, answers: Answers)
      reads this, knowledge
    {
      || answers.first.None?
      || (SecondAsked(session, answers) && answers.second.None?)
      || (live && var query := Note(answers.first.value, "ground_query");
                  query != [] && Searches(session, query, answers.hits) && !Storable(query, answers.hits))
    }

    /** A completion, and a second one if the first asks for a search that answers. */
    method PredictOnce(session: nat, answers: Answers) returns (prediction: Observation, raised: bool)
      requires Valid()
      modifies this, knowledge
      ensures Valid() && old(searches) <= searches && |searches| <= |old(searches)| + 1
      ensures raised <==> old(OnceRaises(session, answers))
      ensures !raised ==>
                Some(prediction) == if old(SecondAsked(session, answers)) then answers.second else answers.first
    {
      prediction, raised := Complete(answers.first);
      var query := Note(prediction, "ground_query");
      if !raised && live && query != [] {
        var results, failed := Ground(session, query, answers.hits);
        raised := failed;
        if results.Some? {
          prediction, raised := Complete(answers.second);
        }
      }
    }

    /** What the model answers, or an error. */
    method Complete(answer: Option<Observation>) returns (prediction: Observation, raised: bool)
      ensures raised <==> answer.None?
      ensures !raised ==> Some(prediction) == answer
    {
      raised := answer.None?;
      prediction := if raised then Observation([], false, map[]) else answer.value;
    }
  }

  ghost predicate HasFound(searches: seq<Search>, query: Text) {
    exists i :: 0 <= i < |searches| && searches[i].query == query && searches[i].found
  }

  /** Every query without carriage returns that ever found something is answered by the cache. */
  ghost predicate Remembered(searches: seq<Search>, content: Text) {
    searches == [] ||
    var last := searches[|searches| - 1];
    && (last.found && RETURN !in last.query ==> Cached(content, last.query).Some?)
    && Remembered(searches[..|searches| - 1], content)
  }

  lemma {:induction false} FoundIsCached(searches: seq<Search>, content: Text, query: Text)
    requires Remembered(searches, content)
    ensures HasFound(searches, query) && RETURN !in query ==> Cached(content, query).Some?
  {
    if HasFound(searches, query) && RETURN !in query {
      var i :| 0 <= i < |searches| && searches[i].query == query && searches[i].found;
      if i < |searches| - 1 {
        assert searches[..|searches| - 1][i] == searches[i];
        FoundIsCached(searches[..|searches| - 1], content, query);
      }
    }
  }

  lemma {:induction false} StillRemembered(searches: seq<Search>, before: Text, after: Text)
    requires Remembered(searches, before)
    requires forall q: Text :: Cached(before, q).Some? ==> Cached(after, q).Some?
    ensures Remembered(searches, after)
  {
    if searches != [] {
      StillRemembered(searches[..|searches| - 1], before, after);
    }
  }
}
