/** The arithmetic of sandbox leases: every lifetime metered once, from creation to confirmed end. */
module ProjectLedger {
  import opened Options

  /** One sandbox ever longer, and when its end was confirmed. */
  datatype Lease<H> = Lease(handle: H, start: int, end: Option<int>)

  function Seconds<H>(l: Lease<H>, now: int): int {
    (if l.end.Some? then l.end.value else now) - l.start
  }

  /** Every lifetime once. */
  function Metered<H>(leases: seq<Lease<H>>, now: int): int {
    if leases == [] then 0 else Metered(leases[..|leases| - 1], now) + Seconds(leases[|leases| - 1], now)
  }

  function Retired<H>(leases: seq<Lease<H>>): int {
    if leases == [] then 0
    else
      var l := leases[|leases| - 1];
      Retired(leases[..|leases| - 1]) + (if l.end.Some? then l.end.value - l.start else 0)
  }

  /** What the open leases among `todo` have run up. */
  function Running<H(==)>(leases: seq<Lease<H>>, todo: set<H>, now: int): int {
    if leases == [] then 0
    else
      var l := leases[|leases| - 1];
      Running(leases[..|leases| - 1], todo, now) + (if l.end.None? && l.handle in todo then now - l.start else 0)
  }

  function Handles<H>(leases: seq<Lease<H>>): seq<H> {
    if leases == [] then [] else Handles(leases[..|leases| - 1]) + [leases[|leases| - 1].handle]
  }

  /** The leases still open, with their starting times. */
  function LiveOf<H(==)>(leases: seq<Lease<H>>): map<H, int> {
    if leases == [] then map[]
    else
      var before, l := LiveOf(leases[..|leases| - 1]), leases[|leases| - 1];
      if l.end.None? then before[l.handle := l.start] else before
  }

  predicate Distinct<H(==)>(handles: seq<H>) {
    handles != [] ==> Distinct(handles[..|handles| - 1]) && handles[|handles| - 1] !in handles[..|handles| - 1]
  }

  predicate InOrder<H>(leases: seq<Lease<H>>, now: int) {
    leases != [] ==>
      var l := leases[|leases| - 1];
      InOrder(leases[..|leases| - 1], now) && l.start <= now && 0 <= Seconds(l, now)
  }

  function Ended<H>(leases: seq<Lease<H>>, i: nat, at: int): seq<Lease<H>>
    requires i < |leases|
  {
    leases[i := leases[i].(end := Some(at))]
  }

  lemma {:induction false} EndingRetires<H>(leases: seq<Lease<H>>, i: nat, at: int)
    requires i < |leases| && leases[i].end.None?
    ensures Retired(Ended(leases, i, at)) == Retired(leases) + (at - leases[i].start)
  {
    var last := |leases| - 1;
    if i == last {
      assert Ended(leases, i, at)[..last] == leases[..last];
    } else {
      EndingRetires(leases[..last], i, at);
      assert Ended(leases, i, at)[..last] == Ended(leases[..last], i, at);
    }
  }

  lemma {:induction false} HandlesAre<H>(leases: seq<Lease<H>>)
    ensures |Handles(leases)| == |leases|
    ensures forall i :: 0 <= i < |leases| ==> Handles(leases)[i] == leases[i].handle
    ensures forall h :: h in LiveOf(leases) ==> h in Handles(leases)
  {
    if leases != [] {
      HandlesAre(leases[..|leases| - 1]);
    }
  }

  lemma {:induction false} RunningWithout<H>(leases: seq<Lease<H>>, todo: set<H>, h: H, now: int)
    requires h !in Handles(leases)
    ensures Running(leases, todo, now) == Running(leases, todo - {h}, now)
  {
    if leases != [] {
      RunningWithout(leases[..|leases| - 1], todo, h, now);
    }
  }

  /** One live lease read off the meter. */
  lemma {:induction false} MeterOne<H>(leases: seq<Lease<H>>, todo: set<H>, h: H, now: int)
    requires Distinct(Handles(leases)) && InOrder(leases, now) && h in LiveOf(leases) && h in todo
    ensures LiveOf(leases)[h] <= now
    ensures Running(leases, todo, now) == Running(leases, todo - {h}, now) + (now - LiveOf(leases)[h])
  {
    var last := |leases| - 1;
    assert Handles(leases)[..last] == Handles(leases[..last]) by { HandlesAre(leases); HandlesAre(leases[..last]); }
    HandlesAre(leases[..last]);
    if leases[last].handle == h {
      RunningWithout(leases[..last], todo, h, now);
    } else {
      MeterOne(leases[..last], todo, h, now);
    }
  }

  lemma {:induction false} RunningNone<H>(leases: seq<Lease<H>>, now: int)
    ensures Running(leases, {}, now) == 0
  {
    if leases != [] {
      RunningNone(leases[..|leases| - 1], now);
    }
  }

  /** What has been retired and what still runs are all of it. */
  lemma {:induction false} MeterIs<H>(leases: seq<Lease<H>>, open: set<H>, now: int)
    requires LiveOf(leases).Keys <= open
    ensures Metered(leases, now) == Retired(leases) + Running(leases, open, now)
  {
    if leases != [] {
      MeterIs(leases[..|leases| - 1], open, now);
    }
  }

  // ------------------------------------------------------------------ how a ledger evolves

  /** Leases are only longer and ended, never forgotten or rewritten, and never in the past. */
  ghost predicate Evolves<H>(a: seq<Lease<H>>, now: int, b: seq<Lease<H>>, later: int) {
    && now <= later && |a| <= |b|
    && (forall i :: 0 <= i < |a| ==> b[i].handle == a[i].handle && b[i].start == a[i].start)
    && (forall i :: 0 <= i < |a| ==> if a[i].end.Some? then b[i].end == a[i].end
        else b[i].end.None? || now <= b[i].end.value)
  }

  lemma EvolvesOn<H>(a: seq<Lease<H>>, t: int, b: seq<Lease<H>>, u: int, c: seq<Lease<H>>, v: int)
    requires Evolves(a, t, b, u) && Evolves(b, u, c, v)
    ensures Evolves(a, t, c, v)
  {
    forall i | 0 <= i < |a|
      ensures c[i].handle == a[i].handle && c[i].start == a[i].start
      ensures if a[i].end.Some? then c[i].end == a[i].end else c[i].end.None? || t <= c[i].end.value
    {
      assert b[i].handle == a[i].handle;
    }
  }

  /** A meter never runs backwards. */
  lemma {:induction false} MeterNeverDecreases<H>(a: seq<Lease<H>>, now: int, b: seq<Lease<H>>, later: int)
    requires Evolves(a, now, b, later) && InOrder(b, later)
    ensures Metered(a, now) <= Metered(b, later)
    decreases |b|
  {
    if b != [] {
      var last := |b| - 1;
      assert InOrder(b[..last], later);
      if |a| == |b| {
        MeterNeverDecreases(a[..last], now, b[..last], later);
      } else {
        MeterNeverDecreases(a, now, b[..last], later);
      }
    }
  }

  // ------------------------------------------------------------------ the books

  /** The books are right: one lease for each sandbox handed out, none in the future, and the live map
      and the retired seconds are those of the leases. */
  predicate Right<H(==)>(leases: seq<Lease<H>>, created: seq<H>, live: map<H, int>, retired: int, now: int) {
    && created == Handles(leases) && Distinct(created) && InOrder(leases, now)
    && retired == Retired(leases) && live == LiveOf(leases)
  }

  /** The ended leases are the confirmed ends, apart from those in `pending` still to be written down. */
  predicate Confirmed<H(==)>(leases: seq<Lease<H>>, gone: set<H>, pending: set<H>) {
    leases != [] ==>
      var l := leases[|leases| - 1];
      && Confirmed(leases[..|leases| - 1], gone, pending)
      && (l.end.Some? || l.handle in pending <==> l.handle in gone)
  }

  lemma {:induction false} InOrderLater<H>(leases: seq<Lease<H>>, now: int, later: int)
    requires InOrder(leases, now) && now <= later
    ensures InOrder(leases, later)
  {
    if leases != [] {
      InOrderLater(leases[..|leases| - 1], now, later);
    }
  }

  lemma RightFirst<H>(h: H, now: int)
    ensures var leases := [Lease(h, now, None)];
            Right(leases, [h], map[h := now], 0, now) && Confirmed(leases, {}, {})
  {
    var leases := [Lease(h, now, None)];
    assert leases[..0] == [] && [h][..0] == [];
  }

  lemma RightLater<H>(leases: seq<Lease<H>>, created: seq<H>, live: map<H, int>, retired: int, now: int, later: int)
    requires Right(leases, created, live, retired, now) && now <= later
    ensures Right(leases, created, live, retired, later) && Evolves(leases, now, leases, later)
  {
    InOrderLater(leases, now, later);
  }

  lemma RightOpened<H>(leases: seq<Lease<H>>, created: seq<H>, live: map<H, int>, retired: int, now: int,
                       h: H, later: int, gone: set<H>)
    requires Right(leases, created, live, retired, now) && now <= later && h !in created && h !in gone
    ensures var longer := leases + [Lease(h, later, None)];
            && Right(longer, created + [h], live[h := later], retired, later)
            && Evolves(leases, now, longer, later) && (Confirmed(leases, gone, {}) ==> Confirmed(longer, gone, {}))
  {
    var longer := leases + [Lease(h, later, None)];
    assert longer[..|leases|] == leases && (created + [h])[..|created|] == created;
    InOrderLater(leases, now, later);
  }

  /** Where the open lease of a live sandbox is. */
  lemma {:induction false} OpenAt<H>(leases: seq<Lease<H>>, h: H) returns (i: nat)
    requires Distinct(Handles(leases)) && h in LiveOf(leases)
    ensures i < |leases| && leases[i].handle == h && leases[i].end.None? && leases[i].start == LiveOf(leases)[h]
  {
    var last := |leases| - 1;
    HandlesAre(leases[..last]);
    assert Handles(leases)[..last] == Handles(leases[..last]);
    if leases[last].handle == h && leases[last].end.None? {
      i := last;
    } else {
      i := OpenAt(leases[..last], h);
    }
  }

  lemma {:induction false} RightEnded<H>(leases: seq<Lease<H>>, created: seq<H>, live: map<H, int>, retired: int,
                                         now: int, h: H, later: int, gone: set<H>) returns (ended: seq<Lease<H>>)
    requires Right(leases, created, live, retired, now) && now <= later && h in live
    ensures Right(ended, created, live - {h}, retired + (if later < live[h] then 0 else later - live[h]), later)
    ensures Evolves(leases, now, ended, later) && |ended| == |leases|
    ensures Confirmed(leases, gone, {h}) ==> Confirmed(ended, gone, {})
  {
    var i := OpenAt(leases, h);
    InOrderLater(leases, now, later);
    StartsBefore(leases, i, now);
    ended := Ended(leases, i, later);
    EndingRetires(leases, i, later);
    EndingTakes(leases, i, later);
    EndingConfirms(leases, i, later, gone);
  }

  lemma {:induction false} StartsBefore<H>(leases: seq<Lease<H>>, i: nat, now: int)
    requires InOrder(leases, now) && i < |leases|
    ensures leases[i].start <= now
  {
    if i < |leases| - 1 {
      StartsBefore(leases[..|leases| - 1], i, now);
    }
  }

  lemma EndingTakes<H>(leases: seq<Lease<H>>, i: nat, later: int)
    requires Distinct(Handles(leases)) && InOrder(leases, later) && i < |leases| && leases[i].end.None?
    ensures var ended := Ended(leases, i, later);
            && Handles(ended) == Handles(leases) && InOrder(ended, later)
            && LiveOf(ended) == LiveOf(leases) - {leases[i].handle}
  {
    EndingKeepsHandles(leases, i, later);
    EndingKeepsOrder(leases, i, later);
    EndingLeavesLive(leases, i, later);
  }

  lemma {:induction false} EndingKeepsHandles<H>(leases: seq<Lease<H>>, i: nat, later: int)
    requires i < |leases|
    ensures Handles(Ended(leases, i, later)) == Handles(leases)
  {
    var last := |leases| - 1;
    if i == last {
      assert Ended(leases, i, later)[..last] == leases[..last];
    } else {
      EndingKeepsHandles(leases[..last], i, later);
      assert Ended(leases, i, later)[..last] == Ended(leases[..last], i, later);
    }
  }

  lemma {:induction false} EndingKeepsOrder<H>(leases: seq<Lease<H>>, i: nat, later: int)
    requires InOrder(leases, later) && i < |leases| && leases[i].end.None?
    ensures InOrder(Ended(leases, i, later), later)
  {
    var last := |leases| - 1;
    if i == last {
      assert Ended(leases, i, later)[..last] == leases[..last];
    } else {
      EndingKeepsOrder(leases[..last], i, later);
      assert Ended(leases, i, later)[..last] == Ended(leases[..last], i, later);
    }
  }

  lemma {:induction false} EndingLeavesLive<H>(leases: seq<Lease<H>>, i: nat, later: int)
    requires Distinct(Handles(leases)) && i < |leases| && leases[i].end.None?
    ensures LiveOf(Ended(leases, i, later)) == LiveOf(leases) - {leases[i].handle}
  {
    var last, ended := |leases| - 1, Ended(leases, i, later);
    EarlierHandles(leases);
    if i == last {
      assert ended[..last] == leases[..last];
      assert LiveOf(leases) - {leases[last].handle} == LiveOf(leases[..last]);
    } else {
      EndingLeavesLive(leases[..last], i, later);
      assert ended[..last] == Ended(leases[..last], i, later) && ended[last] == leases[last];
      StillLive(LiveOf(leases[..last]), leases[i].handle, leases[last]);
    }
  }

  /** The last lease has a handle of its own. */
  lemma EarlierHandles<H>(leases: seq<Lease<H>>)
    requires leases != [] && Distinct(Handles(leases))
    ensures var last := |leases| - 1;
            && Distinct(Handles(leases[..last])) && leases[last].handle !in LiveOf(leases[..last])
            && forall i :: 0 <= i < last ==> leases[i].handle != leases[last].handle
  {
    var last := |leases| - 1;
    HandlesAre(leases[..last]);
    assert Handles(leases)[..last] == Handles(leases[..last]);
    forall i | 0 <= i < last ensures leases[i].handle != leases[last].handle {
      assert leases[..last][i].handle in Handles(leases[..last]);
    }
  }

  lemma StillLive<H>(before: map<H, int>, h: H, l: Lease<H>)
    requires l.handle != h
    ensures (if l.end.None? then (before - {h})[l.handle := l.start] else before - {h})
         == (if l.end.None? then before[l.handle := l.start] else before) - {h}
  {
  }

  lemma {:induction false} EndingConfirms<H>(leases: seq<Lease<H>>, i: nat, later: int, gone: set<H>)
    requires Distinct(Handles(leases)) && i < |leases|
    ensures Confirmed(leases, gone, {leases[i].handle}) ==> Confirmed(Ended(leases, i, later), gone, {})
  {
    var last := |leases| - 1;
    var ended := Ended(leases, i, later);
    HandlesAre(leases[..last]);
    assert Handles(leases)[..last] == Handles(leases[..last]);
    if i == last {
      assert ended[..last] == leases[..last];
      PendingElsewhere(leases[..last], gone, leases[last].handle);
    } else {
      EndingConfirms(leases[..last], i, later, gone);
      assert ended[..last] == Ended(leases[..last], i, later);
      assert leases[i].handle in Handles(leases[..last]);
    }
  }

  lemma {:induction false} PendingElsewhere<H>(leases: seq<Lease<H>>, gone: set<H>, h: H)
    requires h !in Handles(leases)
    ensures Confirmed(leases, gone, {h}) <==> Confirmed(leases, gone, {})
  {
    if leases != [] {
      PendingElsewhere(leases[..|leases| - 1], gone, h);
    }
  }

  /** A confirmed end of a live sandbox is one more to write down. */
  lemma {:induction false} ConfirmsLive<H>(leases: seq<Lease<H>>, gone: set<H>, h: H)
    requires Distinct(Handles(leases)) && Confirmed(leases, gone, {}) && h in LiveOf(leases)
    ensures Confirmed(leases, gone + {h}, {h})
  {
    var last := |leases| - 1;
    HandlesAre(leases[..last]);
    assert Handles(leases)[..last] == Handles(leases[..last]);
    if leases[last].handle == h {
      ConfirmsElsewhere(leases[..last], gone, h);
    } else {
      ConfirmsLive(leases[..last], gone, h);
    }
  }

  lemma {:induction false} ConfirmsElsewhere<H>(leases: seq<Lease<H>>, gone: set<H>, h: H)
    requires h !in Handles(leases) && Confirmed(leases, gone, {})
    ensures Confirmed(leases, gone + {h}, {h})
  {
    if leases != [] {
      ConfirmsElsewhere(leases[..|leases| - 1], gone, h);
    }
  }

  /** With no lease open, every sandbox handed out is confirmed to be gone. */
  lemma {:induction false} NoneLeft<H>(leases: seq<Lease<H>>, gone: set<H>)
    requires Confirmed(leases, gone, {}) && LiveOf(leases) == map[]
    ensures forall h :: h in Handles(leases) ==> h in gone
  {
    if leases != [] {
      var last := |leases| - 1;
      var before, l := LiveOf(leases[..last]), leases[last];
      assert l.handle in before[l.handle := l.start];
      NoneLeft(leases[..last], gone);
    }
  }

  lemma OneVisited<H>(live: set<H>, todo: set<H>, h: H, taken: bool)
    requires todo <= live && h in todo
    ensures |(if taken then live - {h} else live) - (todo - {h})| == |live - todo| + (if taken then 0 else 1)
  {
    var left := live - todo;
    assert (if taken then live - {h} else live) - (todo - {h}) == if taken then left else left + {h};
  }
}
