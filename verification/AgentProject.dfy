/** A persistent project filesystem on rented sandboxes: leases, the host mirror that survives a
    replaced sandbox, and the worker usage that survives a replaced session. Every remote call may
    fail at any point, having done its work or not; what comes of each is given from outside. */
module AgentProject {
  import opened Options
  import opened ProjectLedger

  /** Whether one retry may recover a failed call. */
  datatype Fault = Transport | Fatal

  /** What comes of one call to a sandbox; a failed one may have `reached` it all the same. */
  datatype CallFate = CallFate(fault: Option<Fault>, reached: bool)

  /** What comes of the calls to one sandbox, in the order in which they are made. */
  type Weather = nat -> CallFate

  ghost predicate Calm(weather: Weather) {
    forall n: nat :: weather(n).fault.None?
  }

  // ------------------------------------------------------------------ calls to one sandbox

  /** One or more calls: the fault they end with, the number of the next call, and whether a write has reached
      the sandbox. */
  datatype Calls = Calls(fault: Option<Fault>, next: nat, reached: bool)

  /** A directory and a file in it. */
  function WriteOnce(weather: Weather, n: nat): Calls {
    if weather(n).fault.Some? then Calls(weather(n).fault, n + 1, false)
    else
      var written := weather(n + 1);
      Calls(written.fault, n + 2, written.fault.None? || written.reached)
  }

  function WriteTwice(weather: Weather, n: nat): Calls {
    var first := WriteOnce(weather, n);
    if first.fault != Some(Transport) then first
    else
      var second := WriteOnce(weather, first.next);
      Calls(second.fault, second.next, first.reached || second.reached)
  }

  /** Both calls from here on succeed. */
  predicate BothSucceed(weather: Weather, n: nat) {
    weather(n).fault.None? && weather(n + 1).fault.None?
  }

  /** A write succeeds exactly if its two calls do, or one of them is lost in transport and the two calls after
      it succeed. */
  lemma RetriedOnce(weather: Weather, n: nat)
    ensures WriteTwice(weather, n).fault.None?
       <==> || BothSucceed(weather, n)
            || (weather(n).fault == Some(Transport) && BothSucceed(weather, n + 1))
            || (weather(n).fault.None? && weather(n + 1).fault == Some(Transport) && BothSucceed(weather, n + 2))
  {
  }

  /** So many writes, up to the first that fails. */
  function Writes(weather: Weather, n: nat, files: nat): Calls
    decreases files
  {
    if files == 0 then Calls(None, n, false)
    else
      var first := WriteTwice(weather, n);
      if first.fault.Some? then first else Writes(weather, first.next, files - 1)
  }

  /** A workspace directory and so many files in it. */
  function Replay(weather: Weather, n: nat, files: nat): Calls {
    if weather(n).fault.Some? then Calls(weather(n).fault, n + 1, false) else Writes(weather, n + 1, files)
  }

  lemma {:induction false} CalmWrites(weather: Weather, n: nat, files: nat)
    requires Calm(weather)
    ensures Writes(weather, n, files).fault.None? && Writes(weather, n, files).next == n + 2 * files
    decreases files
  {
    if files > 0 {
      assert weather(n).fault.None? && weather(n + 1).fault.None?;
      CalmWrites(weather, n + 2, files - 1);
    }
  }

  lemma {:induction false} WritesLast(weather: Weather, n: nat, files: nat)
    requires Writes(weather, n, files).fault.None?
    ensures Writes(weather, n, files + 1) == (
              var last := WriteTwice(weather, Writes(weather, n, files).next);
              if last.fault.Some? then last else Calls(None, last.next, false))
    decreases files
  {
    if files > 0 {
      WritesLast(weather, WriteTwice(weather, n).next, files - 1);
    }
  }

  lemma {:induction false} WritesStop(weather: Weather, n: nat, files: nat, more: nat)
    requires Writes(weather, n, files).fault.Some?
    ensures Writes(weather, n, files + more) == Writes(weather, n, files)
    decreases files
  {
    if WriteTwice(weather, n).fault.None? {
      WritesStop(weather, WriteTwice(weather, n).next, files - 1, more);
    }
  }

  class Clock {
    var now: int

    constructor ()
    {
      now := 0;
    }

    method Read() returns (t: int)
      modifies this
      ensures old(now) <= now == t
    {
      var passed :| passed >= 0;
      now := now + passed;
      return now;
    }
  }

  class Sandbox {
    const weather: Weather
    var calls: nat
    var files: map<string, string>

    constructor (weather: Weather)
      ensures this.weather == weather && calls == 0 && files == map[]
    {
      this.weather, calls, files := weather, 0, map[];
    }

    method MakeDirectory() returns (fault: Option<Fault>)
      modifies this`calls
      ensures calls == old(calls) + 1 && fault == weather(old(calls)).fault
    {
      fault, calls := weather(calls).fault, calls + 1;
    }

    /** A failed write may have reached the sandbox all the same. */
    method Write(path: string, content: string) returns (fault: Option<Fault>)
      modifies this
      ensures calls == old(calls) + 1 && fault == weather(old(calls)).fault
      ensures files == if fault.None? || weather(old(calls)).reached then old(files)[path := content] else old(files)
    {
      fault := weather(calls).fault;
      if fault.None? || weather(calls).reached {
        files := files[path := content];
      }
      calls := calls + 1;
    }

    method Read(path: string) returns (content: Option<string>)
      modifies this`calls
      ensures calls == old(calls) + 1
      ensures content == if path in files && weather(old(calls)).fault.None? then Some(files[path]) else None
    {
      content := if path in files && weather(calls).fault.None? then Some(files[path]) else None;
      calls := calls + 1;
    }
  }

  /** How often a sandbox has been asked to end. */
  function Tries(kills: map<Sandbox, nat>, sandbox: Sandbox): nat {
    if sandbox in kills then kills[sandbox] else 0
  }

  /** The sandbox provider: what it has handed out, what it has confirmed to be gone, and what will come of
      every further request. */
  class Provider {
    const offers: nat -> Option<Weather>
    const confirms: (Sandbox, nat) -> bool
    var asked: nat
    var kills: map<Sandbox, nat>
    ghost var created: seq<Sandbox>
    ghost var gone: set<Sandbox>

    constructor (first: Sandbox, offers: nat -> Option<Weather>, confirms: (Sandbox, nat) -> bool)
      ensures created == [first] && gone == {} && this.offers == offers && this.confirms == confirms
    {
      this.offers, this.confirms, asked, kills := offers, confirms, 0, map[];
      created, gone := [first], {};
    }

    /** What the next request for a sandbox will bring. */
    function Offer(): Option<Weather>
      reads this
    {
      offers(asked)
    }

    /** Whether the next attempt to kill this sandbox will be confirmed. */
    predicate WillConfirm(sandbox: Sandbox)
      reads this
    {
      confirms(sandbox, Tries(kills, sandbox))
    }

    method Create() returns (sandbox: Option<Sandbox>)
      modifies this`asked, this`created
      ensures asked == old(asked) + 1
      ensures sandbox.None? <==> old(Offer()).None?
      ensures sandbox.None? ==> created == old(created)
      ensures sandbox.Some? ==>
                && fresh(sandbox.value) && sandbox.value.files == map[] && sandbox.value.calls == 0
                && Some(sandbox.value.weather) == old(Offer()) && created == old(created) + [sandbox.value]
    {
      var offer := Offer();
      asked := asked + 1;
      if offer.None? {
        return None;
      }
      var s := new Sandbox(offer.value);
      created := created + [s];
      return Some(s);
    }

    method Kill(sandbox: Sandbox) returns (confirmed: bool)
      modifies this`kills, this`gone
      ensures confirmed == old(WillConfirm(sandbox))
      ensures gone == if confirmed then old(gone) + {sandbox} else old(gone)
      ensures kills == old(kills)[sandbox := Tries(old(kills), sandbox) + 1]
    {
      confirmed := WillConfirm(sandbox);
      kills := kills[sandbox := Tries(kills, sandbox) + 1];
      if confirmed {
        gone := gone + {sandbox};
      }
    }
  }

  datatype Usage = Usage(input: int, output: int, calls: int)

  const NO_USAGE := Usage(0, 0, 0)

  function Plus(a: Usage, b: Usage): Usage {
    Usage(a.input + b.input, a.output + b.output, a.calls + b.calls)
  }

  /** Worker usage across the retired sessions and the attached one. */
  function Total(retired: Usage, session: Option<Usage>): Usage {
    if session.Some? then Plus(retired, session.value) else retired
  }

  function Minus(a: Usage, b: Usage): Usage {
    Usage(a.input - b.input, a.output - b.output, a.calls - b.calls)
  }

  datatype Meter = Meter(count: nat, seconds: int)

  /** What comes of one agent turn: the fault of starting a session, if one has to be started; else what it uses,
      what it leaves on the sandbox and in the mirror, the fault it ends with, and whether it ran out of time. */
  datatype TurnFate = TurnFate(start: Option<Fault>, used: Usage, files: map<string, string>, seen: map<string, string>,
                               made: nat, fault: Option<Fault>, timedOut: bool)

  /** Whether the turn gets to run, with a session to reuse or not. */
  predicate Runs(turn: TurnFate, reuses: bool) {
    reuses || turn.start.None?
  }

  function FaultOf(turn: TurnFate, reuses: bool): Option<Fault> {
    if Runs(turn, reuses) then turn.fault else turn.start
  }

  function UsedBy(turn: TurnFate, reuses: bool): Usage {
    if Runs(turn, reuses) then turn.used else NO_USAGE
  }

  /** The mirrored files except those of `todo` are in place, over the files that were there. */
  predicate Replayed(files: map<string, string>, before: map<string, string>, mirror: map<string, string>,
                     todo: set<string>) {
    && files.Keys == before.Keys + (mirror.Keys - todo)
    && forall p :: p in files ==> files[p] == if p in mirror && p !in todo then mirror[p] else before[p]
  }

  lemma NoneReplayed(before: map<string, string>, mirror: map<string, string>)
    ensures Replayed(before, before, mirror, mirror.Keys)
  {
  }

  lemma OneReplayed(files: map<string, string>, before: map<string, string>, mirror: map<string, string>,
                    todo: set<string>, p: string)
    requires Replayed(files, before, mirror, todo) && p in todo && todo <= mirror.Keys
    ensures Replayed(files[p := mirror[p]], before, mirror, todo - {p})
  {
  }

  lemma AllReplayed(files: map<string, string>, before: map<string, string>, mirror: map<string, string>)
    requires Replayed(files, before, mirror, {})
    ensures files == before + mirror
  {
  }

  datatype Replacement = Replaced | NotReplaced

  datatype RunResult = Done(used: Usage) | Refused | Failed

  class Project {
    const provider: Provider
    const clock: Clock
    const owns: bool
    const canReplace: bool
    var sandbox: Sandbox
    var count: nat
    var retiredSeconds: int
    var live: map<Sandbox, int>
    var closing: bool
    var finishedAt: Option<int>
    var mirror: map<string, string>
    var session: Option<Usage>
    var retiredUsage: Usage
    ghost var leases: seq<Lease<Sandbox>>
    ghost var spent: Usage
    ghost var attempts: nat

    constructor (provider: Provider, clock: Clock, sandbox: Sandbox, owns: bool, hasFactory: bool)
      requires provider.created == [sandbox] && provider.gone == {}
      modifies clock
      ensures Valid() && this.provider == provider && this.clock == clock && this.sandbox == sandbox
      ensures this.owns == owns && canReplace == (hasFactory && owns) && mirror == map[] && spent == NO_USAGE
    {
      var start := clock.Read();
      this.provider, this.clock, this.owns, this.canReplace := provider, clock, owns, hasFactory && owns;
      this.sandbox, this.count, this.retiredSeconds := sandbox, 1, 0;
      this.live := map[sandbox := start];
      this.closing, this.finishedAt, this.mirror := false, None, map[];
      this.session, this.retiredUsage := None, NO_USAGE;
      this.leases, this.spent, this.attempts := [Lease(sandbox, start, None)], NO_USAGE, 0;
      new;
      FirstLease(leases, live, provider.created, provider.gone, sandbox, start);
    }

    /** The books are right, and an ended lease of an owned project is a confirmed kill. */
    ghost predicate Books(pending: set<Sandbox>)
      reads this`count, this`retiredSeconds, this`live, this`leases, clock, provider
    {
      && count == |leases| && Right(leases, provider.created, live, retiredSeconds, clock.now)
      && (owns ==> Confirmed(leases, provider.gone, pending))
    }

    /** All worker usage ever incurred is either retired or in the attached session. */
    ghost predicate Accounted()
      reads this`session, this`retiredUsage, this`spent
    {
      spent == Total(retiredUsage, session)
    }

    ghost predicate Valid()
      reads this, clock, provider
    {
      && Books({}) && Accounted()
      && (canReplace ==> owns)
      && (finishedAt.Some? ==> closing && live == map[])
      && (!closing ==> sandbox in live)
    }

    // ---------------------------------------------------------------- metering

    /** This project's sandbox lifetime meter. */
    method SandboxUsage() returns (meter: Meter)
      requires Valid()
      modifies clock
      ensures Valid() && old(clock.now) <= clock.now
      ensures meter == Meter(|provider.created|, Metered(leases, clock.now))
    {
      var now := clock.Read();
      RightLater(leases, provider.created, live, retiredSeconds, old(clock.now), now);
      HandlesAre(leases);
      MeterIs(leases, live.Keys, now);
      var seconds, todo := retiredSeconds, live.Keys;
      while todo != {}
        invariant todo <= live.Keys && clock.now == now
        invariant seconds + Running(leases, todo, now) == Metered(leases, now)
        decreases todo
      {
        var s :| s in todo;
        MeterOne(leases, todo, s, now);
        seconds := seconds + (if now < live[s] then 0 else now - live[s]);
        todo := todo - {s};
      }
      RunningNone(leases, now);
      return Meter(count, seconds);
    }

    // ---------------------------------------------------------------- leases

    /** Finalize one lease only after its end is confirmed. */
    method RetireSandbox(s: Sandbox) returns (confirmed: bool)
      requires Books({}) && owns
      modifies this`retiredSeconds, this`live, this`leases, provider`kills, provider`gone, clock
      ensures Books({}) && Evolves(old(leases), old(clock.now), leases, clock.now)
              && provider.created == old(provider.created)
      ensures confirmed <==> s !in old(live) || old(provider.WillConfirm(s))
      ensures confirmed ==> live == old(live) - {s}
      ensures !confirmed ==> live == old(live) && s in live
      ensures provider.kills == old(provider.kills)
              || provider.kills == old(provider.kills)[s := Tries(old(provider.kills), s) + 1]
    {
      if s !in live {
        return true;
      }
      confirmed := provider.Kill(s);
      if confirmed {
        ConfirmsLive(leases, old(provider.gone), s);
        EndLease(s);
      }
    }

    /** Close the books on one live sandbox. */
    method EndLease(s: Sandbox)
      requires s in live && Books(if owns then {s} else {})
      modifies this`retiredSeconds, this`live, this`leases, clock
      ensures Books({}) && Evolves(old(leases), old(clock.now), leases, clock.now)
      ensures live == old(live) - {s}
    {
      var now := clock.Read();
      ghost var ended := RightEnded(leases, provider.created, live, retiredSeconds, old(clock.now), s, now,
                                    provider.gone);
      retiredSeconds := retiredSeconds + (if now < live[s] then 0 else now - live[s]);
      live, leases := live - {s}, ended;
    }

    // ---------------------------------------------------------------- files

    /** One idempotent overwrite, tried twice; a failed one may have reached the sandbox. */
    static method WriteSandboxFile(s: Sandbox, path: string, content: string) returns (fault: Option<Fault>)
      modifies s
      ensures var calls := WriteTwice(s.weather, old(s.calls));
              && fault == calls.fault && s.calls == calls.next
              && s.files == if calls.reached then old(s.files)[path := content] else old(s.files)
      ensures fault.None? ==> s.files == old(s.files)[path := content]
    {
      for attempt := 0 to 2
        invariant attempt == 0 ==> s.calls == old(s.calls) && s.files == old(s.files)
        invariant attempt == 1 ==>
                    var first := WriteOnce(s.weather, old(s.calls));
                    && s.calls == first.next && first.fault == Some(Transport)
                    && s.files == if first.reached then old(s.files)[path := content] else old(s.files)
        invariant attempt < 2
      {
        fault := s.MakeDirectory();
        if fault.None? {
          fault := s.Write(path, content);
          if fault.None? {
            return;
          }
        }
        if attempt > 0 || fault != Some(Transport) {
          return;
        }
      }
    }

    /** Replay the authoritative file mirror onto a sandbox. */
    method InitializeSandbox(s: Sandbox) returns (fault: Option<Fault>)
      modifies s
      ensures fault == Replay(s.weather, old(s.calls), |mirror|).fault
      ensures s.calls == Replay(s.weather, old(s.calls), |mirror|).next
      ensures fault.None? ==> s.files == old(s.files) + mirror
    {
      ghost var start := s.calls + 1;
      fault := s.MakeDirectory();
      if fault.Some? {
        return;
      }
      var todo := mirror.Keys;
      ghost var done, before := 0, s.files;
      NoneReplayed(before, mirror);
      while todo != {}
        invariant todo <= mirror.Keys && done + |todo| == |mirror.Keys| && fault.None?
        invariant Writes(s.weather, start, done).fault.None? && s.calls == Writes(s.weather, start, done).next
        invariant Replayed(s.files, before, mirror, todo)
        decreases todo
      {
        var p :| p in todo;
        WritesLast(s.weather, start, done);
        OneReplayed(s.files, before, mirror, todo, p);
        fault := WriteSandboxFile(s, p, mirror[p]);
        if fault.Some? {
          WritesStop(s.weather, start, done + 1, |todo| - 1);
          return;
        }
        todo, done := todo - {p}, done + 1;
      }
      AllReplayed(s.files, before, mirror);
    }

    /** Open a fresh sandbox and put it on the books. */
    method OpenLease() returns (lease: Option<Sandbox>)
      requires Books({}) && canReplace && owns
      modifies this`count, this`live, this`leases, provider`asked, provider`created, clock
      ensures Books({}) && Evolves(old(leases), old(clock.now), leases, clock.now)
      ensures old(provider.created) <= provider.created
      ensures lease.Some? <==> old(provider.Offer()).Some?
      ensures lease.Some? ==>
                && fresh(lease.value) && lease.value.files == map[] && lease.value.calls == 0
                && Some(lease.value.weather) == old(provider.Offer()) && lease.value in live
                && live == old(live)[lease.value := live[lease.value]]
      ensures lease.None? ==> live == old(live)
    {
      lease := provider.Create();
      if lease.None? {
        return;
      }
      var now := clock.Read();
      RightOpened(leases, old(provider.created), live, retiredSeconds, old(clock.now), lease.value, now, provider.gone);
      leases := leases + [Lease(lease.value, now, None)];
      count, live := count + 1, live[lease.value := now];
    }

    /** What a replacement would have to go through: a sandbox is handed out, and the mirror can be replayed on
        it. */
    predicate Renewable(files: nat)
      reads provider
    {
      canReplace && provider.Offer().Some? && Replay(provider.Offer().value, 0, files).fault.None?
    }

    /** And the one in use is confirmed to be gone. */
    predicate Replaceable(files: nat)
      reads this`sandbox, provider
    {
      Renewable(files) && provider.WillConfirm(sandbox)
    }

    /** Replace a transport-poisoned sandbox while retaining every project file. */
    method ReplaceSandbox() returns (result: Replacement)
      requires Valid() && !closing
      modifies this`sandbox, this`count, this`retiredSeconds, this`live, this`session, this`retiredUsage, this`leases,
               provider, clock
      ensures Valid() && Evolves(old(leases), old(clock.now), leases, clock.now)
      ensures result == Replaced <==> old(Replaceable(|mirror|))
      ensures result == Replaced ==> old(sandbox) !in live
      ensures sandbox != old(sandbox) <==> old(Renewable(|mirror|))
      ensures sandbox != old(sandbox) ==>
                && fresh(sandbox) && sandbox.files == mirror && session.None?
                && Some(sandbox.weather) == old(provider.Offer())
                && sandbox.calls == Replay(sandbox.weather, 0, |mirror|).next
      ensures sandbox == old(sandbox) ==> session == old(session) && retiredUsage == old(retiredUsage)
    {
      if !canReplace {
        return NotReplaced;
      }
      result := ReplaceNow();
    }

    method ReplaceNow() returns (result: Replacement)
      requires Valid() && !closing && canReplace
      modifies this`sandbox, this`count, this`retiredSeconds, this`live, this`session, this`retiredUsage, this`leases,
               provider, clock
      ensures Valid() && Evolves(old(leases), old(clock.now), leases, clock.now)
      ensures result == Replaced <==> old(Replaceable(|mirror|))
      ensures result == Replaced ==> old(sandbox) !in live
      ensures sandbox != old(sandbox) <==> old(Renewable(|mirror|))
      ensures sandbox != old(sandbox) ==>
                && fresh(sandbox) && sandbox.files == mirror && session.None?
                && Some(sandbox.weather) == old(provider.Offer())
                && sandbox.calls == Replay(sandbox.weather, 0, |mirror|).next
      ensures sandbox == old(sandbox) ==> session == old(session) && retiredUsage == old(retiredUsage)
    {
      var replacement := PrepareSandbox();
      if replacement.None? {
        return NotReplaced;
      }
      var cleaned := SwitchTo(replacement.value, old(leases), old(clock.now));
      return if cleaned then Replaced else NotReplaced;
    }

    /** Open a sandbox that holds every mirrored file, or leave nothing but a lease that could not be ended. */
    method PrepareSandbox() returns (ready: Option<Sandbox>)
      requires Books({}) && canReplace && owns
      modifies this`count, this`retiredSeconds, this`live, this`leases, provider, clock
      ensures Books({}) && Evolves(old(leases), old(clock.now), leases, clock.now)
      ensures forall s :: s in old(live) ==> s in live && Tries(provider.kills, s) == Tries(old(provider.kills), s)
      ensures ready.Some? <==> old(Renewable(|mirror|))
      ensures ready.Some? ==>
                && fresh(ready.value) && ready.value.files == mirror && ready.value in live
                && Some(ready.value.weather) == old(provider.Offer())
                && ready.value.calls == Replay(ready.value.weather, 0, |mirror|).next
    {
      ready := OpenLease();
      if ready.Some? {
        ready := FillOrDiscard(ready.value, old(leases), old(clock.now));
      }
    }

    method FillOrDiscard(s: Sandbox, ghost start: seq<Lease<Sandbox>>, ghost at: int) returns (ready: Option<Sandbox>)
      requires Books({}) && owns && s in live && s.files == map[] && s.calls == 0
      requires Evolves(start, at, leases, clock.now)
      modifies this`retiredSeconds, this`live, this`leases, provider`kills, provider`gone, clock, s
      ensures Books({}) && Evolves(start, at, leases, clock.now)
      ensures forall t :: t in old(live) && t != s ==>
                t in live && Tries(provider.kills, t) == Tries(old(provider.kills), t)
      ensures ready == if Replay(s.weather, 0, |mirror|).fault.None? then Some(s) else None
      ensures ready.Some? ==>
                s.files == mirror && s in live && s.calls == Replay(s.weather, 0, |mirror|).next
    {
      ghost var middle, now := leases, clock.now;
      var fault := FillSandbox(s);
      EvolvesOn(start, at, middle, now, leases, clock.now);
      ready := if fault.None? then Some(s) else None;
    }

    /** Replay the mirror onto a live sandbox, or try to end its lease. */
    method FillSandbox(s: Sandbox) returns (fault: Option<Fault>)
      requires Books({}) && owns && s in live
      modifies this`retiredSeconds, this`live, this`leases, provider`kills, provider`gone, clock, s
      ensures Books({}) && Evolves(old(leases), old(clock.now), leases, clock.now)
      ensures fault == Replay(s.weather, old(s.calls), |mirror|).fault
      ensures s.calls == Replay(s.weather, old(s.calls), |mirror|).next
      ensures fault.None? ==> s.files == old(s.files) + mirror && live == old(live)
      ensures live == old(live) || live == old(live) - {s}
      ensures forall t :: t in old(live) && t != s ==> Tries(provider.kills, t) == Tries(old(provider.kills), t)
    {
      fault := InitializeSandbox(s);
      if fault.Some? {
        var cleaned := RetireSandbox(s);
      }
    }

    /** Continue on another live sandbox and retire the previous one. */
    method SwitchTo(replacement: Sandbox, ghost start: seq<Lease<Sandbox>>, ghost at: int) returns (cleaned: bool)
      requires Valid() && !closing && owns && replacement in live && replacement != sandbox
      requires Evolves(start, at, leases, clock.now)
      modifies this`sandbox, this`retiredSeconds, this`live, this`session, this`retiredUsage, this`leases, provider,
               clock
      ensures Valid() && Evolves(start, at, leases, clock.now)
      ensures sandbox == replacement && session.None?
      ensures cleaned <==> old(provider.WillConfirm(sandbox))
      ensures cleaned ==> old(sandbox) !in live
    {
      var previous := sandbox;
      CloseAgentSession();
      sandbox := replacement;
      ghost var middle, now := leases, clock.now;
      cleaned := RetireSandbox(previous);
      EvolvesOn(start, at, middle, now, leases, clock.now);
    }

    /** Close the current agent session without losing its usage. */
    method CloseAgentSession()
      requires Accounted()
      modifies this`session, this`retiredUsage
      ensures Accounted() && session.None?
      ensures Total(retiredUsage, session) == old(Total(retiredUsage, session))
    {
      if session.Some? {
        retiredUsage := Plus(retiredUsage, session.value);
      }
      session := None;
    }

    /** The calls of a write on the sandbox in use. */
    function WriteHere(): Calls
      reads this`sandbox, sandbox
    {
      WriteTwice(sandbox.weather, sandbox.calls)
    }

    /** A write on the sandbox that replaces it, behind the replay of the mirror, succeeds. */
    predicate WriteThereSucceeds(files: nat)
      reads this`sandbox, provider
    {
      && Replaceable(files)
      && WriteTwice(provider.Offer().value, Replay(provider.Offer().value, 0, files).next).fault.None?
    }

    /** Write one project file: on the sandbox in use, or, if that is lost in transport and can be replaced, on
        the one that replaces it. */
    method WriteText(path: string, content: string) returns (ok: bool)
      requires Valid()
      modifies this`sandbox, this`count, this`retiredSeconds, this`live, this`session, this`retiredUsage, this`leases,
               this`mirror, provider, clock, sandbox
      ensures Valid() && Evolves(old(leases), old(clock.now), leases, clock.now)
      ensures ok <==>
                && !closing
                && (|| old(WriteHere()).fault.None?
                    || (old(WriteHere()).fault == Some(Transport) && old(WriteThereSucceeds(|mirror|))))
      ensures ok ==> mirror == old(mirror)[path := content] && path in sandbox.files && sandbox.files[path] == content
      ensures ok && sandbox != old(sandbox) ==> sandbox.files == mirror
      ensures !ok ==> mirror == old(mirror)
      ensures sandbox != old(sandbox) <==>
                !closing && old(WriteHere()).fault == Some(Transport) && old(Renewable(|mirror|))
      ensures session == if sandbox == old(sandbox) then old(session) else None
    {
      if closing {
        return false;
      }
      var fault := WriteSandboxFile(sandbox, path, content);
      if fault.Some? {
        if !canReplace || fault.value == Fatal {
          return false;
        }
        ok := RewriteAfterReplacement(path, content);
        if !ok {
          return;
        }
      }
      mirror := mirror[path := content];
      return true;
    }

    /** Replace the sandbox, then write one more file to it. */
    method RewriteAfterReplacement(path: string, content: string) returns (ok: bool)
      requires Valid() && !closing
      modifies this`sandbox, this`count, this`retiredSeconds, this`live, this`session, this`retiredUsage, this`leases,
               provider, clock
      ensures Valid() && Evolves(old(leases), old(clock.now), leases, clock.now)
      ensures ok <==> old(WriteThereSucceeds(|mirror|))
      ensures ok ==> sandbox.files == mirror[path := content]
      ensures sandbox != old(sandbox) <==> old(Renewable(|mirror|))
      ensures session == if sandbox == old(sandbox) then old(session) else None
    {
      var result := ReplaceSandbox();
      if result == NotReplaced {
        return false;
      }
      var fault := WriteSandboxFile(sandbox, path, content);
      return fault.None?;
    }

    /** Read one project file, from the mirror when the sandbox cannot answer. */
    method ReadText(path: string) returns (content: Option<string>)
      requires Valid()
      modifies this`mirror, sandbox`calls
      ensures Valid()
      ensures content
           == if closing then None
              else if path in sandbox.files && sandbox.weather(old(sandbox.calls)).fault.None?
              then Some(sandbox.files[path])
              else if path in old(mirror) then Some(old(mirror)[path])
              else None
      ensures mirror == if content.Some? then old(mirror)[path := content.value] else old(mirror)
    {
      if closing {
        return None;
      }
      content := sandbox.Read(path);
      if content.None? {
        if path in mirror {
          assert mirror[path := mirror[path]] == mirror;
          return Some(mirror[path]);
        }
        return None;
      }
      mirror := mirror[path := content.value];
    }

    // ---------------------------------------------------------------- agent turns

    /** Reuse the compatible live session, or retire it and start one. */
    method EnsureSession(compatible: bool, start: Option<Fault>) returns (fault: Option<Fault>)
      requires Accounted()
      modifies this`session, this`retiredUsage
      ensures Accounted()
      ensures fault == if old(session).Some? && compatible then None else start
      ensures fault.None? <==> session.Some?
    {
      if session.Some? && compatible {
        return None;
      }
      CloseAgentSession();
      fault := start;
      if fault.None? {
        session := Some(NO_USAGE);
      }
    }

    /** One attempt. */
    method RunTurn(compatible: bool, turn: TurnFate) returns (fault: Option<Fault>)
      requires Valid() && !closing
      modifies this`session, this`retiredUsage, this`spent, this`attempts, this`mirror, sandbox
      ensures Valid() && attempts == old(attempts) + 1
      ensures var reuses := old(session).Some? && compatible;
              && fault == FaultOf(turn, reuses) && spent == Plus(old(spent), UsedBy(turn, reuses))
              && (Runs(turn, reuses) ==>
                    && sandbox.files == turn.files && mirror == turn.seen
                    && (session.None? <==> turn.fault.Some? && turn.timedOut))
              && (!Runs(turn, reuses) ==> unchanged(sandbox) && mirror == old(mirror) && session.None?)
    {
      attempts := attempts + 1;
      fault := EnsureSession(compatible, turn.start);
      if fault.None? {
        fault := Work(turn);
      }
    }

    /** The agent may do anything to the files, reach the mirror through its tools, use any amount of the model,
        and fail anywhere; a timeout closes its session. */
    method Work(turn: TurnFate) returns (fault: Option<Fault>)
      requires Accounted() && session.Some?
      modifies this`session, this`retiredUsage, this`spent, this`mirror, sandbox
      ensures Accounted() && fault == turn.fault && spent == Plus(old(spent), turn.used)
      ensures sandbox.files == turn.files && mirror == turn.seen
      ensures session.None? <==> turn.fault.Some? && turn.timedOut
    {
      session := Some(Plus(session.value, turn.used));
      spent := Plus(spent, turn.used);
      sandbox.files, sandbox.calls, mirror := turn.files, sandbox.calls + turn.made, turn.seen;
      fault := turn.fault;
      if fault.Some? && turn.timedOut {
        CloseAgentSession();
      }
    }

    /** Run one agent turn, retried once after a transport failure. What it reports is all the worker
        usage its attempts incurred, through every closed session and replaced sandbox. */
    method Run(compatible: bool, usesBash: bool, retryRecoverable: bool, first: TurnFate, second: TurnFate)
      returns (result: RunResult)
      requires Valid()
      modifies this`sandbox, this`count, this`retiredSeconds, this`live, this`session, this`retiredUsage, this`leases,
               this`spent, this`attempts, this`mirror, provider, clock, sandbox
      ensures Valid() && Evolves(old(leases), old(clock.now), leases, clock.now)
      ensures result.Refused? <==> closing || (retryRecoverable && usesBash)
      ensures result.Refused? ==> attempts == old(attempts) && spent == old(spent) && sandbox == old(sandbox)
      ensures result.Done? ==> Plus(old(spent), result.used) == spent
      ensures !result.Refused? ==>
                var reuses := old(session).Some? && compatible;
                var files := if Runs(first, reuses) then |first.seen| else |old(mirror)|;
                var fault := FaultOf(first, reuses);
                var retried := fault == Some(Transport) && retryRecoverable;
                var again := retried && (canReplace ==> old(Replaceable(files)));
                var last := if again then FaultOf(second, false) else fault;
                && attempts == old(attempts) + (if again then 2 else 1)
                && (result.Done? <==> last.None?)
                && (last == Some(Transport) && (retried ==> again) ==> session.None?)
                && spent == Plus(Plus(old(spent), UsedBy(first, reuses)),
                                 if again then UsedBy(second, false) else NO_USAGE)
                && (sandbox != old(sandbox) <==> retried && old(Renewable(files)))
                && (result.Done? ==> mirror == (if again then second else first).seen && session.Some?)
    {
      if closing || (retryRecoverable && usesBash) {
        return Refused;
      }
      result := Attempt(compatible, retryRecoverable, first, second);
    }

    /** One attempt or two. */
    method Attempt(compatible: bool, retryRecoverable: bool, first: TurnFate, second: TurnFate)
      returns (result: RunResult)
      requires Valid() && !closing
      modifies this`sandbox, this`count, this`retiredSeconds, this`live, this`session, this`retiredUsage, this`leases,
               this`spent, this`attempts, this`mirror, provider, clock, sandbox
      ensures Valid() && Evolves(old(leases), old(clock.now), leases, clock.now) && !result.Refused?
      ensures result.Done? ==> Plus(old(spent), result.used) == spent
      ensures var reuses := old(session).Some? && compatible;
              var files := if Runs(first, reuses) then |first.seen| else |old(mirror)|;
              var fault := FaultOf(first, reuses);
              var retried := fault == Some(Transport) && retryRecoverable;
              var again := retried && (canReplace ==> old(Replaceable(files)));
              var last := if again then FaultOf(second, false) else fault;
              && attempts == old(attempts) + (if again then 2 else 1)
              && (result.Done? <==> last.None?)
              && (last == Some(Transport) && (retried ==> again) ==> session.None?)
              && spent == Plus(Plus(old(spent), UsedBy(first, reuses)),
                               if again then UsedBy(second, false) else NO_USAGE)
              && (sandbox != old(sandbox) <==> retried && old(Renewable(files)))
              && (result.Done? ==> mirror == (if again then second else first).seen && session.Some?)
    {
      var before := Total(retiredUsage, session);
      var fault := RunTurn(compatible, first);
      if fault.None? {
        return Done(Minus(Total(retiredUsage, session), before));
      }
      if fault.value == Fatal {
        return Failed;
      }
      if !retryRecoverable {
        CloseAgentSession();
        return Failed;
      }
      result := RunAgain(compatible, before, second);
    }

    /** The second attempt, on a fresh session or a fresh sandbox. */
    method RunAgain(compatible: bool, before: Usage, turn: TurnFate) returns (result: RunResult)
      requires Valid() && !closing
      modifies this`sandbox, this`count, this`retiredSeconds, this`live, this`session, this`retiredUsage, this`leases,
               this`spent, this`attempts, this`mirror, provider, clock, sandbox
      ensures Valid() && Evolves(old(leases), old(clock.now), leases, clock.now) && !result.Refused?
      ensures result.Done? ==> Plus(before, result.used) == spent
      ensures var again := canReplace ==> old(Replaceable(|mirror|));
              && attempts == old(attempts) + (if again then 1 else 0)
              && (result.Done? <==> again && FaultOf(turn, false).None?)
              && (again && FaultOf(turn, false) == Some(Transport) ==> session.None?)
              && spent == Plus(old(spent), if again then UsedBy(turn, false) else NO_USAGE)
              && (result.Done? ==> mirror == turn.seen && session.Some?)
      ensures sandbox != old(sandbox) <==> old(Renewable(|mirror|))
    {
      var ready := Recover();
      if !ready {
        return Failed;
      }
      result := LastTurn(compatible, before, turn);
    }

    /** What comes between two attempts: without the means to replace the sandbox only the session is closed. */
    method Recover() returns (ready: bool)
      requires Valid() && !closing
      modifies this`sandbox, this`count, this`retiredSeconds, this`live, this`session, this`retiredUsage, this`leases,
               provider, clock
      ensures Valid() && Evolves(old(leases), old(clock.now), leases, clock.now)
      ensures ready <==> canReplace ==> old(Replaceable(|mirror|))
      ensures ready ==> session.None?
      ensures sandbox != old(sandbox) <==> old(Renewable(|mirror|))
      ensures sandbox != old(sandbox) ==> fresh(sandbox)
    {
      if !canReplace {
        CloseAgentSession();
        return true;
      }
      var replaced := ReplaceSandbox();
      return replaced == Replaced;
    }

    /** An attempt after which there is no other; a session lost in transport is not used again. */
    method LastTurn(compatible: bool, before: Usage, turn: TurnFate) returns (result: RunResult)
      requires Valid() && !closing && session.None?
      modifies this`session, this`retiredUsage, this`spent, this`attempts, this`mirror, sandbox
      ensures Valid() && attempts == old(attempts) + 1 && !result.Refused?
      ensures result.Done? ==> Plus(before, result.used) == spent && mirror == turn.seen && session.Some?
      ensures result.Done? <==> FaultOf(turn, false).None?
      ensures FaultOf(turn, false) == Some(Transport) ==> session.None?
      ensures spent == Plus(old(spent), UsedBy(turn, false))
    {
      var fault := RunTurn(compatible, turn);
      if fault.None? {
        return Done(Minus(Total(retiredUsage, session), before));
      }
      if fault.value == Transport {
        CloseAgentSession();
      }
      return Failed;
    }

    // ---------------------------------------------------------------- the end

    /** Release every owned lease, keeping the unproven kills for a later retry. */
    method Close() returns (finished: bool)
      requires Valid()
      modifies this`closing, this`finishedAt, this`retiredSeconds, this`live, this`session, this`retiredUsage,
               this`leases, provider, clock
      ensures Valid() && closing && Evolves(old(leases), old(clock.now), leases, clock.now)
      ensures finished <==> finishedAt.Some?
      ensures finished <==> live == map[]
      ensures forall s :: s in live <==> s in old(live) && owns && !old(provider.WillConfirm(s))
      ensures provider.created == old(provider.created)
      ensures owns && finished && old(finishedAt).None? ==> forall s :: s in provider.created ==> s in provider.gone
    {
      if finishedAt.Some? {
        return true;
      }
      closing := true;
      CloseAgentSession();
      var failures := ReleaseAll();
      if failures > 0 {
        return false;
      }
      Finish(old(leases), old(clock.now));
      return true;
    }

    /** No lease is left. */
    method Finish(ghost start: seq<Lease<Sandbox>>, ghost at: int)
      requires Books({}) && Accounted() && (canReplace ==> owns) && closing && live == map[]
      requires Evolves(start, at, leases, clock.now)
      modifies this`finishedAt, clock
      ensures Valid() && finishedAt.Some? && Evolves(start, at, leases, clock.now)
      ensures owns ==> forall s :: s in provider.created ==> s in provider.gone
    {
      ghost var before := clock.now;
      var now := clock.Read();
      RightLater(leases, provider.created, live, retiredSeconds, before, now);
      EvolvesOn(start, at, leases, before, leases, now);
      if owns {
        NoneLeft(leases, provider.gone);
      }
      finishedAt := Some(now);
    }

    /** End every live lease once, and count the kills that were not confirmed. */
    method ReleaseAll() returns (failures: nat)
      requires Books({})
      modifies this`retiredSeconds, this`live, this`leases, provider, clock
      ensures Books({}) && Evolves(old(leases), old(clock.now), leases, clock.now)
      ensures provider.created == old(provider.created)
      ensures forall s :: s in live <==> s in old(live) && owns && !old(provider.WillConfirm(s))
      ensures failures == |live|
    {
      failures := 0;
      var todo := live.Keys;
      while todo != {}
        invariant Books({}) && Evolves(old(leases), old(clock.now), leases, clock.now)
        invariant provider.created == old(provider.created)
        invariant todo <= live.Keys && failures == |live.Keys - todo|
        invariant forall s :: s in todo ==> Tries(provider.kills, s) == Tries(old(provider.kills), s)
        invariant forall s :: s in live <==> s in old(live) && (s in todo || (owns && !old(provider.WillConfirm(s))))
        decreases todo
      {
        var s :| s in todo;
        ghost var middle, at, before := leases, clock.now, live.Keys;
        var confirmed := Release(s);
        EvolvesOn(old(leases), old(clock.now), middle, at, leases, clock.now);
        OneVisited(before, todo, s, confirmed);
        todo := todo - {s};
        failures := if confirmed then failures else failures + 1;
      }
      assert live.Keys - {} == live.Keys;
    }

    /** End one live lease: an owned sandbox has to be confirmed gone, another's is just let go. */
    method Release(s: Sandbox) returns (confirmed: bool)
      requires Books({}) && s in live
      modifies this`retiredSeconds, this`live, this`leases, provider, clock
      ensures Books({}) && Evolves(old(leases), old(clock.now), leases, clock.now)
              && provider.created == old(provider.created)
      ensures live == if confirmed then old(live) - {s} else old(live)
      ensures confirmed <==> owns ==> old(provider.WillConfirm(s))
      ensures forall t :: t in old(live) && t != s ==> Tries(provider.kills, t) == Tries(old(provider.kills), t)
    {
      if owns {
        confirmed := RetireSandbox(s);
      } else {
        EndLease(s);
        confirmed := true;
      }
    }
  }

  lemma FirstLease(leases: seq<Lease<Sandbox>>, live: map<Sandbox, int>, created: seq<Sandbox>, gone: set<Sandbox>,
                   s: Sandbox, start: int)
    requires created == [s] && gone == {} && leases == [Lease(s, start, None)] && live == map[s := start]
    ensures Right(leases, created, live, 0, start) && Confirmed(leases, gone, {})
  {
    RightFirst(s, start);
  }
}
