/** Run, with its helpers, as it goes along: every effect is appended to the trace. */
module Runner {
  import opened RunnerPlan

  lemma {:induction false} StartedConcat(a: seq<Event>, b: seq<Event>)
    ensures Started(a + b) == Started(a) + Started(b)
  {
    if a == [] {
      assert a + b == b;
    } else {
      assert (a + b)[1..] == a[1..] + b;
      StartedConcat(a[1..], b);
    }
  }

  lemma AddAll(arts: seq<Artefact>, a: seq<Artefact>, rest: seq<Artefact>)
    ensures arts + (a + rest) == arts + a + rest
    ensures arts + [] == arts && [] + rest == rest
  {
  }

  lemma SwarmStep(before: seq<Event>, e: Engine, arts: seq<Artefact>, d: nat, a: nat, one: seq<Action>,
      rest: seq<Action>, w: World)
    requires a < |arts| && one == ArtefactPlan(e, arts[a], d, a) && rest == SwarmPlan(e, arts, d, a + 1)
    ensures before + Execute(SwarmPlan(e, arts, d, a), w) ==
      if AllOk(one, w) then before + Execute(one, w) + Execute(rest, w) else before + Execute(one, w)
    ensures AllOk(SwarmPlan(e, arts, d, a), w) <==> AllOk(one, w) && AllOk(rest, w)
  {
    RecordAll(before, one, rest, w);
  }

  class Bench {
    var trace: seq<Event>
    var live: seq<nat>

    constructor ()
      ensures trace == [] && live == []
    {
      trace, live := [], [];
    }

    // One action with an effect; whether it works is up to the environment.
    method Perform(x: Action, w: World) returns (r: bool)
      requires !x.Check? && !x.Generate?
      modifies this`trace
      ensures r == Works(w, x) && trace == old(trace) + [Did(x, r)]
    {
      r := w.env(x);
      trace := trace + [Did(x, r)];
    }

    // Phase 0.5, the body of the inner loop.
    method GenerateOne(sw: SwarmEntry, i: nat, c: nat, w: World) returns (r: bool)
      requires i < |w.swarm| && w.swarm[i] == sw
      modifies this`trace
      ensures r == Works(w, Generate(i, c)) && trace == old(trace) + [Did(Generate(i, c), r)]
    {
      if sw.payloadPath == "" && sw.payloadSize <= 0 {
        r := false;
      } else {
        r := w.env(Generate(i, c));
      }
      trace := trace + [Did(Generate(i, c), r)];
    }

    // Phase 0.5, the inner loop: the torrents of one entry.
    method GenerateEntry(s: Setup, suffix: (nat, nat) -> string, ghost make: Maker, w: World, i: nat)
        returns (r: bool, arts: seq<Artefact>)
      requires i < |s.swarm| && w.swarm == s.swarm && make == MakerOf(s.workDir, suffix)
      modifies this`trace
      ensures trace == old(trace) + Execute(SubPlan(i, CountOf(s.swarm[i]), 0), w)
      ensures r == AllOk(SubPlan(i, CountOf(s.swarm[i]), 0), w)
      ensures r ==> arts == EntryArtefacts(make, s.swarm[i], i, 0)
    {
      var sw, n := s.swarm[i], CountOf(s.swarm[i]);
      ghost var whole := trace + Execute(SubPlan(i, n, 0), w);
      ghost var list := EntryArtefacts(make, sw, i, 0);
      arts := [];
      AddAll([], [], list);
      for c := 0 to n
        invariant trace + Execute(SubPlan(i, n, c), w) == whole
        invariant AllOk(SubPlan(i, n, c), w) == AllOk(SubPlan(i, n, 0), w)
        invariant arts + EntryArtefacts(make, sw, i, c) == list
      {
        Record(trace, Generate(i, c), SubPlan(i, n, c + 1), w);
        r := GenerateOne(sw, i, c, w);
        if !r {
          return;
        }
        var art := ArtefactOf(s.workDir, sw, i, c, suffix(i, c));
        AddAll(arts, [art], EntryArtefacts(make, sw, i, c + 1));
        arts := arts + [art];
      }
      AddAll(arts, [], []);
      Regroup(trace, [], []);
      r := true;
    }

    // Phase 0.5, one entry.
    method ProcessEntry(s: Setup, suffix: (nat, nat) -> string, ghost make: Maker, w: World, i: nat)
        returns (r: bool, arts: seq<Artefact>)
      requires i < |s.swarm| && w.swarm == s.swarm && make == MakerOf(s.workDir, suffix)
      modifies this`trace
      ensures trace == old(trace) + Execute(EntryPlan(s.swarm[i], i), w)
      ensures r == AllOk(EntryPlan(s.swarm[i], i), w)
      ensures r ==> arts == EntryArtefacts(make, s.swarm[i], i, 0)
    {
      Record(trace, Check(i), SubPlan(i, CountOf(s.swarm[i]), 0), w);
      arts := [];
      r := CheckEntry(s.swarm[i], i, w);
      if r {
        r, arts := GenerateEntry(s, suffix, make, w, i);
      }
    }

    // Phase 0.5: the entries in order.
    method GenerateAll(s: Setup, suffix: (nat, nat) -> string, ghost make: Maker, w: World)
        returns (r: bool, arts: seq<Artefact>)
      requires w.swarm == s.swarm && make == MakerOf(s.workDir, suffix)
      modifies this`trace
      ensures trace == old(trace) + Execute(GeneratePlan(s.swarm, 0), w)
      ensures r == AllOk(GeneratePlan(s.swarm, 0), w)
      ensures r ==> arts == ArtefactsFrom(make, s.swarm, 0)
    {
      ghost var whole := trace + Execute(GeneratePlan(s.swarm, 0), w);
      ghost var list := ArtefactsFrom(make, s.swarm, 0);
      arts := [];
      AddAll([], [], list);
      for i := 0 to |s.swarm|
        invariant trace + Execute(GeneratePlan(s.swarm, i), w) == whole
        invariant AllOk(GeneratePlan(s.swarm, i), w) == AllOk(GeneratePlan(s.swarm, 0), w)
        invariant arts + ArtefactsFrom(make, s.swarm, i) == list
      {
        r, arts := GenerateNext(s, suffix, make, w, i, arts);
        if !r {
          return;
        }
      }
      AddAll(arts, [], []);
      Regroup(trace, [], []);
      r := true;
    }

    // Phase 0.5, the body of the outer loop: what is ahead shrinks as the trace and the list grow.
    method GenerateNext(s: Setup, suffix: (nat, nat) -> string, ghost make: Maker, w: World, i: nat,
        done: seq<Artefact>) returns (r: bool, arts: seq<Artefact>)
      requires i < |s.swarm| && w.swarm == s.swarm && make == MakerOf(s.workDir, suffix)
      modifies this`trace
      ensures r ==> AllOk(GeneratePlan(s.swarm, i), w) == AllOk(GeneratePlan(s.swarm, i + 1), w)
      ensures r ==>
        trace + Execute(GeneratePlan(s.swarm, i + 1), w) == old(trace) + Execute(GeneratePlan(s.swarm, i), w)
      ensures r ==> arts + ArtefactsFrom(make, s.swarm, i + 1) == done + ArtefactsFrom(make, s.swarm, i)
      ensures !r ==> trace == old(trace) + Execute(GeneratePlan(s.swarm, i), w) && !AllOk(GeneratePlan(s.swarm, i), w)
    {
      RecordAll(trace, EntryPlan(s.swarm[i], i), GeneratePlan(s.swarm, i + 1), w);
      AddAll(done, EntryArtefacts(make, s.swarm[i], i, 0), ArtefactsFrom(make, s.swarm, i + 1));
      var more: seq<Artefact>;
      r, more := ProcessEntry(s, suffix, make, w, i);
      arts := done + more;
    }

    // Several torrents from one payload are refused.
    method CheckEntry(sw: SwarmEntry, i: nat, w: World) returns (r: bool)
      requires i < |w.swarm| && w.swarm[i] == sw
      modifies this`trace
      ensures r == Works(w, Check(i)) && trace == old(trace) + [Did(Check(i), r)]
    {
      r := !(CountOf(sw) > 1 && sw.payloadPath != "");
      trace := trace + [Did(Check(i), r)];
    }

    // Phase 1, the loop body: an engine is live once it has started.
    method StartOne(d: nat, w: World) returns (r: bool)
      modifies this`trace, this`live
      ensures trace == old(trace) + Execute([MakeDataDir(d), Start(d)], w)
      ensures r == AllOk([MakeDataDir(d), Start(d)], w)
      ensures live == if r then old(live) + [d] else old(live)
    {
      StartSteps(trace, d, w);
      r := Perform(MakeDataDir(d), w);
      if r {
        r := Perform(Start(d), w);
        if r {
          live := live + [d];
        }
      }
    }

    // Phase 1.
    method StartAll(s: Setup, w: World) returns (r: bool)
      requires live == []
      modifies this`trace, this`live
      ensures trace == old(trace) + Execute(StartPlan(|s.engines|, 0), w)
      ensures r == AllOk(StartPlan(|s.engines|, 0), w)
      ensures live == Started(Execute(StartPlan(|s.engines|, 0), w))
    {
      var n := |s.engines|;
      ghost var whole := trace + Execute(StartPlan(n, 0), w);
      ghost var all := Started(Execute(StartPlan(n, 0), w));
      for d := 0 to n
        invariant trace + Execute(StartPlan(n, d), w) == whole
        invariant AllOk(StartPlan(n, d), w) == AllOk(StartPlan(n, 0), w)
        invariant live + Started(Execute(StartPlan(n, d), w)) == all
      {
        ghost var pair, rest := [MakeDataDir(d), Start(d)], StartPlan(n, d + 1);
        RecordAll(trace, pair, rest, w);
        StartedStep(live, d, rest, w);
        r := StartOne(d, w);
        if !r {
          return;
        }
      }
      AddEngine(live, [], []);
      Regroup(trace, [], []);
      r := true;
    }

    // Phase 2, the body of the inner loop.
    method AddArtefact(e: Engine, art: Artefact, d: nat, a: nat, w: World) returns (r: bool)
      modifies this`trace
      ensures trace == old(trace) + Execute(ArtefactPlan(e, art, d, a), w)
      ensures r == AllOk(ArtefactPlan(e, art, d, a), w)
    {
      ArtefactSteps(trace, e, art, d, a, w);
      r := Perform(MakeSaveDir(d, a), w);
      if !r {
        return false;
      }
      var isSeeder := e.name in art.seeders;
      if isSeeder {
        if e.seeding == NoSeeder {
          isSeeder := false;
        } else {
          r := Perform(Stage(d, a), w);
          if !r {
            return false;
          }
        }
      }
      var seedFlag := isSeeder && !art.verify;
      r := Perform(Add(d, a, seedFlag), w);
    }

    // Phase 2 on one engine: the legacy torrents, then the swarm.
    method Register(e: Engine, torrents: nat, arts: seq<Artefact>, d: nat, w: World) returns (r: bool)
      modifies this`trace
      ensures trace == old(trace) + Execute(EnginePlan(e, torrents, arts, d), w)
      ensures r == AllOk(EnginePlan(e, torrents, arts, d), w)
    {
      RecordAll(trace, LegacyPlan(d, torrents, 0), SwarmPlan(e, arts, d, 0), w);
      r := AddAllLegacy(d, torrents, w);
      if r {
        r := AddSwarm(e, arts, d, w);
      }
    }

    method AddAllLegacy(d: nat, n: nat, w: World) returns (r: bool)
      modifies this`trace
      ensures trace == old(trace) + Execute(LegacyPlan(d, n, 0), w)
      ensures r == AllOk(LegacyPlan(d, n, 0), w)
    {
      for t := 0 to n
        invariant trace + Execute(LegacyPlan(d, n, t), w) == old(trace) + Execute(LegacyPlan(d, n, 0), w)
        invariant AllOk(LegacyPlan(d, n, t), w) == AllOk(LegacyPlan(d, n, 0), w)
      {
        Record(trace, AddLegacy(d, t), LegacyPlan(d, n, t + 1), w);
        r := Perform(AddLegacy(d, t), w);
        if !r {
          return;
        }
      }
      Regroup(trace, [], []);
      r := true;
    }

    method AddSwarm(e: Engine, arts: seq<Artefact>, d: nat, w: World) returns (r: bool)
      modifies this`trace
      ensures trace == old(trace) + Execute(SwarmPlan(e, arts, d, 0), w)
      ensures r == AllOk(SwarmPlan(e, arts, d, 0), w)
    {
      ghost var whole := trace + Execute(SwarmPlan(e, arts, d, 0), w);
      for a := 0 to |arts|
        invariant trace + Execute(SwarmPlan(e, arts, d, a), w) == whole
        invariant AllOk(SwarmPlan(e, arts, d, a), w) == AllOk(SwarmPlan(e, arts, d, 0), w)
      {
        SwarmStep(trace, e, arts, d, a, ArtefactPlan(e, arts[a], d, a), SwarmPlan(e, arts, d, a + 1), w);
        r := AddArtefact(e, arts[a], d, a, w);
        if !r {
          return;
        }
      }
      Regroup(trace, [], []);
      r := true;
    }

    // Phase 2: engine by engine.
    method RegisterAll(s: Setup, arts: seq<Artefact>, w: World) returns (r: bool)
      modifies this`trace
      ensures trace == old(trace) + Execute(RegisterPlan(s, arts, 0), w)
      ensures r == AllOk(RegisterPlan(s, arts, 0), w)
    {
      ghost var whole := trace + Execute(RegisterPlan(s, arts, 0), w);
      for d := 0 to |s.engines|
        invariant trace + Execute(RegisterPlan(s, arts, d), w) == whole
        invariant AllOk(RegisterPlan(s, arts, d), w) == AllOk(RegisterPlan(s, arts, 0), w)
      {
        RecordAll(trace, EnginePlan(s.engines[d], s.torrents, arts, d), RegisterPlan(s, arts, d + 1), w);
        r := Register(s.engines[d], s.torrents, arts, d, w);
        if !r {
          return;
        }
      }
      Regroup(trace, [], []);
      r := true;
    }

    // The deferred teardown.
    method StopAll()
      modifies this`trace
      ensures trace == old(trace) + StopEvents(live)
    {
      var i := |live|;
      assert live[..i] == live;
      while i > 0
        invariant 0 <= i <= |live|
        invariant trace + StopEvents(live[..i]) == old(trace) + StopEvents(live)
      {
        i := i - 1;
        assert live[..i + 1][..i] == live[..i];
        Regroup(trace, [Stopped(live[i])], StopEvents(live[..i]));
        trace := trace + [Stopped(live[i])];
      }
      Regroup(trace, [], []);
    }

    // Phase 3: the samples, in whatever order the tickers of the engines fire.
    method Sample(samples: seq<nat>)
      modifies this`trace
      ensures trace == old(trace) + SampleEvents(samples)
    {
      for k := 0 to |samples|
        invariant trace == old(trace) + SampleEvents(samples[..k])
      {
        assert samples[..k + 1] == samples[..k] + [samples[k]];
        assert SampleEvents(samples[..k + 1]) == SampleEvents(samples[..k]) + [Sampled(samples[k])];
        trace := trace + [Sampled(samples[k])];
      }
      assert samples[..|samples|] == samples;
    }

    // Everything before the engines; up says whether the tracker has to be stopped.
    method Prepare(s: Setup, suffix: (nat, nat) -> string, w: World)
        returns (r: bool, up: bool, arts: seq<Artefact>)
      requires w.swarm == s.swarm && trace == []
      modifies this`trace
      ensures trace == Execute(Preparation(s), w)
      ensures r == AllOk(Preparation(s), w)
      ensures up == (s.builtinTracker && Works(w, MakeWorkDir) && Works(w, StartTracker))
      ensures r ==> arts == Artefacts(s, suffix)
    {
      arts := [];
      ghost var tracker := if s.builtinTracker then [StartTracker] else [];
      ghost var rest := GeneratePlan(s.swarm, 0);
      up := false;
      Regroup([], [], Execute(Preparation(s), w));
      Record(trace, MakeWorkDir, tracker + rest, w);
      r := Perform(MakeWorkDir, w);
      if !r {
        return;
      }
      if s.builtinTracker {
        Record(trace, StartTracker, rest, w);
        up := Perform(StartTracker, w);
        if !up {
          r := false;
          return;
        }
      } else {
        assert tracker + rest == rest;
      }
      r, arts := GenerateAll(s, suffix, MakerOf(s.workDir, suffix), w);
    }

    // The phases up to the return; the deferred calls follow in Run.
    method Phases(s: Setup, suffix: (nat, nat) -> string, w: World, samples: seq<nat>) returns (r: bool, up: bool)
      requires w.swarm == s.swarm && trace == [] && live == []
      modifies this
      ensures var plan := Plan(s, Artefacts(s, suffix));
              && trace == Execute(plan, w) + (if r then SampleEvents(samples) else [])
              && r == AllOk(plan, w)
              && live == Started(Execute(plan, w))
              && up == (Did(StartTracker, true) in Execute(plan, w))
    {
      ghost var all := Artefacts(s, suffix);
      PlanParts(s, all, w);
      PlanStarts(s, all, w);
      PlanTracker(s, all, w);
      Regroup(Execute(Plan(s, all), w), [], []);
      var arts: seq<Artefact>;
      r, up, arts := Prepare(s, suffix, w);
      if !r {
        return;
      }
      r := StartAll(s, w);
      if !r {
        return;
      }
      r := RegisterAll(s, arts, w);
      if r {
        Sample(samples);
      }
    }

    // Run: whatever happens, the deferred calls stop the engines and then the tracker.
    method Run(s: Setup, suffix: (nat, nat) -> string, w: World, samples: seq<nat>) returns (failed: bool)
      requires w.swarm == s.swarm && trace == [] && live == []
      modifies this
      ensures trace == Trace(s, Artefacts(s, suffix), w, samples)
      ensures failed <==> s.engines == [] || !AllOk(Plan(s, Artefacts(s, suffix)), w)
      ensures s.engines == [] ==> trace == []
    {
      if |s.engines| == 0 {
        return true;
      }
      var r, up := Phases(s, suffix, w, samples);
      StopAll();
      if up {
        trace := trace + [TrackerStopped];
      }
      failed := !r;
    }
  }

  // Carrying out actions of which none starts an engine.
  lemma {:induction false} NothingStarts(plan: seq<Action>, w: World)
    requires forall i | 0 <= i < |plan| :: !plan[i].Start?
    ensures Started(Execute(plan, w)) == []
  {
    if plan != [] {
      NothingStarts(plan[1..], w);
      assert Execute(plan, w)[1..] == if Works(w, plan[0]) then Execute(plan[1..], w) else [];
    }
  }

  lemma {:induction false} SubPlanGenerates(i: nat, n: nat, c: nat)
    requires c <= n
    ensures forall k | 0 <= k < |SubPlan(i, n, c)| :: SubPlan(i, n, c)[k].Generate?
    decreases n - c
  {
    if c < n {
      SubPlanGenerates(i, n, c + 1);
    }
  }

  lemma {:induction false} GeneratePlanPrepares(swarm: seq<SwarmEntry>, i: nat)
    requires i <= |swarm|
    ensures forall k | 0 <= k < |GeneratePlan(swarm, i)| ::
      GeneratePlan(swarm, i)[k].Check? || GeneratePlan(swarm, i)[k].Generate?
    decreases |swarm| - i
  {
    if i < |swarm| {
      SubPlanGenerates(i, CountOf(swarm[i]), 0);
      GeneratePlanPrepares(swarm, i + 1);
    }
  }

  predicate Registers(x: Action) {
    x.AddLegacy? || x.MakeSaveDir? || x.Stage? || x.Add?
  }

  lemma {:induction false} LegacyPlanRegisters(d: nat, n: nat, t: nat)
    requires t <= n
    ensures forall k | 0 <= k < |LegacyPlan(d, n, t)| :: LegacyPlan(d, n, t)[k].AddLegacy?
    decreases n - t
  {
    if t < n {
      LegacyPlanRegisters(d, n, t + 1);
    }
  }

  lemma {:induction false} SwarmPlanRegisters(e: Engine, arts: seq<Artefact>, d: nat, a: nat)
    requires a <= |arts|
    ensures forall k | 0 <= k < |SwarmPlan(e, arts, d, a)| :: Registers(SwarmPlan(e, arts, d, a)[k])
    decreases |arts| - a
  {
    if a < |arts| {
      SwarmPlanRegisters(e, arts, d, a + 1);
    }
  }

  lemma {:induction false} RegisterPlanRegisters(s: Setup, arts: seq<Artefact>, d: nat)
    requires d <= |s.engines|
    ensures forall k | 0 <= k < |RegisterPlan(s, arts, d)| :: Registers(RegisterPlan(s, arts, d)[k])
    decreases |s.engines| - d
  {
    if d < |s.engines| {
      LegacyPlanRegisters(d, s.torrents, 0);
      SwarmPlanRegisters(s.engines[d], arts, d, 0);
      RegisterPlanRegisters(s, arts, d + 1);
    }
  }

  // The running engines are the ones that phase 1 has started.
  lemma PlanStarts(s: Setup, arts: seq<Artefact>, w: World)
    ensures Started(Execute(Plan(s, arts), w)) ==
      if AllOk(Preparation(s), w) then Started(Execute(StartPlan(|s.engines|, 0), w)) else []
  {
    var p, q, r := Preparation(s), StartPlan(|s.engines|, 0), RegisterPlan(s, arts, 0);
    GeneratePlanPrepares(s.swarm, 0);
    RegisterPlanRegisters(s, arts, 0);
    NothingStarts(p, w);
    NothingStarts(r, w);
    ExecuteConcat(p, q + r, w);
    ExecuteConcat(q, r, w);
    StartedConcat(Execute(p, w), if AllOk(p, w) then Execute(q + r, w) else []);
    StartedConcat(Execute(q, w), if AllOk(q, w) then Execute(r, w) else []);
  }

  lemma PlanParts(s: Setup, arts: seq<Artefact>, w: World)
    ensures
      var plan := Plan(s, arts);
      var p, q, r := Preparation(s), StartPlan(|s.engines|, 0), RegisterPlan(s, arts, 0);
      && (!AllOk(p, w) ==> !AllOk(plan, w) && Execute(plan, w) == Execute(p, w))
      && (AllOk(p, w) && !AllOk(q, w) ==> !AllOk(plan, w) && Execute(plan, w) == Execute(p, w) + Execute(q, w))
      && (AllOk(p, w) && AllOk(q, w) ==>
            AllOk(plan, w) == AllOk(r, w) && Execute(plan, w) == Execute(p, w) + Execute(q, w) + Execute(r, w))
  {
    var p, q, r := Preparation(s), StartPlan(|s.engines|, 0), RegisterPlan(s, arts, 0);
    ExecuteConcat(p, q + r, w);
    RecordAll(Execute(p, w), q, r, w);
    Regroup(Execute(p, w), [], []);
  }

  lemma {:induction false} DidIsPlanned(plan: seq<Action>, w: World, e: Event)
    requires e in Execute(plan, w)
    ensures e.Did? && e.action in plan && e.ok == Works(w, e.action)
  {
    if e != Execute(plan, w)[0] {
      DidIsPlanned(plan[1..], w, e);
    }
  }

  lemma AfterTracker(s: Setup, arts: seq<Artefact>)
    ensures StartTracker !in GeneratePlan(s.swarm, 0) + (StartPlan(|s.engines|, 0) + RegisterPlan(s, arts, 0))
  {
    GeneratePlanPrepares(s.swarm, 0);
    StartPlanStarts(|s.engines|, 0);
    RegisterPlanRegisters(s, arts, 0);
  }

  lemma PlanTracker(s: Setup, arts: seq<Artefact>, w: World)
    ensures Did(StartTracker, true) in Execute(Plan(s, arts), w) <==>
      s.builtinTracker && Works(w, MakeWorkDir) && Works(w, StartTracker)
  {
    var rest := GeneratePlan(s.swarm, 0) + (StartPlan(|s.engines|, 0) + RegisterPlan(s, arts, 0));
    var tracker := if s.builtinTracker then [StartTracker] else [];
    assert Plan(s, arts) == [MakeWorkDir] + (tracker + rest);
    AfterTracker(s, arts);
    TrackerIn(tracker, rest, w);
  }

  lemma TrackerIn(tracker: seq<Action>, rest: seq<Action>, w: World)
    requires StartTracker !in rest && tracker in {[], [StartTracker]}
    ensures Did(StartTracker, true) in Execute([MakeWorkDir] + (tracker + rest), w) <==>
      tracker != [] && Works(w, MakeWorkDir) && Works(w, StartTracker)
  {
    ExecuteCons(MakeWorkDir, tracker + rest, w);
    ExecuteCons(StartTracker, rest, w);
    assert [] + rest == rest;
    if Did(StartTracker, true) in Execute(rest, w) {
      DidIsPlanned(rest, w, Did(StartTracker, true));
    }
  }

  lemma {:induction false} StartPlanStarts(n: nat, d: nat)
    requires d <= n
    ensures |StartPlan(n, d)| == 2 * (n - d)
    ensures forall k | d <= k < n ::
              StartPlan(n, d)[2 * (k - d)] == MakeDataDir(k) && StartPlan(n, d)[2 * (k - d) + 1] == Start(k)
    ensures forall j | 0 <= j < |StartPlan(n, d)| :: StartPlan(n, d)[j].MakeDataDir? || StartPlan(n, d)[j].Start?
    decreases n - d
  {
    if d < n {
      StartPlanStarts(n, d + 1);
      var rest := StartPlan(n, d + 1);
      forall k | d + 1 <= k < n
        ensures StartPlan(n, d)[2 * (k - d)] == MakeDataDir(k) && StartPlan(n, d)[2 * (k - d) + 1] == Start(k)
      {
        assert StartPlan(n, d)[2 * (k - d)] == rest[2 * (k - d) - 2];
        assert 2 * (k - (d + 1)) == 2 * (k - d) - 2;
      }
    }
  }

  lemma StartSteps(prior: seq<Event>, d: nat, w: World)
    ensures
      var pair := [MakeDataDir(d), Start(d)];
      var made := prior + [Did(MakeDataDir(d), Works(w, MakeDataDir(d)))];
      && (AllOk(pair, w) <==> Works(w, MakeDataDir(d)) && Works(w, Start(d)))
      && prior + Execute(pair, w) ==
          if Works(w, MakeDataDir(d)) then made + [Did(Start(d), Works(w, Start(d)))] else made
  {
    assert [MakeDataDir(d), Start(d)] == [MakeDataDir(d)] + [Start(d)] && [Start(d)] + [] == [Start(d)];
    Record(prior, MakeDataDir(d), [Start(d)], w);
    ExecuteCons(Start(d), [], w);
  }

  lemma PairStarts(d: nat, w: World)
    ensures
      var pair := [MakeDataDir(d), Start(d)];
      Started(Execute(pair, w)) == if AllOk(pair, w) then [d] else []
  {
    StartSteps([], d, w);
    var made, started := [Did(MakeDataDir(d), Works(w, MakeDataDir(d)))], [Did(Start(d), Works(w, Start(d)))];
    assert Started(made) == [] by { assert made[1..] == []; }
    assert Started(started) == (if Works(w, Start(d)) then [d] else []) by { assert started[1..] == []; }
    StartedConcat(made, started);
    Regroup([], Execute([MakeDataDir(d), Start(d)], w), []);
  }

  lemma AddEngine(live: seq<nat>, a: seq<nat>, b: seq<nat>)
    ensures live + (a + b) == live + a + b && live + [] == live
  {
  }

  lemma StartedStep(live: seq<nat>, d: nat, rest: seq<Action>, w: World)
    ensures
      var pair := [MakeDataDir(d), Start(d)];
      live + Started(Execute(pair + rest, w)) ==
        if AllOk(pair, w) then live + [d] + Started(Execute(rest, w)) else live
  {
    var pair := [MakeDataDir(d), Start(d)];
    var more := if AllOk(pair, w) then Execute(rest, w) else [];
    PairStarts(d, w);
    ExecuteConcat(pair, rest, w);
    StartedConcat(Execute(pair, w), more);
    AddEngine(live, Started(Execute(pair, w)), Started(more));
    AddEngine(live, [], []);
  }

  lemma ArtefactSteps(prior: seq<Event>, e: Engine, art: Artefact, d: nat, a: nat, w: World)
    ensures
      var plan := ArtefactPlan(e, art, d, a);
      var made := prior + [Did(MakeSaveDir(d, a), Works(w, MakeSaveDir(d, a)))];
      var staged := [Did(Stage(d, a), Works(w, Stage(d, a)))];
      var seed := Seeds(e, art) && !art.verify;
      var added := [Did(Add(d, a, seed), Works(w, Add(d, a, seed)))];
      && (AllOk(plan, w) <==>
            Works(w, MakeSaveDir(d, a)) && (Seeds(e, art) ==> Works(w, Stage(d, a))) && Works(w, Add(d, a, seed)))
      && prior + Execute(plan, w) ==
        if !Works(w, MakeSaveDir(d, a)) then made
        else if Seeds(e, art) then (if Works(w, Stage(d, a)) then made + staged + added else made + staged)
        else made + added
  {
    var seed := Seeds(e, art) && !art.verify;
    ExecuteCons(Add(d, a, seed), [], w);
    ExecuteCons(Stage(d, a), [Add(d, a, seed)], w);
    assert [Add(d, a, seed)] + [] == [Add(d, a, seed)];
    var tail := if Seeds(e, art) then [Stage(d, a)] + [Add(d, a, seed)] else [Add(d, a, seed)];
    ExecuteCons(MakeSaveDir(d, a), tail, w);
    assert ArtefactPlan(e, art, d, a) == [MakeSaveDir(d, a)] + tail;
  }
}
