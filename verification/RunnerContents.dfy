/** What exactly is in a run's plan and in what order, said without following how the plan is put together. */
module RunnerContents {
  import opened RunnerPlan
  import opened Runner

  // The engine is given the payload before the torrent.
  predicate Stages(e: Engine, art: Artefact) {
    e.name in art.seeders && !e.seeding.NoSeeder?
  }

  // Which actions belong to a run in which everything works.
  predicate Planned(s: Setup, arts: seq<Artefact>, x: Action) {
    match x
    case MakeWorkDir => true
    case StartTracker => s.builtinTracker
    case Check(i) => i < |s.swarm|
    case Generate(i, c) => i < |s.swarm| && (c == 0 || c < s.swarm[i].count)
    case MakeDataDir(d) => d < |s.engines|
    case Start(d) => d < |s.engines|
    case AddLegacy(d, t) => d < |s.engines| && t < s.torrents
    case MakeSaveDir(d, a) => d < |s.engines| && a < |arts|
    case Stage(d, a) => d < |s.engines| && a < |arts| && Stages(s.engines[d], arts[a])
    case Add(d, a, seed) =>
      d < |s.engines| && a < |arts| && seed == (Stages(s.engines[d], arts[a]) && !arts[a].verify)
  }

  // Where an action comes: by phase, then by entry or engine, legacy torrents first, then by torrent,
  // and for one torrent in the order directory, payload, add.
  datatype Place = Place(phase: nat, major: nat, kind: nat, minor: nat, step: nat)

  function PlaceOf(x: Action): Place {
    match x
    case MakeWorkDir => Place(0, 0, 0, 0, 0)
    case StartTracker => Place(1, 0, 0, 0, 0)
    case Check(i) => Place(2, i, 0, 0, 0)
    case Generate(i, c) => Place(2, i, 1, c, 0)
    case MakeDataDir(d) => Place(3, d, 0, 0, 0)
    case Start(d) => Place(3, d, 1, 0, 0)
    case AddLegacy(d, t) => Place(4, d, 0, t, 0)
    case MakeSaveDir(d, a) => Place(4, d, 1, a, 0)
    case Stage(d, a) => Place(4, d, 1, a, 1)
    case Add(d, a, _) => Place(4, d, 1, a, 2)
  }

  predicate Earlier(p: Place, q: Place) {
    if p.phase != q.phase then p.phase < q.phase
    else if p.major != q.major then p.major < q.major
    else if p.kind != q.kind then p.kind < q.kind
    else if p.minor != q.minor then p.minor < q.minor
    else p.step < q.step
  }

  predicate Goes(x: Action, y: Action) {
    Earlier(PlaceOf(x), PlaceOf(y))
  }

  ghost predicate Sorted(plan: seq<Action>) {
    forall i, j | 0 <= i < j < |plan| :: Goes(plan[i], plan[j])
  }

  lemma SortedConcat(a: seq<Action>, b: seq<Action>)
    requires Sorted(a) && Sorted(b) && forall x, y | x in a && y in b :: Goes(x, y)
    ensures Sorted(a + b)
  {
    forall i, j | 0 <= i < j < |a + b|
      ensures Goes((a + b)[i], (a + b)[j])
    {
      if i < |a| && j >= |a| {
        assert a[i] in a && b[j - |a|] in b;
      }
    }
  }

  // The parts.

  lemma {:induction false} SubPlanHas(i: nat, n: nat, c: nat)
    requires c <= n
    ensures Sorted(SubPlan(i, n, c))
    ensures forall x :: x in SubPlan(i, n, c) <==> x.Generate? && x.entry == i && c <= x.sub < n
    decreases n - c
  {
    if c < n {
      SubPlanHas(i, n, c + 1);
      SortedConcat([Generate(i, c)], SubPlan(i, n, c + 1));
    }
  }

  lemma EntryPlanHas(sw: SwarmEntry, i: nat)
    ensures Sorted(EntryPlan(sw, i))
    ensures forall x :: x in EntryPlan(sw, i) <==>
      x == Check(i) || (x.Generate? && x.entry == i && (x.sub == 0 || x.sub < sw.count))
  {
    SubPlanHas(i, CountOf(sw), 0);
    SortedConcat([Check(i)], SubPlan(i, CountOf(sw), 0));
  }

  predicate OfEntries(swarm: seq<SwarmEntry>, i: nat, x: Action) {
    match x
    case Check(k) => i <= k < |swarm|
    case Generate(k, c) => i <= k < |swarm| && (c == 0 || c < swarm[k].count)
    case _ => false
  }

  lemma {:induction false} GeneratePlanIs(swarm: seq<SwarmEntry>, i: nat)
    requires i <= |swarm|
    ensures Sorted(GeneratePlan(swarm, i))
    ensures forall x :: x in GeneratePlan(swarm, i) <==> OfEntries(swarm, i, x)
    decreases |swarm| - i
  {
    if i < |swarm| {
      EntryPlanHas(swarm[i], i);
      GeneratePlanIs(swarm, i + 1);
      SortedConcat(EntryPlan(swarm[i], i), GeneratePlan(swarm, i + 1));
    }
  }

  lemma InPair(a: Action, b: Action, rest: seq<Action>)
    ensures forall x :: x in [a, b] + rest <==> x == a || x == b || x in rest
  {
  }

  lemma {:induction false} StartPlanHas(n: nat, d: nat)
    requires d <= n
    ensures Sorted(StartPlan(n, d))
    ensures forall x :: x in StartPlan(n, d) <==> (x.MakeDataDir? || x.Start?) && d <= x.d < n
    decreases n - d
  {
    if d < n {
      StartPlanHas(n, d + 1);
      InPair(MakeDataDir(d), Start(d), StartPlan(n, d + 1));
      SortedConcat([MakeDataDir(d), Start(d)], StartPlan(n, d + 1));
    }
  }

  lemma {:induction false} LegacyPlanHas(d: nat, n: nat, t: nat)
    requires t <= n
    ensures Sorted(LegacyPlan(d, n, t))
    ensures forall x :: x in LegacyPlan(d, n, t) <==> x.AddLegacy? && x.d == d && t <= x.t < n
    decreases n - t
  {
    if t < n {
      LegacyPlanHas(d, n, t + 1);
      SortedConcat([AddLegacy(d, t)], LegacyPlan(d, n, t + 1));
    }
  }

  // The actions for artefact a on engine d.
  predicate OfArtefact(e: Engine, art: Artefact, x: Action) {
    match x
    case MakeSaveDir(_, _) => true
    case Stage(_, _) => Stages(e, art)
    case Add(_, _, seed) => seed == (Stages(e, art) && !art.verify)
    case _ => false
  }

  lemma ArtefactPlanHas(e: Engine, art: Artefact, d: nat, a: nat)
    ensures Sorted(ArtefactPlan(e, art, d, a))
    ensures forall x :: x in ArtefactPlan(e, art, d, a) <==> OfArtefact(e, art, x) && x.d == d && x.a == a
  {
    var plan := ArtefactPlan(e, art, d, a);
    assert plan[0] == MakeSaveDir(d, a);
    if Stages(e, art) {
      assert plan == [MakeSaveDir(d, a), Stage(d, a), Add(d, a, !art.verify)];
    } else {
      assert plan == [MakeSaveDir(d, a), Add(d, a, false)];
    }
  }

  lemma {:induction false} SwarmPlanHas(e: Engine, arts: seq<Artefact>, d: nat, a: nat)
    requires a <= |arts|
    ensures Sorted(SwarmPlan(e, arts, d, a))
    ensures forall x :: x in SwarmPlan(e, arts, d, a) <==>
      (x.MakeSaveDir? || x.Stage? || x.Add?) && x.d == d && a <= x.a < |arts| && OfArtefact(e, arts[x.a], x)
    decreases |arts| - a
  {
    if a < |arts| {
      ArtefactPlanHas(e, arts[a], d, a);
      SwarmPlanHas(e, arts, d, a + 1);
      SortedConcat(ArtefactPlan(e, arts[a], d, a), SwarmPlan(e, arts, d, a + 1));
    }
  }

  // The actions for engines from d on in the last phase.
  predicate OfEngines(s: Setup, arts: seq<Artefact>, d: nat, x: Action) {
    Registers(x) && d <= x.d && Planned(s, arts, x)
  }

  lemma EnginePlanHas(s: Setup, arts: seq<Artefact>, d: nat)
    requires d < |s.engines|
    ensures Sorted(EnginePlan(s.engines[d], s.torrents, arts, d))
    ensures forall x :: x in EnginePlan(s.engines[d], s.torrents, arts, d) <==>
      Registers(x) && x.d == d && Planned(s, arts, x)
  {
    LegacyPlanHas(d, s.torrents, 0);
    SwarmPlanHas(s.engines[d], arts, d, 0);
    SortedConcat(LegacyPlan(d, s.torrents, 0), SwarmPlan(s.engines[d], arts, d, 0));
  }

  lemma EarlierEngine(x: Action, y: Action)
    requires Registers(x) && Registers(y) && x.d < y.d
    ensures Goes(x, y)
  {
  }

  lemma {:induction false} RegisterPlanHas(s: Setup, arts: seq<Artefact>, d: nat)
    requires d <= |s.engines|
    ensures Sorted(RegisterPlan(s, arts, d))
    ensures forall x :: x in RegisterPlan(s, arts, d) <==> OfEngines(s, arts, d, x)
    decreases |s.engines| - d
  {
    if d < |s.engines| {
      EnginePlanHas(s, arts, d);
      RegisterPlanHas(s, arts, d + 1);
      forall x, y | x in EnginePlan(s.engines[d], s.torrents, arts, d) && y in RegisterPlan(s, arts, d + 1)
        ensures Goes(x, y)
      {
        EarlierEngine(x, y);
      }
      SortedConcat(EnginePlan(s.engines[d], s.torrents, arts, d), RegisterPlan(s, arts, d + 1));
    }
  }

  // What the plan of a range of phases holds.
  ghost predicate Covers(s: Setup, arts: seq<Artefact>, plan: seq<Action>, from: nat, to: nat) {
    Sorted(plan) && forall x :: x in plan <==> from <= PlaceOf(x).phase <= to && Planned(s, arts, x)
  }

  lemma PreparationHas(s: Setup, arts: seq<Artefact>)
    ensures Covers(s, arts, Preparation(s), 0, 2)
  {
    var tracker := if s.builtinTracker then [StartTracker] else [];
    GeneratePlanIs(s.swarm, 0);
    SortedConcat(tracker, GeneratePlan(s.swarm, 0));
    SortedConcat([MakeWorkDir], tracker + GeneratePlan(s.swarm, 0));
  }

  lemma CoversConcat(s: Setup, arts: seq<Artefact>, a: seq<Action>, b: seq<Action>, from: nat, mid: nat, to: nat)
    requires from <= mid < to && Covers(s, arts, a, from, mid) && Covers(s, arts, b, mid + 1, to)
    ensures Covers(s, arts, a + b, from, to)
  {
    forall x, y | x in a && y in b
      ensures Goes(x, y)
    {
      assert PlaceOf(x).phase < PlaceOf(y).phase;
    }
    SortedConcat(a, b);
  }

  lemma StartsAre(s: Setup, arts: seq<Artefact>)
    ensures Covers(s, arts, StartPlan(|s.engines|, 0), 3, 3)
  {
    StartPlanHas(|s.engines|, 0);
  }

  lemma RegistersAre(s: Setup, arts: seq<Artefact>)
    ensures Covers(s, arts, RegisterPlan(s, arts, 0), 4, 4)
  {
    RegisterPlanHas(s, arts, 0);
  }

  // The plan holds exactly the actions that belong to the run, each once, in that order.
  lemma PlanIsExact(s: Setup, arts: seq<Artefact>)
    ensures forall x :: x in Plan(s, arts) <==> Planned(s, arts, x)
    ensures forall i, j | 0 <= i < j < |Plan(s, arts)| :: Goes(Plan(s, arts)[i], Plan(s, arts)[j])
  {
    var p, q, r := Preparation(s), StartPlan(|s.engines|, 0), RegisterPlan(s, arts, 0);
    PreparationHas(s, arts);
    StartsAre(s, arts);
    RegistersAre(s, arts);
    CoversConcat(s, arts, q, r, 3, 3, 4);
    CoversConcat(s, arts, p, q + r, 0, 2, 4);
    CoversAll(s, arts, p + (q + r));
  }

  lemma CoversAll(s: Setup, arts: seq<Artefact>, plan: seq<Action>)
    requires Covers(s, arts, plan, 0, 4)
    ensures forall x :: x in plan <==> Planned(s, arts, x)
    ensures forall i, j | 0 <= i < j < |plan| :: Goes(plan[i], plan[j])
  {
  }
}
