/** What holds of every run, however it ends: teardown, the order of phases, and the staged payloads. */
module RunnerProperties {
  import opened Wrappers
  import opened Decimal
  import opened RunnerPlan
  import opened Runner
  import opened Text
  import TorrentGen

  // A trace is a prefix of the plan: all of it, or up to the first failure.
  lemma {:induction false} ExecuteShape(plan: seq<Action>, w: World)
    ensures var t := Execute(plan, w);
            && |t| <= |plan|
            && (forall i | 0 <= i < |t| :: t[i] == Did(plan[i], Works(w, plan[i])))
            && (forall i | 0 <= i < |t| - 1 :: Works(w, plan[i]))
            && (AllOk(plan, w) <==> |t| == |plan| && forall i | 0 <= i < |plan| :: Works(w, plan[i]))
  {
    if plan != [] {
      var rest := plan[1..];
      ExecuteShape(rest, w);
      assert forall i | 1 <= i < |plan| :: plan[i] == rest[i - 1];
      assert Execute(plan, w)[0] == Did(plan[0], Works(w, plan[0]));
      if Works(w, plan[0]) {
        assert Execute(plan, w)[1..] == Execute(rest, w);
        assert forall i | 0 <= i < |rest| :: rest[i] == plan[i + 1];
      }
    }
  }

  // Teardown.

  function StopsOf(t: seq<Event>): seq<nat> {
    if t == [] then [] else (if t[0].Stopped? then [t[0].d] else []) + StopsOf(t[1..])
  }

  function Reversed(s: seq<nat>): seq<nat> {
    if s == [] then [] else [s[|s| - 1]] + Reversed(s[..|s| - 1])
  }

  lemma {:induction false} StopsConcat(a: seq<Event>, b: seq<Event>)
    ensures StopsOf(a + b) == StopsOf(a) + StopsOf(b)
  {
    if a == [] {
      assert a + b == b;
    } else {
      assert (a + b)[1..] == a[1..] + b;
      StopsConcat(a[1..], b);
      AddEngine(if a[0].Stopped? then [a[0].d] else [], StopsOf(a[1..]), StopsOf(b));
    }
  }

  lemma {:induction false} NoStops(t: seq<Event>)
    requires forall i | 0 <= i < |t| :: !t[i].Stopped?
    ensures StopsOf(t) == []
  {
    if t != [] {
      NoStops(t[1..]);
    }
  }

  lemma {:induction false} NoStarts(t: seq<Event>)
    requires forall i | 0 <= i < |t| :: !t[i].Did?
    ensures Started(t) == []
  {
    if t != [] {
      NoStarts(t[1..]);
    }
  }

  lemma {:induction false} StopEventsStop(live: seq<nat>)
    ensures StopsOf(StopEvents(live)) == Reversed(live)
    ensures InPhase(StopEvents(live), 2)
  {
    if live != [] {
      StopEventsStop(live[..|live| - 1]);
      assert StopEvents(live)[1..] == StopEvents(live[..|live| - 1]);
    }
  }

  // The phases of a trace: body, samples, stops of engines, stop of the tracker.
  function Phase(e: Event): nat {
    match e
    case Did(_, _) => 0
    case Sampled(_) => 1
    case Stopped(_) => 2
    case TrackerStopped => 3
  }

  predicate InPhase(t: seq<Event>, phase: nat) {
    forall i | 0 <= i < |t| :: Phase(t[i]) == phase
  }

  // The parts of the trace of a run.
  lemma TraceParts(s: Setup, arts: seq<Artefact>, w: World, samples: seq<nat>)
      returns (body: seq<Event>, sampled: seq<Event>, stops: seq<Event>, tracker: seq<Event>)
    requires s.engines != []
    ensures Trace(s, arts, w, samples) == body + sampled + stops + tracker
    ensures body == Execute(Plan(s, arts), w) && stops == StopEvents(Started(body))
    ensures tracker == TrackerEvents(body)
    ensures InPhase(body, 0) && InPhase(sampled, 1) && InPhase(stops, 2) && InPhase(tracker, 3) && |tracker| <= 1
    ensures sampled != [] ==> AllOk(Plan(s, arts), w)
  {
    var plan := Plan(s, arts);
    body := Execute(plan, w);
    sampled := if AllOk(plan, w) then SampleEvents(samples) else [];
    stops, tracker := StopEvents(Started(body)), TrackerEvents(body);
    PartsInPhase(plan, w, body, samples, sampled);
  }

  lemma PartsInPhase(plan: seq<Action>, w: World, body: seq<Event>, samples: seq<nat>, sampled: seq<Event>)
    requires body == Execute(plan, w) && sampled in {[], SampleEvents(samples)}
    ensures InPhase(body, 0) && InPhase(sampled, 1) && InPhase(StopEvents(Started(body)), 2)
    ensures InPhase(TrackerEvents(body), 3) && |TrackerEvents(body)| <= 1
  {
    BodyInPhase(plan, w);
    StopEventsStop(Started(body));
  }

  lemma BodyInPhase(plan: seq<Action>, w: World)
    ensures InPhase(Execute(plan, w), 0)
  {
    ExecuteShape(plan, w);
  }

  lemma StartedOfTrace(body: seq<Event>, sampled: seq<Event>, stops: seq<Event>, tracker: seq<Event>)
    requires InPhase(body, 0) && InPhase(sampled, 1) && InPhase(stops, 2) && InPhase(tracker, 3)
    ensures Started(body + sampled + stops + tracker) == Started(body)
    ensures StopsOf(body + sampled + stops + tracker) == StopsOf(stops)
  {
    StartedConcat(body + sampled + stops, tracker);
    StartedConcat(body + sampled, stops);
    StartedConcat(body, sampled);
    NoStarts(sampled);
    NoStarts(stops);
    NoStarts(tracker);
    StopsConcat(body + sampled + stops, tracker);
    StopsConcat(body + sampled, stops);
    StopsConcat(body, sampled);
    NoStops(body);
    NoStops(sampled);
    NoStops(tracker);
  }

  // On every exit path the engines that were started, and no others, are stopped once each, last first.
  lemma TeardownIsExact(s: Setup, arts: seq<Artefact>, w: World, samples: seq<nat>)
    ensures var t := Trace(s, arts, w, samples);
            StopsOf(t) == Reversed(Started(t)) && Ascends(Started(t), 0)
  {
    if s.engines != [] {
      var body, sampled, stops, tracker := TraceParts(s, arts, w, samples);
      StartedOfTrace(body, sampled, stops, tracker);
      StopEventsStop(Started(body));
      PlanStarts(s, arts, w);
      StartsAscend(|s.engines|, 0, w);
    }
  }

  // Ascending indices from d on.
  predicate Ascends(live: seq<nat>, d: nat) {
    && (forall i | 0 <= i < |live| :: d <= live[i])
    && (forall i, j | 0 <= i < j < |live| :: live[i] < live[j])
  }

  lemma AscendsCons(live: seq<nat>, rest: seq<nat>, d: nat)
    requires Ascends(rest, d + 1) && (live == [] + [d] + rest || live == [])
    ensures Ascends(live, d)
  {
    assert [] + [d] == [d];
  }

  lemma {:induction false} StartsAscend(n: nat, d: nat, w: World)
    requires d <= n
    ensures Ascends(Started(Execute(StartPlan(n, d), w)), d)
    decreases n - d
  {
    if d < n {
      StartsAscend(n, d + 1, w);
      StartedStep([], d, StartPlan(n, d + 1), w);
      var live := Started(Execute(StartPlan(n, d), w));
      assert [] + live == live;
      AscendsCons(live, Started(Execute(StartPlan(n, d + 1), w)), d);
    }
  }

  lemma PartsAscend(body: seq<Event>, sampled: seq<Event>, stops: seq<Event>, tracker: seq<Event>, i: nat, j: nat)
    requires InPhase(body, 0) && InPhase(sampled, 1) && InPhase(stops, 2) && InPhase(tracker, 3) && |tracker| <= 1
    requires forall k | 0 <= k < |body| && !body[k].ok :: k == |body| - 1 && sampled == []
    requires i < j < |body + sampled + stops + tracker|
    ensures var t := body + sampled + stops + tracker;
            Phase(t[i]) <= Phase(t[j]) && !t[i].TrackerStopped? && (t[i].Did? && !t[i].ok ==> Phase(t[j]) >= 2)
  {
  }

  // Stops come after everything else, the tracker's last of all; nothing but stops follows a failure.
  lemma PhasesAscend(s: Setup, arts: seq<Artefact>, w: World, samples: seq<nat>, i: nat, j: nat)
    requires i < j < |Trace(s, arts, w, samples)|
    ensures var t := Trace(s, arts, w, samples);
            Phase(t[i]) <= Phase(t[j]) && !t[i].TrackerStopped? && (t[i].Did? && !t[i].ok ==> Phase(t[j]) >= 2)
  {
    var body, sampled, stops, tracker := TraceParts(s, arts, w, samples);
    ExecuteShape(Plan(s, arts), w);
    PartsAscend(body, sampled, stops, tracker, i, j);
  }

  lemma TrackerInParts(body: seq<Event>, sampled: seq<Event>, stops: seq<Event>, tracker: seq<Event>)
    requires InPhase(body, 0) && InPhase(sampled, 1) && InPhase(stops, 2) && InPhase(tracker, 3)
    ensures TrackerStopped in body + sampled + stops + tracker <==> tracker != []
    ensures Did(StartTracker, true) in body + sampled + stops + tracker <==> Did(StartTracker, true) in body
  {
    assert tracker != [] ==> tracker[0] == TrackerStopped;
  }

  // The tracker is stopped exactly if it was started.
  lemma TrackerTeardown(s: Setup, arts: seq<Artefact>, w: World, samples: seq<nat>)
    ensures var t := Trace(s, arts, w, samples); TrackerStopped in t <==> Did(StartTracker, true) in t
  {
    if s.engines != [] {
      var body, sampled, stops, tracker := TraceParts(s, arts, w, samples);
      TrackerInParts(body, sampled, stops, tracker);
    }
  }

  // Order of preparation.

  // Where an engine is started.
  function StartIndex(s: Setup, d: nat): nat {
    |Preparation(s)| + 2 * d + 1
  }

  lemma StartIsPlanned(s: Setup, arts: seq<Artefact>, d: nat)
    requires d < |s.engines|
    ensures StartIndex(s, d) < |Preparation(s)| + |StartPlan(|s.engines|, 0)| <= |Plan(s, arts)|
    ensures Plan(s, arts)[StartIndex(s, d)] == Start(d)
  {
    var q := StartPlan(|s.engines|, 0);
    StartPlanStarts(|s.engines|, 0);
    assert q[2 * (d - 0) + 1] == Start(d);
  }

  lemma StartsInBody(s: Setup, arts: seq<Artefact>, w: World, j: nat, d: nat)
    requires d < |s.engines| && j <= |Execute(Plan(s, arts), w)|
    requires forall i | 0 <= i < |Execute(Plan(s, arts), w)| :: Execute(Plan(s, arts), w)[i].Did?
    requires
      if j < |Execute(Plan(s, arts), w)| then Registers(Execute(Plan(s, arts), w)[j].action)
      else AllOk(Plan(s, arts), w)
    ensures StartIndex(s, d) < j && Execute(Plan(s, arts), w)[StartIndex(s, d)] == Did(Start(d), true)
  {
    var plan := Plan(s, arts);
    ExecuteShape(plan, w);
    StartIsPlanned(s, arts, d);
    if j < |plan| && Registers(plan[j]) {
      PreparationRegistersNothing(s, arts, j);
    }
  }

  // Every engine is up before any torrent is registered anywhere.
  lemma EnginesFirst(s: Setup, arts: seq<Artefact>, w: World, samples: seq<nat>, j: nat, d: nat)
    requires j < |Trace(s, arts, w, samples)| && d < |s.engines|
    requires var e := Trace(s, arts, w, samples)[j]; e.Sampled? || (e.Did? && Registers(e.action))
    ensures exists i :: 0 <= i < j && Trace(s, arts, w, samples)[i] == Did(Start(d), true)
  {
    var body, sampled, stops, tracker := TraceParts(s, arts, w, samples);
    EnginesFirstInParts(s, arts, w, body, sampled, stops, tracker, j, d);
    assert Trace(s, arts, w, samples)[StartIndex(s, d)] == Did(Start(d), true);
  }

  lemma EnginesFirstInParts(s: Setup, arts: seq<Artefact>, w: World,
      body: seq<Event>, sampled: seq<Event>, stops: seq<Event>, tracker: seq<Event>, j: nat, d: nat)
    requires InPhase(body, 0) && InPhase(sampled, 1) && InPhase(stops, 2) && InPhase(tracker, 3)
    requires body == Execute(Plan(s, arts), w) && (sampled != [] ==> AllOk(Plan(s, arts), w)) && d < |s.engines|
    requires var t := body + sampled + stops + tracker;
             j < |t| && (t[j].Sampled? || (t[j].Did? && Registers(t[j].action)))
    ensures var t := body + sampled + stops + tracker;
            StartIndex(s, d) < j && t[StartIndex(s, d)] == Did(Start(d), true)
  {
    var t := body + sampled + stops + tracker;
    var k := if j < |body| then j else |body|;
    assert j < |body| ==> t[j] == body[j];
    StartsInBody(s, arts, w, k, d);
    assert t[StartIndex(s, d)] == body[StartIndex(s, d)];
  }

  lemma PreparationRegistersNothing(s: Setup, arts: seq<Artefact>, j: nat)
    requires j < |Plan(s, arts)| && Registers(Plan(s, arts)[j])
    ensures j >= |Preparation(s)| + |StartPlan(|s.engines|, 0)|
  {
    var p, q, rest := Preparation(s), StartPlan(|s.engines|, 0), RegisterPlan(s, arts, 0);
    FrontIsSound(s, arts, p + q);
    assert p + (q + rest) == p + q + rest;
    BeyondFront(p + q, rest, Plan(s, arts), j);
  }

  lemma BeyondFront(front: seq<Action>, rest: seq<Action>, plan: seq<Action>, j: nat)
    requires plan == front + rest && j < |plan| && Registers(plan[j])
    requires forall k | 0 <= k < |front| :: !Registers(front[k])
    ensures j >= |front|
  {
  }

  // Staging.

  // The engine is told to trust the staged payload.
  predicate Trusts(e: Engine, art: Artefact) {
    Seeds(e, art) && !art.verify
  }

  predicate Known(s: Setup, arts: seq<Artefact>, x: Action) {
    (x.Stage? || x.Add?) ==>
      && x.d < |s.engines| && x.a < |arts|
      && (x.Stage? ==> Seeds(s.engines[x.d], arts[x.a]))
      && (x.Add? ==> x.seed == Trusts(s.engines[x.d], arts[x.a]))
  }

  // An add that tells the engine to trust the file directly follows the staging.
  predicate Backed(plan: seq<Action>, j: nat) {
    j < |plan| && plan[j].Add? && plan[j].seed ==> j > 0 && plan[j - 1] == Stage(plan[j].d, plan[j].a)
  }

  ghost predicate Sound(s: Setup, arts: seq<Artefact>, plan: seq<Action>) {
    && (forall j | 0 <= j < |plan| :: Known(s, arts, plan[j]))
    && (forall j | 0 <= j < |plan| :: Backed(plan, j))
    && (forall i, j | 0 <= i < j < |plan| && plan[i].Stage? && plan[j].Stage? && plan[i].d == plan[j].d ::
          plan[i].a < plan[j].a)
  }

  ghost predicate StagesApart(x: seq<Action>, y: seq<Action>) {
    forall i, j | 0 <= i < |x| && 0 <= j < |y| && x[i].Stage? && y[j].Stage? && x[i].d == y[j].d :: x[i].a < y[j].a
  }

  lemma SoundConcat(s: Setup, arts: seq<Artefact>, x: seq<Action>, y: seq<Action>)
    requires Sound(s, arts, x) && Sound(s, arts, y) && StagesApart(x, y)
    ensures Sound(s, arts, x + y)
  {
    var plan := x + y;
    forall j | 0 <= j < |plan|
      ensures Backed(plan, j)
    {
      assert if j < |x| then Backed(x, j) else Backed(y, j - |x|);
    }
  }

  // The stagings of a plan are for engine d, from artefact a on.
  predicate StagesFrom(plan: seq<Action>, d: nat, a: nat) {
    forall j | 0 <= j < |plan| && plan[j].Stage? :: plan[j].d == d && a <= plan[j].a
  }

  lemma ArtefactPlanIsSound(s: Setup, arts: seq<Artefact>, d: nat, a: nat, one: seq<Action>)
    requires d < |s.engines| && a < |arts| && one == ArtefactPlan(s.engines[d], arts[a], d, a)
    ensures Sound(s, arts, one) && forall j | 0 <= j < |one| && one[j].Stage? :: one[j] == Stage(d, a)
  {
  }

  lemma PrependIsSound(s: Setup, arts: seq<Artefact>, d: nat, a: nat, one: seq<Action>, rest: seq<Action>)
    requires Sound(s, arts, one) && Sound(s, arts, rest) && StagesFrom(rest, d, a + 1)
    requires forall j | 0 <= j < |one| && one[j].Stage? :: one[j] == Stage(d, a)
    ensures Sound(s, arts, one + rest) && StagesFrom(one + rest, d, a)
  {
    SoundConcat(s, arts, one, rest);
  }

  lemma {:induction false} SwarmPlanIsSound(s: Setup, arts: seq<Artefact>, d: nat, a: nat)
    requires d < |s.engines| && a <= |arts|
    ensures Sound(s, arts, SwarmPlan(s.engines[d], arts, d, a)) && StagesFrom(SwarmPlan(s.engines[d], arts, d, a), d, a)
    decreases |arts| - a
  {
    if a < |arts| {
      var one, rest := ArtefactPlan(s.engines[d], arts[a], d, a), SwarmPlan(s.engines[d], arts, d, a + 1);
      ArtefactPlanIsSound(s, arts, d, a, one);
      SwarmPlanIsSound(s, arts, d, a + 1);
      PrependIsSound(s, arts, d, a, one, rest);
    }
  }

  lemma {:induction false} RegisterPlanIsSound(s: Setup, arts: seq<Artefact>, d: nat)
    requires d <= |s.engines|
    ensures var plan := RegisterPlan(s, arts, d);
            Sound(s, arts, plan) && forall j | 0 <= j < |plan| && plan[j].Stage? :: d <= plan[j].d
    decreases |s.engines| - d
  {
    if d < |s.engines| {
      var e := s.engines[d];
      var legacy, swarm, rest := LegacyPlan(d, s.torrents, 0), SwarmPlan(e, arts, d, 0), RegisterPlan(s, arts, d + 1);
      LegacyPlanRegisters(d, s.torrents, 0);
      SwarmPlanIsSound(s, arts, d, 0);
      RegisterPlanIsSound(s, arts, d + 1);
      SoundConcat(s, arts, legacy, swarm);
      SoundConcat(s, arts, legacy + swarm, rest);
    }
  }

  // Everything before phase 2 stages and adds nothing.
  lemma FrontIsSound(s: Setup, arts: seq<Artefact>, front: seq<Action>)
    requires front == Preparation(s) + StartPlan(|s.engines|, 0)
    ensures Sound(s, arts, front) && forall j | 0 <= j < |front| :: !front[j].Stage? && !Registers(front[j])
  {
    var p, q := Preparation(s), StartPlan(|s.engines|, 0);
    GeneratePlanPrepares(s.swarm, 0);
    StartPlanStarts(|s.engines|, 0);
    assert forall j | 0 <= j < |p| :: !Registers(p[j]);
    assert forall j | 0 <= j < |q| :: !Registers(q[j]);
  }

  lemma PlanIsSound(s: Setup, arts: seq<Artefact>)
    ensures Sound(s, arts, Plan(s, arts))
  {
    var p, q, rest := Preparation(s), StartPlan(|s.engines|, 0), RegisterPlan(s, arts, 0);
    FrontIsSound(s, arts, p + q);
    RegisterPlanIsSound(s, arts, 0);
    SoundConcat(s, arts, p + q, rest);
    assert p + (q + rest) == p + q + rest;
  }

  function PathOf(s: Setup, arts: seq<Artefact>, d: nat, a: nat): string
    requires d < |s.engines| && a < |arts|
  {
    SeedPath(s.workDir, s.engines[d], arts[a].name)
  }

  // The event writes the file at path.
  predicate Writes(s: Setup, arts: seq<Artefact>, e: Event, path: string) {
    && e.Did? && e.action.Stage? && e.action.d < |s.engines| && e.action.a < |arts|
    && PathOf(s, arts, e.action.d, e.action.a) == path
  }

  // The payload that stands at path after t: that of the last staging there, if it went well.
  function FileAt(s: Setup, arts: seq<Artefact>, t: seq<Event>, path: string): Option<string> {
    if t == [] then None
    else
      var last := t[|t| - 1];
      if Writes(s, arts, last, path) then
        if last.ok then Some(arts[last.action.a].payload) else None
      else FileAt(s, arts, t[..|t| - 1], path)
  }

  lemma {:induction false} FileStays(s: Setup, arts: seq<Artefact>, t: seq<Event>, i: nat, path: string,
      payload: string)
    requires i < |t| && Writes(s, arts, t[i], path)
    requires forall m | i <= m < |t| && Writes(s, arts, t[m], path) :: t[m].ok && arts[t[m].action.a].payload == payload
    ensures FileAt(s, arts, t, path) == Some(payload)
  {
    if i < |t| - 1 && !Writes(s, arts, t[|t| - 1], path) {
      FileStays(s, arts, t[..|t| - 1], i, path, payload);
    }
  }

  // From a trusting add on, the file that the engine trusts holds the torrent's payload.
  ghost predicate TrustIsJustified(s: Setup, arts: seq<Artefact>, t: seq<Event>) {
    forall j, n | 0 <= j < n <= |t| && IsTrusting(s, arts, t[j]) ::
      FileAt(s, arts, t[..n], PathOf(s, arts, t[j].action.d, t[j].action.a)) == Some(arts[t[j].action.a].payload)
  }

  predicate IsTrusting(s: Setup, arts: seq<Artefact>, e: Event) {
    e.Did? && e.action.Add? && e.action.seed && e.action.d < |s.engines| && e.action.a < |arts|
  }

  // Names without a slash tell paths apart.
  ghost predicate DistinctEngines(s: Setup) {
    && (forall d | 0 <= d < |s.engines| :: '/' !in s.engines[d].name)
    && (forall c, d | 0 <= c < d < |s.engines| :: s.engines[c].name != s.engines[d].name)
  }

  lemma CancelPrefix(p: string, a: string, b: string)
    requires p + a == p + b
    ensures a == b
  {
    assert (p + a)[|p|..] == a && (p + b)[|p|..] == b;
  }

  // Where an engine looks below its data directory.
  function Subdir(e: Engine): string {
    match e.seeding
    case InSavePath => "swarm/"
    case InDataSubdir => "data/"
    case _ => ""
  }

  lemma SeedPathParts(workDir: string, e: Engine, name: string)
    ensures SeedPath(workDir, e, name) == (workDir + "/") + (e.name + ['/'] + (Subdir(e) + name))
  {
  }

  lemma PathsTellApart(s: Setup, arts: seq<Artefact>, c: nat, a: nat, d: nat, b: nat)
    requires DistinctEngines(s) && c < |s.engines| && d < |s.engines| && a < |arts| && b < |arts|
    requires PathOf(s, arts, c, a) == PathOf(s, arts, d, b)
    ensures c == d && arts[a].name == arts[b].name
  {
    var e, f := s.engines[c], s.engines[d];
    var x, y := Subdir(e) + arts[a].name, Subdir(f) + arts[b].name;
    SeedPathParts(s.workDir, e, arts[a].name);
    SeedPathParts(s.workDir, f, arts[b].name);
    CancelPrefix(s.workDir + "/", e.name + ['/'] + x, f.name + ['/'] + y);
    CutAt(e.name, '/', x);
    CutAt(f.name, '/', y);
    CancelPrefix(Subdir(e), arts[a].name, arts[b].name);
  }

  // No engine that trusts the payload of an artefact is later given another payload of the same name.
  ghost predicate NoClash(s: Setup, arts: seq<Artefact>) {
    forall d, a, b | 0 <= d < |s.engines| && 0 <= a < b < |arts| && Trusts(s.engines[d], arts[a])
      && Seeds(s.engines[d], arts[b]) && arts[a].name == arts[b].name :: arts[a].payload == arts[b].payload
  }

  // Torrent names tell payloads apart; then there is no clash.
  ghost predicate DistinctNames(arts: seq<Artefact>) {
    forall a, b | 0 <= a < b < |arts| :: arts[a].name != arts[b].name
  }

  // What a trace says about staging: a trusting add directly follows its staging, and an engine is
  // given the payloads in the order of the artefacts.
  ghost predicate StagedInOrder(s: Setup, arts: seq<Artefact>, w: World, t: seq<Event>) {
    && (forall j | 0 <= j < |t| && IsTrusting(s, arts, t[j]) ::
          && j > 0 && t[j - 1] == Did(Stage(t[j].action.d, t[j].action.a), true)
          && Trusts(s.engines[t[j].action.d], arts[t[j].action.a]))
    && (forall m | 0 <= m < |t| && IsStaging(t[m]) :: Staged(s, arts, w, t[m]))
    && (forall i, m | 0 <= i < m < |t| && IsStaging(t[i]) && IsStaging(t[m]) && t[i].action.d == t[m].action.d ::
          t[i].action.a < t[m].action.a)
  }

  predicate IsStaging(e: Event) {
    e.Did? && e.action.Stage?
  }

  predicate Staged(s: Setup, arts: seq<Artefact>, w: World, e: Event)
    requires IsStaging(e)
  {
    var x := e.action;
    x.d < |s.engines| && x.a < |arts| && Seeds(s.engines[x.d], arts[x.a]) && e.ok == Works(w, x)
  }

  lemma BodyIsStagedInOrder(s: Setup, arts: seq<Artefact>, w: World, plan: seq<Action>, body: seq<Event>)
    requires Sound(s, arts, plan) && |body| <= |plan|
    requires forall i | 0 <= i < |body| :: body[i] == Did(plan[i], Works(w, plan[i]))
    requires forall i | 0 <= i < |body| - 1 :: Works(w, plan[i])
    ensures StagedInOrder(s, arts, w, body)
  {
    forall j | 0 <= j < |body| && IsTrusting(s, arts, body[j])
      ensures j > 0 && body[j - 1] == Did(Stage(body[j].action.d, body[j].action.a), true)
      ensures Trusts(s.engines[body[j].action.d], arts[body[j].action.a])
    {
      assert Backed(plan, j) && Known(s, arts, plan[j]);
    }
    forall m | 0 <= m < |body| && IsStaging(body[m])
      ensures Staged(s, arts, w, body[m])
    {
      assert Known(s, arts, plan[m]);
    }
  }

  lemma LaterPhasesStageNothing(s: Setup, arts: seq<Artefact>, w: World, body: seq<Event>, rest: seq<Event>)
    requires StagedInOrder(s, arts, w, body) && forall i | 0 <= i < |rest| :: !rest[i].Did?
    ensures StagedInOrder(s, arts, w, body + rest)
  {
    var t := body + rest;
    assert forall i | 0 <= i < |t| && t[i].Did? :: i < |body| && t[i] == body[i];
  }

  lemma TraceIsStagedInOrder(s: Setup, arts: seq<Artefact>, w: World, samples: seq<nat>)
    ensures StagedInOrder(s, arts, w, Trace(s, arts, w, samples))
  {
    if s.engines != [] {
      var body, sampled, stops, tracker := TraceParts(s, arts, w, samples);
      ExecuteShape(Plan(s, arts), w);
      PlanIsSound(s, arts);
      BodyIsStagedInOrder(s, arts, w, Plan(s, arts), body);
      LaterPhasesStageNothing(s, arts, w, body, sampled);
      LaterPhasesStageNothing(s, arts, w, body + sampled, stops);
      LaterPhasesStageNothing(s, arts, w, body + sampled + stops, tracker);
    }
  }

  // One trusting add of such a trace is justified if later stagings at its path bring the same payload.
  lemma AddIsJustified(s: Setup, arts: seq<Artefact>, w: World, t: seq<Event>, j: nat, n: nat)
    requires StagedInOrder(s, arts, w, t) && DistinctEngines(s)
    requires j < n <= |t| && IsTrusting(s, arts, t[j])
    requires var x := t[j].action;
             forall b | x.a < b < |arts| && Seeds(s.engines[x.d], arts[b]) && arts[b].name == arts[x.a].name ::
               arts[b].payload == arts[x.a].payload && Works(w, Stage(x.d, b))
    ensures FileAt(s, arts, t[..n], PathOf(s, arts, t[j].action.d, t[j].action.a)) == Some(arts[t[j].action.a].payload)
  {
    var x := t[j].action;
    var path := PathOf(s, arts, x.d, x.a);
    forall m | j - 1 < m < n && Writes(s, arts, t[m], path)
      ensures t[m].ok && arts[t[m].action.a].payload == arts[x.a].payload
    {
      PathsTellApart(s, arts, x.d, x.a, t[m].action.d, t[m].action.a);
      assert IsStaging(t[m]) && Staged(s, arts, w, t[m]);
      assert IsStaging(t[j - 1]) && t[j - 1].action.a < t[m].action.a;
    }
    FileStays(s, arts, t[..n], j - 1, path, arts[x.a].payload);
  }

  // If the engines' names tell them apart and the torrents' names tell the payloads apart, then on
  // every exit path an engine that is told to trust a file has that file, whole, until the end.
  lemma SeedsAreStaged(s: Setup, arts: seq<Artefact>, w: World, samples: seq<nat>)
    requires DistinctEngines(s) && DistinctNames(arts)
    ensures TrustIsJustified(s, arts, Trace(s, arts, w, samples))
  {
    var t := Trace(s, arts, w, samples);
    TraceIsStagedInOrder(s, arts, w, samples);
    forall j, n | 0 <= j < n <= |t| && IsTrusting(s, arts, t[j])
      ensures FileAt(s, arts, t[..n], PathOf(s, arts, t[j].action.d, t[j].action.a)) ==
          Some(arts[t[j].action.a].payload)
    {
      AddIsJustified(s, arts, w, t, j, n);
    }
  }

  // For a run in which everything works, the exact condition: no clash.
  lemma CompleteRunIsJustified(s: Setup, arts: seq<Artefact>, w: World, samples: seq<nat>)
    requires DistinctEngines(s) && AllOk(Plan(s, arts), w)
    ensures TrustIsJustified(s, arts, Trace(s, arts, w, samples)) <==> NoClash(s, arts)
  {
    if NoClash(s, arts) {
      NoClashIsEnough(s, arts, w, samples);
    } else {
      var d, a, b :| 0 <= d < |s.engines| && 0 <= a < b < |arts| && Trusts(s.engines[d], arts[a])
        && Seeds(s.engines[d], arts[b]) && arts[a].name == arts[b].name && arts[a].payload != arts[b].payload;
      ClashOverwrites(s, arts, w, samples, d, a, b);
    }
  }

  // The actions for an artefact are in the plan.
  lemma {:induction false} SwarmPlanHas(e: Engine, arts: seq<Artefact>, d: nat, from: nat, a: nat)
    requires from <= a < |arts|
    ensures forall x | x in ArtefactPlan(e, arts[a], d, a) :: x in SwarmPlan(e, arts, d, from)
    decreases a - from
  {
    if from < a {
      SwarmPlanHas(e, arts, d, from + 1, a);
    }
  }

  lemma {:induction false} RegisterPlanHas(s: Setup, arts: seq<Artefact>, from: nat, d: nat, a: nat)
    requires from <= d < |s.engines| && a < |arts|
    ensures forall x | x in ArtefactPlan(s.engines[d], arts[a], d, a) :: x in RegisterPlan(s, arts, from)
    decreases d - from
  {
    if from < d {
      RegisterPlanHas(s, arts, from + 1, d, a);
    } else {
      SwarmPlanHas(s.engines[d], arts, d, 0, a);
    }
  }

  lemma ArtefactIsPlanned(s: Setup, arts: seq<Artefact>, d: nat, a: nat)
    requires d < |s.engines| && a < |arts| && Seeds(s.engines[d], arts[a])
    ensures Stage(d, a) in Plan(s, arts) && Add(d, a, !arts[a].verify) in Plan(s, arts)
  {
    RegisterPlanHas(s, arts, 0, d, a);
    var one := ArtefactPlan(s.engines[d], arts[a], d, a);
    assert one[1] == Stage(d, a) && one[2] == Add(d, a, !arts[a].verify);
    assert Stage(d, a) in one && Add(d, a, !arts[a].verify) in one;
  }

  lemma ClashPositions(s: Setup, arts: seq<Artefact>, plan: seq<Action>, d: nat, a: nat, b: nat)
      returns (j: nat, m: nat)
    requires Sound(s, arts, plan) && a < b && Add(d, a, true) in plan && Stage(d, b) in plan
    ensures j < m < |plan| && plan[j] == Add(d, a, true) && plan[m] == Stage(d, b)
  {
    j :| 0 <= j < |plan| && plan[j] == Add(d, a, true);
    m :| 0 <= m < |plan| && plan[m] == Stage(d, b);
    assert Backed(plan, j) && plan[j - 1] == Stage(d, a);
  }

  // The later staging under the same name leaves the wrong payload behind.
  lemma ClashOverwrites(s: Setup, arts: seq<Artefact>, w: World, samples: seq<nat>, d: nat, a: nat, b: nat)
    requires AllOk(Plan(s, arts), w) && d < |s.engines| && a < b < |arts|
    requires Trusts(s.engines[d], arts[a]) && Seeds(s.engines[d], arts[b])
    requires arts[a].name == arts[b].name && arts[a].payload != arts[b].payload
    ensures !TrustIsJustified(s, arts, Trace(s, arts, w, samples))
  {
    var t := Trace(s, arts, w, samples);
    PlanIsSound(s, arts);
    ArtefactIsPlanned(s, arts, d, a);
    ArtefactIsPlanned(s, arts, d, b);
    var j, m := ClashPositions(s, arts, Plan(s, arts), d, a, b);
    PlanIsTrace(s, arts, w, samples, j);
    PlanIsTrace(s, arts, w, samples, m);
    OverwriteBreaksTrust(s, arts, t, j, m);
  }

  lemma OverwriteBreaksTrust(s: Setup, arts: seq<Artefact>, t: seq<Event>, j: nat, m: nat)
    requires j < m < |t| && IsTrusting(s, arts, t[j]) && t[m].Did? && t[m].ok
    requires Writes(s, arts, t[m], PathOf(s, arts, t[j].action.d, t[j].action.a))
    requires arts[t[m].action.a].payload != arts[t[j].action.a].payload
    ensures !TrustIsJustified(s, arts, t)
  {
    var path := PathOf(s, arts, t[j].action.d, t[j].action.a);
    FileStays(s, arts, t[..m + 1], m, path, arts[t[m].action.a].payload);
  }

  lemma PlanIsTrace(s: Setup, arts: seq<Artefact>, w: World, samples: seq<nat>, i: nat)
    requires s.engines != [] && AllOk(Plan(s, arts), w) && i < |Plan(s, arts)|
    ensures i < |Trace(s, arts, w, samples)| && Trace(s, arts, w, samples)[i] == Did(Plan(s, arts)[i], true)
  {
    var body, sampled, stops, tracker := TraceParts(s, arts, w, samples);
    ExecuteShape(Plan(s, arts), w);
    assert Trace(s, arts, w, samples)[i] == body[i];
  }

  lemma {:induction false} AllOkHas(plan: seq<Action>, w: World, x: Action)
    requires AllOk(plan, w) && x in plan
    ensures Works(w, x)
  {
    if x != plan[0] {
      AllOkHas(plan[1..], w, x);
    }
  }

  lemma StagingWorks(s: Setup, arts: seq<Artefact>, w: World, d: nat, b: nat)
    requires AllOk(Plan(s, arts), w) && d < |s.engines| && b < |arts| && Seeds(s.engines[d], arts[b])
    ensures Works(w, Stage(d, b))
  {
    ArtefactIsPlanned(s, arts, d, b);
    AllOkHas(Plan(s, arts), w, Stage(d, b));
  }

  lemma NoClashIsEnough(s: Setup, arts: seq<Artefact>, w: World, samples: seq<nat>)
    requires DistinctEngines(s) && AllOk(Plan(s, arts), w) && NoClash(s, arts)
    ensures TrustIsJustified(s, arts, Trace(s, arts, w, samples))
  {
    var t := Trace(s, arts, w, samples);
    TraceIsStagedInOrder(s, arts, w, samples);
    forall j, n | 0 <= j < n <= |t| && IsTrusting(s, arts, t[j])
      ensures FileAt(s, arts, t[..n], PathOf(s, arts, t[j].action.d, t[j].action.a)) ==
          Some(arts[t[j].action.a].payload)
    {
      var x := t[j].action;
      forall b | x.a < b < |arts| && Seeds(s.engines[x.d], arts[b])
        ensures Works(w, Stage(x.d, b))
      {
        StagingWorks(s, arts, w, x.d, b);
      }
      AddIsJustified(s, arts, w, t, j, n);
    }
  }

  // The exact condition for all exit paths.

  // No engine that trusts a payload is later a seeder of another torrent of the same name.
  ghost predicate NoLaterSeeder(s: Setup, arts: seq<Artefact>) {
    forall d, a, b | 0 <= d < |s.engines| && 0 <= a < b < |arts| && Trusts(s.engines[d], arts[a])
      && Seeds(s.engines[d], arts[b]) :: arts[a].name != arts[b].name
  }

  // The entries that the program itself does not refuse.
  ghost predicate EntriesAllowed(s: Setup) {
    forall i | 0 <= i < |s.swarm| :: Allowed(s.swarm[i]) && HasPayload(s.swarm[i])
  }

  ghost predicate JustifiedInEveryWorld(s: Setup, arts: seq<Artefact>) {
    forall w: World, samples: seq<nat> | w.swarm == s.swarm :: TrustIsJustified(s, arts, Trace(s, arts, w, samples))
  }

  lemma NoLaterSeederIsEnough(s: Setup, arts: seq<Artefact>, w: World, samples: seq<nat>)
    requires DistinctEngines(s) && NoLaterSeeder(s, arts)
    ensures TrustIsJustified(s, arts, Trace(s, arts, w, samples))
  {
    var t := Trace(s, arts, w, samples);
    TraceIsStagedInOrder(s, arts, w, samples);
    forall j, n | 0 <= j < n <= |t| && IsTrusting(s, arts, t[j])
      ensures FileAt(s, arts, t[..n], PathOf(s, arts, t[j].action.d, t[j].action.a)) ==
          Some(arts[t[j].action.a].payload)
    {
      assert Trusts(s.engines[t[j].action.d], arts[t[j].action.a]);
      AddIsJustified(s, arts, w, t, j, n);
    }
  }

  // A run gets as far as everything works.
  lemma {:induction false} ExecuteReaches(plan: seq<Action>, w: World, m: nat)
    requires m < |plan| && forall i | 0 <= i < m :: Works(w, plan[i])
    ensures m < |Execute(plan, w)| && Execute(plan, w)[m] == Did(plan[m], Works(w, plan[m]))
  {
    if m > 0 {
      assert forall i | 0 <= i < m - 1 :: plan[1..][i] == plan[i + 1];
      ExecuteReaches(plan[1..], w, m - 1);
    }
  }

  lemma TraceReaches(s: Setup, arts: seq<Artefact>, w: World, samples: seq<nat>, m: nat)
    requires s.engines != [] && m < |Plan(s, arts)| && forall i | 0 <= i < m :: Works(w, Plan(s, arts)[i])
    ensures var t := Trace(s, arts, w, samples);
            m < |t| && t[m] == Did(Plan(s, arts)[m], Works(w, Plan(s, arts)[m]))
  {
    var body, sampled, stops, tracker := TraceParts(s, arts, w, samples);
    ExecuteReaches(Plan(s, arts), w, m);
    assert Trace(s, arts, w, samples)[m] == body[m];
  }

  // A staging that fails leaves nothing to trust behind.
  lemma FailedStagingBreaksTrust(s: Setup, arts: seq<Artefact>, t: seq<Event>, j: nat, m: nat)
    requires j < m < |t| && IsTrusting(s, arts, t[j]) && t[m].Did? && !t[m].ok
    requires Writes(s, arts, t[m], PathOf(s, arts, t[j].action.d, t[j].action.a))
    ensures !TrustIsJustified(s, arts, t)
  {
    assert FileAt(s, arts, t[..m + 1], PathOf(s, arts, t[j].action.d, t[j].action.a)) == None;
  }

  // The world in which one staging fails and all else works.
  function FailingStage(swarm: seq<SwarmEntry>, d: nat, b: nat): World {
    World(swarm, x => x != Stage(d, b))
  }

  lemma ElseWorks(s: Setup, d: nat, b: nat, x: Action)
    requires EntriesAllowed(s)
    ensures Works(FailingStage(s.swarm, d, b), x) <==> x != Stage(d, b)
  {
  }

  // A sound plan stages each payload once on an engine.
  lemma StagedOnce(s: Setup, arts: seq<Artefact>, plan: seq<Action>, i: nat, m: nat)
    requires Sound(s, arts, plan) && i < m < |plan| && plan[m].Stage?
    ensures plan[i] != plan[m]
  {
  }

  lemma LaterSeederCanFail(s: Setup, arts: seq<Artefact>, d: nat, a: nat, b: nat)
    requires EntriesAllowed(s) && d < |s.engines| && a < b < |arts| && arts[a].name == arts[b].name
    requires Trusts(s.engines[d], arts[a]) && Seeds(s.engines[d], arts[b])
    ensures !TrustIsJustified(s, arts, Trace(s, arts, FailingStage(s.swarm, d, b), []))
  {
    var plan := Plan(s, arts);
    PlanIsSound(s, arts);
    ArtefactIsPlanned(s, arts, d, a);
    ArtefactIsPlanned(s, arts, d, b);
    var j, m := ClashPositions(s, arts, plan, d, a, b);
    forall i | 0 <= i < m
      ensures plan[i] != Stage(d, b)
    {
      StagedOnce(s, arts, plan, i, m);
    }
    FailsThere(s, arts, d, b, j, m);
    FailedStagingBreaksTrust(s, arts, Trace(s, arts, FailingStage(s.swarm, d, b), []), j, m);
  }

  lemma FailsThere(s: Setup, arts: seq<Artefact>, d: nat, b: nat, j: nat, m: nat)
    requires EntriesAllowed(s) && s.engines != [] && j < m < |Plan(s, arts)| && Plan(s, arts)[m] == Stage(d, b)
    requires forall i | 0 <= i < m :: Plan(s, arts)[i] != Stage(d, b)
    ensures var t := Trace(s, arts, FailingStage(s.swarm, d, b), []);
            m < |t| && t[j] == Did(Plan(s, arts)[j], true) && t[m] == Did(Stage(d, b), false)
  {
    var w := FailingStage(s.swarm, d, b);
    forall i | 0 <= i <= m
      ensures Works(w, Plan(s, arts)[i]) <==> i < m
    {
      ElseWorks(s, d, b, Plan(s, arts)[i]);
    }
    TraceReaches(s, arts, w, [], j);
    TraceReaches(s, arts, w, [], m);
  }

  // A refused entry ends every run before anything is added.
  lemma {:induction false} GeneratePlanHas(swarm: seq<SwarmEntry>, from: nat, i: nat)
    requires from <= i < |swarm|
    ensures Check(i) in GeneratePlan(swarm, from) && Generate(i, 0) in GeneratePlan(swarm, from)
    decreases i - from
  {
    if from < i {
      GeneratePlanHas(swarm, from + 1, i);
    } else {
      assert Generate(i, 0) == SubPlan(i, CountOf(swarm[i]), 0)[0];
      assert EntryPlan(swarm[i], i)[0] == Check(i) && EntryPlan(swarm[i], i)[1] == Generate(i, 0);
    }
  }

  lemma RefusedPreparationFails(s: Setup, w: World, i: nat)
    requires w.swarm == s.swarm && i < |s.swarm| && !(Allowed(s.swarm[i]) && HasPayload(s.swarm[i]))
    ensures !AllOk(Preparation(s), w)
  {
    var p := Preparation(s);
    GeneratePlanHas(s.swarm, 0, i);
    assert Check(i) in p && Generate(i, 0) in p;
    if AllOk(p, w) {
      AllOkHas(p, w, Check(i));
      AllOkHas(p, w, Generate(i, 0));
    }
  }

  lemma OnlyBodyTrusts(s: Setup, arts: seq<Artefact>, body: seq<Event>, sampled: seq<Event>, stops: seq<Event>,
      tracker: seq<Event>)
    requires InPhase(sampled, 1) && InPhase(stops, 2) && InPhase(tracker, 3)
    requires forall e | e in body :: !IsTrusting(s, arts, e)
    ensures forall e | e in body + sampled + stops + tracker :: !IsTrusting(s, arts, e)
  {
  }

  lemma RefusedRunsAddNothing(s: Setup, arts: seq<Artefact>, w: World, samples: seq<nat>, i: nat)
    requires w.swarm == s.swarm && i < |s.swarm| && !(Allowed(s.swarm[i]) && HasPayload(s.swarm[i]))
    ensures forall e | e in Trace(s, arts, w, samples) :: !IsTrusting(s, arts, e)
  {
    if s.engines != [] {
      var body, sampled, stops, tracker := TraceParts(s, arts, w, samples);
      RefusedPreparationFails(s, w, i);
      PlanParts(s, arts, w);
      PreparationAddsNothing(s);
      NothingTrusted(s, arts, Preparation(s), w);
      OnlyBodyTrusts(s, arts, body, sampled, stops, tracker);
    }
  }

  lemma PreparationAddsNothing(s: Setup)
    ensures forall k | 0 <= k < |Preparation(s)| :: !Preparation(s)[k].Add?
  {
    GeneratePlanPrepares(s.swarm, 0);
  }

  lemma NothingTrusted(s: Setup, arts: seq<Artefact>, p: seq<Action>, w: World)
    requires forall k | 0 <= k < |p| :: !p[k].Add?
    ensures forall e | e in Execute(p, w) :: !IsTrusting(s, arts, e)
  {
    forall e | e in Execute(p, w)
      ensures !IsTrusting(s, arts, e)
    {
      DidIsPlanned(p, w, e);
    }
  }

  // Whatever works and whatever fails, engines trust only what they have, if and only if the program
  // refuses the setup or no engine that trusts a payload is later a seeder of another torrent of that name.
  lemma JustifiedInEveryWorldIff(s: Setup, arts: seq<Artefact>)
    requires DistinctEngines(s)
    ensures JustifiedInEveryWorld(s, arts) <==> !EntriesAllowed(s) || NoLaterSeeder(s, arts)
  {
    if !EntriesAllowed(s) {
      var i :| 0 <= i < |s.swarm| && !(Allowed(s.swarm[i]) && HasPayload(s.swarm[i]));
      forall w: World, samples: seq<nat> | w.swarm == s.swarm
        ensures TrustIsJustified(s, arts, Trace(s, arts, w, samples))
      {
        RefusedRunsAddNothing(s, arts, w, samples, i);
      }
    } else if NoLaterSeeder(s, arts) {
      forall w: World, samples: seq<nat> | w.swarm == s.swarm
        ensures TrustIsJustified(s, arts, Trace(s, arts, w, samples))
      {
        NoLaterSeederIsEnough(s, arts, w, samples);
      }
    } else {
      var d, a, b :| 0 <= d < |s.engines| && 0 <= a < b < |arts| && Trusts(s.engines[d], arts[a])
        && Seeds(s.engines[d], arts[b]) && arts[a].name == arts[b].name;
      LaterSeederCanFail(s, arts, d, a, b);
      assert FailingStage(s.swarm, d, b).swarm == s.swarm;
    }
  }

  // Two payloads of the same base name: a setup for which a complete run goes wrong.
  function ClashSetup(): Setup {
    Setup("/w", false, 0,
      [SwarmEntry(1, "/a/x", 0, ["e"], false), SwarmEntry(1, "/b/x", 0, ["e"], false)], [Engine("e", InSavePath)])
  }

  // The artefact of an entry with a path is named after the file.
  lemma PathArtefact(workDir: string, sw: SwarmEntry, i: nat, c: nat, suffix: string, dir: string, name: string)
    requires sw.payloadPath == JoinPath(dir, name) && name != "" && '/' !in name
    ensures ArtefactOf(workDir, sw, i, c, suffix) == Artefact(JoinPath(dir, name), name, sw.seeders, sw.verify)
  {
    BaseOfPath(dir, name);
  }

  lemma TwoSingles(make: Maker, sw: SwarmEntry, other: SwarmEntry)
    requires sw.count == 1 && other.count == 1
    ensures ArtefactsFrom(make, [sw, other], 0) == [make(sw, 0, 0), make(other, 1, 0)]
  {
    var swarm := [sw, other];
    assert EntryArtefacts(make, sw, 0, 1) == [] && EntryArtefacts(make, other, 1, 1) == [];
    assert ArtefactsFrom(make, swarm, 2) == [];
    assert ArtefactsFrom(make, swarm, 1) == EntryArtefacts(make, other, 1, 0);
  }

  lemma ClashArtefacts(s: Setup, suffix: (nat, nat) -> string)
    requires s == ClashSetup()
    ensures Artefacts(s, suffix) == [Artefact("/a/x", "x", ["e"], false), Artefact("/b/x", "x", ["e"], false)]
  {
    assert JoinPath("/a", "x") == "/a/x" && JoinPath("/b", "x") == "/b/x";
    PathArtefact(s.workDir, s.swarm[0], 0, 0, suffix(0, 0), "/a", "x");
    PathArtefact(s.workDir, s.swarm[1], 1, 0, suffix(1, 0), "/b", "x");
    TwoSingles(MakerOf(s.workDir, suffix), s.swarm[0], s.swarm[1]);
  }

  lemma ClashExists(suffix: (nat, nat) -> string, w: World, samples: seq<nat>)
    requires AllOk(Plan(ClashSetup(), Artefacts(ClashSetup(), suffix)), w)
    ensures var s := ClashSetup(); var arts := Artefacts(s, suffix);
            !TrustIsJustified(s, arts, Trace(s, arts, w, samples))
  {
    var s := ClashSetup();
    ClashArtefacts(s, suffix);
    ClashOverwrites(s, Artefacts(s, suffix), w, samples, 0, 0, 1);
  }

  // Names of generated payloads.

  // Generated payloads have different names, whatever their random suffixes.
  lemma GeneratedNamesDiffer(i: nat, c: nat, x: string, j: nat, d: nat, y: string)
    requires GeneratedName(i, c, x) == GeneratedName(j, d, y)
    ensures i == j && c == d
  {
    NameDetermines("payload-", i, c, x, ".bin", j, d, y);
  }

  lemma NameDetermines(head: string, i: nat, c: nat, x: string, tail: string, j: nat, d: nat, y: string)
    requires head + Itoa(i) + "-" + Itoa(c) + "-" + x + tail == head + Itoa(j) + "-" + Itoa(d) + "-" + y + tail
    ensures i == j && c == d
  {
    var r, q := Itoa(c) + ("-" + (x + tail)), Itoa(d) + ("-" + (y + tail));
    NameParts(head, Itoa(i), Itoa(c), x, tail);
    NameParts(head, Itoa(j), Itoa(d), y, tail);
    CancelPrefix(head, Itoa(i) + ("-" + r), Itoa(j) + ("-" + q));
    NumeralsDiffer(i, "-" + r, j, "-" + q);
    CancelPrefix("-", r, q);
    NumeralsDiffer(c, "-" + (x + tail), d, "-" + (y + tail));
  }

  lemma NameParts(head: string, i: string, c: string, x: string, tail: string)
    ensures head + i + "-" + c + "-" + x + tail == head + (i + ("-" + (c + ("-" + (x + tail)))))
  {
  }

  // A numeral followed by a dash can be read off the front.
  lemma NumeralsDiffer(i: nat, x: string, j: nat, y: string)
    requires Itoa(i) + x == Itoa(j) + y && x != "" && y != "" && x[0] == '-' && y[0] == '-'
    ensures i == j && x == y
  {
    DigitPrefixEnds(Itoa(i), x);
    DigitPrefixEnds(Itoa(j), y);
    assert (Itoa(i) + x)[..|Itoa(i)|] == Itoa(i) && (Itoa(j) + y)[..|Itoa(j)|] == Itoa(j);
    NumberOfDigits(i);
    NumberOfDigits(j);
    CancelPrefix(Itoa(i), x, y);
  }

  // The base name of a payload generated in a directory.
  lemma BaseOfPath(dir: string, name: string)
    requires name != "" && '/' !in name
    ensures TorrentGen.Base(JoinPath(dir, name)) == name
  {
    TorrentGen.BaseOf(dir + "/", name, "");
    assert dir + "/" + name + "" == JoinPath(dir, name);
  }

  lemma PickFrom(first: seq<Artefact>, rest: seq<Artefact>, k: nat)
    requires k < |first + rest|
    ensures (first + rest)[k] == if k < |first| then first[k] else rest[k - |first|]
  {
  }

  lemma {:induction false} EntryOrigin(make: Maker, sw: SwarmEntry, i: nat, c: nat, k: nat)
    requires c <= CountOf(sw) && k < |EntryArtefacts(make, sw, i, c)|
    ensures EntryArtefacts(make, sw, i, c)[k] == make(sw, i, c + k)
    decreases CountOf(sw) - c
  {
    if k > 0 {
      EntryOrigin(make, sw, i, c + 1, k - 1);
    }
  }

  // Which entry and which of its torrents an artefact comes from.
  lemma {:induction false} OriginOf(make: Maker, swarm: seq<SwarmEntry>, i: nat, k: nat) returns (entry: nat, sub: nat)
    requires i <= |swarm| && k < |ArtefactsFrom(make, swarm, i)|
    ensures i <= entry < |swarm| && ArtefactsFrom(make, swarm, i)[k] == make(swarm[entry], entry, sub)
    decreases |swarm| - i
  {
    var first, rest := EntryArtefacts(make, swarm[i], i, 0), ArtefactsFrom(make, swarm, i + 1);
    PickFrom(first, rest, k);
    if k < |first| {
      EntryOrigin(make, swarm[i], i, 0, k);
      entry, sub := i, k;
    } else {
      entry, sub := OriginOf(make, swarm, i + 1, k - |first|);
    }
  }

  // The payloads are all generated, under suffixes that make file names.
  ghost predicate AllGenerated(s: Setup, suffix: (nat, nat) -> string) {
    (forall i | 0 <= i < |s.swarm| :: s.swarm[i].payloadPath == "") && forall i: nat, c: nat :: '/' !in suffix(i, c)
  }

  lemma BaseIsGenerated(workDir: string, sw: SwarmEntry, i: nat, c: nat, x: string)
    requires sw.payloadPath == "" && '/' !in x
    ensures ArtefactOf(workDir, sw, i, c, x).name == GeneratedName(i, c, x)
  {
    assert '/' !in Itoa(i) && '/' !in Itoa(c);
    BaseOfPath(JoinPath(workDir, "swarm"), GeneratedName(i, c, x));
  }

  lemma ArtefactsDiffer(s: Setup, suffix: (nat, nat) -> string, i: nat, c: nat, j: nat, d: nat)
    requires AllGenerated(s, suffix) && i < |s.swarm| && j < |s.swarm| && (i != j || c != d)
    ensures ArtefactOf(s.workDir, s.swarm[i], i, c, suffix(i, c)).name
         != ArtefactOf(s.workDir, s.swarm[j], j, d, suffix(j, d)).name
  {
    BaseIsGenerated(s.workDir, s.swarm[i], i, c, suffix(i, c));
    BaseIsGenerated(s.workDir, s.swarm[j], j, d, suffix(j, d));
    if GeneratedName(i, c, suffix(i, c)) == GeneratedName(j, d, suffix(j, d)) {
      GeneratedNamesDiffer(i, c, suffix(i, c), j, d, suffix(j, d));
    }
  }

  // Different torrents of a swarm get different names.
  ghost predicate MakesDistinct(make: Maker, swarm: seq<SwarmEntry>) {
    forall i: nat, c: nat, j: nat, d: nat | i < |swarm| && j < |swarm| && (i != j || c != d) ::
      make(swarm[i], i, c).name != make(swarm[j], j, d).name
  }

  lemma DistinctConcat(first: seq<Artefact>, rest: seq<Artefact>)
    requires DistinctNames(first) && DistinctNames(rest)
    requires forall a, b | 0 <= a < |first| && 0 <= b < |rest| :: first[a].name != rest[b].name
    ensures DistinctNames(first + rest)
  {
  }

  lemma EntryIsDistinct(make: Maker, swarm: seq<SwarmEntry>, i: nat)
    requires MakesDistinct(make, swarm) && i < |swarm|
    ensures DistinctNames(EntryArtefacts(make, swarm[i], i, 0))
  {
    var first := EntryArtefacts(make, swarm[i], i, 0);
    forall a, b | 0 <= a < b < |first|
      ensures first[a].name != first[b].name
    {
      EntryOrigin(make, swarm[i], i, 0, a);
      EntryOrigin(make, swarm[i], i, 0, b);
    }
  }

  lemma {:induction false} MadeAreDistinct(make: Maker, swarm: seq<SwarmEntry>, i: nat)
    requires MakesDistinct(make, swarm) && i <= |swarm|
    ensures DistinctNames(ArtefactsFrom(make, swarm, i))
    decreases |swarm| - i
  {
    if i < |swarm| {
      var first, rest := EntryArtefacts(make, swarm[i], i, 0), ArtefactsFrom(make, swarm, i + 1);
      MadeAreDistinct(make, swarm, i + 1);
      EntryIsDistinct(make, swarm, i);
      forall a, b | 0 <= a < |first| && 0 <= b < |rest|
        ensures first[a].name != rest[b].name
      {
        EntryOrigin(make, swarm[i], i, 0, a);
        var j, d := OriginOf(make, swarm, i + 1, b);
      }
      DistinctConcat(first, rest);
    }
  }

  // A swarm whose payloads are all generated has distinct torrent names.
  lemma GeneratedAreDistinct(s: Setup, suffix: (nat, nat) -> string)
    requires AllGenerated(s, suffix)
    ensures DistinctNames(Artefacts(s, suffix))
  {
    var make := MakerOf(s.workDir, suffix);
    forall i: nat, c: nat, j: nat, d: nat | i < |s.swarm| && j < |s.swarm| && (i != j || c != d)
      ensures make(s.swarm[i], i, c).name != make(s.swarm[j], j, d).name
    {
      ArtefactsDiffer(s, suffix, i, c, j, d);
    }
    MadeAreDistinct(make, s.swarm, 0);
  }

  // A run over generated payloads never leaves an engine with a file it wrongly trusts.
  lemma GeneratedSeedsAreStaged(s: Setup, suffix: (nat, nat) -> string, w: World, samples: seq<nat>)
    requires DistinctEngines(s) && AllGenerated(s, suffix)
    ensures TrustIsJustified(s, Artefacts(s, suffix), Trace(s, Artefacts(s, suffix), w, samples))
  {
    GeneratedAreDistinct(s, suffix);
    SeedsAreStaged(s, Artefacts(s, suffix), w, samples);
  }
}
