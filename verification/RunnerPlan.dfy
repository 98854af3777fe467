/**
 What a run of a scenario does, as a sequence of actions: prepare, start every engine, register every
 torrent on every engine. The first action that fails ends it.
 */
module RunnerPlan {
  import opened Decimal
  import TorrentGen

  // How a driver implements Seeder: where the engine looks for a payload, or not at all.
  datatype Seeding = InSavePath | InDataDir | InDataSubdir | NoSeeder

  datatype Engine = Engine(name: string, seeding: Seeding)

  datatype SwarmEntry = SwarmEntry(count: int, payloadPath: string, payloadSize: int, seeders: seq<string>,
      verify: bool)

  // torrents counts the legacy entries.
  datatype Setup = Setup(workDir: string, builtinTracker: bool, torrents: nat, swarm: seq<SwarmEntry>,
      engines: seq<Engine>)

  datatype Artefact = Artefact(payload: string, name: string, seeders: seq<string>, verify: bool)

  // d and a are indices of engines and artefacts. Adding includes reading the torrent file.
  datatype Action =
    | MakeWorkDir
    | StartTracker
    | Check(entry: nat)
    | Generate(entry: nat, sub: nat)
    | MakeDataDir(d: nat)
    | Start(d: nat)
    | AddLegacy(d: nat, t: nat)
    | MakeSaveDir(d: nat, a: nat)
    | Stage(d: nat, a: nat)
    | Add(d: nat, a: nat, seed: bool)

  datatype Event = Did(action: Action, ok: bool) | Sampled(d: nat) | Stopped(d: nat) | TrackerStopped

  // Names on disk.

  // filepath.Join of clean parts.
  function JoinPath(dir: string, name: string): string {
    dir + "/" + name
  }

  // The name of the random payload of a swarm entry; suffix is what crypto/rand yields, in hex.
  function GeneratedName(entry: nat, sub: nat, suffix: string): string {
    "payload-" + Itoa(entry) + "-" + Itoa(sub) + "-" + suffix + ".bin"
  }

  function PayloadOf(workDir: string, sw: SwarmEntry, entry: nat, sub: nat, suffix: string): string {
    if sw.payloadPath != "" then sw.payloadPath
    else JoinPath(JoinPath(workDir, "swarm"), GeneratedName(entry, sub, suffix))
  }

  function ArtefactOf(workDir: string, sw: SwarmEntry, entry: nat, sub: nat, suffix: string): Artefact {
    var payload := PayloadOf(workDir, sw, entry, sub, suffix);
    Artefact(payload, TorrentGen.Base(payload), sw.seeders, sw.verify)
  }

  function CountOf(sw: SwarmEntry): nat {
    if sw.count <= 0 then 1 else sw.count
  }

  // What makes the artefact of a torrent of an entry, by the indices of both.
  type Maker = (SwarmEntry, nat, nat) -> Artefact

  function MakerOf(workDir: string, suffix: (nat, nat) -> string): Maker {
    (sw: SwarmEntry, i: nat, c: nat) => ArtefactOf(workDir, sw, i, c, suffix(i, c))
  }

  function EntryArtefacts(make: Maker, sw: SwarmEntry, i: nat, c: nat): seq<Artefact>
    requires c <= CountOf(sw)
    decreases CountOf(sw) - c
  {
    if c == CountOf(sw) then [] else [make(sw, i, c)] + EntryArtefacts(make, sw, i, c + 1)
  }

  // The artefacts of the entries from i on.
  function ArtefactsFrom(make: Maker, swarm: seq<SwarmEntry>, i: nat): seq<Artefact>
    requires i <= |swarm|
    decreases |swarm| - i
  {
    if i == |swarm| then [] else EntryArtefacts(make, swarm[i], i, 0) + ArtefactsFrom(make, swarm, i + 1)
  }

  function Artefacts(s: Setup, suffix: (nat, nat) -> string): seq<Artefact> {
    ArtefactsFrom(MakerOf(s.workDir, suffix), s.swarm, 0)
  }

  function DataDir(workDir: string, e: Engine): string {
    JoinPath(workDir, e.name)
  }

  function SeedPath(workDir: string, e: Engine, name: string): string {
    match e.seeding
    case InSavePath => JoinPath(JoinPath(DataDir(workDir, e), "swarm"), name)
    case InDataSubdir => JoinPath(JoinPath(DataDir(workDir, e), "data"), name)
    case _ => JoinPath(DataDir(workDir, e), name)
  }

  // The engine is given the payload before the torrent.
  predicate Seeds(e: Engine, art: Artefact) {
    e.name in art.seeders && e.seeding != NoSeeder
  }

  // The plan.

  function SubPlan(i: nat, n: nat, c: nat): seq<Action>
    requires c <= n
    decreases n - c
  {
    if c == n then [] else [Generate(i, c)] + SubPlan(i, n, c + 1)
  }

  function EntryPlan(sw: SwarmEntry, i: nat): seq<Action> {
    [Check(i)] + SubPlan(i, CountOf(sw), 0)
  }

  function GeneratePlan(swarm: seq<SwarmEntry>, i: nat): seq<Action>
    requires i <= |swarm|
    decreases |swarm| - i
  {
    if i == |swarm| then [] else EntryPlan(swarm[i], i) + GeneratePlan(swarm, i + 1)
  }

  function StartPlan(n: nat, d: nat): seq<Action>
    requires d <= n
    decreases n - d
  {
    if d == n then [] else [MakeDataDir(d), Start(d)] + StartPlan(n, d + 1)
  }

  function LegacyPlan(d: nat, n: nat, t: nat): seq<Action>
    requires t <= n
    decreases n - t
  {
    if t == n then [] else [AddLegacy(d, t)] + LegacyPlan(d, n, t + 1)
  }

  // A seeder gets the payload first; the add says so unless the engine is to verify it.
  function ArtefactPlan(e: Engine, art: Artefact, d: nat, a: nat): seq<Action> {
    [MakeSaveDir(d, a)] + DeliveryPlan(e, art, d, a)
  }

  function DeliveryPlan(e: Engine, art: Artefact, d: nat, a: nat): seq<Action> {
    if Seeds(e, art) then [Stage(d, a), Add(d, a, !art.verify)] else [Add(d, a, false)]
  }

  function SwarmPlan(e: Engine, arts: seq<Artefact>, d: nat, a: nat): seq<Action>
    requires a <= |arts|
    decreases |arts| - a
  {
    if a == |arts| then [] else ArtefactPlan(e, arts[a], d, a) + SwarmPlan(e, arts, d, a + 1)
  }

  function EnginePlan(e: Engine, torrents: nat, arts: seq<Artefact>, d: nat): seq<Action> {
    LegacyPlan(d, torrents, 0) + SwarmPlan(e, arts, d, 0)
  }

  function RegisterPlan(s: Setup, arts: seq<Artefact>, d: nat): seq<Action>
    requires d <= |s.engines|
    decreases |s.engines| - d
  {
    if d == |s.engines| then []
    else EnginePlan(s.engines[d], s.torrents, arts, d) + RegisterPlan(s, arts, d + 1)
  }

  function Preparation(s: Setup): seq<Action> {
    [MakeWorkDir] + ((if s.builtinTracker then [StartTracker] else []) + GeneratePlan(s.swarm, 0))
  }

  function Plan(s: Setup, arts: seq<Artefact>): seq<Action> {
    Preparation(s) + (StartPlan(|s.engines|, 0) + RegisterPlan(s, arts, 0))
  }

  // env says what the environment lets succeed; the program itself refuses an entry with several torrents
  // and a payload path, and one with neither a path nor a size.
  datatype World = World(swarm: seq<SwarmEntry>, env: Action -> bool)

  predicate Allowed(sw: SwarmEntry) {
    !(CountOf(sw) > 1 && sw.payloadPath != "")
  }

  predicate HasPayload(sw: SwarmEntry) {
    sw.payloadPath != "" || sw.payloadSize > 0
  }

  predicate Works(w: World, x: Action) {
    match x
    case Check(i) => i < |w.swarm| ==> Allowed(w.swarm[i])
    case Generate(i, _) => (i < |w.swarm| ==> HasPayload(w.swarm[i])) && w.env(x)
    case _ => w.env(x)
  }

  // Carrying out a plan up to its end or its first failure.
  function Execute(plan: seq<Action>, w: World): seq<Event> {
    if plan == [] then []
    else [Did(plan[0], Works(w, plan[0]))] + (if Works(w, plan[0]) then Execute(plan[1..], w) else [])
  }

  predicate AllOk(plan: seq<Action>, w: World) {
    plan == [] || (Works(w, plan[0]) && AllOk(plan[1..], w))
  }

  lemma ExecuteCons(x: Action, rest: seq<Action>, w: World)
    ensures Execute([x] + rest, w) == [Did(x, Works(w, x))] + (if Works(w, x) then Execute(rest, w) else [])
    ensures AllOk([x] + rest, w) <==> Works(w, x) && AllOk(rest, w)
  {
    var plan := [x] + rest;
    assert plan[1..] == rest;
  }

  lemma Regroup(before: seq<Event>, a: seq<Event>, b: seq<Event>)
    ensures before + (a + b) == before + a + b
    ensures before + [] == before
  {
  }

  lemma {:induction false} ExecuteConcat(a: seq<Action>, b: seq<Action>, w: World)
    ensures Execute(a + b, w) == Execute(a, w) + (if AllOk(a, w) then Execute(b, w) else [])
    ensures AllOk(a + b, w) <==> AllOk(a, w) && AllOk(b, w)
  {
    if a == [] {
      assert a + b == b;
      Regroup([], Execute(b, w), []);
    } else {
      var x, rest := a[0], a[1..];
      assert a + b == [x] + (rest + b) && a == [x] + rest;
      ExecuteCons(x, rest + b, w);
      ExecuteCons(x, rest, w);
      ExecuteConcat(rest, b, w);
      Regroup([Did(x, Works(w, x))], Execute(rest, w), if AllOk(rest, w) then Execute(b, w) else []);
      Regroup([Did(x, Works(w, x))], [], []);
    }
  }

  // The same, after what has been recorded.
  lemma Record(before: seq<Event>, x: Action, rest: seq<Action>, w: World)
    ensures before + Execute([x] + rest, w) ==
      if Works(w, x) then before + [Did(x, true)] + Execute(rest, w) else before + [Did(x, false)]
    ensures AllOk([x] + rest, w) <==> Works(w, x) && AllOk(rest, w)
  {
    ExecuteCons(x, rest, w);
    Regroup(before, [Did(x, Works(w, x))], if Works(w, x) then Execute(rest, w) else []);
    Regroup(before + [Did(x, Works(w, x))], [], []);
  }

  lemma RecordAll(before: seq<Event>, a: seq<Action>, rest: seq<Action>, w: World)
    ensures before + Execute(a + rest, w) ==
      if AllOk(a, w) then before + Execute(a, w) + Execute(rest, w) else before + Execute(a, w)
    ensures AllOk(a + rest, w) <==> AllOk(a, w) && AllOk(rest, w)
  {
    ExecuteConcat(a, rest, w);
    Regroup(before, Execute(a, w), if AllOk(a, w) then Execute(rest, w) else []);
    Regroup(before + Execute(a, w), [], []);
  }

  // The engines that were started, in order.
  function Started(events: seq<Event>): seq<nat> {
    if events == [] then []
    else
      (match events[0] case Did(Start(d), true) => [d] case _ => []) + Started(events[1..])
  }

  // The deferred loop over the running engines, last first.
  function StopEvents(live: seq<nat>): seq<Event> {
    if live == [] then [] else [Stopped(live[|live| - 1])] + StopEvents(live[..|live| - 1])
  }

  function SampleEvents(samples: seq<nat>): (r: seq<Event>)
    ensures |r| == |samples| && forall k | 0 <= k < |r| :: r[k] == Sampled(samples[k])
  {
    seq(|samples|, k requires 0 <= k < |samples| => Sampled(samples[k]))
  }

  function TrackerEvents(body: seq<Event>): seq<Event> {
    if Did(StartTracker, true) in body then [TrackerStopped] else []
  }

  // A whole run. samples are the engines in the order in which samples were taken.
  function Trace(s: Setup, arts: seq<Artefact>, w: World, samples: seq<nat>): seq<Event> {
    if s.engines == [] then []
    else
      var body := Execute(Plan(s, arts), w);
      body + (if AllOk(Plan(s, arts), w) then SampleEvents(samples) else [])
      + StopEvents(Started(body)) + TrackerEvents(body)
  }
}
