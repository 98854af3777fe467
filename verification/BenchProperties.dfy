/** From the --engines list to the staged files: the runner on the instances that the list builds. */
module BenchProperties {
  import opened Decimal
  import I = Instances
  import P = InstanceProperties
  import opened RunnerPlan
  import opened RunnerProperties
  import opened RunnerOutcome

  // Where each engine's driver puts the payload of a seeder.
  function SeedingOf(kind: I.Kind): Seeding {
    match kind
    case Rain => InDataDir
    case Rtorrent => InDataSubdir
    case _ => InSavePath
  }

  function EngineOf(d: I.Driver): Engine {
    Engine(d.name, SeedingOf(d.kind))
  }

  // The paths at which the drivers look.
  lemma BenchPaths(workDir: string, d: I.Driver, name: string)
    ensures SeedPath(workDir, EngineOf(d), name) == workDir + "/" + d.name +
      (match d.kind case Rain => "/" case Rtorrent => "/data/" case _ => "/swarm/") + name
  {
    SeedPathIs(workDir, EngineOf(d), name);
  }

  // The runner's engines are the drivers of the list, in order.
  ghost predicate RunsOn(s: Setup, drivers: seq<I.Driver>) {
    |s.engines| == |drivers| && forall d | 0 <= d < |drivers| :: s.engines[d] == EngineOf(drivers[d])
  }

  lemma InstanceNameIsPlain(spec: I.Spec, inst: nat)
    ensures '/' !in I.InstanceName(spec, inst)
  {
    EngineNameIsPlain(spec.kind);
    assert '/' !in Itoa(inst);
  }

  lemma EngineNameIsPlain(kind: I.Kind)
    ensures '/' !in I.EngineName(kind)
  {
  }

  // A list in which no engine is named twice in the same form gives the runner engines that it can
  // tell apart, by name and by path.
  lemma BuiltEnginesAreDistinct(b: I.Bases, specs: seq<I.Spec>, s: Setup)
    requires P.Counted(specs) && P.DistinctForms(specs) && RunsOn(s, I.Expand(b, specs))
    ensures DistinctEngines(s)
  {
    var drivers := I.Expand(b, specs);
    P.NamesAreDistinct(b, specs);
    forall d | 0 <= d < |s.engines|
      ensures '/' !in s.engines[d].name
    {
      var k, inst := P.OriginOf(b, specs, d);
      InstanceNameIsPlain(specs[k], inst);
    }
    forall c, d | 0 <= c < d < |s.engines|
      ensures s.engines[c].name != s.engines[d].name
    {
      assert drivers[c].name != drivers[d].name;
    }
  }

  // So for such a list and a swarm of generated payloads, whatever fails on the way, an engine that is
  // told to trust a file has that torrent's payload in it, from the add to the end of the run.
  lemma BenchStagesItsSeeds(b: I.Bases, specs: seq<I.Spec>, s: Setup, suffix: (nat, nat) -> string, w: World,
      samples: seq<nat>)
    requires P.Counted(specs) && P.DistinctForms(specs) && RunsOn(s, I.Expand(b, specs)) && AllGenerated(s, suffix)
    ensures TrustIsJustified(s, Artefacts(s, suffix), Trace(s, Artefacts(s, suffix), w, samples))
  {
    BuiltEnginesAreDistinct(b, specs, s);
    GeneratedSeedsAreStaged(s, suffix, w, samples);
  }
}
