/** What a run's trace shows: when the run is complete, what was sampled and stopped; and where files are. */
module RunnerOutcome {
  import opened Decimal
  import opened RunnerPlan
  import opened RunnerProperties
  import opened RunnerContents

  lemma {:induction false} AllOkIff(plan: seq<Action>, w: World)
    ensures AllOk(plan, w) <==> forall x | x in plan :: Works(w, x)
  {
    if plan != [] {
      AllOkIff(plan[1..], w);
      assert plan == [plan[0]] + plan[1..];
    }
  }

  // A swarm entry that the program accepts.
  predicate IsAccepted(sw: SwarmEntry) {
    && (sw.count > 1 ==> sw.payloadPath == "")
    && (sw.payloadPath == "" ==> sw.payloadSize > 0)
  }

  // A run is complete if and only if every entry is acceptable and the environment lets every other
  // action of the run succeed.
  lemma CompleteIff(s: Setup, arts: seq<Artefact>, w: World)
    requires w.swarm == s.swarm
    ensures AllOk(Plan(s, arts), w) <==>
      && (forall sw | sw in s.swarm :: IsAccepted(sw))
      && (forall x | Planned(s, arts, x) && !x.Check? :: w.env(x))
  {
    AllOkIff(Plan(s, arts), w);
    PlanIsExact(s, arts);
    if AllOk(Plan(s, arts), w) {
      forall sw | sw in s.swarm
        ensures IsAccepted(sw)
      {
        var i :| 0 <= i < |s.swarm| && s.swarm[i] == sw;
        assert Planned(s, arts, Check(i)) && Planned(s, arts, Generate(i, 0));
        assert Works(w, Check(i)) && Works(w, Generate(i, 0));
      }
    } else {
      var x :| x in Plan(s, arts) && !Works(w, x);
      if x.Check? || x.Generate? {
        assert s.swarm[x.entry] in s.swarm;
      }
    }
  }

  // A run that is not complete ends with the action that failed.
  lemma {:induction false} EndsInFailure(plan: seq<Action>, w: World)
    ensures var t := Execute(plan, w);
            |t| < |plan| ==> t != [] && t[|t| - 1] == Did(plan[|t| - 1], false)
  {
    if plan != [] {
      EndsInFailure(plan[1..], w);
    }
  }

  // Samples.

  function SamplesOf(t: seq<Event>): seq<nat> {
    if t == [] then [] else (if t[0].Sampled? then [t[0].d] else []) + SamplesOf(t[1..])
  }

  lemma {:induction false} SamplesConcat(a: seq<Event>, b: seq<Event>)
    ensures SamplesOf(a + b) == SamplesOf(a) + SamplesOf(b)
  {
    if a == [] {
      assert a + b == b;
    } else {
      assert (a + b)[1..] == a[1..] + b;
      SamplesConcat(a[1..], b);
    }
  }

  lemma {:induction false} NoSamples(t: seq<Event>)
    requires forall i | 0 <= i < |t| :: !t[i].Sampled?
    ensures SamplesOf(t) == []
  {
    if t != [] {
      NoSamples(t[1..]);
    }
  }

  lemma {:induction false} OnlySamples(samples: seq<nat>, t: seq<Event>)
    requires |t| == |samples| && forall k | 0 <= k < |t| :: t[k] == Sampled(samples[k])
    ensures SamplesOf(t) == samples
  {
    if t != [] {
      OnlySamples(samples[1..], t[1..]);
      assert [samples[0]] + samples[1..] == samples;
    }
  }

  // Samples are taken in a complete run, all of them in order, and in no other.
  lemma SamplesAreTaken(s: Setup, arts: seq<Artefact>, w: World, samples: seq<nat>)
    requires s.engines != []
    ensures SamplesOf(Trace(s, arts, w, samples)) == if AllOk(Plan(s, arts), w) then samples else []
  {
    var body := Execute(Plan(s, arts), w);
    var sampled := if AllOk(Plan(s, arts), w) then SampleEvents(samples) else [];
    var stops, tracker := StopEvents(Started(body)), TrackerEvents(body);
    PartsInPhase(Plan(s, arts), w, body, samples, sampled);
    SamplesConcat(body + sampled + stops, tracker);
    SamplesConcat(body + sampled, stops);
    SamplesConcat(body, sampled);
    NoSamples(body);
    NoSamples(stops);
    NoSamples(tracker);
    if AllOk(Plan(s, arts), w) {
      OnlySamples(samples, sampled);
    }
  }

  // Stops.

  lemma {:induction false} StartedAre(t: seq<Event>, d: nat)
    ensures d in Started(t) <==> Did(Start(d), true) in t
  {
    if t != [] {
      StartedAre(t[1..], d);
      assert t == [t[0]] + t[1..];
    }
  }

  lemma {:induction false} StopsAre(t: seq<Event>, d: nat)
    ensures d in StopsOf(t) <==> Stopped(d) in t
  {
    if t != [] {
      StopsAre(t[1..], d);
      assert t == [t[0]] + t[1..];
    }
  }

  lemma {:induction false} ReversedHas(live: seq<nat>, d: nat)
    ensures d in Reversed(live) <==> d in live
  {
    if live != [] {
      ReversedHas(live[..|live| - 1], d);
      assert live == live[..|live| - 1] + [live[|live| - 1]];
    }
  }

  predicate Descends(live: seq<nat>) {
    forall i, j | 0 <= i < j < |live| :: live[i] > live[j]
  }

  lemma DescendsCons(first: nat, rest: seq<nat>)
    requires Descends(rest) && forall j | 0 <= j < |rest| :: first > rest[j]
    ensures Descends([first] + rest)
  {
  }

  lemma {:induction false} ReversedDescends(live: seq<nat>)
    requires Ascends(live, 0)
    ensures Descends(Reversed(live))
  {
    if live != [] {
      var front, last := live[..|live| - 1], live[|live| - 1];
      ReversedDescends(front);
      forall j | 0 <= j < |Reversed(front)|
        ensures last > Reversed(front)[j]
      {
        ReversedHas(front, Reversed(front)[j]);
        var m :| 0 <= m < |front| && front[m] == Reversed(front)[j];
        assert live[m] == front[m];
      }
      DescendsCons(last, Reversed(front));
    }
  }

  lemma {:induction false} StopsInOrder(t: seq<Event>, k: nat, l: nat)
    requires Descends(StopsOf(t)) && k < l < |t| && t[k].Stopped? && t[l].Stopped?
    ensures t[k].d > t[l].d
  {
    var rest := t[1..];
    if k == 0 {
      StopsAre(rest, t[l].d);
      assert rest[l - 1] == Stopped(t[l].d);
      var m :| 0 <= m < |StopsOf(rest)| && StopsOf(rest)[m] == t[l].d;
      assert StopsOf(t) == [t[0].d] + StopsOf(rest);
      assert StopsOf(t)[0] == t[0].d && StopsOf(t)[m + 1] == t[l].d;
    } else {
      assert forall i, j | 0 <= i < j < |StopsOf(rest)| :: StopsOf(rest)[i] > StopsOf(rest)[j] by {
        var first := if t[0].Stopped? then [t[0].d] else [];
        assert forall i | 0 <= i < |StopsOf(rest)| :: StopsOf(rest)[i] == StopsOf(t)[|first| + i];
      }
      StopsInOrder(rest, k - 1, l - 1);
    }
  }

  // On every exit path an engine is stopped if and only if its start succeeded, once, and engines that
  // come later in the list are stopped first.
  lemma StopsMatchStarts(s: Setup, arts: seq<Artefact>, w: World, samples: seq<nat>)
    ensures var t := Trace(s, arts, w, samples);
            && (forall d :: Stopped(d) in t <==> Did(Start(d), true) in t)
            && (forall k, l | 0 <= k < l < |t| && t[k].Stopped? && t[l].Stopped? :: t[k].d > t[l].d)
  {
    var t := Trace(s, arts, w, samples);
    TeardownIsExact(s, arts, w, samples);
    forall d
      ensures Stopped(d) in t <==> Did(Start(d), true) in t
    {
      StartedAre(t, d);
      StopsAre(t, d);
      ReversedHas(Started(t), d);
    }
    ReversedDescends(Started(t));
    forall k, l | 0 <= k < l < |t| && t[k].Stopped? && t[l].Stopped?
      ensures t[k].d > t[l].d
    {
      StopsInOrder(t, k, l);
    }
  }

  // Files.

  // Where an engine of each kind looks for a payload, as paths on disk.
  lemma SeedPathIs(workDir: string, e: Engine, name: string)
    ensures SeedPath(workDir, e, name) == workDir + "/" + e.name +
      (match e.seeding case InSavePath => "/swarm/" case InDataSubdir => "/data/" case _ => "/") + name
  {
  }

  // The payload that is generated for torrent c of entry i, and the artefact it makes.
  lemma GeneratedArtefact(workDir: string, sw: SwarmEntry, i: nat, c: nat, suffix: string)
    requires sw.payloadPath == "" && '/' !in suffix
    ensures var name := "payload-" + Itoa(i) + "-" + Itoa(c) + "-" + suffix + ".bin";
            ArtefactOf(workDir, sw, i, c, suffix) == Artefact(workDir + "/swarm/" + name, name, sw.seeders, sw.verify)
  {
    BaseIsGenerated(workDir, sw, i, c, suffix);
  }

  // How many torrents the entries from i on make.
  function Torrents(swarm: seq<SwarmEntry>, i: nat): nat
    requires i <= |swarm|
    decreases |swarm| - i
  {
    if i == |swarm| then 0 else (if swarm[i].count > 1 then swarm[i].count else 1) + Torrents(swarm, i + 1)
  }

  lemma {:induction false} EntryCount(make: Maker, sw: SwarmEntry, i: nat, c: nat)
    requires c <= CountOf(sw)
    ensures |EntryArtefacts(make, sw, i, c)| == CountOf(sw) - c
    decreases CountOf(sw) - c
  {
    if c < CountOf(sw) {
      EntryCount(make, sw, i, c + 1);
    }
  }

  // The artefacts: torrent c of entry k stands after those of all earlier entries and of the torrents
  // before it, and there are no others.
  lemma {:induction false} ArtefactsAre(make: Maker, swarm: seq<SwarmEntry>, i: nat, k: nat, c: nat)
    requires i <= k < |swarm| && (c == 0 || c < swarm[k].count)
    ensures |ArtefactsFrom(make, swarm, i)| == Torrents(swarm, i)
    ensures var at := Torrents(swarm, i) - Torrents(swarm, k) + c;
            0 <= at < Torrents(swarm, i) && ArtefactsFrom(make, swarm, i)[at] == make(swarm[k], k, c)
    decreases |swarm| - i
  {
    var first, rest := EntryArtefacts(make, swarm[i], i, 0), ArtefactsFrom(make, swarm, i + 1);
    EntryCount(make, swarm[i], i, 0);
    ArtefactCount(make, swarm, i + 1);
    ArtefactCount(make, swarm, k);
    if i == k {
      EntryOrigin(make, swarm[i], i, 0, c);
      PickFrom(first, rest, c);
    } else {
      ArtefactsAre(make, swarm, i + 1, k, c);
      PickFrom(first, rest, Torrents(swarm, i) - Torrents(swarm, k) + c);
    }
  }

  lemma {:induction false} ArtefactCount(make: Maker, swarm: seq<SwarmEntry>, i: nat)
    requires i <= |swarm|
    ensures |ArtefactsFrom(make, swarm, i)| == Torrents(swarm, i)
    decreases |swarm| - i
  {
    if i < |swarm| {
      EntryCount(make, swarm[i], i, 0);
      ArtefactCount(make, swarm, i + 1);
    }
  }
}
