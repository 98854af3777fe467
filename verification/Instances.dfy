/** The --engines list: engine instances, their names and their host ports. */
module Instances {
  import opened Wrappers
  import opened Decimal
  import opened Text

  datatype Kind = Typhon | Rqbit | Transmission | Libtorrent | Rain | Rtorrent

  // The host-side ports of the first instance of each engine, as the command line gives them.
  datatype Bases = Bases(
    rqbitApi: int, rqbitListen: int,
    transmissionApi: int, transmissionListen: int,
    qbitApi: int, qbitListen: int,
    rainRpc: int,
    rtorrentScgi: int, rtorrentListen: int)

  const DEFAULTS := Bases(13030, 14240, 19091, 19092, 18080, 18881, 17246, 15000, 15010)

  // The fields of a driver that buildDrivers sets, and its name, the wrapper's if it is wrapped. ports
  // are the host ports that the instance will take.
  datatype Driver = Driver(kind: Kind, name: string, ports: seq<int>)

  // A checked token of the list: so many instances of an engine.
  datatype Spec = Spec(kind: Kind, count: nat)

  function EngineName(kind: Kind): string {
    match kind
    case Typhon => "typhon"
    case Rqbit => "rqbit"
    case Transmission => "transmission"
    case Libtorrent => "libtorrent"
    case Rain => "rain"
    case Rtorrent => "rtorrent"
  }

  function KindOf(name: string): (r: Option<Kind>)
    ensures r.Some? ==> EngineName(r.value) == name
  {
    if name == "typhon" then Some(Typhon)
    else if name == "rqbit" then Some(Rqbit)
    else if name == "transmission" then Some(Transmission)
    else if name == "libtorrent" then Some(Libtorrent)
    else if name == "rain" then Some(Rain)
    else if name == "rtorrent" then Some(Rtorrent)
    else None
  }

  // Ports of the first instance. rqbit listens on a range of six.
  function BasePorts(b: Bases, kind: Kind): seq<int> {
    match kind
    case Typhon => []
    case Rqbit =>
      [b.rqbitApi, b.rqbitListen, b.rqbitListen + 1, b.rqbitListen + 2,
       b.rqbitListen + 3, b.rqbitListen + 4, b.rqbitListen + 5]
    case Transmission => [b.transmissionApi, b.transmissionListen]
    case Libtorrent => [b.qbitApi, b.qbitListen]
    case Rain => [b.rainRpc]
    case Rtorrent => [b.rtorrentScgi, b.rtorrentListen]
  }

  function Shifted(ports: seq<int>, off: int): (r: seq<int>)
    ensures |r| == |ports| && forall a | 0 <= a < |ports| :: r[a] == ports[a] + off
  {
    seq(|ports|, a requires 0 <= a < |ports| => ports[a] + off)
  }

  function InstanceName(spec: Spec, inst: nat): string {
    if spec.count > 1 then EngineName(spec.kind) + "-" + Itoa(inst) else EngineName(spec.kind)
  }

  function Instance(b: Bases, spec: Spec, inst: nat): Driver {
    Driver(spec.kind, InstanceName(spec, inst), Shifted(BasePorts(b, spec.kind), inst * 100))
  }

  function Drivers(b: Bases, spec: Spec, count: nat): (r: seq<Driver>)
    ensures |r| == count && forall inst | 0 <= inst < count :: r[inst] == Instance(b, spec, inst)
  {
    seq(count, inst requires 0 <= inst => Instance(b, spec, inst))
  }

  // All instances, in the order of the list.
  function Expand(b: Bases, specs: seq<Spec>): seq<Driver> {
    if specs == [] then [] else Drivers(b, specs[0], specs[0].count) + Expand(b, specs[1..])
  }

  const BAD_COUNT := "invalid instance count: must be positive integer"
  const UNKNOWN := "unknown engine"
  const NONE_SELECTED := "no engines selected"

  function ParseEngineSpec(spec: string): Result<(string, nat)> {
    var parts := Cut(spec, ':');
    match parts.1
    case None => Ok((parts.0, 1))
    case Some(text) =>
      match ParseInt(text)
      case None => Err(BAD_COUNT)
      case Some(n) => if n < 1 then Err(BAD_COUNT) else Ok((parts.0, n))
  }

  // A token that is not blank: its count is looked at before its name.
  function Resolve(token: string): (r: Result<Spec>)
    ensures r.Ok? ==> r.value.count >= 1
  {
    match ParseEngineSpec(token)
    case Err(error) => Err(error)
    case Ok((name, count)) =>
      match KindOf(name)
      case None => Err(UNKNOWN)
      case Some(kind) => Ok(Spec(kind, count))
  }

  // The tokens in order, blank ones skipped; the first bad one ends it.
  function ResolveAll(tokens: seq<string>): Result<seq<Spec>> {
    if tokens == [] then Ok([])
    else
      var token := TrimSpace(tokens[0]);
      if token == "" then ResolveAll(tokens[1..])
      else
        match Resolve(token)
        case Err(error) => Err(error)
        case Ok(spec) => Prepend([spec], ResolveAll(tokens[1..]))
  }

  function Prepend(front: seq<Spec>, back: Result<seq<Spec>>): Result<seq<Spec>> {
    match back
    case Ok(specs) => Ok(front + specs)
    case Err(error) => Err(error)
  }

  lemma PrependTwice(a: seq<Spec>, b: seq<Spec>, r: Result<seq<Spec>>)
    ensures Prepend(a, Prepend(b, r)) == Prepend(a + b, r)
    ensures Prepend([], r) == r
    ensures Prepend(a, Ok([])) == Ok(a)
  {
    assert a + [] == a;
    if r.Ok? {
      assert a + (b + r.value) == a + b + r.value;
      assert [] + r.value == r.value;
    }
  }

  function Build(b: Bases, list: string): Result<seq<Driver>> {
    match ResolveAll(Split(list, ','))
    case Err(error) => Err(error)
    case Ok(specs) => if specs == [] then Err(NONE_SELECTED) else Ok(Expand(b, specs))
  }

  lemma {:induction false} ExpandSnoc(b: Bases, specs: seq<Spec>, spec: Spec)
    ensures Expand(b, specs + [spec]) == Expand(b, specs) + Drivers(b, spec, spec.count)
  {
    if specs == [] {
      assert (specs + [spec])[1..] == [];
    } else {
      assert (specs + [spec])[1..] == specs[1..] + [spec];
      ExpandSnoc(b, specs[1..], spec);
    }
  }

  method BuildDrivers(b: Bases, list: string) returns (r: Result<seq<Driver>>)
    ensures r == Build(b, list)
  {
    var tokens := Split(list, ',');
    var out: seq<Driver> := [];
    ghost var specs: seq<Spec> := [];
    PrependTwice([], [], ResolveAll(tokens));
    for k := 0 to |tokens|
      invariant ResolveAll(tokens) == Prepend(specs, ResolveAll(tokens[k..]))
      invariant out == Expand(b, specs) && (specs == [] <==> out == [])
    {
      assert tokens[k..][1..] == tokens[k + 1..];
      var token := TrimSpace(tokens[k]);
      if token != "" {
        var more := BuildToken(b, token);
        if more.Err? {
          return Err(more.error);
        }
        ghost var spec := Resolve(token).value;
        ExpandSnoc(b, specs, spec);
        PrependTwice(specs, [spec], ResolveAll(tokens[k + 1..]));
        out := out + more.value;
        specs := specs + [spec];
      }
    }
    assert tokens[|tokens|..] == [];
    PrependTwice(specs, [], Ok([]));
    r := if out == [] then Err(NONE_SELECTED) else Ok(out);
  }

  // One token of the list.
  method BuildToken(b: Bases, token: string) returns (r: Result<seq<Driver>>)
    ensures Resolve(token).Err? ==> r == Err(Resolve(token).error)
    ensures Resolve(token).Ok? ==> r == Ok(Drivers(b, Resolve(token).value, Resolve(token).value.count))
  {
    var parsed := ParseEngineSpec(token);
    if parsed.Err? {
      return Err(parsed.error);
    }
    var (name, count) := parsed.value;
    var kind := KindOf(name);
    if kind.None? {
      return Err(UNKNOWN);
    }
    var out := AddInstances(b, name, Spec(kind.value, count));
    r := Ok(out);
  }

  // The inner loop: each instance is named after the engine, and renamed if there are several.
  method AddInstances(b: Bases, name: string, spec: Spec) returns (out: seq<Driver>)
    requires name == EngineName(spec.kind)
    ensures out == Drivers(b, spec, spec.count)
  {
    out := [];
    for inst := 0 to spec.count
      invariant out == Drivers(b, spec, inst)
    {
      var off := inst * 100;
      var d := Driver(spec.kind, name, Shifted(BasePorts(b, spec.kind), off));
      if spec.count > 1 {
        d := d.(name := name + "-" + Itoa(inst));
      }
      out := out + [d];
    }
  }
}
