/** When instance names and host ports are distinct, and which lists are accepted. */
module InstanceProperties {
  import opened Wrappers
  import opened Decimal
  import opened Text
  import opened Instances

  // Where instance inst of the spec at index k stands.
  function Position(specs: seq<Spec>, k: nat, inst: nat): nat
    requires k < |specs|
  {
    if k == 0 then inst else specs[0].count + Position(specs[1..], k - 1, inst)
  }

  predicate IsInstance(specs: seq<Spec>, k: nat, inst: nat) {
    k < |specs| && inst < specs[k].count
  }

  lemma PickFrom(first: seq<Driver>, rest: seq<Driver>, i: nat)
    requires i < |first + rest|
    ensures (first + rest)[i] == if i < |first| then first[i] else rest[i - |first|]
  {
  }

  lemma {:induction false} DriverAt(b: Bases, specs: seq<Spec>, k: nat, inst: nat)
    requires IsInstance(specs, k, inst)
    ensures Position(specs, k, inst) < |Expand(b, specs)|
    ensures Expand(b, specs)[Position(specs, k, inst)] == Instance(b, specs[k], inst)
  {
    var first, rest := Drivers(b, specs[0], specs[0].count), Expand(b, specs[1..]);
    if k > 0 {
      DriverAt(b, specs[1..], k - 1, inst);
    }
    PickFrom(first, rest, Position(specs, k, inst));
  }

  lemma {:induction false} OriginOf(b: Bases, specs: seq<Spec>, i: nat) returns (k: nat, inst: nat)
    requires i < |Expand(b, specs)|
    ensures IsInstance(specs, k, inst) && i == Position(specs, k, inst)
    ensures Expand(b, specs)[i] == Instance(b, specs[k], inst)
  {
    if i < specs[0].count {
      k, inst := 0, i;
    } else {
      k, inst := OriginOf(b, specs[1..], i - specs[0].count);
      k := k + 1;
    }
  }

  lemma {:induction false} PositionsAscend(specs: seq<Spec>, k: nat, inst: nat, l: nat, jnst: nat)
    requires IsInstance(specs, k, inst) && IsInstance(specs, l, jnst) && k <= l
    ensures k < l ==> Position(specs, k, inst) < Position(specs, l, jnst)
    ensures k == l ==> Position(specs, l, jnst) - Position(specs, k, inst) == jnst - inst
  {
    if k > 0 {
      PositionsAscend(specs[1..], k - 1, inst, l - 1, jnst);
    }
  }

  // Names.

  lemma EngineNamesDiffer(k: Kind, l: Kind)
    ensures '-' !in EngineName(k) && ':' !in EngineName(k) && ',' !in EngineName(k)
    ensures EngineName(k) == EngineName(l) ==> k == l
  {
    EngineNameHead(k);
    EngineNameHead(l);
  }

  // The first letter and the length tell the engines apart.
  lemma EngineNameHead(k: Kind)
    ensures '-' !in EngineName(k) && ':' !in EngineName(k) && ',' !in EngineName(k)
    ensures EngineName(k) != "" && Trimmed(EngineName(k)) && KindOf(EngineName(k)) == Some(k)
    ensures match k
            case Typhon => EngineName(k)[0] == 't' && |EngineName(k)| == 6
            case Rqbit => EngineName(k)[0] == 'r' && |EngineName(k)| == 5
            case Transmission => EngineName(k)[0] == 't' && |EngineName(k)| == 12
            case Libtorrent => EngineName(k)[0] == 'l'
            case Rain => EngineName(k)[0] == 'r' && |EngineName(k)| == 4
            case Rtorrent => EngineName(k)[0] == 'r' && |EngineName(k)| == 8
  {
  }

  // The names as the command line spells them, and what instances are called.
  lemma NamesAreSpelled()
    ensures EngineName(Typhon) == "typhon" && EngineName(Rqbit) == "rqbit" && EngineName(Rain) == "rain"
    ensures EngineName(Transmission) == "transmission" && EngineName(Libtorrent) == "libtorrent"
    ensures EngineName(Rtorrent) == "rtorrent"
  {
  }

  // What stands at a place of the list that is built: the engine, its name, with a number if it is one
  // of several, and its ports, stepped up by 100 for each instance before it.
  lemma DriverIs(b: Bases, specs: seq<Spec>, k: nat, inst: nat)
    requires IsInstance(specs, k, inst)
    ensures Position(specs, k, inst) < |Expand(b, specs)|
    ensures var d := Expand(b, specs)[Position(specs, k, inst)];
            && d.kind == specs[k].kind
            && d.name == EngineName(d.kind) + (if specs[k].count == 1 then "" else "-" + Itoa(inst))
            && |d.ports| == |BasePorts(b, d.kind)|
            && forall p | 0 <= p < |d.ports| :: d.ports[p] == BasePorts(b, d.kind)[p] + 100 * inst
  {
    DriverAt(b, specs, k, inst);
  }

  lemma CutAtDash(a: string, b: string, x: string, y: string)
    requires '-' !in a && '-' !in b && a + "-" + x == b + "-" + y
    ensures a == b && x == y
  {
    CutAt(a, '-', x);
    CutAt(b, '-', y);
  }

  lemma DashTells(spec: Spec, inst: nat)
    ensures '-' in InstanceName(spec, inst) <==> spec.count > 1
  {
    var name := EngineName(spec.kind);
    EngineNamesDiffer(spec.kind, spec.kind);
    assert (name + "-" + Itoa(inst))[|name|] == '-';
  }

  lemma InstanceNamesDiffer(s: Spec, inst: nat, t: Spec, jnst: nat)
    requires InstanceName(s, inst) == InstanceName(t, jnst)
    ensures s.kind == t.kind && (s.count > 1 <==> t.count > 1) && (s.count > 1 ==> inst == jnst)
  {
    DashTells(s, inst);
    DashTells(t, jnst);
    EngineNamesDiffer(s.kind, t.kind);
    EngineNamesDiffer(t.kind, s.kind);
    if s.count > 1 {
      CutAtDash(EngineName(s.kind), EngineName(t.kind), Itoa(inst), Itoa(jnst));
      NumberOfDigits(inst);
      NumberOfDigits(jnst);
    }
  }

  ghost predicate DistinctNames(drivers: seq<Driver>) {
    forall i, j | 0 <= i < j < |drivers| :: drivers[i].name != drivers[j].name
  }

  // No two tokens of the list name the same engine in the same form, alone or as several instances.
  ghost predicate DistinctForms(specs: seq<Spec>) {
    forall k, l | 0 <= k < l < |specs| ::
      specs[k].kind == specs[l].kind ==> (specs[k].count > 1) != (specs[l].count > 1)
  }

  predicate Counted(specs: seq<Spec>) {
    forall k | 0 <= k < |specs| :: specs[k].count >= 1
  }

  lemma SameNameSamePlace(b: Bases, specs: seq<Spec>, i: nat, j: nat)
    requires DistinctForms(specs) && i < |Expand(b, specs)| && j < |Expand(b, specs)|
    requires Expand(b, specs)[i].name == Expand(b, specs)[j].name
    ensures i == j
  {
    var k, inst := OriginOf(b, specs, i);
    var l, jnst := OriginOf(b, specs, j);
    InstanceNamesDiffer(specs[k], inst, specs[l], jnst);
  }

  lemma SameFormSameName(b: Bases, specs: seq<Spec>, k: nat, l: nat)
    requires Counted(specs) && k < l < |specs| && specs[k].kind == specs[l].kind
    requires specs[k].count > 1 <==> specs[l].count > 1
    ensures !DistinctNames(Expand(b, specs))
  {
    DriverAt(b, specs, k, 0);
    DriverAt(b, specs, l, 0);
    PositionsAscend(specs, k, 0, l, 0);
  }

  // Instance names are pairwise distinct exactly if that is so; in particular if each engine is named
  // at most once, whatever the counts.
  lemma NamesAreDistinct(b: Bases, specs: seq<Spec>)
    requires Counted(specs)
    ensures DistinctNames(Expand(b, specs)) <==> DistinctForms(specs)
  {
    if DistinctForms(specs) {
      forall i, j | 0 <= i < j < |Expand(b, specs)|
        ensures Expand(b, specs)[i].name != Expand(b, specs)[j].name
      {
        if Expand(b, specs)[i].name == Expand(b, specs)[j].name {
          SameNameSamePlace(b, specs, i, j);
        }
      }
    } else {
      var k, l :| 0 <= k < l < |specs| && specs[k].kind == specs[l].kind
        && (specs[k].count > 1) == (specs[l].count > 1);
      SameFormSameName(b, specs, k, l);
    }
  }

  // Ports.

  // Two entries of the port lists are the same only if they are the same entry.
  ghost predicate DistinctPorts(drivers: seq<Driver>) {
    forall i, j, p, q |
      0 <= i < |drivers| && 0 <= j < |drivers| && 0 <= p < |drivers[i].ports| && 0 <= q < |drivers[j].ports|
      :: drivers[i].ports[p] == drivers[j].ports[q] ==> i == j && p == q
  }

  predicate SameResidue(b: Bases, k: Kind, p: nat, l: Kind, q: nat) {
    p < |BasePorts(b, k)| && q < |BasePorts(b, l)| && BasePorts(b, k)[p] % 100 == BasePorts(b, l)[q] % 100
  }

  // The base ports differ modulo 100.
  ghost predicate Spread(b: Bases) {
    forall k, l, p, q | SameResidue(b, k, p, l, q) :: k == l && p == q
  }

  ghost predicate NamedOnce(specs: seq<Spec>) {
    forall k, l | 0 <= k < l < |specs| :: specs[k].kind != specs[l].kind
  }

  ghost predicate PortedOnce(b: Bases, specs: seq<Spec>) {
    forall k, l | 0 <= k < l < |specs| :: specs[k].kind == specs[l].kind ==> BasePorts(b, specs[k].kind) == []
  }

  // Which default base port leaves which remainder.
  function Owner(residue: int): (Kind, int) {
    if residue == 30 then (Rqbit, 0)
    else if 40 <= residue <= 45 then (Rqbit, residue - 39)
    else if residue == 91 then (Transmission, 0)
    else if residue == 92 then (Transmission, 1)
    else if residue == 80 then (Libtorrent, 0)
    else if residue == 81 then (Libtorrent, 1)
    else if residue == 46 then (Rain, 0)
    else if residue == 0 then (Rtorrent, 0)
    else (Rtorrent, 1)
  }

  lemma DefaultOwner(k: Kind, p: nat)
    requires p < |BasePorts(DEFAULTS, k)|
    ensures Owner(BasePorts(DEFAULTS, k)[p] % 100) == (k, p)
  {
    if k.Rqbit? && p > 0 {
      assert BasePorts(DEFAULTS, k)[p] == 14239 + p;
    }
  }

  // The ports of each engine's first instance, unless the command line says otherwise.
  lemma DefaultPorts()
    ensures BasePorts(DEFAULTS, Rqbit) == [13030, 14240, 14241, 14242, 14243, 14244, 14245]
    ensures BasePorts(DEFAULTS, Transmission) == [19091, 19092] && BasePorts(DEFAULTS, Libtorrent) == [18080, 18881]
    ensures BasePorts(DEFAULTS, Rain) == [17246] && BasePorts(DEFAULTS, Rtorrent) == [15000, 15010]
    ensures BasePorts(DEFAULTS, Typhon) == []
  {
  }

  lemma DefaultsAreSpread()
    ensures Spread(DEFAULTS)
  {
    forall k, l, p, q | SameResidue(DEFAULTS, k, p, l, q)
      ensures k == l && p == q
    {
      DefaultOwner(k, p);
      DefaultOwner(l, q);
    }
  }

  lemma InstancePortsDiffer(b: Bases, s: Spec, inst: nat, p: nat, t: Spec, jnst: nat, q: nat)
    requires Spread(b) && p < |BasePorts(b, s.kind)| && q < |BasePorts(b, t.kind)|
    requires Instance(b, s, inst).ports[p] == Instance(b, t, jnst).ports[q]
    ensures s.kind == t.kind && p == q && inst == jnst
  {
    assert SameResidue(b, s.kind, p, t.kind, q);
  }

  lemma SharedPorts(drivers: seq<Driver>, i: nat, j: nat)
    requires i < j < |drivers| && drivers[i].ports == drivers[j].ports && drivers[i].ports != []
    ensures !DistinctPorts(drivers)
  {
    assert drivers[i].ports[0] == drivers[j].ports[0];
  }

  // With base ports that differ modulo 100, no two host ports coincide exactly if each engine that has
  // ports is named at most once.
  lemma PortsAreDistinct(b: Bases, specs: seq<Spec>)
    requires Spread(b) && Counted(specs)
    ensures DistinctPorts(Expand(b, specs)) <==> PortedOnce(b, specs)
  {
    var drivers := Expand(b, specs);
    if PortedOnce(b, specs) {
      forall i, j, p, q |
        0 <= i < |drivers| && 0 <= j < |drivers| && 0 <= p < |drivers[i].ports| && 0 <= q < |drivers[j].ports|
        && drivers[i].ports[p] == drivers[j].ports[q]
        ensures i == j && p == q
      {
        var k, inst := OriginOf(b, specs, i);
        var l, jnst := OriginOf(b, specs, j);
        InstancePortsDiffer(b, specs[k], inst, p, specs[l], jnst, q);
        assert k == l;
      }
    }
    if DistinctPorts(drivers) {
      forall k, l | 0 <= k < l < |specs| && specs[k].kind == specs[l].kind
        ensures BasePorts(b, specs[k].kind) == []
      {
        DriverAt(b, specs, k, 0);
        DriverAt(b, specs, l, 0);
        PositionsAscend(specs, k, 0, l, 0);
        if BasePorts(b, specs[k].kind) != [] {
          SharedPorts(drivers, Position(specs, k, 0), Position(specs, l, 0));
        }
      }
    }
  }

  // Base ports that agree modulo 100 collide for some counts: the lower one, stepped up.
  lemma StepsCollide(b: Bases, k: Kind, p: nat, l: Kind, q: nat) returns (specs: seq<Spec>)
    requires SameResidue(b, k, p, l, q) && !(k == l && p == q) && BasePorts(b, k)[p] <= BasePorts(b, l)[q]
    ensures Counted(specs) && NamedOnce(specs) && !DistinctPorts(Expand(b, specs))
  {
    var d := (BasePorts(b, l)[q] - BasePorts(b, k)[p]) / 100;
    assert BasePorts(b, k)[p] + d * 100 == BasePorts(b, l)[q];
    if k == l {
      specs := [Spec(k, d + 1)];
      OwnPortsCollide(b, Spec(k, d + 1), d, p, q);
    } else {
      specs := [Spec(k, d + 1), Spec(l, 1)];
      OtherPortsCollide(b, Spec(k, d + 1), d, p, Spec(l, 1), q);
    }
  }

  lemma OwnPortsCollide(b: Bases, spec: Spec, d: nat, p: nat, q: nat)
    requires d < spec.count && p < |BasePorts(b, spec.kind)| && q < |BasePorts(b, spec.kind)| && p != q
    requires Instance(b, spec, d).ports[p] == Instance(b, spec, 0).ports[q]
    ensures !DistinctPorts(Expand(b, [spec]))
  {
    DriverAt(b, [spec], 0, 0);
    DriverAt(b, [spec], 0, d);
    PortsCollide(Expand(b, [spec]), Position([spec], 0, d), p, Position([spec], 0, 0), q);
  }

  lemma OtherPortsCollide(b: Bases, s: Spec, d: nat, p: nat, t: Spec, q: nat)
    requires d < s.count && t.count > 0 && p < |BasePorts(b, s.kind)| && q < |BasePorts(b, t.kind)|
    requires Instance(b, s, d).ports[p] == Instance(b, t, 0).ports[q]
    ensures !DistinctPorts(Expand(b, [s, t]))
  {
    DriverAt(b, [s, t], 0, d);
    DriverAt(b, [s, t], 1, 0);
    PositionsAscend([s, t], 0, d, 1, 0);
    PortsCollide(Expand(b, [s, t]), Position([s, t], 0, d), p, Position([s, t], 1, 0), q);
  }

  lemma PortsCollide(drivers: seq<Driver>, i: nat, p: nat, j: nat, q: nat)
    requires i < |drivers| && j < |drivers| && p < |drivers[i].ports| && q < |drivers[j].ports|
    requires drivers[i].ports[p] == drivers[j].ports[q] && !(i == j && p == q)
    ensures !DistinctPorts(drivers)
  {
  }

  ghost predicate NeverCollide(b: Bases) {
    forall specs | Counted(specs) && NamedOnce(specs) :: DistinctPorts(Expand(b, specs))
  }

  // Base ports are safe for any counts exactly if they differ modulo 100.
  lemma SafeBases(b: Bases)
    ensures NeverCollide(b) <==> Spread(b)
  {
    if Spread(b) {
      forall specs | Counted(specs) && NamedOnce(specs)
        ensures DistinctPorts(Expand(b, specs))
      {
        PortsAreDistinct(b, specs);
      }
    } else {
      var k: Kind, l: Kind, p: nat, q: nat :| SameResidue(b, k, p, l, q) && !(k == l && p == q);
      if BasePorts(b, k)[p] <= BasePorts(b, l)[q] {
        var specs := StepsCollide(b, k, p, l, q);
      } else {
        var specs := StepsCollide(b, l, q, k, p);
      }
    }
  }

  // Lists.

  predicate Blank(token: string) {
    TrimSpace(token) == ""
  }

  // What a token may be, apart from white space around it: an engine's name, alone or with a colon and
  // a text that reads as a positive count.
  ghost predicate Admissible(text: string, spec: Spec) {
    || (text == EngineName(spec.kind) && spec.count == 1)
    || (exists digits :: CountedAs(text, spec, digits))
  }

  predicate CountedAs(text: string, spec: Spec, digits: string) {
    text == EngineName(spec.kind) + [':'] + digits && ParseInt(digits) == Some(spec.count) && spec.count >= 1
  }

  lemma AdmissibleResolves(text: string, spec: Spec)
    ensures Resolve(text) == Ok(spec) <==> Admissible(text, spec)
  {
    var name, parts := EngineName(spec.kind), Cut(text, ':');
    EngineNameHead(spec.kind);
    if text == name {
      CutAt(name, ':', "");
    }
    forall digits | CountedAs(text, spec, digits)
      ensures Resolve(text) == Ok(spec)
    {
      CutAt(name, ':', digits);
    }
    if Resolve(text) == Ok(spec) && parts.1.Some? {
      assert CountedAs(text, spec, parts.1.value);
    }
  }

  ghost predicate Bad(token: string) {
    !Blank(token) && forall spec :: !Admissible(TrimSpace(token), spec)
  }

  lemma BadIsRejected(token: string)
    ensures Bad(token) <==> !Blank(token) && Resolve(TrimSpace(token)).Err?
  {
    var text := TrimSpace(token);
    if Resolve(text).Ok? {
      AdmissibleResolves(text, Resolve(text).value);
    }
    forall spec | Admissible(text, spec)
      ensures Resolve(text).Ok?
    {
      AdmissibleResolves(text, spec);
    }
  }

  ghost predicate SomeBad(tokens: seq<string>) {
    exists k :: 0 <= k < |tokens| && Bad(tokens[k])
  }

  ghost predicate AllBlank(tokens: seq<string>) {
    forall k | 0 <= k < |tokens| :: Blank(tokens[k])
  }

  lemma TokensCons(tokens: seq<string>)
    requires tokens != []
    ensures SomeBad(tokens) <==> Bad(tokens[0]) || SomeBad(tokens[1..])
    ensures AllBlank(tokens) <==> Blank(tokens[0]) && AllBlank(tokens[1..])
  {
    assert forall k | 1 <= k < |tokens| :: tokens[k] == tokens[1..][k - 1];
    if SomeBad(tokens[1..]) {
      var k :| 0 <= k < |tokens[1..]| && Bad(tokens[1..][k]);
      assert Bad(tokens[k + 1]);
    }
  }

  lemma ResolveStep(tokens: seq<string>)
    requires tokens != []
    ensures var r, rest := ResolveAll(tokens), ResolveAll(tokens[1..]);
            && (r.Err? <==> Bad(tokens[0]) || rest.Err?)
            && (r.Ok? ==> (r.value == [] <==> Blank(tokens[0]) && rest.value == []))
            && (r.Ok? && Counted(rest.value) ==> Counted(r.value))
  {
    BadIsRejected(tokens[0]);
  }

  // A list is rejected exactly if it has a token that is bad, or none that is not blank.
  lemma {:induction false} RejectedTokens(tokens: seq<string>)
    ensures ResolveAll(tokens).Err? <==> SomeBad(tokens)
    ensures ResolveAll(tokens).Ok? ==>
      Counted(ResolveAll(tokens).value) && (ResolveAll(tokens).value == [] <==> AllBlank(tokens))
  {
    if tokens != [] {
      TokensCons(tokens);
      RejectedTokens(tokens[1..]);
      ResolveStep(tokens);
    }
  }

  // A list as a whole: it is rejected for a bad token, and if it selects nothing.
  lemma RejectedLists(b: Bases, tokens: seq<string>)
    requires tokens != [] && forall k | 0 <= k < |tokens| :: ',' !in tokens[k]
    ensures Build(b, Join(tokens, ',')).Err? <==> SomeBad(tokens) || AllBlank(tokens)
    ensures AllBlank(tokens) ==> Build(b, Join(tokens, ',')) == Err(NONE_SELECTED)
  {
    SplitOfJoin(tokens, ',');
    RejectedTokens(tokens);
    BuildOf(b, Join(tokens, ','), tokens);
    if AllBlank(tokens) {
      BlankIsNotBad(tokens);
    }
  }

  lemma BlankIsNotBad(tokens: seq<string>)
    requires AllBlank(tokens)
    ensures !SomeBad(tokens)
  {
  }

  lemma BuildOf(b: Bases, list: string, tokens: seq<string>)
    requires Split(list, ',') == tokens
    ensures ResolveAll(tokens).Err? ==> Build(b, list).Err?
    ensures ResolveAll(tokens).Ok? ==>
      if ResolveAll(tokens).value == [] then Build(b, list) == Err(NONE_SELECTED) else Build(b, list).Ok?
  {
  }

  // Why a text is rejected: for its count, which is looked at first, or for its name.
  lemma RejectionReason(text: string)
    requires Resolve(text).Err?
    ensures Resolve(text).error in {BAD_COUNT, UNKNOWN}
    ensures Resolve(text).error == BAD_COUNT <==> exists name, digits :: IsBadCount(text, name, digits)
  {
    var parts := Cut(text, ':');
    forall name, digits | IsBadCount(text, name, digits)
      ensures Resolve(text).error == BAD_COUNT
    {
      CutAt(name, ':', digits);
    }
    assert |BAD_COUNT| != |UNKNOWN|;
    if Resolve(text).error == BAD_COUNT {
      assert IsBadCount(text, parts.0, parts.1.value);
    }
  }

  predicate IsBadCount(text: string, name: string, digits: string) {
    text == name + [':'] + digits && ':' !in name && (ParseInt(digits).None? || ParseInt(digits).value < 1)
  }

  // A list is rejected for the first of its bad tokens.
  lemma {:induction false} FirstBadToken(tokens: seq<string>, k: nat)
    requires k < |tokens| && Bad(tokens[k]) && forall j | 0 <= j < k :: !Bad(tokens[j])
    ensures Resolve(TrimSpace(tokens[k])).Err?
    ensures ResolveAll(tokens) == Err(Resolve(TrimSpace(tokens[k])).error)
  {
    BadIsRejected(tokens[k]);
    BadIsRejected(tokens[0]);
    if k > 0 {
      assert !Bad(tokens[0]);
      FirstBadToken(tokens[1..], k - 1);
    }
  }

  // token stands for spec: the name, with the count if there are several, and white space around it.
  ghost predicate Denotes(token: string, spec: Spec) {
    && 1 <= spec.count <= MAX_INT64
    && exists pre, post, text ::
      && token == pre + text + post && AllSpace(pre) && AllSpace(post)
      && ((spec.count == 1 && text == EngineName(spec.kind)) || text == EngineName(spec.kind) + ":" + Itoa(spec.count))
  }

  lemma NameParses(name: string)
    requires ':' !in name
    ensures ParseEngineSpec(name) == Ok((name, 1))
  {
    CutAt(name, ':', "");
  }

  lemma CountParses(name: string, count: nat, digits: string)
    requires ':' !in name && 1 <= count <= MAX_INT64 && digits == Itoa(count)
    ensures ParseEngineSpec(name + [':'] + digits) == Ok((name, count))
  {
    CutAt(name, ':', digits);
    ParseIntOfItoa(count);
  }

  lemma CountIsTrimmed(name: string, count: nat)
    requires name != "" && Trimmed(name)
    ensures Trimmed(name + ":" + Itoa(count))
  {
    var digits := Itoa(count);
    var last := digits[|digits| - 1];
    assert !WhiteSpace(last);
  }

  lemma SpecParses(name: string, count: nat, text: string)
    requires ':' !in name && name != "" && Trimmed(name) && 1 <= count <= MAX_INT64
    requires (count == 1 && text == name) || text == name + ":" + Itoa(count)
    ensures text != "" && Trimmed(text) && ParseEngineSpec(text) == Ok((name, count))
  {
    if text == name + ":" + Itoa(count) {
      CountParses(name, count, Itoa(count));
      CountIsTrimmed(name, count);
    } else {
      NameParses(name);
    }
  }

  lemma TokenResolves(token: string, spec: Spec)
    requires Denotes(token, spec)
    ensures TrimSpace(token) != "" && Resolve(TrimSpace(token)) == Ok(spec)
  {
    var name := EngineName(spec.kind);
    var pre, post, text :| token == pre + text + post && AllSpace(pre) && AllSpace(post)
      && ((spec.count == 1 && text == name) || text == name + ":" + Itoa(spec.count));
    EngineNameHead(spec.kind);
    SpecParses(name, spec.count, text);
    TrimSpaceStrips(pre, text, post);
  }

  // Every list of engines with their counts builds exactly those instances, in that order.
  lemma {:induction false} ListBuilds(b: Bases, tokens: seq<string>, specs: seq<Spec>)
    requires |tokens| == |specs| && specs != []
    requires forall k | 0 <= k < |tokens| :: ',' !in tokens[k] && Denotes(tokens[k], specs[k])
    ensures Build(b, Join(tokens, ',')) == Ok(Expand(b, specs))
  {
    SplitOfJoin(tokens, ',');
    DenotedResolve(tokens, specs);
    TokensResolve(tokens, specs);
  }

  predicate ResolvesTo(token: string, spec: Spec) {
    !Blank(token) && Resolve(TrimSpace(token)) == Ok(spec)
  }

  lemma FirstResolves(tokens: seq<string>, spec: Spec, more: seq<Spec>)
    requires tokens != [] && ResolvesTo(tokens[0], spec) && ResolveAll(tokens[1..]) == Ok(more)
    ensures ResolveAll(tokens) == Ok([spec] + more)
  {
  }

  ghost predicate AllResolve(tokens: seq<string>, specs: seq<Spec>)
    requires |tokens| == |specs|
  {
    tokens == [] || (ResolvesTo(tokens[0], specs[0]) && AllResolve(tokens[1..], specs[1..]))
  }

  lemma {:induction false} DenotedResolve(tokens: seq<string>, specs: seq<Spec>)
    requires |tokens| == |specs| && forall k | 0 <= k < |tokens| :: Denotes(tokens[k], specs[k])
    ensures AllResolve(tokens, specs)
  {
    if tokens != [] {
      TokenResolves(tokens[0], specs[0]);
      forall k | 0 <= k < |tokens| - 1
        ensures Denotes(tokens[1..][k], specs[1..][k])
      {
        assert Denotes(tokens[k + 1], specs[k + 1]);
      }
      DenotedResolve(tokens[1..], specs[1..]);
    }
  }

  lemma {:induction false} TokensResolve(tokens: seq<string>, specs: seq<Spec>)
    requires |tokens| == |specs| && AllResolve(tokens, specs)
    ensures ResolveAll(tokens) == Ok(specs)
  {
    if tokens != [] {
      TokensResolve(tokens[1..], specs[1..]);
      FirstResolves(tokens, specs[0], specs[1..]);
      assert [specs[0]] + specs[1..] == specs;
    }
  }

  // An engine named twice: both instances get the same name.
  lemma NamedTwice(b: Bases)
    ensures var r := Build(b, "typhon,typhon");
            r.Ok? && |r.value| == 2 && r.value[0].name == r.value[1].name
  {
    assert Join(["typhon", "typhon"], ',') == "typhon,typhon" by {
      assert ["typhon", "typhon"][1..] == ["typhon"];
    }
    PlainToken("typhon", Spec(Typhon, 1));
    SameTwice(b, "typhon", Spec(Typhon, 1));
  }

  lemma SameTwice(b: Bases, token: string, spec: Spec)
    requires Denotes(token, spec) && ',' !in token && spec.count == 1
    ensures var r := Build(b, Join([token, token], ','));
            r.Ok? && |r.value| == 2 && r.value[0] == r.value[1] == Instance(b, spec, 0)
  {
    ListBuilds(b, [token, token], [spec, spec]);
    ExpandSnoc(b, [], spec);
    ExpandSnoc(b, [spec], spec);
    assert [] + [spec] == [spec] && [spec] + [spec] == [spec, spec];
  }

  lemma PlainToken(name: string, spec: Spec)
    requires spec.count == 1 && name == EngineName(spec.kind)
    ensures Denotes(name, spec) && ',' !in name
  {
    EngineNameHead(spec.kind);
    assert name == "" + name + "" && AllSpace("");
  }
}
