/** The in-process tracker: the swarm table, its garbage collection and the announce responses. */
module Tracker {
  import opened Wrappers
  import opened Decimal
  import opened Bencode
  import opened TrackerHistory

  // An announce request after URL decoding: the address of the `ip` parameter and of the connection
  // are None where net.ParseIP yields no address.
  datatype Request = Request(
    infoHash: string, peerId: string, port: string,
    ipParam: Option<IP>, remote: Option<IP>, event: string, compact: string)

  datatype Response = BadRequest(reason: string) | Ok(body: string)

  function RequestIp(r: Request): Option<IP> {
    if r.ipParam.Some? then r.ipParam else r.remote
  }

  // The requests the handler does not turn down.
  predicate Acceptable(r: Request) {
    && |r.infoHash| == 20 && |r.peerId| == 20
    && ParseInt(r.port).Some? && 0 < ParseInt(r.port).value <= 65535
    && RequestIp(r).Some?
  }

  function EventOf(r: Request, now: int): Event
    requires Acceptable(r)
  {
    Announced(r.infoHash, r.peerId, r.event == "stopped", RequestIp(r).value, ParseInt(r.port).value, now)
  }

  lemma HandedLast(h: seq<Event>)
    requires h != [] && h[|h| - 1].Announced?
    ensures Handed(h, |h| - 1) == SwarmOf(Replay(h), h[|h| - 1].infoHash) - {h[|h| - 1].peerId}
  {
    assert h[..|h| - 1 + 1] == h;
  }

  // What an accepted announce does, said of the request itself: it makes or removes the requester's
  // entry in its swarm, and touches no other.
  ghost predicate Announces(before: Swarms, after: Swarms, r: Request, now: int) {
    && (forall ih, id | ih != r.infoHash || id != r.peerId :: Lookup(after, ih, id) == Lookup(before, ih, id))
    && (Lookup(after, r.infoHash, r.peerId).None? <==> r.event == "stopped")
    && (r.event != "stopped" ==>
          var e := Lookup(after, r.infoHash, r.peerId).value;
          && Some(e.ip) == (if r.ipParam.Some? then r.ipParam else r.remote)
          && ParseInt(r.port) == Some(e.port) && e.last == now)
  }

  lemma EventAnnounces(s: Swarms, r: Request, now: int)
    requires Acceptable(r)
    ensures Announces(s, Step(s, EventOf(r, now)), r, now)
  {
    forall ih, id
      ensures ih != r.infoHash || id != r.peerId ==>
        Lookup(Step(s, EventOf(r, now)), ih, id) == Lookup(s, ih, id)
    {
      StepLookup(s, EventOf(r, now), ih, id);
    }
    StepLookup(s, EventOf(r, now), r.infoHash, r.peerId);
  }

  // What a collection does: entries older than half an hour go, and no empty swarm stays.
  ghost predicate Collects(before: Swarms, after: Swarms, now: int) {
    && (forall ih, id :: Lookup(after, ih, id) ==
          var e := Lookup(before, ih, id);
          if e.Some? && e.value.last < now - HALF_HOUR then None else e)
    && forall ih | ih in after :: after[ih] != map[]
  }

  lemma CollectionCollects(s: Swarms, now: int)
    ensures Collects(s, Step(s, Collected(now)), now)
  {
    forall ih, id
      ensures Lookup(Step(s, Collected(now)), ih, id) ==
        var e := Lookup(s, ih, id); if e.Some? && e.value.last < now - HALF_HOUR then None else e
    {
      StepLookup(s, Collected(now), ih, id);
    }
  }

  // The keys of a response and of the peers in it, as the handler writes them. The functions below take
  // them as a table.
  datatype Keys = Keys(
    interval: string, minInterval: string, peers: string, peers6: string, complete: string, incomplete: string,
    peerId: string, ip: string, port: string)

  const KEYS := Keys(
    "interval", "min interval", "peers", "peers6", "complete", "incomplete",
    "peer id", "ip", "port")

  predicate Distinct(k: Keys) {
    && k.peers !in {k.interval, k.minInterval, k.peers6, k.complete, k.incomplete}
    && k.incomplete !in {k.interval, k.minInterval, k.peers6, k.complete}
    && k.complete !in {k.interval, k.minInterval, k.peers6}
    && k.interval !in {k.minInterval, k.peers6} && k.minInterval != k.peers6
    && k.peerId != k.ip && k.peerId != k.port && k.ip != k.port
  }

  lemma KeysAreDistinct()
    ensures Distinct(KEYS)
  {
    assert KEYS.interval[0] == 'i' && KEYS.complete[0] == 'c' && KEYS.peers[0] == 'p';
  }

  // The peers of a response, in the order in which the map happened to be ranged over.

  type Listing = seq<(string, PeerEntry)>

  predicate Lists(listing: Listing, swarm: Swarm) {
    && (forall i, j | 0 <= i < j < |listing| :: listing[i].0 != listing[j].0)
    && (forall i | 0 <= i < |listing| :: listing[i].0 in swarm && swarm[listing[i].0] == listing[i].1)
    && (forall id | id in swarm :: (id, swarm[id]) in listing)
  }

  function IpString(ip: IP): string {
    match ip
    case V4(a, b, c, d) => Itoa(a) + "." + Itoa(b) + "." + Itoa(c) + "." + Itoa(d)
    case V6(text) => text
  }

  function DictPeer(k: Keys, p: (string, PeerEntry)): Value {
    Dict(map[k.peerId := Str(p.0), k.ip := Str(IpString(p.1.ip)), k.port := Int64(p.1.port)])
  }

  function DictPeers(k: Keys, listing: Listing): seq<Value> {
    seq(|listing|, i requires 0 <= i < |listing| => DictPeer(k, listing[i]))
  }

  // Four address bytes and the port, high byte first, for an IPv4 peer; nothing for any other.
  function CompactPeer(e: PeerEntry): string {
    match e.ip
    case V4(a, b, c, d) => [a as char, b as char, c as char, d as char, (e.port / 256) as char, (e.port % 256) as char]
    case V6(_) => ""
  }

  function CompactPeers(listing: Listing): string {
    if listing == [] then "" else CompactPeers(listing[..|listing| - 1]) + CompactPeer(listing[|listing| - 1].1)
  }

  const INTERVAL: int64 := 30

  // Both peer formats are prepared; with compact=0 the dictionary form replaces the string.
  function ResponseDict(k: Keys, listing: Listing, compact: string): Value
    requires |listing| <= MAX_INT64
  {
    Dict(ResponseEntries(k, CompactPeers(listing), |listing|)[
      k.peers := if compact == "0" then List(DictPeers(k, listing)) else Raw(CompactPeers(listing))])
  }

  function ResponseEntries(k: Keys, v4Peers: string, count: int64): map<string, Value> {
    map[
      k.interval := Int64(INTERVAL),
      k.minInterval := Int64(INTERVAL),
      k.peers := Raw(v4Peers),
      k.peers6 := Raw(""),
      k.complete := Int64(0),
      k.incomplete := Int64(count)]
  }

  lemma ResponseIsSupported(k: Keys, listing: Listing, compact: string)
    requires |listing| <= MAX_INT64
    ensures Supported(ResponseDict(k, listing, compact))
  {
    assert forall i | 0 <= i < |listing| :: Supported(DictPeer(k, listing[i]));
  }

  function Ids(listing: Listing): set<string> {
    if listing == [] then {} else Ids(listing[..|listing| - 1]) + {listing[|listing| - 1].0}
  }

  lemma {:induction false} IdsAre(listing: Listing)
    ensures forall id :: id in Ids(listing) <==> exists i :: 0 <= i < |listing| && listing[i].0 == id
  {
    if listing != [] {
      var front, last := listing[..|listing| - 1], listing[|listing| - 1];
      IdsAre(front);
      forall id
        ensures id in Ids(listing) <==> exists i :: 0 <= i < |listing| && listing[i].0 == id
      {
        if id in Ids(front) {
          var i :| 0 <= i < |front| && front[i].0 == id;
          assert listing[i].0 == id;
        }
        if i :| 0 <= i < |listing| && listing[i].0 == id {
          assert i < |front| ==> front[i].0 == id;
        }
        assert listing[|listing| - 1].0 == last.0;
      }
    }
  }

  lemma {:induction false} IdsCount(listing: Listing)
    requires forall i, j | 0 <= i < j < |listing| :: listing[i].0 != listing[j].0
    ensures |Ids(listing)| == |listing|
  {
    if listing != [] {
      var front := listing[..|listing| - 1];
      IdsAre(front);
      IdsCount(front);
      assert listing[|listing| - 1].0 !in Ids(front);
    }
  }

  lemma ListingSize(listing: Listing, swarm: Swarm)
    requires Lists(listing, swarm)
    ensures |listing| == |swarm|
  {
    IdsAre(listing);
    IdsCount(listing);
    forall id
      ensures id in swarm.Keys <==> id in Ids(listing)
    {
      if id in swarm {
        var i :| 0 <= i < |listing| && listing[i] == (id, swarm[id]);
        assert listing[i].0 == id;
      }
    }
    assert swarm.Keys == Ids(listing);
  }

  // How far a collection has come: swarms not yet visited are untouched, the others are done.
  ghost predicate Swept(s: Swarms, cutoff: int, now: Swarms, left: set<string>) {
    && left <= now.Keys && now.Keys <= s.Keys
    && forall ih | ih in s ::
         if ih in left then ih in now && now[ih] == s[ih]
         else if Fresh(s[ih], cutoff) == map[] then ih !in now
         else ih in now && now[ih] == Fresh(s[ih], cutoff)
  }

  lemma SweepOne(s: Swarms, cutoff: int, now: Swarms, left: set<string>, ih: string)
    requires Swept(s, cutoff, now, left) && ih in left
    ensures ih in now && now[ih] == s[ih]
    ensures var kept := Fresh(s[ih], cutoff);
            Swept(s, cutoff, if kept == map[] then now - {ih} else now[ih := kept], left - {ih})
  {
  }

  lemma SweptAll(s: Swarms, cutoff: int, now: Swarms)
    requires Swept(s, cutoff, now, {})
    ensures now == Collect(s, cutoff)
  {
    assert now.Keys == Collect(s, cutoff).Keys;
  }

  lemma CollectedReplay(h: seq<Event>, s: Swarms, now: int)
    requires s == Replay(h)
    ensures Replay(h + [Collected(now)]) == Collect(s, now - PEER_TTL)
  {
    ReplaySnoc(h, Collected(now));
  }

  class Server {
    var swarms: Swarms
    ghost var history: seq<Event>

    ghost predicate Valid()
      reads this
    {
      swarms == Replay(history)
    }

    constructor ()
      ensures Valid() && history == []
    {
      swarms := map[];
      history := [];
    }

    // One pass of the garbage collector.
    method Gc(now: int)
      requires Valid()
      modifies this
      ensures Valid() && history == old(history) + [Collected(now)]
      ensures Collects(old(swarms), swarms, now)
    {
      CollectedReplay(history, swarms, now);
      CollectionCollects(swarms, now);
      var cutoff := now - PEER_TTL;
      Sweep(cutoff);
      history := history + [Collected(now)];
    }

    // The loops of a pass, over swarms and peers in any order.
    method Sweep(cutoff: int)
      modifies this`swarms
      ensures swarms == Collect(old(swarms), cutoff)
    {
      ghost var before := swarms;
      var left := swarms.Keys;
      while left != {}
        invariant Swept(before, cutoff, swarms, left)
      {
        var ih :| ih in left;
        SweepSwarm(ih, cutoff, before, left);
        left := left - {ih};
      }
      SweptAll(before, cutoff, swarms);
    }

    // One swarm of a pass.
    method SweepSwarm(ih: string, cutoff: int, ghost before: Swarms, ghost left: set<string>)
      requires Swept(before, cutoff, swarms, left) && ih in left
      modifies this`swarms
      ensures Swept(before, cutoff, swarms, left - {ih})
    {
      SweepOne(before, cutoff, swarms, left, ih);
      var swarm := DropStale(swarms[ih], cutoff);
      if swarm == map[] {
        swarms := swarms - {ih};
      } else {
        swarms := swarms[ih := swarm];
      }
    }

    method DropStale(swarm: Swarm, cutoff: int) returns (kept: Swarm)
      ensures kept == Fresh(swarm, cutoff)
    {
      kept := swarm;
      var left := swarm.Keys;
      while left != {}
        invariant left <= kept.Keys <= swarm.Keys
        invariant forall id | id in kept :: kept[id] == swarm[id]
        invariant forall id | id in swarm && id !in left :: id in kept <==> !(swarm[id].last < cutoff)
      {
        var id :| id in left;
        left := left - {id};
        if kept[id].last < cutoff {
          kept := kept - {id};
        }
      }
    }

    // The state after an accepted announce is the one the history calls for; the response lists
    // exactly the swarm without the requester. A request that is turned down changes nothing.
    method HandleAnnounce(r: Request, now: int) returns (response: Response)
      requires Valid() && forall ih | ih in swarms :: |swarms[ih]| < MAX_INT64
      modifies this
      ensures Valid()
      ensures response.Ok? <==>
        && |r.infoHash| == 20 && |r.peerId| == 20
        && ParseInt(r.port).Some? && 1 <= ParseInt(r.port).value <= 65535
        && (r.ipParam.Some? || r.remote.Some?)
      ensures response.BadRequest? ==> swarms == old(swarms) && history == old(history)
      ensures response.Ok? ==> Acceptable(r) && history == old(history) + [EventOf(r, now)]
      ensures response.Ok? ==> Announces(old(swarms), swarms, r, now)
      ensures response.Ok? ==> Handed(history, |history| - 1) == SwarmOf(swarms, r.infoHash) - {r.peerId}
      ensures response.Ok? ==> exists listing ::
        && Lists(listing, SwarmOf(swarms, r.infoHash) - {r.peerId}) && |listing| <= MAX_INT64
        && response.body == Encoding(ResponseDict(KEYS, listing, r.compact))
    {
      if |r.infoHash| != 20 || |r.peerId| != 20 {
        return BadRequest("missing or malformed info_hash/peer_id");
      }
      var port := ParseInt(r.port);
      if port.None? || port.value <= 0 || port.value > 65535 {
        return BadRequest("bad port");
      }
      var ip := r.ipParam;
      if ip.None? {
        ip := r.remote;
      }
      if ip.None? {
        return BadRequest("could not determine peer ip");
      }

      var body := Answer(r, ip.value, port.value, now);
      response := Response.Ok(body);
    }

    // The part that follows the checks.
    method Answer(r: Request, ip: IP, port: Port, now: int) returns (body: string)
      requires Valid() && forall ih | ih in swarms :: |swarms[ih]| < MAX_INT64
      requires Acceptable(r) && RequestIp(r) == Some(ip) && ParseInt(r.port) == Some(port)
      modifies this
      ensures Valid() && history == old(history) + [EventOf(r, now)]
      ensures Announces(old(swarms), swarms, r, now)
      ensures Handed(history, |history| - 1) == SwarmOf(swarms, r.infoHash) - {r.peerId}
      ensures exists listing ::
        && Lists(listing, SwarmOf(swarms, r.infoHash) - {r.peerId}) && |listing| <= MAX_INT64
        && body == Encoding(ResponseDict(KEYS, listing, r.compact))
    {
      var swarm := UpdateSwarm(r, ip, port, now);
      var v4Peers, dictPeers;
      ghost var listing;
      v4Peers, dictPeers := ListPeers(KEYS, swarm, r.peerId);
      listing :| Lists(listing, swarm - {r.peerId})
        && v4Peers == CompactPeers(listing) && dictPeers == DictPeers(KEYS, listing);
      ListingSize(listing, swarm - {r.peerId});
      SizeAfterRemoval(swarm, r.peerId);
      KeysAreDistinct();
      body := BuildResponse(KEYS, v4Peers, dictPeers, r.compact, listing);
      HandedLast(history);
    }

    method UpdateSwarm(r: Request, ip: IP, port: Port, now: int) returns (swarm: Swarm)
      requires Valid() && forall ih | ih in swarms :: |swarms[ih]| < MAX_INT64
      requires Acceptable(r) && RequestIp(r) == Some(ip) && ParseInt(r.port) == Some(port)
      modifies this
      ensures Valid() && history == old(history) + [EventOf(r, now)]
      ensures SwarmOf(swarms, r.infoHash) == swarm
      ensures Announces(old(swarms), swarms, r, now)
      ensures |swarm| <= MAX_INT64
    {
      swarm := map[];
      if r.infoHash in swarms {
        swarm := swarms[r.infoHash];
      }
      SizeAfterUpdate(swarm, r.peerId, PeerEntry(ip, port, now));
      SizeAfterRemoval(swarm, r.peerId);
      if r.event == "stopped" {
        swarm := swarm - {r.peerId};
      } else {
        swarm := swarm[r.peerId := PeerEntry(ip, port, now)];
      }
      swarms := swarms[r.infoHash := swarm];
      ReplaySnoc(history, EventOf(r, now));
      EventAnnounces(Replay(history), r, now);
      history := history + [EventOf(r, now)];
    }

    method ListPeers(k: Keys, swarm: Swarm, requester: string) returns (v4Peers: string, dictPeers: seq<Value>)
      ensures exists listing ::
                && Lists(listing, swarm - {requester})
                && v4Peers == CompactPeers(listing) && dictPeers == DictPeers(k, listing)
    {
      v4Peers, dictPeers := "", [];
      ghost var listing: Listing := [];
      var left := swarm.Keys;
      ghost var seen: Swarm := map[];
      while left != {}
        invariant left <= swarm.Keys && seen == swarm - (left + {requester})
        invariant Lists(listing, seen)
        invariant v4Peers == CompactPeers(listing) && dictPeers == DictPeers(k, listing)
      {
        var id :| id in left;
        assert left - {id} + {id} == left;
        left := left - {id};
        if id == requester {
          SeenMore(swarm, left, requester, id);
          continue;
        }
        var p := swarm[id];
        ghost var before := v4Peers;
        if p.ip.V4? {
          v4Peers := v4Peers + [p.ip.a as char, p.ip.b as char, p.ip.c as char, p.ip.d as char];
          v4Peers := v4Peers + [(p.port / 256) as char, (p.port % 256) as char];
        }
        assert v4Peers == before + CompactPeer(p);
        dictPeers := dictPeers + [DictPeer(k, (id, p))];
        SeenMore(swarm, left, requester, id);
        ListsSnoc(listing, seen, id, p);
        PeersSnoc(k, listing, id, p);
        seen := seen[id := p];
        listing := listing + [(id, p)];
      }
      assert swarm - ({} + {requester}) == swarm - {requester};
    }

    method BuildResponse(k: Keys, v4Peers: string, dictPeers: seq<Value>, compact: string, ghost listing: Listing)
        returns (body: string)
      requires |dictPeers| <= MAX_INT64 && Distinct(k)
      requires v4Peers == CompactPeers(listing) && dictPeers == DictPeers(k, listing)
      ensures body == Encoding(ResponseDict(k, listing, compact))
    {
      var resp := ResponseEntries(k, v4Peers, |dictPeers|);
      var encoded := Encode(Dict(resp));
      PlainResponse(k, listing, |dictPeers|);
      body := encoded.value;
      if compact == "0" {
        resp := resp[k.peers := List(dictPeers)];
        ResponseIsSupported(k, listing, compact);
        encoded := Encode(Dict(resp));
        body := encoded.value;
      }
    }
  }

  // The response without the list.
  lemma PlainResponse(k: Keys, listing: Listing, count: int64)
    requires Distinct(k) && count == |listing|
    ensures var d := Dict(ResponseEntries(k, CompactPeers(listing), count));
            Supported(d) && forall compact | compact != "0" :: ResponseDict(k, listing, compact) == d
  {
    var resp := ResponseEntries(k, CompactPeers(listing), count);
    assert resp[k.peers := Raw(CompactPeers(listing))] == resp;
  }

  lemma SizeAfterUpdate(swarm: Swarm, id: string, e: PeerEntry)
    ensures |swarm[id := e]| <= |swarm| + 1
  {
    assert swarm[id := e].Keys == swarm.Keys + {id};
  }

  lemma SizeAfterRemoval(swarm: Swarm, id: string)
    ensures |swarm - {id}| <= |swarm|
  {
    assert (swarm - {id}).Keys == swarm.Keys - {id};
  }

  // What has been seen when one more peer has been looked at.
  lemma SeenMore(swarm: Swarm, left: set<string>, requester: string, id: string)
    requires id in swarm && id !in left
    ensures var before := swarm - (left + {id} + {requester});
            && swarm - (left + {requester}) == (if id == requester then before else before[id := swarm[id]])
            && (id != requester ==> id !in before)
  {
  }

  lemma ListsSnoc(listing: Listing, swarm: Swarm, id: string, e: PeerEntry)
    requires Lists(listing, swarm) && id !in swarm
    ensures Lists(listing + [(id, e)], swarm[id := e])
  {
    assert forall k | k in swarm :: (k, swarm[k]) in listing;
  }

  lemma PeersSnoc(k: Keys, listing: Listing, id: string, e: PeerEntry)
    ensures DictPeers(k, listing + [(id, e)]) == DictPeers(k, listing) + [DictPeer(k, (id, e))]
    ensures CompactPeers(listing + [(id, e)]) == CompactPeers(listing) + CompactPeer(e)
  {
    assert (listing + [(id, e)])[..|listing|] == listing;
  }

  // Two orders of the map differ in the order of the entries only.
  lemma ListingsAgree(a: Listing, b: Listing, swarm: Swarm)
    requires Lists(a, swarm) && Lists(b, swarm)
    ensures multiset(a) == multiset(b)
  {
    forall e
      ensures multiset(a)[e] == multiset(b)[e]
    {
      OccursOnce(a, swarm, e);
      OccursOnce(b, swarm, e);
    }
  }

  lemma OccursOnce(listing: Listing, swarm: Swarm, e: (string, PeerEntry))
    requires Lists(listing, swarm)
    ensures multiset(listing)[e] == if e.0 in swarm && swarm[e.0] == e.1 then 1 else 0
  {
    if e in listing {
      var i :| 0 <= i < |listing| && listing[i] == e;
      assert listing == listing[..i] + [e] + listing[i + 1..];
      assert e !in listing[..i] && e !in listing[i + 1..];
    }
  }
}
