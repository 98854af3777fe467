/** The tracker's swarms as a function of what has happened: announces and garbage collections. */
module TrackerHistory {
  import opened Wrappers

  type Octet = n: int | 0 <= n < 256
  type Port = n: int | 0 < n < 65536 witness 1

  // The text of an IPv6 address has a colon in it.
  type V6Text = s: string | ':' in s witness "::"

  // A net.IP: one that To4 turns into four bytes, or any other, of which only its text matters.
  datatype IP = V4(a: Octet, b: Octet, c: Octet, d: Octet) | V6(text: V6Text)

  // Times are nanoseconds.
  datatype PeerEntry = PeerEntry(ip: IP, port: Port, last: int)

  type Swarm = map<string, PeerEntry>
  type Swarms = map<string, Swarm>

  const PEER_TTL := 30 * 60 * 1_000_000_000

  datatype Event =
    | Announced(infoHash: string, peerId: string, stopped: bool, ip: IP, port: Port, at: int)
    | Collected(at: int)

  function SwarmOf(s: Swarms, infoHash: string): Swarm {
    if infoHash in s then s[infoHash] else map[]
  }

  function Lookup(s: Swarms, infoHash: string, peerId: string): Option<PeerEntry> {
    var swarm := SwarmOf(s, infoHash);
    if peerId in swarm then Some(swarm[peerId]) else None
  }

  // The entries that a collection with this cutoff keeps.
  function Fresh(swarm: Swarm, cutoff: int): Swarm {
    map id | id in swarm && !(swarm[id].last < cutoff) :: swarm[id]
  }

  function Announce(s: Swarms, e: Event): Swarms
    requires e.Announced?
  {
    var swarm := SwarmOf(s, e.infoHash);
    s[e.infoHash := if e.stopped then swarm - {e.peerId} else swarm[e.peerId := PeerEntry(e.ip, e.port, e.at)]]
  }

  function Collect(s: Swarms, cutoff: int): Swarms {
    map ih | ih in s && Fresh(s[ih], cutoff) != map[] :: Fresh(s[ih], cutoff)
  }

  function Step(s: Swarms, e: Event): Swarms {
    match e
    case Announced(_, _, _, _, _, _) => Announce(s, e)
    case Collected(at) => Collect(s, at - PEER_TTL)
  }

  function Replay(h: seq<Event>): Swarms {
    if h == [] then map[] else Step(Replay(h[..|h| - 1]), h[|h| - 1])
  }

  lemma ReplaySnoc(h: seq<Event>, e: Event)
    ensures Replay(h + [e]) == Step(Replay(h), e)
  {
    assert (h + [e])[..|h|] == h;
  }

  // The independent description: what the last announce of a peer says, for half an hour.

  const HALF_HOUR := 1_800_000_000_000

  predicate Concerns(e: Event, infoHash: string, peerId: string) {
    e.Announced? && e.infoHash == infoHash && e.peerId == peerId
  }

  // The index of the last announce of a peer to a swarm, or -1.
  function LastAnnounce(h: seq<Event>, infoHash: string, peerId: string): (i: int)
    ensures -1 <= i < |h|
    ensures i >= 0 ==> Concerns(h[i], infoHash, peerId)
    ensures forall j | i < j < |h| :: !Concerns(h[j], infoHash, peerId)
  {
    if h == [] then -1
    else if Concerns(h[|h| - 1], infoHash, peerId) then |h| - 1
    else LastAnnounce(h[..|h| - 1], infoHash, peerId)
  }

  // A collection after event i had a cutoff later than t.
  predicate Expired(h: seq<Event>, i: int, t: int) {
    exists j | 0 <= j < |h| :: j > i && h[j].Collected? && t < h[j].at - HALF_HOUR
  }

  // The entry the last announce leaves behind.
  function Expectation(h: seq<Event>, infoHash: string, peerId: string): Option<PeerEntry> {
    var i := LastAnnounce(h, infoHash, peerId);
    if i < 0 || h[i].stopped || Expired(h, i, h[i].at) then None
    else Some(PeerEntry(h[i].ip, h[i].port, h[i].at))
  }

  lemma StepLookup(s: Swarms, e: Event, infoHash: string, peerId: string)
    ensures var before, after := Lookup(s, infoHash, peerId), Lookup(Step(s, e), infoHash, peerId);
            if Concerns(e, infoHash, peerId) then
              after == if e.stopped then None else Some(PeerEntry(e.ip, e.port, e.at))
            else if e.Announced? then after == before
            else after == if before.Some? && before.value.last < e.at - HALF_HOUR then None else before
  {
    if e.Collected? {
      var cutoff := e.at - PEER_TTL;
      var kept := Fresh(SwarmOf(s, infoHash), cutoff);
      if infoHash in s && kept == map[] {
        assert peerId !in kept;
      }
    }
  }

  // State refines history: an entry exists exactly if the peer's last announce was not "stopped" and no
  // later collection had its cutoff after that announce, and it carries that announce's data. Announces
  // to other swarms and of other peers play no part.
  lemma {:induction false} ReplayMeetsExpectation(h: seq<Event>, infoHash: string, peerId: string)
    ensures Lookup(Replay(h), infoHash, peerId) == Expectation(h, infoHash, peerId)
  {
    if h != [] {
      var front, e := h[..|h| - 1], h[|h| - 1];
      ReplayMeetsExpectation(front, infoHash, peerId);
      StepLookup(Replay(front), e, infoHash, peerId);
      var i := LastAnnounce(h, infoHash, peerId);
      if !Concerns(e, infoHash, peerId) && i >= 0 {
        ExpiredSnoc(front, e, i, h[i].at);
        assert h == front + [e];
      }
    }
  }

  lemma ExpiredSnoc(h: seq<Event>, e: Event, i: int, t: int)
    requires -1 <= i < |h|
    ensures Expired(h + [e], i, t) <==> Expired(h, i, t) || (e.Collected? && t < e.at - HALF_HOUR)
  {
    if Expired(h, i, t) {
      var j :| 0 <= j < |h| && j > i && h[j].Collected? && t < h[j].at - HALF_HOUR;
      assert (h + [e])[j] == h[j];
    }
    if e.Collected? && t < e.at - HALF_HOUR {
      assert (h + [e])[|h|] == e;
    }
    if Expired(h + [e], i, t) {
      var j :| 0 <= j < |h + [e]| && j > i && (h + [e])[j].Collected? && t < (h + [e])[j].at - HALF_HOUR;
      assert j < |h| ==> h[j] == (h + [e])[j];
    }
  }

  // The peers that the response to announce number j was built from: the swarm after the announce,
  // without the one who asked.
  function Handed(h: seq<Event>, j: nat): Swarm
    requires j < |h| && h[j].Announced?
  {
    SwarmOf(Replay(h[..j + 1]), h[j].infoHash) - {h[j].peerId}
  }

  lemma LastAnnounceInPrefix(h: seq<Event>, n: nat, infoHash: string, peerId: string)
    requires LastAnnounce(h, infoHash, peerId) < n <= |h|
    ensures LastAnnounce(h[..n], infoHash, peerId) == LastAnnounce(h, infoHash, peerId)
  {
    var i, k := LastAnnounce(h, infoHash, peerId), LastAnnounce(h[..n], infoHash, peerId);
    assert forall j | 0 <= j < n :: h[..n][j] == h[j];
    if k >= 0 {
      assert Concerns(h[k], infoHash, peerId);
    }
    if i >= 0 {
      assert Concerns(h[..n][i], infoHash, peerId);
    }
  }

  // A peer that is present now has been so since its last announce.
  lemma PresentSinceAnnounce(h: seq<Event>, n: nat, infoHash: string, p: string)
    requires LastAnnounce(h, infoHash, p) < n <= |h| && Expectation(h, infoHash, p).Some?
    ensures Expectation(h[..n], infoHash, p) == Expectation(h, infoHash, p)
  {
    var i := LastAnnounce(h, infoHash, p);
    LastAnnounceInPrefix(h, n, infoHash, p);
    ExpiredInPrefix(h, n, i, h[i].at);
    assert h[..n][i] == h[i];
  }

  lemma EntrySinceAnnounce(h: seq<Event>, n: nat, infoHash: string, p: string)
    requires LastAnnounce(h, infoHash, p) < n <= |h| && Lookup(Replay(h), infoHash, p).Some?
    ensures Lookup(Replay(h[..n]), infoHash, p) == Lookup(Replay(h), infoHash, p)
  {
    ReplayMeetsExpectation(h, infoHash, p);
    ReplayMeetsExpectation(h[..n], infoHash, p);
    PresentSinceAnnounce(h, n, infoHash, p);
  }

  // Discovery, in the table: of two peers now in a swarm, the swarm that the later announce was answered
  // from held the other's current entry. TrackerPeers says what of it the response carries.
  lemma Discovery(h: seq<Event>, infoHash: string, p: string, q: string)
    requires p != q
    requires Lookup(Replay(h), infoHash, p).Some? && Lookup(Replay(h), infoHash, q).Some?
    requires LastAnnounce(h, infoHash, p) < LastAnnounce(h, infoHash, q)
    ensures var j := LastAnnounce(h, infoHash, q);
            p in Handed(h, j) && Handed(h, j)[p] == Lookup(Replay(h), infoHash, p).value
  {
    EntrySinceAnnounce(h, LastAnnounce(h, infoHash, q) + 1, infoHash, p);
  }

  lemma ExpiredInPrefix(h: seq<Event>, n: nat, i: int, t: int)
    requires n <= |h|
    ensures Expired(h[..n], i, t) ==> Expired(h, i, t)
  {
    assert forall k | 0 <= k < n :: h[..n][k] == h[k];
  }

  predicate NonDecreasing(h: seq<Event>) {
    forall i, j | 0 <= i < j < |h| :: h[i].at <= h[j].at
  }

  // Freshness: after a collection at time g, a peer is handed out only if its last announce is no
  // older than g minus the time to live.
  lemma Freshness(h: seq<Event>, g: nat, j: nat, p: string)
    requires NonDecreasing(h) && g < j < |h| && h[g].Collected? && h[j].Announced?
    requires p in Handed(h, j)
    ensures Handed(h, j)[p].last >= h[g].at - HALF_HOUR
  {
    var prefix := h[..j + 1];
    ReplayMeetsExpectation(prefix, h[j].infoHash, p);
    var i := LastAnnounce(prefix, h[j].infoHash, p);
    assert prefix[i] == h[i] && prefix[g] == h[g];
    if i > g {
      assert h[g].at <= h[i].at;
    } else {
      assert i != g;
      assert !Expired(prefix, i, h[i].at);
    }
  }
}
