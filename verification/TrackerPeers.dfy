/**
 What a client reads in a response: a strict bencode reader with its own keys, compact strings, dictionary
 lists, and whether a peer that is due can be found there.
 */
module TrackerPeers {
  import opened Wrappers
  import opened Decimal
  import opened Text
  import opened Bencode
  import opened BencodeDecoder
  import opened TrackerHistory
  import opened Tracker

  datatype Endpoint = Endpoint(a: int, b: int, c: int, d: int, port: int)

  // A compact peer string in groups of six bytes (BEP 23).
  function DecodeCompact(s: string): Option<seq<Endpoint>> {
    if s == "" then Some([])
    else if |s| < 6 then None
    else
      match DecodeCompact(s[6..])
      case None => None
      case Some(rest) =>
        Some([GroupEndpoint(s)] + rest)
  }

  function EndpointsOf(e: PeerEntry): seq<Endpoint> {
    match e.ip
    case V4(a, b, c, d) => [Endpoint(a, b, c, d, e.port)]
    case V6(_) => []
  }

  // The IPv4 entries of a listing, in order.
  function Endpoints(listing: Listing): seq<Endpoint> {
    if listing == [] then [] else Endpoints(listing[..|listing| - 1]) + EndpointsOf(listing[|listing| - 1].1)
  }

  function GroupEndpoint(s: string): Endpoint
    requires |s| >= 6
  {
    Endpoint(s[0] as int, s[1] as int, s[2] as int, s[3] as int, 256 * s[4] as int + s[5] as int)
  }

  lemma {:induction false} DecodeCompactConcat(s: string, t: string, es: seq<Endpoint>)
    requires DecodeCompact(s) == Some(es) && DecodeCompact(t).Some?
    ensures DecodeCompact(s + t) == Some(es + DecodeCompact(t).value)
  {
    if s == "" {
      assert s + t == t && es + DecodeCompact(t).value == DecodeCompact(t).value;
    } else {
      var rest, tail := DecodeCompact(s[6..]).value, DecodeCompact(t).value;
      assert (s + t)[6..] == s[6..] + t;
      assert GroupEndpoint(s + t) == GroupEndpoint(s);
      DecodeCompactConcat(s[6..], t, rest);
      PrependEndpoint(GroupEndpoint(s), rest, tail);
    }
  }

  lemma PrependEndpoint(e: Endpoint, rest: seq<Endpoint>, tail: seq<Endpoint>)
    ensures [e] + (rest + tail) == ([e] + rest) + tail
  {
  }

  lemma DecodeCompactPeer(e: PeerEntry)
    ensures DecodeCompact(CompactPeer(e)) == Some(EndpointsOf(e))
  {
    if e.ip.V4? {
      var s := CompactPeer(e);
      assert s[6..] == "";
      assert s[4] as int == e.port / 256 && s[5] as int == e.port % 256;
      assert 256 * (e.port / 256) + e.port % 256 == e.port;
      assert DecodeCompact(s[6..]) == Some([]);
      assert EndpointsOf(e) == [Endpoint(e.ip.a, e.ip.b, e.ip.c, e.ip.d, e.port)] + [];
    }
  }

  // The compact string holds, in order, exactly the addresses and ports of the IPv4 peers of the list.
  lemma {:induction false} CompactAgrees(listing: Listing)
    ensures DecodeCompact(CompactPeers(listing)) == Some(Endpoints(listing))
  {
    if listing != [] {
      var front, last := listing[..|listing| - 1], listing[|listing| - 1];
      CompactAgrees(front);
      DecodeCompactPeer(last.1);
      DecodeCompactConcat(CompactPeers(front), CompactPeer(last.1), Endpoints(front));
    }
  }

  // The keys of an announce response (BEP 3, BEP 7, BEP 23; "min interval" and "peer id" as trackers use them).
  const SPECIFIED := Keys(
    "interval", "min interval", "peers", "peers6", "complete", "incomplete",
    "peer id", "ip", "port")

  lemma WriterUsesSpecifiedKeys()
    ensures KEYS == SPECIFIED && Distinct(SPECIFIED)
  {
    KeysAreDistinct();
  }

  // The fields that do not depend on the peers.
  ghost predicate FixedFields(k: Keys, v: Value) {
    && FieldOf(v, k.interval) == Some(Int64(30))
    && FieldOf(v, k.minInterval) == Some(Int64(30))
    && FieldOf(v, k.peers6) == Some(Str(""))
    && FieldOf(v, k.complete) == Some(Int64(0))
  }

  // A strict reader of a response finds the number of peers other than the requester and, unless the
  // dictionary form was asked for, a peer string that decodes to the IPv4 peers of the swarm.
  lemma ResponseDecodes(listing: Listing, swarm: Swarm, compact: string)
    requires Lists(listing, swarm) && |listing| <= MAX_INT64 && |swarm| <= MAX_INT64
    ensures var r := Decode(Encoding(ResponseDict(KEYS, listing, compact)));
            && r.Some? && r.value.1 == ""
            && FieldOf(r.value.0, SPECIFIED.incomplete) == Some(Int64(|swarm|))
            && FixedFields(SPECIFIED, r.value.0)
            && FieldOf(r.value.0, SPECIFIED.peers)
            == Some(if compact == "0" then List(NormalAll(DictPeers(KEYS, listing))) else Str(CompactPeers(listing)))
    ensures DecodeCompact(CompactPeers(listing)) == Some(Endpoints(listing))
  {
    WriterUsesSpecifiedKeys();
    ListingSize(listing, swarm);
    CompactAgrees(listing);
    ResponseDecodesAs(KEYS, listing, compact);
  }

  lemma ResponseDecodesAs(k: Keys, listing: Listing, compact: string)
    requires Distinct(k) && |listing| <= MAX_INT64
    ensures var r := Decode(Encoding(ResponseDict(k, listing, compact)));
            && r.Some? && r.value.1 == ""
            && FieldOf(r.value.0, k.incomplete) == Some(Int64(|listing|))
            && FixedFields(k, r.value.0)
            && FieldOf(r.value.0, k.peers)
            == Some(if compact == "0" then List(NormalAll(DictPeers(k, listing))) else Str(CompactPeers(listing)))
  {
    ResponseIsSupported(k, listing, compact);
    EntriesOfResponse(k, listing, compact);
    FieldsDecode(k, ResponseDict(k, listing, compact), |listing|,
      if compact == "0" then List(DictPeers(k, listing)) else Raw(CompactPeers(listing)));
  }

  lemma FieldsDecode(k: Keys, d: Value, count: int64, peers: Value)
    requires d.Dict? && Supported(d) && FixedEntries(k, d.entries)
    requires k.incomplete in d.entries && d.entries[k.incomplete] == Int64(count)
    requires k.peers in d.entries && d.entries[k.peers] == peers
    ensures var r := Decode(Encoding(d));
            && r.Some? && r.value.1 == ""
            && FieldOf(r.value.0, k.incomplete) == Some(Int64(count))
            && FixedFields(k, r.value.0)
            && FieldOf(r.value.0, k.peers) == Some(Normal(peers))
  {
    DecodeField(d, k.incomplete);
    DecodeField(d, k.peers);
    DecodeFixed(k, d);
  }

  lemma DecodeFixed(k: Keys, d: Value)
    requires d.Dict? && Supported(d) && FixedEntries(k, d.entries)
    ensures Decode(Encoding(d)).Some? && FixedFields(k, Decode(Encoding(d)).value.0)
  {
    DecodeField(d, k.interval);
    DecodeField(d, k.minInterval);
    DecodeField(d, k.peers6);
    DecodeField(d, k.complete);
  }

  predicate FixedEntries(k: Keys, e: map<string, Value>) {
    && {k.interval, k.minInterval, k.peers6, k.complete} <= e.Keys
    && e[k.interval] == Int64(30) && e[k.minInterval] == Int64(30)
    && e[k.peers6] == Raw("") && e[k.complete] == Int64(0)
  }

  lemma EntriesOfResponse(k: Keys, listing: Listing, compact: string)
    requires Distinct(k) && |listing| <= MAX_INT64
    ensures var e := ResponseDict(k, listing, compact).entries;
            && k.incomplete in e && e[k.incomplete] == Int64(|listing|)
            && FixedEntries(k, e)
            && k.peers in e
            && e[k.peers] == if compact == "0" then List(DictPeers(k, listing)) else Raw(CompactPeers(listing))
  {
    ResponseEntriesAre(k, CompactPeers(listing), |listing|);
  }

  lemma ResponseEntriesAre(k: Keys, v4Peers: string, count: int64)
    requires Distinct(k)
    ensures var e := ResponseEntries(k, v4Peers, count);
            k.incomplete in e && e[k.incomplete] == Int64(count) && FixedEntries(k, e)
  {
  }

  // A byte in decimal, without leading zeros.
  function ParseByte(s: string): (r: Option<int>)
    ensures r.Some? ==> 0 <= r.value < 256
  {
    if Canonical(s) && Number(s) < 256 then Some(Number(s)) else None
  }

  // The four bytes of a dotted quad.
  function ParseQuad(s: string): Option<(int, int, int, int)> {
    var parts := Split(s, '.');
    if |parts| != 4 then None
    else
      match (ParseByte(parts[0]), ParseByte(parts[1]), ParseByte(parts[2]), ParseByte(parts[3]))
      case (Some(a), Some(b), Some(c), Some(d)) => Some((a, b, c, d))
      case _ => None
  }

  // What a reader makes of one dictionary of the peer list, if its address is an IPv4 one.
  function DictEndpoint(k: Keys, v: Value): seq<Endpoint> {
    match (FieldOf(v, k.ip), FieldOf(v, k.port))
    case (Some(Str(text)), Some(Int64(port))) =>
      (match ParseQuad(text)
       case Some((a, b, c, d)) => [Endpoint(a, b, c, d, port)]
       case None => [])
    case _ => []
  }

  function DictEndpoints(k: Keys, vs: seq<Value>): seq<Endpoint> {
    if vs == [] then [] else DictEndpoints(k, vs[..|vs| - 1]) + DictEndpoint(k, vs[|vs| - 1])
  }

  lemma ParseByteOf(n: Octet)
    ensures ParseByte(Itoa(n)) == Some(n) && '.' !in Itoa(n)
  {
    NumberOfDigits(n);
  }

  lemma QuadText(a: string, b: string, c: string, d: string)
    ensures a + "." + b + "." + c + "." + d == Join([a, b, c, d], '.')
  {
    assert [a, b, c, d][1..] == [b, c, d] && [b, c, d][1..] == [c, d] && [c, d][1..] == [d];
    assert Join([c, d], '.') == c + ['.'] + d;
    assert Join([b, c, d], '.') == b + ['.'] + Join([c, d], '.');
  }

  lemma ParseQuadOf(a: Octet, b: Octet, c: Octet, d: Octet)
    ensures ParseQuad(IpString(V4(a, b, c, d))) == Some((a, b, c, d))
  {
    var parts := [Itoa(a), Itoa(b), Itoa(c), Itoa(d)];
    ParseByteOf(a);
    ParseByteOf(b);
    ParseByteOf(c);
    ParseByteOf(d);
    QuadText(parts[0], parts[1], parts[2], parts[3]);
    SplitOfJoin(parts, '.');
  }

  // A character other than the separator is in some piece.
  lemma {:induction false} SplitKeeps(s: string, sep: char, c: char)
    requires c in s && c != sep
    ensures exists k :: 0 <= k < |Split(s, sep)| && c in Split(s, sep)[k]
  {
    var parts, rest := Split(s, sep), Split(s[1..], sep);
    if s[0] == c {
      assert c in parts[0];
    } else {
      SplitKeeps(s[1..], sep, c);
      var k :| 0 <= k < |rest| && c in rest[k];
      if s[0] == sep {
        assert parts[k + 1] == rest[k];
      } else {
        assert c in parts[k];
      }
    }
  }

  lemma ColonIsNoQuad(s: string)
    requires ':' in s
    ensures ParseQuad(s).None?
  {
    SplitKeeps(s, '.', ':');
    var parts := Split(s, '.');
    var k :| 0 <= k < |parts| && ':' in parts[k];
    assert ParseByte(parts[k]).None?;
  }

  lemma DictFields(k: Keys, p: (string, PeerEntry), v: Value)
    requires Distinct(k) && v == Normal(DictPeer(k, p))
    ensures FieldOf(v, k.peerId) == Some(Str(p.0))
    ensures FieldOf(v, k.ip) == Some(Str(IpString(p.1.ip)))
    ensures FieldOf(v, k.port) == Some(Int64(p.1.port))
  {
    var d := DictPeer(k, p);
    DecodeField(d, k.peerId);
    DecodeField(d, k.ip);
    DecodeField(d, k.port);
    DecodeWhole(d);
  }

  lemma QuadOfIp(ip: IP)
    ensures ParseQuad(IpString(ip)) == match ip case V4(a, b, c, d) => Some((a, b, c, d)) case V6(_) => None
    ensures ip.V6? ==> IpString(ip) == ip.text
  {
    match ip
    case V4(a, b, c, d) => ParseQuadOf(a, b, c, d);
    case V6(text) => ColonIsNoQuad(text);
  }

  // One dictionary of the list, as the bencode reader returns it.
  lemma DictPeerReads(k: Keys, p: (string, PeerEntry))
    requires Distinct(k)
    ensures DictEndpoint(k, Normal(DictPeer(k, p))) == EndpointsOf(p.1)
  {
    DictFields(k, p, Normal(DictPeer(k, p)));
    QuadOfIp(p.1.ip);
  }

  lemma {:induction false} NormalAllSnoc(vs: seq<Value>, v: Value)
    ensures NormalAll(vs + [v]) == NormalAll(vs) + [Normal(v)]
  {
    if vs == [] {
      assert (vs + [v])[1..] == [];
    } else {
      assert (vs + [v])[1..] == vs[1..] + [v];
      NormalAllSnoc(vs[1..], v);
    }
  }

  lemma DictEndpointsSnoc(k: Keys, vs: seq<Value>, v: Value)
    ensures DictEndpoints(k, vs + [v]) == DictEndpoints(k, vs) + DictEndpoint(k, v)
  {
    assert (vs + [v])[..|vs|] == vs;
  }

  lemma EndpointsSnoc(front: Listing, p: (string, PeerEntry))
    ensures Endpoints(front + [p]) == Endpoints(front) + EndpointsOf(p.1)
  {
    assert (front + [p])[..|front|] == front;
  }

  lemma DictAgreesSnoc(k: Keys, front: Listing, p: (string, PeerEntry))
    requires Distinct(k) && DictEndpoints(k, NormalAll(DictPeers(k, front))) == Endpoints(front)
    ensures DictEndpoints(k, NormalAll(DictPeers(k, front + [p]))) == Endpoints(front + [p])
  {
    DictPeerReads(k, p);
    DictsSnoc(k, front, p);
    DictEndpointsSnoc(k, NormalAll(DictPeers(k, front)), Normal(DictPeer(k, p)));
    EndpointsSnoc(front, p);
  }

  // The dictionaries of a list, as a reader finds them, with one more at the end.
  lemma DictsSnoc(k: Keys, front: Listing, p: (string, PeerEntry))
    ensures NormalAll(DictPeers(k, front + [p])) == NormalAll(DictPeers(k, front)) + [Normal(DictPeer(k, p))]
  {
    PeersSnoc(k, front, p.0, p.1);
    assert (p.0, p.1) == p;
    NormalAllSnoc(DictPeers(k, front), DictPeer(k, p));
  }

  lemma LastJoins(listing: Listing)
    requires listing != []
    ensures listing[..|listing| - 1] + [listing[|listing| - 1]] == listing
  {
  }

  lemma {:induction false} DictAgrees(k: Keys, listing: Listing)
    requires Distinct(k)
    ensures DictEndpoints(k, NormalAll(DictPeers(k, listing))) == Endpoints(listing)
  {
    if listing != [] {
      var front, last := listing[..|listing| - 1], listing[|listing| - 1];
      DictAgrees(k, front);
      DictAgreesSnoc(k, front, last);
      LastJoins(listing);
    } else {
      assert DictPeers(k, listing) == [];
    }
  }

  // Peer list agreement: the compact string gives, in order, exactly the addresses and ports that a
  // reader finds in the dictionaries of the list whose address is an IPv4 one.
  lemma PeerListsAgree(listing: Listing)
    ensures DecodeCompact(CompactPeers(listing)) == Some(DictEndpoints(SPECIFIED, NormalAll(DictPeers(KEYS, listing))))
  {
    WriterUsesSpecifiedKeys();
    CompactAgrees(listing);
    DictAgrees(KEYS, listing);
  }

  // Where a client can reach a peer.
  datatype Contact = Contact(ip: string, port: int)

  function ContactOf(e: PeerEntry): Contact {
    Contact(IpString(e.ip), e.port)
  }

  function EndpointContact(e: Endpoint): Contact {
    Contact(Itoa(e.a) + "." + Itoa(e.b) + "." + Itoa(e.c) + "." + Itoa(e.d), e.port)
  }

  function EndpointContacts(es: seq<Endpoint>): seq<Contact> {
    if es == [] then [] else EndpointContacts(es[..|es| - 1]) + [EndpointContact(es[|es| - 1])]
  }

  function DictContact(k: Keys, v: Value): seq<Contact> {
    match (FieldOf(v, k.ip), FieldOf(v, k.port))
    case (Some(Str(text)), Some(Int64(port))) => [Contact(text, port)]
    case _ => []
  }

  function DictContacts(k: Keys, vs: seq<Value>): seq<Contact> {
    if vs == [] then [] else DictContacts(k, vs[..|vs| - 1]) + DictContact(k, vs[|vs| - 1])
  }

  // The peers that a client finds under the peers key, in either form.
  function PeersFound(k: Keys, peers: Option<Value>): seq<Contact> {
    match peers
    case Some(Str(s)) => (match DecodeCompact(s) case Some(es) => EndpointContacts(es) case None => [])
    case Some(List(vs)) => DictContacts(k, vs)
    case _ => []
  }

  function Contacts(k: Keys, body: string): seq<Contact> {
    match Decode(body)
    case Some((v, _)) => PeersFound(k, FieldOf(v, k.peers))
    case None => []
  }

  // The contacts of a listing: of all its peers, or of those with an IPv4 address.
  function ContactsOf(listing: Listing, v4Only: bool): seq<Contact> {
    if listing == [] then []
    else
      var last := listing[|listing| - 1].1;
      ContactsOf(listing[..|listing| - 1], v4Only) + if v4Only && last.ip.V6? then [] else [ContactOf(last)]
  }

  lemma ContactsSnoc(front: Listing, p: (string, PeerEntry), v4Only: bool)
    ensures ContactsOf(front + [p], v4Only) ==
      ContactsOf(front, v4Only) + if v4Only && p.1.ip.V6? then [] else [ContactOf(p.1)]
  {
    assert (front + [p])[..|front|] == front;
  }

  lemma EndpointContactsSnoc(es: seq<Endpoint>, e: PeerEntry)
    ensures EndpointContacts(es + EndpointsOf(e)) == EndpointContacts(es) + if e.ip.V6? then [] else [ContactOf(e)]
  {
    if e.ip.V4? {
      assert (es + EndpointsOf(e))[..|es|] == es;
    } else {
      assert es + EndpointsOf(e) == es;
    }
  }

  lemma {:induction false} CompactContactsAre(listing: Listing)
    ensures EndpointContacts(Endpoints(listing)) == ContactsOf(listing, true)
  {
    if listing != [] {
      var front, last := listing[..|listing| - 1], listing[|listing| - 1];
      CompactContactsAre(front);
      EndpointContactsSnoc(Endpoints(front), last.1);
    }
  }

  lemma DictContactsSnoc(k: Keys, vs: seq<Value>, v: Value)
    ensures DictContacts(k, vs + [v]) == DictContacts(k, vs) + DictContact(k, v)
  {
    assert (vs + [v])[..|vs|] == vs;
  }

  lemma DictContactIs(k: Keys, p: (string, PeerEntry))
    requires Distinct(k)
    ensures DictContact(k, Normal(DictPeer(k, p))) == [ContactOf(p.1)]
  {
    DictFields(k, p, Normal(DictPeer(k, p)));
  }

  lemma {:induction false} DictContactsAre(k: Keys, listing: Listing)
    requires Distinct(k)
    ensures DictContacts(k, NormalAll(DictPeers(k, listing))) == ContactsOf(listing, false)
  {
    if listing != [] {
      var front, last := listing[..|listing| - 1], listing[|listing| - 1];
      DictContactsAre(k, front);
      DictContactIs(k, last);
      LastJoins(listing);
      DictsSnoc(k, front, last);
      DictContactsSnoc(k, NormalAll(DictPeers(k, front)), Normal(DictPeer(k, last)));
      ContactsSnoc(front, last, false);
    } else {
      assert DictPeers(k, listing) == [];
    }
  }

  lemma ContactsIn(k: Keys, body: string, v: Value, rest: string)
    requires Decode(body) == Some((v, rest))
    ensures Contacts(k, body) == PeersFound(k, FieldOf(v, k.peers))
  {
  }

  lemma PeersFoundIn(k: Keys, listing: Listing, compact: string, peers: Value)
    requires Distinct(k)
    requires peers == if compact == "0" then List(NormalAll(DictPeers(k, listing))) else Str(CompactPeers(listing))
    ensures PeersFound(k, Some(peers)) == ContactsOf(listing, compact != "0")
  {
    if compact == "0" {
      DictContactsAre(k, listing);
    } else {
      CompactAgrees(listing);
      CompactContactsAre(listing);
    }
  }

  // A client finds the contacts of the listing: all of them in the list form, else the IPv4 ones.
  lemma ContactsInResponse(listing: Listing, swarm: Swarm, compact: string)
    requires Lists(listing, swarm) && |listing| <= MAX_INT64 && |swarm| <= MAX_INT64
    ensures Contacts(SPECIFIED, Encoding(ResponseDict(KEYS, listing, compact))) == ContactsOf(listing, compact != "0")
  {
    WriterUsesSpecifiedKeys();
    ContactsInResponseAs(SPECIFIED, listing, compact);
  }

  lemma ContactsInResponseAs(k: Keys, listing: Listing, compact: string)
    requires Distinct(k) && |listing| <= MAX_INT64
    ensures Contacts(k, Encoding(ResponseDict(k, listing, compact))) == ContactsOf(listing, compact != "0")
  {
    var body := Encoding(ResponseDict(k, listing, compact));
    ResponseDecodesAs(k, listing, compact);
    var (v, rest) := Decode(body).value;
    ContactsIn(k, body, v, rest);
    PeersFoundIn(k, listing, compact, FieldOf(v, k.peers).value);
  }

  lemma {:induction false} ContactIsListed(listing: Listing, v4Only: bool, i: nat)
    requires i < |listing|
    ensures !(v4Only && listing[i].1.ip.V6?) ==> ContactOf(listing[i].1) in ContactsOf(listing, v4Only)
  {
    if i < |listing| - 1 {
      ContactIsListed(listing[..|listing| - 1], v4Only, i);
    }
  }

  lemma QuadHasNoColon(ip: IP)
    ensures ':' in IpString(ip) <==> ip.V6?
  {
    if ip.V4? {
      assert ':' !in Itoa(ip.a) && ':' !in Itoa(ip.b) && ':' !in Itoa(ip.c) && ':' !in Itoa(ip.d);
    }
  }

  lemma {:induction false} V4ContactsHaveNoColon(listing: Listing)
    ensures forall c | c in ContactsOf(listing, true) :: ':' !in c.ip
  {
    if listing != [] {
      V4ContactsHaveNoColon(listing[..|listing| - 1]);
      QuadHasNoColon(listing[|listing| - 1].1.ip);
    }
  }

  // Of a listed peer, the client finds the contact if and only if it asked for the list form or the
  // address is an IPv4 one.
  lemma ListedIsFound(listing: Listing, swarm: Swarm, compact: string, p: string)
    requires Lists(listing, swarm) && |listing| <= MAX_INT64 && |swarm| <= MAX_INT64 && p in swarm
    ensures ContactOf(swarm[p]) in Contacts(SPECIFIED, Encoding(ResponseDict(KEYS, listing, compact)))
      <==> compact == "0" || swarm[p].ip.V4?
  {
    ContactsInResponse(listing, swarm, compact);
    assert (p, swarm[p]) in listing;
    var i: nat :| i < |listing| && listing[i] == (p, swarm[p]);
    ContactIsListed(listing, compact != "0", i);
    QuadHasNoColon(swarm[p].ip);
    V4ContactsHaveNoColon(listing);
  }

  // Discovery, in the response itself: of two peers now in a swarm, the one who announced later finds
  // the other's current address and port in the response to that announce if and only if it asked for
  // the list form or the address is an IPv4 one.
  lemma DiscoveryInResponse(h: seq<Event>, infoHash: string, p: string, q: string, listing: Listing, compact: string)
    requires p != q
    requires Lookup(Replay(h), infoHash, p).Some? && Lookup(Replay(h), infoHash, q).Some?
    requires LastAnnounce(h, infoHash, p) < LastAnnounce(h, infoHash, q)
    requires Lists(listing, Handed(h, LastAnnounce(h, infoHash, q))) && |listing| <= MAX_INT64
    ensures var entry := Lookup(Replay(h), infoHash, p).value;
            ContactOf(entry) in Contacts(SPECIFIED, Encoding(ResponseDict(KEYS, listing, compact)))
            <==> compact == "0" || entry.ip.V4?
  {
    var swarm := Handed(h, LastAnnounce(h, infoHash, q));
    Discovery(h, infoHash, p, q);
    ListingSize(listing, swarm);
    ListedIsFound(listing, swarm, compact, p);
  }

  // The case that fails: p announces from an IPv6 address, then q without asking for the list form.
  // Then q's response names no peer at all, although p is in the swarm.
  lemma SixIsNotDiscovered(infoHash: string, p: string, q: string, text: V6Text, qIp: IP, port: Port,
      listing: Listing, compact: string)
    requires p != q && compact != "0" && |listing| <= MAX_INT64
    requires var h := [Announced(infoHash, p, false, V6(text), port, 0), Announced(infoHash, q, false, qIp, port, 1)];
             Lists(listing, Handed(h, 1))
    ensures Contacts(SPECIFIED, Encoding(ResponseDict(KEYS, listing, compact))) == []
    ensures |listing| == 1 && listing[0] == (p, PeerEntry(V6(text), port, 0))
  {
    var first := Announced(infoHash, p, false, V6(text), port, 0);
    var second := Announced(infoHash, q, false, qIp, port, 1);
    var h := [first, second];
    var entry := PeerEntry(V6(text), port, 0);
    assert h[..2] == [first] + [second] && [first] == [] + [first];
    ReplaySnoc([], first);
    ReplaySnoc([first], second);
    assert Replay([]) == map[];
    assert Replay([first])[infoHash] == map[p := entry];
    assert Handed(h, 1) == map[p := entry];
    ListingSize(listing, map[p := entry]);
    assert listing == [(p, entry)];
    ContactsInResponse(listing, map[p := entry], compact);
    assert listing[..0] == [];
  }
}
