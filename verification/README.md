# Verified model of bt-engine-bench

bt-engine-bench runs several BitTorrent engines through one scenario and compares them. Most of it is
process and HTTP plumbing. This project models the parts that carry an algorithm or a protocol, and
proves what they are relied on for:

- the XML-RPC and SCGI codec of the rtorrent driver: a recursive writer, a parser that finds children by
  substring search, the tag matcher underneath, the nested length framing (`TagMatcher`, `XmlRpc*`, `Scgi*`);
- the bencode encoder, against a strict decoder written after BEP 3, and the torrent generator and the
  tracker's responses on top of it (`Bencode`, `BencodeDecoder`, `TorrentGen`, `Tracker`, `TrackerPeers`);
- the tracker's swarm table, against the history of announces and collections (`TrackerHistory`, `Tracker`);
- the JSON-RPC demultiplexer of the typhon driver, as a state machine over its lock sections, channel
  operations and writes, with an adversarial server (`Typhon*`);
- the runner's phases as a trace over every exit path, and the construction of engine instances with
  their names and host ports (`Runner*`, `Instance*`, `BenchProperties`). The plan of a run is built by
  recursion and described a second time by what belongs to it and in what order (`RunnerContents`).

Code that works by changing things step by step is imperative here too: buffers, the tracker server, the
typhon driver and the runner are classes whose methods update their fields, and every such method is
proved against a function or predicate of the old state. What the source promises is then proved about
those functions.

## Reading guide

A `char` is one byte in `Scgi*`, `Bencode*`, `TorrentGen` and `Tracker*`, and one Unicode code point in
`XmlRpc*` and `TyphonFailure`, where texts are taken to be valid UTF-8. Integers are unbounded where the
source's 64 bits cannot matter and are the subset type `Decimal.int64` where they can. I/O, clocks,
randomness and hashing are parameters or nondeterministic outcomes: SHA-1 is any function to 20 bytes; a
reader may return short or empty reads or fail; a typhon server may reorder, repeat, drop and invent frames;
`RunnerPlan.World` says which actions of a run succeed.

What the program writes is read back by readers that stand on their own: `XmlRpcReader`, `ScgiReader`,
`BencodeDecoder`, `TrackerPeers` and the JSON reader of `TyphonFailure` have their own literals, from the
specification of their format, and lemmas prove that the program's literals agree with them. The orders and
character classes they rest on are described a second time too: the order of keys, decimal numerals, white
space and the characters of XML.

In `TyphonDriver` the counter, the flag, the connection, the map and the channels are real; where each call
and the reader have come to is ghost.

Several properties turned out not to hold of the code without a condition. Each is stated with the exact
condition, as an equivalence, and most with a concrete case that fails:

- A parsed string comes back in its escaped form, because `parseXMLRPCValue` does not resolve references:
  the round trip is exact if and only if no string holds a character that is escaped
  (`XmlRpcRoundTrip.ExactRoundTrip`).
- A Go `int` is written as `<i4>`, four bytes in XML-RPC, whatever its size: a peer that follows the
  XML-RPC specification, with the usual `<i8>` extension for an int64, accepts a value if and only if its
  Go ints fit in 32 bits (`XmlRpcPeer.PeerReadsValue`, `XmlRpcPeer.WideIntIsRejected`).
- A response with LF line ends is cut at its first blank line if and only if its body holds no
  CRLF CRLF, since that is searched for first, in the whole response (`ScgiResponse.StripLf`,
  `ScgiResponse.StripLfFails`).
- Of two peers in a swarm the one that announced later learns the other's address if and only if it asked
  for compact=0 or the address is an IPv4 one, since `peers6` is always empty
  (`TrackerPeers.DiscoveryInResponse`, `TrackerPeers.SixIsNotDiscovered`).
- A caller that passed the closed check before the connection failed may register after `failPending` has
  run. A waiting call then has a message to receive if and only if it did not register late
  (`TyphonProperties.WaitingAfterFailure`); the run exists (`TyphonProperties.LateCallExists`).
- The connection's error text is put into JSON without escaping: the caller sees it as an error in its own
  words if and only if it is not empty and needs no escaping (`TyphonFailure.FailureIsReported`,
  `TyphonOutcome.CoveredCallReports`); otherwise it may see a result
  (`TyphonFailure.QuotedFailureIsTakenForResult`) or another error
  (`TyphonFailure.SmuggledMemberIsReported`).
- Two swarm entries whose payload files have the same base name overwrite each other's staged payload: in a
  run in which everything works, the files that engines are told to trust are right if and only if there is
  no such clash (`RunnerProperties.CompleteRunIsJustified`, `RunnerProperties.ClashExists`). Over all runs,
  failures included, the condition is `RunnerProperties.JustifiedInEveryWorldIff`.
- Instance names are distinct if and only if no engine is named twice in the same form, alone or as several
  instances (`InstanceProperties.NamesAreDistinct`, `InstanceProperties.NamedTwice`); host ports never
  collide if and only if the base ports differ modulo 100 (`InstanceProperties.SafeBases`), which the
  defaults do.
- The length in a torrent comes from stat and the pieces from what is read afterwards. Up to collisions of
  the hash, some payload has that length and those pieces if and only if as many bytes were read as stat
  reported (`TorrentGen.PiecesFitLength`), and then it is the one that was read
  (`TorrentGen.DescribesOnlyPayload`). A file that grew from one byte to two gives a torrent with the right
  number of pieces that no payload fits (`TorrentGen.GrownPayloadFails`).

Where code and comment disagree, the code is modelled: the tracker's comment says both peer formats are
always sent (internal/tracker/tracker.go:188-190), but `compact=0` replaces the string by the list
(internal/tracker/tracker.go:203-206).

`dafny verify dfyconfig.toml` checks the whole project.

## Model

| member | source | states |
|---|---|---|
| `Decimal.NumberOfDigits` | internal/bencode/bencode.go:66-73 | the numeral printed for a natural number denotes that number |
| `Decimal.DigitsOfNumber` | internal/bencode/bencode.go:66-73 | a numeral without leading zeros is the one printed for the number it denotes |
| `Decimal.ParseIntOfItoa` | internal/engine/rtorrent.go:240-244 | every 64-bit number, the least one included, is read back as printed |
| `Decimal.ParseIntReads` | internal/engine/rtorrent.go:305-313 | exactly the texts of 64-bit numbers are read, each as its number: one sign or none, then digits |
| `Decimal.DigitsAreTen` | internal/bencode/bencode.go:66-73 | the digits are 0 to 9 and count for their places among them |
| `Decimal.LeadingDigit` | internal/bencode/bencode.go:66-73 | a digit in front of n others counts for so many times the n-th power of ten |
| `Decimal.DigitPrefixEnds` | internal/bencode/bencode.go:65-69 | a numeral that a non-digit follows can be told from what follows |
| `Text.IndexIsLeast` | internal/engine/rtorrent.go:321 | the search finds the least offset at which a pattern occurs, or -1 exactly if it occurs nowhere |
| `Text.TrimSpaceStrips` | internal/engine/rtorrent.go:330 | trimming takes off exactly the white space around trimmed contents |
| `Text.IsSpace` | internal/engine/rtorrent.go:330 | white space is what Unicode gives the property White_Space, code point by code point |
| `Text.XmlSpaceIsSpace` | internal/engine/rtorrent.go:330 | every text of blanks, tabs and line ends, which is what XML calls white space, is trimmed off whole |
| `Text.SplitOfJoin` | cmd/bench/main.go:290 | splitting a list at commas recovers its comma-free pieces |
| `Buffers.Buffer.WriteString` | internal/engine/rtorrent.go:214-224 | bytes are appended, nothing else changes |
| `Buffers.Buffer.WriteByte` | internal/bencode/bencode.go:72-74 | one byte is appended, nothing else changes |
| `TagMatcher.IndexMatchingClose` | internal/engine/rtorrent.go:348-371 | for every string and every tag name without '<': the least offset of a closing tag before which opens minus closes, counted at every offset, is 1; -1 exactly if the string does not begin with the opening tag or there is no such offset |
| `TagMatcher.ScanLoop` | internal/engine/rtorrent.go:356-370 | the loop over depth and position, on any string, computes the scan function |
| `TagMatcher.ScanMeetsSpec` | internal/engine/rtorrent.go:356-370 | jumping over tags finds what counting every occurrence finds, because tags cannot overlap |
| `TagMatcher.FindCloseIsLeast` | internal/engine/rtorrent.go:348-371 | the scan from the start of an element meets the counting specification |
| `TagMatcher.TagsArePair` | internal/engine/rtorrent.go:349-350 | the opening and the closing tag of a name without '<' are not prefixes of each other and hold one '<' each |
| `TagMatcher.ScanLeavesRoom` | internal/engine/rtorrent.go:366 | a match leaves room for the closing tag, so the slices of the parser are in bounds |
| `XmlRpcWriter.WriteXmlRpcValue` | internal/engine/rtorrent.go:227-266 | appends the text of a value to the buffer, by recursion over nested arrays |
| `XmlRpcWriter.IsXmlChar` | internal/engine/rtorrent.go:229-232 | the characters that are passed are those of production 2 of XML 1.0 |
| `XmlRpcWriter.WriteAll` | internal/engine/rtorrent.go:217-221 | the loops over parameters and items append all their texts in order |
| `XmlRpcWriter.EncodeXmlRpc` | internal/engine/rtorrent.go:213-225 | the document of a call with any parameters |
| `XmlRpcParser.ParseXmlRpcValue` | internal/engine/rtorrent.go:300-342 | on every string, however malformed, ends and computes the parse function |
| `XmlRpcParser.ParseChildren` | internal/engine/rtorrent.go:316-338 | the loop over rest and items ends, its slices are in bounds, and it computes the children the search still finds |
| `XmlRpcParser.FindChild` | internal/engine/rtorrent.go:321-330 | one search step: the contents of the first element found, and what follows |
| `XmlRpcParser.NextChild` | internal/engine/rtorrent.go:321-336 | contents and remainder are both shorter than the text searched, the measure on which recursion and loop end |
| `XmlRpcScan.NextChildOfElement` | internal/engine/rtorrent.go:321-336 | after text that holds no part of a value tag, the search cuts out exactly one whole element, whatever follows |
| `XmlRpcLayout.DocIsSkippable` | internal/engine/rtorrent.go:348-371 | the matcher passes over any laid-out document with the depth unchanged |
| `XmlRpcLayout.ParseDoc` | internal/engine/rtorrent.go:300-342 | the parser returns the meaning of every legal document, at every nesting depth |
| `XmlRpcLayout.ParseItemsOf` | internal/engine/rtorrent.go:316-338 | the child search returns the meanings of all items, whatever legal gaps stand between them |
| `XmlRpcLayout.ParseItemsThen` | internal/engine/rtorrent.go:316-338 | in front of any further text, legal or not, the children are found first and the search goes on behind them |
| `XmlRpcMalformed.NumberElements` | internal/engine/rtorrent.go:305-313 | the text of an i4, i8 or int element is read exactly if it is that of a 64-bit number, and is an error otherwise; a missing closing tag does not matter |
| `XmlRpcMalformed.StringElements` | internal/engine/rtorrent.go:314-315 | the same for the text of a string element, which is taken as it is |
| `XmlRpcMalformed.BareTexts` | internal/engine/rtorrent.go:340-341 | text that begins with none of the five tags is a string as it stands |
| `XmlRpcMalformed.TruncatedArray` | internal/engine/rtorrent.go:320-328 | an array whose next child is not closed gives the children before it, without an error |
| `XmlRpcMalformed.BadNumberSpoilsArray` | internal/engine/rtorrent.go:331-334 | a child that is no number makes the array an error, whatever follows |
| `XmlRpcRoundTrip.ParseAnyLayout` | internal/engine/rtorrent.go:316-338 | any Unicode white space, line ends and tabs included, between tags and around contents leaves the parsed tree the same |
| `XmlRpcRoundTrip.RoundTrip` | internal/engine/rtorrent.go:227-342 | parsing what was written returns the value, ints widened to 64 bits, strings in escaped form, base64 and boolean elements as text |
| `XmlRpcRoundTrip.ExactRoundTrip` | internal/engine/rtorrent.go:227-342 | for strings, ints and nested arrays, the value itself comes back if and only if no string needs escaping |
| `XmlRpcRoundTrip.EscapeIsIdentity` | internal/engine/rtorrent.go:229-232 | escaping leaves a string alone if and only if it holds none of the escaped characters |
| `XmlRpcRoundTrip.EscapeHasNoTag` | internal/engine/rtorrent.go:229-232 | escaped text holds no '<' |
| `XmlRpcRoundTrip.RenderIsCompact` | internal/engine/rtorrent.go:227-266 | what is written is the layout without any white space |
| `XmlRpcRoundTrip.CallCarriesParams` | internal/engine/rtorrent.go:213-225 | the child search applied to a whole call finds its parameters, in order, whatever the method's name |
| `XmlRpcPeer.UnescapeOfEscape` | internal/engine/rtorrent.go:229-232 | resolving the references gives back the string, up to characters that XML cannot carry |
| `XmlRpcPeer.DecodeOfBase64` | internal/engine/rtorrent.go:233-236 | a strict base64 decoder gives back the bytes |
| `XmlRpcPeer.ReadOfRender` | internal/engine/rtorrent.go:227-266 | in front of any text, an independent strict reader reads back the written tree, element kind by element kind, exactly if its ints fit in 32 bits, and rejects it otherwise |
| `XmlRpcPeer.PeerReadsValue` | internal/engine/rtorrent.go:227-266 | the same for a value as a whole |
| `XmlRpcPeer.PeerReadsCall` | internal/engine/rtorrent.go:213-225 | a strict reader of calls, with the methodCall frame of the XML-RPC specification, recovers the method's name and the parameters in order, under the same condition |
| `XmlRpcPeer.WriterFramesCalls` | internal/engine/rtorrent.go:215-223 | the driver's literals around a call are a declaration and that frame |
| `XmlRpcPeer.WideIntIsRejected` | internal/engine/rtorrent.go:237-240 | what the driver writes for the int 2^31 is rejected |
| `Scgi.FrameRequest` | internal/engine/rtorrent.go:155-174 | the request text of a body: a netstring of headers, then the body |
| `Scgi.Frame` | internal/engine/rtorrent.go:158-174 | the two buffers filled step by step |
| `ScgiReader.ReadRequestOf` | internal/engine/rtorrent.go:155-174 | a reader with the names that the SCGI specification demands recovers exactly CONTENT_LENGTH, first and with the body's length, and SCGI=1, no name twice, and exactly the body, whatever bytes follow |
| `ScgiReader.WriterMeetsDemands` | internal/engine/rtorrent.go:158-167 | the driver's header names, the marker and the byte that ends a field are the specified ones |
| `ScgiResponse.StripHeaders` | internal/engine/rtorrent.go:184-191 | computes what follows the first blank line, CRLF CRLF before LF LF |
| `ScgiResponse.StripCases` | internal/engine/rtorrent.go:184-191 | any response at all: what follows the first CRLF CRLF, without one what follows the first LF LF, and without either the response itself |
| `ScgiResponse.FirstBlankLine` | internal/engine/rtorrent.go:184-190 | the first blank line of a response is the one that ends its header lines |
| `ScgiResponse.StripCrlf` | internal/engine/rtorrent.go:184-186 | of a response with CRLF lines exactly the body is returned, even if it holds more blank lines |
| `ScgiResponse.StripLf` | internal/engine/rtorrent.go:184-190 | of a response with LF lines exactly the body is returned if and only if the body holds no CRLF CRLF |
| `ScgiResponse.StripLfFails` | internal/engine/rtorrent.go:184-190 | an LF response whose body holds CRLF CRLF: what follows that is returned, which is not the body |
| `KeyOrder.SortStrings` | internal/bencode/bencode.go:78-82 | the keys in strictly ascending bytewise order, with the same set of keys |
| `KeyOrder.LessIsPrecedes` | internal/bencode/bencode.go:82 | one string is below another if and only if it is a proper prefix of it or has the smaller byte where they first differ |
| `KeyOrder.AscendingIsUnique` | internal/bencode/bencode.go:82 | a set of keys has one ascending listing, so the order in which a map is ranged over does not matter |
| `Bencode.Encode` | internal/bencode/bencode.go:31-37 | the encoding of the tree, or an error exactly if an unsupported value occurs anywhere in it |
| `Bencode.SupportedIff` | internal/bencode/bencode.go:58-62 | a tree is supported if and only if no value of another type stands anywhere in it |
| `Bencode.WriteValue` | internal/bencode/bencode.go:39-63 | appends the encoding of a tree, or fails exactly if it is not supported |
| `Bencode.WriteItems` | internal/bencode/bencode.go:50-56 | the loop over a list |
| `Bencode.WriteDict` | internal/bencode/bencode.go:77-93 | the entries in ascending key order, whatever order the keys were collected in |
| `Bencode.WriteEntries` | internal/bencode/bencode.go:85-90 | the loop over the sorted keys |
| `Bencode.KeysOf` | internal/bencode/bencode.go:78-81 | every key once, in any order |
| `Bencode.WriteBytes` | internal/bencode/bencode.go:65-69 | the length-prefixed string |
| `Bencode.WriteInt` | internal/bencode/bencode.go:71-75 | the integer between its delimiters |
| `BencodeDecoder.DecodeEncoding` | internal/bencode/bencode.go:39-93 | a strict decoder of BEP 3 on an encoding and any further bytes returns the tree, normalised, and those bytes |
| `BencodeDecoder.EncodingIsInjective` | internal/bencode/bencode.go:39-93 | equal encodings come from equal trees up to string/[]byte and int/int64, and no encoding is a proper prefix of another |
| `BencodeDecoder.DecodedIsEncoding` | internal/bencode/bencode.go:39-93 | re-encoding what the strict decoder accepts gives the same bytes back |
| `BencodeDecoder.EncodingsAreCanonical` | internal/bencode/bencode.go:31-93 | the encodings are exactly the texts the strict decoder accepts |
| `BencodeDecoder.RawFieldOf` | internal/bencode/bencode.go:77-93 | cutting the span of an entry out of a dictionary's text gives the encoding of that entry's value |
| `TorrentGen.PayloadReader.Read` | internal/torrentgen/gen.go:128-135 | any io.Reader over the payload: short reads, finitely many empty ones, late or early end of file, failure |
| `TorrentGen.PayloadReader.ReadFull` | internal/torrentgen/gen.go:135 | a full buffer, or less with the end of the payload reached, or a failure |
| `TorrentGen.HashPieces` | internal/torrentgen/gen.go:128-148 | however short the reads, the hashes of the pieces of the whole payload; an error only for a bad piece length or a failed read |
| `TorrentGen.PieceCountIsCeiling` | internal/torrentgen/gen.go:134-147 | the number of pieces is size over piece length, rounded up |
| `TorrentGen.PiecesLength` | internal/torrentgen/gen.go:134-147 | 20 bytes for each piece, none for an empty one |
| `TorrentGen.PieceBlocks` | internal/torrentgen/gen.go:134-147 | block k is the hash of bytes k*L up to (k+1)*L or the end |
| `TorrentGen.PiecesDetermineData` | internal/torrentgen/gen.go:134-147 | unless the hash collides on two pieces in the same place, payloads with the same pieces are equal |
| `TorrentGen.GenerateFile` | internal/torrentgen/gen.go:56-126 | the file is the encoding of the root dictionary, its length is what stat reports and its pieces are of what is read, the raw span of its info value can be cut out, and the info-hash is the hash of that span; the error cases |
| `TorrentGen.FileReads` | internal/torrentgen/gen.go:84-115 | a strict reader finds announce exactly if there is a URL, creation date, created by, and in the info dictionary name, length, piece length and pieces, each as the spec or its default says |
| `TorrentGen.BaseOf` | internal/torrentgen/gen.go:86 | the base name of a path is its last name, whatever slashes follow |
| `TorrentGen.BaseOfSlashes` | internal/torrentgen/gen.go:86 | that of slashes alone is a slash, and of the empty path a dot |
| `TorrentGen.DescribesOnlyPayload` | internal/torrentgen/gen.go:70-148 | a payload not confused by the hash with what was read has the length and the pieces that a strict reader finds in the torrent if and only if it is what was read and stat reported its size |
| `TorrentGen.PiecesFitLength` | internal/torrentgen/gen.go:70-95 | some such payload exists if and only if as many bytes were read as stat reported |
| `TorrentGen.GrownPayloadFails` | internal/torrentgen/gen.go:70-95 | stat reports one byte, "ab" is read: the number of pieces is right, but no such payload fits |
| `TorrentGen.InfoSpanDecodes` | internal/torrentgen/gen.go:91-119 | the raw info span decodes to name, size, piece length and pieces, with or without an announce key |
| `TrackerHistory.ReplayMeetsExpectation` | internal/tracker/tracker.go:89-163 | after any history an entry exists exactly if its last announce was not "stopped" and no later collection had a cutoff after it, with that announce's address, port and time; announces to other swarms do not matter |
| `TrackerHistory.Discovery` | internal/tracker/tracker.go:149-182 | in the table: of two peers now in a swarm, the swarm that the later announce was answered from held the other's current entry |
| `TrackerPeers.DiscoveryInResponse` | internal/tracker/tracker.go:149-208 | in the response: a client that announced later finds the other's current address and port in the response to that announce if and only if it asked for compact=0 or the address is an IPv4 one |
| `TrackerPeers.ContactsInResponse` | internal/tracker/tracker.go:165-208 | what a client finds under `peers`: every peer of the listing with compact=0, otherwise exactly those with an IPv4 address |
| `TrackerPeers.SixIsNotDiscovered` | internal/tracker/tracker.go:173-206 | a peer that announced from an IPv6 address is not named in the response to a later announce without compact=0 |
| `TrackerHistory.Freshness` | internal/tracker/tracker.go:92-102 | with a clock that does not go back, a peer handed out after a collection announced no earlier than its time minus the time to live |
| `Tracker.Server.constructor` | internal/tracker/tracker.go:50-55 | an empty table with an empty history |
| `Tracker.Server.Gc` | internal/tracker/tracker.go:88-106 | one pass is the collection step of the history |
| `Tracker.Server.Sweep` | internal/tracker/tracker.go:94-103 | the loops over swarms and peers, in any order: stale entries go, then swarms that became empty |
| `Tracker.Server.HandleAnnounce` | internal/tracker/tracker.go:108-209 | a request is answered exactly if both ids have 20 bytes, the port is from 1 to 65535 and there is an address; any other changes nothing; after an answered one the requester's entry is as `Tracker.EventAnnounces` says, and the response is the encoding of a listing of exactly the swarm without the requester |
| `Tracker.Server.Answer` | internal/tracker/tracker.go:149-208 | what follows the checks: the table, and the listing of the swarm without the requester |
| `Tracker.EventAnnounces` | internal/tracker/tracker.go:149-163 | in the request's own words: no entry after event=stopped, otherwise one with the ip parameter's address or else the connection's, the port and the time; every other entry is untouched |
| `Tracker.CollectionCollects` | internal/tracker/tracker.go:92-103 | a collection removes exactly the entries older than half an hour and leaves no empty swarm |
| `Tracker.Server.UpdateSwarm` | internal/tracker/tracker.go:149-163 | the table update of an announce |
| `Tracker.Server.ListPeers` | internal/tracker/tracker.go:165-183 | both peer forms, from one pass over the swarm in any order, leaving out the requester |
| `Tracker.Server.BuildResponse` | internal/tracker/tracker.go:185-208 | the response body, with the list instead of the string on compact=0 |
| `Tracker.ListingSize` | internal/tracker/tracker.go:193-194 | a listing has as many entries as the swarm has peers |
| `Tracker.ListingsAgree` | internal/tracker/tracker.go:169-182 | the order of the map changes only the order of the entries |
| `TrackerPeers.CompactAgrees` | internal/tracker/tracker.go:173-181 | read in groups of six bytes (BEP 23), the compact string gives, in order, address and port of exactly the IPv4 entries of the list |
| `TrackerPeers.DictFields` | internal/tracker/tracker.go:177-181 | a bencode reader finds each peer's id, address text and port under their keys |
| `TrackerPeers.PeerListsAgree` | internal/tracker/tracker.go:165-206 | the compact string gives, in order, exactly the addresses and ports found in the dictionaries of the list whose address reads as an IPv4 one |
| `TrackerPeers.QuadOfIp` | internal/tracker/tracker.go:179 | the text of an IPv4 address is its quad, that of an IPv6 address is no quad and stands as it is |
| `TrackerPeers.ParseQuadOf` | internal/tracker/tracker.go:179 | the four bytes of an IPv4 address are read back from its text |
| `TrackerPeers.ResponseDecodes` | internal/tracker/tracker.go:185-208 | a strict bencode reader with its own keys finds every field, `incomplete` being the size of the swarm without the requester |
| `TrackerPeers.WriterUsesSpecifiedKeys` | internal/tracker/tracker.go:177-194 | the handler's keys are the specified ones and differ from each other |
| `TyphonProtocol.NextKeepsInv` | internal/engine/typhon.go:314-400 | every step of callers, reader, failPending and Stop keeps the invariant on ids, entries, channels and the map |
| `TyphonProtocol.ReachableInv` | internal/engine/typhon.go:314-400 | the invariant holds in every reachable state, whatever the server does and however steps interleave |
| `TyphonProperties.IdsNeverRepeat` | internal/engine/typhon.go:355 | no two calls ever share an id |
| `TyphonProperties.ReceivesOwnOrFailure` | internal/engine/typhon.go:328-388 | a call receives a frame with its own id or the connection's failure, and its channel sees at most one send |
| `TyphonProperties.MessagesAreGenuine` | internal/engine/typhon.go:316-343 | over all runs: a frame in a call's channel, or received by it, was read from the server exactly so, and under the call's id; a failure is the error with which reading ended |
| `TyphonProperties.ProgressIsExact` | internal/engine/typhon.go:352-398 | over all runs: a call stands exactly where its steps have brought it; in particular it ends unmarshallable, unwritten, cancelled or answered if and only if that has happened to it, and closed only after a close |
| `TyphonProperties.CallsAfterClose` | internal/engine/typhon.go:318-354 | over all runs: a call that enters after a failed read or Stop gets no further than the check |
| `TyphonProperties.ReaderNeverBlocks` | internal/engine/typhon.go:336-346 | neither the read loop nor failPending, which sends under the lock, can block on a send |
| `TyphonProperties.PendingIsExact` | internal/engine/typhon.go:372-398 | the map holds exactly the registered calls that are not yet claimed, failed or withdrawn, each under its id |
| `TyphonProperties.NothingLeaks` | internal/engine/typhon.go:372-398 | once all calls have returned the map is empty |
| `TyphonProperties.FailPendingCovers` | internal/engine/typhon.go:340-347 | every call in the map when failPending takes the lock has the failure in its channel, or has received it, when the lock can be released |
| `TyphonProperties.LockedRun` | internal/engine/typhon.go:340-347 | while failPending holds the lock the reader does nothing else |
| `TyphonProperties.WaitingAfterFailure` | internal/engine/typhon.go:352-388 | after failPending a waiting call has a message if and only if it did not register late |
| `TyphonProperties.LateCallGetsNothing` | internal/engine/typhon.go:352-398 | a late call is never sent anything; only a write error or its context ends it |
| `TyphonProperties.LateCallExists` | internal/engine/typhon.go:319-375 | a run in which a call registers late |
| `TyphonFailure.FailureIsReported` | internal/engine/typhon.go:343-387 | a reader of JSON objects that looks for the member `__rpc_error` gives the caller the connection's error in its own words if and only if the text is not empty and needs no escaping |
| `TyphonFailure.FailureHasMember` | internal/engine/typhon.go:343 | the object that is built has that one member |
| `TyphonFailure.FoldIs` | internal/engine/typhon.go:387-392 | a member's name counts whatever the case of its letters |
| `TyphonFailure.QuotedFailureIsTakenForResult` | internal/engine/typhon.go:343-388 | a text with exactly one quote, and nothing else to escape, is returned to the caller as a result |
| `TyphonFailure.SmuggledMemberIsReported` | internal/engine/typhon.go:343-387 | a text that closes the string and brings a member `__rpc_error` of its own makes the caller see that one |
| `TyphonOutcome.CoveredCallReports` | internal/engine/typhon.go:340-388 | a call in the map when failPending takes the lock can receive while it waits, receives nothing but the failure, and its caller sees the connection's error in its own words under exactly that condition |
| `TyphonOutcome.AnsweredCallReturns` | internal/engine/typhon.go:316-388 | an answered call returns a text that the server sent under its id, word for word, unless the server put an error member into it |
| `TyphonOutcome.FailedStays` | internal/engine/typhon.go:340-398 | a call that was sent the failure keeps it until it has received it, whatever steps follow |
| `TyphonDriver.Chan.Send` | internal/engine/typhon.go:336-343 | a send on a channel of capacity 1 that does not block |
| `TyphonDriver.Chan.Receive` | internal/engine/typhon.go:388 | the message that waits in the channel |
| `TyphonDriver.Driver.constructor` | internal/engine/typhon.go:26-56 | the initial state |
| `TyphonDriver.Driver.BeginCall` | internal/engine/typhon.go:352-354 | entering and reading the closed flag |
| `TyphonDriver.Driver.AddId` | internal/engine/typhon.go:355 | the atomic increment |
| `TyphonDriver.Driver.MarshalFrame` | internal/engine/typhon.go:356-368 | marshalling fails as a step of its own, or nothing changes |
| `TyphonDriver.Driver.AddPending` | internal/engine/typhon.go:372-375 | a new channel under the call's id; the first lock section of a call is the register step |
| `TyphonDriver.Driver.WriteFrame` | internal/engine/typhon.go:377-380 | the write, which cannot succeed on a closed connection |
| `TyphonDriver.Driver.Await` | internal/engine/typhon.go:387-395 | the select is a receive step or the end of the context |
| `TyphonDriver.Driver.RemovePending` | internal/engine/typhon.go:381-398 | the lock sections that withdraw a call |
| `TyphonDriver.Driver.DropEntry` | internal/engine/typhon.go:331-396 | deleting an id keeps map, owners and channels linked |
| `TyphonDriver.Driver.ClaimPending` | internal/engine/typhon.go:329-335 | the lock section of the read loop is the claim step; the channel it returns is the answered call's own, null for an unknown id |
| `TyphonDriver.Driver.SendReply` | internal/engine/typhon.go:336 | the send is the send step |
| `TyphonDriver.Driver.HandleLine` | internal/engine/typhon.go:316-337 | one iteration of the read loop is a run of the protocol that returns to reading; the channel of the pending call with the frame's id holds exactly that frame afterwards, its entry is gone, and no other channel is touched |
| `TyphonDriver.Driver.Dispatch` | internal/engine/typhon.go:329-337 | the part of it that follows the probe |
| `TyphonDriver.Driver.ConnectionFails` | internal/engine/typhon.go:318-320 | the flag is set before failPending runs |
| `TyphonDriver.Driver.FailEntry` | internal/engine/typhon.go:342-345 | one iteration of failPending |
| `TyphonDriver.Driver.FailAll` | internal/engine/typhon.go:342-345 | the loop under the lock never blocks, ends, and empties the map, in any order |
| `TyphonDriver.Driver.FailPending` | internal/engine/typhon.go:340-347 | failPending is a run of the protocol after which the channel of every call that was in the map holds exactly the failure |
| `TyphonDriver.Driver.Stop` | internal/engine/typhon.go:488-492 | the flag, then the connection |
| `Runner.Bench.Run` | internal/runner/runner.go:32-240 | whatever fails, the events are those of the run's plan up to the first failure, then the deferred stops; it reports failure exactly if something failed or there are no engines |
| `Runner.Bench.Phases` | internal/runner/runner.go:36-239 | the phases up to the return |
| `Runner.Bench.Prepare` | internal/runner/runner.go:36-125 | working directory, tracker and artefacts |
| `Runner.Bench.GenerateAll` | internal/runner/runner.go:87-125 | the loop over swarm entries: each is checked, then its artefacts are added in order |
| `Runner.Bench.GenerateNext` | internal/runner/runner.go:87-125 | its body: what is ahead shrinks by one entry as the trace and the list grow by it |
| `Runner.Bench.GenerateEntry` | internal/runner/runner.go:104-121 | the loop over the torrents of one entry |
| `Runner.Bench.GenerateOne` | internal/runner/runner.go:251-297 | generating fails without a path and a size, or if the environment says so |
| `Runner.Bench.CheckEntry` | internal/runner/runner.go:88-94 | several torrents from one payload path are refused; a count below one is one |
| `Runner.Bench.StartAll` | internal/runner/runner.go:137-162 | an engine is live exactly if it was started |
| `Runner.Bench.AddArtefact` | internal/runner/runner.go:179-203 | staging before the add for seeders that can be staged, and the seed flag unless the entry is to be verified |
| `Runner.Bench.Register` | internal/runner/runner.go:171-204 | one engine: the legacy torrents, then the swarm |
| `Runner.Bench.RegisterAll` | internal/runner/runner.go:170-205 | engine by engine, ended by the first failure |
| `Runner.Bench.StopAll` | internal/runner/runner.go:127-136 | the live engines are stopped in reverse order |
| `RunnerProperties.TeardownIsExact` | internal/runner/runner.go:127-162 | on every exit path exactly the started engines are stopped, once each, last first |
| `RunnerProperties.PhasesAscend` | internal/runner/runner.go:127-240 | stops come after all adds and samples, the tracker's last; nothing but stops follows a failure |
| `RunnerProperties.TrackerTeardown` | internal/runner/runner.go:49-53 | the tracker is stopped exactly if it was started |
| `RunnerProperties.EnginesFirst` | internal/runner/runner.go:138-239 | every engine is up before any torrent is registered or any sample taken |
| `RunnerProperties.ArtefactIsPlanned` | internal/runner/runner.go:170-204 | every seeder of an artefact is staged it and then given it, with the seed flag exactly if it is not to be verified |
| `RunnerProperties.PlanIsSound` | internal/runner/runner.go:170-204 | a trusting add directly follows the staging, and an engine is given payloads in order |
| `RunnerContents.PlanIsExact` | internal/runner/runner.go:36-205 | the plan holds exactly the actions that belong to the run, each once: every legacy torrent and every artefact on every engine, stagings for seeders only, in the order of phases, engines and torrents |
| `RunnerOutcome.CompleteIff` | internal/runner/runner.go:36-205 | a run is complete if and only if every entry is acceptable and the environment lets every action succeed |
| `RunnerOutcome.EndsInFailure` | internal/runner/runner.go:36-205 | any other run ends with the action that failed |
| `RunnerOutcome.SamplesAreTaken` | internal/runner/runner.go:206-240 | samples are taken in complete runs, all of them in order, and in no other |
| `RunnerOutcome.StopsMatchStarts` | internal/runner/runner.go:127-162 | on every exit path an engine is stopped if and only if its start succeeded, once, later engines first |
| `RunnerOutcome.ArtefactsAre` | internal/runner/runner.go:87-121 | every entry makes as many torrents as its count says, at least one, in order, and there are no others |
| `RunnerOutcome.GeneratedArtefact` | internal/runner/runner.go:251-294 | path, name, seeders and verify flag of a generated payload's artefact |
| `RunnerOutcome.SeedPathIs` | internal/runner/runner.go:179-192 | the path at which an engine looks for a payload |
| `RunnerProperties.SeedsAreStaged` | internal/runner/runner.go:179-203 | with distinct engine and torrent names, on every exit path, an engine told to trust a file has the torrent's payload in it from the add to the end |
| `RunnerProperties.CompleteRunIsJustified` | internal/runner/runner.go:179-203 | in a run in which everything works, that holds if and only if no trusted payload is followed by another one of the same name on the same engine |
| `RunnerProperties.JustifiedInEveryWorldIff` | internal/runner/runner.go:87-203 | whatever works and whatever fails, engines trust only what they have, if and only if the setup is refused or no engine that trusts a payload is later a seeder of another torrent of the same name |
| `RunnerProperties.ClashExists` | internal/runner/runner.go:179-203 | two entries with payload files /a/x and /b/x and one seeder: a complete run goes wrong |
| `RunnerProperties.PathsTellApart` | internal/runner/runner.go:179-192 | seed paths of engines with distinct names, in all three places where drivers look, coincide only for the same engine and torrent name |
| `RunnerProperties.GeneratedNamesDiffer` | internal/runner/runner.go:267 | names of generated payloads differ for different entries and torrents, whatever the random suffixes |
| `RunnerProperties.GeneratedSeedsAreStaged` | internal/runner/runner.go:251-297 | a swarm whose payloads are all generated needs no condition on names |
| `RunnerProperties.BaseOfPath` | internal/runner/runner.go:291 | the torrent's name is the generated file's name |
| `Instances.BuildDrivers` | cmd/bench/main.go:281-352 | the drivers of a list in its order, or the error of the first bad token, or that no engine is selected |
| `Instances.BuildToken` | cmd/bench/main.go:295-338 | one token: its count is looked at before its name |
| `Instances.AddInstances` | cmd/bench/main.go:299-346 | the instances of an engine, renamed if there are several, their ports stepped by 100 |
| `InstanceProperties.ListBuilds` | cmd/bench/main.go:269-352 | every list of engines and counts, with any white space, builds exactly those instances |
| `InstanceProperties.DriverIs` | cmd/bench/main.go:299-346 | every instance's engine, name, numbered from 0 if it is one of several, and ports, stepped by 100 |
| `InstanceProperties.NamesAreSpelled` | cmd/bench/main.go:306-335 | the six names |
| `InstanceProperties.AdmissibleResolves` | cmd/bench/main.go:269-338 | a token resolves to an engine and a count if and only if it is the engine's name, alone or with a colon and a text of that count |
| `InstanceProperties.RejectedLists` | cmd/bench/main.go:290-350 | a list as a whole is rejected exactly if it has a bad token or only blank ones |
| `InstanceProperties.FirstBadToken` | cmd/bench/main.go:290-338 | it is rejected for the first of its bad tokens |
| `InstanceProperties.RejectionReason` | cmd/bench/main.go:273-338 | a token is rejected for its count if that is bad, and for its name only otherwise |
| `InstanceProperties.RejectedTokens` | cmd/bench/main.go:290-338 | a list is rejected exactly if all its tokens are blank or one that is not blank is neither an engine's name nor such a name, a colon and a text that reads as a count of at least 1 |
| `InstanceProperties.NamesAreDistinct` | cmd/bench/main.go:340-345 | instance names are pairwise distinct if and only if no engine is named twice in the same form |
| `InstanceProperties.NamedTwice` | cmd/bench/main.go:340-345 | the list "typhon,typhon" builds two drivers of the same name |
| `InstanceProperties.InstanceNamesDiffer` | cmd/bench/main.go:343-345 | an instance's name determines its engine and its number |
| `InstanceProperties.PortsAreDistinct` | cmd/bench/main.go:303-334 | with base ports that differ modulo 100, no two host ports coincide if and only if each engine with ports is named once |
| `InstanceProperties.SafeBases` | cmd/bench/main.go:300-334 | base ports are safe for any counts if and only if they differ modulo 100 |
| `InstanceProperties.DefaultsAreSpread` | cmd/bench/main.go:140-152 | the default base ports do, with the six ports of rqbit's listen range (internal/engine/rqbit.go:93-94) |
| `InstanceProperties.DefaultPorts` | cmd/bench/main.go:140-152 | the default host ports of each engine |
| `BenchProperties.BuiltEnginesAreDistinct` | cmd/bench/main.go:340-347 | a list in which no engine is named twice in the same form gives the runner engines whose names tell their paths apart |
| `BenchProperties.BenchPaths` | internal/runner/runner.go:179-192 | the path at which each engine's driver looks for a payload |
| `BenchProperties.BenchStagesItsSeeds` | internal/runner/runner.go:170-205 | for such a list and a swarm of generated payloads, on every exit path, every engine told to trust a file has the payload in it from the add to the end |

## Left out

- Invalid UTF-8 in strings handed to the XML writer, and the bytes of a code point: a character is a whole code point there.
- `encoding/xml.Unmarshal` in `decodeXMLRPC`, faults, and the raw inner text it hands to the parser.
- Native decoding of `<base64>` and `<boolean>`: the source does not do it; they come back as text, as stated.
- `XmlRpcWriter.WriteXmlRpcValue`: a value of any other dynamic type is represented by what `fmt.Sprint` makes of it.
- General JSON: frames are reduced to what the probe of their id finds, and the error probe reads objects whose values are all strings, taking any other text for one without an error; halves of surrogate pairs decode to the replacement character.
- `TyphonFailure.FailureIsReported`: an error text is valid UTF-8; Go replaces bytes that are not.
- `TyphonDriver.Driver.WriteFrame`: a frame is written in one step under its own mutex; partial writes are failures.
- Overflow of the typhon request counter: fewer than 2^63 calls are assumed.
- `TorrentGen.PiecesDetermineData`: freedom from collisions is assumed of the pieces of the two payloads, place by place, since no hash to 20 bytes is injective.
- `TorrentGen.PayloadReader.Read`: a reader that returns no bytes and no error for ever; with it the source does not end either.
- `Tracker.Server.HandleAnnounce`: URL decoding and address parsing are inputs; swarms are smaller than 2^63; the encode-error branch is proved unreachable and therefore absent.
- `KeyOrder.SortStrings`: `sort.Strings` is modelled as insertion sort; only its result matters.
- File paths of the runner are clean parts joined with slashes, the working directory is not the root, and the payload files themselves are not changed by the run.
- `RunnerProperties.SeedsAreStaged`: a file is what the runner staged there; what engines write themselves, such as an engine that later downloads a torrent of the same name to that path, is not modelled.
- A second staging of one payload to the same path counts as leaving the file whole, although the copy truncates it for a moment.
- `Runner.Bench.Run`: samples are taken in any order the caller of the model chooses; tickers, timeouts and log output are not modelled, and a failed Stop only logs.
- `Instances.AddInstances`: drivers are values with the fields that are set; the wrapper is reduced to the name it gives.
- Drivers whose Start fails are never live, as in the source; what they leave running is not modelled.
- BitTorrent listen ports 17000 and up, rain's own port range, port numbers above 65535 and ports in use by others.
- Process spawning, Docker arguments, configuration templates, readiness polling, HTTP clients, statistics, scenario files, CSV output and plotting: no internal property.
- internal/engine/qbit.go, rain.go, transmission.go and the rest of rqbit.go: thin API wrappers.
