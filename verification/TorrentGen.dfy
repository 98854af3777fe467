/** The .torrent generator: piece hashing over a reader that returns short reads, and the info-hash. */
module TorrentGen {
  import opened Wrappers
  import opened Decimal
  import opened Text
  import opened Bencode
  import opened BencodeDecoder

  const DIGEST_SIZE := 20

  type Digest = d: string | |d| == 20 witness seq(20, _ => '0')

  // SHA-1 is a parameter; only the size of its result is used.
  type Hash = string -> Digest

  datatype ReadError = NoError | Eof | UnexpectedEof | Broken

  lemma SlicesJoin(s: string, a: nat, b: nat, c: nat)
    requires a <= b <= c <= |s|
    ensures s[a..b] + s[b..c] == s[a..c]
  {
  }

  // An io.Reader over a file. How many bytes a read returns, and whether the end is reported with
  // the last bytes or after them, is up to the reader; it may also fail at any time, and return no
  // bytes without an error, though only idle times more.
  class PayloadReader {
    const content: string
    var pos: nat
    var broken: bool
    var idle: nat

    ghost predicate Valid()
      reads this
    {
      pos <= |content|
    }

    constructor (content: string, idle: nat)
      ensures this.content == content && pos == 0 && !broken && this.idle == idle
    {
      this.content := content;
      pos := 0;
      broken := false;
      this.idle := idle;
    }

    method Read(max: nat) returns (chunk: string, err: ReadError)
      requires Valid() && max > 0
      modifies this
      ensures Valid() && old(pos) <= pos && chunk == content[old(pos)..pos] && |chunk| <= max
      ensures idle <= old(idle) && (err == NoError && chunk == "" ==> idle < old(idle))
      ensures err == Eof ==> pos == |content|
      ensures err != UnexpectedEof
      ensures broken == (old(broken) || err == Broken)
    {
      var nothing: bool := *;
      var n: nat :| n <= max && pos + n <= |content|;
      chunk := content[pos..pos + n];
      pos := pos + n;
      if * {
        err := Broken;
        broken := true;
      } else if n == 0 && idle > 0 && nothing {
        idle := idle - 1;
        err := NoError;
      } else if n == 0 && pos < |content| {
        chunk := content[pos..pos + 1];
        pos := pos + 1;
        err := NoError;
      } else if n == 0 {
        err := Eof;
      } else if pos == |content| {
        err :| err in {Eof, NoError};
      } else {
        err := NoError;
      }
    }

    // io.ReadFull into a buffer of the given size.
    method ReadFull(size: nat) returns (buf: string, err: ReadError)
      requires Valid() && size > 0
      modifies this
      ensures Valid() && old(pos) <= pos && buf == content[old(pos)..pos] && |buf| <= size
      ensures err == NoError ==> |buf| == size
      ensures err == Eof ==> buf == "" && pos == |content|
      ensures err == UnexpectedEof ==> 0 < |buf| < size && pos == |content|
      ensures err == Broken ==> broken
      ensures err != Broken && !old(broken) && |buf| < size ==> !broken
    {
      buf, err := "", NoError;
      while |buf| < size && err == NoError
        invariant Valid() && old(pos) <= pos && buf == content[old(pos)..pos] && |buf| <= size
        invariant err != UnexpectedEof
        invariant err == Eof ==> pos == |content|
        invariant broken == (old(broken) || err == Broken)
        decreases |content| - pos, idle, if err == NoError then 1 else 0
      {
        ghost var from := pos;
        var chunk;
        chunk, err := Read(size - |buf|);
        SlicesJoin(content, old(pos), from, pos);
        buf := buf + chunk;
      }
      if |buf| >= size {
        err := NoError;
      } else if |buf| > 0 && err == Eof {
        err := UnexpectedEof;
      }
    }
  }

  function Min(a: nat, b: nat): nat { if a < b then a else b }

  // The concatenated hashes of the pieces of data.
  function Pieces(data: string, pieceLen: nat, h: Hash): string
    requires pieceLen > 0
    decreases |data|
  {
    if data == "" then "" else
      var n := Min(pieceLen, |data|);
      h(data[..n]) + Pieces(data[n..], pieceLen, h)
  }

  // A whole number of pieces.
  predicate Aligned(n: nat, pieceLen: nat)
    requires pieceLen > 0
    decreases n
  {
    n == 0 || (n >= pieceLen && Aligned(n - pieceLen, pieceLen))
  }

  lemma {:induction false} PiecesSnoc(data: string, tail: string, pieceLen: nat, h: Hash)
    requires pieceLen > 0 && Aligned(|data|, pieceLen) && 0 < |tail| <= pieceLen
    ensures Pieces(data + tail, pieceLen, h) == Pieces(data, pieceLen, h) + h(tail)
  {
    if data == "" {
      assert data + tail == tail;
      assert tail[..|tail|] == tail && tail[|tail|..] == "";
      assert Pieces(tail, pieceLen, h) == h(tail) + "";
      assert "" + h(tail) == h(tail);
    } else {
      assert (data + tail)[..pieceLen] == data[..pieceLen];
      assert (data + tail)[pieceLen..] == data[pieceLen..] + tail;
      PiecesSnoc(data[pieceLen..], tail, pieceLen, h);
    }
  }

  // However short the reads are, the result is the hashes of the pieces; an empty piece is never hashed.
  method HashPieces(r: PayloadReader, pieceLen: int, h: Hash) returns (result: Result<string>)
    requires r.Valid() && r.pos == 0 && !r.broken
    modifies r
    ensures pieceLen <= 0 ==> result.Err?
    ensures result.Err? ==> pieceLen <= 0 || r.broken
    ensures result.Ok? ==> pieceLen > 0 && result.value == Pieces(r.content, pieceLen, h)
  {
    if pieceLen <= 0 {
      return Err("torrentgen: piece length must be positive");
    }
    var pieces := "";
    while true
      invariant r.Valid() && Aligned(r.pos, pieceLen)
      invariant pieces == Pieces(r.content[..r.pos], pieceLen, h)
      decreases |r.content| - r.pos
    {
      ghost var from := r.pos;
      var buf, err := r.ReadFull(pieceLen);
      if |buf| > 0 {
        PiecesUpTo(r.content, from, r.pos, pieceLen, h);
        pieces := pieces + h(buf);
      }
      if err == Eof || err == UnexpectedEof {
        break;
      }
      if err != NoError {
        return Err("torrentgen: read piece");
      }
    }
    assert r.content[..r.pos] == r.content;
    result := Ok(pieces);
  }

  // What one more read adds to the hashes of a whole number of pieces.
  lemma PiecesUpTo(data: string, from: nat, to: nat, pieceLen: nat, h: Hash)
    requires pieceLen > 0 && from < to <= |data| && to - from <= pieceLen && Aligned(from, pieceLen)
    ensures Pieces(data[..to], pieceLen, h) == Pieces(data[..from], pieceLen, h) + h(data[from..to])
  {
    assert data[..to] == data[..from] + data[from..to];
    PiecesSnoc(data[..from], data[from..to], pieceLen, h);
  }

  function PieceCount(size: nat, pieceLen: nat): nat
    requires pieceLen > 0
  {
    if size == 0 then 0 else 1 + PieceCount(size - Min(pieceLen, size), pieceLen)
  }

  // The number of pieces is the size over the piece length, rounded up.
  lemma {:induction false} PieceCountIsCeiling(size: nat, pieceLen: nat)
    requires pieceLen > 0 && size > 0
    ensures (PieceCount(size, pieceLen) - 1) * pieceLen < size <= PieceCount(size, pieceLen) * pieceLen
  {
    if size > pieceLen {
      var c := PieceCount(size - pieceLen, pieceLen);
      PieceCountIsCeiling(size - pieceLen, pieceLen);
      assert c * pieceLen == (c - 1) * pieceLen + pieceLen;
      assert (c + 1) * pieceLen == c * pieceLen + pieceLen;
    }
  }

  // The hash field holds one digest for each piece.
  lemma {:induction false} PiecesLength(data: string, pieceLen: nat, h: Hash)
    requires pieceLen > 0
    ensures |Pieces(data, pieceLen, h)| == DIGEST_SIZE * PieceCount(|data|, pieceLen)
    decreases |data|
  {
    if data != "" {
      PiecesLength(data[Min(pieceLen, |data|)..], pieceLen, h);
    }
  }

  function Block(s: string, k: nat): string
    requires DIGEST_SIZE * k + DIGEST_SIZE <= |s|
  {
    s[DIGEST_SIZE * k..DIGEST_SIZE * k + DIGEST_SIZE]
  }

  // Where piece k begins.
  function Offset(k: nat, pieceLen: nat): nat {
    if k == 0 then 0 else Offset(k - 1, pieceLen) + pieceLen
  }

  lemma {:induction false} OffsetIsMultiple(k: nat, pieceLen: nat)
    ensures Offset(k, pieceLen) == k * pieceLen
  {
    if k > 0 {
      OffsetIsMultiple(k - 1, pieceLen);
      assert k * pieceLen == (k - 1) * pieceLen + pieceLen;
    }
  }

  // Block k is the hash of bytes k*L up to (k+1)*L, or up to the end.
  lemma PieceBlocks(data: string, pieceLen: nat, h: Hash, k: nat, from: nat)
    requires pieceLen > 0 && k < PieceCount(|data|, pieceLen) && from == k * pieceLen
    ensures |Pieces(data, pieceLen, h)| == DIGEST_SIZE * PieceCount(|data|, pieceLen)
    ensures from < |data|
    ensures Block(Pieces(data, pieceLen, h), k) == h(data[from..Min(from + pieceLen, |data|)])
  {
    OffsetIsMultiple(k, pieceLen);
    PiecesLength(data, pieceLen, h);
    BlockAt(data, pieceLen, h, k, from);
  }

  lemma {:induction false} BlockAt(data: string, pieceLen: nat, h: Hash, k: nat, from: nat)
    requires pieceLen > 0 && k < PieceCount(|data|, pieceLen) && from == Offset(k, pieceLen)
    requires |Pieces(data, pieceLen, h)| == DIGEST_SIZE * PieceCount(|data|, pieceLen)
    ensures from < |data|
    ensures Block(Pieces(data, pieceLen, h), k) == h(data[from..Min(from + pieceLen, |data|)])
    decreases k
  {
    var n := Min(pieceLen, |data|);
    if k == 0 {
      FirstBlock(h(data[..n]), Pieces(data[n..], pieceLen, h));
      assert data[0..n] == data[..n];
    } else {
      var tail := data[n..];
      PiecesLength(tail, pieceLen, h);
      BlockAt(tail, pieceLen, h, k - 1, from - pieceLen);
      BlockShift(data, n, from - pieceLen, Min(from, |tail|));
      BlockAfter(h(data[..n]), Pieces(tail, pieceLen, h), k);
    }
  }

  lemma FirstBlock(first: Digest, rest: string)
    ensures Block(first + rest, 0) == first
  {
  }

  lemma BlockAfter(first: Digest, rest: string, k: nat)
    requires k > 0 && DIGEST_SIZE * k <= |rest|
    ensures Block(first + rest, k) == Block(rest, k - 1)
  {
    assert DIGEST_SIZE * k == DIGEST_SIZE * (k - 1) + DIGEST_SIZE;
  }

  lemma BlockShift(s: string, n: nat, a: nat, b: nat)
    requires n <= |s| && a <= b <= |s| - n
    ensures s[n..][a..b] == s[n + a..n + b]
  {
  }

  // The pieces of data themselves.
  function Blocks(data: string, pieceLen: nat): seq<string>
    requires pieceLen > 0
    decreases |data|
  {
    if data == "" then [] else
      var n := Min(pieceLen, |data|);
      [data[..n]] + Blocks(data[n..], pieceLen)
  }

  // The hash does not take a piece for a different one in the same place.
  ghost predicate NoCollision(xs: seq<string>, ys: seq<string>, h: Hash) {
    forall i | 0 <= i < |xs| && i < |ys| :: h(xs[i]) == h(ys[i]) ==> xs[i] == ys[i]
  }

  lemma CollisionCons(x: string, xs: seq<string>, y: string, ys: seq<string>, h: Hash)
    requires NoCollision([x] + xs, [y] + ys, h)
    ensures NoCollision(xs, ys, h) && (h(x) == h(y) ==> x == y)
  {
    var all, others := [x] + xs, [y] + ys;
    assert all[0] == x && others[0] == y;
    assert forall i | 0 <= i < |xs| :: xs[i] == all[i + 1];
    assert forall i | 0 <= i < |ys| :: ys[i] == others[i + 1];
  }

  lemma SplitDigest(p: Digest, ps: string, q: Digest, qs: string)
    requires p + ps == q + qs
    ensures p == q && ps == qs
  {
    assert (p + ps)[..DIGEST_SIZE] == p && (p + ps)[DIGEST_SIZE..] == ps;
    assert (q + qs)[..DIGEST_SIZE] == q && (q + qs)[DIGEST_SIZE..] == qs;
  }

  lemma HaveSameParts(a: string, m: nat, b: string, n: nat)
    requires m <= |a| && n <= |b| && a[..m] == b[..n] && a[m..] == b[n..]
    ensures a == b
  {
    assert a == a[..m] + a[m..] && b == b[..n] + b[n..];
  }

  // Unless the hash collides on pieces in the same place, two payloads have the same hash field only if they are equal.
  lemma {:induction false} PiecesDetermineData(a: string, b: string, pieceLen: nat, h: Hash)
    requires pieceLen > 0 && Pieces(a, pieceLen, h) == Pieces(b, pieceLen, h)
    requires NoCollision(Blocks(a, pieceLen), Blocks(b, pieceLen), h)
    ensures a == b
    decreases |a|
  {
    if a != "" && b != "" {
      var m, n := Min(pieceLen, |a|), Min(pieceLen, |b|);
      SplitDigest(h(a[..m]), Pieces(a[m..], pieceLen, h), h(b[..n]), Pieces(b[n..], pieceLen, h));
      CollisionCons(a[..m], Blocks(a[m..], pieceLen), b[..n], Blocks(b[n..], pieceLen), h);
      PiecesDetermineData(a[m..], b[n..], pieceLen, h);
      HaveSameParts(a, m, b, n);
    }
  }

  // The torrent file.

  datatype Spec = Spec(payloadPath: string, pieceLength: int64, announceUrl: string, name: string,
      creationDate: Option<int64>)

  datatype Torrent = Torrent(torrent: string, infoHash: Digest, size: int64)

  // filepath.Base
  function Base(path: string): string {
    if path == "" then "."
    else
      var trimmed := TrimSlashes(path);
      if trimmed == "" then "/" else AfterLastSlash(trimmed)
  }

  function TrimSlashes(path: string): string {
    if path != "" && path[|path| - 1] == '/' then TrimSlashes(path[..|path| - 1]) else path
  }

  function AfterLastSlash(path: string): (name: string)
    ensures '/' !in name
  {
    if path == "" then ""
    else if '/' in path[1..] then AfterLastSlash(path[1..])
    else if path[0] == '/' then path[1..]
    else path
  }

  predicate AllSlashes(s: string) {
    forall i | 0 <= i < |s| :: s[i] == '/'
  }

  // The three kinds of paths: empty, slashes only, and a last name with slashes after it.
  lemma {:induction false} BaseOfSlashes(path: string)
    requires AllSlashes(path)
    ensures Base(path) == if path == "" then "." else "/"
  {
    TrimAllSlashes("", path);
    AppendNothing(path);
  }

  lemma BaseOf(dir: string, name: string, slashes: string)
    requires name != "" && '/' !in name && AllSlashes(slashes) && (dir != "" ==> dir[|dir| - 1] == '/')
    ensures Base(dir + name + slashes) == name
  {
    var path := dir + name;
    assert path[|path| - 1] == name[|name| - 1];
    TrimAllSlashes(path, slashes);
    AfterSlash(dir, name);
  }

  lemma {:induction false} TrimAllSlashes(path: string, slashes: string)
    requires AllSlashes(slashes) && (path != "" ==> path[|path| - 1] != '/')
    ensures TrimSlashes(path + slashes) == path
  {
    if slashes == "" {
      assert path + slashes == path;
    } else {
      var fewer := slashes[..|slashes| - 1];
      assert (path + slashes)[..|path + slashes| - 1] == path + fewer;
      TrimAllSlashes(path, fewer);
    }
  }

  lemma {:induction false} AfterSlash(dir: string, name: string)
    requires '/' !in name && name != "" && (dir != "" ==> dir[|dir| - 1] == '/')
    ensures AfterLastSlash(dir + name) == name
  {
    var path := dir + name;
    if |dir| <= 1 {
      assert path[1..] == if dir == "" then name[1..] else name;
      assert path == dir + name;
    } else {
      assert path[1..] == dir[1..] + name;
      assert path[1..][|dir| - 2] == '/';
      AfterSlash(dir[1..], name);
    }
  }

  function InfoDict(name: string, size: int64, pieceLength: int64, pieces: string): Value {
    Dict(map["name" := Str(name), "length" := Int64(size), "piece length" := Int64(pieceLength),
        "pieces" := Raw(pieces)])
  }

  function RootDict(info: Value, creation: int64, announceUrl: string): Value {
    var root := map["info" := info, "creation date" := Int64(creation),
        "created by" := Str("bt-engine-bench/torrentgen")];
    Dict(if announceUrl != "" then root["announce" := Str(announceUrl)] else root)
  }

  const DEFAULT_PIECE_LENGTH: int64 := 256 * 1024

  function PieceLengthOf(spec: Spec): int64 {
    if spec.pieceLength <= 0 then DEFAULT_PIECE_LENGTH else spec.pieceLength
  }

  function NameOf(spec: Spec): string {
    if spec.name == "" then Base(spec.payloadPath) else spec.name
  }

  // The info dictionary of a payload: its length is what stat says, its pieces are of what is read.
  function InfoOf(spec: Spec, size: int64, content: string, h: Hash): Value {
    InfoDict(NameOf(spec), size, PieceLengthOf(spec), Pieces(content, PieceLengthOf(spec), h))
  }

  // What the torrent of a payload is: a file from which the raw info span can be cut, whose hash is the info-hash.
  ghost predicate IsTorrentOf(t: Torrent, spec: Spec, size: int64, content: string, h: Hash) {
    && t.size == size
    && RawField(t.torrent, "info") == Some(Encoding(InfoOf(spec, size, content, h)))
    && t.infoHash == h(Encoding(InfoOf(spec, size, content, h)))
  }

  // stat is None if it fails, file is null if it cannot be opened.
  method GenerateFile(spec: Spec, file: PayloadReader?, stat: Option<int64>, now: int64, h: Hash)
      returns (r: Result<Torrent>)
    requires file != null ==> file.Valid() && file.pos == 0 && !file.broken
    modifies file
    ensures r.Err? <== spec.payloadPath == "" || file == null || stat.None? || stat.value == 0
    ensures r.Err? ==> spec.payloadPath == "" || file == null || stat.None? || stat.value == 0 || file.broken
    ensures r.Ok? ==> IsTorrentOf(r.value, spec, stat.value, file.content, h)
    ensures r.Ok? ==> TorrentReads(r.value.torrent, spec, stat.value, file.content, now, h)
    ensures r.Ok? ==>
      var creation := match spec.creationDate case Some(t) => t case None => now;
      r.value.torrent == Encoding(RootDict(InfoOf(spec, stat.value, file.content, h), creation, spec.announceUrl))
  {
    var pieceLength := if spec.pieceLength <= 0 then DEFAULT_PIECE_LENGTH else spec.pieceLength;
    if spec.payloadPath == "" {
      return Err("torrentgen: PayloadPath is required");
    }
    if file == null {
      return Err("torrentgen: open payload");
    }
    if stat.None? {
      return Err("torrentgen: stat payload");
    }
    var size := stat.value;
    if size == 0 {
      return Err("torrentgen: empty payload not allowed");
    }
    var pieces := HashPieces(file, pieceLength, h);
    if pieces.Err? {
      return Err(pieces.error);
    }
    var name := if spec.name == "" then Base(spec.payloadPath) else spec.name;
    var info := InfoDict(name, size, pieceLength, pieces.value);
    var creation := match spec.creationDate case Some(t) => t case None => now;
    var root := RootDict(info, creation, spec.announceUrl);
    InfoSpan(info, creation, spec.announceUrl, root);
    FileReads(spec, size, file.content, now, creation, h);
    var t := EncodeTorrent(info, root, size, h);
    r := Ok(t);
  }

  // The two encodings and the hash.
  method EncodeTorrent(info: Value, root: Value, size: int64, h: Hash) returns (t: Torrent)
    requires Supported(info) && Supported(root)
    ensures t == Torrent(Encoding(root), h(Encoding(info)), size)
  {
    var infoBytes := Encode(info);
    var infoHash := h(infoBytes.value);
    var torrent := Encode(root);
    t := Torrent(torrent.value, infoHash, size);
  }

  // The raw span of the info value in the file.
  lemma InfoSpan(info: Value, creation: int64, announceUrl: string, root: Value)
    requires Supported(info) && root == RootDict(info, creation, announceUrl)
    ensures Supported(root) && RawField(Encoding(root), "info") == Some(Encoding(info))
  {
    RootIsSupported(info, creation, announceUrl);
    EntrySpan(root, "info", info);
  }

  lemma EntrySpan(d: Value, key: string, v: Value)
    requires d.Dict? && Supported(d) && key in d.entries && d.entries[key] == v
    ensures RawField(Encoding(d), key) == Some(Encoding(v))
  {
    RawFieldOf(d, key, "");
    AppendNothing(Encoding(d));
  }

  lemma RootIsSupported(info: Value, creation: int64, announceUrl: string)
    requires Supported(info)
    ensures var root := RootDict(info, creation, announceUrl);
            Supported(root) && "info" in root.entries && root.entries["info"] == info
  {
    assert "info"[0] != "announce"[0];
    assert |"info"| != |"creation date"| && |"info"| != |"created by"|;
  }

  // The info dictionary as a reader of the file sees it.
  function DecodedInfo(name: string, size: int64, pieceLength: int64, pieces: string): Value {
    Dict(map["name" := Str(name), "length" := Int64(size), "piece length" := Int64(pieceLength),
        "pieces" := Str(pieces)])
  }

  // The raw info span decodes to the name, the size, the piece length and the pieces, with or
  // without an announce key in the file around it.
  lemma InfoSpanDecodes(info: Value, name: string, size: int64, pieceLength: int64, pieces: string, creation: int64,
      announceUrl: string)
    requires info == InfoDict(name, size, pieceLength, pieces)
    ensures var raw := RawField(Encoding(RootDict(info, creation, announceUrl)), "info");
            && raw == Some(Encoding(info))
            && Decode(raw.value) == Some((DecodedInfo(name, size, pieceLength, pieces), ""))
  {
    InfoSpan(info, creation, announceUrl, RootDict(info, creation, announceUrl));
    DecodeWhole(info);
    NormalInfo(name, size, pieceLength, pieces);
  }

  lemma NormalInfo(name: string, size: int64, pieceLength: int64, pieces: string)
    ensures Normal(InfoDict(name, size, pieceLength, pieces)) == DecodedInfo(name, size, pieceLength, pieces)
  {
    MapIsNormal(InfoDict(name, size, pieceLength, pieces), DecodedInfo(name, size, pieceLength, pieces).entries);
  }

  // What a strict reader finds in the file, said of the spec itself.
  ghost predicate TorrentReads(torrent: string, spec: Spec, size: int64, content: string, now: int64, h: Hash) {
    match Decode(torrent)
    case None => false
    case Some((root, rest)) => rest == "" && RootReads(root, spec, now) && InfoReads(root, spec, size, content, h)
  }

  ghost predicate RootReads(root: Value, spec: Spec, now: int64) {
    && FieldOf(root, "announce") == (if spec.announceUrl == "" then None else Some(Str(spec.announceUrl)))
    && FieldOf(root, "created by") == Some(Str("bt-engine-bench/torrentgen"))
    && FieldOf(root, "creation date") == Some(Int64(if spec.creationDate.Some? then spec.creationDate.value else now))
  }

  ghost predicate InfoReads(root: Value, spec: Spec, size: int64, content: string, h: Hash) {
    var pieceLen := if spec.pieceLength > 0 then spec.pieceLength else 262144;
    && FieldOf(root, "info").Some?
    && var info := FieldOf(root, "info").value;
    && FieldOf(info, "name") == Some(Str(if spec.name != "" then spec.name else Base(spec.payloadPath)))
    && FieldOf(info, "length") == Some(Int64(size))
    && FieldOf(info, "piece length") == Some(Int64(pieceLen))
    && FieldOf(info, "pieces") == Some(Str(Pieces(content, pieceLen, h)))
  }

  lemma FileReads(spec: Spec, size: int64, content: string, now: int64, creation: int64, h: Hash)
    requires creation == match spec.creationDate case Some(t) => t case None => now
    ensures TorrentReads(Encoding(RootDict(InfoOf(spec, size, content, h), creation, spec.announceUrl)),
              spec, size, content, now, h)
  {
    var info := InfoOf(spec, size, content, h);
    var pieces := Pieces(content, PieceLengthOf(spec), h);
    RootFields(info, creation, spec.announceUrl);
    NormalInfo(NameOf(spec), size, PieceLengthOf(spec), pieces);
    InfoHas(NameOf(spec), size, PieceLengthOf(spec), pieces);
  }

  lemma RootFields(info: Value, creation: int64, announceUrl: string)
    requires Supported(info)
    ensures var r := Decode(Encoding(RootDict(info, creation, announceUrl)));
            && r.Some? && r.value.1 == ""
            && FieldOf(r.value.0, "info") == Some(Normal(info))
            && FieldOf(r.value.0, "announce") == (if announceUrl == "" then None else Some(Str(announceUrl)))
            && FieldOf(r.value.0, "created by") == Some(Str("bt-engine-bench/torrentgen"))
            && FieldOf(r.value.0, "creation date") == Some(Int64(creation))
  {
    RootIsSupported(info, creation, announceUrl);
    RootHas(info, creation, announceUrl);
    FourFields(RootDict(info, creation, announceUrl), "info", "announce", "created by", "creation date");
  }

  lemma FourFields(d: Value, a: string, b: string, c: string, e: string)
    requires d.Dict? && Supported(d)
    ensures var r := Decode(Encoding(d));
            && r.Some? && r.value.1 == ""
            && FieldOf(r.value.0, a) == NormalField(d, a) && FieldOf(r.value.0, b) == NormalField(d, b)
            && FieldOf(r.value.0, c) == NormalField(d, c) && FieldOf(r.value.0, e) == NormalField(d, e)
  {
    DecodeField(d, a);
    DecodeField(d, b);
    DecodeField(d, c);
    DecodeField(d, e);
  }

  lemma RootHas(info: Value, creation: int64, announceUrl: string)
    ensures var e := RootDict(info, creation, announceUrl).entries;
            && "info" in e && e["info"] == info
            && "created by" in e && e["created by"] == Str("bt-engine-bench/torrentgen")
            && "creation date" in e && e["creation date"] == Int64(creation)
            && ("announce" in e <==> announceUrl != "") && ("announce" in e ==> e["announce"] == Str(announceUrl))
  {
    assert "announce"[0] != "info"[0] && "announce"[0] != "created by"[0] && "announce"[0] != "creation date"[0];
    assert |"info"| != |"creation date"| && |"info"| != |"created by"| && |"created by"| != |"creation date"|;
  }

  // What BEP 3 asks of the payload of a torrent: it has the length that the info dictionary gives, and
  // its pieces have the hashes.
  ghost predicate Describes(torrent: string, data: string, h: Hash) {
    match RawField(torrent, "info")
    case None => false
    case Some(raw) =>
      match Decode(raw)
      case None => false
      case Some((info, rest)) => rest == "" && InfoFits(info, data, h)
  }

  ghost predicate InfoFits(info: Value, data: string, h: Hash) {
    && info.Dict? && "length" in info.entries && "piece length" in info.entries && "pieces" in info.entries
    && var length, pieceLen, pieces := info.entries["length"], info.entries["piece length"], info.entries["pieces"];
    && length.Int64? && length.n == |data|
    && pieceLen.Int64? && pieceLen.n > 0
    && pieces.Str? && pieces.s == Pieces(data, pieceLen.n, h)
  }

  lemma InfoIsRead(torrent: string, info: Value, decoded: Value, data: string, h: Hash)
    requires Supported(info) && RawField(torrent, "info") == Some(Encoding(info)) && decoded == Normal(info)
    ensures Describes(torrent, data, h) <==> InfoFits(decoded, data, h)
  {
    DecodeWhole(info);
  }

  lemma DescribesSizeAndPieces(t: Torrent, spec: Spec, size: int64, content: string, data: string, h: Hash)
    requires IsTorrentOf(t, spec, size, content, h)
    ensures Describes(t.torrent, data, h) <==>
      |data| == size && Pieces(data, PieceLengthOf(spec), h) == Pieces(content, PieceLengthOf(spec), h)
  {
    var pieceLen, pieces := PieceLengthOf(spec), Pieces(content, PieceLengthOf(spec), h);
    var decoded := DecodedInfo(NameOf(spec), size, pieceLen, pieces);
    NormalInfo(NameOf(spec), size, pieceLen, pieces);
    InfoIsRead(t.torrent, InfoOf(spec, size, content, h), decoded, data, h);
    InfoHas(NameOf(spec), size, pieceLen, pieces);
  }

  lemma InfoHas(name: string, size: int64, pieceLength: int64, pieces: string)
    ensures var info := DecodedInfo(name, size, pieceLength, pieces).entries;
            && "name" in info && info["name"] == Str(name)
            && "length" in info && info["length"] == Int64(size)
            && "piece length" in info && info["piece length"] == Int64(pieceLength)
            && "pieces" in info && info["pieces"] == Str(pieces)
  {
    assert |"name"| != |"length"| && |"name"| != |"pieces"| && |"name"| != |"piece length"|;
    assert |"piece length"| != |"pieces"| && |"piece length"| != |"length"|;
    assert "length"[0] != "pieces"[0];
  }

  // No collision between the pieces of data and those of the payload that was read.
  ghost predicate ToldApart(spec: Spec, data: string, content: string, h: Hash) {
    NoCollision(Blocks(data, PieceLengthOf(spec)), Blocks(content, PieceLengthOf(spec)), h)
  }

  // A torrent describes nothing but the payload that was read, and that only if its size is the one
  // that stat reported.
  lemma DescribesOnlyPayload(t: Torrent, spec: Spec, size: int64, content: string, data: string, h: Hash)
    requires IsTorrentOf(t, spec, size, content, h) && ToldApart(spec, data, content, h)
    ensures Describes(t.torrent, data, h) <==> data == content && size == |content|
  {
    DescribesSizeAndPieces(t, spec, size, content, data, h);
    if Describes(t.torrent, data, h) {
      PiecesDetermineData(data, content, PieceLengthOf(spec), h);
    }
  }

  ghost predicate HasPayload(t: Torrent, spec: Spec, content: string, h: Hash) {
    exists data :: ToldApart(spec, data, content, h) && Describes(t.torrent, data, h)
  }

  lemma HasOnlyPayload(t: Torrent, spec: Spec, size: int64, content: string, h: Hash)
    requires IsTorrentOf(t, spec, size, content, h) && HasPayload(t, spec, content, h)
    ensures size == |content|
  {
    var data :| ToldApart(spec, data, content, h) && Describes(t.torrent, data, h);
    DescribesOnlyPayload(t, spec, size, content, data, h);
  }

  // So there is a payload for the torrent exactly if the file did not change its size between stat and
  // the end of reading.
  lemma PiecesFitLength(t: Torrent, spec: Spec, size: int64, content: string, h: Hash)
    requires IsTorrentOf(t, spec, size, content, h)
    ensures HasPayload(t, spec, content, h) <==> size == |content|
  {
    if size == |content| {
      assert ToldApart(spec, content, content, h);
      DescribesOnlyPayload(t, spec, size, content, content, h);
    } else if HasPayload(t, spec, content, h) {
      HasOnlyPayload(t, spec, size, content, h);
    }
  }

  // A file that grew by a byte: the number of pieces is the one that the length calls for, but nothing
  // that the hash tells apart from what was read fits the torrent.
  lemma GrownPayloadFails(spec: Spec, creation: int64, data: string, h: Hash)
    requires spec.pieceLength == 10 && ToldApart(spec, data, "ab", h)
    ensures |Pieces("ab", 10, h)| == DIGEST_SIZE * PieceCount(1, 10)
    ensures var info := InfoOf(spec, 1, "ab", h);
            var t := Torrent(Encoding(RootDict(info, creation, spec.announceUrl)), h(Encoding(info)), 1);
            IsTorrentOf(t, spec, 1, "ab", h) && !Describes(t.torrent, data, h)
  {
    PiecesLength("ab", 10, h);
    var info := InfoOf(spec, 1, "ab", h);
    InfoSpan(info, creation, spec.announceUrl, RootDict(info, creation, spec.announceUrl));
    var t := Torrent(Encoding(RootDict(info, creation, spec.announceUrl)), h(Encoding(info)), 1);
    DescribesOnlyPayload(t, spec, 1, "ab", data, h);
  }
}
