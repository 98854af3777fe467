/**
 A strict decoder, written from the "bencoding" section of BEP 3: integers and lengths without leading
 zeros, no negative zero, dictionary keys in the order of raw strings. The encoder is proved to be its inverse.
 */
module BencodeDecoder {
  import opened Wrappers
  import opened Decimal
  import opened Text
  import opened KeyOrder
  import opened Bencode

  // A decimal numeral that ends at the character `end`, and what follows that.
  function ReadNumber(s: string, end: char): (r: Option<(nat, string)>)
    ensures r.Some? ==> |r.value.1| < |s|
  {
    var k := DigitPrefix(s);
    if Canonical(s[..k]) && k < |s| && s[k] == end then Some((Number(s[..k]), s[k + 1..])) else None
  }

  function DecodeBytes(s: string): (r: Option<(string, string)>)
    ensures r.Some? ==> |r.value.1| < |s|
  {
    match ReadNumber(s, ':')
    case None => None
    case Some((n, after)) => if n <= |after| then Some((after[..n], after[n..])) else None
  }

  // The integer after its 'i'.
  function DecodeInt(s: string): (r: Option<(int64, string)>)
    ensures r.Some? ==> |r.value.1| < |s|
  {
    var neg := s != "" && s[0] == '-';
    match ReadNumber(if neg then s[1..] else s, 'e')
    case None => None
    case Some((n, after)) =>
      if neg then (if 0 < n && -(n as int) >= MIN_INT64 then Some((-(n as int), after)) else None)
      else if n <= MAX_INT64 then Some((n, after)) else None
  }

  function Decode(s: string): (r: Option<(Value, string)>)
    ensures r.Some? ==> |r.value.1| < |s|
    decreases |s|, 0
  {
    if s == "" then None
    else if s[0] == 'i' then AsInt(DecodeInt(s[1..]))
    else if s[0] == 'l' then AsList(DecodeItems(s[1..]))
    else if s[0] == 'd' then AsDict(DecodeEntries(s[1..]))
    else AsStr(DecodeBytes(s))
  }

  function AsInt(r: Option<(int64, string)>): Option<(Value, string)> {
    match r case None => None case Some((n, rest)) => Some((Int64(n), rest))
  }

  function AsStr(r: Option<(string, string)>): Option<(Value, string)> {
    match r case None => None case Some((b, rest)) => Some((Str(b), rest))
  }

  function AsList(r: Option<(seq<Value>, string)>): Option<(Value, string)> {
    match r case None => None case Some((items, rest)) => Some((List(items), rest))
  }

  function AsDict(r: Option<(seq<(string, Value)>, string)>): Option<(Value, string)> {
    match r
    case None => None
    case Some((pairs, rest)) => if InOrder(KeysIn(pairs)) then Some((Dict(ToMap(pairs)), rest)) else None
  }

  function DecodeItems(s: string): (r: Option<(seq<Value>, string)>)
    ensures r.Some? ==> |r.value.1| < |s|
    decreases |s|, 1
  {
    if s == "" then None
    else if s[0] == 'e' then Some(([], s[1..]))
    else
      match Decode(s)
      case None => None
      case Some((v, rest)) =>
        match DecodeItems(rest)
        case None => None
        case Some((vs, rest')) => Some(([v] + vs, rest'))
  }

  function DecodeEntries(s: string): (r: Option<(seq<(string, Value)>, string)>)
    ensures r.Some? ==> |r.value.1| < |s|
    decreases |s|, 1
  {
    if s == "" then None
    else if s[0] == 'e' then Some(([], s[1..]))
    else
      match DecodeBytes(s)
      case None => None
      case Some((k, afterKey)) =>
        match Decode(afterKey)
        case None => None
        case Some((v, rest)) =>
          match DecodeEntries(rest)
          case None => None
          case Some((pairs, rest')) => Some(([(k, v)] + pairs, rest'))
  }

  function KeysIn(pairs: seq<(string, Value)>): seq<string> {
    seq(|pairs|, i requires 0 <= i < |pairs| => pairs[i].0)
  }

  function ToMap(pairs: seq<(string, Value)>): map<string, Value> {
    if pairs == [] then map[] else ToMap(pairs[1..])[pairs[0].0 := pairs[0].1]
  }

  // A value up to the encoder's two pairs of types that share an encoding.
  function Normal(v: Value): Value
    decreases v, 1
  {
    match v
    case Str(s) => Str(s)
    case Raw(bytes) => Str(bytes)
    case Int(i) => Int64(i)
    case Int64(n) => Int64(n)
    case List(items) => List(NormalAll(items))
    case Dict(_) => Dict(NormalEntries(v))
    case Unsupported => Unsupported
  }

  function NormalEntries(d: Value): (m: map<string, Value>)
    requires d.Dict?
    ensures m.Keys == d.entries.Keys
    decreases d, 0
  {
    map k | k in d.entries :: Normal(d.entries[k])
  }

  function NormalAll(items: seq<Value>): seq<Value>
    decreases items, 0
  {
    if items == [] then [] else [Normal(items[0])] + NormalAll(items[1..])
  }

  // The entries a decoder meets in d's encoding.
  ghost function NormalPairs(d: Value, keys: seq<string>): seq<(string, Value)>
    requires d.Dict? && forall k | k in keys :: k in d.entries
  {
    if keys == [] then [] else [(keys[0], Normal(d.entries[keys[0]]))] + NormalPairs(d, keys[1..])
  }

  // First direction: the decoder undoes the encoder, whatever follows.

  lemma ReadNumberOf(n: nat, end: char, rest: string)
    requires !IsDigit(end)
    ensures ReadNumber(Digits(n) + ([end] + rest), end) == Some((n, rest))
  {
    DigitPrefixEnds(Digits(n), [end] + rest);
    NumberOfDigits(n);
    ReadNumberAt(Digits(n), end, rest);
  }

  lemma ReadNumberAt(digits: string, end: char, rest: string)
    requires Canonical(digits) && DigitPrefix(digits + ([end] + rest)) == |digits|
    ensures ReadNumber(digits + ([end] + rest), end) == Some((Number(digits), rest))
  {
    var s := digits + ([end] + rest);
    assert s[..|digits|] == digits;
    assert s[|digits| + 1..] == rest;
  }

  lemma DecodeBytesOf(b: string, rest: string)
    ensures DecodeBytes(EncodeBytes(b) + rest) == Some((b, rest))
    ensures EncodeBytes(b) != "" && IsDigit(EncodeBytes(b)[0])
  {
    Assoc(Digits(|b|), [':'] + b, rest);
    Assoc([':'], b, rest);
    ReadNumberOf(|b|, ':', b + rest);
    assert (b + rest)[..|b|] == b && (b + rest)[|b|..] == rest;
  }

  lemma DecodeIntOf(n: int64, rest: string)
    ensures DecodeInt(Itoa(n) + ['e'] + rest) == Some((n, rest))
  {
    Assoc(Itoa(n), ['e'], rest);
    if n < 0 {
      var m: int := n;
      DecodeNegativeOf(-m, rest);
    } else {
      ReadNumberOf(n, 'e', rest);
      assert (Digits(n) + (['e'] + rest))[0] == Digits(n)[0];
    }
  }

  lemma DecodeNegativeOf(n: nat, rest: string)
    requires 0 < n <= -MIN_INT64
    ensures DecodeInt("-" + Digits(n) + (['e'] + rest)) == Some((-(n as int), rest))
  {
    var after := Digits(n) + (['e'] + rest);
    Assoc("-", Digits(n), ['e'] + rest);
    assert ("-" + after)[1..] == after;
    ReadNumberOf(n, 'e', rest);
  }

  // One character tells the decoder what follows.
  lemma DecodeTagged(x: string)
    ensures Decode(['i'] + x) == AsInt(DecodeInt(x))
    ensures Decode(['l'] + x) == AsList(DecodeItems(x))
    ensures Decode(['d'] + x) == AsDict(DecodeEntries(x))
  {
    assert (['i'] + x)[1..] == x && (['l'] + x)[1..] == x && (['d'] + x)[1..] == x;
  }

  lemma DecodeStringOf(b: string, rest: string)
    ensures Decode(EncodeBytes(b) + rest) == Some((Str(b), rest))
    ensures EncodeBytes(b) != "" && EncodeBytes(b)[0] != 'e'
  {
    DecodeBytesOf(b, rest);
  }

  lemma DecodeIntegerOf(n: int64, rest: string)
    ensures Decode(EncodeInt(n) + rest) == Some((Int64(n), rest))
  {
    Assoc(['i'], Itoa(n) + ['e'], rest);
    DecodeTagged(Itoa(n) + ['e'] + rest);
    DecodeIntOf(n, rest);
  }

  lemma {:induction false} DecodeEncoding(v: Value, rest: string)
    requires Supported(v)
    ensures Encoding(v) != "" && Encoding(v)[0] != 'e'
    ensures Decode(Encoding(v) + rest) == Some((Normal(v), rest))
    decreases v, 1
  {
    match v
    case Str(b) => DecodeStringOf(b, rest);
    case Raw(b) => DecodeStringOf(b, rest);
    case Int(n) => DecodeIntegerOf(n, rest);
    case Int64(n) => DecodeIntegerOf(n, rest);
    case List(items) =>
      Assoc(['l'], EncodeItems(items) + ['e'], rest);
      DecodeTagged(EncodeItems(items) + ['e'] + rest);
      DecodeEncodedItems(items, rest);
    case Dict(entries) =>
      var keys := SortedKeys(entries.Keys);
      assert forall k | k in keys :: k in KeySet(keys);
      DecodeEncodedEntries(v, keys, rest);
      DecodeDictOf(v, keys, rest, EncodeEntries(v, keys));
  }

  lemma DecodeDictOf(d: Value, keys: seq<string>, rest: string, x: string)
    requires d.Dict? && Ascending(keys) && KeySet(keys) == d.entries.Keys && forall k | k in keys :: k in d.entries
    requires DecodeEntries(x + ['e'] + rest) == Some((NormalPairs(d, keys), rest))
    ensures Decode(['d'] + (x + ['e']) + rest) == Some((Normal(d), rest))
  {
    Assoc(['d'], x + ['e'], rest);
    DecodeTagged(x + ['e'] + rest);
    NormalPairsAreNormal(d, keys);
    AscendingIsInOrder(keys);
    assert forall k | k in KeySet(keys) :: k in keys;
    MapIsNormal(d, ToMap(NormalPairs(d, keys)));
  }

  lemma DecodeWhole(v: Value)
    requires Supported(v)
    ensures Decode(Encoding(v)) == Some((Normal(v), ""))
  {
    DecodeEncoding(v, "");
    assert Encoding(v) + "" == Encoding(v);
  }

  lemma {:induction false} DecodeEncodedItems(items: seq<Value>, rest: string)
    requires forall i | 0 <= i < |items| :: Supported(items[i])
    ensures DecodeItems(EncodeItems(items) + ['e'] + rest) == Some((NormalAll(items), rest))
    decreases items, 0
  {
    var s := EncodeItems(items) + ['e'] + rest;
    if items == [] {
      assert s[1..] == rest;
    } else {
      var tail := EncodeItems(items[1..]) + ['e'] + rest;
      assert s == Encoding(items[0]) + tail;
      DecodeEncoding(items[0], tail);
      DecodeEncodedItems(items[1..], rest);
    }
  }

  lemma {:induction false} DecodeEncodedEntries(d: Value, keys: seq<string>, rest: string)
    requires d.Dict? && Supported(d) && forall k | k in keys :: k in d.entries
    ensures DecodeEntries(EncodeEntries(d, keys) + ['e'] + rest) == Some((NormalPairs(d, keys), rest))
    decreases d, 0, |keys|
  {
    var s := EncodeEntries(d, keys) + ['e'] + rest;
    if keys == [] {
      assert s[1..] == rest;
    } else {
      var tail := EncodeEntries(d, keys[1..]) + ['e'] + rest;
      var v := d.entries[keys[0]];
      EntryParts(EncodeBytes(keys[0]), Encoding(v), EncodeEntries(d, keys[1..]), ['e'] + rest);
      Assoc(EncodeEntries(d, keys), ['e'], rest);
      Assoc(EncodeEntries(d, keys[1..]), ['e'], rest);
      DecodeBytesOf(keys[0], Encoding(v) + tail);
      DecodeEncoding(v, tail);
      DecodeEncodedEntries(d, keys[1..], rest);
    }
  }

  lemma EntryParts(a: string, b: string, c: string, tail: string)
    ensures (a + (b + c)) + tail == a + (b + (c + tail))
  {
  }

  lemma {:induction false} NormalPairsHaveKeys(d: Value, keys: seq<string>)
    requires d.Dict? && forall k | k in keys :: k in d.entries
    ensures |NormalPairs(d, keys)| == |keys|
    ensures forall i | 0 <= i < |keys| :: NormalPairs(d, keys)[i] == (keys[i], Normal(d.entries[keys[i]]))
  {
    if keys != [] {
      NormalPairsHaveKeys(d, keys[1..]);
      assert forall i | 0 < i < |keys| :: NormalPairs(d, keys)[i] == NormalPairs(d, keys[1..])[i - 1];
    }
  }

  lemma NormalPairsAreNormal(d: Value, keys: seq<string>)
    requires d.Dict? && Ascending(keys) && forall k | k in keys :: k in d.entries
    ensures KeysIn(NormalPairs(d, keys)) == keys
    ensures ToMap(NormalPairs(d, keys)).Keys == KeySet(keys)
    ensures forall k | k in keys :: k in KeySet(keys) && ToMap(NormalPairs(d, keys))[k] == Normal(d.entries[k])
  {
    NormalPairsHaveKeys(d, keys);
    assert KeysIn(NormalPairs(d, keys)) == keys;
    ToMapHas(NormalPairs(d, keys));
  }

  lemma MapIsNormal(d: Value, m: map<string, Value>)
    requires d.Dict? && m.Keys == d.entries.Keys && forall k | k in m :: m[k] == Normal(d.entries[k])
    ensures Dict(m) == Normal(d)
  {
    assert m == NormalEntries(d);
  }

  // Second direction: whatever the decoder accepts is the encoding of what it returns.

  predicate IsNormal(v: Value) { Normal(v) == v && Supported(v) }

  lemma ReadNumberIs(s: string, end: char)
    requires ReadNumber(s, end).Some?
    ensures var (n, rest) := ReadNumber(s, end).value; s == Digits(n) + ([end] + rest)
  {
    var k := DigitPrefix(s);
    DigitsOfNumber(s[..k]);
    assert s == s[..k] + ([s[k]] + s[k + 1..]);
  }

  lemma DecodeBytesIs(s: string)
    requires DecodeBytes(s).Some?
    ensures var (b, rest) := DecodeBytes(s).value; s == EncodeBytes(b) + rest
  {
    ReadNumberIs(s, ':');
    var (n, after) := ReadNumber(s, ':').value;
    assert after == after[..n] + after[n..];
    var b, rest := after[..n], after[n..];
    Assoc(Digits(n), [':'] + b, rest);
    Assoc([':'], b, rest);
  }

  lemma DecodeIntIs(s: string)
    requires DecodeInt(s).Some?
    ensures var (n, rest) := DecodeInt(s).value; s == Itoa(n) + (['e'] + rest)
  {
    if s != "" && s[0] == '-' {
      ReadNumberIs(s[1..], 'e');
      var (n, rest) := ReadNumber(s[1..], 'e').value;
      assert s == "-" + s[1..];
      Assoc("-", Digits(n), ['e'] + rest);
    } else {
      ReadNumberIs(s, 'e');
    }
  }

  lemma {:induction false} DecodedIsEncoding(s: string)
    requires Decode(s).Some?
    ensures var (v, rest) := Decode(s).value; IsNormal(v) && s == Encoding(v) + rest
    decreases |s|, 0
  {
    var (v, rest) := Decode(s).value;
    assert s == [s[0]] + s[1..];
    if s[0] == 'i' {
      DecodeIntIs(s[1..]);
      HeadParts(['i'], Itoa(v.n), ['e'], rest);
    } else if s[0] == 'l' {
      DecodedItemsAreEncodings(s[1..]);
      HeadParts(['l'], EncodeItems(v.items), ['e'], rest);
    } else if s[0] == 'd' {
      DecodedEntriesAreEncodings(s[1..]);
      DecodedDict(DecodeEntries(s[1..]).value.0, rest);
    } else {
      DecodeBytesIs(s);
    }
  }

  lemma DecodedDict(pairs: seq<(string, Value)>, rest: string)
    requires InOrder(KeysIn(pairs)) && forall i | 0 <= i < |pairs| :: IsNormal(pairs[i].1)
    ensures var v := Dict(ToMap(pairs));
            IsNormal(v) && ['d'] + (PairsText(pairs) + (['e'] + rest)) == Encoding(v) + rest
  {
    var v := Dict(ToMap(pairs));
    AscendingIsInOrder(KeysIn(pairs));
    PairsCover(pairs);
    MapIsNormal(v, v.entries);
    DictEncoding(pairs, v);
    HeadParts(['d'], PairsText(pairs), ['e'], rest);
  }

  lemma DictEncoding(pairs: seq<(string, Value)>, v: Value)
    requires Ascending(KeysIn(pairs)) && v == Dict(ToMap(pairs))
    ensures Encoding(v) == ['d'] + (PairsText(pairs) + ['e'])
  {
    PairsEncoding(pairs);
    AscendingIsUnique(KeysIn(pairs), SortedKeys(v.entries.Keys));
  }

  lemma HeadParts(a: string, b: string, c: string, rest: string)
    ensures a + (b + (c + rest)) == (a + (b + c)) + rest
  {
  }

  lemma {:induction false} DecodedItemsAreEncodings(s: string)
    requires DecodeItems(s).Some?
    ensures var (vs, rest) := DecodeItems(s).value;
            && (forall i | 0 <= i < |vs| :: Supported(vs[i])) && NormalAll(vs) == vs
            && s == EncodeItems(vs) + (['e'] + rest)
    decreases |s|, 1
  {
    var (vs, rest) := DecodeItems(s).value;
    if s[0] == 'e' {
      assert s == "" + ([s[0]] + s[1..]);
    } else {
      var (v, more) := Decode(s).value;
      DecodedIsEncoding(s);
      DecodedItemsAreEncodings(more);
      assert vs == [v] + vs[1..];
      Assoc(Encoding(v), EncodeItems(vs[1..]), ['e'] + rest);
    }
  }

  // The text of decoded entries, in the order in which they stood.
  ghost function PairsText(pairs: seq<(string, Value)>): string {
    if pairs == [] then "" else EncodeBytes(pairs[0].0) + (Encoding(pairs[0].1) + PairsText(pairs[1..]))
  }

  lemma {:induction false} DecodedEntriesAreEncodings(s: string)
    requires DecodeEntries(s).Some?
    ensures var (pairs, rest) := DecodeEntries(s).value;
            && (forall i | 0 <= i < |pairs| :: IsNormal(pairs[i].1))
            && s == PairsText(pairs) + (['e'] + rest)
    decreases |s|, 1
  {
    var (pairs, rest) := DecodeEntries(s).value;
    if s[0] == 'e' {
      assert s == "" + ([s[0]] + s[1..]);
    } else {
      var (k, afterKey) := DecodeBytes(s).value;
      var (v, more) := Decode(afterKey).value;
      DecodeBytesIs(s);
      DecodedIsEncoding(afterKey);
      DecodedEntriesAreEncodings(more);
      assert pairs == [(k, v)] + pairs[1..];
      Assoc(EncodeBytes(k), Encoding(v) + PairsText(pairs[1..]), ['e'] + rest);
      Assoc(Encoding(v), PairsText(pairs[1..]), ['e'] + rest);
    }
  }

  lemma {:induction false} ToMapHas(pairs: seq<(string, Value)>)
    requires Ascending(KeysIn(pairs))
    ensures ToMap(pairs).Keys == KeySet(KeysIn(pairs))
    ensures forall i | 0 <= i < |pairs| :: pairs[i].0 in ToMap(pairs) && ToMap(pairs)[pairs[i].0] == pairs[i].1
  {
    var keys := KeysIn(pairs);
    if pairs != [] {
      TailKeys(keys);
      assert KeysIn(pairs[1..]) == keys[1..];
      ToMapHas(pairs[1..]);
      forall i | 0 <= i < |pairs|
        ensures pairs[i].0 in ToMap(pairs) && ToMap(pairs)[pairs[i].0] == pairs[i].1
      {
        if i > 0 {
          assert pairs[i] == pairs[1..][i - 1];
          assert Less(keys[0], keys[i]);
          LessIsStrict(keys[0]);
        }
      }
    }
  }

  // Entries in ascending order are encoded as the map they make.
  lemma PairsEncoding(pairs: seq<(string, Value)>)
    requires Ascending(KeysIn(pairs))
    ensures ToMap(pairs).Keys == KeySet(KeysIn(pairs))
    ensures forall k | k in KeysIn(pairs) :: k in ToMap(pairs)
    ensures EncodeEntries(Dict(ToMap(pairs)), KeysIn(pairs)) == PairsText(pairs)
  {
    ToMapHas(pairs);
    assert forall k | k in KeysIn(pairs) :: k in KeySet(KeysIn(pairs));
    PairsEncodingFrom(Dict(ToMap(pairs)), pairs, 0);
    assert KeysIn(pairs)[0..] == KeysIn(pairs) && pairs[0..] == pairs;
  }

  lemma PairsCover(pairs: seq<(string, Value)>)
    requires Ascending(KeysIn(pairs)) && forall i | 0 <= i < |pairs| :: IsNormal(pairs[i].1)
    ensures forall k | k in ToMap(pairs) :: IsNormal(ToMap(pairs)[k])
  {
    ToMapHas(pairs);
    forall k | k in ToMap(pairs)
      ensures IsNormal(ToMap(pairs)[k])
    {
      assert k in KeySet(KeysIn(pairs));
      var i :| 0 <= i < |pairs| && KeysIn(pairs)[i] == k;
      assert pairs[i].0 == k;
    }
  }

  lemma {:induction false} PairsEncodingFrom(d: Value, pairs: seq<(string, Value)>, i: nat)
    requires i <= |pairs| && d.Dict? && forall k | k in KeysIn(pairs) :: k in d.entries
    requires forall j | 0 <= j < |pairs| :: d.entries[KeysIn(pairs)[j]] == pairs[j].1
    ensures EncodeEntries(d, KeysIn(pairs)[i..]) == PairsText(pairs[i..])
    decreases |pairs| - i
  {
    if i < |pairs| {
      PairsEncodingFrom(d, pairs, i + 1);
      assert KeysIn(pairs)[i..][1..] == KeysIn(pairs)[i + 1..] && pairs[i..][1..] == pairs[i + 1..];
    }
  }

  // What follows for the encoder.

  // Equal encodings come from equal values, up to normalisation, and none is a proper prefix of another.
  lemma EncodingIsInjective(v: Value, w: Value, rest: string)
    requires Supported(v) && Supported(w)
    requires Encoding(v) + rest == Encoding(w)
    ensures Normal(v) == Normal(w) && rest == ""
  {
    DecodeEncoding(v, rest);
    DecodeEncoding(w, "");
    assert Encoding(w) + "" == Encoding(w);
  }

  // The encodings are exactly the texts the strict decoder accepts as a whole.
  lemma EncodingsAreCanonical(s: string)
    ensures (exists v :: Supported(v) && Encoding(v) == s) <==> Decode(s).Some? && Decode(s).value.1 == ""
  {
    if Decode(s).Some? && Decode(s).value.1 == "" {
      DecodedIsEncoding(s);
      var v := Decode(s).value.0;
      assert Encoding(v) + "" == Encoding(v);
    }
    forall v | Supported(v) && Encoding(v) == s
      ensures Decode(s).Some? && Decode(s).value.1 == ""
    {
      DecodeEncoding(v, "");
      assert Encoding(v) + "" == s;
    }
  }

  // The raw bytes of one entry's value, cut out of a dictionary's text by decoding only to find
  // where values end.
  function RawField(s: string, key: string): Option<string> {
    if s == "" || s[0] != 'd' then None else RawEntry(s[1..], key)
  }

  function RawEntry(s: string, key: string): Option<string>
    decreases |s|
  {
    if s == "" || s[0] == 'e' then None
    else
      match DecodeBytes(s)
      case None => None
      case Some((k, afterKey)) =>
        match Decode(afterKey)
        case None => None
        case Some((_, rest)) =>
          if k == key then Some(afterKey[..|afterKey| - |rest|]) else RawEntry(rest, key)
  }

  lemma {:induction false} RawEntryOf(d: Value, keys: seq<string>, key: string, tail: string)
    requires d.Dict? && Supported(d) && key in keys && forall k | k in keys :: k in d.entries
    ensures RawEntry(EncodeEntries(d, keys) + tail, key) == Some(Encoding(d.entries[key]))
  {
    var k, e := keys[0], Encoding(d.entries[keys[0]]);
    var rest := EncodeEntries(d, keys[1..]) + tail;
    EntryParts(EncodeBytes(k), e, EncodeEntries(d, keys[1..]), tail);
    DecodeStringOf(k, e + rest);
    DecodeBytesOf(k, e + rest);
    DecodeEncoding(d.entries[k], rest);
    assert (e + rest)[..|e|] == e;
    if k != key {
      RawEntryOf(d, keys[1..], key, tail);
    }
  }

  // The span of an entry's value is the encoding of that value.
  lemma RawFieldOf(d: Value, key: string, rest: string)
    requires d.Dict? && Supported(d) && key in d.entries
    ensures RawField(Encoding(d) + rest, key) == Some(Encoding(d.entries[key]))
  {
    var keys := SortedKeys(d.entries.Keys);
    assert key in KeySet(keys);
    assert forall k | k in keys :: k in KeySet(keys);
    RawEntryOf(d, keys, key, ['e'] + rest);
    var x := EncodeEntries(d, keys);
    Assoc(['d'], x + ['e'], rest);
    Assoc(x, ['e'], rest);
    assert (['d'] + (x + ['e'] + rest))[1..] == x + ['e'] + rest;
  }

  // What a reader finds under a key of a dictionary.
  function FieldOf(v: Value, key: string): Option<Value> {
    if v.Dict? && key in v.entries then Some(v.entries[key]) else None
  }

  function NormalField(d: Value, key: string): Option<Value>
    requires d.Dict?
  {
    if key in d.entries then Some(Normal(d.entries[key])) else None
  }

  // Decoding an encoded dictionary gives each field its normal form.
  lemma DecodeField(d: Value, key: string)
    requires d.Dict? && Supported(d)
    ensures var r := Decode(Encoding(d));
            r.Some? && r.value.1 == "" && FieldOf(r.value.0, key) == NormalField(d, key)
  {
    DecodeWhole(d);
  }
}
