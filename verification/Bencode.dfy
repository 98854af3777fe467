/** The bencode encoder. A char is a byte here. */
module Bencode {
  import opened Wrappers
  import opened Decimal
  import opened Text
  import opened Buffers
  import opened KeyOrder

  // The dynamic types writeValue tells apart; Unsupported is any other.
  datatype Value =
    | Str(s: string)
    | Raw(bytes: string)
    | Int(i: int64)
    | Int64(n: int64)
    | List(items: seq<Value>)
    | Dict(entries: map<string, Value>)
    | Unsupported

  predicate Supported(v: Value)
    decreases v
  {
    match v
    case List(items) => forall i | 0 <= i < |items| :: Supported(items[i])
    case Dict(entries) => forall k | k in entries :: Supported(entries[k])
    case Unsupported => false
    case _ => true
  }

  // A value of another type stands somewhere in the tree.
  ghost predicate HasUnsupported(v: Value)
    decreases v
  {
    match v
    case Unsupported => true
    case List(items) => exists i | 0 <= i < |items| :: HasUnsupported(items[i])
    case Dict(entries) => exists k | k in entries :: HasUnsupported(entries[k])
    case _ => false
  }

  lemma {:induction false} SupportedIff(v: Value)
    ensures Supported(v) <==> !HasUnsupported(v)
    decreases v
  {
    match v
    case List(items) =>
      forall i | 0 <= i < |items|
        ensures Supported(items[i]) <==> !HasUnsupported(items[i])
      {
        SupportedIff(items[i]);
      }
    case Dict(entries) =>
      forall k | k in entries
        ensures Supported(entries[k]) <==> !HasUnsupported(entries[k])
      {
        SupportedIff(entries[k]);
      }
    case _ =>
  }

  function EncodeBytes(b: string): string {
    Digits(|b|) + ([':'] + b)
  }

  function EncodeInt(n: int64): string {
    ['i'] + (Itoa(n) + ['e'])
  }

  // The bytes Encode returns.
  ghost function Encoding(v: Value): string
    decreases v, 1
  {
    match v
    case Str(s) => EncodeBytes(s)
    case Raw(bytes) => EncodeBytes(bytes)
    case Int(i) => EncodeInt(i)
    case Int64(n) => EncodeInt(n)
    case List(items) => ['l'] + (EncodeItems(items) + ['e'])
    case Dict(entries) => ['d'] + (EncodeEntries(v, SortedKeys(entries.Keys)) + ['e'])
    case Unsupported => ""
  }

  ghost function EncodeItems(items: seq<Value>): string
    decreases items, 0
  {
    if items == [] then "" else Encoding(items[0]) + EncodeItems(items[1..])
  }

  ghost function EncodeEntries(d: Value, keys: seq<string>): string
    requires d.Dict? && forall k | k in keys :: k in d.entries
    decreases d, 0, |keys|
  {
    if keys == [] then "" else
      EncodeBytes(keys[0]) + (Encoding(d.entries[keys[0]]) + EncodeEntries(d, keys[1..]))
  }

  method WriteBytes(buf: Buffer, b: string)
    modifies buf
    ensures buf.data == old(buf.data) + EncodeBytes(b)
  {
    AppendParts(buf.data, Digits(|b|), [':'], b);
    Assoc(Digits(|b|), [':'], b);
    buf.WriteString(Itoa(|b|));
    buf.WriteByte(':');
    buf.WriteString(b);
  }

  method WriteInt(buf: Buffer, n: int64)
    modifies buf
    ensures buf.data == old(buf.data) + EncodeInt(n)
  {
    AppendParts(buf.data, ['i'], Itoa(n), ['e']);
    Assoc(['i'], Itoa(n), ['e']);
    buf.WriteByte('i');
    buf.WriteString(Itoa(n));
    buf.WriteByte('e');
  }

  // Writing fails exactly when an unsupported value occurs anywhere in the tree.
  method WriteValue(buf: Buffer, v: Value) returns (ok: bool)
    modifies buf
    ensures ok == Supported(v)
    ensures ok ==> buf.data == old(buf.data) + Encoding(v)
    decreases v, 1
  {
    ok := true;
    match v
    case Str(s) => WriteBytes(buf, s);
    case Raw(bytes) => WriteBytes(buf, bytes);
    case Int(i) => WriteInt(buf, i);
    case Int64(n) => WriteInt(buf, n);
    case List(items) =>
      AppendParts(buf.data, ['l'], EncodeItems(items), ['e']);
      Assoc(['l'], EncodeItems(items), ['e']);
      buf.WriteByte('l');
      ok := WriteItems(buf, items);
      if !ok {
        return;
      }
      buf.WriteByte('e');
    case Dict(entries) =>
      ok := WriteDict(buf, v);
    case Unsupported =>
      ok := false;
  }

  method WriteItems(buf: Buffer, items: seq<Value>) returns (ok: bool)
    modifies buf
    ensures ok == forall i | 0 <= i < |items| :: Supported(items[i])
    ensures ok ==> buf.data == old(buf.data) + EncodeItems(items)
    decreases items, 0
  {
    for k := 0 to |items|
      invariant forall i | 0 <= i < k :: Supported(items[i])
      invariant buf.data + EncodeItems(items[k..]) == old(buf.data) + EncodeItems(items)
    {
      Assoc(buf.data, Encoding(items[k]), EncodeItems(items[k + 1..]));
      assert items[k..][1..] == items[k + 1..];
      ok := WriteValue(buf, items[k]);
      if !ok {
        return;
      }
    }
    ok := true;
  }

  // A map is ranged over in any order; the keys are then sorted.
  method KeysOf(entries: map<string, Value>) returns (keys: seq<string>)
    ensures forall i, j | 0 <= i < j < |keys| :: keys[i] != keys[j]
    ensures KeySet(keys) == entries.Keys
  {
    keys := [];
    var left := entries.Keys;
    while left != {}
      invariant forall i, j | 0 <= i < j < |keys| :: keys[i] != keys[j]
      invariant KeySet(keys) + left == entries.Keys && KeySet(keys) !! left
    {
      var k :| k in left;
      assert k !in KeySet(keys);
      keys := keys + [k];
      left := left - {k};
    }
  }

  method WriteDict(buf: Buffer, d: Value) returns (ok: bool)
    requires d.Dict?
    modifies buf
    ensures ok == Supported(d)
    ensures ok ==> buf.data == old(buf.data) + Encoding(d)
    decreases d, 0
  {
    var keys := KeysOf(d.entries);
    keys := SortStrings(keys);
    AscendingIsUnique(keys, SortedKeys(d.entries.Keys));
    assert forall k | k in keys :: k in KeySet(keys);
    AppendParts(buf.data, ['d'], EncodeEntries(d, keys), ['e']);
    Assoc(['d'], EncodeEntries(d, keys), ['e']);
    buf.WriteByte('d');
    ok := WriteEntries(buf, d, keys);
    if ok {
      buf.WriteByte('e');
      assert forall k | k in d.entries :: k in KeySet(keys) && k in keys;
    }
  }

  method WriteEntries(buf: Buffer, d: Value, keys: seq<string>) returns (ok: bool)
    requires d.Dict? && forall k | k in keys :: k in d.entries
    modifies buf
    ensures ok == forall k | k in keys :: Supported(d.entries[k])
    ensures ok ==> buf.data == old(buf.data) + EncodeEntries(d, keys)
    decreases d, 0, 0
  {
    for i := 0 to |keys|
      invariant forall j | 0 <= j < i :: Supported(d.entries[keys[j]])
      invariant buf.data + EncodeEntries(d, keys[i..]) == old(buf.data) + EncodeEntries(d, keys)
    {
      var k := keys[i];
      ghost var rest := EncodeEntries(d, keys[i + 1..]);
      Assoc(buf.data, EncodeBytes(k), Encoding(d.entries[k]) + rest);
      Assoc(buf.data + EncodeBytes(k), Encoding(d.entries[k]), rest);
      assert keys[i..][1..] == keys[i + 1..];
      WriteBytes(buf, k);
      ok := WriteValue(buf, d.entries[k]);
      if !ok {
        return;
      }
    }
    ok := true;
  }

  // Encode returns the encoding of every supported tree and an error for every other.
  method Encode(v: Value) returns (r: Result<string>)
    ensures r.Ok? == Supported(v) == !HasUnsupported(v)
    ensures r.Ok? ==> r.value == Encoding(v)
  {
    SupportedIff(v);
    var buf := new Buffer();
    var ok := WriteValue(buf, v);
    if !ok {
      return Err("bencode: unsupported type");
    }
    assert "" + Encoding(v) == Encoding(v);
    r := Ok(buf.data);
  }
}
