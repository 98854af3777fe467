/** The bytewise order of Go strings, and sort.Strings. */
module KeyOrder {

  predicate Less(a: string, b: string) {
    b != "" && (a == "" || a[0] < b[0] || (a[0] == b[0] && Less(a[1..], b[1..])))
  }

  // a is a proper prefix of b, or is the smaller one at the first byte in which they differ.
  predicate Precedes(a: string, b: string) {
    a < b || exists k | 0 <= k < |a| && k < |b| :: SmallerAt(a, b, k)
  }

  predicate SmallerAt(a: string, b: string, k: nat)
    requires k < |a| && k < |b|
  {
    a[..k] == b[..k] && a[k] < b[k]
  }

  lemma {:induction false} LessIsPrecedes(a: string, b: string)
    ensures Less(a, b) <==> Precedes(a, b)
  {
    if a == "" || b == "" {
    } else if a[0] != b[0] {
      assert SmallerAt(a, b, 0) <==> a[0] < b[0];
    } else {
      LessIsPrecedes(a[1..], b[1..]);
      PrecedesCons(a, b);
    }
  }

  lemma PrecedesCons(a: string, b: string)
    requires a != "" && b != "" && a[0] == b[0]
    ensures Precedes(a, b) <==> Precedes(a[1..], b[1..])
  {
    assert a == [a[0]] + a[1..] && b == [b[0]] + b[1..];
    forall k | 0 < k < |a| && k < |b|
      ensures SmallerAt(a, b, k) <==> SmallerAt(a[1..], b[1..], k - 1)
    {
      assert a[..k] == [a[0]] + a[1..][..k - 1] && b[..k] == [b[0]] + b[1..][..k - 1];
    }
    if k :| 0 <= k < |a[1..]| && k < |b[1..]| && SmallerAt(a[1..], b[1..], k) {
      assert SmallerAt(a, b, k + 1);
    }
  }

  lemma {:induction false} LessIsStrict(a: string)
    ensures !Less(a, a)
  {
    if a != "" {
      LessIsStrict(a[1..]);
    }
  }

  lemma {:induction false} LessIsTransitive(a: string, b: string, c: string)
    requires Less(a, b) && Less(b, c)
    ensures Less(a, c)
  {
    if a != "" && a[0] == b[0] == c[0] {
      LessIsTransitive(a[1..], b[1..], c[1..]);
    }
  }

  lemma {:induction false} LessIsTotal(a: string, b: string)
    ensures a == b || Less(a, b) || Less(b, a)
  {
    if a != "" && b != "" && a[0] == b[0] {
      LessIsTotal(a[1..], b[1..]);
      assert a == [a[0]] + a[1..] && b == [b[0]] + b[1..];
    }
  }

  // Each key is bytewise below all later ones.
  predicate Ascending(keys: seq<string>) {
    forall i, j | 0 <= i < j < |keys| :: Less(keys[i], keys[j])
  }

  // The same, by the order's description.
  predicate InOrder(keys: seq<string>) {
    forall i, j | 0 <= i < j < |keys| :: Precedes(keys[i], keys[j])
  }

  lemma AscendingIsInOrder(keys: seq<string>)
    ensures Ascending(keys) <==> InOrder(keys)
  {
    forall i, j | 0 <= i < j < |keys|
      ensures Less(keys[i], keys[j]) <==> Precedes(keys[i], keys[j])
    {
      LessIsPrecedes(keys[i], keys[j]);
    }
  }

  function KeySet(keys: seq<string>): set<string> {
    set k | k in keys
  }

  // A set has one ascending listing.
  lemma {:induction false} AscendingIsUnique(a: seq<string>, b: seq<string>)
    requires Ascending(a) && Ascending(b) && KeySet(a) == KeySet(b)
    ensures a == b
  {
    if a == [] {
      assert forall i | 0 <= i < |b| :: b[i] in KeySet(b);
    } else {
      assert a[0] in KeySet(a) && a[0] in KeySet(b);
      assert b[0] in KeySet(b) && b[0] in KeySet(a);
      HeadIsLeast(a, b[0]);
      HeadIsLeast(b, a[0]);
      if a[0] != b[0] {
        LessIsTransitive(a[0], b[0], a[0]);
        LessIsStrict(a[0]);
      }
      TailKeys(a);
      TailKeys(b);
      AscendingIsUnique(a[1..], b[1..]);
      assert a == [a[0]] + a[1..] && b == [b[0]] + b[1..];
    }
  }

  lemma HeadIsLeast(a: seq<string>, k: string)
    requires Ascending(a) && k in a
    ensures k == a[0] || Less(a[0], k)
  {
  }

  lemma TailKeys(a: seq<string>)
    requires Ascending(a) && a != []
    ensures Ascending(a[1..]) && KeySet(a[1..]) == KeySet(a) - {a[0]}
  {
    LessIsStrict(a[0]);
    assert forall i | 0 < i < |a| :: Less(a[0], a[i]) && a[i] == a[1..][i - 1];
    assert a == [a[0]] + a[1..];
  }

  // Sorting: insertion of one string into an ascending sequence that lacks it.
  function Insert(k: string, keys: seq<string>): seq<string> {
    if keys == [] || Less(k, keys[0]) then [k] + keys else [keys[0]] + Insert(k, keys[1..])
  }

  lemma {:induction false} InsertAdds(k: string, keys: seq<string>)
    ensures KeySet(Insert(k, keys)) == KeySet(keys) + {k}
  {
    if keys != [] && !Less(k, keys[0]) {
      InsertAdds(k, keys[1..]);
      KeySetOfConcat([keys[0]], Insert(k, keys[1..]));
      KeySetOfConcat([keys[0]], keys[1..]);
      assert keys == [keys[0]] + keys[1..];
    } else {
      KeySetOfConcat([k], keys);
    }
  }

  lemma KeySetOfConcat(a: seq<string>, b: seq<string>)
    ensures KeySet(a + b) == KeySet(a) + KeySet(b)
  {
  }

  lemma AscendingCons(k: string, keys: seq<string>)
    requires Ascending(keys) && forall j | 0 <= j < |keys| :: Less(k, keys[j])
    ensures Ascending([k] + keys)
  {
  }

  lemma {:induction false} InsertKeepsOrder(k: string, keys: seq<string>)
    requires Ascending(keys) && k !in keys
    ensures Ascending(Insert(k, keys))
  {
    if keys == [] {
    } else if Less(k, keys[0]) {
      forall j | 0 <= j < |keys|
        ensures Less(k, keys[j])
      {
        if j > 0 {
          LessIsTransitive(k, keys[0], keys[j]);
        }
      }
      AscendingCons(k, keys);
    } else {
      var rest := Insert(k, keys[1..]);
      TailKeys(keys);
      InsertKeepsOrder(k, keys[1..]);
      InsertAdds(k, keys[1..]);
      LessIsTotal(k, keys[0]);
      forall j | 0 <= j < |rest|
        ensures Less(keys[0], rest[j])
      {
        assert rest[j] in KeySet(rest);
        assert rest[j] != k ==> rest[j] in keys[1..];
      }
      AscendingCons(keys[0], rest);
    }
  }

  // sort.Strings on the keys of a map, which are distinct.
  method SortStrings(keys: seq<string>) returns (sorted: seq<string>)
    requires forall i, j | 0 <= i < j < |keys| :: keys[i] != keys[j]
    ensures Ascending(sorted) && InOrder(sorted) && KeySet(sorted) == KeySet(keys)
  {
    sorted := [];
    for i := 0 to |keys|
      invariant Ascending(sorted) && KeySet(sorted) == KeySet(keys[..i])
    {
      assert keys[i] !in sorted by {
        assert keys[i] !in keys[..i];
        assert keys[i] !in KeySet(sorted);
      }
      InsertKeepsOrder(keys[i], sorted);
      InsertAdds(keys[i], sorted);
      sorted := Insert(keys[i], sorted);
      assert keys[..i + 1] == keys[..i] + [keys[i]];
    }
    assert keys[..|keys|] == keys;
    AscendingIsInOrder(sorted);
  }

  // The ascending listing of a set.
  ghost function SortedKeys(keys: set<string>): (r: seq<string>)
    ensures Ascending(r) && KeySet(r) == keys
  {
    SortedKeysExist(keys);
    var r :| Ascending(r) && KeySet(r) == keys;
    r
  }

  lemma {:induction false} SortedKeysExist(keys: set<string>)
    ensures exists r :: Ascending(r) && KeySet(r) == keys
  {
    if keys == {} {
      assert Ascending([]) && KeySet([]) == keys;
    } else {
      var k :| k in keys;
      SortedKeysExist(keys - {k});
      var r :| Ascending(r) && KeySet(r) == keys - {k};
      assert k !in r by {
        assert k !in KeySet(r);
      }
      InsertKeepsOrder(k, r);
      InsertAdds(k, r);
      assert Ascending(Insert(k, r)) && KeySet(Insert(k, r)) == keys;
    }
  }
}
