/** JavaScript plain objects with string keys, as the core uses them for every table
    (bootstrap maps, grammar records, HTTP headers, API results).

    An object is an association list in insertion order. Assigning an existing key
    replaces its value in place; a new key goes to the end. `{...a, ...b}` assigns
    b's entries onto a copy of a.

    Enumeration (`for…in`, `Object.keys`, `JSON.stringify`) follows the ECMAScript
    own-key order (section 10.1.11.1 of ECMA-262, OrdinaryOwnPropertyKeys): keys that
    are array indexes come first in ascending numeric order, then every other key in
    insertion order. `Keys` is the insertion order, `OwnKeys` the enumeration order;
    the two agree whenever no key is an array index, as for every bootstrap range,
    CIDR, TLD and header name. */
module Dicts {
  import opened Wrappers
  import Text

  type Dict<V> = seq<(string, V)>

  /** The keys in insertion order. */
  function Keys<V>(d: Dict<V>): (ks: seq<string>)
    ensures |ks| == |d|
    ensures forall i :: 0 <= i < |d| ==> ks[i] == d[i].0
  {
    seq(|d|, i requires 0 <= i < |d| => d[i].0)
  }

  predicate HasKey<V>(d: Dict<V>, k: string) {
    k in Keys(d)
  }

  /** `d[k]`: the latest binding of `k`; `None` is `undefined`. */
  function Get<V>(d: Dict<V>, k: string): Option<V> {
    if |d| == 0 then None
    else if d[|d| - 1].0 == k then Some(d[|d| - 1].1)
    else Get(d[..|d| - 1], k)
  }

  /** `d[k] = v`. */
  function Set<V>(d: Dict<V>, k: string, v: V): Dict<V> {
    if HasKey(d, k) then seq(|d|, i requires 0 <= i < |d| => if d[i].0 == k then (k, v) else d[i])
    else d + [(k, v)]
  }

  /** `{...a, ...b}`: b's entries assigned, in order, onto a. */
  function Spread<V>(a: Dict<V>, b: Dict<V>): Dict<V> {
    if |b| == 0 then a
    else Set(Spread(a, b[..|b| - 1]), b[|b| - 1].0, b[|b| - 1].1)
  }

  /** No key is listed twice (true of every object the program builds). */
  predicate UniqueKeys<V>(d: Dict<V>) {
    forall i, j :: 0 <= i < j < |d| ==> d[i].0 != d[j].0
  }

  lemma {:induction false} GetSomeIffHasKey<V>(d: Dict<V>, k: string)
    ensures Get(d, k).Some? <==> HasKey(d, k)
  {
    if |d| > 0 {
      GetSomeIffHasKey(d[..|d| - 1], k);
      assert Keys(d) == Keys(d[..|d| - 1]) + [d[|d| - 1].0];
    }
  }

  /** With unique keys, `Get` finds the one entry carrying the key. */
  lemma {:induction false} GetAt<V>(d: Dict<V>, i: nat)
    requires UniqueKeys(d) && i < |d|
    ensures Get(d, d[i].0) == Some(d[i].1)
  {
    if i < |d| - 1 {
      GetAt(d[..|d| - 1], i);
    }
  }

  lemma {:induction false} GetReplaced<V>(d: Dict<V>, k: string, v: V, k': string)
    ensures var r := seq(|d|, i requires 0 <= i < |d| => if d[i].0 == k then (k, v) else d[i]);
            Get(r, k') == if k' == k && HasKey(d, k) then Some(v) else Get(d, k')
  {
    var r := seq(|d|, i requires 0 <= i < |d| => if d[i].0 == k then (k, v) else d[i]);
    if |d| > 0 {
      var init := d[..|d| - 1];
      GetReplaced(init, k, v, k');
      assert r[..|r| - 1] == seq(|init|, i requires 0 <= i < |init| => if init[i].0 == k then (k, v) else init[i]);
      assert Keys(d) == Keys(init) + [d[|d| - 1].0];
      GetSomeIffHasKey(init, k');
    }
  }

  /** Assignment: the assigned key reads back the new value, every other key is unchanged. */
  lemma GetSet<V>(d: Dict<V>, k: string, v: V, k': string)
    ensures Get(Set(d, k, v), k') == if k' == k then Some(v) else Get(d, k')
  {
    if HasKey(d, k) {
      GetReplaced(d, k, v, k');
    } else {
      GetSomeIffHasKey(d, k);
    }
  }

  lemma KeysSet<V>(d: Dict<V>, k: string, v: V)
    ensures Keys(Set(d, k, v)) == if HasKey(d, k) then Keys(d) else Keys(d) + [k]
  {
  }

  lemma UniqueSet<V>(d: Dict<V>, k: string, v: V)
    requires UniqueKeys(d)
    ensures UniqueKeys(Set(d, k, v))
  {
    if !HasKey(d, k) {
      var r := Set(d, k, v);
      forall i, j | 0 <= i < j < |r|
        ensures r[i].0 != r[j].0
      {
        if j == |d| {
          assert Keys(d)[i] == d[i].0;
        }
      }
    }
  }

  /** Spreading: a key supplied by `b` takes b's value; any other key keeps a's. */
  lemma {:induction false} GetSpread<V>(a: Dict<V>, b: Dict<V>, k: string)
    ensures Get(Spread(a, b), k) == if HasKey(b, k) then Get(b, k) else Get(a, k)
  {
    if |b| > 0 {
      var init := b[..|b| - 1];
      GetSpread(a, init, k);
      GetSet(Spread(a, init), b[|b| - 1].0, b[|b| - 1].1, k);
      assert Keys(b) == Keys(init) + [b[|b| - 1].0];
      GetSomeIffHasKey(init, k);
      GetSomeIffHasKey(b, k);
    }
  }

  /** Spreading: the keys of the result are exactly the keys of both objects. */
  lemma {:induction false} KeysSpread<V>(a: Dict<V>, b: Dict<V>)
    ensures forall k :: HasKey(Spread(a, b), k) <==> HasKey(a, k) || HasKey(b, k)
  {
    forall k
      ensures HasKey(Spread(a, b), k) <==> HasKey(a, k) || HasKey(b, k)
    {
      GetSpread(a, b, k);
      GetSomeIffHasKey(Spread(a, b), k);
      GetSomeIffHasKey(a, k);
      GetSomeIffHasKey(b, k);
    }
  }

  /** Spreading keeps a's keys first and in their original order. */
  lemma {:induction false} SpreadKeepsOrder<V>(a: Dict<V>, b: Dict<V>)
    ensures |Spread(a, b)| >= |a|
    ensures Keys(Spread(a, b))[..|a|] == Keys(a)
  {
    if |b| > 0 {
      SpreadKeepsOrder(a, b[..|b| - 1]);
    }
  }

  lemma {:induction false} UniqueSpread<V>(a: Dict<V>, b: Dict<V>)
    requires UniqueKeys(a)
    ensures UniqueKeys(Spread(a, b))
  {
    if |b| > 0 {
      UniqueSpread(a, b[..|b| - 1]);
      UniqueSet(Spread(a, b[..|b| - 1]), b[|b| - 1].0, b[|b| - 1].1);
    }
  }

  /** Spreading an object whose keys are all new appends its entries unchanged. */
  lemma {:induction false} SpreadFresh<V>(a: Dict<V>, b: Dict<V>)
    requires UniqueKeys(b)
    requires forall k :: k in Keys(b) ==> k !in Keys(a)
    ensures Spread(a, b) == a + b
  {
    if |b| > 0 {
      var init := b[..|b| - 1];
      assert forall k :: k in Keys(init) ==> k in Keys(b);
      SpreadFresh(a, init);
      var last := b[|b| - 1].0;
      assert last !in Keys(a);
      assert last !in Keys(init);
      assert !HasKey(a + init, last);
      assert b == init + [b[|b| - 1]];
    }
  }

  // ---------------------------------------------------------------------------
  // Enumeration order
  // ---------------------------------------------------------------------------

  /** The numeric value of a digit string (0 for any other key). */
  function IndexValue(k: string): nat {
    if Text.AllDigits(k) then Text.DigitsValue(k) else 0
  }

  /** An array index: the canonical decimal form of an integer below 2^32 - 1. */
  predicate IsArrayIndex(k: string) {
    Text.Canonical(k) && IndexValue(k) < 0xFFFF_FFFF
  }

  /** Ascending by numeric value. */
  predicate Ascending(ks: seq<string>) {
    forall i, j :: 0 <= i < j < |ks| ==> IndexValue(ks[i]) <= IndexValue(ks[j])
  }

  /** The array-index keys of `ks`, in list order. */
  function IndexKeys(ks: seq<string>): (r: seq<string>)
    ensures forall i :: 0 <= i < |r| ==> IsArrayIndex(r[i])
  {
    if |ks| == 0 then []
    else IndexKeys(ks[..|ks| - 1]) + (if IsArrayIndex(ks[|ks| - 1]) then [ks[|ks| - 1]] else [])
  }

  /** The other keys of `ks`, in list order. */
  function OtherKeys(ks: seq<string>): (r: seq<string>)
    ensures forall i :: 0 <= i < |r| ==> !IsArrayIndex(r[i])
  {
    if |ks| == 0 then []
    else OtherKeys(ks[..|ks| - 1]) + (if IsArrayIndex(ks[|ks| - 1]) then [] else [ks[|ks| - 1]])
  }

  /** Every key goes to exactly one of the two groups. */
  lemma {:induction false} PartitionKeys(ks: seq<string>)
    ensures multiset(IndexKeys(ks)) + multiset(OtherKeys(ks)) == multiset(ks)
  {
    if |ks| > 0 {
      var init, last := ks[..|ks| - 1], ks[|ks| - 1];
      PartitionKeys(init);
      assert ks == init + [last];
      assert multiset(ks) == multiset(init) + multiset{last};
      if IsArrayIndex(last) {
        assert IndexKeys(ks) == IndexKeys(init) + [last];
        assert OtherKeys(ks) == OtherKeys(init);
      } else {
        assert IndexKeys(ks) == IndexKeys(init);
        assert OtherKeys(ks) == OtherKeys(init) + [last];
      }
    }
  }

  /** A list with no array index is its own `OtherKeys`. */
  lemma {:induction false} OtherKeysOfOthers(ks: seq<string>)
    requires forall i :: 0 <= i < |ks| ==> !IsArrayIndex(ks[i])
    ensures OtherKeys(ks) == ks
  {
    if |ks| > 0 {
      OtherKeysOfOthers(ks[..|ks| - 1]);
    }
  }

  lemma {:induction false} OtherKeysOfIndices(ks: seq<string>)
    requires forall i :: 0 <= i < |ks| ==> IsArrayIndex(ks[i])
    ensures OtherKeys(ks) == []
  {
    if |ks| > 0 {
      OtherKeysOfIndices(ks[..|ks| - 1]);
    }
  }

  lemma {:induction false} IndexKeysOfOthers(ks: seq<string>)
    requires forall i :: 0 <= i < |ks| ==> !IsArrayIndex(ks[i])
    ensures IndexKeys(ks) == []
  {
    if |ks| > 0 {
      IndexKeysOfOthers(ks[..|ks| - 1]);
    }
  }

  lemma {:induction false} OtherKeysAppend(a: seq<string>, b: seq<string>)
    ensures OtherKeys(a + b) == OtherKeys(a) + OtherKeys(b)
  {
    if |b| > 0 {
      var init, last := b[..|b| - 1], b[|b| - 1];
      OtherKeysAppend(a, init);
      assert (a + b)[..|a + b| - 1] == a + init;
      assert (a + b)[|a + b| - 1] == last;
      var tail := if IsArrayIndex(last) then [] else [last];
      assert OtherKeys(a + b) == OtherKeys(a + init) + tail;
      assert OtherKeys(b) == OtherKeys(init) + tail;
      assert OtherKeys(a) + OtherKeys(init) + tail == OtherKeys(a) + (OtherKeys(init) + tail);
    } else {
      assert a + b == a;
    }
  }

  /** Inserts a key into a list after every key of smaller or equal value. */
  function InsertIndex(sorted: seq<string>, k: string): (r: seq<string>)
    ensures multiset(r) == multiset(sorted) + multiset{k}
  {
    if |sorted| == 0 then [k]
    else if IndexValue(k) < IndexValue(sorted[0]) then [k] + sorted
    else
      assert sorted == [sorted[0]] + sorted[1..];
      [sorted[0]] + InsertIndex(sorted[1..], k)
  }

  /** A lower bound of a list and of the inserted key bounds the result. */
  lemma {:induction false} InsertBounded(sorted: seq<string>, k: string, low: nat)
    requires forall i :: 0 <= i < |sorted| ==> low <= IndexValue(sorted[i])
    requires low <= IndexValue(k)
    ensures forall i :: 0 <= i < |InsertIndex(sorted, k)| ==> low <= IndexValue(InsertIndex(sorted, k)[i])
  {
    var r := InsertIndex(sorted, k);
    if |sorted| > 0 && IndexValue(k) >= IndexValue(sorted[0]) {
      InsertBounded(sorted[1..], k, low);
      var rest := InsertIndex(sorted[1..], k);
      assert r == [sorted[0]] + rest;
      forall i | 0 < i < |r|
        ensures low <= IndexValue(r[i])
      {
        assert r[i] == rest[i - 1];
      }
    } else {
      assert r == [k] + sorted;
      forall i | 0 < i < |r|
        ensures low <= IndexValue(r[i])
      {
        assert r[i] == sorted[i - 1];
      }
    }
  }

  lemma {:induction false} InsertAscending(sorted: seq<string>, k: string)
    requires Ascending(sorted)
    ensures Ascending(InsertIndex(sorted, k))
  {
    if |sorted| > 0 && IndexValue(k) >= IndexValue(sorted[0]) {
      var rest := InsertIndex(sorted[1..], k);
      InsertAscending(sorted[1..], k);
      InsertBounded(sorted[1..], k, IndexValue(sorted[0]));
      var r := [sorted[0]] + rest;
      forall i, j | 0 <= i < j < |r|
        ensures IndexValue(r[i]) <= IndexValue(r[j])
      {
        assert r[j] == rest[j - 1];
        if i > 0 {
          assert r[i] == rest[i - 1];
        }
      }
    }
  }

  /** Insertion sort by numeric value; stable, so equal values keep their order. */
  function SortIndices(ks: seq<string>): (r: seq<string>)
    ensures multiset(r) == multiset(ks)
  {
    if |ks| == 0 then []
    else
      assert ks == ks[..|ks| - 1] + [ks[|ks| - 1]];
      InsertIndex(SortIndices(ks[..|ks| - 1]), ks[|ks| - 1])
  }

  lemma {:induction false} SortAscending(ks: seq<string>)
    ensures Ascending(SortIndices(ks))
  {
    if |ks| > 0 {
      SortAscending(ks[..|ks| - 1]);
      InsertAscending(SortIndices(ks[..|ks| - 1]), ks[|ks| - 1]);
    }
  }

  /** The ECMAScript own-key order of keys created in the order `ks`: array indexes
      first, ascending, then the other keys in creation order. */
  function JsKeyOrder(ks: seq<string>): (r: seq<string>)
    ensures multiset(r) == multiset(ks)
    ensures forall i, j :: 0 <= i < j < |r| && IsArrayIndex(r[j]) ==>
              IsArrayIndex(r[i]) && IndexValue(r[i]) <= IndexValue(r[j])
    ensures OtherKeys(r) == OtherKeys(ks)
  {
    var sorted := SortIndices(IndexKeys(ks));
    var others := OtherKeys(ks);
    SortAscending(IndexKeys(ks));
    PartitionKeys(ks);
    IndicesThenOthers(IndexKeys(ks), others);
    sorted + others
  }

  /** Sorted indexes followed by non-indexes satisfy the own-key order, and keep the
      non-indexes in their order. */
  lemma IndicesThenOthers(indices: seq<string>, others: seq<string>)
    requires forall i :: 0 <= i < |indices| ==> IsArrayIndex(indices[i])
    requires forall i :: 0 <= i < |others| ==> !IsArrayIndex(others[i])
    ensures var r := SortIndices(indices) + others;
            && (forall i, j :: 0 <= i < j < |r| && IsArrayIndex(r[j]) ==>
                  IsArrayIndex(r[i]) && IndexValue(r[i]) <= IndexValue(r[j]))
            && OtherKeys(r) == others
  {
    var sorted := SortIndices(indices);
    SortAscending(indices);
    forall i | 0 <= i < |sorted|
      ensures IsArrayIndex(sorted[i])
    {
      assert sorted[i] in multiset(indices);
    }
    OtherKeysAppend(sorted, others);
    OtherKeysOfOthers(others);
    OtherKeysOfIndices(sorted);
    var r := sorted + others;
    forall i, j | 0 <= i < j < |r| && IsArrayIndex(r[j])
      ensures IsArrayIndex(r[i]) && IndexValue(r[i]) <= IndexValue(r[j])
    {
      assert r[i] == sorted[i] && r[j] == sorted[j];
    }
  }

  /** `Object.keys(d)`: the enumeration order of d's keys. */
  function OwnKeys<V>(d: Dict<V>): (ks: seq<string>)
    ensures multiset(ks) == multiset(Keys(d))
  {
    JsKeyOrder(Keys(d))
  }

  /** Without array-index keys, enumeration is insertion order. */
  lemma {:induction false} JsKeyOrderNoIndex(ks: seq<string>)
    requires forall i :: 0 <= i < |ks| ==> !IsArrayIndex(ks[i])
    ensures JsKeyOrder(ks) == ks
  {
    OtherKeysOfOthers(ks);
    IndexKeysOfOthers(ks);
  }

  /** Adding a new key that is not an array index lists it last. */
  lemma OwnKeysSetFresh<V>(d: Dict<V>, k: string, v: V)
    requires !HasKey(d, k) && !IsArrayIndex(k)
    ensures OwnKeys(Set(d, k, v)) == OwnKeys(d) + [k]
  {
    KeysSet(d, k, v);
    var ks := Keys(d);
    var ks' := ks + [k];
    assert ks'[..|ks|] == ks && ks'[|ks|] == k;
    assert IndexKeys(ks') == IndexKeys(ks);
    assert OtherKeys(ks') == OtherKeys(ks) + [k];
    var sorted := SortIndices(IndexKeys(ks));
    assert JsKeyOrder(ks') == sorted + (OtherKeys(ks) + [k]);
    assert sorted + (OtherKeys(ks) + [k]) == sorted + OtherKeys(ks) + [k];
  }

  /** A numeric key overtakes a name created before it. */
  lemma NumericKeyFirst()
    ensures JsKeyOrder(["example.com", "13335"]) == ["13335", "example.com"]
  {
    var ks := ["example.com", "13335"];
    NameIsNotIndex();
    AsnIsIndex();
    assert ks[..1] == ["example.com"];
    assert IndexKeys(ks) == ["13335"];
    assert OtherKeys(ks) == ["example.com"];
  }

  lemma NameIsNotIndex()
    ensures !IsArrayIndex("example.com")
  {
    assert !Text.IsDigit("example.com"[0]);
  }

  lemma AsnIsIndex()
    ensures IsArrayIndex("13335")
  {
    Text.ShowNatParses(13335);
    assert Text.ShowNat(13335) == "13335";
  }
}
