/** A Python `dict` with string keys: a finite map that also remembers the order in which
    its keys were first inserted.  Assigning to an existing key replaces the
    value and keeps the key's position; `.values()` follows that order. */
module PyDict {

  datatype Dict<V> = Dict(order: seq<string>, entries: map<string, V>)

  predicate Distinct(s: seq<string>) {
    forall i, j :: 0 <= i < j < |s| ==> s[i] != s[j]
  }

  ghost predicate Valid<V>(d: Dict<V>) {
    Distinct(d.order) && (forall k :: k in d.entries <==> k in d.order)
  }

  function Empty<V>(): (d: Dict<V>)
    ensures Valid(d) && d.entries == map[]
  {
    Dict([], map[])
  }

  /** `d[k] = v`. */
  function Put<V>(d: Dict<V>, k: string, v: V): (r: Dict<V>)
    requires Valid(d)
    ensures Valid(r)
    ensures r.entries == d.entries[k := v]
    ensures r.order == if k in d.entries then d.order else d.order + [k]
  {
    if k in d.entries then d.(entries := d.entries[k := v])
    else Dict(d.order + [k], d.entries[k := v])
  }

  /** `list(d.values())`. */
  function Values<V>(d: Dict<V>): (vs: seq<V>)
    requires Valid(d)
    ensures |vs| == |d.order|
    ensures forall i :: 0 <= i < |d.order| ==> d.order[i] in d.entries && vs[i] == d.entries[d.order[i]]
  {
    seq(|d.order|, i requires 0 <= i < |d.order| => d.entries[d.order[i]])
  }

  /** Every value of a valid dictionary is listed by `.values()`. */
  lemma ValuesListsEveryEntry<V>(d: Dict<V>, k: string)
    requires Valid(d) && k in d.entries
    ensures d.entries[k] in Values(d)
  {
    var i :| 0 <= i < |d.order| && d.order[i] == k;
    assert Values(d)[i] == d.entries[k];
  }

  /** `for x in xs: d[key(x)] = val(x)`, starting from `{}`. */
  function PutAll<T, V>(xs: seq<T>, key: T -> string, val: T -> V): (d: Dict<V>)
    ensures Valid(d)
    decreases |xs|
  {
    if |xs| == 0 then Empty()
    else Put(PutAll(xs[..|xs| - 1], key, val), key(xs[|xs| - 1]), val(xs[|xs| - 1]))
  }

  /** The entries of `PutAll`, as a plain fold of map updates. */
  function EntriesOf<T, V>(xs: seq<T>, key: T -> string, val: T -> V): map<string, V>
    decreases |xs|
  {
    if |xs| == 0 then map[]
    else EntriesOf(xs[..|xs| - 1], key, val)[key(xs[|xs| - 1]) := val(xs[|xs| - 1])]
  }

  lemma {:induction false} PutAllEntries<T, V>(xs: seq<T>, key: T -> string, val: T -> V)
    ensures PutAll(xs, key, val).entries == EntriesOf(xs, key, val)
    decreases |xs|
  {
    if |xs| > 0 {
      PutAllEntries(xs[..|xs| - 1], key, val);
    }
  }

  lemma {:induction false} EntriesKeys<T, V>(xs: seq<T>, key: T -> string, val: T -> V, k: string)
    ensures k in EntriesOf(xs, key, val) <==> exists i :: 0 <= i < |xs| && key(xs[i]) == k
    decreases |xs|
  {
    if |xs| > 0 {
      var init, last := xs[..|xs| - 1], xs[|xs| - 1];
      EntriesKeys(init, key, val, k);
      if k in EntriesOf(xs, key, val) && k != key(last) {
        var i :| 0 <= i < |init| && key(init[i]) == k;
        assert init[i] == xs[i];
      }
      if exists i :: 0 <= i < |xs| && key(xs[i]) == k {
        var i :| 0 <= i < |xs| && key(xs[i]) == k;
        if i < |init| {
          assert init[i] == xs[i];
        }
      }
    }
  }

  /** The keys are exactly the keys of the elements seen. */
  lemma PutAllKeys<T, V>(xs: seq<T>, key: T -> string, val: T -> V, k: string)
    ensures k in PutAll(xs, key, val).entries <==> exists i :: 0 <= i < |xs| && key(xs[i]) == k
  {
    PutAllEntries(xs, key, val);
    EntriesKeys(xs, key, val, k);
  }

  lemma {:induction false} EntriesLastWins<T, V>(xs: seq<T>, key: T -> string, val: T -> V, i: nat)
    requires i < |xs|
    requires forall j :: i < j < |xs| ==> key(xs[j]) != key(xs[i])
    ensures key(xs[i]) in EntriesOf(xs, key, val) && EntriesOf(xs, key, val)[key(xs[i])] == val(xs[i])
    decreases |xs|
  {
    if i < |xs| - 1 {
      var init := xs[..|xs| - 1];
      assert forall j :: 0 <= j < |init| ==> init[j] == xs[j];
      EntriesLastWins(init, key, val, i);
    }
  }

  /** Every value is the value of the last element with that key. */
  lemma PutAllLastWins<T, V>(xs: seq<T>, key: T -> string, val: T -> V, i: nat)
    requires i < |xs|
    requires forall j :: i < j < |xs| ==> key(xs[j]) != key(xs[i])
    ensures key(xs[i]) in PutAll(xs, key, val).entries
    ensures PutAll(xs, key, val).entries[key(xs[i])] == val(xs[i])
  {
    PutAllEntries(xs, key, val);
    EntriesLastWins(xs, key, val, i);
  }

  /** xs[i] is the last element whose key is k. */
  predicate LastWithKey<T>(xs: seq<T>, key: T -> string, k: string, i: nat) {
    i < |xs| && key(xs[i]) == k && forall j :: i < j < |xs| ==> key(xs[j]) != k
  }

  lemma {:induction false} EntriesValues<T, V>(xs: seq<T>, key: T -> string, val: T -> V, k: string)
    requires k in EntriesOf(xs, key, val)
    ensures exists i: nat :: LastWithKey(xs, key, k, i) && EntriesOf(xs, key, val)[k] == val(xs[i])
    decreases |xs|
  {
    var n := |xs|;
    var init, last := xs[..n - 1], xs[n - 1];
    if key(last) == k {
      assert LastWithKey(xs, key, k, n - 1);
    } else {
      EntriesValues(init, key, val, k);
      var i: nat :| LastWithKey(init, key, k, i) && EntriesOf(init, key, val)[k] == val(init[i]);
      assert xs == init + [last];
      LastWithKeySnoc(init, last, key, k, i);
    }
  }

  /** Every stored value comes from the last element with that key. */
  lemma PutAllValues<T, V>(xs: seq<T>, key: T -> string, val: T -> V, k: string)
    requires k in PutAll(xs, key, val).entries
    ensures exists i: nat :: LastWithKey(xs, key, k, i) && PutAll(xs, key, val).entries[k] == val(xs[i])
  {
    PutAllEntries(xs, key, val);
    EntriesValues(xs, key, val, k);
  }

  lemma LastWithKeySnoc<T>(init: seq<T>, last: T, key: T -> string, k: string, i: nat)
    requires LastWithKey(init, key, k, i) && key(last) != k
    ensures LastWithKey(init + [last], key, k, i) && (init + [last])[i] == init[i]
  {
    var xs := init + [last];
    forall j | i < j < |xs|
      ensures key(xs[j]) != k
    {
      if j < |init| {
        assert xs[j] == init[j];
      }
    }
  }
}
