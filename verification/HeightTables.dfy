/**
 Tables whose entries carry the height at which they were added, with an index
 by height through which a reorganisation removes entries.
 */
module HeightTables {
  import opened Results

  datatype Entry<V> = Entry(height: nat, value: V)

  /** The entries below a height. */
  function Below<K, V>(entries: map<K, Entry<V>>, height: nat): map<K, Entry<V>> {
    map k | k in entries && entries[k].height < height :: entries[k]
  }

  ghost predicate AllBelow<K, V>(entries: map<K, Entry<V>>, height: nat) {
    forall k :: k in entries ==> entries[k].height < height
  }

  /** The entries of `after` are those of `before` and new ones of one height. */
  ghost predicate Extends<K, V>(before: map<K, Entry<V>>, after: map<K, Entry<V>>, height: nat) {
    && (forall k :: k in before ==> k in after && after[k] == before[k])
    && (forall k :: k in after && k !in before ==> after[k].height == height)
  }

  /** Entries added at a height are removed again from that height on, and no others. */
  lemma BelowUndoes<K, V>(before: map<K, Entry<V>>, after: map<K, Entry<V>>, height: nat)
    requires AllBelow(before, height) && Extends(before, after, height)
    ensures Below(after, height) == before && AllBelow(after, height + 1)
  {}

  // ---------- adding several entries ----------

  predicate Distinct<K(==)>(keys: seq<K>) {
    forall i, j :: 0 <= i < j < |keys| ==> keys[i] != keys[j]
  }

  /** The first n values, stored one after the other under their keys. */
  function AddAll<K, V>(entries: map<K, Entry<V>>, keys: seq<K>, values: seq<V>, height: nat, n: nat): map<K, Entry<V>>
    requires n <= |keys| == |values|
  {
    if n == 0 then entries
    else AddAll(entries, keys, values, height, n - 1)[keys[n - 1] := Entry(height, values[n - 1])]
  }

  /** The first n values are there under their keys, and nothing else has changed. */
  ghost predicate HasAdded<K, V>(before: map<K, Entry<V>>, after: map<K, Entry<V>>, keys: seq<K>, values: seq<V>, height: nat, n: nat)
    requires n <= |keys| == |values|
  {
    && (forall i :: 0 <= i < n ==> keys[i] in after && after[keys[i]] == Entry(height, values[i]))
    && (forall k :: k in before ==> k in after && after[k] == before[k])
    && forall k :: k in after ==> k in before || k in keys[..n]
  }

  lemma AddedNext<K, V>(before: map<K, Entry<V>>, after: map<K, Entry<V>>, keys: seq<K>, values: seq<V>, height: nat, n: nat)
    requires n < |keys| == |values| && Distinct(keys) && HasAdded(before, after, keys, values, height, n) && keys[n] !in before
    ensures HasAdded(before, after[keys[n] := Entry(height, values[n])], keys, values, height, n + 1)
  {
    assert keys[..n + 1] == keys[..n] + [keys[n]];
  }

  /** New distinct keys get exactly their values. */
  lemma {:induction false} AllAdded<K, V>(entries: map<K, Entry<V>>, keys: seq<K>, values: seq<V>, height: nat, n: nat)
    requires n <= |keys| == |values| && Distinct(keys) && forall i :: 0 <= i < |keys| ==> keys[i] !in entries
    ensures HasAdded(entries, AddAll(entries, keys, values, height, n), keys, values, height, n)
    decreases n
  {
    if n == 0 {
      NoneAdded(entries, keys, values, height);
    } else {
      var mid := AddAll(entries, keys, values, height, n - 1);
      AllAdded(entries, keys, values, height, n - 1);
      AddedNext(entries, mid, keys, values, height, n - 1);
    }
  }

  lemma NoneAdded<K, V>(entries: map<K, Entry<V>>, keys: seq<K>, values: seq<V>, height: nat)
    requires |keys| == |values|
    ensures HasAdded(entries, entries, keys, values, height, 0)
  {}

  lemma AddedExtends<K, V>(before: map<K, Entry<V>>, after: map<K, Entry<V>>, keys: seq<K>, values: seq<V>, height: nat)
    requires |keys| == |values| && HasAdded(before, after, keys, values, height, |keys|)
    ensures Extends(before, after, height)
  {
    forall k | k in after && k !in before ensures after[k].height == height {
      assert k in keys[..|keys|];
    }
  }

  // ---------- the stored form ----------

  /** A stored table: the entries and the index from heights to keys. */
  datatype Table<!K(==), V> = Table(entries: map<K, Entry<V>>, index: set<(nat, K)>) {
    ghost predicate Valid() {
      && (forall p :: p in index ==> p.1 in entries && entries[p.1].height == p.0)
      && forall k :: k in entries ==> (entries[k].height, k) in index
    }
  }

  /** A key that exists already is an error. */
  method Add<K(==), V>(t: Table<K, V>, key: K, height: nat, value: V) returns (r: Result<Table<K, V>>)
    requires t.Valid()
    ensures r.Ok? <==> key !in t.entries
    ensures r.Ok? ==> r.value.Valid() && r.value.entries == t.entries[key := Entry(height, value)]
  {
    if key in t.entries {
      return Err("already exists");
    }
    return Ok(Table(t.entries[key := Entry(height, value)], t.index + {(height, key)}));
  }

  /** The index is walked from a height on; each pair found is deleted with its entry. */
  method RemoveFrom<K(==), V>(t: Table<K, V>, height: nat) returns (r: Table<K, V>)
    requires t.Valid()
    ensures r.Valid() && r.entries == Below(t.entries, height)
  {
    r := t;
    var left := set p | p in t.index && p.0 >= height;
    while left != {}
      invariant r.Valid()
      invariant left == set p | p in r.index && p.0 >= height
      invariant forall k :: k in r.entries ==> k in t.entries && r.entries[k] == t.entries[k]
      invariant forall k :: k in t.entries && t.entries[k].height < height ==> k in r.entries
      decreases |left|
    {
      var p :| p in left;
      r := Table(r.entries - {p.1}, r.index - {p});
      left := left - {p};
    }
    forall k | k in r.entries ensures r.entries[k].height < height {
      assert (r.entries[k].height, k) in r.index;
      assert (r.entries[k].height, k) !in left;
    }
  }

  /** Several entries; the first key that exists already is an error. */
  method AddEach<K(==), V>(t: Table<K, V>, keys: seq<K>, values: seq<V>, height: nat) returns (r: Result<Table<K, V>>)
    requires t.Valid() && |keys| == |values| && forall i :: 0 <= i < |keys| ==> keys[i] !in t.entries
    ensures r.Ok? <==> Distinct(keys)
    ensures r.Ok? ==> r.value.Valid() && r.value.entries == AddAll(t.entries, keys, values, height, |keys|)
  {
    var table := t;
    for n := 0 to |keys|
      invariant table.Valid() && Distinct(keys[..n])
      invariant table.entries == AddAll(t.entries, keys, values, height, n)
      invariant forall k :: k in table.entries <==> k in t.entries || k in keys[..n]
    {
      assert keys[..n + 1] == keys[..n] + [keys[n]];
      var added := Add(table, keys[n], height, values[n]);
      if added.Err? {
        var i :| 0 <= i < n && keys[i] == keys[n];
        return Err(added.error);
      }
      table := added.value;
    }
    assert keys[..|keys|] == keys;
    return Ok(table);
  }
}
