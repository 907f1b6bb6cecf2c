/**
 The stored outputs of transactions, by amount: adding the outputs of a
 transaction, removing them in reverse order, and exactly when the one undoes
 the other.
 */
module Ledgers {
  import opened Results
  import opened Hashes

  datatype Input = ToKey(image: Hash) | Gen | Unsupported

  /** An output without a key has a target of an unknown kind. */
  datatype Output = Output(amount: nat, key: Option<Hash>)

  datatype Tx = Tx(version: nat, vin: seq<Input>, vout: seq<Output>, unlockTime: nat, masks: seq<Hash>, extra: Bytes)

  datatype Commitment = ZeroCommit(amount: nat) | Mask(key: Hash)

  /** An output in its list by amount: its place in the list, its global id and its data. */
  datatype OutKey = OutKey(index: nat, id: nat, key: Hash, unlockTime: nat, height: nat, commitment: Option<Commitment>)

  type Lists = map<nat, seq<OutKey>>

  /** The outputs by amount, and which output of which transaction has which global id. */
  datatype Outs = Outs(amounts: Lists, origins: map<nat, (Hash, nat)>)

  function ListOf(amounts: Lists, amount: nat): seq<OutKey> {
    if amount in amounts then amounts[amount] else []
  }

  /** A list that becomes empty is gone. */
  function WithList(amounts: Lists, amount: nat, list: seq<OutKey>): Lists {
    if list == [] then amounts - {amount} else amounts[amount := list]
  }

  ghost predicate ValidList(list: seq<OutKey>) {
    list != [] && forall j :: 0 <= j < |list| ==> list[j].index == j
  }

  /** Lists are numbered from zero, and global ids are below their number. */
  ghost predicate Valid(s: Outs) {
    && (forall a :: a in s.amounts ==> ValidList(s.amounts[a]))
    && forall id :: id in s.origins ==> id < |s.origins|
  }

  // ---------- which list an output goes to, and which it is removed from ----------

  predicate IsMiner(tx: Tx) {
    exists i :: 0 <= i < |tx.vin| && tx.vin[i].Gen?
  }

  predicate StoredAtZero(tx: Tx) {
    IsMiner(tx) && tx.version == 2
  }

  predicate RemovedAtZero(tx: Tx) {
    tx.version >= 2 && |tx.vin| == 1 && tx.vin[0].Gen?
  }

  function ListFor(atZero: bool, o: Output): nat {
    if atZero then 0 else o.amount
  }

  /** Every output is removed from the list it was added to. */
  predicate Consistent(tx: Tx) {
    StoredAtZero(tx) == RemovedAtZero(tx) || forall i :: 0 <= i < |tx.vout| ==> tx.vout[i].amount == 0
  }

  // ---------- one output ----------

  function CommitmentOf(tx: Tx, i: nat): Option<Commitment>
    requires i < |tx.vout|
  {
    if StoredAtZero(tx) then Some(ZeroCommit(tx.vout[i].amount))
    else if tx.version > 1 && i < |tx.masks| then Some(Mask(tx.masks[i]))
    else None
  }

  /** What is stored of an output: a key is needed, and a commitment if the amount is hidden. */
  function NewKey(s: Outs, tx: Tx, i: nat, height: nat): Option<OutKey>
    requires i < |tx.vout|
  {
    var amount, commitment := ListFor(StoredAtZero(tx), tx.vout[i]), CommitmentOf(tx, i);
    if tx.vout[i].key.None? || (amount == 0 && commitment.None?) then None
    else
      Some(OutKey(|ListOf(s.amounts, amount)|, |s.origins|, tx.vout[i].key.value, tx.unlockTime, height,
                  if amount == 0 then commitment else None))
  }

  function Push(s: Outs, amount: nat, o: OutKey, origin: (Hash, nat)): Outs {
    Outs(WithList(s.amounts, amount, ListOf(s.amounts, amount) + [o]), s.origins[o.id := origin])
  }

  /** The place of the output with an index in its list. */
  function Find(list: seq<OutKey>, index: nat): (p: nat)
    ensures p <= |list| && (p < |list| ==> list[p].index == index)
    ensures forall j :: 0 <= j < p ==> list[j].index != index
  {
    if list == [] || list[0].index == index then 0 else 1 + Find(list[1..], index)
  }

  function Without<T>(s: seq<T>, p: nat): seq<T>
    requires p < |s|
  {
    s[..p] + s[p + 1..]
  }

  /** Removes an output by amount and index; it must be there, and its origin too. */
  function Remove(s: Outs, amount: nat, index: nat): Option<Outs> {
    var list := ListOf(s.amounts, amount);
    var p := Find(list, index);
    if p == |list| || list[p].id !in s.origins then None
    else Some(Outs(WithList(s.amounts, amount, Without(list, p)), s.origins - {list[p].id}))
  }

  lemma PushValid(s: Outs, amount: nat, o: OutKey, origin: (Hash, nat))
    requires Valid(s) && o.index == |ListOf(s.amounts, amount)| && o.id == |s.origins|
    ensures Valid(Push(s, amount, o, origin))
  {
    assert |s.origins[o.id := origin]| == |s.origins| + 1;
  }

  lemma FindLast(list: seq<OutKey>, o: OutKey)
    requires forall j :: 0 <= j < |list| ==> list[j].index == j
    requires o.index == |list|
    ensures Find(list + [o], o.index) == |list|
  {
    var p := Find(list + [o], o.index);
    assert p < |list| ==> (list + [o])[p].index == p;
    assert (list + [o])[|list|].index == o.index;
  }

  lemma ListBack(amounts: Lists, amount: nat, list: seq<OutKey>, o: OutKey)
    requires list == ListOf(amounts, amount) && (amount in amounts ==> amounts[amount] != [])
    ensures var pushed := WithList(amounts, amount, list + [o]);
      ListOf(pushed, amount) == list + [o] && WithList(pushed, amount, list) == amounts
  {}

  lemma OriginBack(origins: map<nat, (Hash, nat)>, id: nat, origin: (Hash, nat))
    requires id !in origins
    ensures origins[id := origin] - {id} == origins
  {}

  lemma RemoveFound(s: Outs, amount: nat, index: nat, list: seq<OutKey>, p: nat)
    requires list == ListOf(s.amounts, amount) && p == Find(list, index) < |list| && list[p].id in s.origins
    ensures Remove(s, amount, index) == Some(Outs(WithList(s.amounts, amount, Without(list, p)), s.origins - {list[p].id}))
  {}

  /** Removing an output that was just pushed. */
  lemma RemovePushed(s: Outs, amount: nat, o: OutKey, origin: (Hash, nat))
    requires Valid(s) && o.index == |ListOf(s.amounts, amount)| && o.id == |s.origins|
    ensures Remove(Push(s, amount, o, origin), amount, o.index) == Some(s)
  {
    var list := ListOf(s.amounts, amount);
    FindLast(list, o);
    ListBack(s.amounts, amount, list, o);
    OriginBack(s.origins, o.id, origin);
    assert Without(list + [o], |list|) == list;
    RemoveFound(Push(s, amount, o, origin), amount, o.index, list + [o], |list|);
  }

  // ---------- all outputs of a transaction ----------

  datatype Added = Added(outs: Outs, indices: seq<nat>)

  /** The first n outputs added, with their indices in their lists. */
  function AddOuts(s: Outs, hash: Hash, tx: Tx, height: nat, n: nat): (r: Option<Added>)
    requires n <= |tx.vout|
    ensures r.Some? ==> |r.value.indices| == n
  {
    if n == 0 then Some(Added(s, []))
    else
      match AddOuts(s, hash, tx, height, n - 1)
      case None => None
      case Some(a) => AddOut(a, hash, tx, height, n - 1)
  }

  function AddOut(a: Added, hash: Hash, tx: Tx, height: nat, i: nat): Option<Added>
    requires i < |tx.vout|
  {
    match NewKey(a.outs, tx, i, height)
    case None => None
    case Some(o) =>
      Some(Added(Push(a.outs, ListFor(StoredAtZero(tx), tx.vout[i]), o, (hash, i)), a.indices + [o.index]))
  }

  /** The first n outputs removed, the last one first. */
  function RemoveOuts(s: Outs, atZero: bool, vout: seq<Output>, indices: seq<nat>, n: nat): Option<Outs>
    requires n <= |vout| && n <= |indices|
    decreases n
  {
    if n == 0 then Some(s)
    else
      match Remove(s, ListFor(atZero, vout[n - 1]), indices[n - 1])
      case None => None
      case Some(t) => RemoveOuts(t, atZero, vout, indices, n - 1)
  }

  lemma {:induction false} AddOutsValid(s: Outs, hash: Hash, tx: Tx, height: nat, n: nat)
    requires Valid(s) && n <= |tx.vout| && AddOuts(s, hash, tx, height, n).Some?
    ensures Valid(AddOuts(s, hash, tx, height, n).value.outs)
    decreases n
  {
    if n > 0 {
      AddOutsValid(s, hash, tx, height, n - 1);
      var a := AddOuts(s, hash, tx, height, n - 1).value;
      var o := NewKey(a.outs, tx, n - 1, height).value;
      PushValid(a.outs, ListFor(StoredAtZero(tx), tx.vout[n - 1]), o, (hash, n - 1));
    }
  }

  lemma {:induction false} RemoveOutsPrefix(s: Outs, atZero: bool, vout: seq<Output>, a: seq<nat>, b: seq<nat>, n: nat)
    requires n <= |vout| && n <= |a| && n <= |b| && a[..n] == b[..n]
    ensures RemoveOuts(s, atZero, vout, a, n) == RemoveOuts(s, atZero, vout, b, n)
    decreases n
  {
    if n > 0 {
      assert a[..n][n - 1] == b[..n][n - 1];
      assert a[..n - 1] == a[..n][..n - 1] == b[..n][..n - 1] == b[..n - 1];
      var t := Remove(s, ListFor(atZero, vout[n - 1]), a[n - 1]);
      if t.Some? {
        RemoveOutsPrefix(t.value, atZero, vout, a, b, n - 1);
      }
    }
  }

  lemma RemoveOut(a: Added, hash: Hash, tx: Tx, height: nat, i: nat)
    requires Valid(a.outs) && i < |tx.vout| && |a.indices| == i && AddOut(a, hash, tx, height, i).Some?
    ensures var b := AddOut(a, hash, tx, height, i).value;
      && |b.indices| == i + 1 && b.indices[..i] == a.indices
      && Remove(b.outs, ListFor(StoredAtZero(tx), tx.vout[i]), b.indices[i]) == Some(a.outs)
  {
    var o := NewKey(a.outs, tx, i, height).value;
    RemovePushed(a.outs, ListFor(StoredAtZero(tx), tx.vout[i]), o, (hash, i));
  }

  /** Removing from the lists they were added to gives back what was there before. */
  lemma {:induction false} RemoveAdded(s: Outs, hash: Hash, tx: Tx, height: nat, n: nat)
    requires Valid(s) && n <= |tx.vout| && AddOuts(s, hash, tx, height, n).Some?
    ensures var a := AddOuts(s, hash, tx, height, n).value;
      RemoveOuts(a.outs, StoredAtZero(tx), tx.vout, a.indices, n) == Some(s)
    decreases n
  {
    if n > 0 {
      var a, b := AddOuts(s, hash, tx, height, n - 1).value, AddOuts(s, hash, tx, height, n).value;
      AddOutsValid(s, hash, tx, height, n - 1);
      RemoveOut(a, hash, tx, height, n - 1);
      RemoveAdded(s, hash, tx, height, n - 1);
      assert a.indices[..n - 1] == a.indices;
      RemoveOutsPrefix(a.outs, StoredAtZero(tx), tx.vout, a.indices, b.indices, n - 1);
    }
  }

  // ---------- counting the entries of a list ----------

  function Count(atZero: bool, vout: seq<Output>, n: nat): nat
    requires n <= |vout|
  {
    if n == 0 then 0 else Count(atZero, vout, n - 1) + if ListFor(atZero, vout[n - 1]) == 0 then 1 else 0
  }

  function ZeroList(s: Outs): nat {
    |ListOf(s.amounts, 0)|
  }

  lemma {:induction false} AddOutsCount(s: Outs, hash: Hash, tx: Tx, height: nat, n: nat)
    requires n <= |tx.vout| && AddOuts(s, hash, tx, height, n).Some?
    ensures ZeroList(AddOuts(s, hash, tx, height, n).value.outs) == ZeroList(s) + Count(StoredAtZero(tx), tx.vout, n)
    decreases n
  {
    if n > 0 {
      AddOutsCount(s, hash, tx, height, n - 1);
    }
  }

  lemma RemoveCount(s: Outs, amount: nat, index: nat)
    requires Remove(s, amount, index).Some?
    ensures ZeroList(Remove(s, amount, index).value) + (if amount == 0 then 1 else 0) == ZeroList(s)
  {}

  lemma {:induction false} RemoveOutsCount(s: Outs, atZero: bool, vout: seq<Output>, indices: seq<nat>, n: nat)
    requires n <= |vout| && n <= |indices| && RemoveOuts(s, atZero, vout, indices, n).Some?
    ensures ZeroList(RemoveOuts(s, atZero, vout, indices, n).value) + Count(atZero, vout, n) == ZeroList(s)
    decreases n
  {
    if n > 0 {
      RemoveCount(s, ListFor(atZero, vout[n - 1]), indices[n - 1]);
      RemoveOutsCount(Remove(s, ListFor(atZero, vout[n - 1]), indices[n - 1]).value, atZero, vout, indices, n - 1);
    }
  }

  lemma {:induction false} CountAll(vout: seq<Output>, n: nat)
    requires n <= |vout|
    ensures Count(true, vout, n) == n
    ensures Count(false, vout, n) <= n
    ensures Count(false, vout, n) == n ==> forall i :: 0 <= i < n ==> vout[i].amount == 0
    decreases n
  {
    if n > 0 {
      CountAll(vout, n - 1);
    }
  }

  lemma {:induction false} SameLists(vout: seq<Output>, s: Outs, indices: seq<nat>, n: nat)
    requires n <= |vout| && n <= |indices| && forall i :: 0 <= i < |vout| ==> vout[i].amount == 0
    ensures RemoveOuts(s, true, vout, indices, n) == RemoveOuts(s, false, vout, indices, n)
    decreases n
  {
    if n > 0 {
      var t := Remove(s, 0, indices[n - 1]);
      if t.Some? {
        SameLists(vout, t.value, indices, n - 1);
      }
    }
  }

  /** Removal undoes addition exactly if every output is removed from the list it was added to. */
  lemma UndoneIff(s: Outs, hash: Hash, tx: Tx, height: nat)
    requires Valid(s) && AddOuts(s, hash, tx, height, |tx.vout|).Some?
    ensures var a := AddOuts(s, hash, tx, height, |tx.vout|).value;
      RemoveOuts(a.outs, RemovedAtZero(tx), tx.vout, a.indices, |tx.vout|) == Some(s) <==> Consistent(tx)
  {
    var n, a := |tx.vout|, AddOuts(s, hash, tx, height, |tx.vout|).value;
    var removed := RemoveOuts(a.outs, RemovedAtZero(tx), tx.vout, a.indices, n);
    RemoveAdded(s, hash, tx, height, n);
    if Consistent(tx) {
      if StoredAtZero(tx) != RemovedAtZero(tx) {
        SameLists(tx.vout, a.outs, a.indices, n);
      }
    } else if removed.Some? {
      AddOutsCount(s, hash, tx, height, n);
      RemoveOutsCount(a.outs, RemovedAtZero(tx), tx.vout, a.indices, n);
      CountAll(tx.vout, n);
    }
  }

  // ---------- what is stored of every output ----------

  /** Lists and origins have at least what they had, in the same places. */
  ghost predicate Grown(s: Outs, t: Outs) {
    && (forall a :: a in s.amounts ==> a in t.amounts && s.amounts[a] <= t.amounts[a])
    && forall id :: id in s.origins ==> id in t.origins && t.origins[id] == s.origins[id]
  }

  /** The transaction generates coins and hides their amounts. */
  ghost predicate IsCoinbase(tx: Tx) {
    tx.version == 2 && exists j :: 0 <= j < |tx.vin| && tx.vin[j].Gen?
  }

  /** What is committed to for output i in its list. */
  ghost predicate CommitsTo(tx: Tx, i: nat, commitment: Option<Commitment>)
    requires i < |tx.vout|
  {
    if IsCoinbase(tx) then commitment == Some(ZeroCommit(tx.vout[i].amount))
    else if tx.vout[i].amount == 0 then tx.version > 1 && i < |tx.masks| && commitment == Some(Mask(tx.masks[i]))
    else commitment == None
  }

  /**
   Output i of a transaction is at index k of the list of its amount, or of amount zero for a coinbase: with its own
   key and commitment, the transaction's unlock time, the height, and an id whose origin it is.
   */
  ghost predicate IsStored(s: Outs, hash: Hash, tx: Tx, height: nat, i: nat, k: nat)
    requires i < |tx.vout|
  {
    var a := if IsCoinbase(tx) then 0 else tx.vout[i].amount;
    && a in s.amounts && k < |s.amounts[a]|
    && var o := s.amounts[a][k];
       && o.index == k && Some(o.key) == tx.vout[i].key && o.unlockTime == tx.unlockTime && o.height == height
       && CommitsTo(tx, i, o.commitment)
       && o.id in s.origins && s.origins[o.id] == (hash, i)
  }

  lemma GrownTransitive(s: Outs, t: Outs, u: Outs)
    requires Grown(s, t) && Grown(t, u)
    ensures Grown(s, u)
  {}

  lemma StoredStill(s: Outs, t: Outs, hash: Hash, tx: Tx, height: nat, i: nat, k: nat)
    requires Grown(s, t) && i < |tx.vout| && IsStored(s, hash, tx, height, i, k)
    ensures IsStored(t, hash, tx, height, i, k)
  {}

  lemma PushGrows(s: Outs, amount: nat, o: OutKey, origin: (Hash, nat))
    requires Valid(s) && o.id == |s.origins|
    ensures Grown(s, Push(s, amount, o, origin))
  {}

  lemma AddOutStored(a: Added, hash: Hash, tx: Tx, height: nat, i: nat)
    requires Valid(a.outs) && i < |tx.vout| && |a.indices| == i && AddOut(a, hash, tx, height, i).Some?
    ensures var b := AddOut(a, hash, tx, height, i).value;
      && |b.indices| == i + 1 && b.indices[..i] == a.indices
      && Grown(a.outs, b.outs) && IsStored(b.outs, hash, tx, height, i, b.indices[i])
  {
    var o := NewKey(a.outs, tx, i, height).value;
    PushGrows(a.outs, ListFor(StoredAtZero(tx), tx.vout[i]), o, (hash, i));
  }

  /** The first outputs of a transaction are stored under the given indices. */
  ghost predicate AllStored(a: Added, hash: Hash, tx: Tx, height: nat) {
    && |a.indices| <= |tx.vout|
    && forall i :: 0 <= i < |a.indices| ==> IsStored(a.outs, hash, tx, height, i, a.indices[i])
  }

  lemma AllStoredNext(a: Added, b: Added, hash: Hash, tx: Tx, height: nat)
    requires AllStored(a, hash, tx, height) && |a.indices| < |tx.vout| && Grown(a.outs, b.outs)
    requires |b.indices| == |a.indices| + 1 && b.indices[..|a.indices|] == a.indices
    requires IsStored(b.outs, hash, tx, height, |a.indices|, b.indices[|a.indices|])
    ensures AllStored(b, hash, tx, height)
  {
    forall i | 0 <= i < |b.indices| ensures IsStored(b.outs, hash, tx, height, i, b.indices[i]) {
      if i < |a.indices| {
        assert b.indices[..|a.indices|][i] == b.indices[i];
        StoredStill(a.outs, b.outs, hash, tx, height, i, a.indices[i]);
      }
    }
  }

  lemma AddedNext(s: Outs, a: Added, b: Added, hash: Hash, tx: Tx, height: nat, i: nat)
    requires Valid(a.outs) && i < |tx.vout| && |a.indices| == i && AddOut(a, hash, tx, height, i) == Some(b)
    requires Grown(s, a.outs) && AllStored(a, hash, tx, height)
    ensures Grown(s, b.outs) && AllStored(b, hash, tx, height)
  {
    AddOutStored(a, hash, tx, height, i);
    GrownTransitive(s, a.outs, b.outs);
    AllStoredNext(a, b, hash, tx, height);
  }

  lemma GrownReflexive(s: Outs)
    ensures Grown(s, s)
  {}

  /** All outputs of a transaction are stored under the indices that are returned, and nothing stored before changes. */
  lemma {:induction false} AddOutsStored(s: Outs, hash: Hash, tx: Tx, height: nat, n: nat)
    requires Valid(s) && n <= |tx.vout| && AddOuts(s, hash, tx, height, n).Some?
    ensures Grown(s, AddOuts(s, hash, tx, height, n).value.outs)
    ensures AllStored(AddOuts(s, hash, tx, height, n).value, hash, tx, height)
    decreases n
  {
    if n == 0 {
      GrownReflexive(s);
    } else {
      var a := AddOuts(s, hash, tx, height, n - 1).value;
      AddOutsStored(s, hash, tx, height, n - 1);
      AddOutsValid(s, hash, tx, height, n - 1);
      AddedNext(s, a, AddOuts(s, hash, tx, height, n).value, hash, tx, height, n - 1);
    }
  }
}
