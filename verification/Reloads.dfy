/**
 Loading the registry from the table of records: the order of enumeration does
 not matter, what is loaded is what is stored, and exactly which accepted
 issuances can be loaded again.
 */
module Reloads {
  import opened Results
  import opened Hashes
  import opened Sorting
  import opened HeightTables
  import opened Folds
  import opened Registries

  type Records = map<Hash, Entry<Bytes>>

  function StoredAt(records: Records, id: Hash): Stored
    requires id in records
  {
    Stored(id, records[id].height, records[id].value)
  }

  /** The list has every record once, in some order. */
  ghost predicate Lists(listing: seq<Stored>, records: Records) {
    && (forall s :: s in listing <==> s.id in records && s == StoredAt(records, s.id))
    && forall i, j :: 0 <= i < j < |listing| ==> listing[i] != listing[j]
  }

  method Enumerate(records: Records) returns (listing: seq<Stored>)
    ensures Lists(listing, records)
  {
    listing := [];
    var left := records.Keys;
    ghost var done: set<Hash> := {};
    while left != {}
      invariant left + done == records.Keys && left !! done
      invariant forall s :: s in listing <==> s.id in done && s == StoredAt(records, s.id)
      invariant forall i, j :: 0 <= i < j < |listing| ==> listing[i] != listing[j]
      decreases |left|
    {
      var id :| id in left;
      listing := listing + [StoredAt(records, id)];
      left, done := left - {id}, done + {id};
    }
  }

  /** Some list of the records. */
  ghost function Listing(records: Records): (listing: seq<Stored>)
    ensures Lists(listing, records)
    decreases |records|
  {
    if records == map[] then []
    else
      var id :| id in records;
      ListingNext(records, id, Listing(records - {id}));
      Listing(records - {id}) + [StoredAt(records, id)]
  }

  lemma ListingNext(records: Records, id: Hash, listing: seq<Stored>)
    requires id in records && Lists(listing, records - {id})
    ensures Lists(listing + [StoredAt(records, id)], records)
  {}

  lemma ListsTotal(listing: seq<Stored>, records: Records)
    requires Lists(listing, records)
    ensures TotalOn(BEFORE, listing)
  {
    forall i, j | 0 <= i < j < |listing| ensures BEFORE(listing[i], listing[j]) || BEFORE(listing[j], listing[i]) {
      assert listing[i] in listing && listing[j] in listing;
      BeforeTotal(listing[i], listing[j]);
    }
  }

  /** The outcome of loading depends only on the stored records, not on the order they are enumerated in. */
  lemma OrderIrrelevant(rules: Issuing, network: Network, s: seq<Stored>, t: seq<Stored>, records: Records)
    requires Lists(s, records) && Lists(t, records)
    ensures SortOf(BEFORE, s) == SortOf(BEFORE, t)
    ensures Load(rules, network, s) == Load(rules, network, t)
  {
    BeforeStrict();
    ListsTotal(s, records);
    ListsTotal(t, records);
    SortUnique(BEFORE, s, t);
  }

  /** The registry that stored records make. */
  ghost function LoadRecords(rules: Issuing, network: Network, records: Records): Option<Registry> {
    Load(rules, network, Listing(records))
  }

  // ---------- what is loaded is what is stored ----------

  /** The registry has exactly the listed records. */
  ghost predicate Holds(rules: Issuing, registry: Registry, listing: seq<Stored>) {
    && (forall s :: s in listing ==>
          (s.id in registry && registry[s.id].height == s.height
           && rules.decode(s.payload) == Some(registry[s.id].issuance)))
    && forall id :: id in registry ==> exists s :: s in listing && s.id == id
  }

  lemma HoldsNext(rules: Issuing, network: Network, registry: Registry, listing: seq<Stored>, s: Stored)
    requires Holds(rules, registry, listing) && LoadOne(rules, network, registry, s).Some?
    ensures Holds(rules, LoadOne(rules, network, registry, s).value, listing + [s])
  {
    var next, more := LoadOne(rules, network, registry, s).value, listing + [s];
    forall id | id in next ensures exists t :: t in more && t.id == id {
      if id == s.id {
        assert s in more;
      } else {
        var t :| t in listing && t.id == id;
        assert t in more;
      }
    }
  }

  lemma {:induction false} LoadHolds(rules: Issuing, network: Network, listing: seq<Stored>)
    requires Fold(Loading(rules, network), EMPTY, listing).Some?
    ensures Holds(rules, Fold(Loading(rules, network), EMPTY, listing).value, listing)
    decreases |listing|
  {
    if listing != [] {
      var k := |listing| - 1;
      LoadHolds(rules, network, listing[..k]);
      HoldsNext(rules, network, Fold(Loading(rules, network), EMPTY, listing[..k]).value, listing[..k], listing[k]);
      assert listing == listing[..k] + [listing[k]];
    }
  }

  lemma SortLists(listing: seq<Stored>, records: Records)
    requires Lists(listing, records)
    ensures forall s :: s in SortOf(BEFORE, listing) <==> s.id in records && s == StoredAt(records, s.id)
    ensures Sorted(BEFORE, SortOf(BEFORE, listing))
  {
    BeforeStrict();
    ListsTotal(listing, records);
    SortSorts(BEFORE, listing);
    forall s ensures s in SortOf(BEFORE, listing) <==> s in listing {
      SortElements(BEFORE, listing, s);
    }
  }

  /** A loaded registry has the stored ids, each with its stored height and issuance. */
  lemma LoadedIsStored(rules: Issuing, network: Network, records: Records)
    requires LoadRecords(rules, network, records).Some?
    ensures var registry := LoadRecords(rules, network, records).value;
      && registry.Keys == records.Keys
      && forall id :: id in records ==>
           registry[id].height == records[id].height && rules.decode(records[id].value) == Some(registry[id].issuance)
  {
    var sorted := SortOf(BEFORE, Listing(records));
    var registry := LoadRecords(rules, network, records).value;
    SortLists(Listing(records), records);
    LoadHolds(rules, network, sorted);
    forall id | id in records ensures id in registry && registry[id].height == records[id].height
                                   && rules.decode(records[id].value) == Some(registry[id].issuance) {
      assert StoredAt(records, id) in sorted;
    }
  }

  // ---------- everything loaded is signed ----------

  /**
   A record is filed under its derived id, of the network and signed by its issuer; a collection it claims is in the
   registry, is a collection of the network, not younger, and its issuer signed for the record.
   */
  ghost predicate SignedRecord(rules: Issuing, network: Network, registry: Registry, id: Hash)
    requires id in registry
  {
    var i, height := registry[id].issuance, registry[id].height;
    && rules.assetId(i.descriptor) == Some(id) && i.descriptor.network == network
    && rules.issuerSigned(i.descriptor, i.signature)
    && (i.descriptor.collection.None? ==> i.membership.None?)
    && (i.descriptor.collection.Some? ==>
          var c := i.descriptor.collection.value;
          && c in registry && registry[c].issuance.descriptor.kind == Collection
          && registry[c].issuance.descriptor.network == network && registry[c].height <= height
          && i.membership.Some?
          && rules.memberSigned(c, id, registry[c].issuance.descriptor.issuer, i.membership.value))
  }

  ghost predicate AllSigned(rules: Issuing, network: Network, registry: Registry) {
    forall id :: id in registry ==> SignedRecord(rules, network, registry, id)
  }

  lemma SignedNext(rules: Issuing, network: Network, registry: Registry, s: Stored, next: Registry)
    requires AllSigned(rules, network, registry) && LoadOne(rules, network, registry, s) == Some(next)
    ensures AllSigned(rules, network, next)
  {
    forall id | id in next ensures SignedRecord(rules, network, next, id) {
      assert id != s.id ==> SignedRecord(rules, network, registry, id);
    }
  }

  lemma {:induction false} LoadSigned(rules: Issuing, network: Network, listing: seq<Stored>)
    requires Fold(Loading(rules, network), EMPTY, listing).Some?
    ensures AllSigned(rules, network, Fold(Loading(rules, network), EMPTY, listing).value)
    decreases |listing|
  {
    if listing != [] {
      var k := |listing| - 1;
      LoadSigned(rules, network, listing[..k]);
      SignedNext(rules, network, Fold(Loading(rules, network), EMPTY, listing[..k]).value, listing[k],
                 Fold(Loading(rules, network), EMPTY, listing).value);
    }
  }

  /** Every record of a loaded registry is signed by its issuer, and for its collection. */
  lemma LoadedIsSigned(rules: Issuing, network: Network, records: Records)
    requires LoadRecords(rules, network, records).Some?
    ensures AllSigned(rules, network, LoadRecords(rules, network, records).value)
  {
    LoadSigned(rules, network, SortOf(BEFORE, Listing(records)));
  }

  // ---------- loading again after an issuance ----------

  lemma LoadOneWith(rules: Issuing, network: Network, r: Registry, s: Stored, id: Hash, extra: Record)
    requires LoadOne(rules, network, r, s).Some? && id !in r && s.id != id
    ensures LoadOne(rules, network, r[id := extra], s) == Some(LoadOne(rules, network, r, s).value[id := extra])
  {
    var i := rules.decode(s.payload).value;
    assert r[id := extra][s.id := Record(i, s.height)] == r[s.id := Record(i, s.height)][id := extra];
  }

  /** A record under another id does not disturb the loading of others. */
  lemma {:induction false} LoadWith(rules: Issuing, network: Network, r: Registry, ys: seq<Stored>, id: Hash, extra: Record)
    requires Fold(Loading(rules, network), r, ys).Some? && id !in r && forall s :: s in ys ==> s.id != id
    ensures id !in Fold(Loading(rules, network), r, ys).value
    ensures Fold(Loading(rules, network), r[id := extra], ys)
         == Some(Fold(Loading(rules, network), r, ys).value[id := extra])
    decreases |ys|
  {
    if ys != [] {
      var k := |ys| - 1;
      assert ys[k] in ys;
      LoadWith(rules, network, r, ys[..k], id, extra);
      LoadOneWith(rules, network, Fold(Loading(rules, network), r, ys[..k]).value, ys[k], id, extra);
    }
  }

  /** The stored form of an accepted issuance. */
  function NewRecord(rules: Issuing, i: Issuance, id: Hash, height: nat): Stored
    requires rules.encode(i).Some?
  {
    Stored(id, height, rules.encode(i).value)
  }

  /** The network is the expected one, and a claimed collection comes before in the order of loading. */
  ghost predicate Reloadable(rules: Issuing, network: Network, records: Records, i: Issuance, x: Stored) {
    && i.descriptor.network == network
    && match i.descriptor.collection
       case None => true
       case Some(c) => c in records && Before(StoredAt(records, c), x)
  }

  /** The stored records in the order of loading. */
  ghost predicate InOrder(sorted: seq<Stored>, records: Records) {
    && Sorted(BEFORE, sorted)
    && forall s :: s in sorted <==> s.id in records && s == StoredAt(records, s.id)
  }

  lemma {:induction false} InsertInOrder(sorted: seq<Stored>, records: Records, x: Stored)
    requires InOrder(sorted, records) && x.id !in records
    ensures InOrder(Insert(BEFORE, x, sorted), records[x.id := Entry(x.height, x.payload)])
  {
    BeforeStrict();
    forall k | 0 <= k < |sorted| ensures BEFORE(x, sorted[k]) || BEFORE(sorted[k], x) {
      assert sorted[k] in sorted;
      BeforeTotal(x, sorted[k]);
    }
    InsertSorted(BEFORE, x, sorted);
    forall s ensures s in Insert(BEFORE, x, sorted) <==> s == x || s in sorted {
      InsertElements(BEFORE, x, sorted, s);
    }
  }

  lemma SortIs(sorted: seq<Stored>, records: Records)
    requires InOrder(sorted, records)
    ensures SortOf(BEFORE, Listing(records)) == sorted
  {
    BeforeStrict();
    SortLists(Listing(records), records);
    SortedUnique(BEFORE, SortOf(BEFORE, Listing(records)), sorted);
  }

  /** The records before the place of a new one are those that sort before it. */
  lemma BeforePlace(sorted: seq<Stored>, records: Records, x: Stored, id: Hash)
    requires InOrder(sorted, records) && x.id !in records && id in records
    ensures StoredAt(records, id) in sorted[..Place(BEFORE, x, sorted)] <==> Before(StoredAt(records, id), x)
  {
    var p, s := Place(BEFORE, x, sorted), StoredAt(records, id);
    assert s in sorted;
    var k :| 0 <= k < |sorted| && sorted[k] == s;
    if k < p {
      assert sorted[..p][k] == s && !BEFORE(x, sorted[k]);
      BeforeTotal(x, s);
    } else {
      NotEarlier(sorted, p, k);
      FollowsPlace(sorted, x, p, k);
      BeforeAsymmetric(x, s);
    }
  }

  lemma FollowsPlace(sorted: seq<Stored>, x: Stored, p: nat, k: nat)
    requires Sorted(BEFORE, sorted) && p <= k < |sorted| && Before(x, sorted[p])
    ensures Before(x, sorted[k])
  {
    if k > p {
      assert BEFORE(sorted[p], sorted[k]);
      BeforeTransitive(x, sorted[p], sorted[k]);
    }
  }

  lemma NotEarlier(sorted: seq<Stored>, p: nat, k: nat)
    requires Sorted(BEFORE, sorted) && p <= k < |sorted|
    ensures sorted[k] !in sorted[..p]
  {
    BeforeStrict();
    forall j | 0 <= j < p ensures sorted[..p][j] != sorted[k] {
      assert BEFORE(sorted[j], sorted[k]);
    }
  }

  /** Issuing on a part of a registry that has the claimed collection, or on the whole, is the same. */
  lemma IssueOnPart(rules: Issuing, whole: Registry, part: Registry, i: Issuance, height: nat)
    requires Issue(rules, whole, i, height).Some?
    requires forall id :: id in part ==> id in whole && part[id] == whole[id]
    ensures Issue(rules, part, i, height) ==
      if i.descriptor.collection.Some? && i.descriptor.collection.value !in part then None
      else Issue(rules, whole, i, height)
  {}

  /** The registry loaded from the first p records. */
  lemma PrefixLoads(rules: Issuing, network: Network, sorted: seq<Stored>, p: nat) returns (part: Registry)
    requires p <= |sorted| && Fold(Loading(rules, network), EMPTY, sorted).Some?
    ensures Fold(Loading(rules, network), EMPTY, sorted[..p]) == Some(part)
    ensures Fold(Loading(rules, network), part, sorted[p..]) == Fold(Loading(rules, network), EMPTY, sorted)
    ensures Holds(rules, part, sorted[..p])
  {
    assert sorted == sorted[..p] + sorted[p..];
    FoldConcat(Loading(rules, network), EMPTY, sorted[..p], sorted[p..]);
    LoadHolds(rules, network, sorted[..p]);
    part := Fold(Loading(rules, network), EMPTY, sorted[..p]).value;
  }

  lemma PartOfWhole(rules: Issuing, part: Registry, whole: Registry, sorted: seq<Stored>, p: nat)
    requires p <= |sorted| && Holds(rules, part, sorted[..p]) && Holds(rules, whole, sorted)
    ensures forall id :: id in part ==> id in whole && part[id] == whole[id]
  {
    forall id | id in part ensures id in whole && part[id] == whole[id] {
      var s :| s in sorted[..p] && s.id == id;
      assert s in sorted;
    }
  }

  /** A collection is in the first part exactly if it sorts before the new record. */
  lemma InPart(rules: Issuing, part: Registry, sorted: seq<Stored>, records: Records, x: Stored, c: Hash)
    requires InOrder(sorted, records) && x.id !in records && c in records
    requires Holds(rules, part, sorted[..Place(BEFORE, x, sorted)])
    ensures c in part <==> Before(StoredAt(records, c), x)
  {
    var p := Place(BEFORE, x, sorted);
    BeforePlace(sorted, records, x, c);
    if c in part {
      var s :| s in sorted[..p] && s.id == c;
      assert s in sorted;
    }
  }

  /** Loading with the new record inserted: up to it, itself, and the rest as before. */
  lemma LoadInserted(rules: Issuing, network: Network, sorted: seq<Stored>, x: Stored, part: Registry, whole: Registry)
    requires Fold(Loading(rules, network), EMPTY, sorted[..Place(BEFORE, x, sorted)]) == Some(part)
    requires Fold(Loading(rules, network), part, sorted[Place(BEFORE, x, sorted)..]) == Some(whole)
    requires x.id !in part && forall s :: s in sorted ==> s.id != x.id
    ensures var one, all := LoadOne(rules, network, part, x), Fold(Loading(rules, network), EMPTY, Insert(BEFORE, x, sorted));
      if one.None? then all.None? else all == Some(whole[x.id := one.value[x.id]])
  {
    var step, p := Loading(rules, network), Place(BEFORE, x, sorted);
    var one := LoadOne(rules, network, part, x);
    InsertAt(BEFORE, x, sorted);
    FoldConcat(step, EMPTY, sorted[..p] + [x], sorted[p..]);
    FoldConcat(step, EMPTY, sorted[..p], [x]);
    FoldOne(step, part, x);
    if one.Some? {
      assert one.value == part[x.id := one.value[x.id]];
      LoadWith(rules, network, part, sorted[p..], x.id, one.value[x.id]);
    }
  }

  lemma FoldOne<R, S>(step: (R, S) -> Option<R>, r: R, x: S)
    ensures Fold(step, r, [x]) == step(r, x)
  {
    assert [x][..0] == [];
  }

  lemma LoadNew(rules: Issuing, network: Network, whole: Registry, part: Registry, i: Issuance, x: Stored)
    requires Issue(rules, whole, i, x.height) == Some(x.id) && rules.decode(x.payload) == Some(i)
    requires forall id :: id in part ==> id in whole && part[id] == whole[id]
    ensures var fits := i.descriptor.network == network
        && (i.descriptor.collection.Some? ==> i.descriptor.collection.value in part);
      LoadOne(rules, network, part, x) == if fits then Some(part[x.id := Record(i, x.height)]) else None
  {
    IssueOnPart(rules, whole, part, i, x.height);
  }

  lemma ReloadInOrder(rules: Issuing, network: Network, records: Records, sorted: seq<Stored>, whole: Registry,
                      i: Issuance, x: Stored)
    requires InOrder(sorted, records) && Fold(Loading(rules, network), EMPTY, sorted) == Some(whole)
    requires whole.Keys == records.Keys
    requires Issue(rules, whole, i, x.height) == Some(x.id) && rules.decode(x.payload) == Some(i)
    ensures Fold(Loading(rules, network), EMPTY, Insert(BEFORE, x, sorted))
         == if Reloadable(rules, network, records, i, x) then Some(whole[x.id := Record(i, x.height)]) else None
  {
    var p := Place(BEFORE, x, sorted);
    var part := PrefixLoads(rules, network, sorted, p);
    LoadHolds(rules, network, sorted);
    PartOfWhole(rules, part, whole, sorted, p);
    LoadNew(rules, network, whole, part, i, x);
    if i.descriptor.collection.Some? {
      InPart(rules, part, sorted, records, x, i.descriptor.collection.value);
    }
    LoadInserted(rules, network, sorted, x, part, whole);
  }

  /**
   After an accepted issuance is stored, the records load again exactly if it is of the expected network and a
   collection it claims sorts before it; the registry is then the one the issuance was applied to, with it added.
   */
  lemma ReloadIff(rules: Issuing, network: Network, records: Records, registry: Registry, i: Issuance, height: nat, id: Hash)
    requires Faithful(rules) && LoadRecords(rules, network, records) == Some(registry)
    requires Issue(rules, registry, i, height) == Some(id) && rules.encode(i).Some?
    ensures var x := NewRecord(rules, i, id, height);
      LoadRecords(rules, network, records[id := Entry(height, x.payload)])
      == if Reloadable(rules, network, records, i, x) then Some(registry[id := Record(i, height)]) else None
  {
    var x, sorted := NewRecord(rules, i, id, height), SortOf(BEFORE, Listing(records));
    SortLists(Listing(records), records);
    LoadedIsStored(rules, network, records);
    ReloadInOrder(rules, network, records, sorted, registry, i, x);
    InsertInOrder(sorted, records, x);
    SortIs(Insert(BEFORE, x, sorted), records[id := Entry(height, x.payload)]);
  }

  /** Above all stored heights, a claimed collection always sorts before. */
  lemma ReloadLater(rules: Issuing, network: Network, records: Records, registry: Registry, i: Issuance, height: nat, id: Hash)
    requires Faithful(rules) && LoadRecords(rules, network, records) == Some(registry) && AllBelow(records, height)
    requires Issue(rules, registry, i, height) == Some(id) && rules.encode(i).Some? && i.descriptor.network == network
    ensures LoadRecords(rules, network, records[id := Entry(height, NewRecord(rules, i, id, height).payload)])
         == Some(registry[id := Record(i, height)])
  {
    LoadedIsStored(rules, network, records);
    ReloadIff(rules, network, records, registry, i, height, id);
  }

  // ---------- a collection and its member at one height ----------

  function Only(b: byte): Hash {
    [b] + Zeros(31)
  }

  function ToyCollection(): Issuance {
    Issuance(1, Descriptor(Mainnet, Collection, Only(0), None, []), Signature([]), None)
  }

  function ToyMember(): Issuance {
    Issuance(1, Descriptor(Mainnet, NonFungible, Only(0), Some(Only(2)), []), Signature([]), Some(Signature([])))
  }

  /** Two issuances only, with ids 2 and 1, both properly signed. */
  function Toy(): Issuing {
    Issuing(
      (d: Descriptor) => if d == ToyCollection().descriptor then Some(Only(2))
                         else if d == ToyMember().descriptor then Some(Only(1)) else None,
      (d, s) => true,
      (c, m, k, s) => true,
      (i: Issuance) => if i == ToyCollection() then Some([0]) else if i == ToyMember() then Some([1]) else None,
      (b: Bytes) => if b == [0] then Some(ToyCollection()) else if b == [1] then Some(ToyMember()) else None)
  }

  lemma EmptyLoads(rules: Issuing, network: Network)
    ensures LoadRecords(rules, network, map[]) == Some(EMPTY)
  {
    var none: Records := map[];
    assert Listing(none) == [];
  }

  lemma ToyFaithful()
    ensures Faithful(Toy())
  {}

  lemma ToyOrder()
    ensures Only(1) != Only(2) && !Less(Only(2), Only(1))
  {
    assert Only(1)[0] == 1 && Only(2)[0] == 2;
  }

  /** The collection loads, and its member is accepted at the same height. */
  lemma ToyAccepted(height: nat) returns (records: Records, registry: Registry)
    ensures records == map[Only(2) := Entry(height, [0])]
    ensures LoadRecords(Toy(), Mainnet, records) == Some(registry)
    ensures Issue(Toy(), registry, ToyMember(), height) == Some(Only(1))
  {
    ToyFaithful();
    ToyOrder();
    EmptyLoads(Toy(), Mainnet);
    ReloadIff(Toy(), Mainnet, map[], EMPTY, ToyCollection(), height, Only(2));
    records := map[][Only(2) := Entry(height, [0])];
    registry := EMPTY[Only(2) := Record(ToyCollection(), height)];
  }

  /** A member whose id sorts before that of its collection is accepted at the same height, and then nothing loads. */
  lemma SameHeightFails(height: nat) returns (records: Records, registry: Registry)
    ensures LoadRecords(Toy(), Mainnet, records) == Some(registry)
    ensures Issue(Toy(), registry, ToyMember(), height) == Some(Only(1))
    ensures LoadRecords(Toy(), Mainnet, records[Only(1) := Entry(height, [1])]) == None
  {
    records, registry := ToyAccepted(height);
    ToyFaithful();
    ToyOrder();
    ReloadIff(Toy(), Mainnet, records, registry, ToyMember(), height, Only(1));
  }
}
