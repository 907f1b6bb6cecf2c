/**
 The asset registry: issuances checked one after the other, and the registry
 rebuilt from stored records in the order of height and id.
 */
module Registries {
  import opened Results
  import opened Hashes
  import opened Sorting
  import opened HeightTables
  import opened Folds

  datatype Network = Mainnet | Testnet | Stagenet | Fakechain | Undefined
  datatype AssetClass = Fungible | NonFungible | Collection | Edition
  datatype Signature = Signature(bytes: Bytes)

  /**
   A zero collection id, which means no collection, is None. `terms` stands for
   version, nonce, supply, decimals and metadata.
   */
  datatype Descriptor =
    Descriptor(network: Network, kind: AssetClass, issuer: Hash, collection: Option<Hash>, terms: Bytes)

  datatype Issuance = Issuance(version: nat, descriptor: Descriptor, signature: Signature, membership: Option<Signature>)

  /** The hashing, signatures and serialisation of issuances; `assetId` is absent for invalid descriptors. */
  datatype Issuing = Issuing(
    assetId: Descriptor -> Option<Hash>,
    issuerSigned: (Descriptor, Signature) -> bool,
    memberSigned: (Hash, Hash, Hash, Signature) -> bool,
    encode: Issuance -> Option<Bytes>,
    decode: Bytes -> Option<Issuance>)

  /** What is encoded decodes to the same issuance. */
  ghost predicate Faithful(rules: Issuing) {
    forall i :: rules.encode(i).Some? ==> rules.decode(rules.encode(i).value) == Some(i)
  }

  datatype Record = Record(issuance: Issuance, height: nat)
  type Registry = map<Hash, Record>

  /** A claimed collection is known, not younger, of the same network, and its issuer signed; no claim has no signature. */
  predicate MembershipOk(rules: Issuing, registry: Registry, i: Issuance, id: Hash, height: nat) {
    match i.descriptor.collection
    case Some(c) =>
      && c in registry
      && registry[c].issuance.descriptor.kind == Collection
      && registry[c].issuance.descriptor.network == i.descriptor.network
      && registry[c].height <= height
      && i.membership.Some?
      && rules.memberSigned(c, id, registry[c].issuance.descriptor.issuer, i.membership.value)
    case None => i.membership.None?
  }

  /** The id of an issuance that the registry accepts. */
  function Issue(rules: Issuing, registry: Registry, i: Issuance, height: nat): Option<Hash> {
    match rules.assetId(i.descriptor)
    case None => None
    case Some(id) =>
      if id !in registry && rules.issuerSigned(i.descriptor, i.signature) && MembershipOk(rules, registry, i, id, height)
      then Some(id)
      else None
  }

  // ---------- stored records ----------

  datatype Stored = Stored(id: Hash, height: nat, payload: Bytes)

  predicate Before(a: Stored, b: Stored) {
    a.height < b.height || (a.height == b.height && Less(a.id, b.id))
  }

  const BEFORE: (Stored, Stored) -> bool := (a, b) => Before(a, b)

  lemma BeforeStrict()
    ensures Strict(BEFORE)
  {
    forall a: Stored ensures !Before(a, a) {
      LessIrreflexive(a.id);
    }
    forall a: Stored, b: Stored, c: Stored | Before(a, b) && Before(b, c) ensures Before(a, c) {
      BeforeTransitive(a, b, c);
    }
  }

  lemma BeforeTransitive(a: Stored, b: Stored, c: Stored)
    requires Before(a, b) && Before(b, c)
    ensures Before(a, c)
  {
    if Less(a.id, b.id) && Less(b.id, c.id) {
      LessTransitive(a.id, b.id, c.id);
    }
  }

  lemma BeforeAsymmetric(a: Stored, b: Stored)
    requires Before(a, b)
    ensures !Before(b, a)
  {
    LessIrreflexive(a.id);
    if Less(a.id, b.id) && Less(b.id, a.id) {
      LessTransitive(a.id, b.id, a.id);
    }
  }

  lemma BeforeTotal(a: Stored, b: Stored)
    requires a.id != b.id
    ensures Before(a, b) || Before(b, a)
  {
    LessTotal(a.id, b.id);
  }

  /** One stored record: decoded, of the expected network, accepted under its own id. */
  function LoadOne(rules: Issuing, network: Network, registry: Registry, s: Stored): Option<Registry> {
    match rules.decode(s.payload)
    case None => None
    case Some(i) =>
      if i.descriptor.network == network && Issue(rules, registry, i, s.height) == Some(s.id)
      then Some(registry[s.id := Record(i, s.height)])
      else None
  }

  function Loading(rules: Issuing, network: Network): (Registry, Stored) -> Option<Registry> {
    (registry, s) => LoadOne(rules, network, registry, s)
  }

  const EMPTY: Registry := map[]

  /** The registry of records in any order. */
  function Load(rules: Issuing, network: Network, records: seq<Stored>): Option<Registry> {
    Fold(Loading(rules, network), EMPTY, SortOf(BEFORE, records))
  }

  // ---------- the registry object ----------

  class AssetRegistry {
    var records: Registry

    constructor ()
      ensures records == map[]
    {
      records := map[];
    }

    method RefuseMembership(rules: Issuing, i: Issuance, id: Hash, height: nat) returns (reason: Option<string>)
      ensures reason.None? <==> MembershipOk(rules, records, i, id, height)
    {
      if i.descriptor.collection.None? {
        return if i.membership.None? then None else Some("unexpected collection signature for an uncollected asset");
      }
      var c := i.descriptor.collection.value;
      if c !in records || records[c].issuance.descriptor.kind != Collection {
        return Some("referenced collection is unknown or not a collection");
      }
      if records[c].issuance.descriptor.network != i.descriptor.network {
        return Some("collection and member must use the same network");
      }
      if records[c].height > height {
        return Some("collection membership cannot precede collection issuance");
      }
      if i.membership.None? {
        return Some("collection membership requires controller authorization");
      }
      if !rules.memberSigned(c, id, records[c].issuance.descriptor.issuer, i.membership.value) {
        return Some("invalid collection signature");
      }
      return None;
    }

    method ApplyIssuance(rules: Issuing, i: Issuance, height: nat) returns (r: Result<Hash>)
      modifies this
      ensures r.Ok? <==> Issue(rules, old(records), i, height).Some?
      ensures r.Ok? ==> Some(r.value) == Issue(rules, old(records), i, height)
      ensures records == if r.Ok? then old(records)[r.value := Record(i, height)] else old(records)
    {
      var derived := rules.assetId(i.descriptor);
      if derived.None? {
        return Err("invalid descriptor");
      }
      var id := derived.value;
      if id in records {
        return Err("asset ID is already registered");
      }
      if !rules.issuerSigned(i.descriptor, i.signature) {
        return Err("invalid issuer signature");
      }
      var refusal := RefuseMembership(rules, i, id, height);
      if refusal.Some? {
        return Err(refusal.value);
      }
      records := records[id := Record(i, height)];
      return Ok(id);
    }

    /** One stored record; on failure this registry is dropped. */
    method LoadStored(rules: Issuing, network: Network, stored: Stored) returns (ok: bool)
      modifies this
      ensures ok <==> LoadOne(rules, network, old(records), stored).Some?
      ensures ok ==> Some(records) == LoadOne(rules, network, old(records), stored)
    {
      var payload := rules.decode(stored.payload);
      if payload.None? || payload.value.descriptor.network != network {
        return false;
      }
      var derived := ApplyIssuance(rules, payload.value, stored.height);
      return derived.Ok? && derived.value == stored.id;
    }

    /** Rebuilds a registry from stored records; on failure the caller's registry is untouched. */
    method LoadFrom(rules: Issuing, network: Network, listing: seq<Stored>) returns (ok: bool)
      modifies this
      ensures ok <==> Load(rules, network, listing).Some?
      ensures records == if ok then Load(rules, network, listing).value else old(records)
    {
      var sorted := Sort(BEFORE, listing);
      ghost var step := Loading(rules, network);
      var candidate := new AssetRegistry();
      for k := 0 to |sorted|
        invariant fresh(candidate) && records == old(records)
        invariant Fold(step, EMPTY, sorted[..k]) == Some(candidate.records)
      {
        FoldNext(step, EMPTY, sorted, k);
        var loaded := candidate.LoadStored(rules, network, sorted[k]);
        if !loaded {
          FoldFails(step, EMPTY, sorted, k + 1);
          return false;
        }
      }
      assert sorted[..|sorted|] == sorted;
      records := candidate.records;
      return true;
    }
  }
}
