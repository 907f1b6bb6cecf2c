/**
 The asset part of the database, with the pool's check and the consensus step
 written as the loops they are.
 */
module AssetDbs {
  import opened Results
  import opened Hashes
  import opened HeightTables
  import opened Registries
  import opened Reloads
  import opened AssetTransactions

  /** What becomes of a transaction: applied, rejected, or aborted by an exception of the storage. */
  datatype Outcome = Done(ids: seq<Hash>) | Rejected | Thrown

  lemma AnyListingLoads(rules: Issuing, network: Network, listing: seq<Stored>, records: Records)
    requires Lists(listing, records)
    ensures Load(rules, network, listing) == LoadRecords(rules, network, records)
  {
    OrderIrrelevant(rules, network, listing, Listing(records), records);
  }

  class AssetDb {
    var records: Table<Hash, Bytes>
    var outputs: Table<Hash, AssetOutput>
    var images: Table<Hash, ()>

    ghost predicate Valid()
      reads this
    {
      records.Valid() && outputs.Valid() && images.Valid()
    }

    ghost function State(): Assets
      reads this
    {
      Assets(records.entries, outputs.entries, images.entries)
    }

    constructor ()
      ensures Valid() && State() == Assets(map[], map[], map[])
    {
      records := Table(map[], {});
      outputs := Table(map[], {});
      images := Table(map[], {});
    }

    /** Loads the stored records into a registry; on failure the registry is untouched. */
    method LoadRegistry(rules: Issuing, network: Network, registry: AssetRegistry) returns (ok: bool)
      modifies registry
      ensures ok <==> LoadRecords(rules, network, records.entries).Some?
      ensures ok ==> Some(registry.records) == LoadRecords(rules, network, records.entries)
      ensures !ok ==> registry.records == old(registry.records)
    {
      var listing := Enumerate(records.entries);
      AnyListingLoads(rules, network, listing, records.entries);
      ok := registry.LoadFrom(rules, network, listing);
    }

    method VerifyOwnership(rules: Rules, proof: Proof, at: Place) returns (ok: bool)
      ensures ok <==> Owned(rules, State(), proof, at)
    {
      if proof.image in images.entries {
        return false;
      }
      for i := 0 to |proof.ring|
        invariant forall j :: 0 <= j < i ==> Resolves(outputs.entries, proof.ring[j], proof.assetId)
      {
        var member := proof.ring[i];
        if member.outputId !in outputs.entries {
          return false;
        }
        var stored := outputs.entries[member.outputId].value;
        if stored.assetId != member.assetId || member.assetId != proof.assetId {
          return false;
        }
        if stored.destination != member.destination || stored.commitment != member.commitment {
          return false;
        }
      }
      return rules.ownershipOk(proof, at.network, at.carrier);
    }

    method VerifyAllOwned(rules: Rules, p: Payload, at: Place) returns (ok: bool)
      ensures ok <==> AllOwned(rules, State(), p, at)
    {
      for i := 0 to |p.ownership|
        invariant forall j :: 0 <= j < i ==> Owned(rules, State(), p.ownership[j], at)
      {
        var owned := VerifyOwnership(rules, p.ownership[i], at);
        if !owned {
          return false;
        }
      }
      return true;
    }

    /** The id of one output, unless it cannot be derived or exists already. */
    method DeriveId(rules: Rules, at: Place, o: NewOutput, k: nat) returns (r: Option<Hash>)
      ensures r.Some? <==> IdFree(rules, outputs.entries, at, o, k)
      ensures r.Some? ==> r == OutputId(rules, at, o, k)
    {
      r := rules.outputId(at.network, at.carrier, o.assetId, k % 0x1_0000_0000, o.recipient.destination, o.commitment);
      if r.Some? && r.value in outputs.entries {
        r := None;
      }
    }

    /** The ids of all outputs, group by group with one running index, unless some output has none or one that exists. */
    method DeriveIds(rules: Rules, p: Payload, at: Place) returns (r: Option<seq<Hash>>)
      requires Matching(p.balances, p.recipients)
      ensures r.Some? <==> IdsFree(rules, outputs.entries, at, OutputsOf(p))
      ensures r.Some? ==> r.value == IdsOf(rules, outputs.entries, at, OutputsOf(p))
    {
      var ids: seq<Hash> := [];
      var globalIndex := 0;
      ghost var all := OutputsOf(p);
      OutputsCount(p.balances, p.recipients);
      for group := 0 to |p.balances|
        invariant globalIndex == |ids| == Start(p.balances, group)
        invariant globalIndex <= |all| && IdsDerived(rules, outputs.entries, at, all, ids)
      {
        var balance := p.balances[group];
        for index := 0 to |balance.outputs|
          invariant globalIndex == |ids| == Start(p.balances, group) + index
          invariant globalIndex <= |all| && IdsDerived(rules, outputs.entries, at, all, ids)
        {
          OutputAt(p.balances, p.recipients, group, index);
          var o := NewOutput(balance.assetId, p.recipients[group][index], balance.outputs[index]);
          var id := DeriveId(rules, at, o, globalIndex);
          if id.None? {
            return None;
          }
          ids := ids + [id.value];
          globalIndex := globalIndex + 1;
        }
      }
      IdsComplete(rules, outputs.entries, at, all, ids);
      return Some(ids);
    }

    /** The checks that come first: the registry loads, the payload is valid for it, and all inputs are owned. */
    method Prepare(rules: Rules, p: Payload, at: Place, registry: AssetRegistry) returns (ok: bool)
      modifies registry
      ensures ok <==> Prepared(rules, State(), p, at)
      ensures ok ==> Some(registry.records) == LoadRecords(rules.issuing, at.network, records.entries)
    {
      var loaded := LoadRegistry(rules.issuing, at.network, registry);
      if !loaded || !PayloadValid(rules, p, registry.records.Keys, at) {
        return false;
      }
      ok := VerifyAllOwned(rules, p, at);
    }

    /** The pool's check, against the height of the next block. */
    method VerifyTransaction(rules: Rules, p: Payload, at: Place, height: nat) returns (ok: bool)
      ensures ok <==> Accepts(rules, State(), p, at, height)
    {
      var registry := new AssetRegistry();
      var prepared := Prepare(rules, p, at, registry);
      if !prepared {
        return false;
      }
      if p.issuance.Some? {
        var issued := registry.ApplyIssuance(rules.issuing, p.issuance.value, height);
        if issued.Err? {
          return false;
        }
      }
      var ids := DeriveIds(rules, p, at);
      return ids.Some?;
    }

    /** The record of an issuance, all key images, then all outputs; a duplicate makes the storage throw. */
    method Write(issued: Option<(Hash, Bytes)>, ids: seq<Hash>, p: Payload, height: nat) returns (ok: bool)
      requires Valid() && Matching(p.balances, p.recipients) && |ids| == |OutputsOf(p)|
      requires issued.Some? ==> issued.value.0 !in records.entries
      requires Distinct(ImagesOf(p)) && forall i :: 0 <= i < |p.ownership| ==> p.ownership[i].image !in images.entries
      requires forall i :: 0 <= i < |ids| ==> ids[i] !in outputs.entries
      modifies this
      ensures ok <==> Distinct(ids)
      ensures ok ==> Valid() && State() == Written(old(State()), issued, ids, p, height)
    {
      if issued.Some? {
        var record := Add(records, issued.value.0, height, issued.value.1);
        records := record.value;
      }
      var spent := AddEach(images, ImagesOf(p), Units(|p.ownership|), height);
      images := spent.value;
      var stored := AddEach(outputs, ids, StoredOutputs(OutputsOf(p)), height);
      if stored.Err? {
        return false;
      }
      outputs := stored.value;
      return true;
    }

    /** Every check of the consensus step, without a write. */
    method Decide(rules: Rules, p: Payload, at: Place, height: nat)
      returns (ok: bool, issued: Option<(Hash, Bytes)>, ids: seq<Hash>)
      ensures ok <==> Accepts(rules, State(), p, at, height) && Encodes(rules, p)
      ensures ok ==> IsIssued(rules, State(), p, at, height, issued) && ids == NewIds(rules, State(), p, at, height)
    {
      ok, issued, ids := false, None, [];
      var registry := new AssetRegistry();
      var prepared := Prepare(rules, p, at, registry);
      if !prepared {
        return;
      }
      if p.issuance.Some? {
        var id := registry.ApplyIssuance(rules.issuing, p.issuance.value, height);
        var encoded := rules.issuing.encode(p.issuance.value);
        if id.Err? || encoded.None? {
          return;
        }
        issued := Some((id.value, encoded.value));
      }
      var derived := DeriveIds(rules, p, at);
      if derived.Some? {
        ok, ids := true, derived.value;
      }
    }

    /** The consensus step: rejected without any write, applied as a whole, or aborted. */
    method ApplyTransaction(rules: Rules, p: Payload, at: Place, height: nat) returns (r: Outcome)
      requires Valid()
      modifies this
      ensures r.Rejected? <==> !(Accepts(rules, old(State()), p, at, height) && Encodes(rules, p))
      ensures r.Rejected? ==> Valid() && State() == old(State())
      ensures r.Done? <==> Applies(rules, old(State()), p, at, height)
      ensures r.Done? ==> Valid() && State() == Applied(rules, old(State()), p, at, height)
      ensures r.Done? ==> r.ids == NewIds(rules, old(State()), p, at, height)
    {
      var ok, issued, ids := Decide(rules, p, at, height);
      if !ok {
        return Rejected;
      }
      AcceptedIsNew(rules, State(), p, at, height, issued);
      WrittenIsApplied(rules, State(), p, at, height, issued);
      var written := Write(issued, ids, p, height);
      return if written then Done(ids) else Thrown;
    }

    /** Everything from a height on is removed. */
    method RemoveFromHeight(height: nat)
      requires Valid()
      modifies this
      ensures Valid() && State() == BelowHeight(old(State()), height)
    {
      records := RemoveFrom(records, height);
      outputs := RemoveFrom(outputs, height);
      images := RemoveFrom(images, height);
    }
  }

  ghost function BelowHeight(assets: Assets, height: nat): Assets {
    Assets(Below(assets.records, height), Below(assets.outputs, height), Below(assets.images, height))
  }

  /** The id and the encoding of the issuance, if there is one. */
  ghost predicate IsIssued(rules: Rules, assets: Assets, p: Payload, at: Place, height: nat, issued: Option<(Hash, Bytes)>) {
    var registry := LoadRecords(rules.issuing, at.network, assets.records);
    match p.issuance
    case None => issued.None?
    case Some(i) =>
      && registry.Some? && issued.Some?
      && Issue(rules.issuing, registry.value, i, height) == Some(issued.value.0)
      && rules.issuing.encode(i) == Some(issued.value.1)
  }

  lemma WrittenIsApplied(rules: Rules, assets: Assets, p: Payload, at: Place, height: nat, issued: Option<(Hash, Bytes)>)
    requires Accepts(rules, assets, p, at, height) && Encodes(rules, p) && IsIssued(rules, assets, p, at, height, issued)
    ensures Written(assets, issued, NewIds(rules, assets, p, at, height), p, height) == Applied(rules, assets, p, at, height)
  {}

  /** What is accepted can be written: its record and key images are new, and so are its output ids. */
  lemma AcceptedIsNew(rules: Rules, assets: Assets, p: Payload, at: Place, height: nat, issued: Option<(Hash, Bytes)>)
    requires Accepts(rules, assets, p, at, height) && IsIssued(rules, assets, p, at, height, issued)
    ensures issued.Some? ==> issued.value.0 !in assets.records
    ensures forall i :: 0 <= i < |p.ownership| ==> p.ownership[i].image !in assets.images
    ensures forall i :: 0 <= i < |OutputsOf(p)| ==> NewIds(rules, assets, p, at, height)[i] !in assets.outputs
  {
    LoadedIsStored(rules.issuing, at.network, assets.records);
    IdsNew(rules, assets, p, at, height);
    forall i | 0 <= i < |p.ownership| ensures p.ownership[i].image !in assets.images {
      assert Owned(rules, assets, p.ownership[i], at);
    }
  }

  ghost predicate Prepared(rules: Rules, assets: Assets, p: Payload, at: Place) {
    var registry := LoadRecords(rules.issuing, at.network, assets.records);
    registry.Some? && PayloadValid(rules, p, registry.value.Keys, at) && AllOwned(rules, assets, p, at)
  }

  /** The tables with a record, the key images and the outputs of a transaction. */
  ghost function Written(assets: Assets, issued: Option<(Hash, Bytes)>, ids: seq<Hash>, p: Payload, height: nat): Assets
    requires Matching(p.balances, p.recipients) && |ids| == |OutputsOf(p)|
  {
    Assets(match issued
           case None => assets.records
           case Some(r) => assets.records[r.0 := Entry(height, r.1)],
           AddAll(assets.outputs, ids, StoredOutputs(OutputsOf(p)), height, |ids|),
           AddAll(assets.images, ImagesOf(p), Units(|p.ownership|), height, |p.ownership|))
  }

  /** The first ids are derived and free. */
  ghost predicate IdsDerived(rules: Rules, outputs: Outputs, at: Place, all: seq<NewOutput>, ids: seq<Hash>) {
    && |ids| <= |all|
    && forall k :: 0 <= k < |ids| ==> IdFree(rules, outputs, at, all[k], k) && OutputId(rules, at, all[k], k) == Some(ids[k])
  }

  lemma IdsComplete(rules: Rules, outputs: Outputs, at: Place, all: seq<NewOutput>, ids: seq<Hash>)
    requires IdsDerived(rules, outputs, at, all, ids) && |ids| == |all|
    ensures IdsFree(rules, outputs, at, all) && ids == IdsOf(rules, outputs, at, all)
  {}
}
