/**
 Asset transactions: what the pool and the consensus step check against the
 stored tables, and what an accepted transaction adds to them.
 */
module AssetTransactions {
  import opened Results
  import opened Hashes
  import opened HeightTables
  import opened Registries
  import opened Reloads

  /** A ring member: an output that is claimed to exist, with its key and commitment. */
  datatype Member = Member(assetId: Hash, outputId: Hash, destination: Hash, commitment: Hash)

  /** `seal` stands for the pseudo input and the ring signature. */
  datatype Proof = Proof(assetId: Hash, image: Hash, ring: seq<Member>, seal: Bytes)

  datatype Recipient = Recipient(destination: Hash, txKey: Hash, amount: Bytes, viewTag: byte)

  /** `proofs` stands for pseudo inputs, burns and range proofs. */
  datatype Balance = Balance(assetId: Hash, outputs: seq<Hash>, proofs: Bytes)

  datatype Payload = Payload(network: Network, carrier: Hash, issuance: Option<Issuance>, balances: seq<Balance>,
                             recipients: seq<seq<Recipient>>, ownership: seq<Proof>)

  /** A stored output, apart from its height. */
  datatype AssetOutput = AssetOutput(assetId: Hash, destination: Hash, commitment: Hash, txKey: Hash, amount: Bytes,
                                     viewTag: byte, index: nat)

  type Outputs = map<Hash, Entry<AssetOutput>>
  type Images = map<Hash, Entry<()>>

  /** The three consensus tables of assets. */
  datatype Assets = Assets(records: Records, outputs: Outputs, images: Images)

  /** The cryptographic checks, and the identity of an output from network, carrier, asset, index, key and commitment. */
  datatype Rules = Rules(
    issuing: Issuing,
    payloadOk: (Payload, set<Hash>, Network, Hash) -> bool,
    ownershipOk: (Proof, Network, Hash) -> bool,
    outputId: (Network, Hash, Hash, nat, Hash, Hash) -> Option<Hash>)

  const MAX_DESTINATIONS: nat := 64

  // ---------- the outputs of a transaction ----------

  datatype NewOutput = NewOutput(assetId: Hash, recipient: Recipient, commitment: Hash)

  function GroupOutputs(b: Balance, recipients: seq<Recipient>): (s: seq<NewOutput>)
    requires |recipients| == |b.outputs|
    ensures |s| == |b.outputs|
  {
    seq(|b.outputs|, i requires 0 <= i < |b.outputs| => NewOutput(b.assetId, recipients[i], b.outputs[i]))
  }

  predicate Matching(balances: seq<Balance>, recipients: seq<seq<Recipient>>) {
    |recipients| == |balances| && forall g :: 0 <= g < |balances| ==> |recipients[g]| == |balances[g].outputs|
  }

  /** All outputs, group by group. */
  function AllOutputs(balances: seq<Balance>, recipients: seq<seq<Recipient>>): seq<NewOutput>
    requires Matching(balances, recipients)
  {
    if balances == [] then []
    else
      var k := |balances| - 1;
      AllOutputs(balances[..k], recipients[..k]) + GroupOutputs(balances[k], recipients[k])
  }

  function OutputsOf(p: Payload): seq<NewOutput>
    requires Matching(p.balances, p.recipients)
  {
    AllOutputs(p.balances, p.recipients)
  }

  /** How many outputs come before group g. */
  function Start(balances: seq<Balance>, g: nat): nat
    requires g <= |balances|
  {
    if g == 0 then 0 else Start(balances, g - 1) + |balances[g - 1].outputs|
  }

  lemma {:induction false} StartOfPrefix(balances: seq<Balance>, k: nat, g: nat)
    requires g <= k <= |balances|
    ensures Start(balances[..k], g) == Start(balances, g)
    decreases g
  {
    if g > 0 {
      StartOfPrefix(balances, k, g - 1);
    }
  }

  lemma {:induction false} OutputsCount(balances: seq<Balance>, recipients: seq<seq<Recipient>>)
    requires Matching(balances, recipients)
    ensures |AllOutputs(balances, recipients)| == Start(balances, |balances|)
    decreases |balances|
  {
    if balances != [] {
      var k := |balances| - 1;
      OutputsCount(balances[..k], recipients[..k]);
      StartOfPrefix(balances, k, k);
    }
  }

  lemma {:induction false} OutputAt(balances: seq<Balance>, recipients: seq<seq<Recipient>>, g: nat, i: nat)
    requires Matching(balances, recipients) && g < |balances| && i < |balances[g].outputs|
    ensures Start(balances, g) + i < |AllOutputs(balances, recipients)|
    ensures AllOutputs(balances, recipients)[Start(balances, g) + i]
         == NewOutput(balances[g].assetId, recipients[g][i], balances[g].outputs[i])
    decreases |balances|
  {
    var k := |balances| - 1;
    OutputsCount(balances[..k], recipients[..k]);
    StartOfPrefix(balances, k, k);
    if g < k {
      OutputAt(balances[..k], recipients[..k], g, i);
      StartOfPrefix(balances, k, g);
    }
  }

  /** A counter of 32 bits. */
  function U32(n: nat): nat {
    n % 0x1_0000_0000
  }

  /** Where a transaction is checked: the expected network and the hash of the carrying transaction. */
  datatype Place = Place(network: Network, carrier: Hash)

  /** The id of the k-th output. */
  function OutputId(rules: Rules, at: Place, o: NewOutput, k: nat): Option<Hash> {
    rules.outputId(at.network, at.carrier, o.assetId, U32(k), o.recipient.destination, o.commitment)
  }

  // ---------- the checks ----------

  /** Recipients match outputs, destinations are few, and no key image occurs twice. */
  predicate Shaped(p: Payload) {
    && Matching(p.balances, p.recipients)
    && |OutputsOf(p)| <= MAX_DESTINATIONS
    && Distinct(ImagesOf(p))
  }

  predicate PayloadValid(rules: Rules, p: Payload, known: set<Hash>, at: Place) {
    Shaped(p) && rules.payloadOk(p, known, at.network, at.carrier)
  }

  /** A ring member resolves to a stored output of the proof's asset, with the same key and commitment. */
  predicate Resolves(outputs: Outputs, m: Member, assetId: Hash) {
    && m.outputId in outputs
    && outputs[m.outputId].value.assetId == m.assetId == assetId
    && outputs[m.outputId].value.destination == m.destination
    && outputs[m.outputId].value.commitment == m.commitment
  }

  predicate RingResolves(outputs: Outputs, proof: Proof) {
    forall i :: 0 <= i < |proof.ring| ==> Resolves(outputs, proof.ring[i], proof.assetId)
  }

  predicate Owned(rules: Rules, assets: Assets, proof: Proof, at: Place) {
    proof.image !in assets.images && RingResolves(assets.outputs, proof) && rules.ownershipOk(proof, at.network, at.carrier)
  }

  predicate AllOwned(rules: Rules, assets: Assets, p: Payload, at: Place) {
    forall i :: 0 <= i < |p.ownership| ==> Owned(rules, assets, p.ownership[i], at)
  }

  predicate IdFree(rules: Rules, outputs: Outputs, at: Place, o: NewOutput, k: nat) {
    OutputId(rules, at, o, k).Some? && OutputId(rules, at, o, k).value !in outputs
  }

  predicate IdsFree(rules: Rules, outputs: Outputs, at: Place, all: seq<NewOutput>) {
    forall k :: 0 <= k < |all| ==> IdFree(rules, outputs, at, all[k], k)
  }

  /** Everything that is checked before an asset transaction is accepted at a height. */
  ghost predicate Accepts(rules: Rules, assets: Assets, p: Payload, at: Place, height: nat) {
    var registry := LoadRecords(rules.issuing, at.network, assets.records);
    && registry.Some?
    && PayloadValid(rules, p, registry.value.Keys, at)
    && AllOwned(rules, assets, p, at)
    && (p.issuance.Some? ==> Issue(rules.issuing, registry.value, p.issuance.value, height).Some?)
    && IdsFree(rules, assets.outputs, at, OutputsOf(p))
  }

  predicate Encodes(rules: Rules, p: Payload) {
    p.issuance.Some? ==> rules.issuing.encode(p.issuance.value).Some?
  }

  // ---------- what is added ----------

  function IdsOf(rules: Rules, outputs: Outputs, at: Place, all: seq<NewOutput>): (ids: seq<Hash>)
    requires IdsFree(rules, outputs, at, all)
    ensures |ids| == |all|
  {
    seq(|all|, k requires 0 <= k < |all| =>
      assert IdFree(rules, outputs, at, all[k], k);
      OutputId(rules, at, all[k], k).value)
  }

  function StoredOutput(o: NewOutput, k: nat): AssetOutput {
    AssetOutput(o.assetId, o.recipient.destination, o.commitment, o.recipient.txKey, o.recipient.amount,
                o.recipient.viewTag, U32(k))
  }

  function StoredOutputs(all: seq<NewOutput>): (s: seq<AssetOutput>)
    ensures |s| == |all|
  {
    seq(|all|, k requires 0 <= k < |all| => StoredOutput(all[k], k))
  }

  function ImagesOf(p: Payload): (s: seq<Hash>)
    ensures |s| == |p.ownership| && forall i :: 0 <= i < |s| ==> s[i] == p.ownership[i].image
  {
    seq(|p.ownership|, i requires 0 <= i < |p.ownership| => p.ownership[i].image)
  }

  function Units(n: nat): (s: seq<()>)
    ensures |s| == n
  {
    seq(n, _ => ())
  }

  ghost function AddRecord(rules: Rules, assets: Assets, p: Payload, at: Place, height: nat): Records
    requires Accepts(rules, assets, p, at, height) && Encodes(rules, p)
  {
    match p.issuance
    case None => assets.records
    case Some(i) =>
      var registry := LoadRecords(rules.issuing, at.network, assets.records).value;
      assets.records[Issue(rules.issuing, registry, i, height).value := Entry(height, rules.issuing.encode(i).value)]
  }

  ghost function NewIds(rules: Rules, assets: Assets, p: Payload, at: Place, height: nat): (ids: seq<Hash>)
    requires Accepts(rules, assets, p, at, height)
    ensures |ids| == |OutputsOf(p)|
  {
    IdsOf(rules, assets.outputs, at, OutputsOf(p))
  }

  /** The tables with an accepted transaction. */
  ghost function Applied(rules: Rules, assets: Assets, p: Payload, at: Place, height: nat): Assets
    requires Accepts(rules, assets, p, at, height) && Encodes(rules, p)
  {
    var all, ids := OutputsOf(p), NewIds(rules, assets, p, at, height);
    Assets(AddRecord(rules, assets, p, at, height),
           AddAll(assets.outputs, ids, StoredOutputs(all), height, |all|),
           AddAll(assets.images, ImagesOf(p), Units(|p.ownership|), height, |p.ownership|))
  }

  /** The transaction is accepted, encodes, and its output ids are distinct. */
  ghost predicate Applies(rules: Rules, assets: Assets, p: Payload, at: Place, height: nat) {
    Accepts(rules, assets, p, at, height) && Encodes(rules, p) && Distinct(NewIds(rules, assets, p, at, height))
  }

  // ---------- exactly what is added ----------

  /** Every new output is filed under the id derived from the index stored in it. */
  lemma FiledUnderOwnIndex(rules: Rules, outputs: Outputs, at: Place, all: seq<NewOutput>, height: nat, k: nat)
    requires IdsFree(rules, outputs, at, all) && Distinct(IdsOf(rules, outputs, at, all)) && k < |all|
    ensures var ids := IdsOf(rules, outputs, at, all);
      var after := AddAll(outputs, ids, StoredOutputs(all), height, |all|);
      && ids[k] in after
      && var o := after[ids[k]].value;
         rules.outputId(at.network, at.carrier, o.assetId, o.index, o.destination, o.commitment) == Some(ids[k])
  {
    var ids := IdsOf(rules, outputs, at, all);
    forall j | 0 <= j < |ids| ensures ids[j] !in outputs {
      assert IdFree(rules, outputs, at, all[j], j);
    }
    AllAdded(outputs, ids, StoredOutputs(all), height, |all|);
    assert IdFree(rules, outputs, at, all[k], k);
  }

  /** The tables keep their entries and get new ones of one height. */
  ghost predicate Grows(before: Assets, after: Assets, height: nat) {
    && Extends(before.records, after.records, height)
    && Extends(before.outputs, after.outputs, height)
    && Extends(before.images, after.images, height)
  }

  lemma IdsNew(rules: Rules, assets: Assets, p: Payload, at: Place, height: nat)
    requires Accepts(rules, assets, p, at, height)
    ensures forall k :: 0 <= k < |NewIds(rules, assets, p, at, height)| ==> NewIds(rules, assets, p, at, height)[k] !in assets.outputs
  {
    var all, ids := OutputsOf(p), NewIds(rules, assets, p, at, height);
    forall k | 0 <= k < |ids| ensures ids[k] !in assets.outputs {
      assert IdFree(rules, assets.outputs, at, all[k], k);
    }
  }

  lemma RecordIsNew(rules: Rules, assets: Assets, p: Payload, at: Place, height: nat)
    requires Accepts(rules, assets, p, at, height) && Encodes(rules, p)
    ensures Extends(assets.records, AddRecord(rules, assets, p, at, height), height)
  {
    LoadedIsStored(rules.issuing, at.network, assets.records);
  }

  lemma OutputsGrow(rules: Rules, assets: Assets, p: Payload, at: Place, height: nat)
    requires Applies(rules, assets, p, at, height)
    ensures Extends(assets.outputs, Applied(rules, assets, p, at, height).outputs, height)
  {
    var all, ids := OutputsOf(p), NewIds(rules, assets, p, at, height);
    OutputsAdded(rules, assets, p, at, height);
    AddedExtends(assets.outputs, Applied(rules, assets, p, at, height).outputs, ids, StoredOutputs(all), height);
  }

  lemma ImagesGrow(rules: Rules, assets: Assets, p: Payload, at: Place, height: nat)
    requires Shaped(p) && AllOwned(rules, assets, p, at)
    ensures var after := AddAll(assets.images, ImagesOf(p), Units(|p.ownership|), height, |p.ownership|);
      && HasAdded(assets.images, after, ImagesOf(p), Units(|p.ownership|), height, |p.ownership|)
      && Extends(assets.images, after, height)
  {
    var images, units := ImagesOf(p), Units(|p.ownership|);
    forall k | 0 <= k < |images| ensures images[k] !in assets.images {
      assert Owned(rules, assets, p.ownership[k], at);
    }
    AllAdded(assets.images, images, units, height, |images|);
    AddedExtends(assets.images, AddAll(assets.images, images, units, height, |images|), images, units, height);
  }

  /** An applied transaction only adds, and everything it adds has its height. */
  lemma AppliedGrows(rules: Rules, assets: Assets, p: Payload, at: Place, height: nat)
    requires Applies(rules, assets, p, at, height)
    ensures Grows(assets, Applied(rules, assets, p, at, height), height)
  {
    RecordIsNew(rules, assets, p, at, height);
    OutputsGrow(rules, assets, p, at, height);
    ImagesGrow(rules, assets, p, at, height);
  }

  /** The new outputs are there under their ids, and only they are new. */
  lemma OutputsAdded(rules: Rules, assets: Assets, p: Payload, at: Place, height: nat)
    requires Applies(rules, assets, p, at, height)
    ensures var all, ids := OutputsOf(p), NewIds(rules, assets, p, at, height);
      HasAdded(assets.outputs, Applied(rules, assets, p, at, height).outputs, ids, StoredOutputs(all), height, |all|)
  {
    IdsNew(rules, assets, p, at, height);
    AllAdded(assets.outputs, NewIds(rules, assets, p, at, height), StoredOutputs(OutputsOf(p)), height, |OutputsOf(p)|);
  }

  lemma KthStored(rules: Rules, assets: Assets, p: Payload, at: Place, height: nat, k: nat)
    requires Applies(rules, assets, p, at, height) && k < |OutputsOf(p)|
    ensures var after, ids := Applied(rules, assets, p, at, height).outputs, NewIds(rules, assets, p, at, height);
      ids[k] in after && after[ids[k]] == Entry(height, StoredOutputs(OutputsOf(p))[k])
  {
    OutputsAdded(rules, assets, p, at, height);
  }

  lemma StoredOf(all: seq<NewOutput>, k: nat, b: Balance, i: nat, r: Recipient)
    requires k < |all| <= MAX_DESTINATIONS && i < |b.outputs| && all[k] == NewOutput(b.assetId, r, b.outputs[i])
    ensures StoredOutputs(all)[k] == AssetOutput(b.assetId, r.destination, b.outputs[i], r.txKey, r.amount, r.viewTag, k)
  {}

  lemma IdOf(rules: Rules, outputs: Outputs, at: Place, all: seq<NewOutput>, k: nat, b: Balance, i: nat, r: Recipient)
    requires k < |all| <= MAX_DESTINATIONS && i < |b.outputs| && all[k] == NewOutput(b.assetId, r, b.outputs[i])
    requires IdsFree(rules, outputs, at, all)
    ensures rules.outputId(at.network, at.carrier, b.assetId, k, r.destination, b.outputs[i])
         == Some(IdsOf(rules, outputs, at, all)[k])
  {
    assert IdFree(rules, outputs, at, all[k], k);
  }

  /**
   Output i of group g is the k-th output, counted over all groups. It is stored at the height with the asset and the
   commitment of its group, all that its recipient is given, and k; its id is derived from the same.
   */
  lemma AppliedOutput(rules: Rules, assets: Assets, p: Payload, at: Place, height: nat, g: nat, i: nat)
    requires Applies(rules, assets, p, at, height) && g < |p.balances| && i < |p.balances[g].outputs|
    ensures var after, ids, k := Applied(rules, assets, p, at, height).outputs, NewIds(rules, assets, p, at, height),
          Start(p.balances, g) + i;
      var b, r := p.balances[g], p.recipients[g][i];
      && k < |ids| && ids[k] in after
      && after[ids[k]] == Entry(height, AssetOutput(b.assetId, r.destination, b.outputs[i], r.txKey, r.amount, r.viewTag, k))
      && rules.outputId(at.network, at.carrier, b.assetId, k, r.destination, b.outputs[i]) == Some(ids[k])
  {
    var all, k := OutputsOf(p), Start(p.balances, g) + i;
    OutputAt(p.balances, p.recipients, g, i);
    KthStored(rules, assets, p, at, height, k);
    StoredOf(all, k, p.balances[g], i, p.recipients[g][i]);
    IdOf(rules, assets.outputs, at, all, k, p.balances[g], i, p.recipients[g][i]);
  }

  /** No other output is new, and none that was stored changes. */
  lemma NoOtherOutput(rules: Rules, assets: Assets, p: Payload, at: Place, height: nat, id: Hash)
    requires Applies(rules, assets, p, at, height) && id in Applied(rules, assets, p, at, height).outputs
    ensures if id in assets.outputs then Applied(rules, assets, p, at, height).outputs[id] == assets.outputs[id]
            else id in NewIds(rules, assets, p, at, height)
    ensures |NewIds(rules, assets, p, at, height)| == Start(p.balances, |p.balances|)
  {
    OutputsAdded(rules, assets, p, at, height);
    OutputsCount(p.balances, p.recipients);
  }

  /** Exactly the images of the proofs are new, all of them at the height. */
  lemma AppliedImages(rules: Rules, assets: Assets, p: Payload, at: Place, height: nat, image: Hash)
    requires Applies(rules, assets, p, at, height)
    ensures var after, spent := Applied(rules, assets, p, at, height).images,
                               exists i :: 0 <= i < |p.ownership| && p.ownership[i].image == image;
      && (image in after <==> image in assets.images || spent)
      && (spent ==> image !in assets.images && after[image].height == height)
      && (image in assets.images ==> after[image] == assets.images[image])
  {
    ImagesGrow(rules, assets, p, at, height);
    if i :| 0 <= i < |p.ownership| && p.ownership[i].image == image {
      assert Owned(rules, assets, p.ownership[i], at) && ImagesOf(p)[i] == image;
    }
  }

  /** An issuance adds its encoding under the id of its descriptor, which no record had; nothing else is recorded. */
  lemma AppliedRecord(rules: Rules, assets: Assets, p: Payload, at: Place, height: nat)
    requires Applies(rules, assets, p, at, height)
    ensures var after := Applied(rules, assets, p, at, height).records;
      match p.issuance
      case None => after == assets.records
      case Some(i) =>
        var id, bytes := rules.issuing.assetId(i.descriptor), rules.issuing.encode(i);
        && id.Some? && id.value !in assets.records
        && bytes.Some? && after == assets.records[id.value := Entry(height, bytes.value)]
  {
    LoadedIsStored(rules.issuing, at.network, assets.records);
  }

  /** Output ids of one carrier differ when their indices do. */
  ghost predicate IndexInjective(rules: Rules) {
    forall n, c, a, a', i, i', d, d', m, m' ::
      rules.outputId(n, c, a, i, d, m).Some? && rules.outputId(n, c, a, i, d, m) == rules.outputId(n, c, a', i', d', m')
      ==> i == i'
  }

  /** If they do, a transaction is applied exactly if the checks accept it and its issuance encodes. */
  lemma AppliesIff(rules: Rules, assets: Assets, p: Payload, at: Place, height: nat)
    requires IndexInjective(rules)
    ensures Applies(rules, assets, p, at, height) <==> Accepts(rules, assets, p, at, height) && Encodes(rules, p)
  {
    if Accepts(rules, assets, p, at, height) {
      var all, ids := OutputsOf(p), NewIds(rules, assets, p, at, height);
      forall i, j | 0 <= i < j < |ids| ensures ids[i] != ids[j] {
        assert IdFree(rules, assets.outputs, at, all[i], i) && IdFree(rules, assets.outputs, at, all[j], j);
        assert U32(i) != U32(j);
      }
    }
  }
}
