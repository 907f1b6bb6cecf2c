/**
 Asset transactions applied one after the other: what each keeps and adds, how
 a removal by height undoes it, and why key images stay disjoint and rings keep
 resolving.
 */
module AssetRuns {
  import opened Results
  import opened Hashes
  import opened Folds
  import opened HeightTables
  import opened Registries
  import opened Reloads
  import opened AssetTransactions
  import opened AssetDbs
  import opened Ledgers
  import opened Chains

  /** The checks, the network and the hashes of a node. */
  datatype Node = Node(rules: Rules, network: Network, hashing: Hashing)

  /** An asset transaction that is applied at a height. */
  datatype Event = Event(height: nat, payload: Payload)

  const NO_ASSETS: Assets := Assets(map[], map[], map[])

  function PlaceOf(node: Node, p: Payload): Place {
    Place(node.network, p.carrier)
  }

  /** The consensus step; anything but success aborts the block. */
  ghost function ApplyEvent(node: Node, assets: Assets, e: Event): Option<Assets> {
    if Applies(node.rules, assets, e.payload, PlaceOf(node, e.payload), e.height)
    then Some(Applied(node.rules, assets, e.payload, PlaceOf(node, e.payload), e.height))
    else None
  }

  ghost function Applying(node: Node): (Assets, Event) -> Option<Assets> {
    (assets, e) => ApplyEvent(node, assets, e)
  }

  /** The tables after a list of asset transactions. */
  ghost function AssetsAfter(node: Node, events: seq<Event>): Option<Assets> {
    Fold(Applying(node), NO_ASSETS, events)
  }

  // ---------- what every asset transaction keeps ----------

  lemma EventGrows(node: Node, assets: Assets, e: Event)
    requires ApplyEvent(node, assets, e).Some?
    ensures Grows(assets, ApplyEvent(node, assets, e).value, e.height)
  {
    AppliedGrows(node.rules, assets, e.payload, PlaceOf(node, e.payload), e.height);
  }

  lemma GrowsTransitive(a: Assets, b: Assets, c: Assets, height: nat)
    requires Grows(a, b, height) && Grows(b, c, height)
    ensures Grows(a, c, height)
  {}

  lemma GrowsReflexive(a: Assets, height: nat)
    ensures Grows(a, a, height)
  {}

  /** Transactions of one height only add entries of that height. */
  lemma {:induction false} EventsGrow(node: Node, assets: Assets, events: seq<Event>, height: nat)
    requires Fold(Applying(node), assets, events).Some? && forall i :: 0 <= i < |events| ==> events[i].height == height
    ensures Grows(assets, Fold(Applying(node), assets, events).value, height)
    decreases |events|
  {
    if events == [] {
      GrowsReflexive(assets, height);
    } else {
      var k := |events| - 1;
      var mid := Fold(Applying(node), assets, events[..k]).value;
      EventsGrow(node, assets, events[..k], height);
      EventGrows(node, mid, events[k]);
      GrowsTransitive(assets, mid, Fold(Applying(node), assets, events).value, height);
    }
  }

  ghost predicate AssetsBelow(assets: Assets, height: nat) {
    AllBelow(assets.records, height) && AllBelow(assets.outputs, height) && AllBelow(assets.images, height)
  }

  /** Removing from a height on undoes everything that was added at it. */
  lemma GrowthUndone(before: Assets, after: Assets, height: nat)
    requires Grows(before, after, height) && AssetsBelow(before, height)
    ensures BelowHeight(after, height) == before && AssetsBelow(after, height + 1)
  {
    BelowUndoes(before.records, after.records, height);
    BelowUndoes(before.outputs, after.outputs, height);
    BelowUndoes(before.images, after.images, height);
  }

  /**
   After an applied transaction the registry loads, and the next one can be applied at all, exactly if the transaction
   had no issuance, or one of this network whose collection sorts before it.
   */
  lemma EventReloads(node: Node, assets: Assets, e: Event)
    requires Faithful(node.rules.issuing) && ApplyEvent(node, assets, e).Some?
    ensures var issuing, records := node.rules.issuing, assets.records;
      var registry := LoadRecords(issuing, node.network, records);
      && registry.Some?
      && (LoadRecords(issuing, node.network, ApplyEvent(node, assets, e).value.records).Some? <==>
            match e.payload.issuance
            case None => true
            case Some(i) =>
              var id := Issue(issuing, registry.value, i, e.height);
              id.Some? && issuing.encode(i).Some?
              && Reloadable(issuing, node.network, records, i, NewRecord(issuing, i, id.value, e.height)))
  {
    var issuing, registry := node.rules.issuing, LoadRecords(node.rules.issuing, node.network, assets.records).value;
    if e.payload.issuance.Some? {
      var i := e.payload.issuance.value;
      ReloadIff(issuing, node.network, assets.records, registry, i, e.height, Issue(issuing, registry, i, e.height).value);
    }
  }

  // ---------- key images and rings of all applied transactions ----------

  ghost predicate ImagesIn(p: Payload, images: Images) {
    forall i :: 0 <= i < |p.ownership| ==> p.ownership[i].image in images
  }

  /** A ring member names a stored output of the proof's asset, with the member's key and commitment. */
  ghost predicate IsBehind(outputs: Outputs, assetId: Hash, m: Member) {
    && m.assetId == assetId && m.outputId in outputs
    && var o := outputs[m.outputId].value;
       o.assetId == assetId && o.destination == m.destination && o.commitment == m.commitment
  }

  ghost predicate RingsResolve(p: Payload, outputs: Outputs) {
    forall i, j :: 0 <= i < |p.ownership| && 0 <= j < |p.ownership[i].ring| ==>
      IsBehind(outputs, p.ownership[i].assetId, p.ownership[i].ring[j])
  }

  /** No key image is used by both. */
  ghost predicate Disjoint(p: Payload, q: Payload) {
    forall i, j :: 0 <= i < |p.ownership| && 0 <= j < |q.ownership| ==> p.ownership[i].image != q.ownership[j].image
  }

  /** Key images of different transactions are disjoint, all are spent, and every ring member is still there. */
  ghost predicate Sound(events: seq<Event>, assets: Assets) {
    && (forall k :: 0 <= k < |events| ==> ImagesIn(events[k].payload, assets.images))
    && (forall k :: 0 <= k < |events| ==> RingsResolve(events[k].payload, assets.outputs))
    && forall k, l :: 0 <= k < l < |events| ==> Disjoint(events[k].payload, events[l].payload)
  }

  lemma ResolvesStill(before: Outputs, after: Outputs, p: Payload, height: nat)
    requires Extends(before, after, height) && RingsResolve(p, before)
    ensures RingsResolve(p, after)
  {
    forall i, j | 0 <= i < |p.ownership| && 0 <= j < |p.ownership[i].ring|
      ensures IsBehind(after, p.ownership[i].assetId, p.ownership[i].ring[j])
    {
      assert IsBehind(before, p.ownership[i].assetId, p.ownership[i].ring[j]);
    }
  }

  lemma NewIsSpent(node: Node, assets: Assets, e: Event)
    requires ApplyEvent(node, assets, e).Some?
    ensures ImagesIn(e.payload, ApplyEvent(node, assets, e).value.images)
    ensures RingsResolve(e.payload, assets.outputs)
    ensures forall i :: 0 <= i < |e.payload.ownership| ==> e.payload.ownership[i].image !in assets.images
  {
    var p, at := e.payload, PlaceOf(node, e.payload);
    ImagesGrow(node.rules, assets, p, at, e.height);
    var images := AssetTransactions.ImagesOf(p);
    forall i | 0 <= i < |p.ownership| ensures p.ownership[i].image !in assets.images {
      assert Owned(node.rules, assets, p.ownership[i], at);
    }
    forall i, j | 0 <= i < |p.ownership| && 0 <= j < |p.ownership[i].ring|
      ensures IsBehind(assets.outputs, p.ownership[i].assetId, p.ownership[i].ring[j])
    {
      assert Owned(node.rules, assets, p.ownership[i], at);
      assert Resolves(assets.outputs, p.ownership[i].ring[j], p.ownership[i].assetId);
    }
    forall i | 0 <= i < |p.ownership| ensures p.ownership[i].image in ApplyEvent(node, assets, e).value.images {
      assert images[i] == p.ownership[i].image;
    }
  }

  /** What one more transaction that grows the tables keeps and adds. */
  lemma SoundNext(events: seq<Event>, before: Assets, after: Assets, e: Event)
    requires Sound(events, before) && Grows(before, after, e.height)
    requires ImagesIn(e.payload, after.images) && RingsResolve(e.payload, before.outputs)
    requires forall i :: 0 <= i < |e.payload.ownership| ==> e.payload.ownership[i].image !in before.images
    ensures Sound(events + [e], after)
  {
    var all := events + [e];
    forall k | 0 <= k < |all| ensures ImagesIn(all[k].payload, after.images) && RingsResolve(all[k].payload, after.outputs) {
      assert k < |events| ==> ImagesIn(events[k].payload, before.images) && RingsResolve(events[k].payload, before.outputs);
      ResolvesStill(before.outputs, after.outputs, all[k].payload, e.height);
    }
    forall k, l | 0 <= k < l < |all| ensures Disjoint(all[k].payload, all[l].payload) {
      assert ImagesIn(events[k].payload, before.images);
    }
  }

  /** Whatever asset transactions are applied one after the other, they are sound together. */
  lemma {:induction false} AllSound(node: Node, events: seq<Event>)
    requires AssetsAfter(node, events).Some?
    ensures Sound(events, AssetsAfter(node, events).value)
    decreases |events|
  {
    if events != [] {
      var k := |events| - 1;
      var before, after := AssetsAfter(node, events[..k]).value, AssetsAfter(node, events).value;
      AllSound(node, events[..k]);
      EventGrows(node, before, events[k]);
      NewIsSpent(node, before, events[k]);
      SoundNext(events[..k], before, after, events[k]);
      assert events == events[..k] + [events[k]];
    }
  }

  // ---------- every applied transaction was checked ----------

  /** The payload verifies against the assets known at the time, and each of its ownership proofs verifies. */
  ghost predicate Checked(node: Node, before: Assets, p: Payload) {
    && node.rules.payloadOk(p, before.records.Keys, node.network, p.carrier)
    && forall i :: 0 <= i < |p.ownership| ==> node.rules.ownershipOk(p.ownership[i], node.network, p.carrier)
  }

  lemma EventChecked(node: Node, assets: Assets, e: Event)
    requires ApplyEvent(node, assets, e).Some?
    ensures Checked(node, assets, e.payload)
  {
    LoadedIsStored(node.rules.issuing, node.network, assets.records);
    forall i | 0 <= i < |e.payload.ownership|
      ensures node.rules.ownershipOk(e.payload.ownership[i], node.network, e.payload.carrier)
    {
      assert Owned(node.rules, assets, e.payload.ownership[i], PlaceOf(node, e.payload));
    }
  }

  ghost predicate CheckedAt(node: Node, events: seq<Event>, k: nat)
    requires k < |events|
  {
    AssetsAfter(node, events[..k]).Some? && Checked(node, AssetsAfter(node, events[..k]).value, events[k].payload)
  }

  /** Each of the transactions was checked against the tables of those before it. */
  ghost predicate AllChecked(node: Node, events: seq<Event>) {
    forall k :: 0 <= k < |events| ==> CheckedAt(node, events, k)
  }

  lemma EventsChecked(node: Node, events: seq<Event>)
    requires AssetsAfter(node, events).Some?
    ensures AllChecked(node, events)
  {
    forall k | 0 <= k < |events| ensures CheckedAt(node, events, k) {
      FoldPrefix(Applying(node), NO_ASSETS, events, k);
      EventChecked(node, AssetsAfter(node, events[..k]).value, events[k]);
    }
  }
}
