/**
 The moves of a run as the database makes them: a block with its asset
 transactions is added, or the top block popped, in one write transaction that
 is aborted as a whole.
 */
module NodeDbs {
  import opened Results
  import opened Hashes
  import opened Folds
  import opened HeightTables
  import opened AssetTransactions
  import opened AssetDbs
  import Ledgers
  import opened Chains
  import opened BlockchainDbs
  import opened AssetRuns
  import opened ChainRuns

  ghost function WorldOf(db: BlockchainDb): World
    reads db, db.assets
  {
    World(db.assets.State(), db.State())
  }

  /** The asset transactions of a block in order, each at the height of the block. */
  method ApplyPayloads(assets: AssetDb, node: Node, payloads: seq<Payload>, height: nat) returns (ok: bool)
    requires assets.Valid()
    modifies assets
    ensures ok <==> Fold(Applying(node), old(assets.State()), EventsOf(payloads, height)).Some?
    ensures ok ==> assets.Valid()
    ensures ok ==> Some(assets.State()) == Fold(Applying(node), old(assets.State()), EventsOf(payloads, height))
  {
    ghost var before, step, events := assets.State(), Applying(node), EventsOf(payloads, height);
    for i := 0 to |payloads|
      invariant assets.Valid() && Fold(step, before, events[..i]) == Some(assets.State())
    {
      FoldNext(step, before, events, i);
      var outcome := assets.ApplyTransaction(node.rules, payloads[i], PlaceOf(node, payloads[i]), height);
      if !outcome.Done? {
        FoldFails(step, before, events, i + 1);
        return false;
      }
    }
    assert events[..|events|] == events;
    return true;
  }

  /** Adds a block with its asset transactions, or changes nothing. */
  method AddLayer(db: BlockchainDb, node: Node, layer: Layer) returns (ok: bool)
    requires db.assets.Valid()
    modifies db, db.assets
    ensures db.assets.Valid()
    ensures ok <==> Extend(node, old(WorldOf(db)), layer).Some?
    ensures Some(WorldOf(db)) == if ok then Extend(node, old(WorldOf(db)), layer) else Some(old(WorldOf(db)))
  {
    var records, outputs, images := db.assets.records, db.assets.outputs, db.assets.images;
    var ledger, blocks := db.ledger, db.blocks;
    ok := ApplyPayloads(db.assets, node, layer.payloads, |db.blocks|);
    if ok {
      ok := db.AppendBlock(node.hashing, layer.block, layer.txs);
    }
    if !ok {
      db.assets.records, db.assets.outputs, db.assets.images := records, outputs, images;
      db.ledger, db.blocks := ledger, blocks;
    }
  }

  /** Pops the top block with its assets, or changes nothing. */
  method PopLayer(db: BlockchainDb, node: Node) returns (r: Option<(Block, seq<Ledgers.Tx>)>)
    requires db.assets.Valid()
    modifies db, db.assets
    ensures db.assets.Valid()
    ensures r.Some? <==> Retract(node, old(WorldOf(db))).Some?
    ensures Some(WorldOf(db)) == if r.Some? then Retract(node, old(WorldOf(db))) else Some(old(WorldOf(db)))
  {
    var records, outputs, images := db.assets.records, db.assets.outputs, db.assets.images;
    var ledger, blocks := db.ledger, db.blocks;
    r := db.Pop(node.hashing);
    if r.None? {
      db.assets.records, db.assets.outputs, db.assets.images := records, outputs, images;
      db.ledger, db.blocks := ledger, blocks;
    }
  }
}
