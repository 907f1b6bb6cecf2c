/**
 Whole runs of adding and popping blocks: the tables are at any time those of
 the blocks that are still on the chain, key images of surviving asset
 transactions are disjoint, and their rings still resolve.
 */
module ChainRuns {
  import opened Results
  import opened Hashes
  import opened Folds
  import opened HeightTables
  import opened AssetTransactions
  import opened AssetDbs
  import opened Ledgers
  import opened Chains
  import opened AssetRuns

  // ---------- blocks with asset transactions ----------

  /** A block, its transactions, and the asset transactions they carry. */
  datatype Layer = Layer(block: Block, txs: seq<Tx>, payloads: seq<Payload>)

  datatype World = World(assets: Assets, chain: Chain)

  const GENESIS: World := World(NO_ASSETS, Chain(NOTHING, []))

  function EventsOf(payloads: seq<Payload>, height: nat): (s: seq<Event>)
    ensures |s| == |payloads| && forall i :: 0 <= i < |s| ==> s[i] == Event(height, payloads[i])
  {
    seq(|payloads|, i requires 0 <= i < |payloads| => Event(height, payloads[i]))
  }

  /** The asset transactions of all layers, each at the height of its block. */
  function AllEvents(layers: seq<Layer>): seq<Event> {
    if layers == [] then []
    else
      var k := |layers| - 1;
      AllEvents(layers[..k]) + EventsOf(layers[k].payloads, k)
  }

  /** A block's asset transactions are applied at its height, then the block is added; any failure aborts all of it. */
  ghost function Extend(node: Node, w: World, layer: Layer): Option<World> {
    match Fold(Applying(node), w.assets, EventsOf(layer.payloads, |w.chain.blocks|))
    case None => None
    case Some(assets) =>
      match AddBlock(node.hashing, w.chain, layer.block, layer.txs)
      case None => None
      case Some(chain) => Some(World(assets, chain))
  }

  /** The top block is popped, with the assets from its height on; any failure aborts all of it. */
  ghost function Retract(node: Node, w: World): Option<World> {
    match PopBlock(node.hashing, w.chain)
    case None => None
    case Some(p) => Some(World(BelowHeight(w.assets, |w.chain.blocks| - 1), p.0))
  }

  datatype Move = Add(layer: Layer) | Pop

  /** The world after a move, and the layers that are still on the chain. An aborted move changes nothing. */
  datatype Progress = Progress(world: World, layers: seq<Layer>)

  ghost function Next(node: Node, p: Progress, move: Move): Progress {
    match move
    case Add(layer) =>
      (match Extend(node, p.world, layer)
       case None => p
       case Some(w) => Progress(w, p.layers + [layer]))
    case Pop =>
      (match Retract(node, p.world)
       case None => p
       case Some(w) => Progress(w, if p.layers == [] then [] else p.layers[..|p.layers| - 1]))
  }

  ghost function Run(node: Node, moves: seq<Move>): Progress {
    if moves == [] then Progress(GENESIS, []) else Next(node, Run(node, moves[..|moves| - 1]), moves[|moves| - 1])
  }

  // ---------- the tables are those of the surviving blocks ----------

  /** The asset tables are those of the layers on the chain, all below its height. */
  ghost predicate Replayed(node: Node, p: Progress) {
    && |p.world.chain.blocks| == |p.layers|
    && AssetsAfter(node, AllEvents(p.layers)) == Some(p.world.assets)
    && AssetsBelow(p.world.assets, |p.layers|)
  }

  lemma AddReplayed(node: Node, p: Progress, layer: Layer)
    requires Replayed(node, p) && Extend(node, p.world, layer).Some?
    ensures Replayed(node, Next(node, p, Add(layer)))
  {
    var w, height, more := p.world, |p.layers|, p.layers + [layer];
    var events := EventsOf(layer.payloads, height);
    assert more[..height] == p.layers;
    FoldConcat(Applying(node), NO_ASSETS, AllEvents(p.layers), events);
    EventsGrow(node, w.assets, events, height);
    GrowthUndone(w.assets, Extend(node, w, layer).value.assets, height);
  }

  lemma {:induction false} LayersBelow(node: Node, layers: seq<Layer>)
    requires AssetsAfter(node, AllEvents(layers)).Some?
    ensures AssetsBelow(AssetsAfter(node, AllEvents(layers)).value, |layers|)
    decreases |layers|
  {
    if layers != [] {
      var k := |layers| - 1;
      SplitLast(node, layers);
      LayersBelow(node, layers[..k]);
      var before := AssetsAfter(node, AllEvents(layers[..k])).value;
      EventsGrow(node, before, EventsOf(layers[k].payloads, k), k);
      GrowthUndone(before, AssetsAfter(node, AllEvents(layers)).value, k);
    }
  }

  /** The last layer is applied to the tables of the others. */
  lemma SplitLast(node: Node, layers: seq<Layer>)
    requires layers != [] && AssetsAfter(node, AllEvents(layers)).Some?
    ensures var k := |layers| - 1; var before := AssetsAfter(node, AllEvents(layers[..k]));
      before.Some? && Fold(Applying(node), before.value, EventsOf(layers[k].payloads, k)) == AssetsAfter(node, AllEvents(layers))
  {
    var k := |layers| - 1;
    FoldConcat(Applying(node), NO_ASSETS, AllEvents(layers[..k]), EventsOf(layers[k].payloads, k));
  }

  lemma PopReplayed(node: Node, p: Progress)
    requires Replayed(node, p) && Retract(node, p.world).Some?
    ensures Replayed(node, Next(node, p, Pop))
  {
    var k := |p.layers| - 1;
    SplitLast(node, p.layers);
    var before := AssetsAfter(node, AllEvents(p.layers[..k])).value;
    LayersBelow(node, p.layers[..k]);
    EventsGrow(node, before, EventsOf(p.layers[k].payloads, k), k);
    GrowthUndone(before, p.world.assets, k);
  }

  /** In every run of adding and popping blocks, the asset tables are those of the blocks still on the chain. */
  lemma {:induction false} RunReplayed(node: Node, moves: seq<Move>)
    ensures Replayed(node, Run(node, moves))
    decreases |moves|
  {
    if moves != [] {
      var k := |moves| - 1;
      var p := Run(node, moves[..k]);
      RunReplayed(node, moves[..k]);
      match moves[k] {
        case Add(layer) =>
          if Extend(node, p.world, layer).Some? {
            AddReplayed(node, p, layer);
          }
        case Pop =>
          if Retract(node, p.world).Some? {
            PopReplayed(node, p);
          }
      }
    }
  }

  /**
   In every reachable state, surviving asset transactions have disjoint key images and rings that resolve, and each was
   checked, with every proof, against the tables of those before it.
   */
  lemma RunSound(node: Node, moves: seq<Move>)
    ensures Sound(AllEvents(Run(node, moves).layers), Run(node, moves).world.assets)
    ensures AllChecked(node, AllEvents(Run(node, moves).layers))
  {
    RunReplayed(node, moves);
    AllSound(node, AllEvents(Run(node, moves).layers));
    EventsChecked(node, AllEvents(Run(node, moves).layers));
  }

  // ---------- with consistent transactions, so is everything else ----------

  ghost predicate ConsistentLayer(layer: Layer) {
    AllConsistent(layer.block, layer.txs)
  }

  /** What holds in every world built from consistent layers. */
  ghost predicate Orderly(w: World, height: nat) {
    |w.chain.blocks| == height && InOrder(w.chain.ledger) && AssetsBelow(w.assets, height)
  }

  lemma ExtendedAssets(node: Node, w: World, layer: Layer, height: nat, after: World)
    requires Orderly(w, height) && Extend(node, w, layer) == Some(after)
    ensures BelowHeight(after.assets, height) == w.assets && AssetsBelow(after.assets, height + 1)
  {
    EventsGrow(node, w.assets, EventsOf(layer.payloads, height), height);
    GrowthUndone(w.assets, after.assets, height);
  }

  lemma BlockAdded(h: Hashing, c: Chain, b: Block, txs: seq<Tx>)
    requires AddBlock(h, c, b, txs).Some?
    ensures |AddBlock(h, c, b, txs).value.blocks| == |c.blocks| + 1
  {}

  lemma ExtendedChain(h: Hashing, c: Chain, b: Block, txs: seq<Tx>, after: Chain)
    requires InOrder(c.ledger) && AllConsistent(b, txs) && AddBlock(h, c, b, txs) == Some(after)
    ensures InOrder(after.ledger) && |after.blocks| == |c.blocks| + 1
    ensures PopBlock(h, after) == Some((c, b, Reversed(txs)))
  {
    PopAdded(h, c, b, txs);
    BlockAdded(h, c, b, txs);
  }

  lemma RetractIs(node: Node, after: World, w: World, b: Block, txs: seq<Tx>)
    requires PopBlock(node.hashing, after.chain) == Some((w.chain, b, txs))
    requires after.chain.blocks != [] && BelowHeight(after.assets, |after.chain.blocks| - 1) == w.assets
    ensures Retract(node, after) == Some(w)
  {}

  /** Popping a layer that was just added gives back the world before it. */
  lemma RetractExtended(node: Node, w: World, layer: Layer, height: nat, after: World)
    requires Orderly(w, height) && ConsistentLayer(layer) && Extend(node, w, layer) == Some(after)
    ensures Orderly(after, height + 1) && Retract(node, after) == Some(w)
  {
    ExtendedAssets(node, w, layer, height, after);
    ExtendedChain(node.hashing, w.chain, layer.block, layer.txs, after.chain);
    RetractIs(node, after, w, layer.block, Reversed(layer.txs));
  }

  ghost function Extending(node: Node): (World, Layer) -> Option<World> {
    (w, layer) => Extend(node, w, layer)
  }

  /** The world after adding layers to an empty chain. */
  ghost function WorldAfter(node: Node, layers: seq<Layer>): Option<World> {
    Fold(Extending(node), GENESIS, layers)
  }

  ghost predicate AllConsistentLayers(layers: seq<Layer>) {
    forall i :: 0 <= i < |layers| ==> ConsistentLayer(layers[i])
  }

  lemma {:induction false} WorldOrderly(node: Node, layers: seq<Layer>)
    requires AllConsistentLayers(layers) && WorldAfter(node, layers).Some?
    ensures Orderly(WorldAfter(node, layers).value, |layers|)
    decreases |layers|
  {
    if layers != [] {
      var k := |layers| - 1;
      WorldOrderly(node, layers[..k]);
      RetractExtended(node, WorldAfter(node, layers[..k]).value, layers[k], k, WorldAfter(node, layers).value);
    }
  }

  /** Popping the top of a world built from consistent layers gives the world of the others. */
  lemma RetractTop(node: Node, layers: seq<Layer>)
    requires AllConsistentLayers(layers) && WorldAfter(node, layers).Some? && layers != []
    ensures Retract(node, WorldAfter(node, layers).value) == WorldAfter(node, layers[..|layers| - 1])
  {
    var k := |layers| - 1;
    WorldOrderly(node, layers[..k]);
    RetractExtended(node, WorldAfter(node, layers[..k]).value, layers[k], k, WorldAfter(node, layers).value);
  }

  ghost predicate ConsistentMoves(moves: seq<Move>) {
    forall i :: 0 <= i < |moves| ==> moves[i].Add? ==> ConsistentLayer(moves[i].layer)
  }

  /** The world is the one of the layers on the chain. */
  ghost predicate Rebuilt(node: Node, p: Progress) {
    AllConsistentLayers(p.layers) && WorldAfter(node, p.layers) == Some(p.world)
  }

  lemma NextRebuilt(node: Node, p: Progress, move: Move)
    requires Rebuilt(node, p) && (move.Add? ==> ConsistentLayer(move.layer))
    ensures Rebuilt(node, Next(node, p, move))
  {
    match move {
      case Add(layer) =>
        assert (p.layers + [layer])[..|p.layers|] == p.layers;
      case Pop =>
        if p.layers != [] {
          RetractTop(node, p.layers);
        }
    }
  }

  /** In every run of consistent blocks, spent keys, transactions, outputs and assets are those of the surviving blocks. */
  lemma {:induction false} RunRebuilt(node: Node, moves: seq<Move>)
    requires ConsistentMoves(moves)
    ensures Rebuilt(node, Run(node, moves))
    decreases |moves|
  {
    if moves != [] {
      var k := |moves| - 1;
      RunRebuilt(node, moves[..k]);
      NextRebuilt(node, Run(node, moves[..k]), moves[k]);
    }
  }

  /** In such a run, a pop fails only on an empty chain. */
  lemma PopSucceeds(node: Node, moves: seq<Move>)
    requires ConsistentMoves(moves)
    ensures Retract(node, Run(node, moves).world).Some? <==> Run(node, moves).layers != []
  {
    var p := Run(node, moves);
    RunRebuilt(node, moves);
    if p.layers != [] {
      RetractTop(node, p.layers);
      PrefixBuilt(node, p.layers);
    }
  }

  lemma PrefixBuilt(node: Node, layers: seq<Layer>)
    requires layers != [] && WorldAfter(node, layers).Some?
    ensures WorldAfter(node, layers[..|layers| - 1]).Some?
  {}

  // ---------- the blocks of a run are linked ----------

  /** Every block names the one before it, and no two have the same hash. */
  ghost predicate Linked(h: Hashing, blocks: seq<Block>) {
    && (forall k :: 1 <= k < |blocks| ==> blocks[k].prev == h.block(blocks[k - 1]))
    && forall i, j :: 0 <= i < j < |blocks| ==> h.block(blocks[i]) != h.block(blocks[j])
  }

  lemma LinkedNext(h: Hashing, blocks: seq<Block>, b: Block)
    requires Linked(h, blocks) && Attaches(h, blocks, b)
    ensures Linked(h, blocks + [b])
  {}

  lemma LinkedPrefix(h: Hashing, blocks: seq<Block>, k: nat)
    requires Linked(h, blocks) && k <= |blocks|
    ensures Linked(h, blocks[..k])
  {}

  /** The blocks of the chain are those of the layers, linked. */
  ghost predicate ChainOfLayers(h: Hashing, p: Progress) {
    && |p.world.chain.blocks| == |p.layers| && Linked(h, p.world.chain.blocks)
    && forall k :: 0 <= k < |p.layers| ==> p.world.chain.blocks[k] == p.layers[k].block
  }

  lemma BlockAttached(h: Hashing, c: Chain, b: Block, txs: seq<Tx>)
    requires AddBlock(h, c, b, txs).Some?
    ensures AddBlock(h, c, b, txs).value.blocks == c.blocks + [b] && Attaches(h, c.blocks, b)
  {}

  lemma BlockDetached(h: Hashing, c: Chain)
    requires PopBlock(h, c).Some?
    ensures c.blocks != [] && PopBlock(h, c).value.0.blocks == c.blocks[..|c.blocks| - 1]
  {}

  lemma NextLinked(node: Node, p: Progress, move: Move)
    requires ChainOfLayers(node.hashing, p)
    ensures ChainOfLayers(node.hashing, Next(node, p, move))
  {
    match move {
      case Add(layer) =>
        if Extend(node, p.world, layer).Some? {
          BlockAttached(node.hashing, p.world.chain, layer.block, layer.txs);
          LinkedNext(node.hashing, p.world.chain.blocks, layer.block);
        }
      case Pop =>
        if Retract(node, p.world).Some? {
          BlockDetached(node.hashing, p.world.chain);
          LinkedPrefix(node.hashing, p.world.chain.blocks, |p.world.chain.blocks| - 1);
        }
    }
  }

  /** In every run the chain is the surviving blocks, each on the one before it, all of different hashes. */
  lemma {:induction false} RunLinked(node: Node, moves: seq<Move>)
    ensures ChainOfLayers(node.hashing, Run(node, moves))
    decreases |moves|
  {
    if moves != [] {
      var k := |moves| - 1;
      RunLinked(node, moves[..k]);
      NextLinked(node, Run(node, moves[..k]), moves[k]);
    }
  }

  // ---------- everything stored is of the surviving blocks ----------

  function ImagesOfLayers(layers: seq<Layer>): set<Hash> {
    if layers == [] then {}
    else
      var k := |layers| - 1;
      ImagesOfLayers(layers[..k]) + ImagesOfAll(BlockTxs(layers[k].block, layers[k].txs))
  }

  function HashesOfLayers(h: Hashing, layers: seq<Layer>): set<Hash> {
    if layers == [] then {}
    else
      var k := |layers| - 1;
      HashesOfLayers(h, layers[..k]) + SetOf(BlockHashes(h, layers[k].block))
  }

  ghost predicate HasLayer(h: Hashing, l: Ledger, layer: Layer, height: nat) {
    AllHave(l, BlockHashes(h, layer.block), BlockTxs(layer.block, layer.txs), height)
  }

  ghost predicate HasLayers(h: Hashing, l: Ledger, layers: seq<Layer>) {
    forall k :: 0 <= k < |layers| ==> HasLayer(h, l, layers[k], k)
  }

  /** Every layer's transactions are stored at its height, and no other key image or transaction is. */
  ghost predicate StoresLayers(h: Hashing, l: Ledger, layers: seq<Layer>) {
    InOrder(l) && HasLayers(h, l, layers) && NewAre(NOTHING, l, ImagesOfLayers(layers), HashesOfLayers(h, layers))
  }

  lemma HasLayerStill(h: Hashing, l: Ledger, m: Ledger, layer: Layer, height: nat)
    requires HasLayer(h, l, layer, height) && LedgerGrown(l, m)
    ensures HasLayer(h, m, layer, height)
  {
    var hashes, txs := BlockHashes(h, layer.block), BlockTxs(layer.block, layer.txs);
    forall i | 0 <= i < |txs| ensures HasTx(m, hashes[i], txs[i], height) {
      HasTxStill(l, m, hashes[i], txs[i], height);
    }
  }

  lemma HasLayersNext(h: Hashing, l: Ledger, m: Ledger, layers: seq<Layer>, layer: Layer)
    requires HasLayers(h, l, layers) && LedgerGrown(l, m) && HasLayer(h, m, layer, |layers|)
    ensures HasLayers(h, m, layers + [layer])
  {
    var all := layers + [layer];
    forall k | 0 <= k < |all| ensures HasLayer(h, m, all[k], k) {
      if k < |layers| {
        HasLayerStill(h, l, m, layers[k], k);
      }
    }
  }

  lemma NewLayers(h: Hashing, l: Ledger, m: Ledger, layers: seq<Layer>, layer: Layer)
    requires NewAre(NOTHING, l, ImagesOfLayers(layers), HashesOfLayers(h, layers))
    requires NewAre(l, m, ImagesOfAll(BlockTxs(layer.block, layer.txs)), SetOf(BlockHashes(h, layer.block)))
    ensures NewAre(NOTHING, m, ImagesOfLayers(layers + [layer]), HashesOfLayers(h, layers + [layer]))
  {
    assert (layers + [layer])[..|layers|] == layers;
    NewTransitive(NOTHING, l, m, ImagesOfLayers(layers), HashesOfLayers(h, layers),
                  ImagesOfAll(BlockTxs(layer.block, layer.txs)), SetOf(BlockHashes(h, layer.block)));
  }

  lemma StoresNext(h: Hashing, l: Ledger, m: Ledger, layers: seq<Layer>, layer: Layer)
    requires StoresLayers(h, l, layers)
    requires HasTxs(l, m, BlockHashes(h, layer.block), BlockTxs(layer.block, layer.txs), |layers|)
    ensures StoresLayers(h, m, layers + [layer])
  {
    HasLayersNext(h, l, m, layers, layer);
    NewLayers(h, l, m, layers, layer);
  }

  lemma StoresNone(h: Hashing)
    ensures StoresLayers(h, NOTHING, [])
  {
    assert NOTHING.txs.Keys == {};
  }

  ghost predicate WorldStores(h: Hashing, w: World, layers: seq<Layer>) {
    |w.chain.blocks| == |layers| && StoresLayers(h, w.chain.ledger, layers)
  }

  lemma ExtendStores(node: Node, before: World, w: World, layers: seq<Layer>, layer: Layer)
    requires WorldStores(node.hashing, before, layers) && Extend(node, before, layer) == Some(w)
    ensures WorldStores(node.hashing, w, layers + [layer])
  {
    AddBlockStores(node.hashing, before.chain, layer.block, layer.txs, w.chain);
    StoresNext(node.hashing, before.chain.ledger, w.chain.ledger, layers, layer);
  }

  ghost function Storing(h: Hashing): (World, seq<Layer>) -> bool {
    (w, layers) => WorldStores(h, w, layers)
  }

  lemma ExtendingStores(node: Node)
    ensures Keeps(Extending(node), Storing(node.hashing))
  {
    forall w: World, layers: seq<Layer>, layer: Layer | WorldStores(node.hashing, w, layers) && Extend(node, w, layer).Some?
      ensures WorldStores(node.hashing, Extend(node, w, layer).value, layers + [layer])
    {
      ExtendStores(node, w, Extend(node, w, layer).value, layers, layer);
    }
  }

  lemma WorldAfterStores(node: Node, layers: seq<Layer>)
    requires WorldAfter(node, layers).Some?
    ensures WorldStores(node.hashing, WorldAfter(node, layers).value, layers)
  {
    StoresNone(node.hashing);
    ExtendingStores(node);
    FoldKeeps(Extending(node), Storing(node.hashing), GENESIS, layers);
  }

  /**
   In every run of consistent blocks, the transactions of each surviving block are stored at its height with all their
   outputs, and exactly their hashes and key images are there.
   */
  lemma RunStores(node: Node, moves: seq<Move>)
    requires ConsistentMoves(moves)
    ensures StoresLayers(node.hashing, Run(node, moves).world.chain.ledger, Run(node, moves).layers)
  {
    RunRebuilt(node, moves);
    WorldAfterStores(node, Run(node, moves).layers);
  }
}
