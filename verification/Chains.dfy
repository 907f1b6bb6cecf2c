/**
 Transactions and blocks: what adding one stores, what removing one takes away,
 and that popping a block undoes adding it.
 */
module Chains {
  import opened Results
  import opened Hashes
  import opened Folds
  import opened Ledgers

  datatype StoredTx = StoredTx(id: nat, tx: Tx, height: nat, indices: seq<nat>)

  /** Spent key images, transactions by hash, and their outputs. */
  datatype Ledger = Ledger(spent: set<Hash>, txs: map<Hash, StoredTx>, outs: Outs)

  // ---------- inputs ----------

  /** A key image that is spent already, or an unsupported input, is an error. */
  function Spend(spent: set<Hash>, input: Input): Option<set<Hash>> {
    match input
    case ToKey(image) => if image in spent then None else Some(spent + {image})
    case Gen => Some(spent)
    case Unsupported => None
  }

  const SPEND: (set<Hash>, Input) -> Option<set<Hash>> := (spent, input) => Spend(spent, input)

  function KeyImages(vin: seq<Input>): set<Hash> {
    set i | 0 <= i < |vin| && vin[i].ToKey? :: vin[i].image
  }

  /** Key images that are all new and pairwise distinct. */
  ghost predicate FreshImages(spent: set<Hash>, vin: seq<Input>) {
    && (forall i :: 0 <= i < |vin| ==> !vin[i].Unsupported? && (vin[i].ToKey? ==> vin[i].image !in spent))
    && forall i, j :: 0 <= i < j < |vin| && vin[i].ToKey? && vin[j].ToKey? ==> vin[i].image != vin[j].image
  }

  lemma {:induction false} SpendAll(spent: set<Hash>, vin: seq<Input>)
    ensures Fold(SPEND, spent, vin) == if FreshImages(spent, vin) then Some(spent + KeyImages(vin)) else None
    decreases |vin|
  {
    if vin == [] {
      assert KeyImages(vin) == {};
      assert spent + {} == spent;
    } else {
      var k := |vin| - 1;
      SpendAll(spent, vin[..k]);
      SpendLast(spent, vin);
    }
  }

  lemma SpendLast(spent: set<Hash>, vin: seq<Input>)
    requires vin != []
    ensures var k := |vin| - 1; var before := spent + KeyImages(vin[..k]);
      && (FreshImages(spent, vin) <==> FreshImages(spent, vin[..k]) && Spend(before, vin[k]).Some?)
      && (FreshImages(spent, vin) ==> Spend(before, vin[k]) == Some(spent + KeyImages(vin)))
  {
    ImagesLast(vin);
    if FreshImages(spent, vin) {
      FreshPrefix(spent, vin);
      var k := |vin| - 1;
      if vin[k].ToKey? {
        assert spent + KeyImages(vin[..k]) + {vin[k].image} == spent + KeyImages(vin);
      } else {
        assert spent + KeyImages(vin[..k]) == spent + KeyImages(vin);
      }
    } else if FreshImages(spent, vin[..|vin| - 1]) && Spend(spent + KeyImages(vin[..|vin| - 1]), vin[|vin| - 1]).Some? {
      FreshNext(spent, vin);
    }
  }

  lemma FreshPrefix(spent: set<Hash>, vin: seq<Input>)
    requires vin != [] && FreshImages(spent, vin)
    ensures var k := |vin| - 1;
      FreshImages(spent, vin[..k]) && !vin[k].Unsupported?
      && (vin[k].ToKey? ==> vin[k].image !in spent + KeyImages(vin[..k]))
  {}

  lemma FreshNext(spent: set<Hash>, vin: seq<Input>)
    requires vin != [] && FreshImages(spent, vin[..|vin| - 1]) && Spend(spent + KeyImages(vin[..|vin| - 1]), vin[|vin| - 1]).Some?
    ensures FreshImages(spent, vin)
  {
    var k := |vin| - 1;
    forall i | 0 <= i < |vin| ensures !vin[i].Unsupported? && (vin[i].ToKey? ==> vin[i].image !in spent) {
      assert i < k ==> vin[..k][i] == vin[i];
    }
    forall i, j | 0 <= i < j < |vin| && vin[i].ToKey? && vin[j].ToKey? ensures vin[i].image != vin[j].image {
      assert vin[..k][i] == vin[i] && vin[i].image in KeyImages(vin[..k]);
      assert j < k ==> vin[..k][j] == vin[j];
    }
  }

  lemma ImagesLast(vin: seq<Input>)
    requires vin != []
    ensures var k := |vin| - 1;
      KeyImages(vin) == KeyImages(vin[..k]) + if vin[k].ToKey? then {vin[k].image} else {}
  {
    var k := |vin| - 1;
    forall m | m in KeyImages(vin) ensures m in KeyImages(vin[..k]) || (vin[k].ToKey? && m == vin[k].image) {
      var i :| 0 <= i < |vin| && vin[i].ToKey? && vin[i].image == m;
      if i < k {
        assert vin[..k][i].image == m;
      }
    }
    forall m | m in KeyImages(vin[..k]) ensures m in KeyImages(vin) {
      var i :| 0 <= i < k && vin[..k][i].ToKey? && vin[..k][i].image == m;
      assert vin[i].image == m;
    }
  }

  // ---------- transactions ----------

  /** Key images spent, the transaction stored under its hash, its outputs listed. */
  function AddTx(l: Ledger, hash: Hash, tx: Tx, height: nat): Option<Ledger> {
    match Fold(SPEND, l.spent, tx.vin)
    case None => None
    case Some(spent) =>
      if hash in l.txs then None
      else
        match AddOuts(l.outs, hash, tx, height, |tx.vout|)
        case None => None
        case Some(a) => Some(Ledger(spent, l.txs[hash := StoredTx(|l.txs|, tx, height, a.indices)], a.outs))
  }

  /** The key images, outputs and data of a stored transaction removed. */
  function RemoveTx(l: Ledger, hash: Hash): Option<Ledger> {
    if hash !in l.txs || |l.txs[hash].indices| != |l.txs[hash].tx.vout| then None
    else
      var t := l.txs[hash];
      match RemoveOuts(l.outs, RemovedAtZero(t.tx), t.tx.vout, t.indices, |t.tx.vout|)
      case None => None
      case Some(outs) => Some(Ledger(l.spent - KeyImages(t.tx.vin), l.txs - {hash}, outs))
  }

  /** A transaction is added exactly if its key images are fresh and distinct, its hash is new and its outputs can be stored. */
  lemma AddTxIff(l: Ledger, hash: Hash, tx: Tx, height: nat)
    ensures AddTx(l, hash, tx, height).Some? <==>
      FreshImages(l.spent, tx.vin) && hash !in l.txs && AddOuts(l.outs, hash, tx, height, |tx.vout|).Some?
  {
    SpendAll(l.spent, tx.vin);
  }

  lemma AddTxValid(l: Ledger, hash: Hash, tx: Tx, height: nat)
    requires Valid(l.outs) && AddTx(l, hash, tx, height).Some?
    ensures Valid(AddTx(l, hash, tx, height).value.outs)
  {
    AddOutsValid(l.outs, hash, tx, height, |tx.vout|);
  }

  lemma SpentBack(spent: set<Hash>, vin: seq<Input>)
    requires FreshImages(spent, vin)
    ensures spent + KeyImages(vin) - KeyImages(vin) == spent
  {}

  /** Removing a transaction that was just added gives back the ledger exactly if the transaction is consistent. */
  lemma RemoveTxIff(l: Ledger, hash: Hash, tx: Tx, height: nat)
    requires Valid(l.outs) && AddTx(l, hash, tx, height).Some?
    ensures Valid(AddTx(l, hash, tx, height).value.outs)
    ensures RemoveTx(AddTx(l, hash, tx, height).value, hash) == Some(l) <==> Consistent(tx)
  {
    var after := AddTx(l, hash, tx, height).value;
    AddTxValid(l, hash, tx, height);
    SpendAll(l.spent, tx.vin);
    SpentBack(l.spent, tx.vin);
    UndoneIff(l.outs, hash, tx, height);
    assert after.txs - {hash} == l.txs;
  }

  // ---------- blocks ----------

  /** `header` stands for version, time and nonce. */
  datatype Block = Block(prev: Hash, minerTx: Tx, txHashes: seq<Hash>, header: Bytes)

  datatype Chain = Chain(ledger: Ledger, blocks: seq<Block>)

  /** The hashes of transactions and blocks. */
  datatype Hashing = Hashing(tx: Tx -> Hash, block: Block -> Hash)

  /** The first n transactions of a block added in order. */
  function AddTxs(add: (Ledger, Hash, Tx) -> Option<Ledger>, l: Ledger, hashes: seq<Hash>, txs: seq<Tx>, n: nat): Option<Ledger>
    requires n <= |txs| == |hashes|
  {
    if n == 0 then Some(l)
    else
      match AddTxs(add, l, hashes, txs, n - 1)
      case None => None
      case Some(m) => add(m, hashes[n - 1], txs[n - 1])
  }

  function Adding(height: nat): (Ledger, Hash, Tx) -> Option<Ledger> {
    (l: Ledger, hash: Hash, tx: Tx) => AddTx(l, hash, tx, height)
  }

  /** The block is new and its parent is the top block. */
  predicate Attaches(h: Hashing, blocks: seq<Block>, b: Block) {
    && (forall i :: 0 <= i < |blocks| ==> h.block(blocks[i]) != h.block(b))
    && (blocks != [] ==> h.block(blocks[|blocks| - 1]) == b.prev)
  }

  /** The miner transaction, then the others under the hashes the block lists, then the block itself. */
  function AddBlock(h: Hashing, c: Chain, b: Block, txs: seq<Tx>): Option<Chain> {
    if |b.txHashes| != |txs| then None
    else
      match AddTx(c.ledger, h.tx(b.minerTx), b.minerTx, |c.blocks|)
      case None => None
      case Some(l) =>
        match AddTxs(Adding(|c.blocks|), l, b.txHashes, txs, |txs|)
        case None => None
        case Some(m) => if Attaches(h, c.blocks, b) then Some(Chain(m, c.blocks + [b])) else None
  }

  datatype Popped = Popped(ledger: Ledger, txs: seq<Tx>)

  /** The first n listed transactions removed, the last one first, and returned in that order. */
  function TakeTxs(take: (Ledger, Hash) -> Option<(Ledger, Tx)>, l: Ledger, hashes: seq<Hash>, n: nat): Option<Popped>
    requires n <= |hashes|
    decreases n
  {
    if n == 0 then Some(Popped(l, []))
    else
      match take(l, hashes[n - 1])
      case None => None
      case Some(t) =>
        match TakeTxs(take, t.0, hashes, n - 1)
        case None => None
        case Some(p) => Some(Popped(p.ledger, [t.1] + p.txs))
  }

  /** A transaction read and then removed. */
  function TakeTx(l: Ledger, hash: Hash): Option<(Ledger, Tx)> {
    match RemoveTx(l, hash)
    case None => None
    case Some(m) => Some((m, l.txs[hash].tx))
  }

  const TAKE: (Ledger, Hash) -> Option<(Ledger, Tx)> := (l: Ledger, hash: Hash) => TakeTx(l, hash)

  function Reversed<T>(s: seq<T>): (r: seq<T>)
    ensures |r| == |s|
  {
    if s == [] then [] else [s[|s| - 1]] + Reversed(s[..|s| - 1])
  }

  /** The top block, its transactions in reverse order, and the chain without it. */
  function PopBlock(h: Hashing, c: Chain): Option<(Chain, Block, seq<Tx>)> {
    if c.blocks == [] then None
    else
      var k := |c.blocks| - 1;
      var b := c.blocks[k];
      match TakeTxs(TAKE, c.ledger, b.txHashes, |b.txHashes|)
      case None => None
      case Some(p) =>
        match RemoveTx(p.ledger, h.tx(b.minerTx))
        case None => None
        case Some(l) => Some((Chain(l, c.blocks[..k]), b, p.txs))
  }

  ghost predicate AllConsistent(b: Block, txs: seq<Tx>) {
    Consistent(b.minerTx) && forall i :: 0 <= i < |txs| ==> Consistent(txs[i])
  }

  /** Taking undoes adding, as long as the ledger is in order and the transaction is good. */
  ghost predicate Inverse(add: (Ledger, Hash, Tx) -> Option<Ledger>, take: (Ledger, Hash) -> Option<(Ledger, Tx)>,
                          inOrder: Ledger -> bool, good: Tx -> bool) {
    forall l, hash, tx {:trigger add(l, hash, tx)} :: inOrder(l) && good(tx) && add(l, hash, tx).Some? ==>
      inOrder(add(l, hash, tx).value) && take(add(l, hash, tx).value, hash) == Some((l, tx))
  }

  /** The transactions of a block are taken in reverse order and leave the ledger as it was. */
  lemma {:induction false} TakeAdded(add: (Ledger, Hash, Tx) -> Option<Ledger>, take: (Ledger, Hash) -> Option<(Ledger, Tx)>,
                                     inOrder: Ledger -> bool, good: Tx -> bool, l: Ledger, hashes: seq<Hash>, txs: seq<Tx>, n: nat)
    requires Inverse(add, take, inOrder, good) && inOrder(l) && forall i :: 0 <= i < |txs| ==> good(txs[i])
    requires n <= |txs| == |hashes| && AddTxs(add, l, hashes, txs, n).Some?
    ensures inOrder(AddTxs(add, l, hashes, txs, n).value)
    ensures TakeTxs(take, AddTxs(add, l, hashes, txs, n).value, hashes, n) == Some(Popped(l, Reversed(txs[..n])))
    decreases n
  {
    if n > 0 {
      TakeAdded(add, take, inOrder, good, l, hashes, txs, n - 1);
      assert txs[..n][..n - 1] == txs[..n - 1];
    }
  }

  ghost predicate InOrder(l: Ledger) {
    Valid(l.outs)
  }

  lemma AddingInverse(height: nat, inOrder: Ledger -> bool, good: Tx -> bool)
    requires forall l :: inOrder(l) <==> InOrder(l)
    requires forall tx :: good(tx) <==> Consistent(tx)
    ensures Inverse(Adding(height), TAKE, inOrder, good)
  {
    forall l, hash, tx | inOrder(l) && good(tx) && AddTx(l, hash, tx, height).Some?
      ensures InOrder(AddTx(l, hash, tx, height).value) && TakeTx(AddTx(l, hash, tx, height).value, hash) == Some((l, tx))
    {
      RemoveTxIff(l, hash, tx, height);
    }
  }

  lemma TakeAddedTxs(l: Ledger, hashes: seq<Hash>, txs: seq<Tx>, height: nat)
    requires InOrder(l) && |txs| == |hashes| && AddTxs(Adding(height), l, hashes, txs, |txs|).Some?
    requires forall i :: 0 <= i < |txs| ==> Consistent(txs[i])
    ensures var after := AddTxs(Adding(height), l, hashes, txs, |txs|).value;
      InOrder(after) && TakeTxs(TAKE, after, hashes, |hashes|) == Some(Popped(l, Reversed(txs)))
  {
    ghost var inOrder: Ledger -> bool := l => InOrder(l);
    ghost var good: Tx -> bool := tx => Consistent(tx);
    AddingInverse(height, inOrder, good);
    TakeAdded(Adding(height), TAKE, inOrder, good, l, hashes, txs, |txs|);
    assert txs[..|txs|] == txs;
  }

  /** Popping a block that was just added gives back the chain, the block, and its transactions in reverse order. */
  lemma PopAdded(h: Hashing, c: Chain, b: Block, txs: seq<Tx>)
    requires InOrder(c.ledger) && AddBlock(h, c, b, txs).Some? && AllConsistent(b, txs)
    ensures InOrder(AddBlock(h, c, b, txs).value.ledger)
    ensures PopBlock(h, AddBlock(h, c, b, txs).value) == Some((c, b, Reversed(txs)))
  {
    var height := |c.blocks|;
    var l := AddTx(c.ledger, h.tx(b.minerTx), b.minerTx, height).value;
    RemoveTxIff(c.ledger, h.tx(b.minerTx), b.minerTx, height);
    TakeAddedTxs(l, b.txHashes, txs, height);
    assert (c.blocks + [b])[..height] == c.blocks;
  }

  /** Only the miner transaction of a block generates coins. */
  ghost predicate OnlyMinerGenerates(txs: seq<Tx>) {
    forall i :: 0 <= i < |txs| ==> !IsMiner(txs[i])
  }

  lemma OrdinaryConsistent(tx: Tx)
    requires !IsMiner(tx)
    ensures Consistent(tx)
  {
    assert |tx.vin| == 1 ==> !tx.vin[0].Gen?;
  }

  /** If only the miner transaction generates coins, popping undoes adding exactly if the miner transaction is consistent. */
  lemma PopAddedIff(h: Hashing, c: Chain, b: Block, txs: seq<Tx>)
    requires InOrder(c.ledger) && AddBlock(h, c, b, txs).Some? && OnlyMinerGenerates(txs)
    ensures PopBlock(h, AddBlock(h, c, b, txs).value) == Some((c, b, Reversed(txs))) <==> Consistent(b.minerTx)
  {
    var height := |c.blocks|;
    var l := AddTx(c.ledger, h.tx(b.minerTx), b.minerTx, height).value;
    forall i | 0 <= i < |txs| ensures Consistent(txs[i]) {
      OrdinaryConsistent(txs[i]);
    }
    RemoveTxIff(c.ledger, h.tx(b.minerTx), b.minerTx, height);
    TakeAddedTxs(l, b.txHashes, txs, height);
    assert (c.blocks + [b])[..height] == c.blocks;
  }

  lemma {:induction false} ReversedAt<T>(s: seq<T>, i: nat)
    requires i < |s|
    ensures Reversed(s)[i] == s[|s| - 1 - i]
    decreases |s|
  {
    if i > 0 {
      ReversedAt(s[..|s| - 1], i - 1);
    }
  }

  // ---------- what is stored of transactions and blocks ----------

  /** A transaction is stored under its hash with its height, its key images are spent and its outputs listed. */
  ghost predicate HasTx(l: Ledger, hash: Hash, tx: Tx, height: nat) {
    && hash in l.txs && l.txs[hash].tx == tx && l.txs[hash].height == height
    && KeyImages(tx.vin) <= l.spent
    && |l.txs[hash].indices| == |tx.vout| && AllStored(Added(l.outs, l.txs[hash].indices), hash, tx, height)
  }

  /** Everything stored is still there. */
  ghost predicate LedgerGrown(l: Ledger, m: Ledger) {
    && l.spent <= m.spent && Grown(l.outs, m.outs)
    && forall h :: h in l.txs ==> h in m.txs && m.txs[h] == l.txs[h]
  }

  lemma LedgerGrownTransitive(l: Ledger, m: Ledger, n: Ledger)
    requires LedgerGrown(l, m) && LedgerGrown(m, n)
    ensures LedgerGrown(l, n)
  {
    GrownTransitive(l.outs, m.outs, n.outs);
  }

  lemma LedgerGrownReflexive(l: Ledger)
    ensures LedgerGrown(l, l)
  {
    GrownReflexive(l.outs);
  }

  lemma HasTxStill(l: Ledger, m: Ledger, hash: Hash, tx: Tx, height: nat)
    requires HasTx(l, hash, tx, height) && LedgerGrown(l, m)
    ensures HasTx(m, hash, tx, height)
  {
    var indices := l.txs[hash].indices;
    forall i | 0 <= i < |indices| ensures IsStored(m.outs, hash, tx, height, i, indices[i]) {
      StoredStill(l.outs, m.outs, hash, tx, height, i, indices[i]);
    }
  }

  /** Adding a transaction stores it whole, spends exactly its key images, adds exactly its hash and changes nothing else. */
  lemma AddTxStores(l: Ledger, hash: Hash, tx: Tx, height: nat, m: Ledger)
    requires InOrder(l) && AddTx(l, hash, tx, height) == Some(m)
    ensures InOrder(m) && HasTx(m, hash, tx, height) && LedgerGrown(l, m)
    ensures NewAre(l, m, KeyImages(tx.vin), {hash}) && m.txs[hash].id == |l.txs|
  {
    AddTxValid(l, hash, tx, height);
    SpendAll(l.spent, tx.vin);
    AddOutsStored(l.outs, hash, tx, height, |tx.vout|);
  }

  function ImagesOfAll(txs: seq<Tx>): set<Hash> {
    if txs == [] then {} else ImagesOfAll(txs[..|txs| - 1]) + KeyImages(txs[|txs| - 1].vin)
  }

  function SetOf(hashes: seq<Hash>): set<Hash> {
    set h | h in hashes
  }

  ghost predicate AllHave(m: Ledger, hashes: seq<Hash>, txs: seq<Tx>, height: nat) {
    |hashes| == |txs| && forall i :: 0 <= i < |txs| ==> HasTx(m, hashes[i], txs[i], height)
  }

  /** Exactly the images and the hashes are new. */
  ghost predicate NewAre(l: Ledger, m: Ledger, images: set<Hash>, hashes: set<Hash>) {
    m.spent == l.spent + images && m.txs.Keys == l.txs.Keys + hashes
  }

  lemma NewTransitive(l: Ledger, m: Ledger, n: Ledger, images: set<Hash>, hashes: set<Hash>, more: set<Hash>, others: set<Hash>)
    requires NewAre(l, m, images, hashes) && NewAre(m, n, more, others)
    ensures NewAre(l, n, images + more, hashes + others)
  {}

  /** The transactions are all stored, and nothing else is new. */
  ghost predicate HasTxs(l: Ledger, m: Ledger, hashes: seq<Hash>, txs: seq<Tx>, height: nat) {
    && InOrder(m) && LedgerGrown(l, m) && AllHave(m, hashes, txs, height)
    && NewAre(l, m, ImagesOfAll(txs), SetOf(hashes))
  }

  lemma AllHaveNext(m: Ledger, n: Ledger, hashes: seq<Hash>, txs: seq<Tx>, height: nat, hash: Hash, tx: Tx)
    requires AllHave(m, hashes, txs, height) && LedgerGrown(m, n) && HasTx(n, hash, tx, height)
    ensures AllHave(n, hashes + [hash], txs + [tx], height)
  {
    var allHashes, allTxs := hashes + [hash], txs + [tx];
    forall i | 0 <= i < |allTxs| ensures HasTx(n, allHashes[i], allTxs[i], height) {
      if i < |txs| {
        HasTxStill(m, n, hashes[i], txs[i], height);
      }
    }
  }

  lemma NewNext(l: Ledger, m: Ledger, n: Ledger, hashes: seq<Hash>, txs: seq<Tx>, hash: Hash, tx: Tx)
    requires NewAre(l, m, ImagesOfAll(txs), SetOf(hashes)) && NewAre(m, n, KeyImages(tx.vin), {hash})
    ensures NewAre(l, n, ImagesOfAll(txs + [tx]), SetOf(hashes + [hash]))
  {
    assert (txs + [tx])[..|txs|] == txs;
    assert SetOf(hashes + [hash]) == SetOf(hashes) + {hash};
  }

  lemma HasTxsNext(l: Ledger, m: Ledger, n: Ledger, hashes: seq<Hash>, txs: seq<Tx>, height: nat, hash: Hash, tx: Tx)
    requires HasTxs(l, m, hashes, txs, height) && AddTx(m, hash, tx, height) == Some(n)
    ensures HasTxs(l, n, hashes + [hash], txs + [tx], height)
  {
    AddTxStores(m, hash, tx, height, n);
    LedgerGrownTransitive(l, m, n);
    AllHaveNext(m, n, hashes, txs, height, hash, tx);
    NewNext(l, m, n, hashes, txs, hash, tx);
  }

  lemma HasNone(l: Ledger, height: nat)
    requires InOrder(l)
    ensures HasTxs(l, l, [], [], height)
  {
    LedgerGrownReflexive(l);
    assert SetOf([]) == {};
  }

  /** What holds of a ledger and what was added to it is kept by adding. */
  ghost predicate Kept(add: (Ledger, Hash, Tx) -> Option<Ledger>, has: (Ledger, seq<Hash>, seq<Tx>) -> bool) {
    forall m, hashes, txs, hash, tx {:trigger has(m, hashes, txs), add(m, hash, tx)} ::
      has(m, hashes, txs) && add(m, hash, tx).Some? ==> has(add(m, hash, tx).value, hashes + [hash], txs + [tx])
  }

  lemma {:induction false} AddTxsKeep(add: (Ledger, Hash, Tx) -> Option<Ledger>, has: (Ledger, seq<Hash>, seq<Tx>) -> bool,
                                      l: Ledger, hashes: seq<Hash>, txs: seq<Tx>, n: nat)
    requires has(l, [], []) && Kept(add, has) && n <= |txs| == |hashes| && AddTxs(add, l, hashes, txs, n).Some?
    ensures has(AddTxs(add, l, hashes, txs, n).value, hashes[..n], txs[..n])
    decreases n
  {
    if n > 0 {
      AddTxsKeep(add, has, l, hashes, txs, n - 1);
      assert hashes[..n] == hashes[..n - 1] + [hashes[n - 1]] && txs[..n] == txs[..n - 1] + [txs[n - 1]];
    }
  }

  ghost function Having(l: Ledger, height: nat): (Ledger, seq<Hash>, seq<Tx>) -> bool {
    (m, hashes, txs) => HasTxs(l, m, hashes, txs, height)
  }

  lemma HavingKept(l: Ledger, height: nat)
    ensures Kept(Adding(height), Having(l, height))
  {
    forall m: Ledger, hashes: seq<Hash>, txs: seq<Tx>, hash: Hash, tx: Tx
      | HasTxs(l, m, hashes, txs, height) && AddTx(m, hash, tx, height).Some?
      ensures HasTxs(l, AddTx(m, hash, tx, height).value, hashes + [hash], txs + [tx], height)
    {
      HasTxsNext(l, m, AddTx(m, hash, tx, height).value, hashes, txs, height, hash, tx);
    }
  }

  lemma AddTxsStore(l: Ledger, hashes: seq<Hash>, txs: seq<Tx>, height: nat, after: Ledger)
    requires InOrder(l) && |txs| == |hashes| && AddTxs(Adding(height), l, hashes, txs, |txs|) == Some(after)
    ensures HasTxs(l, after, hashes, txs, height)
  {
    HasNone(l, height);
    HavingKept(l, height);
    AddTxsKeep(Adding(height), Having(l, height), l, hashes, txs, |txs|);
    assert hashes[..|txs|] == hashes && txs[..|txs|] == txs;
  }

  /** The hashes and the transactions of a block, the miner transaction first. */
  function BlockHashes(h: Hashing, b: Block): seq<Hash> {
    [h.tx(b.minerTx)] + b.txHashes
  }

  function BlockTxs(b: Block, txs: seq<Tx>): seq<Tx> {
    [b.minerTx] + txs
  }

  lemma {:induction false} AddTxsFromFirst(add: (Ledger, Hash, Tx) -> Option<Ledger>, l: Ledger, first: Hash, tx: Tx,
                                           hashes: seq<Hash>, txs: seq<Tx>, m: Ledger, n: nat)
    requires add(l, first, tx) == Some(m) && n <= |txs| == |hashes|
    ensures AddTxs(add, l, [first] + hashes, [tx] + txs, n + 1) == AddTxs(add, m, hashes, txs, n)
    decreases n
  {
    var allHashes, allTxs := [first] + hashes, [tx] + txs;
    if n == 0 {
      assert AddTxs(add, l, allHashes, allTxs, 0) == Some(l);
      assert allHashes[0] == first && allTxs[0] == tx;
    } else {
      AddTxsFromFirst(add, l, first, tx, hashes, txs, m, n - 1);
      assert allHashes[n] == hashes[n - 1] && allTxs[n] == txs[n - 1];
    }
  }

  /** A block that is added stores all its transactions at its height, and nothing else. */
  lemma AddBlockStores(h: Hashing, c: Chain, b: Block, txs: seq<Tx>, d: Chain)
    requires InOrder(c.ledger) && AddBlock(h, c, b, txs) == Some(d)
    ensures d.blocks == c.blocks + [b] && Attaches(h, c.blocks, b)
    ensures HasTxs(c.ledger, d.ledger, BlockHashes(h, b), BlockTxs(b, txs), |c.blocks|)
  {
    var m := AddTx(c.ledger, h.tx(b.minerTx), b.minerTx, |c.blocks|).value;
    var hashes, all := BlockHashes(h, b), BlockTxs(b, txs);
    AddTxsFromFirst(Adding(|c.blocks|), c.ledger, h.tx(b.minerTx), b.minerTx, b.txHashes, txs, m, |txs|);
    AddTxsStore(c.ledger, hashes, all, |c.blocks|, d.ledger);
  }

  // ---------- a transaction whose removal does not undo its addition ----------

  const NO_OUTS: Outs := Outs(map[], map[])
  const NOTHING: Ledger := Ledger({}, map[], NO_OUTS)

  /** A transaction with two generating inputs: its output is stored with amount zero, and looked for with its own. */
  function TwiceGenerating(key: Hash): Tx {
    Tx(2, [Gen, Gen], [Output(5, Some(key))], 0, [], [])
  }

  lemma NotUndone(hash: Hash, key: Hash, height: nat)
    ensures AddTx(NOTHING, hash, TwiceGenerating(key), height).Some?
    ensures RemoveTx(AddTx(NOTHING, hash, TwiceGenerating(key), height).value, hash) != Some(NOTHING)
  {
    var tx := TwiceGenerating(key);
    assert tx.vin[0].Gen? && IsMiner(tx);
    assert tx.vout[0].amount != 0 && !Consistent(tx);
    assert FreshImages({}, tx.vin);
    SpendAll({}, tx.vin);
    assert AddOuts(NO_OUTS, hash, tx, height, 0) == Some(Added(NO_OUTS, []));
    assert AddOuts(NO_OUTS, hash, tx, height, 1).Some?;
    RemoveTxIff(NOTHING, hash, tx, height);
  }
}
