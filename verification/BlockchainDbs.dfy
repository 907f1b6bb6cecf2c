/**
 The database object: transactions and blocks added and removed by the loops of
 the original, with the asset tables beside them.
 */
module BlockchainDbs {
  import opened Results
  import opened Hashes
  import opened Folds
  import opened Ledgers
  import opened Chains
  import opened AssetTransactions
  import opened AssetDbs

  class BlockchainDb {
    var ledger: Ledger
    var blocks: seq<Block>
    const assets: AssetDb

    constructor ()
      ensures ledger == NOTHING && blocks == [] && fresh(assets)
      ensures assets.Valid() && assets.State() == Assets(map[], map[], map[])
    {
      ledger, blocks := NOTHING, [];
      assets := new AssetDb();
    }

    function State(): Chain
      reads this
    {
      Chain(ledger, blocks)
    }

    /** A key image that is spent already is an error. */
    method AddSpentKey(image: Hash) returns (ok: bool)
      modifies `ledger
      ensures ok <==> image !in old(ledger).spent
      ensures ledger == if ok then old(ledger).(spent := old(ledger).spent + {image}) else old(ledger)
    {
      if image in ledger.spent {
        return false;
      }
      ledger := ledger.(spent := ledger.spent + {image});
      return true;
    }

    /** The inputs of a transaction; also says whether one of them generates coins. */
    method AddInputs(vin: seq<Input>) returns (ok: bool, minerTx: bool)
      modifies `ledger
      ensures ok <==> Fold(SPEND, old(ledger).spent, vin).Some?
      ensures ok ==> ledger == old(ledger).(spent := Fold(SPEND, old(ledger).spent, vin).value)
      ensures ok ==> (minerTx <==> exists i :: 0 <= i < |vin| && vin[i].Gen?)
    {
      minerTx := false;
      ghost var before := ledger;
      for k := 0 to |vin|
        invariant Fold(SPEND, before.spent, vin[..k]) == Some(ledger.spent) && ledger == before.(spent := ledger.spent)
        invariant minerTx <==> exists i :: 0 <= i < k && vin[i].Gen?
      {
        FoldNext(SPEND, before.spent, vin, k);
        var added := true;
        match vin[k] {
          case ToKey(image) => added := AddSpentKey(image);
          case Gen => minerTx := true;
          case Unsupported => added := false;
        }
        if !added {
          FoldFails(SPEND, before.spent, vin, k + 1);
          return false, minerTx;
        }
      }
      assert vin[..|vin|] == vin;
      return true, minerTx;
    }

    /** One output in the list of its amount. */
    method AddOutput(hash: Hash, amount: nat, key: Option<Hash>, local: nat, unlockTime: nat, commitment: Option<Commitment>)
      returns (r: Option<nat>)
      modifies `ledger
      ensures r.None? <==> key.None? || (amount == 0 && commitment.None?)
      ensures r.None? ==> ledger == old(ledger)
      ensures r.Some? ==>
        var o := OutKey(|ListOf(old(ledger).outs.amounts, amount)|, |old(ledger).outs.origins|, key.value, unlockTime, |blocks|,
                        if amount == 0 then commitment else None);
        r.value == o.index && ledger == old(ledger).(outs := Push(old(ledger).outs, amount, o, (hash, local)))
    {
      if key.None? || (amount == 0 && commitment.None?) {
        return None;
      }
      var outs := ledger.outs;
      var list := if amount in outs.amounts then outs.amounts[amount] else [];
      var o := OutKey(|list|, |outs.origins|, key.value, unlockTime, |blocks|, if amount == 0 then commitment else None);
      ledger := ledger.(outs := Outs(outs.amounts[amount := list + [o]], outs.origins[o.id := (hash, local)]));
      return Some(o.index);
    }

    /** Output i of a transaction; those of a version 2 miner transaction are stored with amount zero. */
    method AddTxOutput(hash: Hash, tx: Tx, minerTx: bool, i: nat) returns (index: Option<nat>)
      requires i < |tx.vout| && (minerTx <==> IsMiner(tx))
      modifies `ledger
      ensures index.Some? <==> NewKey(old(ledger).outs, tx, i, |blocks|).Some?
      ensures index.Some? ==>
        var o := NewKey(old(ledger).outs, tx, i, |blocks|).value;
        && index.value == o.index
        && ledger == old(ledger).(outs := Push(old(ledger).outs, ListFor(StoredAtZero(tx), tx.vout[i]), o, (hash, i)))
    {
      var vout := tx.vout[i];
      if minerTx && tx.version == 2 {
        index := AddOutput(hash, 0, vout.key, i, tx.unlockTime, Some(ZeroCommit(vout.amount)));
      } else {
        var mask := if tx.version > 1 && i < |tx.masks| then Some(Mask(tx.masks[i])) else None;
        index := AddOutput(hash, vout.amount, vout.key, i, tx.unlockTime, mask);
      }
    }

    /** All outputs of a transaction, with their indices in their lists. */
    method AddOutputs(hash: Hash, tx: Tx, minerTx: bool) returns (r: Option<seq<nat>>)
      requires minerTx <==> IsMiner(tx)
      modifies `ledger
      ensures r.Some? <==> AddOuts(old(ledger).outs, hash, tx, |blocks|, |tx.vout|).Some?
      ensures r.Some? ==>
        var a := AddOuts(old(ledger).outs, hash, tx, |blocks|, |tx.vout|).value;
        r.value == a.indices && ledger == old(ledger).(outs := a.outs)
    {
      var indices: seq<nat> := [];
      ghost var before := ledger;
      for i := 0 to |tx.vout|
        invariant ledger == before.(outs := ledger.outs)
        invariant AddOuts(before.outs, hash, tx, |blocks|, i) == Some(Added(ledger.outs, indices))
      {
        var index := AddTxOutput(hash, tx, minerTx, i);
        if index.None? {
          AddOutsFails(before.outs, hash, tx, |blocks|, i + 1);
          return None;
        }
        indices := indices + [index.value];
      }
      return Some(indices);
    }

    /** Inputs, then the transaction itself, then its outputs. An error leaves a partial state, which the caller aborts. */
    method AddTransaction(hash: Hash, tx: Tx) returns (ok: bool)
      modifies `ledger
      ensures ok <==> AddTx(old(ledger), hash, tx, |blocks|).Some?
      ensures ok ==> Some(ledger) == AddTx(old(ledger), hash, tx, |blocks|)
    {
      var spent, minerTx := AddInputs(tx.vin);
      if !spent || hash in ledger.txs {
        return false;
      }
      var id := |ledger.txs|;
      var indices := AddOutputs(hash, tx, minerTx);
      if indices.None? {
        return false;
      }
      ledger := ledger.(txs := ledger.txs[hash := StoredTx(id, tx, |blocks|, indices.value)]);
      return true;
    }

    /** One output out of the list of its amount. */
    method RemoveOutput(amount: nat, index: nat) returns (ok: bool)
      modifies `ledger
      ensures ok <==> Remove(old(ledger).outs, amount, index).Some?
      ensures ok ==> ledger == old(ledger).(outs := Remove(old(ledger).outs, amount, index).value)
    {
      var removed := Remove(ledger.outs, amount, index);
      if removed.None? {
        return false;
      }
      ledger := ledger.(outs := removed.value);
      return true;
    }

    method RemoveOutputs(tx: Tx, indices: seq<nat>) returns (ok: bool)
      requires |indices| == |tx.vout|
      modifies `ledger
      ensures ok <==> RemoveOuts(old(ledger).outs, RemovedAtZero(tx), tx.vout, indices, |tx.vout|).Some?
      ensures ok ==>
        ledger == old(ledger).(outs := RemoveOuts(old(ledger).outs, RemovedAtZero(tx), tx.vout, indices, |tx.vout|).value)
    {
      var isPseudoRct := tx.version >= 2 && |tx.vin| == 1 && tx.vin[0].Gen?;
      var i := |tx.vout|;
      ghost var before := ledger;
      while i > 0
        invariant 0 <= i <= |tx.vout| && ledger == before.(outs := ledger.outs)
        invariant RemoveOuts(before.outs, isPseudoRct, tx.vout, indices, |tx.vout|)
               == RemoveOuts(ledger.outs, isPseudoRct, tx.vout, indices, i)
      {
        i := i - 1;
        var removed := RemoveOutput(if isPseudoRct then 0 else tx.vout[i].amount, indices[i]);
        if !removed {
          return false;
        }
      }
      return true;
    }

    method RemoveSpentKeys(vin: seq<Input>)
      modifies `ledger
      ensures ledger == old(ledger).(spent := old(ledger).spent - KeyImages(vin))
    {
      ghost var before := ledger;
      assert KeyImages(vin[..0]) == {};
      assert before.spent - {} == before.spent;
      for k := 0 to |vin|
        invariant ledger == before.(spent := before.spent - KeyImages(vin[..k]))
      {
        ImagesNext(before.spent, vin, k);
        if vin[k].ToKey? {
          ledger := ledger.(spent := ledger.spent - {vin[k].image});
        }
      }
      assert vin[..|vin|] == vin;
    }

    method RemoveTransaction(hash: Hash) returns (ok: bool)
      modifies `ledger
      ensures ok <==> RemoveTx(old(ledger), hash).Some?
      ensures ok ==> Some(ledger) == RemoveTx(old(ledger), hash)
    {
      if hash !in ledger.txs || |ledger.txs[hash].indices| != |ledger.txs[hash].tx.vout| {
        return false;
      }
      var stored := ledger.txs[hash];
      RemoveSpentKeys(stored.tx.vin);
      var removed := RemoveOutputs(stored.tx, stored.indices);
      if !removed {
        return false;
      }
      ledger := ledger.(txs := ledger.txs - {hash});
      return true;
    }

    /** The transactions of a block under the hashes it lists. */
    method AddTransactions(hashes: seq<Hash>, txs: seq<Tx>) returns (ok: bool)
      requires |txs| == |hashes|
      modifies `ledger
      ensures ok <==> AddTxs(Adding(|blocks|), old(ledger), hashes, txs, |txs|).Some?
      ensures ok ==> Some(ledger) == AddTxs(Adding(|blocks|), old(ledger), hashes, txs, |txs|)
    {
      ghost var before, add := ledger, Adding(|blocks|);
      for i := 0 to |txs|
        invariant AddTxs(add, before, hashes, txs, i) == Some(ledger)
      {
        var added := AddTransaction(hashes[i], txs[i]);
        if !added {
          AddTxsFails(add, before, hashes, txs, i + 1);
          return false;
        }
      }
      return true;
    }

    /** The miner transaction, the other transactions, then the block. */
    method AppendBlock(h: Hashing, b: Block, txs: seq<Tx>) returns (ok: bool)
      modifies this
      ensures ok <==> AddBlock(h, old(State()), b, txs).Some?
      ensures ok ==> Some(State()) == AddBlock(h, old(State()), b, txs)
    {
      if |b.txHashes| != |txs| {
        return false;
      }
      var miner := AddTransaction(h.tx(b.minerTx), b.minerTx);
      if !miner {
        return false;
      }
      var others := AddTransactions(b.txHashes, txs);
      if !others || !Attaches(h, blocks, b) {
        return false;
      }
      blocks := blocks + [b];
      return true;
    }

    /** A transaction read and removed. */
    method TakeTransaction(hash: Hash) returns (tx: Option<Tx>)
      modifies `ledger
      ensures tx.Some? <==> TakeTx(old(ledger), hash).Some?
      ensures tx.Some? ==> TakeTx(old(ledger), hash) == Some((ledger, tx.value))
    {
      if hash !in ledger.txs {
        return None;
      }
      tx := Some(ledger.txs[hash].tx);
      var removed := RemoveTransaction(hash);
      if !removed {
        return None;
      }
    }

    /** The listed transactions from the last to the first, each read before it is removed. */
    method TakeTransactions(hashes: seq<Hash>) returns (r: Option<seq<Tx>>)
      modifies `ledger
      ensures r.Some? <==> TakeTxs(TAKE, old(ledger), hashes, |hashes|).Some?
      ensures r.Some? ==> TakeTxs(TAKE, old(ledger), hashes, |hashes|) == Some(Popped(ledger, r.value))
    {
      var txs := [];
      var i := |hashes|;
      ghost var before, take := ledger, TAKE;
      PrependedNone(TakeTxs(take, before, hashes, |hashes|));
      while i > 0
        invariant 0 <= i <= |hashes|
        invariant TakeTxs(take, before, hashes, |hashes|) == Prepended(txs, TakeTxs(take, ledger, hashes, i))
      {
        i := i - 1;
        ghost var left := ledger;
        var tx := TakeTransaction(hashes[i]);
        if tx.None? {
          return None;
        }
        TakeNext(take, left, ledger, tx.value, hashes, i, txs);
        txs := txs + [tx.value];
      }
      assert txs + [] == txs;
      return Some(txs);
    }

    /** Assets of the top block's height, the block, its transactions in reverse order, its miner transaction. */
    method Pop(h: Hashing) returns (r: Option<(Block, seq<Tx>)>)
      requires assets.Valid()
      modifies this, assets
      ensures r.Some? <==> PopBlock(h, old(State())).Some?
      ensures r.Some? ==> PopBlock(h, old(State())) == Some((State(), r.value.0, r.value.1))
      ensures r.Some? ==> assets.Valid() && assets.State() == BelowHeight(old(assets.State()), |old(blocks)| - 1)
    {
      if blocks == [] {
        return None;
      }
      var detached := |blocks| - 1;
      var b := blocks[detached];
      assets.RemoveFromHeight(detached);
      blocks := blocks[..detached];
      var txs := TakeTransactions(b.txHashes);
      if txs.None? {
        return None;
      }
      var miner := RemoveTransaction(h.tx(b.minerTx));
      if !miner {
        return None;
      }
      return Some((b, txs.value));
    }
  }

  /** What is taken, after what has been taken already. */
  function Prepended(txs: seq<Tx>, p: Option<Popped>): Option<Popped> {
    match p
    case None => None
    case Some(q) => Some(Popped(q.ledger, txs + q.txs))
  }

  lemma PrependedNone(p: Option<Popped>)
    ensures Prepended([], p) == p
  {
    if p.Some? {
      assert [] + p.value.txs == p.value.txs;
    }
  }

  lemma TakeNext(take: (Ledger, Hash) -> Option<(Ledger, Tx)>, l: Ledger, m: Ledger, tx: Tx, hashes: seq<Hash>, i: nat, txs: seq<Tx>)
    requires i < |hashes| && take(l, hashes[i]) == Some((m, tx))
    ensures Prepended(txs, TakeTxs(take, l, hashes, i + 1)) == Prepended(txs + [tx], TakeTxs(take, m, hashes, i))
  {
    var p := TakeTxs(take, m, hashes, i);
    if p.Some? {
      assert txs + ([tx] + p.value.txs) == txs + [tx] + p.value.txs;
    }
  }

  lemma {:induction false} AddTxsFails(add: (Ledger, Hash, Tx) -> Option<Ledger>, l: Ledger, hashes: seq<Hash>, txs: seq<Tx>, n: nat)
    requires n <= |txs| == |hashes| && AddTxs(add, l, hashes, txs, n).None?
    ensures AddTxs(add, l, hashes, txs, |txs|).None?
    decreases |txs| - n
  {
    if n < |txs| {
      AddTxsFails(add, l, hashes, txs, n + 1);
    }
  }

  lemma {:induction false} AddOutsFails(s: Outs, hash: Hash, tx: Tx, height: nat, n: nat)
    requires n <= |tx.vout| && AddOuts(s, hash, tx, height, n).None?
    ensures AddOuts(s, hash, tx, height, |tx.vout|).None?
    decreases |tx.vout| - n
  {
    if n < |tx.vout| {
      AddOutsFails(s, hash, tx, height, n + 1);
    }
  }

  lemma ImagesNext(spent: set<Hash>, vin: seq<Input>, k: nat)
    requires k < |vin|
    ensures spent - KeyImages(vin[..k + 1]) == spent - KeyImages(vin[..k]) - if vin[k].ToKey? then {vin[k].image} else {}
  {
    assert vin[..k + 1][..k] == vin[..k];
    ImagesLast(vin[..k + 1]);
  }
}
