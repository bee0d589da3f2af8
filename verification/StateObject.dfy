/** The State object: validation and processing of blocks over the executor, the rdPoS node and the
    mempool (src/core/state.cpp). */
module StateObject {
  import opened Bytes
  import opened Crypto
  import opened World
  import opened State
  import opened Execution
  import Blocks
  import RdPoS
  import Round
  import RandomGen
  import Tx

  /** The block continues the chain. */
  predicate Follows(c: Crypto, latest: Blocks.Block, b: Blocks.Block) {
    && b.nHeight == Truncate64(latest.nHeight + 1)
    && b.prevBlockHash == Blocks.BlockHash(c, latest)
    && latest.timestamp <= b.timestamp
  }

  /** One higher (in 64 bits), naming the parent by the hash of its header, and not earlier. */
  lemma FollowsMeans(c: Crypto, latest: Blocks.Block, b: Blocks.Block)
    ensures Follows(c, latest, b) <==>
      && b.nHeight == (if latest.nHeight == U64 - 1 then 0 else latest.nHeight + 1)
      && b.prevBlockHash == c.sha3(Blocks.Header(latest))
      && b.timestamp >= latest.timestamp
  {
    hide Blocks.Header;
    assert latest.nHeight == U64 - 1 ==> Truncate64(latest.nHeight + 1) == 0;
  }

  class StateMachine {
    const cfg: Config
    const exec: Executor
    const rdpos: Round.RdPoSNode
    var mempool: Mempool

    ghost predicate Valid()
      reads this, exec, rdpos, rdpos.gen
    {
      && exec.cfg == cfg && exec.balances == map[]
      && rdpos.c == cfg.c && rdpos.Valid() && |rdpos.randomList| > RdPoS.MIN_VALIDATORS
      && MempoolOk(cfg.c, exec.accounts, mempool)
    }

    ghost predicate AcceptsBlock(b: Blocks.Block)
      reads this, exec, rdpos
      requires |rdpos.randomList| > RdPoS.MIN_VALIDATORS
    {
      && Follows(cfg.c, rdpos.latest, b)
      && RdPoS.Accepts(cfg.c, rdpos.randomList, b)
      && RandomGen.Distinct(RdPoS.CommitHashes(cfg.c, b.txValidators))
      && AcceptsAll(cfg.c, exec.accounts, mempool, b.txs)
    }

    constructor (cfg: Config, exec: Executor, rdpos: Round.RdPoSNode)
      requires exec.cfg == cfg && exec.balances == map[]
      requires rdpos.c == cfg.c && rdpos.Valid() && |rdpos.randomList| > RdPoS.MIN_VALIDATORS
      ensures Valid() && mempool == map[] && this.cfg == cfg && this.exec == exec && this.rdpos == rdpos
    {
      this.cfg := cfg;
      this.exec := exec;
      this.rdpos := rdpos;
      mempool := map[];
    }

    method ValidateTransaction(tx: TxBlock) returns (r: Result<Verdict>)
      ensures r == Validate(cfg.c, exec.accounts, mempool, tx)
    {
      if Tx.HashOf(cfg.c, tx) in mempool { return Ok(NotInvalid); }
      if tx.from !in exec.accounts { return Ok(InvalidBalance); }
      var txWithFees := tx.value + Fee(tx);
      if txWithFees >= U256 { return Err; }
      if txWithFees > exec.accounts[tx.from].balance { return Ok(InvalidBalance); }
      if exec.accounts[tx.from].nonce != tx.nonce { return Ok(InvalidNonce); }
      r := Ok(NotInvalid);
    }

    method AddTransaction(tx: TxBlock) returns (r: Result<Verdict>)
      requires Valid() && Tx.WellSigned(cfg.c, tx)
      modifies this`mempool
      ensures Valid() && r == Validate(cfg.c, exec.accounts, old(mempool), tx)
      ensures Ok(Node(exec.View(), mempool)) == Step(cfg, Node(exec.View(), old(mempool)), AddTx(tx))
    {
      hide Tx.HashOf, FullCheck, MempoolOk, Round.MempoolOk, RdPoS.Schedule, RandomGen.Ascending;
      r := ValidateTransaction(tx);
      if r != Ok(NotInvalid) { return; }
      var h := Tx.HashOf(cfg.c, tx);
      if h !in mempool {
        AddedIsOk(cfg.c, exec.accounts, mempool, tx);
        mempool := mempool[h := tx];
      }
    }

    /** False stands for an exception, too. */
    method ValidateNextBlock(b: Blocks.Block) returns (ok: bool)
      requires Valid()
      ensures ok <==> AcceptsBlock(b)
    {
      hide Tx.HashOf, Validate;
      if b.nHeight != Truncate64(rdpos.latest.nHeight + 1) { return false; }
      if b.prevBlockHash != Blocks.BlockHash(cfg.c, rdpos.latest) { return false; }
      if rdpos.latest.timestamp > b.timestamp { return false; }
      var round := rdpos.Validate(b);
      if !round { return false; }
      for i := 0 to |b.txs|
        invariant forall k :: 0 <= k < i ==> Validate(cfg.c, exec.accounts, mempool, b.txs[k]) == Ok(NotInvalid)
      {
        var v := ValidateTransaction(b.txs[i]);
        if v != Ok(NotInvalid) { return false; }
      }
      ok := true;
    }

    /** The old mempool was valid before the block; each entry is looked at again. */
    method RefreshMempool(txs: seq<TxBlock>, ghost before: Accounts)
      requires MempoolOk(cfg.c, before, mempool)
      modifies this`mempool
      ensures mempool == Refreshed(cfg.c, exec.accounts, old(mempool), txs)
      ensures MempoolOk(cfg.c, exec.accounts, mempool)
    {
      hide Tx.HashOf, Fee, MempoolOk;
      var m := mempool;
      for i := 0 to |txs|
        invariant m == old(mempool) - Hashes(cfg.c, txs[..i])
      {
        m := m - {Tx.HashOf(cfg.c, txs[i])};
        HashesGrow(cfg.c, txs, i);
      }
      assert txs[..|txs|] == txs;
      mempool := map[];
      var keys := m.Keys;
      while keys != {}
        invariant keys <= m.Keys && mempool.Keys !! keys
        invariant mempool == map h | h in m && h !in keys && Passes(exec.accounts, m[h]) :: m[h]
      {
        var h :| h in keys;
        EntryOf(cfg.c, before, old(mempool), h);
        var v := ValidateTransaction(m[h]);
        keys := keys - {h};
        if v == Ok(NotInvalid) { mempool := mempool[h := m[h]]; }
      }
      RefreshedIsOk(cfg.c, before, exec.accounts, old(mempool), txs);
    }

    /** Refused blocks change nothing.  An accepted one is executed, becomes the latest block, and
        leaves a mempool of what still passes; `ok` fails on it only if a refund overflowed. */
    method ProcessNextBlock(b: Blocks.Block) returns (ok: bool)
      requires Valid()
      modifies this`mempool, exec`accounts, exec`contracts, exec`processingPayable, exec`balances
      modifies rdpos`mempool, rdpos`randomList, rdpos`bestRandomSeed, rdpos`latest, rdpos.gen
      ensures !old(AcceptsBlock(b)) ==> !ok && unchanged(this, exec, rdpos, rdpos.gen)
      ensures ok <==> old(AcceptsBlock(b)) && ProcessAll(cfg, old(exec.View()), b.txs).Ok?
      ensures ok ==> Valid() && rdpos.latest == b
      ensures ok ==> b.nHeight == (if old(rdpos.latest.nHeight) == U64 - 1 then 0 else old(rdpos.latest.nHeight) + 1)
      ensures ok ==> b.prevBlockHash == cfg.c.sha3(Blocks.Header(old(rdpos.latest)))
      ensures ok ==> b.timestamp >= old(rdpos.latest.timestamp)
      ensures ok ==> Ok(Node(exec.View(), mempool)) == Step(cfg, old(Node(exec.View(), mempool)), NextBlock(b.txs))
    {
      hide MempoolOk, Validate, Refreshed, ProcessTransaction, Round.MempoolOk, RdPoS.Schedule;
      ok := ValidateNextBlock(b);
      if !ok { return; }
      FollowsMeans(cfg.c, rdpos.latest, b);
      ghost var start := exec.View();
      assert b.txs[0..] == b.txs;
      for i := 0 to |b.txs|
        invariant exec.balances == map[]
        modifies exec`accounts, exec`contracts, exec`processingPayable, exec`balances
        invariant ProcessAll(cfg, start, b.txs) == ProcessAll(cfg, exec.View(), b.txs[i..])
      {
        assert b.txs[i..][0] == b.txs[i] && b.txs[i..][1..] == b.txs[i + 1..];
        ok := exec.Process(b.txs[i]);
        if !ok { return; }
      }
      ScheduleSize(rdpos.c, rdpos.validators, rdpos.latest.blockRandomness, b.blockRandomness);
      var _ := rdpos.ProcessBlock(b);
      RefreshMempool(b.txs, start.accounts);
      ok := true;
    }
  }

  lemma AddedIsOk(c: Crypto, acc: Accounts, m: Mempool, tx: TxBlock)
    requires MempoolOk(c, acc, m) && Tx.WellSigned(c, tx) && FullCheck(acc, tx) == Ok(NotInvalid)
    ensures MempoolOk(c, acc, m[Tx.HashOf(c, tx) := tx])
  {
    hide Tx.HashOf, FullCheck;
  }

  lemma HashesGrow(c: Crypto, txs: seq<TxBlock>, i: nat)
    requires i < |txs|
    ensures Hashes(c, txs[..i + 1]) == Hashes(c, txs[..i]) + {Tx.HashOf(c, txs[i])}
  {
    hide Tx.HashOf;
    assert txs[..i + 1] == txs[..i] + [txs[i]];
  }

  lemma EntryOf(c: Crypto, acc: Accounts, m: Mempool, h: Hash)
    requires MempoolOk(c, acc, m)
    ensures h in m ==> h == Tx.HashOf(c, m[h]) && m[h].value + Fee(m[h]) < U256
  {
    hide Tx.HashOf, Fee;
  }

  lemma RefreshedIsOk(c: Crypto, before: Accounts, acc: Accounts, m: Mempool, txs: seq<TxBlock>)
    requires MempoolOk(c, before, m)
    ensures MempoolOk(c, acc, Refreshed(c, acc, m, txs))
  {
    hide Tx.HashOf, Passes;
  }

  lemma ScheduleSize(c: Crypto, validators: seq<Address>, a: Hash, b: Hash)
    ensures |RdPoS.Schedule(c, validators, a)| == |RdPoS.Schedule(c, validators, b)|
  {
    RandomGen.ShufflePermutes(c.sha3, a, validators, 0);
    RandomGen.ShufflePermutes(c.sha3, b, validators, 0);
  }
}
