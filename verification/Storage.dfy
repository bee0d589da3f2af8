/** Storage: the recent chain in memory, its indexes, two caches and the database, answering as a
    search of the whole history would (src/core/storage.cpp). */
module Storage {
  import opened Bytes
  import opened Crypto
  import opened Blocks
  import opened Overlay
  import opened History
  import Tx

  // ----- What the parts hold

  /** The chain in memory is the end of the history. */
  ghost predicate InMemory(hist: History, chain: seq<Block>) {
    0 < |chain| <= |hist| && chain == hist[|hist| - |chain|..]
  }

  ghost predicate BlocksIndexed(c: Crypto, chain: seq<Block>, m: map<Hash, Block>) {
    && (forall b :: b in chain ==> BlockHash(c, b) in m && m[BlockHash(c, b)] == b)
    && (forall h :: h in m ==> m[h] in chain && BlockHash(c, m[h]) == h)
  }

  function PlaceOf(c: Crypto, b: Block, j: int): (p: Place) {
    Place(BlockHash(c, b), if 0 <= j < U32 then j else 0, b.nHeight)
  }

  /** The index in memory keeps the first of repeated transactions. */
  ghost predicate TxsIndexed(c: Crypto, chain: seq<Block>, m: map<Hash, Place>) {
    && (forall b, j, h :: b in chain && Chosen(c, b, First, j, h) ==> h in m && j < U32 && m[h] == PlaceOf(c, b, j))
    && (forall h :: h in m ==> exists b, j :: b in chain && Chosen(c, b, First, j, h))
  }

  ghost predicate HeightsIndexed(c: Crypto, hist: History, m: map<u64, Hash>) {
    && (forall n :: n in m ==> n < |hist| && m[n] == BlockHash(c, hist[n]))
    && (forall n :: 0 <= n < |hist| && n < U64 ==> n in m)
  }

  /** A cached block is what its bytes were read as. */
  ghost predicate BlocksCached(c: Crypto, hist: History, m: map<Hash, Block>) {
    forall h :: h in m ==> exists i :: HasBlock(c, hist, i, h) && BlockRead(c, hist[i]) == Ok(m[h])
  }

  ghost predicate IsCached(c: Crypto, hist: History, i: int, j: int, h: Hash, f: Found) {
    && HasTx(c, hist, i, j, h) && Chosen(c, hist[i], Last, j, h) && j < U32
    && TxRead(c, hist[i], j) == Ok(f.tx) && f.place == PlaceOf(c, hist[i], j)
  }

  /** What is cached was read from the database, which keeps the last of repeated transactions. */
  ghost predicate TxsCached(c: Crypto, hist: History, m: map<Hash, Found>) {
    forall h :: h in m ==> exists i, j :: IsCached(c, hist, i, j, h, m[h])
  }

  /** The part in memory. */
  ghost predicate IndexesOk(c: Crypto, hist: History, chain: seq<Block>, blocks: map<Hash, Block>,
    txs: map<Hash, Place>)
  {
    InMemory(hist, chain) && BlocksIndexed(c, chain, blocks) && TxsIndexed(c, chain, txs)
  }

  /** Heights, caches and database; all but the last n blocks must be in the database. */
  ghost predicate RestOk(c: Crypto, hist: History, n: nat, heights: map<u64, Hash>, blocks: map<Hash, Block>,
    txs: map<Hash, Found>, db: Db)
  {
    && HeightsIndexed(c, hist, heights) && BlocksCached(c, hist, blocks) && TxsCached(c, hist, txs)
    && DbSound(c, db, hist) && n <= |hist| && DbHas(c, db, hist, |hist| - n)
  }

  lemma LastInMemory(c: Crypto, hist: History, chain: seq<Block>, blocks: map<Hash, Block>, txs: map<Hash, Place>)
    requires IndexesOk(c, hist, chain, blocks, txs)
    ensures |chain| > 0 && |hist| > 0 && chain[|chain| - 1] == hist[|hist| - 1]
  {
  }

  // ----- Members and positions

  lemma SameHashSameBlock(c: Crypto, hist: History, x: Block, y: Block)
    requires HashesDiffer(c, hist) && x in hist && y in hist && BlockHash(c, x) == BlockHash(c, y)
    ensures x == y
  {
    hide BlockHash;
    var i :| 0 <= i < |hist| && hist[i] == x;
    var j :| 0 <= j < |hist| && hist[j] == y;
    assert HasBlock(c, hist, i, BlockHash(c, x)) && HasBlock(c, hist, j, BlockHash(c, x));
  }

  lemma SameHashOneBlock(c: Crypto, hist: History, x: Block, j: int, y: Block, l: int, h: Hash)
    requires BlocksShareNoTx(c, hist) && x in hist && y in hist && IsTxOf(c, x, j, h) && IsTxOf(c, y, l, h)
    ensures x == y
  {
    hide Tx.HashOf;
    var i :| 0 <= i < |hist| && hist[i] == x;
    var k :| 0 <= k < |hist| && hist[k] == y;
    assert HasTx(c, hist, i, j, h) && HasTx(c, hist, k, l, h);
  }

  /** A member is what the search finds. */
  lemma MemberIsFound(c: Crypto, hist: History, b: Block)
    requires HashesDiffer(c, hist) && b in hist
    ensures SearchBlock(c, hist, BlockHash(c, b)) == Some(b)
  {
    hide BlockHash;
    var i :| 0 <= i < |hist| && hist[i] == b;
    var h := BlockHash(c, b);
    forall j | 0 <= j < i ensures !HasBlock(c, hist, j, h) { assert HasBlock(c, hist, i, h); }
    SearchBlockFinds(c, hist, i);
  }

  lemma StrangerIsMissed(c: Crypto, hist: History, h: Hash)
    requires forall b :: b in hist ==> BlockHash(c, b) != h
    ensures SearchBlock(c, hist, h) == None
  {
    hide BlockHash;
    forall i ensures !HasBlock(c, hist, i, h) {
      if 0 <= i < |hist| { assert hist[i] in hist; }
    }
    SearchBlockMisses(c, hist, h);
  }

  lemma TxIsFound(c: Crypto, hist: History, b: Block, side: Side, j: int, h: Hash)
    requires BlocksShareNoTx(c, hist) && CountsFit(hist) && b in hist && Chosen(c, b, side, j, h)
    ensures IsTxOf(c, b, j, h) && j < U32 && SearchTx(c, hist, side, h) == Some(Found(b.txs[j], PlaceOf(c, b, j)))
  {
    hide BlockHash, Tx.HashOf, BlocksShareNoTx;
    var i :| 0 <= i < |hist| && hist[i] == b;
    SearchTxFinds(c, hist, side, i, j, h);
  }

  lemma TxIsMissed(c: Crypto, hist: History, side: Side, h: Hash)
    requires CountsFit(hist) && forall b, j :: b in hist ==> !IsTxOf(c, b, j, h)
    ensures SearchTx(c, hist, side, h) == None
  {
    hide IsTxOf;
    forall i, j ensures !HasTx(c, hist, i, j, h) {
      if 0 <= i < |hist| { assert hist[i] in hist; assert !IsTxOf(c, hist[i], j, h); }
    }
    SearchTxMisses(c, hist, side, h);
  }

  // ----- Indexing one more block, at either end

  ghost predicate Extends(chain: seq<Block>, longer: seq<Block>, b: Block) {
    forall x :: x in longer <==> x in chain || x == b
  }

  lemma IndexBlock(c: Crypto, hist: History, chain: seq<Block>, longer: seq<Block>, b: Block, m: map<Hash, Block>)
    requires HashesDiffer(c, hist) && BlocksIndexed(c, chain, m) && Extends(chain, longer, b) && b !in chain
    requires forall x :: x in longer ==> x in hist
    ensures BlockHash(c, b) !in m && BlocksIndexed(c, longer, m[BlockHash(c, b) := b])
  {
    hide BlockHash, HashesDiffer;
    assert b in longer;
    if BlockHash(c, b) in m { SameHashSameBlock(c, hist, m[BlockHash(c, b)], b); }
  }

  /** The index after the first k transactions of `b`; a hash that is there is not overwritten. */
  function AddTxs(c: Crypto, m: map<Hash, Place>, b: Block, k: nat): (r: map<Hash, Place>)
    requires k <= |b.txs| < U32
  {
    if k == 0 then m else
      var r := AddTxs(c, m, b, k - 1);
      var h := Tx.HashOf(c, b.txs[k - 1]);
      if h in r then r else r[h := PlaceOf(c, b, k - 1)]
  }

  /** A first transaction among the first k. */
  ghost predicate FirstBelow(c: Crypto, b: Block, k: nat, j: int, h: Hash) { j < k && Chosen(c, b, First, j, h) }

  lemma {:induction false} AddedTxs(c: Crypto, m: map<Hash, Place>, b: Block, k: nat, r: map<Hash, Place>)
    requires k <= |b.txs| < U32 && r == AddTxs(c, m, b, k)
    requires forall j, h :: IsTxOf(c, b, j, h) ==> h !in m
    ensures forall h :: h in m ==> h in r && r[h] == m[h]
    ensures forall h :: h in r ==> h in m || exists j :: FirstBelow(c, b, k, j, h)
    ensures forall j, h :: FirstBelow(c, b, k, j, h) ==> h in r && r[h] == PlaceOf(c, b, j)
    decreases k
  {
    hide PlaceOf, Chosen, Tx.HashOf, FirstBelow;
    if k == 0 {
      forall j, h ensures !FirstBelow(c, b, k, j, h) { NothingBelow(c, b, j, h); }
    } else {
      var n: nat := k - 1;
      var p := AddTxs(c, m, b, n);
      AddedTxs(c, m, b, n, p);
      assert IsTxOf(c, b, n, Tx.HashOf(c, b.txs[n]));
      forall h | h in r ensures h in m || exists j :: FirstBelow(c, b, k, j, h) {
        if h !in p {
          OneMoreFirst(c, m, b, n, p, n, h);
        } else if h !in m {
          var j :| FirstBelow(c, b, n, j, h);
          OneMoreFirst(c, m, b, n, p, j, h);
        }
      }
      forall j, h | FirstBelow(c, b, k, j, h) ensures h in r && r[h] == PlaceOf(c, b, j) {
        OneMoreFirst(c, m, b, n, p, j, h);
      }
    }
  }

  lemma NothingBelow(c: Crypto, b: Block, j: int, h: Hash)
    ensures !FirstBelow(c, b, 0, j, h)
  {
  }

  /** The next transaction is a first one exactly when the index does not have its hash. */
  lemma OneMoreFirst(c: Crypto, m: map<Hash, Place>, b: Block, n: nat, p: map<Hash, Place>, j: int, g: Hash)
    requires n < |b.txs| && forall j, h :: IsTxOf(c, b, j, h) ==> h !in m
    requires forall h :: h in p ==> h in m || exists j :: FirstBelow(c, b, n, j, h)
    requires forall j, h :: FirstBelow(c, b, n, j, h) ==> h in p
    ensures FirstBelow(c, b, n + 1, j, g) <==>
      FirstBelow(c, b, n, j, g) || (g == Tx.HashOf(c, b.txs[n]) && j == n && g !in p)
  {
    hide Tx.HashOf;
    var h := Tx.HashOf(c, b.txs[n]);
    assert IsTxOf(c, b, n, h);
    var l := SomeIsChosen(c, b, First, n, h);
    if l < n { assert FirstBelow(c, b, n, l, h); }
  }

  lemma IndexTxs(c: Crypto, hist: History, chain: seq<Block>, longer: seq<Block>, b: Block, m: map<Hash, Place>)
    requires BlocksShareNoTx(c, hist) && TxsIndexed(c, chain, m) && Extends(chain, longer, b) && b !in chain
    requires |b.txs| < U32 && forall x :: x in longer ==> x in hist
    ensures TxsIndexed(c, longer, AddTxs(c, m, b, |b.txs|))
  {
    hide BlockHash, IsTxOf, BlocksShareNoTx, AddTxs, Chosen, PlaceOf;
    assert b in longer;
    forall j, h | IsTxOf(c, b, j, h) ensures h !in m {
      if h in m {
        var x, l :| x in chain && Chosen(c, x, First, l, h);
        ChosenIsOne(c, x, First, l, h);
        SameHashOneBlock(c, hist, b, j, x, l, h);
      }
    }
    var r := AddTxs(c, m, b, |b.txs|);
    AddedTxs(c, m, b, |b.txs|, r);
    forall x, j, h | x in longer && Chosen(c, x, First, j, h) ensures h in r && j < U32 && r[h] == PlaceOf(c, x, j) {
      ChosenIsOne(c, x, First, j, h);
      InBounds(c, x, j, h);
      if x == b { assert FirstBelow(c, b, |b.txs|, j, h); }
    }
    forall h | h in r ensures exists x, j :: x in longer && Chosen(c, x, First, j, h) {
      if h in m {
        var x, j :| x in chain && Chosen(c, x, First, j, h);
        assert x in longer;
      } else {
        var j :| FirstBelow(c, b, |b.txs|, j, h);
        assert b in longer;
      }
    }
  }

  lemma ChosenIsOne(c: Crypto, b: Block, side: Side, j: int, h: Hash)
    requires Chosen(c, b, side, j, h)
    ensures IsTxOf(c, b, j, h)
  {
  }

  /** What both push methods do after their checks; entries that are there are not overwritten. */
  method AddToIndexes(c: Crypto, block: Block, m: map<Hash, Block>, t: map<Hash, Place>)
    returns (blocks: map<Hash, Block>, txs: map<Hash, Place>)
    requires |block.txs| < U32
    ensures blocks == if BlockHash(c, block) in m then m else m[BlockHash(c, block) := block]
    ensures txs == AddTxs(c, t, block, |block.txs|)
  {
    hide BlockHash, Tx.HashOf;
    blocks, txs := m, t;
    if BlockHash(c, block) !in blocks { blocks := blocks[BlockHash(c, block) := block]; }
    for i := 0 to |block.txs|
      invariant txs == AddTxs(c, t, block, i)
    {
      var h := Tx.HashOf(c, block.txs[i]);
      if h !in txs { txs := txs[h := PlaceOf(c, block, i)]; }
    }
  }

  /** The entries after the first k transactions of `b` have been put: a later one replaces an earlier. */
  function PutTxs(c: Crypto, t: map<Hash, bytes>, b: Block, k: nat): (r: map<Hash, bytes>)
    requires k <= |b.txs|
  {
    if k == 0 then t else PutTxs(c, t, b, k - 1)[Tx.HashOf(c, b.txs[k - 1]) := PlaceBytes(PlaceOf(c, b, k - 1))]
  }

  function PutBlock(c: Crypto, db: Db, b: Block): (r: Db)
    requires |SerializeBlock(b)| < 0x4000_0000_0000_0000
  {
    var h := BlockHash(c, b);
    db.(blocks := db.blocks[h := SerializeBlock(b)],
        heights := db.heights[b.nHeight := h],
        txs := PutTxs(c, db.txs, b, |b.txs|))
  }

  method SaveBlock(c: Crypto, db: Db, b: Block) returns (d: Db)
    requires |SerializeBlock(b)| < 0x4000_0000_0000_0000
    ensures d == PutBlock(c, db, b)
  {
    hide BlockHash, Tx.HashOf, SerializeBlock, PlaceBytes;
    var txs := db.txs;
    for i := 0 to |b.txs|
      invariant txs == PutTxs(c, db.txs, b, i)
    {
      txs := txs[Tx.HashOf(c, b.txs[i]) := PlaceBytes(PlaceOf(c, b, i))];
    }
    d := db.(blocks := db.blocks[BlockHash(c, b) := SerializeBlock(b)],
             heights := db.heights[b.nHeight := BlockHash(c, b)],
             txs := txs);
  }

  /** The blocks a load brings into memory. */
  function RecentOf(hist: History): (r: seq<Block>) { if |hist| <= 501 then hist else hist[|hist| - 501..] }

  /** What is read at height n of a complete database. */
  ghost predicate ReadIs(c: Crypto, hist: History, n: nat, entry: str)
    requires n < |hist|
  {
    Parse(c, entry) == if Reloads(c, hist[n]) then Ok(hist[n]) else Err
  }

  lemma ReadAtHeight(c: Crypto, db: Db, hist: History, n: nat)
    requires Good(c, hist) && DbHolds(c, db, hist) && |hist| <= n + 501 && n < |hist|
    requires !SomeMisread(c, RecentOf(hist))
    ensures n < U64 && n in db.heights && db.heights[n] in db.blocks
    ensures ReadIs(c, hist, n, db.blocks[db.heights[n]]) && (n == |hist| - 1 ==> ReadIs(c, hist, n, db.latest))
    ensures AllReload(c, RecentOf(hist)) ==> Reloads(c, hist[n])
  {
    hide Good, DbHolds, Parse, SerializeBlock;
    EntryAtHeight(c, db, hist, n);
    var recent := RecentOf(hist);
    var k := n - (|hist| - |recent|);
    assert recent[k] == hist[n];
    assert !Misreads(c, recent[k]);
  }

  /** Up to 501 blocks, from the latest backwards, each pushed to the front.  Not ok is an exception, of
      the block's constructor or of the push (or an index loop that never ends). */
  method LoadRecent(c: Crypto, db: Db, ghost hist: History)
    returns (ok: bool, loaded: seq<Block>, blocks: map<Hash, Block>, txs: map<Hash, Place>)
    requires Good(c, hist) && DbHolds(c, db, hist)
    ensures SomeMisread(c, RecentOf(hist)) || (ok <==> AllReload(c, RecentOf(hist)))
    ensures ok && !SomeMisread(c, RecentOf(hist)) ==>
      loaded == RecentOf(hist) && IndexesOk(c, hist, loaded, blocks, txs)
  {
    hide BlockHash, Good, Parse, DbHolds, BlocksIndexed, TxsIndexed, AddTxs, AllReload, SomeMisread, Reloads;
    ghost var fine := !SomeMisread(c, RecentOf(hist));
    ok, loaded, blocks, txs := false, [], map[], map[];
    NothingIndexed(c);
    HistoryStarts(c, db, hist);
    if fine { ReadAtHeight(c, db, hist, |hist| - 1); }
    var latest := Parse(c, db.latest);
    if latest.Err? { return; }
    var depth := latest.value.nHeight;
    if fine { HeightIs(c, hist, |hist| - 1); }
    var i := 0;
    while i <= 500 && i <= depth
      invariant i <= 501
      invariant fine ==> depth == |hist| - 1 && i <= |hist| && loaded == hist[|hist| - i..]
      invariant fine ==> BlocksIndexed(c, loaded, blocks) && TxsIndexed(c, loaded, txs)
      invariant fine ==> forall k :: |hist| - i <= k < |hist| ==> Reloads(c, hist[k])
    {
      if fine { ReadAtHeight(c, db, hist, depth - i); }
      if depth - i !in db.heights || db.heights[depth - i] !in db.blocks { return; }
      var read := Parse(c, db.blocks[db.heights[depth - i]]);
      if read.Err? { return; }
      var block := read.value;
      if fine { NextInFront(c, hist, loaded, block, blocks, txs); }
      if |loaded| != 0 && loaded[0].prevBlockHash != BlockHash(c, block) { return; }
      if |loaded| != 0 && block.nHeight != HeightBelow(loaded[0].nHeight) { return; }
      if |block.txs| >= U32 { return; }
      loaded := [block] + loaded;
      blocks, txs := AddToIndexes(c, block, blocks, txs);
      i := i + 1;
    }
    ok := true;
    if fine { AllRecentReload(c, hist, i); }
  }

  /** `nHeight - 1` in 64 bits. */
  function HeightBelow(n: u64): (r: u64) { if n == 0 then U64 - 1 else n - 1 }

  lemma AllRecentReload(c: Crypto, hist: History, n: nat)
    requires n == if |hist| <= 501 then |hist| else 501
    requires forall k :: |hist| - n <= k < |hist| ==> Reloads(c, hist[k])
    ensures AllReload(c, RecentOf(hist)) && RecentOf(hist) == hist[|hist| - n..]
  {
    hide Reloads;
    var recent := RecentOf(hist);
    forall i | 0 <= i < |recent| ensures Reloads(c, recent[i]) { assert recent[i] == hist[|hist| - n + i]; }
  }

  lemma HistoryStarts(c: Crypto, db: Db, hist: History)
    requires DbHolds(c, db, hist)
    ensures |hist| > 0
  {
  }

  lemma HeightIs(c: Crypto, hist: History, n: nat)
    requires Good(c, hist) && n < |hist|
    ensures hist[n].nHeight == n
  {
  }

  // ----- The object

  class Store {
    const c: Crypto
    var chain: seq<Block>
    var blockByHash: map<Hash, Block>
    var txByHash: map<Hash, Place>
    var blockHashByHeight: map<u64, Hash>
    var cachedBlocks: map<Hash, Block>
    var cachedTxs: map<Hash, Found>
    var db: Db
    ghost var history: History

    ghost predicate Valid()
      reads this
    {
      && Good(c, history) && IndexesOk(c, history, chain, blockByHash, txByHash)
      && RestOk(c, history, |chain|, blockHashByHeight, cachedBlocks, cachedTxs, db)
    }

    constructor Loaded(c: Crypto, db: Db, loaded: seq<Block>, blocks: map<Hash, Block>, txs: map<Hash, Place>,
      ghost hist: History)
      ensures this.c == c && this.db == db && chain == loaded && blockByHash == blocks && txByHash == txs
      ensures blockHashByHeight == db.heights && cachedBlocks == map[] && cachedTxs == map[] && history == hist
    {
      this.c := c;
      this.db := db;
      chain := loaded;
      blockByHash := blocks;
      txByHash := txs;
      blockHashByHeight := db.heights;
      cachedBlocks := map[];
      cachedTxs := map[];
      history := hist;
    }

    /** The constructor of the original: heights first, then the recent blocks.  Null when it throws. */
    static method Open(c: Crypto, db: Db, ghost hist: History) returns (s: Store?)
      requires Good(c, hist) && DbHolds(c, db, hist)
      ensures SomeMisread(c, RecentOf(hist)) || (s != null <==> AllReload(c, RecentOf(hist)))
      ensures s != null && !SomeMisread(c, RecentOf(hist)) ==> fresh(s) && s.Restores(c, db, hist)
    {
      hide Good, DbHolds, IndexesOk, RestOk, AllReload, SomeMisread;
      var ok, loaded, blocks, txs := LoadRecent(c, db, hist);
      if !ok { return null; }
      var store := new Store.Loaded(c, db, loaded, blocks, txs, hist);
      if !SomeMisread(c, RecentOf(hist)) { LoadedRest(c, db, hist, |loaded|); }
      s := store;
    }

    /** The object right after loading, with the recent blocks of the history in memory. */
    ghost predicate Restores(c: Crypto, db: Db, hist: History)
      reads this
    {
      && Valid() && this.c == c && this.db == db && history == hist && chain == RecentOf(hist)
      && blockHashByHeight == db.heights && cachedBlocks == map[] && cachedTxs == map[]
    }

    /** The destructor: every block in memory goes to the database with its entries. */
    method Save() returns (d: Db)
      requires Valid()
      ensures DbHolds(c, d, history)
    {
      hide Good, DbSound, DbHas, RestOk, BlocksIndexed, TxsIndexed, SerializeBlock, PutBlock, Fits;
      ghost var first := |history| - |chain|;
      d := db;
      RestHasDb(c, history, |chain|, blockHashByHeight, cachedBlocks, cachedTxs, db);
      for i := 0 to |chain|
        invariant DbSound(c, d, history) && DbHas(c, d, history, first + i)
      {
        assert chain[i] == history[first + i];
        FitsIn(c, history, first + i);
        PutKeeps(c, history, d, first + i);
        d := SaveBlock(c, d, chain[i]);
      }
      FitsIn(c, history, |history| - 1);
      LatestKeeps(c, d, history);
      d := d.(latest := SerializeBlock(chain[|chain| - 1]));
    }

    /** False is a throw.  The block need not be one that can be read back. */
    method PushBack(block: Block) returns (ok: bool)
      requires Valid()
      requires |history| > 0 && (Links(c, history[|history| - 1], block) ==> Good(c, history + [block]))
      modifies this`chain, this`blockByHash, this`txByHash, this`blockHashByHeight, this`history
      ensures Valid()
      ensures ok <==> Links(c, old(history)[|old(history)| - 1], block)
      ensures history == if ok then old(history) + [block] else old(history)
    {
      hide BlockHash, Good, IndexesOk, RestOk, AddTxs;
      LastInMemory(c, history, chain, blockByHash, txByHash);
      var back := chain[|chain| - 1];
      if BlockHash(c, back) != block.prevBlockHash { return false; }
      if block.nHeight != Truncate64(back.nHeight + 1) { return false; }
      GoodPush(c, history, block, chain, blockByHash, txByHash);
      GrownHistory(c, history, block, |chain|, blockHashByHeight, cachedBlocks, cachedTxs, db);
      blockByHash, txByHash := AddToIndexes(c, block, blockByHash, txByHash);
      if block.nHeight !in blockHashByHeight {
        blockHashByHeight := blockHashByHeight[block.nHeight := BlockHash(c, block)];
      }
      chain := chain + [block];
      history := history + [block];
      ok := true;
    }

    /** By hash: chain first, then cache, then database, where what is read is cached.  Err is the
        exception for a block that cannot be read. */
    method GetBlock(h: Hash) returns (r: Result<Option<Block>>)
      requires Valid()
      modifies this`cachedBlocks
      ensures Valid()
      ensures r == if InChain(c, chain, h) then Ok(SearchBlock(c, history, h)) else OldBlock(c, history, h)
    {
      hide Good, IndexesOk, RestOk, SearchBlock, OldBlock, Parse, InChain;
      IndexedIsInChain(c, history, chain, blockByHash, txByHash, h);
      if h in blockByHash {
        FoundInChain(c, history, chain, blockByHash, txByHash, h);
        return Ok(Some(blockByHash[h]));
      }
      if h in cachedBlocks {
        FoundInCache(c, history, |chain|, blockHashByHeight, cachedBlocks, cachedTxs, db, h);
        return Ok(Some(cachedBlocks[h]));
      }
      if h !in db.blocks {
        FoundNowhere(c, history, chain, blockByHash, txByHash, blockHashByHeight, cachedBlocks, cachedTxs, db, h);
        return Ok(None);
      }
      FoundInDb(c, history, |chain|, blockHashByHeight, cachedBlocks, cachedTxs, db, h);
      var block :- Parse(c, db.blocks[h]);
      cachedBlocks := cachedBlocks[h := block];
      r := Ok(Some(cachedBlocks[h]));
    }

    /** By height, as by the hash of the block at that height. */
    method GetBlockAt(height: u64) returns (r: Result<Option<Block>>)
      requires Valid()
      modifies this`cachedBlocks
      ensures Valid()
      ensures height >= |history| ==> r == Ok(None)
      ensures |history| - |chain| <= height < |history| ==> r == Ok(Some(history[height]))
      ensures height < |history| - |chain| ==> r == IfRead(BlockRead(c, history[height]))
    {
      hide Good, IndexesOk, RestOk, SearchBlock, OldBlock, BlockRead, InChain;
      HeightIsIndexed(c, history, chain, blockByHash, txByHash, blockHashByHeight, cachedBlocks, cachedTxs, db, height);
      if height !in blockHashByHeight { return Ok(None); }
      r := GetBlock(blockHashByHeight[height]);
    }

    /** A transaction with its block's hash, its index and the height: of repeated transactions of a
        block the first while the block is in memory, the last from the database, read from its bytes. */
    method GetTx(h: Hash) returns (r: Result<Option<Found>>)
      requires Valid()
      modifies this`cachedTxs
      ensures Valid() && CountsFit(history)
      ensures r == if Recent(c, chain, h) then Ok(SearchTx(c, history, First, h)) else OldTx(c, history, h)
    {
      hide Good, IndexesOk, RestOk, SearchTx, OldTx, Tx.HashOf, TxAt, ReadPlace, CountsFit, Recent;
      GoodCountsFit(c, history);
      IndexedIsRecent(c, history, chain, blockByHash, txByHash, h);
      if h in txByHash {
        TxInChain(c, history, chain, blockByHash, txByHash, h);
        var place := txByHash[h];
        var tx := blockByHash[place.blockHash].txs[place.index];
        if Tx.HashOf(c, tx) != h { assert false; }
        return Ok(Some(Found(tx, place)));
      }
      if h in cachedTxs {
        TxInCache(c, history, |chain|, blockHashByHeight, cachedBlocks, cachedTxs, db, h);
        return Ok(Some(cachedTxs[h]));
      }
      if h !in db.txs {
        TxNowhere(c, history, chain, blockByHash, txByHash, blockHashByHeight, cachedBlocks, cachedTxs, db, h);
        return Ok(None);
      }
      TxIsOld(c, history, chain, blockByHash, txByHash, blockHashByHeight, cachedBlocks, cachedTxs, db, h);
      ghost var _ := TxInDb(c, history, |chain|, blockHashByHeight, cachedBlocks, cachedTxs, db, h);
      var place := ReadPlace(db.txs[h]);
      var tx :- GetTxFromBlockWithIndex(c, db.blocks[place.blockHash], place.index);
      cachedTxs := cachedTxs[h := Found(tx, place)];
      r := Ok(Some(cachedTxs[h]));
    }
  }

  /** The checks of `pushBackInternal`. */
  ghost predicate Links(c: Crypto, back: Block, block: Block) {
    BlockHash(c, back) == block.prevBlockHash && block.nHeight == Truncate64(back.nHeight + 1)
  }

  lemma GoodPush(c: Crypto, hist: History, block: Block, chain: seq<Block>, m: map<Hash, Block>, t: map<Hash, Place>)
    requires Good(c, hist + [block]) && IndexesOk(c, hist, chain, m, t)
    ensures |block.txs| < U32 && BlockHash(c, block) !in m
    ensures IndexesOk(c, hist + [block], chain + [block], m[BlockHash(c, block) := block],
                      AddTxs(c, t, block, |block.txs|))
  {
    hide BlockHash, Tx.HashOf, Fits, BlocksIndexed, TxsIndexed, AddTxs;
    var longer := hist + [block];
    assert longer[|hist|] == block;
    assert forall x :: x in chain ==> x in hist;
    NewBlockIsNew(c, hist, block);
    IndexBlock(c, longer, chain, chain + [block], block, m);
    IndexTxs(c, longer, chain, chain + [block], block, t);
    assert longer[|hist| - |chain|..] == chain + [block];
  }

  lemma NewBlockIsNew(c: Crypto, hist: History, block: Block)
    requires Chained(c, hist + [block])
    ensures block !in hist
  {
    hide BlockHash;
    var longer := hist + [block];
    assert longer[|hist|] == block;
    forall i | 0 <= i < |hist| ensures hist[i] != block {
      assert longer[i].nHeight == i;
    }
  }

  /** What was true of the shorter history is true of the longer one, which has one more height. */
  lemma GrownHistory(c: Crypto, hist: History, block: Block, n: nat, heights: map<u64, Hash>, blocks: map<Hash, Block>,
    txs: map<Hash, Found>, db: Db)
    requires Good(c, hist + [block]) && RestOk(c, hist, n, heights, blocks, txs, db)
    ensures block.nHeight !in heights
    ensures RestOk(c, hist + [block], n + 1, heights[block.nHeight := BlockHash(c, block)], blocks, txs, db)
  {
    hide BlockHash, Tx.HashOf, Fits, DbSound, TxsCached, BlocksCached;
    var longer := hist + [block];
    assert longer[|hist|] == block;
    assert forall i :: 0 <= i < |hist| ==> longer[i] == hist[i];
    assert forall x :: x in hist ==> x in longer;
    GrownDb(c, hist, longer, db);
    GrownCache(c, hist, longer, blocks, txs);
  }

  lemma GrownCache(c: Crypto, hist: History, longer: History, blocks: map<Hash, Block>, txs: map<Hash, Found>)
    requires BlocksCached(c, hist, blocks) && TxsCached(c, hist, txs)
    requires |hist| <= |longer| && forall i :: 0 <= i < |hist| ==> longer[i] == hist[i]
    ensures BlocksCached(c, longer, blocks) && TxsCached(c, longer, txs)
  {
    hide BlockHash, BlockRead, TxRead, PlaceOf, IsTxOf, Chosen;
    forall h | h in blocks ensures exists i :: HasBlock(c, longer, i, h) && BlockRead(c, longer[i]) == Ok(blocks[h]) {
      var i :| HasBlock(c, hist, i, h) && BlockRead(c, hist[i]) == Ok(blocks[h]);
      assert HasBlock(c, longer, i, h);
    }
    forall h | h in txs ensures exists i, j :: IsCached(c, longer, i, j, h, txs[h]) {
      var i, j :| IsCached(c, hist, i, j, h, txs[h]);
      assert IsCached(c, longer, i, j, h, txs[h]);
    }
  }

  lemma GrownDb(c: Crypto, hist: History, longer: History, db: Db)
    requires DbSound(c, db, hist) && |hist| <= |longer| && forall i :: 0 <= i < |hist| ==> longer[i] == hist[i]
    ensures DbSound(c, db, longer)
  {
    hide BlockHash, Tx.HashOf, SerializeBlock, PlaceBytes;
    forall h | h in db.blocks ensures exists i :: BlockEntryOk(c, longer, i, h, db.blocks[h]) {
      var i :| BlockEntryOk(c, hist, i, h, db.blocks[h]);
      assert BlockEntryOk(c, longer, i, h, db.blocks[h]);
    }
    forall h | h in db.txs ensures exists i, j :: TxEntryOk(c, longer, i, j, h, db.txs[h]) {
      var i, j :| TxEntryOk(c, hist, i, j, h, db.txs[h]);
      assert TxEntryOk(c, longer, i, j, h, db.txs[h]);
    }
  }

  /** The walk over the length prefixes of a serialized block. */
  method GetTxFromBlockWithIndex(c: Crypto, blockData: str, txIndex: nat) returns (r: Result<TxBlock>)
    ensures r == TxAt(TxParser(c), blockData, txIndex)
  {
    hide ReadLength, TxParser, Truncate32;
    var index: nat := 217;
    for currentTx := 0 to txIndex
      invariant SkipItems32(blockData, 217, txIndex) == SkipItems32(blockData, index, txIndex - currentTx)
    {
      var size :- ReadLength(blockData, index);
      index := index + Truncate32(size + 4);
    }
    var size :- ReadLength(blockData, index);
    LengthIsInside(blockData, index);
    r := TxParser(c)(Substr(blockData, index + 4, size));
  }

  // ----- Why the lookups are right

  lemma FoundInChain(c: Crypto, hist: History, chain: seq<Block>, blocks: map<Hash, Block>, txs: map<Hash, Place>,
    h: Hash)
    requires Good(c, hist) && IndexesOk(c, hist, chain, blocks, txs) && h in blocks
    ensures SearchBlock(c, hist, h) == Some(blocks[h])
  {
    hide BlockHash, Storable, TxsIndexed, SearchBlock, Chained, HashesDiffer, BlocksShareNoTx;
    MemberIsFound(c, hist, blocks[h]);
  }

  /** What the database answers for the hash of a block. */
  lemma OldBlockIs(c: Crypto, hist: History, i: nat, h: Hash)
    requires HashesDiffer(c, hist) && HasBlock(c, hist, i, h)
    ensures OldBlock(c, hist, h) == IfRead(BlockRead(c, hist[i]))
  {
    hide BlockHash, SearchBlock, HashesDiffer, BlockRead;
    MemberIsFound(c, hist, hist[i]);
  }

  lemma FoundInCache(c: Crypto, hist: History, n: nat, heights: map<u64, Hash>, blocks: map<Hash, Block>,
    txs: map<Hash, Found>, db: Db, h: Hash)
    requires Good(c, hist) && RestOk(c, hist, n, heights, blocks, txs, db) && h in blocks
    ensures OldBlock(c, hist, h) == Ok(Some(blocks[h]))
  {
    hide BlockHash, Fits, OldBlock, Chained, HashesDiffer, BlocksShareNoTx, HeightsIndexed, TxsCached, DbSound, DbHas,
      BlockRead;
    var i :| HasBlock(c, hist, i, h) && BlockRead(c, hist[i]) == Ok(blocks[h]);
    OldBlockIs(c, hist, i, h);
  }

  lemma FoundInDb(c: Crypto, hist: History, n: nat, heights: map<u64, Hash>, blocks: map<Hash, Block>,
    txs: map<Hash, Found>, db: Db, h: Hash)
    requires Good(c, hist) && RestOk(c, hist, n, heights, blocks, txs, db) && h in db.blocks
    ensures OldBlock(c, hist, h) == IfRead(Parse(c, db.blocks[h]))
    ensures Parse(c, db.blocks[h]).Ok? ==>
      RestOk(c, hist, n, heights, blocks[h := Parse(c, db.blocks[h]).value], txs, db)
  {
    hide BlockHash, OldBlock, Chained, HashesDiffer, BlocksShareNoTx, HeightsIndexed, TxsCached, DbHas, SerializeBlock,
      Parse;
    var i :| BlockEntryOk(c, hist, i, h, db.blocks[h]);
    OldBlockIs(c, hist, i, h);
    assert BlockRead(c, hist[i]) == Parse(c, db.blocks[h]);
    if Parse(c, db.blocks[h]).Ok? { CacheOneBlock(c, hist, blocks, i, h, Parse(c, db.blocks[h]).value); }
  }

  lemma CacheOneBlock(c: Crypto, hist: History, blocks: map<Hash, Block>, i: nat, h: Hash, x: Block)
    requires BlocksCached(c, hist, blocks) && HasBlock(c, hist, i, h) && BlockRead(c, hist[i]) == Ok(x)
    ensures BlocksCached(c, hist, blocks[h := x])
  {
    hide BlockHash, BlockRead;
  }

  /** A block in memory has this hash. */
  ghost predicate InChain(c: Crypto, chain: seq<Block>, h: Hash) { exists b :: b in chain && BlockHash(c, b) == h }

  lemma IndexedIsInChain(c: Crypto, hist: History, chain: seq<Block>, blocks: map<Hash, Block>, txs: map<Hash, Place>,
    h: Hash)
    requires IndexesOk(c, hist, chain, blocks, txs)
    ensures h in blocks <==> InChain(c, chain, h)
  {
    hide BlockHash, TxsIndexed, InMemory;
  }

  /** A block of the history is in the chain or in the database. */
  lemma SomewhereStored(c: Crypto, hist: History, chain: seq<Block>, blocks: map<Hash, Block>, txs: map<Hash, Place>,
    db: Db, b: Block)
    requires IndexesOk(c, hist, chain, blocks, txs) && DbHas(c, db, hist, |hist| - |chain|) && b in hist
    ensures b in chain || BlockIsIn(c, db, b)
  {
    hide BlockIsIn, BlocksIndexed, TxsIndexed;
    var i :| 0 <= i < |hist| && hist[i] == b;
    if i >= |hist| - |chain| { assert chain[i - (|hist| - |chain|)] == b; }
  }

  lemma FoundNowhere(c: Crypto, hist: History, chain: seq<Block>, byHash: map<Hash, Block>, places: map<Hash, Place>,
    heights: map<u64, Hash>, blocks: map<Hash, Block>, txs: map<Hash, Found>, db: Db, h: Hash)
    requires Good(c, hist) && IndexesOk(c, hist, chain, byHash, places)
    requires RestOk(c, hist, |chain|, heights, blocks, txs, db)
    requires h !in byHash && h !in db.blocks
    ensures OldBlock(c, hist, h) == Ok(None)
  {
    hide BlockHash, Tx.HashOf, Fits, TxsIndexed, SearchBlock, BlocksCached, BlockRead, HeightsIndexed, TxsCached,
      DbSound, DbHas, InMemory;
    forall b | b in hist ensures BlockHash(c, b) != h {
      SomewhereStored(c, hist, chain, byHash, places, db, b);
    }
    StrangerIsMissed(c, hist, h);
  }

  lemma HeightIsIndexed(c: Crypto, hist: History, chain: seq<Block>, byHash: map<Hash, Block>,
    places: map<Hash, Place>, heights: map<u64, Hash>, blocks: map<Hash, Block>, txs: map<Hash, Found>, db: Db,
    height: u64)
    requires Good(c, hist) && IndexesOk(c, hist, chain, byHash, places)
    requires RestOk(c, hist, |chain|, heights, blocks, txs, db)
    ensures height in heights <==> height < |hist|
    ensures height in heights ==> (InChain(c, chain, heights[height]) <==> |hist| - |chain| <= height)
    ensures height in heights ==> SearchBlock(c, hist, heights[height]) == Some(hist[height])
    ensures height in heights ==> OldBlock(c, hist, heights[height]) == IfRead(BlockRead(c, hist[height]))
  {
    hide BlockHash, Fits, SearchBlock, OldBlock, Chained, HashesDiffer, BlocksShareNoTx, BlocksCached, TxsCached,
      DbSound, DbHas, BlockRead, BlocksIndexed, TxsIndexed;
    if height in heights {
      assert heights[height] == BlockHash(c, hist[height]);
      MemberIsFound(c, hist, hist[height]);
      OldBlockIs(c, hist, height, heights[height]);
      InChainByHeight(c, hist, chain, height);
    }
  }

  lemma InChainByHeight(c: Crypto, hist: History, chain: seq<Block>, n: nat)
    requires HashesDiffer(c, hist) && InMemory(hist, chain) && n < |hist|
    ensures InChain(c, chain, BlockHash(c, hist[n])) <==> |hist| - |chain| <= n
  {
    hide BlockHash;
    var d := |hist| - |chain|;
    if d <= n { assert chain[n - d] == hist[n]; }
    if b :| b in chain && BlockHash(c, b) == BlockHash(c, hist[n]) {
      var k :| 0 <= k < |chain| && chain[k] == b;
      assert hist[d + k] == b;
      assert HasBlock(c, hist, d + k, BlockHash(c, b)) && HasBlock(c, hist, n, BlockHash(c, b));
    }
  }

  /** A block in memory has this transaction. */
  ghost predicate Recent(c: Crypto, chain: seq<Block>, h: Hash) { exists b, j :: b in chain && IsTxOf(c, b, j, h) }

  lemma IndexedIsRecent(c: Crypto, hist: History, chain: seq<Block>, blocks: map<Hash, Block>, txs: map<Hash, Place>,
    h: Hash)
    requires IndexesOk(c, hist, chain, blocks, txs)
    ensures h in txs <==> Recent(c, chain, h)
  {
    hide IsTxOf, BlocksIndexed, InMemory, PlaceOf;
    if h in txs {
      var b, j :| b in chain && Chosen(c, b, First, j, h);
    } else if b, j :| b in chain && IsTxOf(c, b, j, h) {
      InBounds(c, b, j, h);
      var k := SomeIsChosen(c, b, First, j, h);
    }
  }

  lemma GoodCountsFit(c: Crypto, hist: History)
    requires Good(c, hist)
    ensures CountsFit(hist)
  {
    hide BlockHash, Storable, HashesDiffer, BlocksShareNoTx;
  }

  lemma TxInChain(c: Crypto, hist: History, chain: seq<Block>, blocks: map<Hash, Block>, txs: map<Hash, Place>, h: Hash)
    requires Good(c, hist) && IndexesOk(c, hist, chain, blocks, txs) && h in txs
    ensures txs[h].blockHash in blocks && txs[h].index < |blocks[txs[h].blockHash].txs|
    ensures var tx := blocks[txs[h].blockHash].txs[txs[h].index];
      Tx.HashOf(c, tx) == h && CountsFit(hist) && SearchTx(c, hist, First, h) == Some(Found(tx, txs[h]))
  {
    hide BlockHash, Tx.HashOf, Storable, SearchTx, Chained, HashesDiffer, BlocksShareNoTx;
    var b, j :| b in chain && Chosen(c, b, First, j, h);
    GoodCountsFit(c, hist);
    TxIsFound(c, hist, b, First, j, h);
  }

  /** What the database answers for the hash of a transaction. */
  lemma OldTxIs(c: Crypto, hist: History, i: nat, j: nat, h: Hash)
    requires Good(c, hist) && i < |hist| && Chosen(c, hist[i], Last, j, h)
    ensures CountsFit(hist) && j < U32
    ensures OldTx(c, hist, h)
      == match TxRead(c, hist[i], j) case Ok(x) => Ok(Some(Found(x, PlaceOf(c, hist[i], j)))) case Err => Err
  {
    hide BlockHash, Tx.HashOf, Fits, SearchTx, HashesDiffer, BlocksShareNoTx, TxRead;
    GoodCountsFit(c, hist);
    TxIsFound(c, hist, hist[i], Last, j, h);
  }

  lemma TxInCache(c: Crypto, hist: History, n: nat, heights: map<u64, Hash>, blocks: map<Hash, Block>,
    txs: map<Hash, Found>, db: Db, h: Hash)
    requires Good(c, hist) && RestOk(c, hist, n, heights, blocks, txs, db) && h in txs
    ensures CountsFit(hist) && OldTx(c, hist, h) == Ok(Some(txs[h]))
  {
    hide Good, OldTx, HeightsIndexed, BlocksCached, DbSound, DbHas, TxRead, Chosen, PlaceOf, IsTxOf;
    var i, j :| IsCached(c, hist, i, j, h, txs[h]);
    InBounds(c, hist[i], j, h);
    OldTxIs(c, hist, i, j, h);
  }

  lemma TxNowhere(c: Crypto, hist: History, chain: seq<Block>, byHash: map<Hash, Block>, places: map<Hash, Place>,
    heights: map<u64, Hash>, blocks: map<Hash, Block>, txs: map<Hash, Found>, db: Db, h: Hash)
    requires Good(c, hist) && IndexesOk(c, hist, chain, byHash, places)
    requires RestOk(c, hist, |chain|, heights, blocks, txs, db) && h !in places && h !in db.txs
    ensures CountsFit(hist) && OldTx(c, hist, h) == Ok(None)
  {
    hide BlockHash, Fits, BlocksIndexed, TxsIndexed, SearchTx, HeightsIndexed, BlocksCached, TxsCached, DbSound,
      DbHas, InMemory, Tx.HashOf;
    GoodCountsFit(c, hist);
    IndexedIsRecent(c, hist, chain, byHash, places, h);
    forall b, j | b in hist ensures !IsTxOf(c, b, j, h) {
      SomewhereStored(c, hist, chain, byHash, places, db, b);
    }
    TxIsMissed(c, hist, Last, h);
  }

  /** A transaction that is not in memory belongs to a block in the database only. */
  lemma TxIsOld(c: Crypto, hist: History, chain: seq<Block>, byHash: map<Hash, Block>, places: map<Hash, Place>,
    heights: map<u64, Hash>, blocks: map<Hash, Block>, txs: map<Hash, Found>, db: Db, h: Hash)
    requires IndexesOk(c, hist, chain, byHash, places)
    requires RestOk(c, hist, |chain|, heights, blocks, txs, db) && h !in places
    ensures forall i, j :: HasTx(c, hist, i, j, h) ==> i < |hist| - |chain| && BlockHash(c, hist[i]) in db.blocks
  {
    hide BlockHash, IsTxOf, BlocksIndexed, TxsIndexed, HeightsIndexed, BlocksCached, TxsCached, DbSound;
    IndexedIsRecent(c, hist, chain, byHash, places, h);
    forall k | |hist| - |chain| <= k < |hist| ensures hist[k] in chain {
      assert chain[k - (|hist| - |chain|)] == hist[k];
    }
    forall i, j | HasTx(c, hist, i, j, h) ensures i < |hist| - |chain| && BlockHash(c, hist[i]) in db.blocks {
      assert BlockIsIn(c, db, hist[i]);
    }
  }

  lemma TxInDb(c: Crypto, hist: History, n: nat, heights: map<u64, Hash>, blocks: map<Hash, Block>,
    txs: map<Hash, Found>, db: Db, h: Hash)
    returns (p: Place)
    requires Good(c, hist) && RestOk(c, hist, n, heights, blocks, txs, db) && h in db.txs
    requires forall i, j :: HasTx(c, hist, i, j, h) ==> BlockHash(c, hist[i]) in db.blocks
    ensures |db.txs[h]| == 44 && p == ReadPlace(db.txs[h]) && p.blockHash in db.blocks && CountsFit(hist)
    ensures var read := TxAt(TxParser(c), db.blocks[p.blockHash], p.index);
      && OldTx(c, hist, h) == (match read case Ok(x) => Ok(Some(Found(x, p))) case Err => Err)
      && (read.Ok? ==> RestOk(c, hist, n, heights, blocks, txs[h := Found(read.value, p)], db))
  {
    hide BlockHash, Tx.HashOf, OldTx, Chained, HashesDiffer, BlocksShareNoTx, HeightsIndexed, BlocksCached, DbHas,
      SerializeBlock, TxAt, ReadPlace, Chosen, TxsCached;
    var i, j :| TxEntryOk(c, hist, i, j, h, db.txs[h]);
    var b := hist[i];
    assert HasTx(c, hist, i, j, h) && Fits(b);
    PlaceRoundTrip(PlaceOf(c, b, j));
    OldTxIs(c, hist, i, j, h);
    var k :| BlockEntryOk(c, hist, k, BlockHash(c, b), db.blocks[BlockHash(c, b)]);
    SameHashSameBlock(c, hist, hist[k], b);
    p := PlaceOf(c, b, j);
    var read := TxAt(TxParser(c), db.blocks[p.blockHash], p.index);
    if read.Ok? {
      assert IsCached(c, hist, i, j, h, Found(read.value, p));
      CacheOneTx(c, hist, txs, i, j, h, Found(read.value, p));
    }
  }

  lemma CacheOneTx(c: Crypto, hist: History, txs: map<Hash, Found>, i: int, j: int, h: Hash, f: Found)
    requires TxsCached(c, hist, txs) && IsCached(c, hist, i, j, h, f)
    ensures TxsCached(c, hist, txs[h := f])
  {
    hide IsCached;
  }

  // ----- Saving and loading

  /** Transaction j has the hash, and none between it and the k-th. */
  ghost predicate LastBelow(c: Crypto, b: Block, k: nat, j: int, h: Hash) {
    j < k && IsTxOf(c, b, j, h) && forall l :: l < k && IsTxOf(c, b, l, h) ==> l <= j
  }

  lemma {:induction false} PutTxsFacts(c: Crypto, t: map<Hash, bytes>, b: Block, k: nat, r: map<Hash, bytes>)
    requires k <= |b.txs| && r == PutTxs(c, t, b, k)
    ensures forall h :: h in t ==> h in r
    ensures forall j :: 0 <= j < k ==> Tx.HashOf(c, b.txs[j]) in r
    ensures forall h :: h in r ==>
      (h in t && r[h] == t[h]) || exists j :: LastBelow(c, b, k, j, h) && r[h] == PlaceBytes(PlaceOf(c, b, j))
    decreases k
  {
    hide Tx.HashOf, PlaceBytes, PlaceOf, LastBelow;
    if k > 0 {
      var p, h := PutTxs(c, t, b, k - 1), Tx.HashOf(c, b.txs[k - 1]);
      PutTxsFacts(c, t, b, k - 1, p);
      LatestIsLast(c, b, k);
      forall g | g in r
        ensures (g in t && r[g] == t[g]) || exists j :: LastBelow(c, b, k, j, g) && r[g] == PlaceBytes(PlaceOf(c, b, j))
      {
        if g != h && !(g in t && p[g] == t[g]) {
          var j :| LastBelow(c, b, k - 1, j, g) && p[g] == PlaceBytes(PlaceOf(c, b, j));
          StillLast(c, b, k, j, g);
        }
      }
    }
  }

  lemma LatestIsLast(c: Crypto, b: Block, k: nat)
    requires 0 < k <= |b.txs|
    ensures LastBelow(c, b, k, k - 1, Tx.HashOf(c, b.txs[k - 1]))
  {
  }

  lemma StillLast(c: Crypto, b: Block, k: nat, j: int, h: Hash)
    requires 0 < k <= |b.txs| && LastBelow(c, b, k - 1, j, h) && !IsTxOf(c, b, k - 1, h)
    ensures LastBelow(c, b, k, j, h)
  {
    hide IsTxOf;
  }

  lemma LastOfAll(c: Crypto, b: Block, j: int, h: Hash)
    requires LastBelow(c, b, |b.txs|, j, h)
    ensures Chosen(c, b, Last, j, h)
  {
  }

  lemma PutBlockSound(c: Crypto, hist: History, m: map<Hash, str>, i: nat)
    requires i < |hist| && BlocksSound(c, m, hist) && |SerializeBlock(hist[i])| < 0x4000_0000_0000_0000
    ensures BlocksSound(c, m[BlockHash(c, hist[i]) := SerializeBlock(hist[i])], hist)
  {
    hide BlockHash, SerializeBlock;
    var r := m[BlockHash(c, hist[i]) := SerializeBlock(hist[i])];
    forall h | h in r ensures exists k :: BlockEntryOk(c, hist, k, h, r[h]) {
      if h == BlockHash(c, hist[i]) {
        assert BlockEntryOk(c, hist, i, h, r[h]);
      } else {
        var k :| BlockEntryOk(c, hist, k, h, m[h]);
      }
    }
  }

  lemma PutTxsSound(c: Crypto, hist: History, m: map<Hash, bytes>, i: nat)
    requires i < |hist| && TxsSound(c, m, hist) && |hist[i].txs| < U32
    ensures TxsSound(c, PutTxs(c, m, hist[i], |hist[i].txs|), hist)
  {
    hide BlockHash, Tx.HashOf, PlaceBytes, PutTxs, Chosen;
    var b := hist[i];
    var r := PutTxs(c, m, b, |b.txs|);
    PutTxsFacts(c, m, b, |b.txs|, r);
    forall h | h in r ensures exists k, j :: TxEntryOk(c, hist, k, j, h, r[h]) {
      if h in m && r[h] == m[h] {
        var k, j :| TxEntryOk(c, hist, k, j, h, m[h]);
      } else {
        var j :| LastBelow(c, b, |b.txs|, j, h) && r[h] == PlaceBytes(PlaceOf(c, b, j));
        LastOfAll(c, b, j, h);
        assert TxEntryOk(c, hist, i, j, h, r[h]);
      }
    }
  }

  /** Saving one more block of the history keeps the database right and adds that block. */
  lemma PutKeeps(c: Crypto, hist: History, db: Db, i: nat)
    requires Good(c, hist) && i < |hist| && DbSound(c, db, hist) && DbHas(c, db, hist, i)
    requires |SerializeBlock(hist[i])| < 0x4000_0000_0000_0000
    ensures DbSound(c, PutBlock(c, db, hist[i]), hist) && DbHas(c, PutBlock(c, db, hist[i]), hist, i + 1)
  {
    hide Good, DbSound, DbHas, PutBlock;
    PutIsSound(c, hist, db, i);
    PutAdds(c, hist, db, i);
  }

  lemma PutIsSound(c: Crypto, hist: History, db: Db, i: nat)
    requires Good(c, hist) && i < |hist| && DbSound(c, db, hist)
    requires |SerializeBlock(hist[i])| < 0x4000_0000_0000_0000
    ensures DbSound(c, PutBlock(c, db, hist[i]), hist)
  {
    hide BlockHash, SerializeBlock, Good, PutTxs, BlocksSound, HeightsSound, TxsSound;
    FitsIn(c, hist, i);
    PutBlockSound(c, hist, db.blocks, i);
    PutHeightSound(c, hist, db.heights, i);
    PutTxsSound(c, hist, db.txs, i);
  }

  lemma PutAdds(c: Crypto, hist: History, db: Db, i: nat)
    requires i < |hist| && DbHas(c, db, hist, i) && |SerializeBlock(hist[i])| < 0x4000_0000_0000_0000
    ensures DbHas(c, PutBlock(c, db, hist[i]), hist, i + 1)
  {
    hide SerializeBlock, PutBlock, BlockIsIn;
    var d := PutBlock(c, db, hist[i]);
    PutIsIn(c, db, hist[i]);
    forall k | 0 <= k < i + 1 ensures BlockIsIn(c, d, hist[k]) {
      if k < i { StillIn(c, db, hist[i], hist[k]); }
    }
  }

  lemma PutHeightSound(c: Crypto, hist: History, m: map<u64, Hash>, i: nat)
    requires i < |hist| && HeightsSound(c, m, hist) && hist[i].nHeight == i
    ensures HeightsSound(c, m[hist[i].nHeight := BlockHash(c, hist[i])], hist)
  {
    hide BlockHash;
  }

  lemma PutIsIn(c: Crypto, db: Db, b: Block)
    requires |SerializeBlock(b)| < 0x4000_0000_0000_0000
    ensures BlockIsIn(c, PutBlock(c, db, b), b)
  {
    hide BlockHash, Tx.HashOf, SerializeBlock, PutTxs;
    PutTxsFacts(c, db.txs, b, |b.txs|, PutTxs(c, db.txs, b, |b.txs|));
  }

  lemma StillIn(c: Crypto, db: Db, b: Block, x: Block)
    requires |SerializeBlock(b)| < 0x4000_0000_0000_0000 && BlockIsIn(c, db, x)
    ensures BlockIsIn(c, PutBlock(c, db, b), x)
  {
    hide BlockHash, Tx.HashOf, SerializeBlock, PutTxs;
    PutTxsFacts(c, db.txs, b, |b.txs|, PutTxs(c, db.txs, b, |b.txs|));
  }

  lemma FitsIn(c: Crypto, hist: History, i: nat)
    requires Good(c, hist) && i < |hist|
    ensures |SerializeBlock(hist[i])| < 0x4000_0000_0000_0000 && hist[i].nHeight == i && |hist[i].txs| < U32
  {
    hide BlockHash, SerializeBlock, HashesDiffer, BlocksShareNoTx;
    assert Fits(hist[i]);
  }

  lemma RestHasDb(c: Crypto, hist: History, n: nat, heights: map<u64, Hash>, blocks: map<Hash, Block>,
    txs: map<Hash, Found>, db: Db)
    requires RestOk(c, hist, n, heights, blocks, txs, db)
    ensures DbSound(c, db, hist) && n <= |hist| && DbHas(c, db, hist, |hist| - n)
  {
  }

  lemma LatestKeeps(c: Crypto, db: Db, hist: History)
    requires |hist| > 0 && DbSound(c, db, hist) && DbHas(c, db, hist, |hist|)
    requires |SerializeBlock(hist[|hist| - 1])| < 0x4000_0000_0000_0000
    ensures DbHolds(c, db.(latest := SerializeBlock(hist[|hist| - 1])), hist)
  {
    hide BlockHash, Tx.HashOf, SerializeBlock, BlocksSound, HeightsSound, TxsSound;
    var d := db.(latest := SerializeBlock(hist[|hist| - 1]));
    forall i | 0 <= i < |hist| ensures BlockIsIn(c, d, hist[i]) { assert BlockIsIn(c, db, hist[i]); }
  }

  lemma EntryAtHeight(c: Crypto, db: Db, hist: History, n: nat)
    requires Good(c, hist) && DbHolds(c, db, hist) && n < |hist|
    ensures n < U64 && n in db.heights && db.heights[n] in db.blocks && Fits(hist[n])
    ensures db.blocks[db.heights[n]] == SerializeBlock(hist[n])
    ensures n == |hist| - 1 ==> db.latest == SerializeBlock(hist[n])
  {
    hide BlockHash, Tx.HashOf, SerializeBlock, BlocksShareNoTx, HashesDiffer, TxEntryOk;
    var b := hist[n];
    assert BlockIsIn(c, db, b);
    FitsIn(c, hist, n);
    var h := BlockHash(c, b);
    var i :| BlockEntryOk(c, hist, i, h, db.blocks[h]);
    SameHashSameBlock(c, hist, hist[i], b);
  }

  lemma NothingIndexed(c: Crypto)
    ensures BlocksIndexed(c, [], map[]) && TxsIndexed(c, [], map[])
  {
  }

  /** The block before the loaded ones extends them, and the two checks of a push to the front pass. */
  lemma NextInFront(c: Crypto, hist: History, loaded: seq<Block>, block: Block, m: map<Hash, Block>,
    t: map<Hash, Place>)
    requires Good(c, hist) && |loaded| < |hist| && loaded == hist[|hist| - |loaded|..]
    requires block == hist[|hist| - |loaded| - 1]
    requires BlocksIndexed(c, loaded, m) && TxsIndexed(c, loaded, t)
    ensures |block.txs| < U32 && BlockHash(c, block) !in m && [block] + loaded == hist[|hist| - (|loaded| + 1)..]
    ensures |loaded| != 0 ==>
      loaded[0].prevBlockHash == BlockHash(c, block) && block.nHeight == HeightBelow(loaded[0].nHeight)
    ensures BlocksIndexed(c, [block] + loaded, m[BlockHash(c, block) := block])
    ensures TxsIndexed(c, [block] + loaded, AddTxs(c, t, block, |block.txs|))
  {
    hide BlockHash, Tx.HashOf, Fits, BlocksIndexed, TxsIndexed, AddTxs, HashesDiffer, BlocksShareNoTx;
    var longer := [block] + loaded;
    assert longer == hist[|hist| - (|loaded| + 1)..];
    assert block !in loaded by {
      forall i | 0 <= i < |loaded| ensures loaded[i] != block { assert loaded[i] == hist[|hist| - |loaded| + i]; }
    }
    assert forall x :: x in longer ==> x in hist;
    IndexBlock(c, hist, loaded, longer, block, m);
    IndexTxs(c, hist, loaded, longer, block, t);
  }

  lemma LoadedRest(c: Crypto, db: Db, hist: History, n: nat)
    requires Good(c, hist) && DbHolds(c, db, hist) && n <= |hist|
    ensures RestOk(c, hist, n, db.heights, map[], map[], db)
  {
    hide BlockHash, Tx.HashOf, SerializeBlock, Storable, HashesDiffer, BlocksShareNoTx, BlockEntryOk, TxEntryOk;
    forall i | 0 <= i < |hist| && i < U64 ensures i in db.heights { assert BlockIsIn(c, db, hist[i]); }
  }

  /** A fresh database holds the genesis block. */
  function InitialDb(c: Crypto, genesis: Block): (d: Db)
    requires |SerializeBlock(genesis)| < 0x4000_0000_0000_0000
  {
    var h := BlockHash(c, genesis);
    Db(map[h := SerializeBlock(genesis)], SerializeBlock(genesis), map[genesis.nHeight := h], map[])
  }

  lemma InitialDbHolds(c: Crypto, genesis: Block)
    requires genesis.nHeight == 0 && genesis.txs == [] && Fits(genesis)
    ensures Good(c, [genesis]) && DbHolds(c, InitialDb(c, genesis), [genesis])
  {
    hide BlockHash, Tx.HashOf, SerializeBlock, Parse, TxAt;
    var d, h := InitialDb(c, genesis), BlockHash(c, genesis);
    assert BlockEntryOk(c, [genesis], 0, h, d.blocks[h]);
    assert BlockIsIn(c, d, [genesis][0]);
  }

  /** Saving and loading again, null if the load throws.  It does exactly when a recent block cannot be
      read back; otherwise the history is kept, with the most recent blocks in memory. */
  method SaveAndReload(s: Store) returns (t: Store?)
    requires s.Valid()
    ensures SomeMisread(s.c, RecentOf(s.history)) || (t != null <==> AllReload(s.c, RecentOf(s.history)))
    ensures t != null && !SomeMisread(s.c, RecentOf(s.history)) ==> fresh(t) && t.Restores(s.c, t.db, s.history)
    ensures AllReload(s.c, RecentOf(s.history)) ==> t != null && fresh(t) && t.Restores(s.c, t.db, s.history)
  {
    hide Good, DbHolds, IndexesOk, RestOk, AllReload, SomeMisread;
    var db := s.Save();
    t := Store.Open(s.c, db, s.history);
    ReloadedIsNotMisread(s.c, RecentOf(s.history));
  }

  lemma ReloadedIsNotMisread(c: Crypto, blocks: seq<Block>)
    ensures AllReload(c, blocks) ==> !SomeMisread(c, blocks)
  {
    hide Parse, SerializeBlock;
    if AllReload(c, blocks) {
      forall i | 0 <= i < |blocks| ensures !Misreads(c, blocks[i]) { assert Reloads(c, blocks[i]); }
    }
  }
}
