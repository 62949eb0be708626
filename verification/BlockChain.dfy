/** The block chain proper: moving the head block, reorganising onto another branch, and
    the transaction index and its read cache. */
module BlockChain {
  import opened Wrappers
  import opened Chain
  import opened TotalDifficulty
  import opened ForkSearch
  import opened TxIndex
  import opened Switch
  import opened Database
  import HC = HeaderChain
  import FC = ForkChoice
  import SH = SetHead
  import Rewind

  datatype ChainError = UnknownAncestor

  /** The uncached read: index entry, canonical block at that number, body. */
  function ReadCanonicalTransaction(canon: Canon, bodies: Bodies, lookup: Lookup, tx: Hash): Option<TxPlace> {
    match Read(lookup, tx)
    case None => None
    case Some(n) =>
      if n in canon && TxIn(bodies, canon[n], tx) then Some(TxPlace(canon[n], n)) else None
  }

  /** What a rewind depends on besides the chain: the trie scheme, states that can be rolled
      back to, the snap-sync pivot, and the search threshold. */
  datatype RewindOptions = RewindOptions(
    pathScheme: bool, recoverable: set<Hash>, pivot: Option<nat>, threshold: nat)

  /** Pending marker writes. */
  datatype MarkerBatch = MarkerBatch(headBlock: Option<Hash>, headFast: Option<Hash>)

  class Blocks {
    const db: Db
    const hc: HC.Headers
    const genesis: Header
    const cfg: FC.Config
    var currentBlock: Header
    var currentSnapBlock: Header
    var txCache: map<Hash, TxPlace>
    var states: set<Hash>
    const opts: RewindOptions
    ghost var headWrites: seq<HeadWrite>

    /** A chain that holds its genesis block. */
    constructor (genesis: Block, cfg: FC.Config, states: set<Hash>, opts: RewindOptions)
      requires genesis.header.number == 0 && genesis.header.parentHash == ZERO && genesis.header.hash != ZERO
      ensures fresh(db) && fresh(hc) && this.genesis == genesis.header && this.cfg == cfg
      ensures Valid() && Canonical(db.headers, db.canon, currentBlock) && currentBlock == genesis.header
      ensures IndexExact(db.headers, db.bodies, currentBlock, db.txLookup)
      ensures CacheExact(db.canon, db.bodies, txCache)
    {
      var db := new Db(genesis);
      this.db := db;
      this.hc := new HC.Headers(db, genesis.header, cfg);
      this.genesis, this.cfg, this.states, this.opts := genesis.header, cfg, states, opts;
      currentBlock, currentSnapBlock, txCache, headWrites := genesis.header, genesis.header, map[], [];
      new;
      forall tx: Hash, n: nat
        ensures LineTx(db.headers, db.bodies, currentBlock, n, tx) <==> Read(db.txLookup, tx) == Some(n)
      {
        AncestorNumber(db.headers, currentBlock, n);
      }
    }

    /** What every operation keeps: sound tables, markers that agree with the in-memory
        heads, and a gap-free canonical map that is the line of the header head up to that
        head, with the block head on it. */
    ghost predicate Valid()
      reads this, hc, db
    {
      && hc.db == db && hc.genesis == genesis && hc.cfg == cfg && hc.Valid()
      && Stored(db.headers, currentBlock) && db.headBlock == currentBlock.hash
      && Stored(db.headers, currentSnapBlock) && db.headFast == currentSnapBlock.hash
      && Contiguous(db.canon) && Names(db.headers, db.canon)
      && PathTo(db.headers, db.canon, hc.currentHeader) && IsAncestor(db.headers, currentBlock, hc.currentHeader)
    }

    /** All head markers, in memory and stored, name `h`. */
    ghost predicate HeadIs(h: Header)
      reads this, hc, db
    {
      && currentBlock == currentSnapBlock == hc.currentHeader == h
      && hc.currentHeaderHash == db.headHeader == db.headBlock == db.headFast == h.hash
    }

    /** writeHeadBlock: one canonical entry, the block's lookups, all head markers. */
    method WriteHeadBlock(block: Block)
      requires hc.db == db && db.HasBlock(block)
      modifies this`currentBlock, this`currentSnapBlock, this`headWrites, hc
      modifies db`canon, db`txLookup, db`headHeader, db`headBlock, db`headFast
      ensures db.canon == old(db.canon)[block.header.number := block.header.hash]
      ensures db.txLookup == IndexBlock(old(db.txLookup), block.header.number, block.txs)
      ensures HeadIs(block.header)
      ensures headWrites == old(headWrites) + [HeadWrite(block.header, db.headers, db.canon)]
      ensures PathTo(db.headers, db.canon, block.header) && old(GoodWrites(headWrites)) ==> GoodWrites(headWrites)
    {
      db.canon := db.canon[block.header.number := block.header.hash];
      db.headHeader, db.headBlock, db.headFast := block.header.hash, block.header.hash, block.header.hash;
      db.txLookup := IndexBlock(db.txLookup, block.header.number, block.txs);
      hc.SetCurrentHeader(block.header);
      currentSnapBlock := block.header;
      currentBlock := block.header;
      headWrites := headWrites + [HeadWrite(block.header, db.headers, db.canon)];
    }

    /** Gathers the transactions of a list of blocks; fails if a body is missing. */
    method CollectTxs(chain: seq<Header>) returns (r: Option<seq<Hash>>)
      requires forall i | 0 <= i < |chain| :: Stored(db.headers, chain[i])
      ensures r.Some? <==> forall i | 0 <= i < |chain| :: chain[i].hash in db.bodies
      ensures r.Some? ==> forall tx :: tx in r.value <==> NumberIn(db.bodies, chain, tx).Some?
    {
      var txs: seq<Hash> := [];
      var i := 0;
      while i < |chain|
        invariant 0 <= i <= |chain|
        invariant forall k | 0 <= k < i :: chain[k].hash in db.bodies
        invariant forall tx :: tx in txs <==> NumberIn(db.bodies, chain[..i], tx).Some?
      {
        var block := db.GetBlock(chain[i].hash, chain[i].number);
        if block.None? {
          return None;
        }
        txs := txs + block.value.txs;
        assert chain[..i + 1] == chain[..i] + [chain[i]];
        forall tx: Hash {
          NumberInAppend(db.bodies, chain[..i], chain[i], tx);
        }
        i := i + 1;
      }
      assert chain[..i] == chain;
      r := Some(txs);
    }

    /** The forward half of `reorg`: full head writes for the given blocks, last one first;
        stops at a missing body. */
    method ApplyNewBlocks(chain: seq<Header>) returns (r: Option<seq<Hash>>)
      requires hc.db == db && forall i | 0 <= i < |chain| :: Stored(db.headers, chain[i])
      modifies this`currentBlock, this`currentSnapBlock, this`headWrites, hc
      modifies db`canon, db`txLookup, db`headHeader, db`headBlock, db`headFast
      ensures (forall i | 0 <= i < |chain| :: chain[i].hash in db.bodies) ==> r.Some?
      ensures r.Some? ==>
                && r.value == TxsWith(db.bodies, chain)
                && db.canon == CanonWith(old(db.canon), chain)
                && db.txLookup == LookupWith(old(db.txLookup), db.bodies, chain)
                && headWrites == old(headWrites) + LogWith(db.headers, old(db.canon), chain)
                && (chain != [] ==> HeadIs(chain[0]))
    {
      var rebirthTxs: seq<Hash> := [];
      var i := |chain|;
      assert chain[i..] == [];
      while i > 0
        invariant 0 <= i <= |chain|
        invariant rebirthTxs == TxsWith(db.bodies, chain[i..])
        invariant db.canon == CanonWith(old(db.canon), chain[i..])
        invariant db.txLookup == LookupWith(old(db.txLookup), db.bodies, chain[i..])
        invariant headWrites == old(headWrites) + LogWith(db.headers, old(db.canon), chain[i..])
        invariant i < |chain| ==> HeadIs(chain[i])
      {
        i := i - 1;
        assert chain[i..][1..] == chain[i + 1..];
        var block := db.GetBlock(chain[i].hash, chain[i].number);
        if block.None? {
          return None;
        }
        rebirthTxs := rebirthTxs + block.value.txs;
        WriteHeadBlock(block.value);
      }
      assert chain[i..] == chain;
      r := Some(rebirthTxs);
    }

    /** The reading half of `reorg`: the fork, and the transactions of the blocks to drop. On
        sound tables the lines always meet. */
    method PlanReorg(oldHead: Header, newHead: Header) returns (f: Fork, deletedTxs: Option<seq<Hash>>)
      requires Valid() && oldHead == currentBlock && Stored(db.headers, newHead)
      ensures IsFork(db.headers, oldHead, newHead, f)
      ensures forall i | 0 <= i < |Tail(f.newChain)| :: Stored(db.headers, Tail(f.newChain)[i])
      ensures ReorgBuilds(db.headers, db.canon, newHead, f)
      ensures deletedTxs.Some? ==> forall tx :: tx in deletedTxs.value <==> NumberIn(db.bodies, f.oldChain, tx).Some?
      ensures (forall h | h in db.headers :: h in db.bodies) ==> deletedTxs.Some?
    {
      ClosedHeadsMeet(db.headers, genesis, oldHead, newHead);
      var fork := FindFork(db.headers, oldHead, newHead);
      f := fork.value;
      PathToAncestor(db.headers, db.canon, hc.currentHeader, oldHead);
      SegmentStored(db.headers, oldHead, f.oldChain, f.common);
      SegmentStored(db.headers, newHead, f.newChain, f.common);
      ReorgCanon(db.headers, db.canon, oldHead, newHead, f);
      deletedTxs := CollectTxs(f.oldChain);
    }

    /** reorg: replaces the branch of the current head by the branch of `newHead`, up to
        but not including `newHead` itself, which the caller writes. Works from any state
        whose map is the old head's line up to the old head, entries above included. */
    method Reorg(oldHead: Header, newHead: Header) returns (err: Option<ReorgError>, ghost f: Fork)
      requires Valid() && oldHead == currentBlock && Stored(db.headers, newHead)
      modifies this`currentBlock, this`currentSnapBlock, this`headWrites, this`txCache, hc
      modifies db`canon, db`txLookup, db`headHeader, db`headBlock, db`headFast
      ensures err.None? ==> IsFork(db.headers, oldHead, newHead, f)
      ensures err.None? ==> Canonical(db.headers, db.canon, AttachPoint(f, newHead))
      ensures err.None? ==> forall tx :: Read(db.txLookup, tx) == LookupAfter(db.bodies, f, old(db.txLookup), tx)
      ensures err.None? ==> txCache == map[] && (|f.newChain| > 1 ==> HeadIs(f.newChain[1]))
      ensures err.None? ==>
                headWrites == old(headWrites) + LogWith(db.headers, old(db.canon), Tail(f.newChain))
                && (old(GoodWrites(headWrites)) ==> GoodWrites(headWrites))
      ensures err.None? && f.newChain != [] ==> ParentOf(db.headers, newHead) == Some(AttachPoint(f, newHead))
      ensures (forall h | h in db.headers :: h in db.bodies) ==> err.None?
    {
      var fork, deletedTxs := PlanReorg(oldHead, newHead);
      f := fork;
      if deletedTxs.None? {
        return Some(InvalidOldChain), f;
      }
      var rebirthTxs := ApplyNewBlocks(Tail(fork.newChain));
      if rebirthTxs.None? {
        return Some(InvalidNewChain), f;
      }
      PurgeStale(fork, deletedTxs.value, rebirthTxs.value);
      ReorgLookups(old(db.txLookup), db.bodies, f, deletedTxs.value, db.txLookup);
      GoodWritesJoin(old(headWrites), LogWith(db.headers, old(db.canon), Tail(f.newChain)));
      err := None;
    }

    /** The cleaning half of `reorg`: drops the index entries of the old branch that the new
        one did not bring back, the canonical entries from the new head up, and the read
        cache. */
    method PurgeStale(f: Fork, deletedTxs: seq<Hash>, rebirthTxs: seq<Hash>)
      requires Contiguous(db.canon)
      modifies this`txCache, db`canon, db`txLookup
      ensures db.canon == Truncated(old(db.canon), if |f.newChain| > 1 then f.newChain[1].number else f.common.number)
      ensures db.txLookup == PurgedLookup(old(db.txLookup), deletedTxs, rebirthTxs)
      ensures txCache == map[]
    {
      var gone := HashDifference(deletedTxs, rebirthTxs);
      db.txLookup := db.txLookup - (set tx | tx in gone);
      var number := f.common.number;
      if |f.newChain| > 1 {
        number := f.newChain[1].number;
      }
      db.DeleteCanonAbove(number);
      txCache := map[];
    }

    /** What a head move to `block` achieves. */
    twostate predicate MovedTo(block: Block)
      reads this, hc, db
    {
      && Valid() && HeadIs(block.header)
      && HeadMoved(db.headers, db.bodies, old(currentBlock), old(db.canon), old(db.txLookup), old(txCache),
                   block.header, db.canon, db.txLookup, txCache)
      && old(headWrites) < headWrites && (old(GoodWrites(headWrites)) ==> GoodWrites(headWrites))
    }

    /** A head write on top of the current head. */
    method ExtendTo(block: Block)
      requires Valid() && db.HasBlock(block) && block.header.parentHash == currentBlock.hash
      modifies this`currentBlock, this`currentSnapBlock, this`headWrites, this`txCache, hc
      modifies db`canon, db`txLookup, db`headHeader, db`headBlock, db`headFast
      ensures MovedTo(block)
    {
      assert Rooted(db.headers, genesis, db.headers[block.header.hash]);
      PathToAncestor(db.headers, db.canon, hc.currentHeader, currentBlock);
      MovedByExtension(db.headers, db.bodies, currentBlock, db.canon, db.txLookup, txCache, block.header, block.txs);
      WriteHeadBlock(block);
    }

    /** A reorganisation, and the head write after it. */
    method SwitchTo(block: Block) returns (err: Option<ReorgError>)
      requires Valid() && db.HasBlock(block) && block.header.parentHash != currentBlock.hash
      modifies this`currentBlock, this`currentSnapBlock, this`headWrites, this`txCache, hc
      modifies db`canon, db`txLookup, db`headHeader, db`headBlock, db`headFast
      ensures err.None? ==> MovedTo(block)
      ensures (forall h | h in db.headers :: h in db.bodies) ==> err.None?
    {
      ghost var f;
      err, f := Reorg(currentBlock, block.header);
      if err.Some? {
        return;
      }
      MovedByReorg(db.headers, db.bodies, old(currentBlock), old(db.canon), old(db.txLookup), old(txCache),
                   block.header, f, db.canon, db.txLookup, block.txs);
      WriteHeadBlock(block);
    }

    /** writeKnownBlock, and the head move of SetCanonical and writeBlockAndSetHead: make a
        stored block the head, reorganising unless it extends the current head. */
    method WriteKnownBlock(block: Block) returns (err: Option<ReorgError>)
      requires Valid() && db.HasBlock(block)
      modifies this`currentBlock, this`currentSnapBlock, this`headWrites, this`txCache, hc
      modifies db`canon, db`txLookup, db`headHeader, db`headBlock, db`headFast
      ensures err.None? ==> MovedTo(block)
      ensures (forall h | h in db.headers :: h in db.bodies) ==> err.None?
    {
      err := None;
      if block.header.parentHash != currentBlock.hash {
        err := SwitchTo(block);
      } else {
        ExtendTo(block);
      }
    }

    /** Stored blocks are the genuine ones, and every stored header has its body. */
    ghost predicate Full(world: World, bodyOf: Hash -> seq<Hash>)
      reads db
    {
      FullTables(world, bodyOf, db.headers, db.bodies)
    }

    /** The head block as fork choice sees it. */
    ghost function Head(): FC.Candidate
      requires currentBlock.hash in db.tds
      reads this, db
    {
      FC.Seen(cfg, db.tds, currentBlock)
    }

    /** The canonical map, the index and the cache are all exactly those of the head. */
    ghost predicate Exact()
      reads this, db
    {
      ExactFor(db.headers, db.bodies, db.canon, db.txLookup, txCache, currentBlock)
    }

    /** The block-store part of writeBlockWithState: header, body and total difficulty,
        which is the parent's total plus the block's own difficulty. */
    method WriteBlockWithState(block: Block, ghost world: World) returns (err: Option<ChainError>)
      requires Valid() && GenuineStore(world, db.headers) && Genuine(world, block.header)
      modifies db`headers, db`tds, db`bodies
      ensures Valid() && GenuineStore(world, db.headers)
      ensures err.None? <==> ParentOf(old(db.headers), block.header).Some?
      ensures err.Some? ==> err == Some(UnknownAncestor) && unchanged(db)
      ensures err.None? ==> BlockStored(old(db.headers), old(db.tds), old(db.bodies), block, db.headers, db.tds, db.bodies)
    {
      var h := block.header;
      var ptd := ParentTd(db.headers, db.tds, h);
      if ptd.None? {
        return Some(UnknownAncestor);
      }
      var externTd := h.difficulty + ptd.value;
      AddHeader(db.headers, genesis, db.tds, h);
      assert externTd == db.tds[h.parentHash] + h.difficulty;
      PathToGrows(db.headers, db.headers[h.hash := h], db.canon, hc.currentHeader);
      AncestorGrows(db.headers, db.headers[h.hash := h], hc.currentHeader, currentBlock.number);
      db.WriteBlock(block, externTd);
      err := None;
    }

    /** GetCanonicalTransaction: the cache in front of the index. With an exact cache every
        answer names a block that is canonical and holds the transaction, and the cache stays
        exact; with an exact index too the answer is the uncached one. */
    method GetCanonicalTransaction(tx: Hash) returns (r: Option<TxPlace>)
      modifies this`txCache
      ensures old(CacheExact(db.canon, db.bodies, txCache)) ==> CacheExact(db.canon, db.bodies, txCache)
      ensures old(CacheExact(db.canon, db.bodies, txCache)) && r.Some? ==>
                r.value.number in db.canon && db.canon[r.value.number] == r.value.block && TxIn(db.bodies, r.value.block, tx)
      ensures old(CacheExact(db.canon, db.bodies, txCache)) ==>
                forall head: Header |
                  Canonical(db.headers, db.canon, head) && IndexExact(db.headers, db.bodies, head, db.txLookup) ::
                  r == ReadCanonicalTransaction(db.canon, db.bodies, db.txLookup, tx)
                  && (r.Some? <==> exists n: nat :: LineTx(db.headers, db.bodies, head, n, tx))
      ensures tx !in old(txCache) ==> r == ReadCanonicalTransaction(db.canon, db.bodies, db.txLookup, tx)
    {
      if tx in txCache {
        r := Some(txCache[tx]);
      } else {
        r := ReadCanonicalTransaction(db.canon, db.bodies, db.txLookup, tx);
        if r.Some? {
          txCache := txCache[tx := r.value];
        }
      }
      if old(CacheExact(db.canon, db.bodies, txCache)) {
        forall head: Header |
          Canonical(db.headers, db.canon, head) && IndexExact(db.headers, db.bodies, head, db.txLookup)
          ensures r == ReadCanonicalTransaction(db.canon, db.bodies, db.txLookup, tx)
          ensures r.Some? <==> exists n: nat :: LineTx(db.headers, db.bodies, head, n, tx)
        {
          CachedReadIsExact(db.headers, db.canon, db.bodies, db.txLookup, head, tx, r);
        }
      }
    }

    /** The first half of writeBlockAndSetHead: ask fork choice about the block, then store
        it. */
    method AskAndStore(block: Block, coin: bool, ghost world: World, ghost bodyOf: Hash -> seq<Hash>)
      returns (r: Result<bool, ChainError>)
      requires Valid() && Full(world, bodyOf) && GenuineBlock(world, bodyOf, block)
      modifies db`headers, db`tds, db`bodies
      ensures Valid() && Full(world, bodyOf) && (old(Exact()) ==> Exact())
      ensures r.Success? <==> ParentOf(old(db.headers), block.header).Some?
      ensures r.Failure? ==> unchanged(db)
      ensures r.Success? ==> BlockStored(old(db.headers), old(db.tds), old(db.bodies), block, db.headers, db.tds, db.bodies)
      ensures r.Success? ==> r.value == FC.Chosen(cfg, FC.Seen(cfg, db.tds, block.header), old(Head()), coin)
    {
      var reorg := FC.Ask(cfg, db.headers, genesis, db.tds, currentBlock, block.header, coin);
      if reorg.Failure? {
        return Failure(UnknownAncestor);
      }
      var err := WriteBlockWithState(block, world);
      if err.Some? {
        return Failure(err.value);
      }
      StoringKeeps(world, bodyOf, old(db.headers), genesis, old(db.tds), old(db.bodies), block, db.canon, db.txLookup, txCache, currentBlock);
      r := Success(reorg.value);
    }

    /** writeBlockAndSetHead: store the block, and move the head to it if fork choice - asked
        before the block was stored - prefers it. */
    method WriteBlockAndSetHead(block: Block, coin: bool, ghost world: World, ghost bodyOf: Hash -> seq<Hash>)
      returns (r: Result<HC.WriteStatus, ChainError>)
      requires Valid() && Full(world, bodyOf) && GenuineBlock(world, bodyOf, block)
      modifies this`currentBlock, this`currentSnapBlock, this`headWrites, this`txCache, hc, db
      ensures Valid() && Full(world, bodyOf) && (old(Exact()) ==> Exact())
      ensures r.Success? <==> ParentOf(old(db.headers), block.header).Some?
      ensures if r.Success?
              then BlockStored(old(db.headers), old(db.tds), old(db.bodies), block, db.headers, db.tds, db.bodies)
              else unchanged(db) && unchanged(hc) && unchanged(this)
      ensures r.Success? ==> r.value == if FC.Chosen(cfg, FC.Seen(cfg, db.tds, block.header), old(Head()), coin) then HC.Canon else HC.Side
      ensures r == Success(HC.Canon) ==> HeadIs(block.header)
      ensures r == Success(HC.Side) ==> currentBlock == old(currentBlock) && db.canon == old(db.canon)
      ensures old(headWrites) <= headWrites && (old(GoodWrites(headWrites)) ==> GoodWrites(headWrites))
    {
      var reorg := AskAndStore(block, coin, world, bodyOf);
      if reorg.Failure? {
        return Failure(reorg.error);
      }
      if !reorg.value {
        return Success(HC.Side);
      }
      ghost var exact := Exact();
      var failed := WriteKnownBlock(block);
      assert failed.None?; // every stored block has its body, so `reorg` finds what it needs
      if exact {
        ExactMoves(db.headers, db.bodies, old(currentBlock), old(db.canon), old(db.txLookup), old(txCache),
                   block.header, db.canon, db.txLookup, txCache);
      }
      r := Success(HC.Canon);
    }

    /** The storing half of insertSideChain, as the whole chain sees it: only the block
        tables grow, and the running total it ends with is the one stored for the last
        block. */
    method StoreSideChain(blocks: seq<Block>, ghost world: World, ghost bodyOf: Hash -> seq<Hash>)
      returns (r: Result<Option<int>, SideChainError>)
      requires Valid() && GenuineStore(world, db.headers) && LinkedBlocks(blocks)
      requires forall i | 0 <= i < |blocks| :: GenuineBlock(world, bodyOf, blocks[i])
      requires blocks != [] ==> ParentOf(db.headers, blocks[0].header).Some?
      modifies db`headers, db`tds, db`bodies
      ensures Valid() && GenuineStore(world, db.headers) && KeepsHeaders(old(db.headers), db.headers)
      ensures old(Full(world, bodyOf)) ==> Full(world, bodyOf) && (old(Exact()) ==> Exact())
      ensures r.Success? ==> forall i | 0 <= i < |blocks| :: Stored(db.headers, blocks[i].header)
      ensures r.Success? && blocks != [] ==> r.value.Some? && TdReads(db.headers, db.tds, blocks[|blocks| - 1].header, r.value)
    {
      r := db.StoreSideChain(blocks, currentBlock.number, genesis, world, bodyOf);
      PathToGrows(old(db.headers), db.headers, db.canon, hc.currentHeader);
      AncestorGrows(old(db.headers), db.headers, hc.currentHeader, currentBlock.number);
      if old(Full(world, bodyOf) && Exact()) {
        ExactGrows(old(db.headers), old(db.bodies), db.headers, db.bodies, genesis, db.canon, db.txLookup, txCache, currentBlock);
      }
    }

    /** The searches of a rewind that has to pass `root`. */
    function Searching(root: Hash): Rewind.Search {
      Rewind.Search(opts.pathScheme, opts.recoverable, opts.pivot, opts.threshold, root)
    }

    /** Where a rewind stands. */
    ghost function Here(t: SH.Target): SH.Point
      reads this, hc
    {
      SH.Point(t, hc.currentHeader, currentBlock, currentSnapBlock, states)
    }

    /** What a rewind goes by. */
    ghost function Ground(root: Hash, frozen: nat): SH.Ground
      reads db
    {
      SH.Ground(db.headers, db.bodies.Keys, genesis, Searching(root), frozen)
    }

    /** The block head goes to where the search from the parent ends. */
    method RestartBlock(parent: Header, root: Hash) returns (fatal: bool)
      requires ParentClosed(db.headers, genesis) && Stored(db.headers, parent)
      modifies this`currentBlock, this`states
      ensures Rewind.Restart(db.headers, genesis, Searching(root), old(states), parent, currentBlock, states)
      ensures (currentBlock == genesis || currentBlock.root in states) && old(states) <= states
      ensures !fatal
    {
      var newHead, rootNumber;
      if opts.pathScheme {
        newHead, rootNumber, states := Rewind.RewindPathHead(db.headers, genesis, Searching(root), states, parent);
      } else {
        newHead, rootNumber := Rewind.RewindHashHead(db.headers, genesis, Searching(root), states, parent);
      }
      currentBlock := newHead;
      fatal := newHead.root !in states && newHead.number != 0;
    }

    /** The head update of a rewind step: take the block head down to a block that still has
        state, and the snap head along. `fatal` is the exit for a stateless head above
        genesis; it is never taken. */
    method UpdateHeads(parent: Header, root: Hash, frozen: nat) returns (batch: MarkerBatch, force: bool, fatal: bool)
      requires ParentClosed(db.headers, genesis)
      requires Stored(db.headers, parent) && Stored(db.headers, currentBlock) && Stored(db.headers, currentSnapBlock)
      modifies this`currentBlock, this`currentSnapBlock, this`states
      ensures Stored(db.headers, currentBlock) && Stored(db.headers, currentSnapBlock)
      ensures if old(currentBlock).number < parent.number
              then currentBlock == old(currentBlock) && batch.headBlock == None
              else IsAncestor(db.headers, currentBlock, parent) && (currentBlock == genesis || currentBlock.root in states)
                   && batch.headBlock == Some(currentBlock.hash)
      ensures currentSnapBlock == SH.SnapFollows(db.bodies.Keys, genesis, parent, old(currentSnapBlock))
      ensures batch.headFast == if parent.number < old(currentSnapBlock).number then Some(currentSnapBlock.hash) else None
      ensures if old(currentBlock).number < parent.number then states == old(states)
              else Rewind.Restart(db.headers, genesis, Searching(root), old(states), parent, currentBlock, states)
      ensures force <==> SH.Forces(frozen, opts.pivot, currentBlock)
      ensures !fatal
      ensures old(states) <= states
    {
      batch, fatal := MarkerBatch(None, None), false;
      if parent.number <= currentBlock.number {
        fatal := RestartBlock(parent, root);
        batch := batch.(headBlock := Some(currentBlock.hash));
      }
      if parent.number < currentSnapBlock.number {
        var block := db.GetBlock(parent.hash, parent.number);
        var newSnap := if block.Some? then block.value.header else genesis;
        batch := batch.(headFast := Some(newSnap.hash));
        currentSnapBlock := newSnap;
      }
      force := currentBlock.number + 1 < frozen && (opts.pivot.None? || currentBlock.number >= opts.pivot.value);
    }

    /** The stored markers are the in-memory heads. */
    ghost predicate MarkersAgree()
      reads this, hc, db
    {
      && hc.currentHeaderHash == db.headHeader == hc.currentHeader.hash
      && db.headBlock == currentBlock.hash && db.headFast == currentSnapBlock.hash
    }

    /** Where the rewind stands, by the in-memory heads. */
    ghost predicate Rewinding(plan: SH.Plan, t: SH.Target, origin: bool, doom: SH.Doom)
      reads this, hc, db
    {
      SH.RewindState(db.headers, plan, t, hc.currentHeader, currentBlock, currentSnapBlock, origin, doom)
    }

    /** One step of a rewind: the header head goes to its parent, the other heads follow, all
        three markers are flushed together, and what lay above is added to the deletions.
        The target is lowered exactly where the new block head forces it. */
    method RewindOnce(t: SH.Target, root: Hash, origin: bool, doom: SH.Doom, ghost plan: SH.Plan, frozen: nat)
      returns (t': SH.Target, doom': SH.Doom, fatal: bool)
      requires hc.db == db && ParentClosed(db.headers, genesis) && MarkersAgree()
      requires Rewinding(plan, t, origin, doom) && plan.frozen == frozen && plan.pivot == opts.pivot
      requires !SH.Done(t, hc.currentHeader) && (plan.target.time > 0 ==> genesis.time <= plan.target.time)
      modifies this`currentBlock, this`currentSnapBlock, this`states, hc, db`headHeader, db`headBlock, db`headFast
      ensures Rewinding(plan, t', false, doom')
      ensures SH.StepsTo(Ground(root, frozen), old(Here(t)), Here(t'))
      ensures t' == SH.Lowered(t, currentBlock, SH.Forces(frozen, opts.pivot, currentBlock))
      ensures MarkersAgree() && !fatal && hc.currentHeader.number + 1 == old(hc.currentHeader).number
      ensures currentBlock.number <= old(currentBlock).number
      ensures old(states) <= states && (currentBlock == old(currentBlock) || currentBlock == genesis || currentBlock.root in states)
    {
      var hdr := hc.currentHeader;
      assert Rooted(db.headers, genesis, db.headers[hdr.hash]);
      ghost var blk, snap := currentBlock, currentSnapBlock;
      var parent, batch, force;
      parent, batch, force, fatal := StepHeads(hdr, root, frozen);
      var above := {};
      if origin {
        above := db.NumbersAbove(hdr.number, genesis);
      }
      SH.BlockStaysBelow(db.headers, hdr, blk, parent, currentBlock);
      SH.RewindStep(db.headers, genesis, plan, t, hdr, blk, snap, origin, doom, parent, currentBlock, currentSnapBlock, above);
      doom' := SH.Doomed(db.headers, doom, above + {hdr.number}, frozen);
      t' := SH.Lowered(t, currentBlock, force);
      FlushMarkers(parent, batch);
    }

    /** The head updates of a step. */
    method StepHeads(hdr: Header, root: Hash, frozen: nat) returns (parent: Header, batch: MarkerBatch, force: bool, fatal: bool)
      requires ParentClosed(db.headers, genesis) && Stored(db.headers, hdr) && hdr.number > 0
      requires Stored(db.headers, currentBlock) && Stored(db.headers, currentSnapBlock)
      modifies this`currentBlock, this`currentSnapBlock, this`states
      ensures ParentOf(db.headers, hdr) == Some(parent) && Stored(db.headers, parent)
      ensures Stored(db.headers, currentBlock) && Stored(db.headers, currentSnapBlock)
      ensures SH.BlockFollows(db.headers, parent, old(currentBlock), currentBlock)
      ensures if old(currentBlock).number < parent.number then states == old(states)
              else Rewind.Restart(db.headers, genesis, Searching(root), old(states), parent, currentBlock, states)
      ensures currentSnapBlock == SH.SnapFollows(db.bodies.Keys, genesis, parent, old(currentSnapBlock))
      ensures currentSnapBlock.number <= parent.number
      ensures batch.headBlock == (if currentBlock == old(currentBlock) && batch.headBlock.None? then None else Some(currentBlock.hash))
      ensures batch.headFast == (if currentSnapBlock == old(currentSnapBlock) && batch.headFast.None? then None else Some(currentSnapBlock.hash))
      ensures force <==> SH.Forces(frozen, opts.pivot, currentBlock)
      ensures !fatal && old(states) <= states
      ensures currentBlock == old(currentBlock) || currentBlock == genesis || currentBlock.root in states
    {
      assert Rooted(db.headers, genesis, db.headers[hdr.hash]);
      parent := ParentOf(db.headers, hdr).value;
      batch, force, fatal := UpdateHeads(parent, root, frozen);
    }

    /** One batch with the new header head and the markers that moved. */
    method FlushMarkers(parent: Header, batch: MarkerBatch)
      requires hc.db == db
      requires batch.headBlock == None ==> db.headBlock == currentBlock.hash
      requires batch.headBlock.Some? ==> batch.headBlock == Some(currentBlock.hash)
      requires batch.headFast == None ==> db.headFast == currentSnapBlock.hash
      requires batch.headFast.Some? ==> batch.headFast == Some(currentSnapBlock.hash)
      modifies hc, db`headHeader, db`headBlock, db`headFast
      ensures MarkersAgree() && hc.currentHeader == parent
    {
      db.headHeader := parent.hash;
      db.headBlock := if batch.headBlock.Some? then batch.headBlock.value else db.headBlock;
      db.headFast := if batch.headFast.Some? then batch.headFast.value else db.headFast;
      hc.SetCurrentHeader(parent);
    }

    /** The loop of setHead: steps down until the target is met. `reached` is the target the
        rewind ended up with, and `bounds` what the flush of every step left in the
        database. */
    method RewindLoop(target: SH.Target, root: Hash, frozen: nat)
      returns (doom: SH.Doom, origin: bool, fatal: bool,
               ghost reached: SH.Target, ghost course: seq<SH.Point>, ghost bounds: seq<SH.Boundary>)
      requires Valid() && (target.time > 0 ==> genesis.time <= target.time)
      modifies this`currentBlock, this`currentSnapBlock, this`states, hc, db`headHeader, db`headBlock, db`headFast
      ensures Rewinding(SH.Plan(old(hc.currentHeader), target, frozen, opts.pivot), reached, origin, doom)
      ensures SH.Done(reached, hc.currentHeader) && (origin <==> SH.Done(target, old(hc.currentHeader)))
      ensures SH.IsCourse(Ground(root, frozen), course, old(Here(target)), Here(reached))
      ensures SH.Flushes(db.headers, course, bounds) && forall b | b in bounds :: SH.MarkersStored(b)
      ensures MarkersAgree() && !fatal
      ensures origin ==> currentBlock == old(currentBlock) && currentSnapBlock == old(currentSnapBlock)
      ensures currentBlock == old(currentBlock) || currentBlock == genesis || currentBlock.root in states
    {
      fatal, bounds, origin, doom := false, [], true, SH.NO_DOOM;
      var t := target;
      ghost var plan := SH.Plan(hc.currentHeader, target, frozen, opts.pivot);
      AncestorNumber(db.headers, hc.currentHeader, currentBlock.number);
      course := [Here(target)];
      while !SH.Done(t, hc.currentHeader)
        invariant MarkersAgree() && !fatal && Rewinding(plan, t, origin, doom)
        invariant currentBlock == old(currentBlock) || currentBlock == genesis || currentBlock.root in states
        invariant origin ==> currentBlock == old(currentBlock) && currentSnapBlock == old(currentSnapBlock)
        invariant SH.IsCourse(Ground(root, frozen), course, old(Here(target)), Here(t))
        invariant SH.Flushes(db.headers, course, bounds) && forall b | b in bounds :: SH.MarkersStored(b)
        decreases hc.currentHeader.number
      {
        ghost var here := Here(t);
        t, doom, fatal := RewindOnce(t, root, origin, doom, plan, frozen);
        SH.CourseGoesOn(Ground(root, frozen), course, old(Here(target)), here, Here(t));
        SH.FlushGoesOn(db.headers, course, bounds, Here(t));
        course := course + [Here(t)];
        origin := false;
        bounds := bounds + [SH.Boundary(db.headers, db.headHeader, db.headBlock, db.headFast)];
      }
      reached := t;
    }

    /** setHead, with the callbacks of setHeadBeyondRoot: step the header head down until it
        meets the target, flush the deletions, then cut off what is frozen above. `frozen` is
        the number of frozen blocks.

        `course` records the stops, each following from the one before as `SetHead.StepsTo`
        says, and `bounds` what each flush left: one for every step, and the last one after
        the deletions. `reached` is the requested target, or what the block head lowered it to: a
        number below the freezer limit at which the header head then stands. A block head
        that forces is the header head in the end. */
    method SetHead(target: SH.Target, root: Hash, frozen: nat)
      returns (fatal: bool, ghost reached: SH.Target, ghost course: seq<SH.Point>, ghost bounds: seq<SH.Boundary>)
      requires Valid()
      requires target.time > 0 ==> genesis.time <= target.time
      modifies this`currentBlock, this`currentSnapBlock, this`states, this`txCache, hc, db
      ensures Valid() && !fatal && txCache == map[]
      ensures IsAncestor(old(db.headers), hc.currentHeader, old(hc.currentHeader))
      ensures SH.Done(reached, hc.currentHeader) && SH.FirstDone(old(db.headers), reached, old(hc.currentHeader), hc.currentHeader)
      ensures SH.IsCourse(old(Ground(root, frozen)), course, old(Here(target)), Here(reached))
      ensures reached != target ==>
                reached.time == 0 && reached.number == hc.currentHeader.number && reached.number + 1 < frozen
                && (opts.pivot.None? || opts.pivot.value <= reached.number)
      ensures !SH.Done(target, old(hc.currentHeader)) && SH.Forces(frozen, opts.pivot, currentBlock) ==>
                if reached.time == 0 then currentBlock == hc.currentHeader else reached.time <= currentBlock.time
      ensures SH.Done(target, old(hc.currentHeader)) ==>
                && hc.currentHeader == old(hc.currentHeader) && db.canon == old(db.canon) && reached == target
                && db.headers == old(db.headers) && db.bodies == old(db.bodies)
      ensures !SH.Done(target, old(hc.currentHeader)) ==>
                && db.headers == old(db.headers) - SH.AboveNumber(old(db.headers), hc.currentHeader.number)
                && db.bodies == old(db.bodies) - SH.AboveNumber(old(db.headers), hc.currentHeader.number)
                && Canonical(db.headers, db.canon, hc.currentHeader)
      ensures currentBlock == old(currentBlock) || currentBlock == genesis || currentBlock.root in states
      ensures forall b | b in bounds :: SH.MarkersStored(b)
      ensures |bounds| == |course| && SH.Flushes(old(db.headers), course, bounds[..|bounds| - 1])
      ensures bounds[|bounds| - 1] == SH.Boundary(db.headers, db.headHeader, db.headBlock, db.headFast)
    {
      var doom, origin;
      doom, origin, fatal, reached, course, bounds := RewindLoop(target, root, frozen);
      ghost var plan := SH.Plan(old(hc.currentHeader), target, frozen, opts.pivot);
      SH.FollowsEnds(plan, reached, hc.currentHeader, currentBlock, origin);
      Prune(doom, origin, frozen, plan, reached);
      if currentBlock.number == hc.currentHeader.number {
        AncestorAtSelf(db.headers, hc.currentHeader, currentBlock);
      }
      bounds := bounds + [SH.Boundary(db.headers, db.headHeader, db.headBlock, db.headFast)];
    }

    /** What a rewind relies on besides where it stands: the tables as they were before it. */
    ghost predicate Unpruned(top: Header)
      reads this, hc, db
    {
      && hc.db == db && hc.genesis == genesis && hc.cfg == cfg && MarkersAgree()
      && ParentClosed(db.headers, genesis) && TdInv(db.headers, db.tds)
      && Contiguous(db.canon) && Names(db.headers, db.canon) && PathTo(db.headers, db.canon, top)
    }

    /** The flush of the deletions, and the cut of what is frozen above the new head. */
    method Prune(doom: SH.Doom, origin: bool, frozen: nat, ghost plan: SH.Plan, ghost reached: SH.Target)
      requires Unpruned(plan.top) && Rewinding(plan, reached, origin, doom) && plan.frozen == frozen
      modifies this`txCache, db`headers, db`tds, db`bodies, db`canon
      ensures Valid() && txCache == map[]
      ensures origin ==> db.headers == old(db.headers) && db.bodies == old(db.bodies) && db.canon == old(db.canon)
      ensures !origin ==>
                && db.headers == old(db.headers) - SH.AboveNumber(old(db.headers), hc.currentHeader.number)
                && db.bodies == old(db.bodies) - SH.AboveNumber(old(db.headers), hc.currentHeader.number)
                && Canonical(db.headers, db.canon, hc.currentHeader)
    {
      txCache := map[];
      var cut := if hc.currentHeader.number + 1 < frozen && !origin then SH.FrozenAbove(db.headers, hc.currentHeader.number, frozen) else {};
      if origin {
        EmptyCut(db.headers, db.tds, db.bodies, db.canon);
      } else {
        SH.RewindEnds(db.headers, genesis, db.tds, db.canon, plan, reached, hc.currentHeader, currentBlock, currentSnapBlock, doom);
        SH.BodiesCut(db.headers, db.bodies, doom, hc.currentHeader.number, frozen);
      }
      db.DeleteAll(doom.headers, doom.bodies + cut, doom.numbers);
    }
  }

  /** An ancestor of the same number is the header itself. */
  lemma AncestorAtSelf(store: Store, h: Header, a: Header)
    requires IsAncestor(store, a, h) && a.number == h.number
    ensures a == h
  {
  }

  lemma EmptyCut(store: Store, tds: Tds, bodies: Bodies, canon: Canon)
    ensures store - {} == store && tds - {} == tds && bodies - {} == bodies && canon - {} == canon
  {
  }

  lemma ExactGrows(
    store: Store, bodies: Bodies, store': Store, bodies': Bodies, genesis: Header,
    canon: Canon, lookup: Lookup, cache: map<Hash, TxPlace>, head: Header)
    requires Grows(store, bodies, store', bodies') && bodies.Keys <= store.Keys
    requires ParentClosed(store, genesis) && Stored(store, head)
    requires ExactFor(store, bodies, canon, lookup, cache, head)
    ensures ExactFor(store', bodies', canon, lookup, cache, head)
  {
    PathToGrows(store, store', canon, head);
    if AllUnique(store', bodies') {
      UniqueShrinks(store, bodies, store', bodies', genesis);
      IndexGrows(store, bodies, store', bodies', genesis, head, lookup);
    }
  }

  /** Storing a block keeps the tables full and an exact state exact. */
  lemma StoringKeeps(
    world: World, bodyOf: Hash -> seq<Hash>, store: Store, genesis: Header, tds: Tds, bodies: Bodies, block: Block,
    canon: Canon, lookup: Lookup, cache: map<Hash, TxPlace>, head: Header)
    requires ParentClosed(store, genesis) && TdInv(store, tds) && FullTables(world, bodyOf, store, bodies)
    requires GenuineBlock(world, bodyOf, block) && ParentOf(store, block.header).Some? && Stored(store, head)
    ensures var store', bodies' := store[block.header.hash := block.header], bodies[block.header.hash := block.txs];
            && FullTables(world, bodyOf, store', bodies')
            && (ExactFor(store, bodies, canon, lookup, cache, head) ==> ExactFor(store', bodies', canon, lookup, cache, head))
  {
    StoreBlock(world, bodyOf, store, genesis, tds, bodies, block);
    if ExactFor(store, bodies, canon, lookup, cache, head) {
      ExactGrows(store, bodies, store[block.header.hash := block.header], bodies[block.header.hash := block.txs],
                 genesis, canon, lookup, cache, head);
    }
  }

  /** Any place that is canonical and holds the transaction is the place the exact index
      gives; no place means no canonical block holds it. */
  lemma CachedReadIsExact(
    store: Store, canon: Canon, bodies: Bodies, lookup: Lookup, head: Header, tx: Hash, r: Option<TxPlace>)
    requires Canonical(store, canon, head) && IndexExact(store, bodies, head, lookup)
    requires r.Some? ==> r.value.number in canon && canon[r.value.number] == r.value.block && TxIn(bodies, r.value.block, tx)
    requires r.None? ==> ReadCanonicalTransaction(canon, bodies, lookup, tx).None?
    ensures r == ReadCanonicalTransaction(canon, bodies, lookup, tx)
    ensures r.Some? <==> exists n: nat :: LineTx(store, bodies, head, n, tx)
  {
    if r.Some? {
      assert LineTx(store, bodies, head, r.value.number, tx);
    } else {
      forall n: nat
        ensures !LineTx(store, bodies, head, n, tx)
      {
        AncestorNumber(store, head, n);
        assert LineTx(store, bodies, head, n, tx) ==> Read(lookup, tx) == Some(n);
      }
    }
  }

  /** Everything on a segment of a stored line is stored. */
  lemma SegmentStored(store: Store, top: Header, chain: seq<Header>, bottom: Header)
    requires Keyed(store) && Stored(store, top) && Segment(store, top, chain, bottom)
    ensures forall i | 0 <= i < |chain| :: Stored(store, chain[i])
  {
    forall i | 0 <= i < |chain|
      ensures Stored(store, chain[i])
    {
      SegmentLink(store, top, chain, bottom, i);
    }
  }
}
