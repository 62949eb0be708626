/** The key-value side of the chain database: the tables and markers that the chain
    code reads and writes. */
module Database {
  import opened Wrappers
  import opened Chain
  import opened TotalDifficulty
  import opened TxIndex
  import SH = SetHead

  datatype Block = Block(header: Header, txs: seq<Hash>)

  datatype SideChainError = GhostState

  /** Each block is the parent of the next. */
  predicate LinkedBlocks(blocks: seq<Block>) {
    forall i | 0 < i < |blocks| ::
      blocks[i].header.parentHash == blocks[i - 1].header.hash && blocks[i].header.number == blocks[i - 1].header.number + 1
  }

  /** Hashes identify blocks: `world` and `bodyOf` name the header and body behind each. */
  ghost predicate GenuineBlock(world: World, bodyOf: Hash -> seq<Hash>, block: Block) {
    Genuine(world, block.header) && bodyOf(block.header.hash) == block.txs
  }

  /** The stored blocks are the genuine ones, headers with bodies. */
  ghost predicate FullTables(world: World, bodyOf: Hash -> seq<Hash>, store: Store, bodies: Bodies) {
    && GenuineStore(world, store)
    && store.Keys == bodies.Keys
    && forall x | x in bodies :: bodies[x] == bodyOf(x)
  }

  /** The tables after a block was stored: parent total plus own difficulty. */
  predicate BlockStored(
    store: Store, tds: Tds, bodies: Bodies, block: Block, store': Store, tds': Tds, bodies': Bodies)
  {
    var h := block.header;
    && h.parentHash in tds
    && store' == store[h.hash := h] && bodies' == bodies[h.hash := block.txs]
    && tds' == tds[h.hash := tds[h.parentHash] + h.difficulty]
  }

  /** What storing a block whose parent is stored does to the three tables. */
  lemma StoreBlock(
    world: World, bodyOf: Hash -> seq<Hash>, store: Store, genesis: Header, tds: Tds, bodies: Bodies, block: Block)
    requires ParentClosed(store, genesis) && TdInv(store, tds) && FullTables(world, bodyOf, store, bodies)
    requires GenuineBlock(world, bodyOf, block) && ParentOf(store, block.header).Some?
    ensures var h := block.header;
            && h.parentHash in tds
            && ParentClosed(store[h.hash := h], genesis)
            && TdInv(store[h.hash := h], tds[h.hash := tds[h.parentHash] + h.difficulty])
            && FullTables(world, bodyOf, store[h.hash := h], bodies[h.hash := block.txs])
            && Grows(store, bodies, store[h.hash := h], bodies[h.hash := block.txs])
            && forall x | x in tds :: tds[h.hash := tds[h.parentHash] + h.difficulty][x] == tds[x]
  {
    AddHeader(store, genesis, tds, block.header);
  }

  /** The header tables are rooted, carry right totals, and hold genuine headers. */
  ghost predicate SoundTables(world: World, genesis: Header, store: Store, tds: Tds) {
    ParentClosed(store, genesis) && TdInv(store, tds) && GenuineStore(world, store)
  }

  predicate KeepsHeaders(store: Store, store': Store) {
    forall x | x in store :: x in store' && store'[x] == store[x]
  }

  predicate TdReads(store: Store, tds: Tds, h: Header, td: Option<int>) {
    GetTd(store, tds, h.hash, h.number) == td
  }

  class Db {
    var headers: Store
    var tds: Tds
    var bodies: Bodies
    var canon: Canon
    var txLookup: Lookup
    var headHeader: Hash
    var headBlock: Hash
    var headFast: Hash

    /** A database that holds the genesis block and nothing else. */
    constructor (genesis: Block)
      ensures headers == map[genesis.header.hash := genesis.header]
      ensures tds == map[genesis.header.hash := genesis.header.difficulty]
      ensures bodies == map[genesis.header.hash := genesis.txs]
      ensures canon == map[0 := genesis.header.hash]
      ensures txLookup == IndexBlock(map[], 0, genesis.txs)
      ensures headHeader == headBlock == headFast == genesis.header.hash
    {
      var h := genesis.header.hash;
      headers, tds, bodies := map[h := genesis.header], map[h := genesis.header.difficulty], map[h := genesis.txs];
      canon, txLookup := map[0 := h], IndexBlock(map[], 0, genesis.txs);
      headHeader, headBlock, headFast := h, h, h;
    }

    function GetBlock(hash: Hash, number: nat): Option<Block>
      reads this
    {
      if GetHeader(headers, hash, number).Some? && hash in bodies then Some(Block(headers[hash], bodies[hash])) else None
    }

    function GetBlockByNumber(number: nat): Option<Block>
      reads this
    {
      if number in canon then GetBlock(canon[number], number) else None
    }

    predicate HasBlock(block: Block)
      reads this
    {
      Stored(headers, block.header) && block.header.hash in bodies && bodies[block.header.hash] == block.txs
    }

    /** One batch: total difficulty, header and body. */
    method WriteBlock(block: Block, td: int)
      modifies this`headers, this`tds, this`bodies
      ensures headers == old(headers)[block.header.hash := block.header]
      ensures tds == old(tds)[block.header.hash := td]
      ensures bodies == old(bodies)[block.header.hash := block.txs]
    {
      tds := tds[block.header.hash := td];
      headers := headers[block.header.hash := block.header];
      bodies := bodies[block.header.hash := block.txs];
    }

    /** writeBlockWithoutState, unless the block is stored already. */
    method StoreSideBlock(
      block: Block, td: int, ghost genesis: Header, ghost world: World, ghost bodyOf: Hash -> seq<Hash>)
      requires SoundTables(world, genesis, headers, tds) && GenuineBlock(world, bodyOf, block)
      requires ParentOf(headers, block.header).Some?
      requires block.header.parentHash in tds && td == tds[block.header.parentHash] + block.header.difficulty
      modifies this`headers, this`tds, this`bodies
      ensures SoundTables(world, genesis, headers, tds) && KeepsHeaders(old(headers), headers)
      ensures Stored(headers, block.header) && TdReads(headers, tds, block.header, Some(td))
      ensures old(FullTables(world, bodyOf, headers, bodies)) ==>
                FullTables(world, bodyOf, headers, bodies) && Grows(old(headers), old(bodies), headers, bodies)
    {
      AddHeader(headers, genesis, tds, block.header);
      if GetBlock(block.header.hash, block.header.number).Some? {
        assert TdAt(headers, tds, headers[block.header.hash]);
      } else {
        WriteBlock(block, td);
      }
    }

    /** The storing loop of insertSideChain: a linked run of blocks whose states are pruned
        is written with a running total difficulty, re-anchored whenever a block turns out
        to be canonical. Stops at a block that repeats a canonical state root. */
    method StoreSideChain(
      blocks: seq<Block>, current: nat, ghost genesis: Header, ghost world: World, ghost bodyOf: Hash -> seq<Hash>)
      returns (r: Result<Option<int>, SideChainError>)
      requires SoundTables(world, genesis, headers, tds) && LinkedBlocks(blocks)
      requires forall i | 0 <= i < |blocks| :: GenuineBlock(world, bodyOf, blocks[i])
      requires blocks != [] ==> ParentOf(headers, blocks[0].header).Some?
      modifies this`headers, this`tds, this`bodies
      ensures SoundTables(world, genesis, headers, tds) && KeepsHeaders(old(headers), headers)
      ensures r.Success? ==> forall i | 0 <= i < |blocks| :: Stored(headers, blocks[i].header)
      ensures r.Success? && blocks != [] ==> r.value.Some? && TdReads(headers, tds, blocks[|blocks| - 1].header, r.value)
      ensures old(FullTables(world, bodyOf, headers, bodies)) ==>
                FullTables(world, bodyOf, headers, bodies) && Grows(old(headers), old(bodies), headers, bodies)
    {
      var externTd: Option<int> := None;
      var i := 0;
      while i < |blocks|
        invariant 0 <= i <= |blocks|
        invariant SoundTables(world, genesis, headers, tds) && KeepsHeaders(old(headers), headers)
        invariant forall k | 0 <= k < i :: Stored(headers, blocks[k].header)
        invariant i == 0 ==> externTd.None? && (blocks != [] ==> ParentOf(headers, blocks[0].header).Some?)
        invariant i > 0 ==> externTd.Some? && TdReads(headers, tds, blocks[i - 1].header, externTd)
        invariant old(FullTables(world, bodyOf, headers, bodies)) ==>
                    FullTables(world, bodyOf, headers, bodies) && Grows(old(headers), old(bodies), headers, bodies)
      {
        var block := blocks[i];
        assert GenuineBlock(world, bodyOf, block);
        var canonical := if current >= block.header.number then GetBlockByNumber(block.header.number) else None;
        if canonical.Some? && canonical.value.header.hash == block.header.hash {
          assert TdAt(headers, tds, headers[block.header.hash]);
          externTd := GetTd(headers, tds, block.header.hash, block.header.number);
        } else if canonical.Some? && canonical.value.header.root == block.header.root {
          return Failure(GhostState);
        } else {
          if externTd.None? {
            externTd := ParentTd(headers, tds, block.header);
          }
          externTd := Some(externTd.value + block.header.difficulty);
          StoreSideBlock(block, externTd.value, genesis, world, bodyOf);
        }
        i := i + 1;
      }
      r := Success(externTd);
    }

    /** One batch of deletions. */
    method DeleteAll(hashes: set<Hash>, bodyHashes: set<Hash>, numbers: set<nat>)
      modifies this`headers, this`tds, this`bodies, this`canon
      ensures headers == old(headers) - hashes && tds == old(tds) - hashes
      ensures bodies == old(bodies) - bodyHashes && canon == old(canon) - numbers
    {
      headers, tds := headers - hashes, tds - hashes;
      bodies, canon := bodies - bodyHashes, canon - numbers;
    }

    /** The numbers above `num` at which headers are stored. The scan stops at the first
        number without one; rooted headers leave no gap, so nothing is missed. */
    method NumbersAbove(num: nat, ghost genesis: Header) returns (nums: set<nat>)
      requires ParentClosed(headers, genesis)
      ensures forall n: nat :: n in nums <==> n > num && SH.AtNumber(headers, n) != {}
    {
      nums := {};
      var n := num + 1;
      while SH.AtNumber(headers, n) != {}
        invariant num < n
        invariant forall k: nat :: k in nums <==> num < k < n
        invariant forall k: nat | num < k < n :: SH.AtNumber(headers, k) != {}
        decreases SH.AboveNumber(headers, n - 1)
      {
        nums := nums + {n};
        ghost var h :| h in SH.AtNumber(headers, n);
        assert h in SH.AboveNumber(headers, n - 1) && h !in SH.AboveNumber(headers, n);
        n := n + 1;
      }
      forall k: nat | k >= n
        ensures SH.AtNumber(headers, k) == {}
      {
        if SH.AtNumber(headers, k) != {} {
          var h :| h in SH.AtNumber(headers, k);
          SH.NoGaps(headers, genesis, n, h);
        }
      }
    }

    /** Deletes the canonical entries above `number`. The loop collects deletions in a
        batch and stops at the first number without an entry; because the map has no
        gaps this removes every entry above. */
    method DeleteCanonAbove(number: nat)
      requires Contiguous(canon)
      modifies this`canon
      ensures canon == Truncated(old(canon), number)
      ensures Contiguous(canon)
    {
      var batch: set<nat> := {};
      var i := number + 1;
      while i in canon
        invariant number < i
        invariant forall n: nat :: n in batch <==> number < n < i
        decreases set n | n in canon && n >= i
      {
        batch := batch + {i};
        ghost var left := set n | n in canon && n >= i;
        assert i in left;
        i := i + 1;
      }
      forall n | n in canon
        ensures n < i
      {
      }
      canon := canon - batch;
    }
  }
}
