/** Runs of block imports: what holds however many blocks arrive, in whatever order and
    with whatever coin tosses. */
module Import {
  import opened Wrappers
  import opened Chain
  import opened TotalDifficulty
  import opened Database
  import BC = BlockChain
  import HC = HeaderChain
  import FC = ForkChoice
  import SH = SetHead
  import SW = Switch
  import TxIndex

  datatype Offer = Offer(block: Block, coin: bool)

  /** One import moves the head only as the preference allows. */
  method ImportOne(bc: BC.Blocks, offer: Offer, ghost world: World, ghost bodyOf: Hash -> seq<Hash>)
    requires bc.Valid() && bc.Full(world, bodyOf) && bc.cfg.ttd.None?
    requires GenuineBlock(world, bodyOf, offer.block)
    modifies bc, bc.hc, bc.db
    ensures bc.Valid() && bc.Full(world, bodyOf) && (old(bc.Exact()) ==> bc.Exact())
    ensures FC.HeadStep(old(bc.Head()), bc.Head())
  {
    if ParentOf(bc.db.headers, offer.block.header).Some? {
      StoreBlock(world, bodyOf, bc.db.headers, bc.genesis, bc.db.tds, bc.db.bodies, offer.block);
    }
    var r := bc.WriteBlockAndSetHead(offer.block, offer.coin, world, bodyOf);
    assert r == Success(HC.Canon) ==> bc.Head() == FC.Seen(bc.cfg, bc.db.tds, offer.block.header);
    assert r != Success(HC.Canon) ==> bc.Head() == old(bc.Head());
  }

  /** A transaction is looked up through the cache. In an exact state whose branches repeat
      no transaction the answer is its place on the canonical chain, or that it has none. */
  method LookUp(bc: BC.Blocks, tx: Hash) returns (place: Option<SW.TxPlace>)
    requires bc.Valid()
    modifies bc`txCache
    ensures bc.Valid() && (old(bc.Exact()) ==> bc.Exact())
    ensures old(bc.Exact()) && TxIndex.AllUnique(bc.db.headers, bc.db.bodies) ==>
              && (place.Some? <==> exists n: nat :: TxIndex.LineTx(bc.db.headers, bc.db.bodies, bc.currentBlock, n, tx))
              && place == BC.ReadCanonicalTransaction(bc.db.canon, bc.db.bodies, bc.db.txLookup, tx)
  {
    place := bc.GetCanonicalTransaction(tx);
  }

  /** Blocks arrive and transactions are looked up. */
  datatype Event =
    | Arrive(offer: Offer)
    | Ask(tx: Hash)

  method Handle(bc: BC.Blocks, event: Event, ghost world: World, ghost bodyOf: Hash -> seq<Hash>)
    requires bc.Valid() && bc.Full(world, bodyOf) && bc.cfg.ttd.None?
    requires event.Arrive? ==> GenuineBlock(world, bodyOf, event.offer.block)
    modifies bc, bc.hc, bc.db
    ensures bc.Valid() && bc.Full(world, bodyOf) && (old(bc.Exact()) ==> bc.Exact())
    ensures FC.HeadStep(old(bc.Head()), bc.Head())
  {
    match event {
      case Arrive(offer) => ImportOne(bc, offer, world, bodyOf);
      case Ask(tx) => var place := LookUp(bc, tx);
    }
  }

  /** Imports blocks one after another, as insertChain does, with lookups in between. Every
      state reached is sound; an exact canonical map, index and cache stay exact; the heads
      passed through form a run of the fork-choice preference, so the head's (justified,
      total difficulty) never decreases. */
  method ImportAll(
    bc: BC.Blocks, events: seq<Event>, ghost world: World, ghost bodyOf: Hash -> seq<Hash>)
    returns (ghost heads: seq<FC.Candidate>)
    requires bc.Valid() && bc.Full(world, bodyOf) && bc.cfg.ttd.None?
    requires forall i | 0 <= i < |events| && events[i].Arrive? :: GenuineBlock(world, bodyOf, events[i].offer.block)
    modifies bc, bc.hc, bc.db
    ensures bc.Valid() && bc.Full(world, bodyOf) && (old(bc.Exact()) ==> bc.Exact())
    ensures |heads| == |events| + 1 && FC.HeadRun(heads) && heads[0] == old(bc.Head()) && heads[|heads| - 1] == bc.Head()
    ensures FC.RanksAtMost(old(bc.Head()), bc.Head())
  {
    heads := [bc.Head()];
    var i := 0;
    while i < |events|
      invariant 0 <= i <= |events| && |heads| == i + 1
      invariant bc.Valid() && bc.Full(world, bodyOf) && (old(bc.Exact()) ==> bc.Exact())
      invariant FC.HeadRun(heads) && heads[0] == old(bc.Head()) && heads[|heads| - 1] == bc.Head()
    {
      Handle(bc, events[i], world, bodyOf);
      FC.RunExtends(heads, bc.Head());
      heads := heads + [bc.Head()];
      i := i + 1;
    }
    FC.RankNeverDecreases(heads, 0, |heads| - 1);
  }

  /** What a node may be asked to do, in any order. */
  datatype Command =
    | Insert(offer: Offer)
    | SideChain(blocks: seq<Block>)
    | Rewind(target: SH.Target, root: Hash, frozen: nat)
    | Find(tx: Hash)

  ghost predicate Admissible(genesis: Header, world: World, bodyOf: Hash -> seq<Hash>, c: Command) {
    match c
    case Insert(offer) => GenuineBlock(world, bodyOf, offer.block)
    case SideChain(blocks) => LinkedBlocks(blocks) && forall i | 0 <= i < |blocks| :: GenuineBlock(world, bodyOf, blocks[i])
    case Rewind(target, _, _) => target.time > 0 ==> genesis.time <= target.time
    case Find(_) => true
  }

  /** A rewind keeps the tables full: headers and bodies go together. */
  method RewindTo(
    bc: BC.Blocks, target: SH.Target, root: Hash, frozen: nat, ghost world: World, ghost bodyOf: Hash -> seq<Hash>)
    requires bc.Valid() && bc.Full(world, bodyOf)
    requires target.time > 0 ==> bc.genesis.time <= target.time
    modifies bc, bc.hc, bc.db
    ensures bc.Valid() && bc.Full(world, bodyOf) && bc.headWrites == old(bc.headWrites)
  {
    var fatal;
    ghost var reached, course, bounds;
    fatal, reached, course, bounds := bc.SetHead(target, root, frozen);
    FullCut(world, bodyOf, old(bc.db.headers), old(bc.db.bodies), SH.AboveNumber(old(bc.db.headers), bc.hc.currentHeader.number));
  }

  lemma FullCut(world: World, bodyOf: Hash -> seq<Hash>, store: Store, bodies: TxIndex.Bodies, gone: set<Hash>)
    requires FullTables(world, bodyOf, store, bodies)
    ensures FullTables(world, bodyOf, store - gone, bodies - gone)
  {
  }

  method RunOne(bc: BC.Blocks, c: Command, ghost world: World, ghost bodyOf: Hash -> seq<Hash>)
    requires bc.Valid() && bc.Full(world, bodyOf)
    requires Admissible(bc.genesis, world, bodyOf, c)
    modifies bc, bc.hc, bc.db
    ensures bc.Valid() && bc.Full(world, bodyOf)
    ensures old(bc.headWrites) <= bc.headWrites && (old(SW.GoodWrites(bc.headWrites)) ==> SW.GoodWrites(bc.headWrites))
  {
    match c {
      case Insert(offer) =>
        var r := bc.WriteBlockAndSetHead(offer.block, offer.coin, world, bodyOf);
      case SideChain(blocks) =>
        if blocks != [] && ParentOf(bc.db.headers, blocks[0].header).Some? {
          var r := bc.StoreSideChain(blocks, world, bodyOf);
        }
      case Rewind(target, root, frozen) =>
        RewindTo(bc, target, root, frozen, world, bodyOf);
      case Find(tx) =>
        var place := bc.GetCanonicalTransaction(tx);
    }
  }

  /** Over any mix of imports, side chains, lookups and rewinds every reached state is sound - rooted
      headers, right totals, agreeing markers, a gap-free canonical map that is the head's
      line up to the head - and at every head write there ever was the entries at or below
      the new head were already its ancestors. */
  method RunAll(bc: BC.Blocks, commands: seq<Command>, ghost world: World, ghost bodyOf: Hash -> seq<Hash>)
    requires bc.Valid() && bc.Full(world, bodyOf) && SW.GoodWrites(bc.headWrites)
    requires forall i | 0 <= i < |commands| :: Admissible(bc.genesis, world, bodyOf, commands[i])
    modifies bc, bc.hc, bc.db
    ensures bc.Valid() && bc.Full(world, bodyOf)
    ensures old(bc.headWrites) <= bc.headWrites && SW.GoodWrites(bc.headWrites)
  {
    var i := 0;
    while i < |commands|
      invariant 0 <= i <= |commands|
      invariant bc.Valid() && bc.Full(world, bodyOf)
      invariant old(bc.headWrites) <= bc.headWrites && SW.GoodWrites(bc.headWrites)
    {
      RunOne(bc, commands[i], world, bodyOf);
      i := i + 1;
    }
  }

  /** What may be stored, without moving the head: header batches, blocks with state, and
      side chains. */
  datatype Storing =
    | Headers(headers: seq<Header>)
    | WithState(block: Block)
    | Sideways(blocks: seq<Block>)

  ghost predicate Storable(world: World, bodyOf: Hash -> seq<Hash>, c: Storing) {
    match c
    case Headers(headers) => HC.LinkedBatch(headers) && forall i | 0 <= i < |headers| :: Genuine(world, headers[i])
    case WithState(block) => Genuine(world, block.header)
    case Sideways(blocks) => LinkedBlocks(blocks) && forall i | 0 <= i < |blocks| :: GenuineBlock(world, bodyOf, blocks[i])
  }

  method StoreOne(bc: BC.Blocks, c: Storing, ghost world: World, ghost bodyOf: Hash -> seq<Hash>)
    requires bc.Valid() && GenuineStore(world, bc.db.headers) && Storable(world, bodyOf, c)
    modifies bc.db`headers, bc.db`tds, bc.db`bodies
    ensures bc.Valid() && GenuineStore(world, bc.db.headers) && KeepsHeaders(old(bc.db.headers), bc.db.headers)
  {
    match c {
      case Headers(headers) =>
        var r := bc.hc.WriteHeaders(headers, world);
        PathToGrows(old(bc.db.headers), bc.db.headers, bc.db.canon, bc.hc.currentHeader);
        AncestorGrows(old(bc.db.headers), bc.db.headers, bc.hc.currentHeader, bc.currentBlock.number);
      case WithState(block) =>
        var err := bc.WriteBlockWithState(block, world);
      case Sideways(blocks) =>
        if blocks != [] && ParentOf(bc.db.headers, blocks[0].header).Some? {
          var r := bc.StoreSideChain(blocks, world, bodyOf);
        }
    }
  }

  /** Over any mix of the three ways to store, the total difficulty of every stored header
      is its parent's plus its own, that is, the sum over its line. */
  method StoreAll(bc: BC.Blocks, commands: seq<Storing>, ghost world: World, ghost bodyOf: Hash -> seq<Hash>)
    requires bc.Valid() && GenuineStore(world, bc.db.headers)
    requires forall i | 0 <= i < |commands| :: Storable(world, bodyOf, commands[i])
    modifies bc.db`headers, bc.db`tds, bc.db`bodies
    ensures bc.Valid() && KeepsHeaders(old(bc.db.headers), bc.db.headers)
    ensures forall x | x in bc.db.headers ::
              x in bc.db.tds && bc.db.tds[x] == LineDifficulty(bc.db.headers, bc.db.headers[x])
  {
    var i := 0;
    while i < |commands|
      invariant 0 <= i <= |commands|
      invariant bc.Valid() && GenuineStore(world, bc.db.headers) && KeepsHeaders(old(bc.db.headers), bc.db.headers)
    {
      StoreOne(bc, commands[i], world, bodyOf);
      i := i + 1;
    }
    forall x | x in bc.db.headers
      ensures x in bc.db.tds && bc.db.tds[x] == LineDifficulty(bc.db.headers, bc.db.headers[x])
    {
      TdIsLineSum(bc.db.headers, bc.genesis, bc.db.tds, bc.db.headers[x]);
    }
  }
}
