/** The header chain: importing batches of headers and switching the canonical map to
    them. */
module HeaderChain {
  import opened Wrappers
  import opened Chain
  import opened TotalDifficulty
  import opened Database
  import FC = ForkChoice

  datatype HeaderError = UnknownAncestor
  datatype WriteStatus = NonStat | Canon | Side

  /** A pending write to the canonical map: a hash, or a deletion. */
  type CanonBatch = map<nat, Option<Hash>>

  function Flush(canon: Canon, batch: CanonBatch): Canon {
    map n | n in canon.Keys + batch.Keys && (n in batch ==> batch[n].Some?) ::
      if n in batch then batch[n].value else canon[n]
  }

  /** A validated batch: each header is the parent of the next. */
  predicate LinkedBatch(batch: seq<Header>) {
    forall i | 0 < i < |batch| ::
      batch[i].parentHash == batch[i - 1].hash && batch[i].number == batch[i - 1].number + 1
  }

  function HashesOf(batch: seq<Header>): set<Hash> {
    set h | h in batch :: h.hash
  }

  /** The first `k` headers of the batch were known, the others are new. */
  ghost predicate KnownPrefix(store: Store, batch: seq<Header>, k: nat) {
    && k <= |batch|
    && (forall i | 0 <= i < k :: batch[i].hash in store)
    && forall i | k <= i < |batch| :: batch[i].hash !in store
  }

  lemma {:induction false} BatchNumbers(batch: seq<Header>, i: nat)
    requires LinkedBatch(batch) && i < |batch|
    ensures batch[i].number == batch[0].number + i
  {
    if i > 0 {
      BatchNumbers(batch, i - 1);
    }
  }

  /** The headers of a stored linked batch are ancestors of its last one. */
  lemma {:induction false} BatchLine(store: Store, batch: seq<Header>, i: nat, j: nat)
    requires Keyed(store) && LinkedBatch(batch) && i <= j < |batch|
    requires forall k | 0 <= k < |batch| :: Stored(store, batch[k])
    ensures AncestorAt(store, batch[j], batch[0].number + i) == Some(batch[i])
    decreases j
  {
    BatchNumbers(batch, j);
    if i < j {
      BatchNumbers(batch, j - 1);
      assert ParentOf(store, batch[j]) == Some(batch[j - 1]);
      BatchLine(store, batch, i, j - 1);
    }
  }

  class Headers {
    const db: Db
    const genesis: Header
    const cfg: FC.Config
    var currentHeader: Header
    var currentHeaderHash: Hash

    constructor (db: Db, genesis: Header, cfg: FC.Config)
      ensures this.db == db && this.genesis == genesis && this.cfg == cfg
      ensures currentHeader == genesis && currentHeaderHash == genesis.hash
    {
      this.db, this.genesis, this.cfg := db, genesis, cfg;
      currentHeader, currentHeaderHash := genesis, genesis.hash;
    }

    /** Stored headers are rooted and carry their totals; the head markers agree. */
    ghost predicate Valid()
      reads this, db
    {
      && ParentClosed(db.headers, genesis) && TdInv(db.headers, db.tds)
      && Stored(db.headers, currentHeader)
      && currentHeaderHash == currentHeader.hash && db.headHeader == currentHeader.hash
    }

    method SetCurrentHeader(head: Header)
      modifies this
      ensures currentHeader == head && currentHeaderHash == head.hash
    {
      currentHeader, currentHeaderHash := head, head.hash;
    }

    /** WriteHeaders: stores a linked batch on top of a known parent, with a running total
        difficulty. Known headers at the front are skipped; from the first new one on
        everything is written. */
    method WriteHeaders(headers: seq<Header>, ghost world: World) returns (r: Result<nat, HeaderError>)
      requires ParentClosed(db.headers, genesis) && TdInv(db.headers, db.tds)
      requires GenuineStore(world, db.headers) && forall i | 0 <= i < |headers| :: Genuine(world, headers[i])
      requires LinkedBatch(headers)
      modifies db`headers, db`tds
      ensures ParentClosed(db.headers, genesis) && TdInv(db.headers, db.tds) && GenuineStore(world, db.headers)
      ensures forall x | x in old(db.headers) :: x in db.headers && db.headers[x] == old(db.headers)[x] && db.tds[x] == old(db.tds)[x]
      ensures r.Success? <==> headers == [] || ParentOf(old(db.headers), headers[0]).Some?
      ensures r.Failure? ==> r.error == UnknownAncestor && db.headers == old(db.headers) && db.tds == old(db.tds)
      ensures r.Success? ==> forall i | 0 <= i < |headers| :: Stored(db.headers, headers[i])
      ensures r.Success? ==> db.headers.Keys == old(db.headers).Keys + HashesOf(headers)
      ensures r.Success? ==> r.value <= |headers| && KnownPrefix(old(db.headers), headers, |headers| - r.value)
    {
      if headers == [] {
        return Success(0);
      }
      var ptd := ParentTd(db.headers, db.tds, headers[0]);
      if ptd.None? {
        return Failure(UnknownAncestor);
      }
      var headerBatch, tdBatch, inserted := BatchHeaders(db.headers, db.tds, genesis, headers, ptd.value, world);
      db.headers, db.tds := db.headers + headerBatch, db.tds + tdBatch;
      r := Success(inserted);
    }

    /** The walk of the switch case: collects into the batch the line of `first` down to
        the first header the canonical map already names. All reads see the map as it
        was before the batch. */
    method OverwriteStale(first: Header, last: Header, deletions: CanonBatch)
      returns (batch: CanonBatch, ghost cross: Header)
      requires Valid() && Canonical(db.headers, db.canon, currentHeader)
      requires Stored(db.headers, first) && first.number <= last.number
      requires forall n | n in deletions :: n > last.number
      ensures IsAncestor(db.headers, cross, first) && IsAncestor(db.headers, cross, currentHeader)
      ensures forall n | n > first.number :: (n in batch <==> n in deletions) && (n in batch ==> batch[n] == deletions[n])
      ensures forall n: nat | n <= first.number :: n in batch <==> cross.number < n
      ensures forall n: nat | n <= first.number && n in batch ::
                AncestorAt(db.headers, first, n).Some? && batch[n] == Some(AncestorAt(db.headers, first, n).value.hash)
    {
      batch := deletions;
      var header := first;
      ClosedLine(db.headers, genesis, first, 0);
      ClosedLine(db.headers, genesis, currentHeader, 0);
      while !(header.number in db.canon && db.canon[header.number] == header.hash)
        invariant Stored(db.headers, header) && IsAncestor(db.headers, header, first) && header.number <= first.number
        invariant forall n | n > first.number :: (n in batch <==> n in deletions) && (n in batch ==> batch[n] == deletions[n])
        invariant forall n: nat | n <= first.number :: n in batch <==> header.number < n
        invariant forall n: nat | n <= first.number && n in batch ::
                    AncestorAt(db.headers, first, n).Some? && batch[n] == Some(AncestorAt(db.headers, first, n).value.hash)
        decreases header.number
      {
        assert Rooted(db.headers, genesis, db.headers[header.hash]);
        assert header.number != 0;
        batch := batch[header.number := Some(header.hash)];
        AncestorStep(db.headers, first, header.number - 1);
        header := ParentOf(db.headers, header).value;
      }
      cross := header;
      CanonicalIsAncestor(db.headers, db.canon, currentHeader, header);
    }

    /** Collects the deletion of every canonical entry above `number`; stops at the first
        number without one. */
    method DeletionsAbove(number: nat) returns (batch: CanonBatch)
      requires Contiguous(db.canon)
      ensures forall n: nat | n in batch :: number < n && batch[n] == None
      ensures forall n | n in db.canon && number < n :: n in batch
    {
      batch := map[];
      var i := number + 1;
      while i in db.canon
        invariant number < i
        invariant forall n: nat :: n in batch <==> number < n < i
        invariant forall n | n in batch :: batch[n] == None
        decreases set n | n in db.canon && n >= i
      {
        batch := batch[i := None];
        ghost var left := set n | n in db.canon && n >= i;
        assert i in left;
        i := i + 1;
      }
      assert forall n | n in db.canon :: n < i;
    }

    /** Reorg: makes the last header of a stored, linked batch the canonical head. In the
        extend case the batch is piled on top; in the switch case entries above are
        deleted and the branch below is rewritten. */
    method Reorg(headers: seq<Header>)
      requires Valid() && Canonical(db.headers, db.canon, currentHeader)
      requires LinkedBatch(headers) && forall k | 0 <= k < |headers| :: Stored(db.headers, headers[k])
      modifies this, db`canon, db`headHeader
      ensures Valid() && Canonical(db.headers, db.canon, currentHeader)
      ensures currentHeader == if headers == [] then old(currentHeader) else headers[|headers| - 1]
    {
      if headers == [] {
        return;
      }
      var first, last := headers[0], headers[|headers| - 1];
      var batch: CanonBatch := map[];
      ghost var cross := currentHeader;
      BatchNumbers(headers, |headers| - 1);
      if first.parentHash != currentHeaderHash {
        batch := DeletionsAbove(last.number);
        batch, cross := OverwriteStale(first, last, batch);
      } else {
        assert Rooted(db.headers, genesis, db.headers[first.hash]);
        AncestorStep(db.headers, first, first.number - 1);
      }
      batch := PileOn(headers, batch);
      BatchBuildsPath(db.headers, db.canon, currentHeader, headers, cross, batch);
      db.canon := Flush(db.canon, batch);
      db.headHeader := last.hash;
      currentHeaderHash, currentHeader := last.hash, last;
    }

    /** The current header as fork choice sees it. */
    ghost function Head(): FC.Candidate
      requires currentHeader.hash in db.tds
      reads this, db
    {
      FC.Seen(cfg, db.tds, currentHeader)
    }

    /** The header is on the current header's line already. */
    predicate OnLine(h: Header)
      reads this, db
    {
      h.number in db.canon && db.canon[h.number] == h.hash && h.number <= currentHeader.number
    }

    /** The second half of writeHeadersAndSetHead: switch to the last header of a stored
        batch if fork choice prefers it and it is not canonical already. */
    method MoveHead(headers: seq<Header>, inserted: nat, coin: bool) returns (status: WriteStatus)
      requires Valid() && Canonical(db.headers, db.canon, currentHeader)
      requires headers != [] && LinkedBatch(headers) && headers[0].number > 0
      requires forall k | 0 <= k < |headers| :: Stored(db.headers, headers[k])
      modifies this, db`canon, db`headHeader
      ensures Valid() && Canonical(db.headers, db.canon, currentHeader)
      ensures currentHeader == if status == Canon then headers[|headers| - 1] else old(currentHeader)
      ensures status != Canon ==> db.canon == old(db.canon)
      ensures var last := headers[|headers| - 1];
              && last.hash in old(db.tds)
              && (status == Canon <==> FC.Chosen(cfg, FC.Seen(cfg, old(db.tds), last), old(Head()), coin) && !old(OnLine(last)))
              && (status == Side ==> inserted != 0 && !FC.Chosen(cfg, FC.Seen(cfg, old(db.tds), last), old(Head()), coin))
      ensures cfg.ttd.None? ==> FC.HeadStep(old(Head()), Head())
    {
      var last := headers[|headers| - 1];
      BatchNumbers(headers, |headers| - 1);
      assert TdAt(db.headers, db.tds, db.headers[last.hash]) && Rooted(db.headers, genesis, db.headers[last.hash]);
      var reorg := FC.Ask(cfg, db.headers, genesis, db.tds, currentHeader, last, coin);
      if !reorg.value {
        return if inserted != 0 then Side else NonStat;
      }
      if OnLine(last) {
        return NonStat;
      }
      Reorg(headers);
      status := Canon;
    }

    /** writeHeadersAndSetHead: stores a batch and switches to its last header exactly if fork
        choice picks it and it is not on the line already. Whatever happens, the canonical
        map stays the line of the current header. */
    method WriteHeadersAndSetHead(headers: seq<Header>, coin: bool, ghost world: World)
      returns (r: Result<WriteStatus, HeaderError>)
      requires Valid() && Canonical(db.headers, db.canon, currentHeader)
      requires GenuineStore(world, db.headers) && forall i | 0 <= i < |headers| :: Genuine(world, headers[i])
      requires headers != [] && LinkedBatch(headers)
      modifies this, db`headers, db`tds, db`canon, db`headHeader
      ensures Valid() && GenuineStore(world, db.headers)
      ensures Canonical(db.headers, db.canon, currentHeader)
      ensures r.Success? <==> ParentOf(old(db.headers), headers[0]).Some?
      ensures r.Success? ==> forall i | 0 <= i < |headers| :: Stored(db.headers, headers[i])
      ensures currentHeader == if r == Success(Canon) then headers[|headers| - 1] else old(currentHeader)
      ensures r.Success? && r.value != Canon ==> db.canon == old(db.canon)
      ensures r.Success? ==>
                var last := headers[|headers| - 1];
                && last.hash in db.tds
                && (r.value == Canon <==> FC.Chosen(cfg, FC.Seen(cfg, db.tds, last), old(Head()), coin) && !old(OnLine(last)))
      ensures cfg.ttd.None? ==> FC.HeadStep(old(Head()), Head())
    {
      var inserted := WriteHeaders(headers, world);
      PathToGrows(old(db.headers), db.headers, db.canon, currentHeader);
      if inserted.Failure? {
        return Failure(inserted.error);
      }
      var status := MoveHead(headers, inserted.value, coin);
      r := Success(status);
    }
  }

  /** The tables seen through the pending writes are sound and extend the stored ones. */
  ghost predicate PendingTables(world: World, base: Store, baseTds: Tds, genesis: Header, store: Store, tds: Tds) {
    && ParentClosed(store, genesis) && TdInv(store, tds) && GenuineStore(world, store)
    && forall x | x in base :: x in store && store[x] == base[x] && x in baseTds && tds[x] == baseTds[x]
  }

  /** After `i` headers everything handled is stored, and the last `inserted` are new. */
  ghost predicate PendingBatch(base: Store, headers: seq<Header>, i: nat, inserted: nat, store: Store) {
    && inserted <= i <= |headers|
    && (forall j | 0 <= j < i :: Stored(store, headers[j]))
    && (forall j | 0 <= j < i - inserted :: headers[j].hash in base)
    && (forall j | i - inserted <= j < i :: headers[j].hash !in base)
    && (i < |headers| ==> ParentOf(store, headers[i]).Some?)
  }

  /** A header behind a new one is itself new: a stored child has a stored parent. */
  lemma NewStaysNew(world: World, base: Store, genesis: Header, headers: seq<Header>, i: nat)
    requires ParentClosed(base, genesis) && GenuineStore(world, base) && LinkedBatch(headers)
    requires 0 < i < |headers| && headers[i - 1].hash !in base && Genuine(world, headers[i])
    ensures headers[i].hash !in base
  {
    assert headers[i].parentHash == headers[i - 1].hash;
    assert headers[i].hash in base ==> Rooted(base, genesis, base[headers[i].hash]);
  }

  /** One header more, skipped: it and everything before it was known. */
  lemma PendingSkip(base: Store, headers: seq<Header>, i: nat, store: Store)
    requires i < |headers| && PendingBatch(base, headers, i, 0, store)
    requires LinkedBatch(headers)
    requires headers[i].hash in base && Stored(store, headers[i])
    ensures PendingBatch(base, headers, i + 1, 0, store)
  {
    if i + 1 < |headers| {
      assert headers[i + 1].parentHash == headers[i].hash;
    }
  }

  /** One header more, written. */
  lemma PendingWrite(base: Store, headers: seq<Header>, i: nat, inserted: nat, store: Store, store': Store)
    requires i < |headers| && PendingBatch(base, headers, i, inserted, store)
    requires LinkedBatch(headers)
    requires headers[i].hash !in base && (headers[i].hash in store ==> store[headers[i].hash] == headers[i])
    requires store' == store[headers[i].hash := headers[i]]
    ensures PendingBatch(base, headers, i + 1, inserted + 1, store')
  {
    if i + 1 < |headers| {
      assert headers[i + 1].parentHash == headers[i].hash;
    }
  }

  lemma PendingTablesWrite(world: World, base: Store, baseTds: Tds, genesis: Header, store: Store, tds: Tds, h: Header)
    requires PendingTables(world, base, baseTds, genesis, store, tds)
    requires ParentOf(store, h).Some? && Genuine(world, h) && h.hash !in base
    ensures h.parentHash in tds
    ensures PendingTables(world, base, baseTds, genesis, store[h.hash := h], tds[h.hash := tds[h.parentHash] + h.difficulty])
  {
    AddHeader(store, genesis, tds, h);
  }

  /** The loop of WriteHeaders: what to write, reading only the tables as they are. */
  method BatchHeaders(
    base: Store, baseTds: Tds, ghost genesis: Header, headers: seq<Header>, ptd: int, ghost world: World)
    returns (headerBatch: Store, tdBatch: Tds, inserted: nat)
    requires PendingTables(world, base, baseTds, genesis, base, baseTds)
    requires LinkedBatch(headers) && forall i | 0 <= i < |headers| :: Genuine(world, headers[i])
    requires headers != [] && ParentOf(base, headers[0]).Some? && baseTds[headers[0].parentHash] == ptd
    ensures PendingTables(world, base, baseTds, genesis, base + headerBatch, baseTds + tdBatch)
    ensures PendingBatch(base, headers, |headers|, inserted, base + headerBatch)
    ensures headerBatch.Keys <= HashesOf(headers)
  {
    var newTd, parentKnown := ptd, true;
    headerBatch, tdBatch, inserted := map[], map[], 0;
    assert base + headerBatch == base && baseTds + tdBatch == baseTds;
    var i := 0;
    while i < |headers|
      invariant PendingTables(world, base, baseTds, genesis, base + headerBatch, baseTds + tdBatch)
      invariant PendingBatch(base, headers, i, inserted, base + headerBatch)
      invariant headerBatch.Keys <= HashesOf(headers)
      invariant i < |headers| ==> TdSoFar(baseTds + tdBatch, headers[i].parentHash, newTd)
      invariant parentKnown == (inserted == 0)
    {
      var header := headers[i];
      var hash := if i < |headers| - 1 then headers[i + 1].parentHash else header.hash;
      newTd := newTd + header.difficulty;
      var alreadyKnown := parentKnown && GetHeader(base, hash, header.number).Some?;
      PendingStep(world, base, baseTds, genesis, headers, i, inserted, headerBatch, tdBatch, newTd);
      if !alreadyKnown {
        tdBatch, headerBatch := tdBatch[hash := newTd], headerBatch[hash := header];
        inserted := inserted + 1;
      }
      parentKnown := alreadyKnown;
      i := i + 1;
    }
  }

  predicate TdSoFar(tds: Tds, hash: Hash, td: int) {
    hash in tds && tds[hash] == td
  }

  lemma PlusUpdate<K, V>(a: map<K, V>, b: map<K, V>, k: K, v: V)
    ensures (a + b)[k := v] == a + b[k := v]
  {
  }

  /** One header more, skipped or written as the loop decides. */
  lemma PendingStep(
    world: World, base: Store, baseTds: Tds, genesis: Header, headers: seq<Header>, i: nat, inserted: nat,
    headerBatch: Store, tdBatch: Tds, td: int)
    requires LinkedBatch(headers) && i < |headers| && Genuine(world, headers[i])
    requires ParentClosed(base, genesis) && GenuineStore(world, base)
    requires PendingTables(world, base, baseTds, genesis, base + headerBatch, baseTds + tdBatch)
    requires PendingBatch(base, headers, i, inserted, base + headerBatch)
    requires TdSoFar(baseTds + tdBatch, headers[i].parentHash, td - headers[i].difficulty)
    ensures i + 1 < |headers| ==> headers[i + 1].parentHash == headers[i].hash
    ensures headers[i].hash in base ==> base[headers[i].hash] == headers[i]
    ensures inserted > 0 ==> headers[i].hash !in base
    ensures headers[i].hash in base ==>
              PendingBatch(base, headers, i + 1, 0, base + headerBatch)
              && TdSoFar(baseTds + tdBatch, headers[i].hash, td)
    ensures headers[i].hash !in base ==>
              PendingTables(world, base, baseTds, genesis, base + headerBatch[headers[i].hash := headers[i]],
                            baseTds + tdBatch[headers[i].hash := td])
              && PendingBatch(base, headers, i + 1, inserted + 1, base + headerBatch[headers[i].hash := headers[i]])
              && TdSoFar(baseTds + tdBatch[headers[i].hash := td], headers[i].hash, td)
  {
    var h, store, tds := headers[i], base + headerBatch, baseTds + tdBatch;
    if inserted > 0 {
      NewStaysNew(world, base, genesis, headers, i);
    }
    if h.hash in base {
      PendingSkip(base, headers, i, store);
      assert TdAt(store, tds, store[h.hash]);
    } else {
      PlusUpdate(base, headerBatch, h.hash, h);
      PlusUpdate(baseTds, tdBatch, h.hash, td);
      PendingTablesWrite(world, base, baseTds, genesis, store, tds, h);
      PendingWrite(base, headers, i, inserted, store, store[h.hash := h]);
    }
  }

  /** Adds the headers of the batch itself, taking each hash but the last from the next
      header's parent field. */
  method PileOn(headers: seq<Header>, below: CanonBatch) returns (batch: CanonBatch)
    requires headers != [] && LinkedBatch(headers)
    ensures forall n: nat | n < headers[0].number || n > headers[|headers| - 1].number ::
              (n in batch <==> n in below) && (n in batch ==> batch[n] == below[n])
    ensures forall k: nat | k < |headers| :: headers[k].number in batch && batch[headers[k].number] == Some(headers[k].hash)
  {
    var last := headers[|headers| - 1];
    batch := below;
    forall k: nat | k < |headers|
      ensures headers[k].number == headers[0].number + k
    {
      BatchNumbers(headers, k);
    }
    var i := 0;
    while i < |headers| - 1
      invariant 0 <= i <= |headers| - 1
      invariant forall n: nat | n < headers[0].number || n >= headers[0].number + i ::
                  (n in batch <==> n in below) && (n in batch ==> batch[n] == below[n])
      invariant forall k: nat | k < i :: headers[k].number in batch && batch[headers[k].number] == Some(headers[k].hash)
    {
      assert headers[i + 1].parentHash == headers[i].hash;
      batch := batch[headers[i].number := Some(headers[i + 1].parentHash)];
      i := i + 1;
    }
    batch := batch[last.number := Some(last.hash)];
  }

  /** Why the flushed batch is the new path: below the cross link the old entries serve,
      up to the first header the walk wrote them, above it the batch did. */
  lemma BatchBuildsPath(
    store: Store, canon: Canon, head: Header, headers: seq<Header>, cross: Header, batch: CanonBatch)
    requires Keyed(store) && Canonical(store, canon, head)
    requires headers != [] && LinkedBatch(headers) && forall k | 0 <= k < |headers| :: Stored(store, headers[k])
    requires IsAncestor(store, cross, headers[0]) && IsAncestor(store, cross, head)
    requires forall k: nat | k < |headers| :: headers[k].number in batch && batch[headers[k].number] == Some(headers[k].hash)
    requires forall n: nat | n < headers[0].number :: n in batch <==> cross.number < n
    requires forall n: nat | n < headers[0].number && n in batch ::
      AncestorAt(store, headers[0], n).Some? && batch[n] == Some(AncestorAt(store, headers[0], n).value.hash)
    requires forall n: nat | n > headers[|headers| - 1].number && n in canon :: n in batch
    requires forall n: nat | n > headers[|headers| - 1].number && n in batch :: batch[n] == None
    ensures Canonical(store, Flush(canon, batch), headers[|headers| - 1])
  {
    var first, last := headers[0], headers[|headers| - 1];
    var canon' := Flush(canon, batch);
    BatchNumbers(headers, |headers| - 1);
    PathToAncestor(store, canon, head, cross);
    AncestorNumber(store, first, cross.number);
    forall n: nat | n <= last.number
      ensures n in canon' && AncestorAt(store, last, n).Some? && AncestorAt(store, last, n).value.hash == canon'[n]
    {
      if first.number <= n {
        BatchLine(store, headers, n - first.number, |headers| - 1);
        BatchNumbers(headers, n - first.number);
      } else {
        BatchLine(store, headers, 0, |headers| - 1);
        AncestorTransitive(store, last, first.number, n);
        if n <= cross.number {
          AncestorTransitive(store, first, cross.number, n);
        }
      }
    }
  }
}
