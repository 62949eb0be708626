/** The total-difficulty map kept beside the header store. */
module TotalDifficulty {
  import opened Wrappers
  import opened Chain

  type Tds = map<Hash, int>

  /** The database read: total difficulties are keyed by number and hash. */
  function GetTd(store: Store, tds: Tds, hash: Hash, number: nat): Option<int> {
    if hash in tds && GetHeader(store, hash, number).Some? then Some(tds[hash]) else None
  }

  function ParentTd(store: Store, tds: Tds, h: Header): Option<int> {
    if h.number == 0 then None else GetTd(store, tds, h.parentHash, h.number - 1)
  }

  /** Parent total plus own difficulty; genesis counts its own difficulty only. */
  predicate TdAt(store: Store, tds: Tds, h: Header) {
    && h.hash in tds
    && if h.number == 0 then tds[h.hash] == h.difficulty
       else h.parentHash in tds && tds[h.hash] == tds[h.parentHash] + h.difficulty
  }

  ghost predicate TdInv(store: Store, tds: Tds) {
    && tds.Keys == store.Keys
    && forall h {:trigger TdAt(store, tds, store[h])} | h in store :: TdAt(store, tds, store[h])
  }

  /** The reference: the sum of the difficulties along the header's line. */
  function LineDifficulty(store: Store, h: Header): int
    decreases h.number
  {
    h.difficulty +
    match ParentOf(store, h)
    case None => 0
    case Some(p) => LineDifficulty(store, p)
  }

  /** The local rule makes every entry the sum over its whole line. */
  lemma {:induction false} TdIsLineSum(store: Store, genesis: Header, tds: Tds, h: Header)
    requires ParentClosed(store, genesis) && TdInv(store, tds) && Stored(store, h)
    ensures tds[h.hash] == LineDifficulty(store, h)
    decreases h.number
  {
    assert TdAt(store, tds, store[h.hash]) && Rooted(store, genesis, store[h.hash]);
    if h.number > 0 {
      TdIsLineSum(store, genesis, tds, ParentOf(store, h).value);
    }
  }

  /** Storing a header whose parent is stored, with parent total plus own difficulty,
      keeps both the store closed and the totals right. Re-storing a known header is
      harmless. */
  lemma AddHeader(store: Store, genesis: Header, tds: Tds, h: Header)
    requires ParentClosed(store, genesis) && TdInv(store, tds)
    requires ParentOf(store, h).Some?
    requires h.hash != ZERO && (h.hash in store ==> store[h.hash] == h)
    ensures h.parentHash in tds
    ensures ParentClosed(store[h.hash := h], genesis)
    ensures TdInv(store[h.hash := h], tds[h.hash := tds[h.parentHash] + h.difficulty])
    ensures h.hash in store ==>
              store[h.hash := h] == store && tds[h.hash := tds[h.parentHash] + h.difficulty] == tds
  {
    var store', tds' := store[h.hash := h], tds[h.hash := tds[h.parentHash] + h.difficulty];
    if h.hash in store {
      assert TdAt(store, tds, store[h.hash]);
      assert store' == store && tds' == tds;
    } else {
      forall x | x in store'
        ensures Rooted(store', genesis, store'[x])
        ensures TdAt(store', tds', store'[x])
      {
        if x != h.hash {
          assert TdAt(store, tds, store[x]) && Rooted(store, genesis, store[x]);
        }
      }
    }
  }
}
