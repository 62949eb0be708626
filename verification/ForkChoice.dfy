/** Fork choice: whether an incoming head replaces the current one. The justified
    number is a function of the header; the random tie-break is the parameter `coin`. */
module ForkChoice {
  import opened Wrappers
  import opened Chain
  import opened TotalDifficulty

  datatype ForkError = MissingTd | UnknownAncestor

  /** `posa`: the engine offers justified numbers. `plato`: first block whose justified
      number counts. `ttd`: terminal total difficulty, if configured. */
  datatype Config = Config(posa: bool, plato: Option<nat>, ttd: Option<int>, justifiedOf: Header -> nat)

  predicate IsPlato(cfg: Config, number: nat) {
    cfg.plato.Some? && cfg.plato.value <= number
  }

  /** The justified number fork choice uses for a header. */
  function Justified(cfg: Config, h: Header): nat {
    if cfg.posa && IsPlato(cfg, h.number) then cfg.justifiedOf(h) else 0
  }

  /** The total difficulty of a candidate that need not be stored yet. */
  function ExternTd(store: Store, tds: Tds, h: Header): Option<int> {
    match GetTd(store, tds, h.hash, h.number)
    case Some(td) => Some(td)
    case None =>
      match ParentTd(store, tds, h)
      case Some(ptd) => Some(ptd + h.difficulty)
      case None => None
  }

  function ReorgNeeded(cfg: Config, store: Store, tds: Tds, current: Header, extern: Header, coin: bool)
    : Result<bool, ForkError>
  {
    var localTd := GetTd(store, tds, current.hash, current.number);
    var externTd := ExternTd(store, tds, extern);
    if localTd.None? then Failure(MissingTd)
    else if externTd.None? then Failure(UnknownAncestor)
    else if cfg.ttd.Some? && cfg.ttd.value <= externTd.value then Success(true)
    else if externTd.value > localTd.value then Success(true)
    else if externTd.value < localTd.value then Success(false)
    else if extern.number < current.number then Success(true)
    else if extern.number > current.number then Success(false)
    else if extern.time != current.time then Success(extern.time < current.time)
    else if extern.coinbase == current.coinbase then Success(extern.hash < current.hash)
    else Success(coin)
  }

  function ReorgNeededWithFastFinality(
    cfg: Config, store: Store, tds: Tds, current: Header, header: Header, coin: bool): Result<bool, ForkError>
  {
    if !cfg.posa then ReorgNeeded(cfg, store, tds, current, header, coin)
    else
      var justified, curJustified := Justified(cfg, header), Justified(cfg, current);
      if justified == curJustified then ReorgNeeded(cfg, store, tds, current, header, coin)
      else Success(justified > curJustified)
  }

  // ---------------------------------------------------------------------------------
  // The preference behind the decision
  // ---------------------------------------------------------------------------------

  /** A head as fork choice sees it. */
  datatype Candidate = Candidate(justified: nat, td: int, header: Header)

  /** A header with its recorded total. */
  function Seen(cfg: Config, tds: Tds, h: Header): Candidate
    requires h.hash in tds
  {
    Candidate(Justified(cfg, h), tds[h.hash], h)
  }

  /** (justified, total difficulty), compared lexicographically. */
  predicate RanksAtMost(a: Candidate, b: Candidate) {
    a.justified < b.justified || (a.justified == b.justified && a.td <= b.td)
  }

  /** The tie in which the coin is tossed. */
  predicate Tied(a: Candidate, b: Candidate) {
    && a.justified == b.justified && a.td == b.td
    && a.header.number == b.header.number && a.header.time == b.header.time
    && a.header.coinbase != b.header.coinbase
  }

  /** `b` is preferred to `a` without any coin: more justified, then heavier, then
      shorter, then earlier, then - for one and the same signer - the smaller hash. */
  predicate Beats(b: Candidate, a: Candidate) {
    if b.justified != a.justified then b.justified > a.justified
    else if b.td != a.td then b.td > a.td
    else if b.header.number != a.header.number then b.header.number < a.header.number
    else if b.header.time != a.header.time then b.header.time < a.header.time
    else b.header.coinbase == a.header.coinbase && b.header.hash < a.header.hash
  }

  /** The decision, coin included. */
  predicate Preferred(next: Candidate, was: Candidate, coin: bool) {
    Beats(next, was) || (Tied(next, was) && coin)
  }

  ghost predicate Sees(cfg: Config, store: Store, tds: Tds, c: Candidate) {
    c.justified == Justified(cfg, c.header) && ExternTd(store, tds, c.header) == Some(c.td)
  }

  /** Without a terminal difficulty the code's answer is the preference, with the coin
      deciding exactly the ties. Different signers never share a hash. */
  lemma DecisionIsPreference(cfg: Config, store: Store, tds: Tds, cur: Candidate, ext: Candidate, coin: bool)
    requires cfg.ttd.None?
    requires Sees(cfg, store, tds, cur) && Sees(cfg, store, tds, ext)
    requires GetTd(store, tds, cur.header.hash, cur.header.number) == Some(cur.td)
    ensures ReorgNeededWithFastFinality(cfg, store, tds, cur.header, ext.header, coin)
            == Success(Preferred(ext, cur, coin))
  {
  }

  /** The preference is a strict partial order in which ties are incomparable. */
  lemma BeatsIsStrictOrder(a: Candidate, b: Candidate, c: Candidate)
    ensures !Beats(a, a)
    ensures Beats(a, b) ==> !Beats(b, a)
    ensures Beats(a, b) && Beats(b, c) ==> Beats(a, c)
    ensures Tied(a, b) ==> Tied(b, a) && !Beats(a, b) && !Beats(b, a)
  {
  }

  /** Any two heads with different hashes are ordered or tied: the answer is never
      arbitrary outside the coin. */
  lemma BeatsIsTotalUpToTies(a: Candidate, b: Candidate)
    requires a.header.hash != b.header.hash
    ensures Beats(a, b) || Beats(b, a) || Tied(a, b)
  {
  }

  /** What the head may do in one step: stay, or move to a preferred or tied block. */
  predicate HeadStep(a: Candidate, b: Candidate) {
    b == a || Beats(b, a) || Tied(b, a)
  }

  ghost predicate HeadRun(heads: seq<Candidate>) {
    |heads| > 0 && forall i | 0 < i < |heads| :: HeadStep(heads[i - 1], heads[i])
  }

  lemma RunExtends(heads: seq<Candidate>, next: Candidate)
    requires HeadRun(heads) && HeadStep(heads[|heads| - 1], next)
    ensures HeadRun(heads + [next])
  {
  }

  /** Within one rank, a step never makes the block longer or, at equal length, later. */
  predicate NoWorse(a: Candidate, b: Candidate) {
    RanksAtMost(a, b)
    && (RanksAtMost(b, a) ==>
          b.header.number < a.header.number
          || (b.header.number == a.header.number && b.header.time <= a.header.time))
  }

  /** Over any run, coin tosses included, the head's rank never decreases. */
  lemma {:induction false} RankNeverDecreases(heads: seq<Candidate>, i: nat, j: nat)
    requires HeadRun(heads) && i <= j < |heads|
    ensures RanksAtMost(heads[i], heads[j]) && NoWorse(heads[i], heads[j])
    decreases j - i
  {
    if i < j {
      RankNeverDecreases(heads, i, j - 1);
      assert HeadStep(heads[j - 1], heads[j]);
    }
  }

  /** A run in which no coin was tossed only ever climbs in the order. */
  lemma {:induction false} CoinlessRunClimbs(heads: seq<Candidate>, i: nat, j: nat)
    requires HeadRun(heads) && i <= j < |heads|
    requires forall k | i < k <= j :: !Tied(heads[k], heads[k - 1])
    ensures heads[j] == heads[i] || Beats(heads[j], heads[i])
    decreases j - i
  {
    if i < j {
      CoinlessRunClimbs(heads, i, j - 1);
      assert HeadStep(heads[j - 1], heads[j]) && !Tied(heads[j], heads[j - 1]);
      BeatsIsStrictOrder(heads[j], heads[j - 1], heads[i]);
    }
  }

  /** So the head never cycles: if it returns to where it was without a toss, it never
      left. */
  lemma NoCycleWithoutToss(heads: seq<Candidate>, i: nat, k: nat, j: nat)
    requires HeadRun(heads) && i <= k <= j < |heads|
    requires forall m | i < m <= j :: !Tied(heads[m], heads[m - 1])
    requires heads[i] == heads[j]
    ensures heads[k] == heads[i]
  {
    CoinlessRunClimbs(heads, i, k);
    CoinlessRunClimbs(heads, k, j);
    BeatsIsStrictOrder(heads[k], heads[i], heads[k]);
  }

  /** With tosses, every stop of a cycle has the same rank, number and time: only ties
      can be revisited. */
  lemma CyclesStayTied(heads: seq<Candidate>, i: nat, k: nat, j: nat)
    requires HeadRun(heads) && i <= k <= j < |heads|
    requires heads[i] == heads[j]
    ensures heads[k].justified == heads[i].justified && heads[k].td == heads[i].td
    ensures heads[k].header.number == heads[i].header.number && heads[k].header.time == heads[i].header.time
  {
    RankNeverDecreases(heads, i, k);
    RankNeverDecreases(heads, k, j);
  }

  /** The coin can in fact cycle the head: two blocks of one height, weight and time by
      different signers replace each other whenever the tosses say so. */
  lemma TossesCanCycle()
    ensures exists heads :: HeadRun(heads) && |heads| == 3 && heads[0] == heads[2] && heads[1] != heads[0]
  {
    var a := Candidate(0, 2, Header(10, 1, 1, 0, 1, 5, 100));
    var b := Candidate(0, 2, Header(11, 1, 1, 0, 1, 5, 101));
    assert HeadStep(a, b) && HeadStep(b, a);
    var heads := [a, b, a];
    assert HeadRun(heads);
  }

  /** The two total difficulties are all that fork choice reads from the database. */
  lemma DecisionReadsTds(
    cfg: Config, store: Store, tds: Tds, store': Store, tds': Tds, cur: Header, ext: Header, coin: bool)
    requires GetTd(store, tds, cur.hash, cur.number) == GetTd(store', tds', cur.hash, cur.number)
    requires ExternTd(store, tds, ext) == ExternTd(store', tds', ext)
    ensures ReorgNeededWithFastFinality(cfg, store, tds, cur, ext, coin)
            == ReorgNeededWithFastFinality(cfg, store', tds', cur, ext, coin)
  {
  }

  /** Storing the candidate changes neither total difficulty. */
  lemma TdsOnceStored(store: Store, genesis: Header, tds: Tds, store': Store, tds': Tds, cur: Header, ext: Header)
    requires ParentClosed(store, genesis) && TdInv(store, tds)
    requires Stored(store, cur) && ParentOf(store, ext).Some?
    requires ext.hash in store ==> store[ext.hash] == ext
    requires store' == store[ext.hash := ext]
    requires ext.parentHash in tds && tds' == tds[ext.hash := tds[ext.parentHash] + ext.difficulty]
    ensures GetTd(store, tds, cur.hash, cur.number).Some?
    ensures GetTd(store, tds, cur.hash, cur.number) == GetTd(store', tds', cur.hash, cur.number)
    ensures ExternTd(store, tds, ext) == ExternTd(store', tds', ext) == Some(tds[ext.parentHash] + ext.difficulty)
  {
    assert TdAt(store, tds, store[cur.hash]);
    if ext.hash in store {
      assert TdAt(store, tds, store[ext.hash]);
      assert store' == store && tds' == tds;
    }
  }

  /** The answer does not depend on whether the candidate was stored before asking. */
  lemma SameAnswerOnceStored(
    cfg: Config, store: Store, genesis: Header, tds: Tds, store': Store, tds': Tds, cur: Header, ext: Header, coin: bool)
    requires ParentClosed(store, genesis) && TdInv(store, tds)
    requires Stored(store, cur) && ParentOf(store, ext).Some?
    requires ext.hash in store ==> store[ext.hash] == ext
    requires store' == store[ext.hash := ext]
    requires ext.parentHash in tds && tds' == tds[ext.hash := tds[ext.parentHash] + ext.difficulty]
    ensures ReorgNeededWithFastFinality(cfg, store, tds, cur, ext, coin)
            == ReorgNeededWithFastFinality(cfg, store', tds', cur, ext, coin)
    ensures ReorgNeededWithFastFinality(cfg, store, tds, cur, ext, coin).Success?
  {
    TdsOnceStored(store, genesis, tds, store', tds', cur, ext);
    DecisionReadsTds(cfg, store, tds, store', tds', cur, ext, coin);
  }

  /** The configured terminal difficulty overrides the comparison of total difficulties,
      though not that of justified numbers. */
  predicate PastTerminal(cfg: Config, next: Candidate, was: Candidate) {
    cfg.ttd.Some? && cfg.ttd.value <= next.td && next.justified == was.justified
  }

  /** What fork choice answers on sound tables. */
  predicate Chosen(cfg: Config, next: Candidate, was: Candidate, coin: bool) {
    PastTerminal(cfg, next, was) || Preferred(next, was, coin)
  }

  /** Asking whether `ext` should replace `cur`, on sound tables: there is an answer
      whenever the parent of `ext` is stored, and it is the preference of the head with
      its stored total and the block with the total it is going to be stored with. */
  method Ask(cfg: Config, store: Store, ghost genesis: Header, tds: Tds, cur: Header, ext: Header, coin: bool)
    returns (r: Result<bool, ForkError>)
    requires ParentClosed(store, genesis) && TdInv(store, tds)
    requires Stored(store, cur) && (ext.hash in store ==> store[ext.hash] == ext)
    ensures r.Failure? ==> r.error == UnknownAncestor
    ensures ParentOf(store, ext).Some? ==>
              && r.Success? && cur.hash in tds && ext.parentHash in tds
              && var next := Candidate(Justified(cfg, ext), tds[ext.parentHash] + ext.difficulty, ext);
                 r.value == Chosen(cfg, next, Seen(cfg, tds, cur), coin)
  {
    r := ReorgNeededWithFastFinality(cfg, store, tds, cur, ext, coin);
    assert TdAt(store, tds, store[cur.hash]);
    if ParentOf(store, ext).Some? {
      TdsOnceStored(store, genesis, tds, store[ext.hash := ext], tds[ext.hash := tds[ext.parentHash] + ext.difficulty], cur, ext);
    }
  }
}
