/** The transaction loop of a block: gas, receipts and wei over all its transactions. */
module Processor {
  import opened Wrappers
  import opened Gas
  import opened Accounts
  import opened Messages
  import opened Transition
  import opened Conservation
  import opened StateTransition

  /** A receipt's gas fields and status. */
  datatype Receipt = Receipt(gasUsed: nat, cumulativeGasUsed: nat, failed: bool)

  datatype BlockError = BadSender | Refused(error: TxError) | BadSystemTx | NormalAfterSystem

  /** A transaction and the consensus engine's answer to whether it is a system one; None
      where the engine reports an error. */
  datatype Item = Item(tx: Transaction, system: Option<bool>)

  /** What a block's loop carries from one transaction to the next. */
  datatype Progress = Progress(state: State, pool: nat, usedGas: nat, receipts: seq<Receipt>)

  ghost predicate Sane(env: Env, txs: seq<Transaction>) {
    Sound(env.vm) && !env.noBaseFee && forall i | 0 <= i < |txs| :: |txs[i].data| <= UINT64_MAX
  }

  /** A message derived from a transaction has the fields every fork needs. */
  lemma MessagesAreFormed(env: Env, tx: Transaction, baseFee: Option<nat>)
    requires |tx.data| <= UINT64_MAX && ToMessage(tx, baseFee).Success?
    ensures Formed(env, ToMessage(tx, baseFee).value)
  {
  }

  /** ApplyTransactionWithEVM and MakeReceipt. */
  function ApplyTx(env: Env, baseFee: Option<nat>, tx: Transaction, p: Progress): Result<Progress, BlockError>
    requires Sound(env.vm) && |tx.data| <= UINT64_MAX
  {
    match ToMessage(tx, baseFee)
    case Failure(_) => Failure(BadSender)
    case Success(msg) =>
      MessagesAreFormed(env, tx, baseFee);
      match Execute(env, msg, p.state, p.pool)
      case Failure(e) => Failure(Refused(e))
      case Success(d) =>
        var used := Wrap64(p.usedGas + d.usedGas);
        Success(Progress(Finalised(d.state, env.eip158), d.pool, used, p.receipts + [Receipt(d.usedGas, used, d.failed)]))
  }

  function ApplyAll(env: Env, baseFee: Option<nat>, txs: seq<Transaction>, p: Progress): Result<Progress, BlockError>
    requires Sound(env.vm) && forall i | 0 <= i < |txs| :: |txs[i].data| <= UINT64_MAX
    decreases |txs|
  {
    if txs == [] then Success(p)
    else
      match ApplyAll(env, baseFee, txs[..|txs| - 1], p)
      case Failure(e) => Failure(e)
      case Success(q) => ApplyTx(env, baseFee, txs[|txs| - 1], q)
  }

  function GasSum(receipts: seq<Receipt>): nat {
    if receipts == [] then 0 else GasSum(receipts[..|receipts| - 1]) + receipts[|receipts| - 1].gasUsed
  }

  /** The block's gas books: the pool and the gas used make up the limit, and every
      receipt's cumulative gas is the sum of the receipts so far. */
  ghost predicate Balanced(limit: nat, p: Progress) {
    && p.pool + p.usedGas == limit
    && p.usedGas == GasSum(p.receipts)
    && forall i | 0 <= i < |p.receipts| :: p.receipts[i].cumulativeGasUsed == GasSum(p.receipts[..i + 1])
  }

  lemma AppendReceipt(limit: nat, p: Progress, q: Progress, used: nat, failed: bool)
    requires Balanced(limit, p) && used <= p.pool && limit <= UINT64_MAX
    requires q.pool == p.pool - used && q.usedGas == Wrap64(p.usedGas + used)
    requires q.receipts == p.receipts + [Receipt(used, q.usedGas, failed)]
    ensures Balanced(limit, q) && q.usedGas == p.usedGas + used
  {
    var k := |p.receipts|;
    assert q.receipts[..k] == p.receipts;
    forall i | 0 <= i < |q.receipts| ensures q.receipts[i].cumulativeGasUsed == GasSum(q.receipts[..i + 1]) {
      if i < k {
        assert q.receipts[..i + 1] == p.receipts[..i + 1];
      } else {
        assert q.receipts[..i + 1] == q.receipts;
      }
    }
  }

  lemma TxStaysBalanced(env: Env, baseFee: Option<nat>, tx: Transaction, p: Progress, limit: nat)
    requires Sound(env.vm) && |tx.data| <= UINT64_MAX && limit <= UINT64_MAX && Balanced(limit, p)
    ensures ApplyTx(env, baseFee, tx, p).Success? ==> Balanced(limit, ApplyTx(env, baseFee, tx, p).value)
  {
    if ApplyTx(env, baseFee, tx, p).Success? {
      var msg := ToMessage(tx, baseFee).value;
      MessagesAreFormed(env, tx, baseFee);
      PoolPays(env, msg, p.state, p.pool);
      var d := Execute(env, msg, p.state, p.pool).value;
      AppendReceipt(limit, p, ApplyTx(env, baseFee, tx, p).value, d.usedGas, d.failed);
    }
  }

  /** Over the whole block the books stay balanced and there is one receipt for each
      transaction. */
  lemma {:induction false} BlockGasIsExact(env: Env, baseFee: Option<nat>, txs: seq<Transaction>, p: Progress, limit: nat)
    requires Sound(env.vm) && forall i | 0 <= i < |txs| :: |txs[i].data| <= UINT64_MAX
    requires limit <= UINT64_MAX && Balanced(limit, p)
    requires ApplyAll(env, baseFee, txs, p).Success?
    ensures Balanced(limit, ApplyAll(env, baseFee, txs, p).value)
    ensures |ApplyAll(env, baseFee, txs, p).value.receipts| == |p.receipts| + |txs|
    decreases |txs|
  {
    if txs != [] {
      BlockGasIsExact(env, baseFee, txs[..|txs| - 1], p, limit);
      TxStaysBalanced(env, baseFee, txs[|txs| - 1], ApplyAll(env, baseFee, txs[..|txs| - 1], p).value, limit);
    }
  }

  /** What a transaction burns, given the gas its receipt charges. */
  function Burnt(env: Env, baseFee: Option<nat>, tx: Transaction, gasUsed: nat): nat {
    match ToMessage(tx, baseFee)
    case Failure(_) => 0
    case Success(msg) => gasUsed * BurntPerGas(env, msg) + BlobFeeBurnt(env, msg)
  }

  function BurntSum(env: Env, baseFee: Option<nat>, txs: seq<Transaction>, receipts: seq<Receipt>): nat
    requires |receipts| == |txs|
  {
    if txs == [] then 0
    else
      var k := |txs| - 1;
      BurntSum(env, baseFee, txs[..k], receipts[..k]) + Burnt(env, baseFee, txs[k], receipts[k].gasUsed)
  }

  lemma TxBurns(env: Env, baseFee: Option<nat>, tx: Transaction, p: Progress)
    requires Sound(env.vm) && !env.noBaseFee && |tx.data| <= UINT64_MAX && Total(p.state) < WORD
    ensures ApplyTx(env, baseFee, tx, p).Success? ==>
              var q := ApplyTx(env, baseFee, tx, p).value;
              && |q.receipts| == |p.receipts| + 1 && q.receipts[..|p.receipts|] == p.receipts
              && Total(q.state) == Total(p.state) - Burnt(env, baseFee, tx, q.receipts[|p.receipts|].gasUsed)
              && Total(q.state) < WORD
  {
    if ApplyTx(env, baseFee, tx, p).Success? {
      MessagesAreFormed(env, tx, baseFee);
      TransactionsConserveWei(env, tx, baseFee, p.state, p.pool);
    }
  }

  /** Wei over a block: the supply falls by exactly what its transactions burn. */
  lemma {:induction false} BlockConservesWei(env: Env, baseFee: Option<nat>, txs: seq<Transaction>, s: State, pool: nat)
    requires Sane(env, txs) && Total(s) < WORD
    requires ApplyAll(env, baseFee, txs, Progress(s, pool, 0, [])).Success?
    ensures var q := ApplyAll(env, baseFee, txs, Progress(s, pool, 0, [])).value;
            && |q.receipts| == |txs|
            && Total(q.state) == Total(s) - BurntSum(env, baseFee, txs, q.receipts)
            && Total(q.state) < WORD
    decreases |txs|
  {
    if txs != [] {
      var k := |txs| - 1;
      BlockConservesWei(env, baseFee, txs[..k], s, pool);
      TxBurns(env, baseFee, txs[k], ApplyAll(env, baseFee, txs[..k], Progress(s, pool, 0, [])).value);
    }
  }

  // ---------------------------------------------------------------------------------
  // The loop
  // ---------------------------------------------------------------------------------

  /** The block loop's variables. */
  datatype Loop = Loop(progress: Progress, commonTxs: seq<Transaction>, systemTxs: seq<Transaction>)

  ghost predicate Readable(items: seq<Item>) {
    forall i | 0 <= i < |items| :: |items[i].tx.data| <= UINT64_MAX
  }

  /** One item: set aside, refused, or applied. */
  function LoopStep(env: Env, baseFee: Option<nat>, isPosa: bool, item: Item, l: Loop): Result<Loop, BlockError>
    requires Sound(env.vm) && |item.tx.data| <= UINT64_MAX
  {
    if isPosa && item.system.None? then Failure(BadSystemTx)
    else if isPosa && item.system.value then Success(l.(systemTxs := l.systemTxs + [item.tx]))
    else if env.cancun && l.systemTxs != [] then Failure(NormalAfterSystem)
    else
      match ApplyTx(env, baseFee, item.tx, l.progress)
      case Failure(e) => Failure(e)
      case Success(q) => Success(Loop(q, l.commonTxs + [item.tx], l.systemTxs))
  }

  function RunLoop(env: Env, baseFee: Option<nat>, isPosa: bool, items: seq<Item>, p: Progress): Result<Loop, BlockError>
    requires Sound(env.vm) && Readable(items)
    decreases |items|
  {
    if items == [] then Success(Loop(p, [], []))
    else
      match RunLoop(env, baseFee, isPosa, items[..|items| - 1], p)
      case Failure(e) => Failure(e)
      case Success(l) => LoopStep(env, baseFee, isPosa, items[|items| - 1], l)
  }

  /** The transactions among `items` that are (or are not) system ones, in order. */
  function Select(items: seq<Item>, isPosa: bool, system: bool): seq<Transaction> {
    if items == [] then []
    else
      var k := |items| - 1;
      Select(items[..k], isPosa, system)
      + if (isPosa && items[k].system == Some(true)) == system then [items[k].tx] else []
  }

  /** Every item is classified and, under Cancun, system transactions come last. */
  ghost predicate InOrder(env: Env, items: seq<Item>, isPosa: bool) {
    isPosa ==>
      && (forall i | 0 <= i < |items| :: items[i].system.Some?)
      && (env.cancun ==>
            forall i, j | 0 <= i < j < |items| && items[i].system == Some(true) :: items[j].system == Some(true))
  }

  lemma {:induction false} NoneSelected(items: seq<Item>, isPosa: bool)
    requires isPosa && Select(items, isPosa, true) == []
    ensures forall i | 0 <= i < |items| :: items[i].system != Some(true)
  {
    if items != [] {
      NoneSelected(items[..|items| - 1], isPosa);
    }
  }

  lemma {:induction false} SomeSelected(items: seq<Item>, isPosa: bool)
    requires Select(items, isPosa, true) != []
    ensures isPosa && exists i | 0 <= i < |items| :: items[i].system == Some(true)
  {
    var k := |items| - 1;
    if !(isPosa && items[k].system == Some(true)) {
      SomeSelected(items[..k], isPosa);
    }
  }

  ghost predicate Applies(env: Env, baseFee: Option<nat>, txs: seq<Transaction>, p: Progress, q: Progress)
    requires Sound(env.vm)
  {
    (forall i | 0 <= i < |txs| :: |txs[i].data| <= UINT64_MAX) && ApplyAll(env, baseFee, txs, p) == Success(q)
  }

  lemma AppliesNext(env: Env, baseFee: Option<nat>, txs: seq<Transaction>, tx: Transaction, p: Progress, q: Progress)
    requires Sound(env.vm) && |tx.data| <= UINT64_MAX && Applies(env, baseFee, txs, p, q)
    ensures ApplyTx(env, baseFee, tx, q).Success? ==> Applies(env, baseFee, txs + [tx], p, ApplyTx(env, baseFee, tx, q).value)
  {
    assert (txs + [tx])[..|txs|] == txs;
  }

  lemma OrderNext(env: Env, items: seq<Item>, isPosa: bool)
    requires items != [] && InOrder(env, items[..|items| - 1], isPosa)
    ensures var k := |items| - 1;
            InOrder(env, items, isPosa) <==>
            (isPosa ==>
               items[k].system.Some? && (env.cancun && items[k].system == Some(false) ==> Select(items[..k], isPosa, true) == []))
  {
    var k := |items| - 1;
    var before := items[..k];
    assert forall j {:trigger items[j]} | 0 <= j < k :: before[j] == items[j];
    if isPosa && Select(before, isPosa, true) == [] {
      NoneSelected(before, isPosa);
    } else if isPosa {
      SomeSelected(before, isPosa);
      var i :| 0 <= i < k && before[i].system == Some(true);
      assert items[i].system == Some(true);
      if items[k].system.Some? {
        assert items[k].system.value || items[k].system == Some(false);
      }
    }
  }

  /** The loop sets exactly the system transactions aside, and accepts only well-ordered
      blocks. */
  lemma {:induction false} LoopSelects(env: Env, baseFee: Option<nat>, isPosa: bool, items: seq<Item>, p: Progress)
    requires Sound(env.vm) && Readable(items) && RunLoop(env, baseFee, isPosa, items, p).Success?
    ensures var l := RunLoop(env, baseFee, isPosa, items, p).value;
            && l.commonTxs == Select(items, isPosa, false) && l.systemTxs == Select(items, isPosa, true)
            && InOrder(env, items, isPosa)
    decreases |items|
  {
    if items != [] {
      LoopSelects(env, baseFee, isPosa, items[..|items| - 1], p);
      OrderNext(env, items, isPosa);
    }
  }

  /** The other transactions are applied, in order. */
  lemma {:induction false} LoopApplies(env: Env, baseFee: Option<nat>, isPosa: bool, items: seq<Item>, p: Progress)
    requires Sound(env.vm) && Readable(items) && RunLoop(env, baseFee, isPosa, items, p).Success?
    ensures var l := RunLoop(env, baseFee, isPosa, items, p).value;
            Applies(env, baseFee, l.commonTxs, p, l.progress)
    decreases |items|
  {
    if items != [] {
      var k := |items| - 1;
      LoopApplies(env, baseFee, isPosa, items[..k], p);
      var l := RunLoop(env, baseFee, isPosa, items[..k], p).value;
      if !(isPosa && items[k].system.value) {
        AppliesNext(env, baseFee, l.commonTxs, items[k].tx, p, l.progress);
      }
    }
  }

  /** Over the whole block loop, pool and gas used make up the block's gas limit, each
      receipt's cumulative gas is the running sum, and the supply falls by what the
      applied transactions burn. */
  lemma BlockBooks(env: Env, baseFee: Option<nat>, isPosa: bool, items: seq<Item>, s: State, gasLimit: Uint64)
    requires Sound(env.vm) && Readable(items) && RunLoop(env, baseFee, isPosa, items, Progress(s, gasLimit, 0, [])).Success?
    ensures var l := RunLoop(env, baseFee, isPosa, items, Progress(s, gasLimit, 0, [])).value;
            && Balanced(gasLimit, l.progress) && |l.progress.receipts| == |l.commonTxs|
            && (!env.noBaseFee && Total(s) < WORD ==>
                  Total(l.progress.state) == Total(s) - BurntSum(env, baseFee, l.commonTxs, l.progress.receipts))
  {
    var p := Progress(s, gasLimit, 0, []);
    LoopApplies(env, baseFee, isPosa, items, p);
    var txs := RunLoop(env, baseFee, isPosa, items, p).value.commonTxs;
    BlockGasIsExact(env, baseFee, txs, p, gasLimit);
    if !env.noBaseFee && Total(s) < WORD {
      BlockConservesWei(env, baseFee, txs, s, gasLimit);
    }
  }

  datatype BlockResult = BlockResult(receipts: seq<Receipt>, gasUsed: nat)

  method ApplyTransaction(env: Env, baseFee: Option<nat>, tx: Transaction, db: StateDb, gp: GasPool, usedGas: Uint64, receipts: seq<Receipt>)
    returns (r: Result<Receipt, BlockError>)
    requires Sound(env.vm) && |tx.data| <= UINT64_MAX
    modifies db, gp
    ensures match ApplyTx(env, baseFee, tx, Progress(old(db.s), old(gp.gas), usedGas, receipts))
            case Failure(e) => r == Failure(e)
            case Success(q) => r.Success? && q == Progress(db.s, gp.gas, r.value.cumulativeGasUsed, receipts + [r.value])
    ensures r.Success? ==> r.value.cumulativeGasUsed <= UINT64_MAX
  {
    var m := ToMessage(tx, baseFee);
    if m.Failure? {
      return Failure(BadSender);
    }
    MessagesAreFormed(env, tx, baseFee);
    var st := new StateTransition.Transition(env, m.value, gp, db);
    var result := st.Execute();
    if result.Failure? {
      return Failure(Refused(result.error));
    }
    db.s := Finalised(db.s, env.eip158);
    return Success(Receipt(result.value.usedGas, Wrap64(usedGas + result.value.usedGas), result.value.failed));
  }

  /** One turn of the loop of Process. */
  method ProcessItem(env: Env, baseFee: Option<nat>, isPosa: bool, item: Item, db: StateDb, gp: GasPool,
                     usedGas: Uint64, receipts: seq<Receipt>, commonTxs: seq<Transaction>, systemTxs: seq<Transaction>)
    returns (err: Option<BlockError>, usedGas': Uint64, receipts': seq<Receipt>, commonTxs': seq<Transaction>, systemTxs': seq<Transaction>)
    requires Sound(env.vm) && |item.tx.data| <= UINT64_MAX
    modifies db, gp
    ensures match LoopStep(env, baseFee, isPosa, item, Loop(Progress(old(db.s), old(gp.gas), usedGas, receipts), commonTxs, systemTxs))
            case Failure(e) => err == Some(e)
            case Success(l) => err.None? && l == Loop(Progress(db.s, gp.gas, usedGas', receipts'), commonTxs', systemTxs')
  {
    err, usedGas', receipts', commonTxs', systemTxs' := None, usedGas, receipts, commonTxs, systemTxs;
    if isPosa {
      if item.system.None? {
        err := Some(BadSystemTx);
        return;
      } else if item.system.value {
        systemTxs' := systemTxs + [item.tx];
        return;
      }
    }
    if env.cancun {
      if |systemTxs| > 0 {
        err := Some(NormalAfterSystem);
        return;
      }
    }
    var receipt := ApplyTransaction(env, baseFee, item.tx, db, gp, usedGas, receipts);
    if receipt.Failure? {
      err := Some(receipt.error);
      return;
    }
    usedGas' := receipt.value.cumulativeGasUsed;
    commonTxs' := commonTxs + [item.tx];
    receipts' := receipts + [receipt.value];
  }

  /** The loop of Process: the specification's loop, step for step, errors included. */
  method Process(env: Env, gasLimit: Uint64, baseFee: Option<nat>, isPosa: bool, items: seq<Item>, db: StateDb)
    returns (r: Result<BlockResult, BlockError>)
    requires Sound(env.vm) && Readable(items)
    modifies db
    ensures match RunLoop(env, baseFee, isPosa, items, Progress(old(db.s), gasLimit, 0, []))
            case Failure(e) => r == Failure(e)
            case Success(l) => r == Success(BlockResult(l.progress.receipts, l.progress.usedGas)) && db.s == l.progress.state
  {
    var gp := new GasPool();
    var ok := gp.AddGas(gasLimit);
    var receipts: seq<Receipt>, usedGas: Uint64 := [], 0;
    var commonTxs: seq<Transaction>, systemTxs: seq<Transaction> := [], [];
    ghost var start := Progress(db.s, gasLimit, 0, []);
    for i := 0 to |items|
      invariant fresh(gp)
      invariant RunLoop(env, baseFee, isPosa, items[..i], start)
                == Success(Loop(Progress(db.s, gp.gas, usedGas, receipts), commonTxs, systemTxs))
    {
      LoopNext(env, baseFee, isPosa, items, start, i);
      var err;
      err, usedGas, receipts, commonTxs, systemTxs :=
        ProcessItem(env, baseFee, isPosa, items[i], db, gp, usedGas, receipts, commonTxs, systemTxs);
      if err.Some? {
        return Failure(err.value);
      }
    }
    assert items[..|items|] == items;
    return Success(BlockResult(receipts, usedGas));
  }

  lemma LoopNext(env: Env, baseFee: Option<nat>, isPosa: bool, items: seq<Item>, p: Progress, i: nat)
    requires Sound(env.vm) && Readable(items) && i < |items|
    ensures RunLoop(env, baseFee, isPosa, items[..i], p).Success? ==>
              var next := LoopStep(env, baseFee, isPosa, items[i], RunLoop(env, baseFee, isPosa, items[..i], p).value);
              && RunLoop(env, baseFee, isPosa, items[..i + 1], p) == next
              && (next.Failure? ==> RunLoop(env, baseFee, isPosa, items, p) == next)
  {
    assert items[..i + 1][..i] == items[..i];
    LoopPrefix(env, baseFee, isPosa, items, p, i + 1);
  }

  /** The first failure ends the loop. */
  lemma {:induction false} LoopPrefix(env: Env, baseFee: Option<nat>, isPosa: bool, items: seq<Item>, p: Progress, i: nat)
    requires Sound(env.vm) && Readable(items) && i <= |items|
    ensures RunLoop(env, baseFee, isPosa, items[..i], p).Failure? ==>
              RunLoop(env, baseFee, isPosa, items, p) == RunLoop(env, baseFee, isPosa, items[..i], p)
    decreases |items|
  {
    if i < |items| {
      var k := |items| - 1;
      LoopPrefix(env, baseFee, isPosa, items[..k], p, i);
      assert items[..k][..i] == items[..i];
    } else {
      assert items[..i] == items;
    }
  }
}
