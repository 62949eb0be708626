/** Gas and wei accounting of a message: what is bought, used, refunded, returned, paid
    and burnt, with nothing lost to 256-bit arithmetic. */
module Conservation {
  import opened Wrappers
  import opened Gas
  import opened Accounts
  import opened Messages
  import opened Transition

  // ---------------------------------------------------------------------------------
  // What preCheck lets through
  // ---------------------------------------------------------------------------------

  /** The consensus rules on a message before gas is bought, without any order. */
  predicate Admitted(env: Env, msg: Message, s: State)
    requires Formed(env, msg)
  {
    && (!msg.skipNonceChecks ==> msg.nonce == Nonce(s, msg.from) && msg.nonce + 1 <= UINT64_MAX)
    && (!msg.skipTransactionChecks ==>
          CodeAt(s, msg.from) != Contract && (env.osaka ==> msg.gasLimit <= MAX_TX_GAS))
    && (env.london && !(env.noBaseFee && msg.gasFeeCap == Some(0) && msg.gasTipCap == 0) ==>
          && msg.gasTipCap <= msg.gasFeeCap.value < WORD
          && (env.baseFee <= msg.gasFeeCap.value || Exempt(env, msg)))
    && (msg.blobHashes.Some? ==>
          && msg.to.Some? && 0 < |msg.blobHashes.value|
          && (env.osaka ==> |msg.blobHashes.value| <= BLOB_TX_MAX_BLOBS)
          && forall h | h in msg.blobHashes.value :: h == 1)
    && (env.cancun && BlobGas(msg) > 0 && !(env.noBaseFee && msg.blobGasFeeCap == Some(0)) ==>
          env.blobBaseFee <= msg.blobGasFeeCap.value)
    && (msg.auths.Some? ==> msg.to.Some? && msg.auths.value != [])
  }

  /** preCheck gets to buying gas exactly for the messages the rules admit, and the error it
      names otherwise is one of a rule that is broken. */
  lemma PreCheckAdmits(env: Env, msg: Message, s: State)
    requires Formed(env, msg)
    ensures PreCheckError(env, msg, s).None? <==> Admitted(env, msg, s)
    ensures match PreCheckError(env, msg, s)
            case Some(NonceTooLow) => msg.nonce < Nonce(s, msg.from)
            case Some(NonceTooHigh) => Nonce(s, msg.from) < msg.nonce
            case Some(FeeCapTooLow) => env.london && msg.gasFeeCap.value < env.baseFee
            case Some(BlobFeeCapTooLow) => env.cancun && msg.blobGasFeeCap.value < env.blobBaseFee
            case _ => true
  {
    if msg.blobHashes.Some? {
      VersionsAreOne(msg.blobHashes.value);
    }
  }

  lemma VersionsAreOne(hashes: seq<Byte>)
    ensures ValidVersions(hashes) <==> forall h | h in hashes :: h == 1
  {
    if forall h | h in hashes :: h == 1 {
      forall i | 0 <= i < |hashes| ensures hashes[i] == 1 {
        assert hashes[i] in hashes;
      }
    }
  }

  // ---------------------------------------------------------------------------------
  // Buying gas
  // ---------------------------------------------------------------------------------

  /** The price charged does not exceed the price the sender's funds are checked for. */
  predicate Covered(env: Env, msg: Message)
    requires Formed(env, msg)
  {
    && (msg.gasFeeCap.Some? ==> msg.gasPrice <= msg.gasFeeCap.value)
    && (env.cancun && BlobGas(msg) > 0 ==> env.blobBaseFee <= msg.blobGasFeeCap.value)
  }

  lemma MulMono(k: nat, a: nat, b: nat)
    requires a <= b
    ensures k * a <= k * b
  {
  }

  lemma CoveredCost(env: Env, msg: Message)
    requires Formed(env, msg) && Covered(env, msg)
    ensures Cost(env, msg) + msg.value <= Required(env, msg)
  {
    MulMono(msg.gasLimit, msg.gasPrice, if msg.gasFeeCap.Some? then msg.gasFeeCap.value else msg.gasPrice);
    if env.cancun && BlobGas(msg) > 0 {
      MulMono(BlobGas(msg), env.blobBaseFee, msg.blobGasFeeCap.value);
    }
  }

  /** Buying takes exactly the cost exactly when the sender holds the cost, which is not
      quite what buyGas checks. */
  lemma BuyingIsExact(env: Env, msg: Message, s: State)
    requires Total(s) < WORD
    ensures Total(Bought(env, msg, s)) == Total(s) - Cost(env, msg) <==> Cost(env, msg) <= Balance(s, msg.from)
    ensures Cost(env, msg) <= Balance(s, msg.from) ==>
              Balance(Bought(env, msg, s), msg.from) == Balance(s, msg.from) - Cost(env, msg)
  {
    BalanceWithinTotal(s, msg.from);
    var cost := Cost(env, msg);
    if cost < WORD {
      SmallIsLow(cost);
      Debit(s, msg.from, cost);
    }
  }

  /** A covered message never overdraws its sender, leaves the value in place, and takes
      nothing from anybody else. */
  lemma CoveredNeverOverdraws(env: Env, msg: Message, s: State, pool: nat)
    requires Formed(env, msg) && Covered(env, msg) && Total(s) < WORD
    requires BuyGasError(env, msg, s, pool).None?
    ensures Cost(env, msg) + msg.value <= Balance(s, msg.from) < WORD
    ensures Balance(Bought(env, msg, s), msg.from) == Balance(s, msg.from) - Cost(env, msg) >= msg.value
    ensures Total(Bought(env, msg, s)) == Total(s) - Cost(env, msg)
    ensures forall a | a != msg.from :: Balance(Bought(env, msg, s), a) == Balance(s, a)
  {
    CoveredCost(env, msg);
    BuyingIsExact(env, msg, s);
    BalanceWithinTotal(s, msg.from);
  }

  predicate NeverOverdraws(env: Env, msg: Message, s: State, pool: nat)
    requires Formed(env, msg)
  {
    BuyGasError(env, msg, s, pool).None? ==> Cost(env, msg) <= Balance(s, msg.from)
  }

  /** For messages in general: buyGas is safe in every state exactly when the cost does not
      exceed the amount it checks for (or nobody can hold that amount). */
  lemma NeverOverdrawsIff(env: Env, msg: Message)
    requires Formed(env, msg)
    ensures (forall s, pool: nat | Total(s) < WORD :: NeverOverdraws(env, msg, s, pool))
            <==> Required(env, msg) >= WORD || Cost(env, msg) <= Required(env, msg)
  {
    var need := Required(env, msg);
    var poor := State(multiset{}[msg.from := need], map[], map[], {}, 0);
    if need < WORD && need < Cost(env, msg) {
      assert Total(poor) == need;
      assert !NeverOverdraws(env, msg, poor, msg.gasLimit);
    }
  }

  /** Messages derived from transactions, with base-fee checks on, are covered once they
      pass preCheck. */
  lemma TransactionsAreCovered(env: Env, tx: Transaction, baseFee: Option<nat>, s: State)
    requires ToMessage(tx, baseFee).Success? && Formed(env, ToMessage(tx, baseFee).value) && !env.noBaseFee
    ensures var msg := ToMessage(tx, baseFee).value;
            && (baseFee.Some? ==>
                  msg.gasPrice - baseFee.value <= TipCap(tx)
                  && (baseFee.value + TipCap(tx) <= FeeCap(tx) <==> msg.gasPrice - baseFee.value == TipCap(tx)))
            && (PreCheckError(env, msg, s).None? ==> Covered(env, msg))
  {
  }

  /** What a finished message went through. */
  lemma Opened(env: Env, msg: Message, s: State, pool: nat)
    requires Formed(env, msg) && Sound(env.vm)
    ensures Execute(env, msg, s, pool).Success? ==>
              && PreCheckError(env, msg, s).None? && BuyGasError(env, msg, s, pool).None?
              && ReadyError(env, msg, Bought(env, msg, s)).None?
              && msg.gasLimit <= pool && Ran(env, msg, s).gasLeft <= msg.gasLimit - Intrinsic(env, msg).value
              && Floor(env, msg) <= msg.gasLimit
              && Total(Ran(env, msg, s).state) == Total(Bought(env, msg, s))
              && Settled(env, msg, Ran(env, msg, s), pool) == Execute(env, msg, s, pool)
  {
    ExecuteSteps(env, msg, s, pool);
    if Execute(env, msg, s, pool).Success? {
      InvokeKeeps(env, msg, Bought(env, msg, s), msg.gasLimit - Intrinsic(env, msg).value);
    }
  }

  lemma CoveredMeetsNoLateExit(env: Env, msg: Message, s: State, pool: nat)
    requires Formed(env, msg) && Total(s) < WORD
    requires BuyGasError(env, msg, s, pool).None? && Covered(env, msg)
    ensures ReadyError(env, msg, Bought(env, msg, s)) != Some(InsufficientFundsForTransfer)
    ensures msg.gasLimit > 0 ==> msg.gasPrice < WORD
  {
    CoveredNeverOverdraws(env, msg, s, pool);
    PriceFits(msg.gasLimit, msg.gasPrice);
  }

  /** So the two late exits for want of funds cannot be taken by a transaction, and its
      price fits the 256 bits that returning gas insists on. */
  lemma LateFundsExitsUnreachable(env: Env, tx: Transaction, baseFee: Option<nat>, s: State, pool: nat)
    requires ToMessage(tx, baseFee).Success? && Formed(env, ToMessage(tx, baseFee).value) && !env.noBaseFee
    requires Sound(env.vm) && Total(s) < WORD
    ensures var r := Execute(env, ToMessage(tx, baseFee).value, s, pool);
            r != Failure(InsufficientFundsForTransfer) && (env.london || tx.gas > 0 ==> r != Failure(Panicked))
  {
    var msg := ToMessage(tx, baseFee).value;
    ExecuteSteps(env, msg, s, pool);
    TransactionsAreCovered(env, tx, baseFee, s);
    assert PreCheckError(env, msg, s).None? && env.london ==> msg.gasPrice <= msg.gasFeeCap.value < WORD;
    if PreCheckError(env, msg, s).None? && BuyGasError(env, msg, s, pool).None? {
      CoveredMeetsNoLateExit(env, msg, s, pool);
    }
  }

  lemma PriceFits(limit: nat, price: nat)
    requires limit * price < WORD
    ensures limit > 0 ==> price < WORD
  {
  }

  /** What must hold after gas was bought for a message to run, without any order; `b` is
      the state then. */
  predicate Runnable(env: Env, msg: Message, b: State)
    requires Formed(env, msg)
  {
    && (env.nano ==> msg.from !in env.blackList && (msg.to.Some? ==> msg.to.value !in env.blackList))
    && Intrinsic(env, msg).Success? && Intrinsic(env, msg).value <= msg.gasLimit
    && (env.prague ==> FloorDataGas(msg.data).Success? && FloorDataGas(msg.data).value <= msg.gasLimit)
    && msg.value < WORD && msg.value <= Balance(b, msg.from)
    && (env.shanghai && msg.to.None? ==> |msg.data| <= MAX_INIT_CODE_SIZE)
  }

  lemma ReadyMeansRunnable(env: Env, msg: Message, b: State)
    requires Formed(env, msg)
    ensures ReadyError(env, msg, b).None? <==> Runnable(env, msg, b)
  {
  }

  /** The messages that execute: exactly those that the rules admit, whose sender holds what
      is required, for which the block has gas left, and that can run on what was bought. */
  lemma ExecuteAccepts(env: Env, msg: Message, s: State, pool: nat)
    requires Formed(env, msg) && Sound(env.vm)
    ensures Execute(env, msg, s, pool).Success? <==>
            && Admitted(env, msg, s)
            && Required(env, msg) <= Balance(s, msg.from) && Required(env, msg) < WORD && msg.gasLimit <= pool
            && Runnable(env, msg, Bought(env, msg, s)) && msg.gasPrice < WORD
  {
    PreCheckAdmits(env, msg, s);
    ReadyMeansRunnable(env, msg, Bought(env, msg, s));
    ExecuteSteps(env, msg, s, pool);
  }

  // ---------------------------------------------------------------------------------
  // Gas exactness
  // ---------------------------------------------------------------------------------

  /** With g the gas used before refunds: the message pays for g less the capped refund, but
      never less than the data floor; the peak is g or the floor; neither passes the limit;
      and the pool loses exactly what was used. */
  predicate GasBooks(env: Env, msg: Message, out: Outcome, pool: nat, d: Done)
    requires Formed(env, msg) && out.gasLeft <= msg.gasLimit
  {
    var g := msg.gasLimit - out.gasLeft;
    var refund := Min(g / (if env.london then 5 else 2), out.state.refund);
    && refund <= g
    && d.usedGas == Max(g - refund, Floor(env, msg))
    && d.maxUsedGas == Max(g, Floor(env, msg))
    && d.usedGas <= d.maxUsedGas <= msg.gasLimit <= pool
    && d.pool == pool - d.usedGas
  }

  lemma SettledGas(env: Env, msg: Message, out: Outcome, pool: nat)
    requires Formed(env, msg) && msg.gasLimit <= pool && out.gasLeft <= msg.gasLimit && Floor(env, msg) <= msg.gasLimit
    ensures Settled(env, msg, out, pool).Success? ==> GasBooks(env, msg, out, pool, Settled(env, msg, out, pool).value)
  {
    RemainingIsExact(env, msg, out);
    assert !env.prague ==> Floor(env, msg) == 0;
  }

  /** Every message that executes keeps these books, and uses at least its intrinsic gas. */
  lemma GasIsExact(env: Env, msg: Message, s: State, pool: nat)
    requires Formed(env, msg) && Sound(env.vm)
    ensures Execute(env, msg, s, pool).Success? ==>
              && ReadyError(env, msg, Bought(env, msg, s)).None?
              && Ran(env, msg, s).gasLeft + Intrinsic(env, msg).value <= msg.gasLimit
              && GasBooks(env, msg, Ran(env, msg, s), pool, Execute(env, msg, s, pool).value)
  {
    Opened(env, msg, s, pool);
    if Execute(env, msg, s, pool).Success? {
      SettledGas(env, msg, Ran(env, msg, s), pool);
    }
  }

  /** In particular the pool loses exactly what was used. */
  lemma PoolPays(env: Env, msg: Message, s: State, pool: nat)
    requires Formed(env, msg) && Sound(env.vm)
    ensures Execute(env, msg, s, pool).Success? ==>
              var d := Execute(env, msg, s, pool).value;
              d.usedGas <= pool && d.pool == pool - d.usedGas
  {
    GasIsExact(env, msg, s, pool);
  }

  lemma RemainingIsExact(env: Env, msg: Message, out: Outcome)
    requires Formed(env, msg) && out.gasLeft <= msg.gasLimit && Floor(env, msg) <= msg.gasLimit
    ensures var g := msg.gasLimit - out.gasLeft;
            && Min(g / RefundQuotient(env), out.state.refund) <= g
            && msg.gasLimit - Remaining(env, msg, out) == Max(g - Min(g / RefundQuotient(env), out.state.refund), Floor(env, msg))
  {
    assert !env.prague ==> Floor(env, msg) == 0;
  }

  // ---------------------------------------------------------------------------------
  // Wei conservation
  // ---------------------------------------------------------------------------------

  /** The wei per gas no one receives: after London the base fee, or the whole price where
      that is lower. */
  function BurntPerGas(env: Env, msg: Message): nat {
    if env.london then Min(msg.gasPrice, env.baseFee) else 0
  }

  /** The blob fee reaches the fee recipient in BSC mode only. */
  function BlobFeeBurnt(env: Env, msg: Message): nat {
    if env.inBsc then 0 else BlobFee(env, msg)
  }

  lemma SplitPrice(limit: nat, left: nat, env: Env, msg: Message)
    requires left <= limit
    ensures limit * msg.gasPrice == left * msg.gasPrice + (limit - left) * Tip(env, msg) + (limit - left) * BurntPerGas(env, msg)
  {
    var used := limit - left;
    assert (left + used) * msg.gasPrice == left * msg.gasPrice + used * msg.gasPrice;
    assert Tip(env, msg) + BurntPerGas(env, msg) == msg.gasPrice;
    assert used * (Tip(env, msg) + BurntPerGas(env, msg)) == used * Tip(env, msg) + used * BurntPerGas(env, msg);
  }

  lemma SmallIsLow(x: nat)
    requires x < WORD
    ensures Low256(x) == x
  {
  }

  lemma TipWithinPrice(env: Env, msg: Message)
    ensures Tip(env, msg) <= msg.gasPrice
  {
  }

  /** With products that fit 256 bits, returning gas credits the plain product. */
  lemma PlainReturned(msg: Message, s: State, left: nat)
    requires left * msg.gasPrice < WORD
    ensures Returned(msg, s, left) == AddBalance(s, msg.from, left * msg.gasPrice)
  {
    SmallIsLow(left * msg.gasPrice);
  }

  /** And so do the fees. */
  lemma PlainRewarded(env: Env, msg: Message, s: State, used: nat)
    requires msg.gasPrice < WORD && used * Tip(env, msg) < WORD && BlobFee(env, msg) < WORD
    ensures var fee := used * Tip(env, msg);
            Rewarded(env, msg, s, used) ==
            if !env.inBsc then AddBalance(s, env.coinbase, fee)
            else if env.cancun then AddBalance(AddBalance(s, env.systemAddress, fee), env.systemAddress, BlobFee(env, msg))
            else AddBalance(s, env.systemAddress, fee)
  {
    TipWithinPrice(env, msg);
    SmallIsLow(Tip(env, msg));
    SmallIsLow(used * Tip(env, msg));
    SmallIsLow(BlobFee(env, msg));
  }

  /** Returning gas and paying the recipient add exactly the unused gas at its price, the
      tip, and the recipient's blob fee, as long as that keeps the supply in 256 bits. */
  lemma PayoutsAreExact(env: Env, msg: Message, s: State, left: nat, used: nat)
    requires msg.gasPrice < WORD
    requires Total(s) + left * msg.gasPrice + used * Tip(env, msg) + BlobFee(env, msg) < WORD
    ensures Total(Rewarded(env, msg, Returned(msg, s, left), used))
            == Total(s) + left * msg.gasPrice + used * Tip(env, msg) + (BlobFee(env, msg) - BlobFeeBurnt(env, msg))
  {
    var back: nat, fee: nat, blob := left * msg.gasPrice, used * Tip(env, msg), BlobFee(env, msg);
    PlainReturned(msg, s, left);
    Credit(s, msg.from, back);
    var s1 := AddBalance(s, msg.from, back);
    PlainRewarded(env, msg, s1, used);
    Credit(s1, env.systemAddress, fee);
    Credit(s1, env.coinbase, fee);
    Credit(AddBalance(s1, env.systemAddress, fee), env.systemAddress, blob);
  }

  /** Who is paid: the sender gets the unused gas back, the fee recipient the tip and in BSC
      mode the blob fee, and nobody else anything - even if the two are one account. */
  lemma PayoutsGoWhereDue(env: Env, msg: Message, s: State, left: nat, used: nat, a: Address)
    requires msg.gasPrice < WORD
    requires Total(s) + left * msg.gasPrice + used * Tip(env, msg) + BlobFee(env, msg) < WORD
    ensures var recipient := if env.inBsc then env.systemAddress else env.coinbase;
            Balance(Rewarded(env, msg, Returned(msg, s, left), used), a)
            == Balance(s, a)
               + (if a == msg.from then left * msg.gasPrice else 0)
               + (if a == recipient then used * Tip(env, msg) + (BlobFee(env, msg) - BlobFeeBurnt(env, msg)) else 0)
  {
    var back: nat, fee: nat, blob := left * msg.gasPrice, used * Tip(env, msg), BlobFee(env, msg);
    PlainReturned(msg, s, left);
    Credit(s, msg.from, back);
    CreditAt(s, msg.from, back, a);
    var s1 := AddBalance(s, msg.from, back);
    PlainRewarded(env, msg, s1, used);
    if env.inBsc {
      Credit(s1, env.systemAddress, fee);
      CreditAt(s1, env.systemAddress, fee, a);
      CreditAt(AddBalance(s1, env.systemAddress, fee), env.systemAddress, blob, a);
    } else {
      CreditAt(s1, env.coinbase, fee, a);
    }
  }

  /** What conservation says of one execution: if it succeeds, the supply falls by exactly
      the burnt part of the gas used and, outside BSC mode, the blob fee. */
  ghost predicate Conserves(env: Env, msg: Message, s: State, pool: nat)
    requires Formed(env, msg) && Sound(env.vm)
  {
    Execute(env, msg, s, pool).Success? ==>
      var d := Execute(env, msg, s, pool).value;
      Total(d.state) == Total(s) - d.usedGas * BurntPerGas(env, msg) - BlobFeeBurnt(env, msg)
  }

  /** Wei conservation: a message whose sender holds what buyGas takes destroys exactly the
      burnt part of the gas it used and, outside BSC mode, its blob fee. */
  lemma WeiIsConserved(env: Env, msg: Message, s: State, pool: nat)
    requires Formed(env, msg) && Sound(env.vm) && Total(s) < WORD
    ensures Cost(env, msg) <= Balance(s, msg.from) ==> Conserves(env, msg, s, pool)
  {
    Opened(env, msg, s, pool);
    if Execute(env, msg, s, pool).Success? && Cost(env, msg) <= Balance(s, msg.from) {
      BuyingIsExact(env, msg, s);
      BalanceWithinTotal(s, msg.from);
      SettlingIsExact(env, msg, Ran(env, msg, s), pool, Total(s));
    }
  }

  lemma SettlingIsExact(env: Env, msg: Message, out: Outcome, pool: nat, supply: nat)
    requires Formed(env, msg) && msg.gasLimit <= pool && out.gasLeft <= msg.gasLimit && Floor(env, msg) <= msg.gasLimit
    requires Cost(env, msg) <= supply < WORD && Total(out.state) == supply - Cost(env, msg)
    ensures Settled(env, msg, out, pool).Success? ==>
              var d := Settled(env, msg, out, pool).value;
              Total(d.state) == supply - d.usedGas * BurntPerGas(env, msg) - BlobFeeBurnt(env, msg)
  {
    var left := Remaining(env, msg, out);
    SplitPrice(msg.gasLimit, left, env, msg);
    MulMono(msg.gasLimit - left, 0, BurntPerGas(env, msg));
    if msg.gasPrice < WORD {
      PayoutsAreExact(env, msg, out.state, left, msg.gasLimit - left);
    }
  }

  /** Every transaction that executes with base-fee checks on conserves wei in this sense,
      and the supply it leaves is again within 256 bits. */
  lemma TransactionsConserveWei(env: Env, tx: Transaction, baseFee: Option<nat>, s: State, pool: nat)
    requires ToMessage(tx, baseFee).Success? && Formed(env, ToMessage(tx, baseFee).value) && !env.noBaseFee
    requires Sound(env.vm) && Total(s) < WORD
    ensures var msg := ToMessage(tx, baseFee).value;
            Execute(env, msg, s, pool).Success? ==>
              var d := Execute(env, msg, s, pool).value;
              && Total(d.state) == Total(s) - d.usedGas * BurntPerGas(env, msg) - BlobFeeBurnt(env, msg)
              && Total(d.state) <= Total(s)
  {
    var msg := ToMessage(tx, baseFee).value;
    Opened(env, msg, s, pool);
    if Execute(env, msg, s, pool).Success? {
      TransactionsAreCovered(env, tx, baseFee, s);
      CoveredNeverOverdraws(env, msg, s, pool);
      WeiIsConserved(env, msg, s, pool);
      MulMono(Execute(env, msg, s, pool).value.usedGas, 0, BurntPerGas(env, msg));
    }
  }
}
