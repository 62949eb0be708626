/** When a message does not conserve wei: its sender is charged more than was checked for
    and the debit wraps, or the cost itself passes 256 bits. Messages with the base-fee
    checks switched off can get there. */
module Overdraft {
  import opened Wrappers
  import opened Gas
  import opened Accounts
  import opened Messages
  import opened Transition
  import opened Conservation

  // ---------------------------------------------------------------------------------
  // What is paid out, in 256 bits
  // ---------------------------------------------------------------------------------

  lemma LowAdd(x: nat, y: nat)
    ensures Low256(Low256(x) + y) == Low256(x + y)
  {
    var q := x / WORD;
    LowShift(Low256(x) + y, q);
    assert x == WORD * q + Low256(x);
  }

  lemma LowShift(x: nat, k: nat)
    ensures Low256(x + WORD * k) == Low256(x)
  {
    var q, r := x / WORD, x % WORD;
    assert x + WORD * k == WORD * (q + k) + r;
  }

  /** Two credits to one account are one. */
  lemma CreditsMerge(s: State, a: Address, x: nat, y: nat)
    ensures AddBalance(AddBalance(s, a, x), a, y).wei == AddBalance(s, a, Low256(x + y)).wei
  {
    LowAdd(Balance(s, a) + x, y);
    LowAdd(x + y, Balance(s, a));
  }

  function Recipient(env: Env): Address {
    if env.inBsc then env.systemAddress else env.coinbase
  }

  function BlobFeePaid(env: Env, msg: Message): nat {
    if env.inBsc then BlobFee(env, msg) else 0
  }

  function Back(msg: Message, left: nat): nat { Low256(left * msg.gasPrice) }

  function Fees(env: Env, msg: Message, used: nat): nat {
    Low256(used * Tip(env, msg) + BlobFeePaid(env, msg))
  }

  /** What two credits come to on empty accounts, which may be one. */
  function Joined(same: bool, back: nat, fees: nat): nat {
    if same then Low256(Low256(back) + Low256(fees)) else Low256(back) + Low256(fees)
  }

  lemma JoinedPlain(same: bool, back: nat, fees: nat)
    requires back + fees < WORD
    ensures Joined(same, back, fees) == back + fees
  {
  }

  /** What the sender and the fee recipient receive for a message that used so much gas; each
      account counts in 256 bits. */
  function Received(env: Env, msg: Message, used: nat): nat
    requires used <= msg.gasLimit
  {
    Joined(msg.from == Recipient(env), (msg.gasLimit - used) * msg.gasPrice, used * Tip(env, msg) + BlobFeePaid(env, msg))
  }

  function Burnt(env: Env, msg: Message, used: nat): nat {
    used * BurntPerGas(env, msg) + BlobFeeBurnt(env, msg)
  }

  /** Fees arrive as one credit. */
  lemma FeesMerge(env: Env, msg: Message, s: State, used: nat)
    requires msg.gasPrice < WORD
    ensures Rewarded(env, msg, s, used).wei == AddBalance(s, Recipient(env), Fees(env, msg, used)).wei
  {
    TipWithinPrice(env, msg);
    SmallIsLow(Tip(env, msg));
    var fee: nat, blob := used * Tip(env, msg), BlobFeePaid(env, msg);
    if env.inBsc && env.cancun {
      CreditsMerge(s, env.systemAddress, Low256(fee), Low256(blob));
      LowAdd(fee, Low256(blob));
      LowAdd(blob, fee);
    }
  }

  /** The two credits stay within their accounts. */
  predicate Fits(env: Env, msg: Message, s: State, used: nat)
    requires used <= msg.gasLimit
  {
    if msg.from == Recipient(env) then Balance(s, msg.from) + Received(env, msg, used) < WORD
    else Balance(s, msg.from) + Back(msg, msg.gasLimit - used) < WORD
         && Balance(s, Recipient(env)) + Fees(env, msg, used) < WORD
  }

  lemma FitsTheSupply(env: Env, msg: Message, s: State, used: nat)
    requires used <= msg.gasLimit && Total(s) + Received(env, msg, used) < WORD
    ensures Fits(env, msg, s, used)
  {
    BalanceWithinTotal(s, msg.from);
    BalanceWithinTotal(s, Recipient(env));
  }

  lemma PayoutIsReceived(env: Env, msg: Message, s: State, used: nat)
    requires msg.gasPrice < WORD && used <= msg.gasLimit && Fits(env, msg, s, used)
    ensures Total(Rewarded(env, msg, Returned(msg, s, msg.gasLimit - used), used)) == Total(s) + Received(env, msg, used)
  {
    var back, fees := Back(msg, msg.gasLimit - used), Fees(env, msg, used);
    var s1 := Returned(msg, s, msg.gasLimit - used);
    FeesMerge(env, msg, s1, used);
    if msg.from == Recipient(env) {
      CreditsMerge(s, msg.from, back, fees);
      CreditFits(s, msg.from, Low256(back + fees));
    } else {
      CreditFits(s, msg.from, back);
      CreditFits(s1, Recipient(env), fees);
    }
  }

  // ---------------------------------------------------------------------------------
  // The condition
  // ---------------------------------------------------------------------------------

  /** The message conserves wei in every state, under every machine. */
  ghost predicate AlwaysConserves(env: Env, msg: Message)
    requires Formed(env, msg)
  {
    forall vm: Vm, s: State, pool: nat | Sound(vm) && Total(s) < WORD :: Conserves(env.(vm := vm), msg, s, pool)
  }

  /** A state in which the sender holds an amount and nobody else anything. */
  function Holding(msg: Message, amount: nat): State {
    State(multiset{}[msg.from := amount], map[msg.from := if msg.skipNonceChecks then 0 else msg.nonce], map[], {}, 0)
  }

  /** Nothing but the sender's funds can keep the message from executing. */
  predicate Viable(env: Env, msg: Message)
    requires Formed(env, msg)
  {
    && Admitted(env, msg, Holding(msg, 0)) && msg.gasPrice < WORD && Required(env, msg) < WORD
    && Runnable(env, msg, Holding(msg, msg.value))
  }

  /** Gas less the largest refund. */
  function MostRefunded(env: Env, gas: nat): nat {
    if env.london then gas - gas / 5 else gas - gas / 2
  }

  /** The least gas a run can use: the intrinsic gas with the largest refund, or the floor. */
  function LeastUsed(env: Env, msg: Message): nat
    requires Formed(env, msg) && Intrinsic(env, msg).Success?
  {
    Max(MostRefunded(env, Intrinsic(env, msg).value), Floor(env, msg))
  }

  /** However much gas is used, what is received and burnt is what is taken. */
  predicate Balanced(env: Env, msg: Message)
    requires Formed(env, msg) && Intrinsic(env, msg).Success?
  {
    forall used | LeastUsed(env, msg) <= used <= msg.gasLimit ::
      Received(env, msg, used) + Burnt(env, msg, used) == Low256(Cost(env, msg))
  }

  /** The condition reads the message and the block, not the machine: what is taken does not
      exceed what is checked for, and is balanced unless it leaves no room for the value. */
  predicate Safe(env: Env, msg: Message)
    requires Formed(env, msg)
  {
    Viable(env, msg) ==>
      && Low256(Cost(env, msg)) <= Required(env, msg)
      && (Balanced(env, msg) || Low256(Cost(env, msg)) + msg.value >= WORD)
  }

  /** Where the cost fits 256 bits, it just must not exceed what is checked for. */
  lemma SafeIfCostFits(env: Env, msg: Message)
    requires Formed(env, msg) && Cost(env, msg) < WORD
    ensures Safe(env, msg) <==> (Viable(env, msg) ==> Cost(env, msg) <= Required(env, msg))
  {
    SmallIsLow(Cost(env, msg));
    if Viable(env, msg) {
      forall used | LeastUsed(env, msg) <= used <= msg.gasLimit
        ensures Received(env, msg, used) + Burnt(env, msg, used) == Cost(env, msg)
      {
        CostSplits(env, msg, used);
      }
    }
  }

  /** The cost is the gas returned, the fees, and what is burnt. */
  lemma CostIsSum(env: Env, msg: Message, left: nat, used: nat)
    requires left + used == msg.gasLimit
    ensures Cost(env, msg) ==
            left * msg.gasPrice + (used * Tip(env, msg) + BlobFeePaid(env, msg)) + Burnt(env, msg, used)
  {
    SplitPrice(msg.gasLimit, left, env, msg);
  }

  lemma CostParts(env: Env, msg: Message, used: nat) returns (back: nat, fees: nat, burnt: nat)
    requires used <= msg.gasLimit
    ensures Cost(env, msg) == back + fees + burnt && Burnt(env, msg, used) == burnt
    ensures Received(env, msg, used) == Joined(msg.from == Recipient(env), back, fees)
  {
    var left: nat := msg.gasLimit - used;
    back, fees, burnt := left * msg.gasPrice, used * Tip(env, msg) + BlobFeePaid(env, msg), Burnt(env, msg, used);
    CostIsSum(env, msg, left, used);
  }

  lemma CostSplits(env: Env, msg: Message, used: nat)
    requires used <= msg.gasLimit && Cost(env, msg) < WORD
    ensures Received(env, msg, used) + Burnt(env, msg, used) == Cost(env, msg)
  {
    var back, fees, burnt := CostParts(env, msg, used);
    JoinedPlain(msg.from == Recipient(env), back, fees);
  }

  // ---------------------------------------------------------------------------------
  // Safe messages conserve
  // ---------------------------------------------------------------------------------

  /** What executes at all is viable, and leaves room for the value. */
  lemma ExecutedIsViable(env: Env, msg: Message, s: State, pool: nat)
    requires Formed(env, msg) && Sound(env.vm)
    ensures Execute(env, msg, s, pool).Success? ==>
              && Viable(env, msg) && Required(env, msg) <= Balance(s, msg.from)
              && msg.value <= Balance(Bought(env, msg, s), msg.from)
  {
    ExecuteAccepts(env, msg, s, pool);
  }

  /** Using more, one pays for no less. */
  lemma RefundedMono(env: Env, least: nat, gas: nat, counter: nat)
    requires least <= gas
    ensures MostRefunded(env, least) <= gas - Min(gas / (if env.london then 5 else 2), counter)
  {
    assert MostRefunded(env, least) <= MostRefunded(env, gas);
  }

  lemma BooksUseTheLeast(env: Env, msg: Message, out: Outcome, pool: nat, d: Done)
    requires Formed(env, msg) && Intrinsic(env, msg).Success? && out.gasLeft + Intrinsic(env, msg).value <= msg.gasLimit
    requires GasBooks(env, msg, out, pool, d)
    ensures LeastUsed(env, msg) <= d.usedGas <= msg.gasLimit
  {
    RefundedMono(env, Intrinsic(env, msg).value, msg.gasLimit - out.gasLeft, out.state.refund);
  }

  /** A run uses at least the least. */
  lemma UsesTheLeast(env: Env, msg: Message, s: State, pool: nat)
    requires Formed(env, msg) && Sound(env.vm)
    ensures Execute(env, msg, s, pool).Success? ==>
              && Intrinsic(env, msg).Success?
              && LeastUsed(env, msg) <= Execute(env, msg, s, pool).value.usedGas <= msg.gasLimit
  {
    GasIsExact(env, msg, s, pool);
    if Execute(env, msg, s, pool).Success? {
      BooksUseTheLeast(env, msg, Ran(env, msg, s), pool, Execute(env, msg, s, pool).value);
    }
  }

  lemma SafeConserves(env: Env, msg: Message, s: State, pool: nat)
    requires Formed(env, msg) && Sound(env.vm) && Total(s) < WORD && Safe(env, msg)
    ensures Conserves(env, msg, s, pool)
  {
    ExecutedIsViable(env, msg, s, pool);
    if Execute(env, msg, s, pool).Success? {
      Opened(env, msg, s, pool);
      UsesTheLeast(env, msg, s, pool);
      var low := Low256(Cost(env, msg));
      Debit(s, msg.from, low);
      BalanceWithinTotal(s, msg.from);
      SettlesBalanced(env, msg, Ran(env, msg, s), pool, Total(s));
    }
  }

  lemma SettlesBalanced(env: Env, msg: Message, out: Outcome, pool: nat, supply: nat)
    requires Formed(env, msg) && msg.gasLimit <= pool && out.gasLeft <= msg.gasLimit && Floor(env, msg) <= msg.gasLimit
    requires supply < WORD && Total(out.state) == supply - Low256(Cost(env, msg)) && msg.gasPrice < WORD
    ensures Settled(env, msg, out, pool).Success?
    ensures var d := Settled(env, msg, out, pool).value;
            d.usedGas <= msg.gasLimit
            && (Received(env, msg, d.usedGas) + Burnt(env, msg, d.usedGas) == Low256(Cost(env, msg)) ==>
                  Total(d.state) == supply - Burnt(env, msg, d.usedGas))
  {
    var used := msg.gasLimit - Remaining(env, msg, out);
    if Received(env, msg, used) + Burnt(env, msg, used) == Low256(Cost(env, msg)) {
      MulMono(used, 0, BurntPerGas(env, msg));
      FitsTheSupply(env, msg, out.state, used);
      PayoutIsReceived(env, msg, out.state, used);
    }
  }

  // ---------------------------------------------------------------------------------
  // Other messages do not
  // ---------------------------------------------------------------------------------

  /** A machine that takes all wei to the account `sink`, and leaves so much gas and such a
      refund counter. */
  function Draining(sink: Address, left: nat, refund: Uint64): Vm {
    Vm((s: State, m: Message, g: nat) => Outcome(Drained(s, sink, refund), Min(left, g), false),
       (s: State, m: Message, g: nat) => Outcome(Drained(s, sink, refund), Min(left, g), false),
       (s: State, m: Message, g: nat) => HookResult(s, g, false))
  }

  function Drained(s: State, sink: Address, refund: Uint64): State {
    s.(wei := multiset{}[sink := |s.wei|], refund := refund)
  }

  lemma DrainingIsSound(sink: Address, left: nat, refund: Uint64)
    ensures Sound(Draining(sink, left, refund))
  {
  }

  lemma DrainingDrains(sink: Address, left: nat, refund: Uint64, s: State, m: Message, gas: nat)
    requires left <= gas
    ensures var vm := Draining(sink, left, refund);
            vm.call(s, m, gas) == vm.construct(s, m, gas) == Outcome(Drained(s, sink, refund), left, false)
            && vm.hook(s, m, gas) == HookResult(s, gas, false)
  {
  }

  lemma InvokeDrains(env: Env, msg: Message, b: State, gas: nat, sink: Address, left: nat, refund: Uint64)
    requires env.vm == Draining(sink, left, refund) && left <= gas
    requires CanTransfer(b, msg.from, msg.value) && Nonce(b, msg.from) < UINT64_MAX
    ensures var out := Invoke(env, msg, b, gas);
            out.gasLeft == left && out.state.refund == refund && out.state.wei == multiset{}[sink := Total(b)]
  {
    if msg.to.None? {
      DrainingDrains(sink, left, refund, b, msg, gas);
      DrainingDrains(sink, left, refund, SetNonce(b, msg.from, Nonce(b, msg.from) + 1), msg, gas);
    } else {
      if msg.auths.Some? {
        AuthsKeepWei(env, SetNonce(b, msg.from, Wrap64(Nonce(b, msg.from) + 1)), msg.auths.value);
      }
      DrainingDrains(sink, left, refund, Prepared(env, msg, b), msg, gas);
    }
  }

  /** The gas a run that ends up using `used` leaves before any refund, and its refund. */
  function LeftFor(gas: nat, msg: Message, used: nat): nat
    requires gas <= msg.gasLimit && used <= msg.gasLimit
  {
    msg.gasLimit - Max(used, gas)
  }

  function RefundFor(gas: Uint64, used: nat): Uint64 { Max(used, gas) - used }

  /** Any amount from the least to the limit can be used. */
  lemma UsesExactly(env: Env, msg: Message, out: Outcome, used: nat)
    requires Formed(env, msg) && Intrinsic(env, msg).Success? && Intrinsic(env, msg).value <= msg.gasLimit
    requires LeastUsed(env, msg) <= used <= msg.gasLimit
    requires out.gasLeft == LeftFor(Intrinsic(env, msg).value, msg, used)
    requires out.state.refund == RefundFor(Intrinsic(env, msg).value, used)
    ensures Floor(env, msg) <= msg.gasLimit && Remaining(env, msg, out) == msg.gasLimit - used
  {
    RemainingIsExact(env, msg, out);
  }

  lemma RanDrained(env: Env, msg: Message, s: State, sink: Address, left: nat, refund: Uint64)
    requires Formed(env, msg) && ReadyError(env, msg, Bought(env, msg, s)).None? && Nonce(s, msg.from) < UINT64_MAX
    requires env.vm == Draining(sink, left, refund) && left + Intrinsic(env, msg).value <= msg.gasLimit
    ensures var out := Ran(env, msg, s);
            && out.gasLeft == left && out.state.refund == refund
            && out.state.wei == multiset{}[sink := Total(Bought(env, msg, s))]
  {
    ReadyMeansRunnable(env, msg, Bought(env, msg, s));
    InvokeDrains(env, msg, Bought(env, msg, s), msg.gasLimit - Intrinsic(env, msg).value, sink, left, refund);
  }

  /** Drained, a message that uses so much gas leaves what was left after buying and what is
      received. */
  lemma DrainedSupply(env: Env, msg: Message, s: State, used: nat, sink: Address)
    requires Formed(env, msg) && Intrinsic(env, msg).Success? && Intrinsic(env, msg).value <= msg.gasLimit
    requires LeastUsed(env, msg) <= used <= msg.gasLimit && sink != msg.from && sink != Recipient(env)
    requires var i := Intrinsic(env, msg).value; env.vm == Draining(sink, LeftFor(i, msg, used), RefundFor(i, used))
    ensures Sound(env.vm)
    ensures Execute(env, msg, s, msg.gasLimit).Success? && Nonce(s, msg.from) < UINT64_MAX ==>
              var d := Execute(env, msg, s, msg.gasLimit).value;
              d.usedGas == used && Total(d.state) == Total(Bought(env, msg, s)) + Received(env, msg, used)
  {
    var i := Intrinsic(env, msg).value;
    DrainingIsSound(sink, LeftFor(i, msg, used), RefundFor(i, used));
    Opened(env, msg, s, msg.gasLimit);
    if Execute(env, msg, s, msg.gasLimit).Success? && Nonce(s, msg.from) < UINT64_MAX {
      RanDrained(env, msg, s, sink, LeftFor(i, msg, used), RefundFor(i, used));
      DrainedPays(env, msg, Ran(env, msg, s), used, sink);
    }
  }

  lemma DrainedPays(env: Env, msg: Message, out: Outcome, used: nat, sink: Address)
    requires Formed(env, msg) && Intrinsic(env, msg).Success? && Intrinsic(env, msg).value <= msg.gasLimit
    requires LeastUsed(env, msg) <= used <= msg.gasLimit
    requires out.gasLeft == LeftFor(Intrinsic(env, msg).value, msg, used)
    requires out.state.refund == RefundFor(Intrinsic(env, msg).value, used)
    requires sink != msg.from && sink != Recipient(env) && out.state.wei == multiset{}[sink := Total(out.state)]
    ensures Floor(env, msg) <= msg.gasLimit
    ensures Settled(env, msg, out, msg.gasLimit).Success? ==>
              var d := Settled(env, msg, out, msg.gasLimit).value;
              d.usedGas == used && Total(d.state) == Total(out.state) + Received(env, msg, used)
  {
    UsesExactly(env, msg, out, used);
    if msg.gasPrice < WORD {
      assert Balance(out.state, msg.from) == 0 && Balance(out.state, Recipient(env)) == 0;
      PayoutIsReceived(env, msg, out.state, used);
    }
  }

  /** The amount the sender should hold for the failure to show: what is checked for if the
      debit then wraps, otherwise as much as there can be. */
  function Telling(env: Env, msg: Message): nat
    requires Formed(env, msg)
  {
    if Low256(Cost(env, msg)) > Required(env, msg) then Required(env, msg) else WORD - 1
  }

  lemma ValueIsRequired(env: Env, msg: Message)
    requires Formed(env, msg)
    ensures msg.value <= Required(env, msg)
  {
    MulMono(msg.gasLimit, 0, if msg.gasFeeCap.Some? then msg.gasFeeCap.value else msg.gasPrice);
    if env.cancun && BlobGas(msg) > 0 {
      MulMono(BlobGas(msg), 0, msg.blobGasFeeCap.value);
    }
  }

  lemma WrapsOnce(x: int)
    requires -WORD <= x < 0
    ensures x % WORD == x + WORD
  {
    assert x == WORD * -1 + (x + WORD);
  }

  /** The only holder pays, with a wrap if it has to. */
  lemma HoldingPays(msg: Message, amount: nat, price: nat)
    requires amount < WORD && price < WORD
    ensures var b := SubBalance(Holding(msg, amount), msg.from, price);
            Balance(b, msg.from) == Total(b) == amount - price + if price > amount then WORD else 0
  {
    if price > amount {
      WrapsOnce(amount - price);
    }
  }

  /** In that state gas is bought, with or without a wrap, and the value is still there. */
  lemma TellingBuys(env: Env, msg: Message)
    requires Formed(env, msg) && Required(env, msg) < WORD
    requires Low256(Cost(env, msg)) > Required(env, msg) || Low256(Cost(env, msg)) + msg.value < WORD
    ensures var low, b := Low256(Cost(env, msg)), Bought(env, msg, Holding(msg, Telling(env, msg)));
            && Balance(b, msg.from) == Total(b) && msg.value <= Total(b)
            && Total(b) == Telling(env, msg) - low + if low > Required(env, msg) then WORD else 0
  {
    ValueIsRequired(env, msg);
    HoldingPays(msg, Telling(env, msg), Low256(Cost(env, msg)));
  }

  lemma TellingExecutes(env: Env, msg: Message)
    requires Formed(env, msg) && Sound(env.vm)
    requires Low256(Cost(env, msg)) > Required(env, msg) || Low256(Cost(env, msg)) + msg.value < WORD
    ensures Viable(env, msg) ==> Execute(env, msg, Holding(msg, Telling(env, msg)), msg.gasLimit).Success?
  {
    if Viable(env, msg) {
      TellingBuys(env, msg);
      ExecuteAccepts(env, msg, Holding(msg, Telling(env, msg)), msg.gasLimit);
    }
  }

  /** The gas use that tells: any if the debit wraps, otherwise one that is not balanced. */
  predicate Tells(env: Env, msg: Message, used: nat)
    requires Formed(env, msg) && Intrinsic(env, msg).Success?
  {
    && LeastUsed(env, msg) <= used <= msg.gasLimit
    && (Low256(Cost(env, msg)) > Required(env, msg)
        || (Low256(Cost(env, msg)) + msg.value < WORD
            && Received(env, msg, used) + Burnt(env, msg, used) != Low256(Cost(env, msg))))
  }

  lemma UnsafeTells(env: Env, msg: Message) returns (used: nat)
    requires Formed(env, msg) && !Safe(env, msg)
    ensures Tells(env, msg, used)
  {
    if Low256(Cost(env, msg)) > Required(env, msg) {
      used := msg.gasLimit;
    } else {
      used :| LeastUsed(env, msg) <= used <= msg.gasLimit
              && Received(env, msg, used) + Burnt(env, msg, used) != Low256(Cost(env, msg));
    }
  }

  /** Then the supply in the end is not what it should be. */
  lemma SupplyIsOff(env: Env, msg: Message, used: nat)
    requires Formed(env, msg) && Required(env, msg) < WORD && Intrinsic(env, msg).Success? && Tells(env, msg, used)
    ensures Total(Bought(env, msg, Holding(msg, Telling(env, msg)))) + Received(env, msg, used)
            != Total(Holding(msg, Telling(env, msg))) - Burnt(env, msg, used)
  {
    TellingBuys(env, msg);
    MulMono(used, 0, BurntPerGas(env, msg));
  }

  /** Under the draining machine the books do not balance. */
  lemma DrainedFails(env: Env, msg: Message, used: nat, sink: Address)
    requires Formed(env, msg) && Intrinsic(env, msg).Success? && Intrinsic(env, msg).value <= msg.gasLimit
    requires Tells(env, msg, used) && sink != msg.from && sink != Recipient(env)
    requires var i := Intrinsic(env, msg).value; env.vm == Draining(sink, LeftFor(i, msg, used), RefundFor(i, used))
    ensures Sound(env.vm) && (Viable(env, msg) ==> !Conserves(env, msg, Holding(msg, Telling(env, msg)), msg.gasLimit))
  {
    var s := Holding(msg, Telling(env, msg));
    DrainedSupply(env, msg, s, used, sink);
    if Viable(env, msg) {
      TellingExecutes(env, msg);
      SupplyIsOff(env, msg, used);
    }
  }

  // ---------------------------------------------------------------------------------
  // The condition does not read the machine
  // ---------------------------------------------------------------------------------

  lemma FormedReadsNoMachine(env: Env, vm: Vm, msg: Message)
    ensures Formed(env.(vm := vm), msg) <==> Formed(env, msg)
  {
  }

  lemma CostReadsNoMachine(env: Env, vm: Vm, msg: Message)
    requires Formed(env, msg) && Formed(env.(vm := vm), msg)
    ensures Required(env.(vm := vm), msg) == Required(env, msg) && Cost(env.(vm := vm), msg) == Cost(env, msg)
    ensures Intrinsic(env.(vm := vm), msg) == Intrinsic(env, msg)
  {
    assert Rules(env.(vm := vm)) == Rules(env);
  }

  lemma AdmittedReadsNoMachine(env: Env, vm: Vm, msg: Message, s: State)
    requires Formed(env, msg) && Formed(env.(vm := vm), msg)
    ensures Admitted(env.(vm := vm), msg, s) <==> Admitted(env, msg, s)
  {
    assert Exempt(env.(vm := vm), msg) <==> Exempt(env, msg);
  }

  lemma ViableReadsNoMachine(env: Env, vm: Vm, msg: Message)
    requires Formed(env, msg) && Formed(env.(vm := vm), msg)
    ensures Viable(env.(vm := vm), msg) <==> Viable(env, msg)
  {
    CostReadsNoMachine(env, vm, msg);
    AdmittedReadsNoMachine(env, vm, msg, Holding(msg, 0));
  }

  lemma BalancedReadsNoMachine(env: Env, vm: Vm, msg: Message)
    requires Formed(env, msg) && Formed(env.(vm := vm), msg)
    requires Intrinsic(env, msg).Success? && Intrinsic(env.(vm := vm), msg) == Intrinsic(env, msg)
    ensures LeastUsed(env.(vm := vm), msg) == LeastUsed(env, msg)
    ensures forall used: nat | used <= msg.gasLimit ::
              Received(env.(vm := vm), msg, used) == Received(env, msg, used)
              && Burnt(env.(vm := vm), msg, used) == Burnt(env, msg, used)
  {
  }

  lemma SafeReadsNoMachine(env: Env, vm: Vm, msg: Message)
    requires Formed(env, msg)
    ensures Formed(env.(vm := vm), msg) && (Safe(env.(vm := vm), msg) <==> Safe(env, msg))
  {
    FormedReadsNoMachine(env, vm, msg);
    CostReadsNoMachine(env, vm, msg);
    ViableReadsNoMachine(env, vm, msg);
    if Viable(env, msg) {
      BalancedReadsNoMachine(env, vm, msg);
    }
  }

  // ---------------------------------------------------------------------------------
  // Both ways
  // ---------------------------------------------------------------------------------

  function Above(a: int, b: int): (c: int)
    ensures c != a && c != b
  {
    1 + if a >= b then a else b
  }

  /** A message conserves wei in every state and under every machine if and only if what
      buying takes from it, in 256 bits, does not exceed what is checked for and equals what
      is received and burnt in the end, however much gas is used - or it never executes. */
  lemma AlwaysConservesIff(env: Env, msg: Message)
    requires Formed(env, msg)
    ensures AlwaysConserves(env, msg) <==> Safe(env, msg)
  {
    if Safe(env, msg) {
      SafeAlwaysConserves(env, msg);
    } else {
      UnsafeFails(env, msg);
    }
  }

  lemma SafeAlwaysConserves(env: Env, msg: Message)
    requires Formed(env, msg) && Safe(env, msg)
    ensures AlwaysConserves(env, msg)
  {
    forall vm: Vm, s: State, pool: nat | Sound(vm) && Total(s) < WORD
      ensures Conserves(env.(vm := vm), msg, s, pool)
    {
      SafeUnder(env, vm, msg, s, pool);
    }
  }

  lemma SafeUnder(env: Env, vm: Vm, msg: Message, s: State, pool: nat)
    requires Formed(env, msg) && Safe(env, msg) && Sound(vm) && Total(s) < WORD
    ensures Formed(env.(vm := vm), msg) && Conserves(env.(vm := vm), msg, s, pool)
  {
    SafeReadsNoMachine(env, vm, msg);
    SafeConserves(env.(vm := vm), msg, s, pool);
  }

  lemma UnsafeFails(env: Env, msg: Message)
    requires Formed(env, msg) && !Safe(env, msg)
    ensures !AlwaysConserves(env, msg)
  {
    var used := UnsafeTells(env, msg);
    var i, sink := Intrinsic(env, msg).value, Above(msg.from, Recipient(env));
    var vm := Draining(sink, LeftFor(i, msg, used), RefundFor(i, used));
    FormedReadsNoMachine(env, vm, msg);
    CostReadsNoMachine(env, vm, msg);
    ViableReadsNoMachine(env, vm, msg);
    BalancedReadsNoMachine(env, vm, msg);
    DrainedFails(env.(vm := vm), msg, used, sink);
    var s := Holding(msg, Telling(env, msg));
    assert Total(s) < WORD;
    assert !Conserves(env.(vm := vm), msg, s, msg.gasLimit);
  }

  // ---------------------------------------------------------------------------------
  // One message
  // ---------------------------------------------------------------------------------

  /** A block with blobs, run with base-fee checks off and a blob base fee of one wei. */
  predicate UncheckedBlobs(env: Env) {
    env.noBaseFee && env.london && env.cancun && env.blobBaseFee == 1
  }

  /** A free message with one blob and a blob fee cap of zero. */
  predicate FreeBlob(env: Env, msg: Message) {
    && msg.to.Some? && msg.nonce == 0 && msg.value == 0 && msg.gasLimit == 21000 && msg.gasPrice == 0
    && msg.gasFeeCap == Some(0) && msg.gasTipCap == 0 && msg.data == [] && msg.accessList.None?
    && msg.blobGasFeeCap == Some(0) && msg.blobHashes == Some([1]) && msg.auths.None?
    && !OnBlackList(env, msg)
  }

  predicate NothingYet(s: State) {
    s.wei == multiset{} && s.nonces == map[] && s.codes == map[]
  }

  lemma FreeBlobNumbers(env: Env, msg: Message)
    requires UncheckedBlobs(env) && FreeBlob(env, msg)
    ensures Formed(env, msg) && BlobGas(msg) == 131072 && Cost(env, msg) == 131072 && Required(env, msg) == 0
    ensures Intrinsic(env, msg) == Success(21000) && FloorDataGas(msg.data) == Success(21000)
  {
    assert msg.gasLimit * msg.gasPrice == 0;
    assert DataGas(BaseGas(false, Rules(env)), [], false, Rules(env)) == Success(TX_GAS);
  }

  lemma FreeBlobIsAdmitted(env: Env, msg: Message, s: State)
    requires UncheckedBlobs(env) && FreeBlob(env, msg) && NothingYet(s)
    ensures Formed(env, msg) && Admitted(env, msg, s)
    ensures forall b :: Runnable(env, msg, b)
  {
    FreeBlobNumbers(env, msg);
  }

  /** In BSC mode and outside it, some machine makes wei with it. */
  lemma FreeBlobIsUnsafe(env: Env, msg: Message)
    requires UncheckedBlobs(env) && FreeBlob(env, msg)
    ensures Formed(env, msg) && !AlwaysConserves(env, msg)
  {
    FreeBlobNumbers(env, msg);
    FreeBlobIsAdmitted(env, msg, State(multiset{}, map[], map[], {}, 0));
    SmallIsLow(131072);
    assert Viable(env, msg);
    AlwaysConservesIff(env, msg);
  }

  lemma FreeBlobPasses(env: Env, msg: Message, s: State)
    requires UncheckedBlobs(env) && Sound(env.vm) && FreeBlob(env, msg) && NothingYet(s)
    ensures Formed(env, msg) && Execute(env, msg, s, 21000).Success?
    ensures Total(Bought(env, msg, s)) == WORD - 131072
  {
    FreeBlobNumbers(env, msg);
    FreeBlobIsAdmitted(env, msg, s);
    SmallIsLow(131072);
    assert Balance(Bought(env, msg, s), msg.from) == WORD - 131072;
    ExecuteAccepts(env, msg, s, 21000);
  }

  /** Outside BSC mode every machine does: it executes on an empty state and leaves a supply
      of 2^256 - 131072 wei. */
  lemma FreeBlobMakesWei(env: Env, msg: Message, s: State)
    requires UncheckedBlobs(env) && !env.inBsc && Sound(env.vm) && FreeBlob(env, msg) && NothingYet(s)
    ensures Formed(env, msg) && Execute(env, msg, s, 21000).Success?
    ensures Total(s) == 0 && Total(Execute(env, msg, s, 21000).value.state) == WORD - 131072
    ensures !Conserves(env, msg, s, 21000)
  {
    FreeBlobPasses(env, msg, s);
    Opened(env, msg, s, 21000);
    var out := Ran(env, msg, s);
    var left := Remaining(env, msg, out);
    NoPriceNoPayout(env, msg, out.state, left, msg.gasLimit - left);
    MulMono(Execute(env, msg, s, 21000).value.usedGas, 0, BurntPerGas(env, msg));
    FreeBlobNumbers(env, msg);
  }

  /** At a gas price of zero and outside BSC mode nothing is paid out. */
  lemma NoPriceNoPayout(env: Env, msg: Message, s: State, left: nat, used: nat)
    requires msg.gasPrice == 0 && !env.inBsc && Total(s) < WORD
    ensures Total(Rewarded(env, msg, Returned(msg, s, left), used)) == Total(s)
  {
    assert left * msg.gasPrice == 0 && used * Tip(env, msg) == 0;
    SmallIsLow(0);
    Credit(s, msg.from, 0);
    Credit(AddBalance(s, msg.from, 0), env.coinbase, 0);
  }
}
