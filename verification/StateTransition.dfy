/** The state transition object: it mutates the shared account state and gas pool step by
    step, and ends where the specification of a message says. */
module StateTransition {
  import opened Wrappers
  import opened Gas
  import opened Accounts
  import opened Messages
  import Spec = Transition

  class StateDb {
    var s: State

    constructor (s: State)
      ensures this.s == s
    {
      this.s := s;
    }
  }

  datatype ExecutionResult = ExecutionResult(usedGas: nat, maxUsedGas: nat, failed: bool)

  class Transition {
    const env: Env
    const msg: Message
    const gp: GasPool
    const db: StateDb
    var gasRemaining: Uint64
    var initialGas: Uint64

    constructor (env: Env, msg: Message, gp: GasPool, db: StateDb)
      ensures this.env == env && this.msg == msg && this.gp == gp && this.db == db
    {
      this.env, this.msg, this.gp, this.db := env, msg, gp, db;
      gasRemaining, initialGas := 0, 0;
    }

    /** buyGas: refuses, changing nothing, or takes the cost and the gas. */
    method BuyGas() returns (err: Option<Spec.TxError>)
      requires Formed(env, msg)
      modifies this, gp, db
      ensures err == Spec.BuyGasError(env, msg, old(db.s), old(gp.gas))
      ensures err.Some? ==> db.s == old(db.s) && gp.gas == old(gp.gas)
      ensures err.None? ==>
                && db.s == Spec.Bought(env, msg, old(db.s))
                && msg.gasLimit <= old(gp.gas) && gp.gas == old(gp.gas) - msg.gasLimit
                && gasRemaining == msg.gasLimit && initialGas == msg.gasLimit
    {
      var mgval := msg.gasLimit * msg.gasPrice;
      var check := mgval;
      if msg.gasFeeCap.Some? {
        check := msg.gasLimit * msg.gasFeeCap.value;
      }
      check := check + msg.value;
      if env.cancun {
        var blobGas := BlobGas(msg);
        if blobGas > 0 {
          check := check + blobGas * msg.blobGasFeeCap.value;
          mgval := mgval + blobGas * env.blobBaseFee;
        }
      }
      assert check == Spec.Required(env, msg) && mgval == Spec.Cost(env, msg);
      if check >= WORD {
        return Some(Spec.InsufficientFunds);
      }
      if Balance(db.s, msg.from) < check {
        return Some(Spec.InsufficientFunds);
      }
      var ok := gp.SubGas(msg.gasLimit);
      if !ok {
        return Some(Spec.GasLimitReached);
      }
      gasRemaining := msg.gasLimit;
      initialGas := msg.gasLimit;
      db.s := SubBalance(db.s, msg.from, Low256(mgval));
      return None;
    }

    /** The loop over blob hashes. */
    method CheckVersions(hashes: seq<Byte>) returns (ok: bool)
      ensures ok <==> Spec.ValidVersions(hashes)
    {
      for i := 0 to |hashes|
        invariant forall j | 0 <= j < i :: hashes[j] == 1
      {
        if hashes[i] != 1 {
          return false;
        }
      }
      return true;
    }

    /** preCheck: the first check that fails, in order, or the gas bought. */
    method PreCheck() returns (err: Option<Spec.TxError>)
      requires Formed(env, msg)
      modifies this, gp, db
      ensures err == Spec.Or(Spec.PreCheckError(env, msg, old(db.s)), Spec.BuyGasError(env, msg, old(db.s), old(gp.gas)))
      ensures err.Some? ==> db.s == old(db.s) && gp.gas == old(gp.gas)
      ensures err.None? ==>
                && db.s == Spec.Bought(env, msg, old(db.s))
                && msg.gasLimit <= old(gp.gas) && gp.gas == old(gp.gas) - msg.gasLimit
                && gasRemaining == msg.gasLimit && initialGas == msg.gasLimit
    {
      if !msg.skipNonceChecks {
        var stNonce := Nonce(db.s, msg.from);
        if stNonce < msg.nonce {
          return Some(Spec.NonceTooHigh);
        } else if stNonce > msg.nonce {
          return Some(Spec.NonceTooLow);
        } else if Wrap64(stNonce + 1) < stNonce {
          return Some(Spec.NonceMax);
        }
      }
      if !msg.skipTransactionChecks {
        if env.osaka && msg.gasLimit > MAX_TX_GAS {
          return Some(Spec.GasLimitTooHigh);
        }
        if CodeAt(db.s, msg.from).Contract? {
          return Some(Spec.SenderNoEoa);
        }
      }
      err := CheckCaps();
      if err.Some? {
        return;
      }
      err := BuyGas();
    }

    /** The checks of preCheck that read the message and the block only. */
    method CheckCaps() returns (err: Option<Spec.TxError>)
      requires Formed(env, msg)
      ensures err == Spec.Or(Spec.CheckFees(env, msg),
                             Spec.Or(Spec.CheckBlobs(env, msg), Spec.Or(Spec.CheckBlobFee(env, msg), Spec.CheckAuths(msg))))
    {
      if env.london {
        var cap := msg.gasFeeCap.value;
        if !(env.noBaseFee && cap == 0 && msg.gasTipCap == 0) {
          if cap >= WORD {
            return Some(Spec.FeeCapVeryHigh);
          }
          if msg.gasTipCap >= WORD {
            return Some(Spec.TipVeryHigh);
          }
          if cap < msg.gasTipCap {
            return Some(Spec.TipAboveFeeCap);
          }
          var free := msg.to.Some? && msg.from == env.coinbase && msg.gasPrice == 0;
          var isSystemTx := free && msg.to.value in env.systemContracts;
          var isPepper8Deposit := free && msg.to.value == env.pepper8;
          var isPipe8Deposit := free && msg.to.value == env.pipe8;
          if !isSystemTx && !isPepper8Deposit && !isPipe8Deposit && cap < env.baseFee {
            return Some(Spec.FeeCapTooLow);
          }
        }
      }
      if msg.blobHashes.Some? {
        if msg.to.None? {
          return Some(Spec.BlobTxCreate);
        }
        if |msg.blobHashes.value| == 0 {
          return Some(Spec.MissingBlobHashes);
        }
        if env.osaka && |msg.blobHashes.value| > BLOB_TX_MAX_BLOBS {
          return Some(Spec.TooManyBlobs);
        }
        var ok := CheckVersions(msg.blobHashes.value);
        if !ok {
          return Some(Spec.InvalidBlobHash);
        }
      }
      if env.cancun && BlobGas(msg) > 0 {
        if !(env.noBaseFee && msg.blobGasFeeCap.value == 0) {
          if msg.blobGasFeeCap.value < env.blobBaseFee {
            return Some(Spec.BlobFeeCapTooLow);
          }
        }
      }
      if msg.auths.Some? {
        if msg.to.None? {
          return Some(Spec.SetCodeTxCreate);
        }
        if |msg.auths.value| == 0 {
          return Some(Spec.EmptyAuthList);
        }
      }
      return None;
    }

    method ValidateAuthorization(auth: Authorization) returns (authority: Option<Address>)
      ensures authority == Spec.Authority(env, db.s, auth)
    {
      if auth.chainId != 0 && auth.chainId != env.chainId {
        return None;
      }
      if Wrap64(auth.nonce + 1) < auth.nonce {
        return None;
      }
      if auth.authority.None? {
        return None;
      }
      var a := auth.authority.value;
      if a in env.blackList {
        return None;
      }
      if CodeAt(db.s, a).Contract? {
        return None;
      }
      if Nonce(db.s, a) != auth.nonce {
        return None;
      }
      return Some(a);
    }

    /** applyAuthorization: an invalid authorization is skipped. */
    method ApplyAuthorization(auth: Authorization)
      modifies db
      ensures db.s == Spec.ApplyAuth(env, old(db.s), auth)
    {
      var authority := ValidateAuthorization(auth);
      if authority.None? {
        return;
      }
      var a := authority.value;
      if a in db.s.live {
        db.s := AddRefund(db.s, CALL_NEW_ACCOUNT_GAS - TX_AUTH_TUPLE_GAS);
      }
      db.s := SetNonce(db.s, a, auth.nonce + 1);
      if auth.target == ZERO_ADDRESS {
        db.s := SetCode(db.s, a, NoCode);
        return;
      }
      db.s := SetCode(db.s, a, Delegation(auth.target));
    }

    method ApplyAuthorizations(auths: seq<Authorization>)
      modifies db
      ensures db.s == Spec.ApplyAuths(env, old(db.s), auths)
    {
      for i := 0 to |auths|
        invariant db.s == Spec.ApplyAuths(env, old(db.s), auths[..i])
      {
        assert auths[..i + 1][..i] == auths[..i] && auths[..i + 1][i] == auths[i];
        ApplyAuthorization(auths[i]);
      }
      assert auths[..|auths|] == auths;
    }

    function GasUsed(): int
      reads this
    {
      initialGas - gasRemaining
    }

    /** calcRefund: capped to a share of the gas used. */
    method CalcRefund() returns (refund: nat)
      requires gasRemaining <= initialGas
      ensures refund == Spec.Refund(env, GasUsed(), db.s.refund)
    {
      refund := if env.london then GasUsed() / 5 else GasUsed() / 2;
      if refund > db.s.refund {
        refund := db.s.refund;
      }
    }

    /** returnGas: false where the program panics, on a price beyond 256 bits or a pool
        beyond 64. */
    method ReturnGas() returns (ok: bool)
      modifies gp, db
      ensures ok <==> msg.gasPrice < WORD && old(gp.gas) + gasRemaining <= UINT64_MAX
      ensures ok ==> db.s == Spec.Returned(msg, old(db.s), gasRemaining) && gp.gas == old(gp.gas) + gasRemaining
    {
      if msg.gasPrice >= WORD {
        return false;
      }
      db.s := AddBalance(db.s, msg.from, Low256(gasRemaining * msg.gasPrice));
      ok := gp.AddGas(gasRemaining);
    }

    /** The reward of the fee recipient. */
    method PayFees()
      requires 0 <= GasUsed()
      modifies db
      ensures db.s == Spec.Rewarded(env, msg, old(db.s), GasUsed())
    {
      var effectiveTip := msg.gasPrice;
      if env.london {
        effectiveTip := msg.gasPrice - env.baseFee;
      }
      if effectiveTip < 0 {
        effectiveTip := 0;
      }
      var fee := Low256(GasUsed() * Low256(effectiveTip));
      if env.inBsc {
        db.s := AddBalance(db.s, env.systemAddress, fee);
        if env.cancun {
          db.s := AddBalance(db.s, env.systemAddress, Low256(BlobGas(msg) * env.blobBaseFee));
        }
      } else {
        db.s := AddBalance(db.s, env.coinbase, fee);
      }
    }

    /** The consensus checks after gas was bought; what the message may spend is left. */
    method Ready() returns (err: Option<Spec.TxError>, floor: nat)
      requires Formed(env, msg) && gasRemaining == msg.gasLimit
      modifies this
      ensures err == Spec.ReadyError(env, msg, db.s)
      ensures err.None? ==>
                && floor == Spec.Floor(env, msg) <= msg.gasLimit
                && gasRemaining == msg.gasLimit - Spec.Intrinsic(env, msg).value
                && initialGas == old(initialGas)
    {
      floor := 0;
      if env.nano && Spec.OnBlackList(env, msg) {
        return Some(Spec.Blacklisted), 0;
      }
      var gas := Spec.Intrinsic(env, msg);
      if gas.Failure? {
        return Some(Spec.IntrinsicOverflow), 0;
      }
      if gasRemaining < gas.value {
        return Some(Spec.IntrinsicGasTooLow), 0;
      }
      if env.prague {
        var f := FloorDataGas(msg.data);
        if f.Failure? {
          return Some(Spec.IntrinsicOverflow), 0;
        }
        if msg.gasLimit < f.value {
          return Some(Spec.FloorDataGasTooLow), 0;
        }
        floor := f.value;
      }
      gasRemaining := gasRemaining - gas.value;
      if msg.value >= WORD {
        return Some(Spec.InsufficientFundsForTransfer), 0;
      }
      if msg.value != 0 && !CanTransfer(db.s, msg.from, msg.value) {
        return Some(Spec.InsufficientFundsForTransfer), 0;
      }
      if env.shanghai && msg.to.None? && |msg.data| > MAX_INIT_CODE_SIZE {
        return Some(Spec.MaxInitCodeSizeExceeded), 0;
      }
      return None, floor;
    }

    /** The call or creation. */
    method Run() returns (failed: bool)
      requires Sound(env.vm)
      modifies this, db
      ensures var out := Spec.Invoke(env, msg, old(db.s), old(gasRemaining));
              out.gasLeft <= old(gasRemaining) && db.s == out.state && gasRemaining == out.gasLeft && failed == out.failed
      ensures initialGas == old(initialGas)
    {
      Spec.InvokeKeeps(env, msg, db.s, gasRemaining);
      var out;
      if msg.to.None? {
        out := Spec.Create(env, msg, db.s, gasRemaining);
      } else {
        db.s := SetNonce(db.s, msg.from, Wrap64(Nonce(db.s, msg.from) + 1));
        if msg.auths.Some? {
          ApplyAuthorizations(msg.auths.value);
        }
        out := env.vm.call(db.s, msg, gasRemaining);
      }
      db.s, gasRemaining, failed := out.state, out.gasLeft, out.failed;
    }

    /** The capped refund, and the data floor of EIP-7623; the peak leaves refunds out. */
    method RefundGas(floor: nat, ghost out: Outcome) returns (peak: nat)
      requires Formed(env, msg) && floor == Spec.Floor(env, msg) <= msg.gasLimit && out.gasLeft <= msg.gasLimit
      requires initialGas == msg.gasLimit && gasRemaining == out.gasLeft && db.s == out.state
      modifies this
      ensures initialGas == msg.gasLimit && gasRemaining == Spec.Remaining(env, msg, out)
      ensures peak == if env.prague then Spec.Max(msg.gasLimit - out.gasLeft, floor) else msg.gasLimit - out.gasLeft
    {
      peak := GasUsed();
      var refund := CalcRefund();
      assert gasRemaining + refund <= initialGas;
      gasRemaining := gasRemaining + refund;
      if env.prague {
        if GasUsed() < floor {
          gasRemaining := initialGas - floor;
        }
        if peak < floor {
          peak := floor;
        }
      }
    }

    /** Refund, data floor, return of gas and fees, after the machine ended in `out`. */
    method Settle(floor: nat, failed: bool, ghost out: Outcome) returns (r: Result<ExecutionResult, Spec.TxError>)
      requires Formed(env, msg) && floor == Spec.Floor(env, msg) <= msg.gasLimit
      requires out.gasLeft <= msg.gasLimit && gp.gas + msg.gasLimit <= UINT64_MAX
      requires initialGas == msg.gasLimit && gasRemaining == out.gasLeft && db.s == out.state && failed == out.failed
      modifies this, gp, db
      ensures match Spec.Settled(env, msg, out, old(gp.gas) + msg.gasLimit)
              case Failure(e) => r == Failure(e)
              case Success(d) =>
                r == Success(ExecutionResult(d.usedGas, d.maxUsedGas, d.failed)) && db.s == d.state && gp.gas == d.pool
    {
      var peak := RefundGas(floor, out);
      var ok := ReturnGas();
      if !ok {
        return Failure(Spec.Panicked);
      }
      PayFees();
      return Success(ExecutionResult(GasUsed(), peak, failed));
    }

    /** execute: refines the message's specification. */
    method Execute() returns (r: Result<ExecutionResult, Spec.TxError>)
      requires Formed(env, msg) && Sound(env.vm)
      modifies this, gp, db
      ensures match Spec.Execute(env, msg, old(db.s), old(gp.gas))
              case Failure(e) => r == Failure(e)
              case Success(d) =>
                r == Success(ExecutionResult(d.usedGas, d.maxUsedGas, d.failed)) && db.s == d.state && gp.gas == d.pool
    {
      ghost var s0 := db.s;
      Spec.ExecuteSteps(env, msg, db.s, gp.gas);
      var err := PreCheck();
      if err.Some? {
        return Failure(err.value);
      }
      var floor;
      err, floor := Ready();
      if err.Some? {
        return Failure(err.value);
      }
      var failed := Run();
      r := Settle(floor, failed, Spec.Ran(env, msg, s0));
    }
  }
}
