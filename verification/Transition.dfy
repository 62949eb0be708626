/** What one message does to the account state and the block's gas pool. */
module Transition {
  import opened Wrappers
  import opened Gas
  import opened Accounts
  import opened Messages

  datatype TxError =
    | NonceTooHigh | NonceTooLow | NonceMax | GasLimitTooHigh | SenderNoEoa
    | FeeCapVeryHigh | TipVeryHigh | TipAboveFeeCap | FeeCapTooLow
    | BlobTxCreate | MissingBlobHashes | TooManyBlobs | InvalidBlobHash | BlobFeeCapTooLow
    | SetCodeTxCreate | EmptyAuthList
    | InsufficientFunds | GasLimitReached
    | Blacklisted | IntrinsicOverflow | IntrinsicGasTooLow | FloorDataGasTooLow
    | InsufficientFundsForTransfer | MaxInitCodeSizeExceeded
    | Panicked

  /** A finished message: the new state and pool, and the gas fields of its result. */
  datatype Done = Done(state: State, pool: nat, usedGas: nat, maxUsedGas: nat, failed: bool)

  // ---------------------------------------------------------------------------------
  // preCheck
  // ---------------------------------------------------------------------------------

  function CheckNonce(msg: Message, s: State): Option<TxError> {
    if msg.skipNonceChecks then None
    else if Nonce(s, msg.from) < msg.nonce then Some(NonceTooHigh)
    else if Nonce(s, msg.from) > msg.nonce then Some(NonceTooLow)
    else if msg.nonce == UINT64_MAX then Some(NonceMax)
    else None
  }

  function CheckSender(env: Env, msg: Message, s: State): Option<TxError> {
    if msg.skipTransactionChecks then None
    else if env.osaka && msg.gasLimit > MAX_TX_GAS then Some(GasLimitTooHigh)
    else if CodeAt(s, msg.from).Contract? then Some(SenderNoEoa)
    else None
  }

  /** Free transactions the coinbase sends to a system contract or one of the two deposit
      recipients need not meet the base fee. */
  predicate Exempt(env: Env, msg: Message) {
    msg.to.Some? && msg.from == env.coinbase && msg.gasPrice == 0
    && (msg.to.value in env.systemContracts || msg.to.value == env.pepper8 || msg.to.value == env.pipe8)
  }

  function CheckFees(env: Env, msg: Message): Option<TxError>
    requires Formed(env, msg)
  {
    if !env.london then None
    else if env.noBaseFee && msg.gasFeeCap.value == 0 && msg.gasTipCap == 0 then None
    else if msg.gasFeeCap.value >= WORD then Some(FeeCapVeryHigh)
    else if msg.gasTipCap >= WORD then Some(TipVeryHigh)
    else if msg.gasFeeCap.value < msg.gasTipCap then Some(TipAboveFeeCap)
    else if !Exempt(env, msg) && msg.gasFeeCap.value < env.baseFee then Some(FeeCapTooLow)
    else None
  }

  predicate ValidVersions(hashes: seq<Byte>) {
    forall i | 0 <= i < |hashes| :: hashes[i] == 1
  }

  function CheckBlobs(env: Env, msg: Message): Option<TxError> {
    if msg.blobHashes.None? then None
    else if msg.to.None? then Some(BlobTxCreate)
    else if msg.blobHashes.value == [] then Some(MissingBlobHashes)
    else if env.osaka && |msg.blobHashes.value| > BLOB_TX_MAX_BLOBS then Some(TooManyBlobs)
    else if !ValidVersions(msg.blobHashes.value) then Some(InvalidBlobHash)
    else None
  }

  function CheckBlobFee(env: Env, msg: Message): Option<TxError>
    requires Formed(env, msg)
  {
    if !env.cancun || BlobGas(msg) == 0 then None
    else if env.noBaseFee && msg.blobGasFeeCap.value == 0 then None
    else if msg.blobGasFeeCap.value < env.blobBaseFee then Some(BlobFeeCapTooLow)
    else None
  }

  function CheckAuths(msg: Message): Option<TxError> {
    if msg.auths.None? then None
    else if msg.to.None? then Some(SetCodeTxCreate)
    else if msg.auths.value == [] then Some(EmptyAuthList)
    else None
  }

  function Or(first: Option<TxError>, next: Option<TxError>): Option<TxError> {
    if first.Some? then first else next
  }

  /** Everything preCheck refuses before it buys gas, in its order. */
  function PreCheckError(env: Env, msg: Message, s: State): Option<TxError>
    requires Formed(env, msg)
  {
    Or(CheckNonce(msg, s),
       Or(CheckSender(env, msg, s),
          Or(CheckFees(env, msg),
             Or(CheckBlobs(env, msg),
                Or(CheckBlobFee(env, msg), CheckAuths(msg))))))
  }

  // ---------------------------------------------------------------------------------
  // buyGas
  // ---------------------------------------------------------------------------------

  function BlobFee(env: Env, msg: Message): nat {
    if env.cancun then BlobGas(msg) * env.blobBaseFee else 0
  }

  /** What is taken up front. */
  function Cost(env: Env, msg: Message): nat {
    msg.gasLimit * msg.gasPrice + BlobFee(env, msg)
  }

  /** What the sender must hold: gas and blobs at their caps, and the value. */
  function Required(env: Env, msg: Message): nat
    requires Formed(env, msg)
  {
    msg.gasLimit * (if msg.gasFeeCap.Some? then msg.gasFeeCap.value else msg.gasPrice)
    + msg.value
    + (if env.cancun && BlobGas(msg) > 0 then BlobGas(msg) * msg.blobGasFeeCap.value else 0)
  }

  function BuyGasError(env: Env, msg: Message, s: State, pool: nat): Option<TxError>
    requires Formed(env, msg)
  {
    if Required(env, msg) >= WORD || Balance(s, msg.from) < Required(env, msg) then Some(InsufficientFunds)
    else if pool < msg.gasLimit then Some(GasLimitReached)
    else None
  }

  function Bought(env: Env, msg: Message, s: State): State {
    SubBalance(s, msg.from, Low256(Cost(env, msg)))
  }

  // ---------------------------------------------------------------------------------
  // The checks between buying gas and running
  // ---------------------------------------------------------------------------------

  function Intrinsic(env: Env, msg: Message): Result<Uint64, GasError>
    requires Formed(env, msg)
  {
    IntrinsicGas(msg.data, msg.accessList,
                 if msg.auths.None? then None else Some(|msg.auths.value|), msg.to.None?, Rules(env))
  }

  predicate OnBlackList(env: Env, msg: Message) {
    msg.from in env.blackList || (msg.to.Some? && msg.to.value in env.blackList)
  }

  /** `s` is the state after buying gas. */
  function ReadyError(env: Env, msg: Message, s: State): Option<TxError>
    requires Formed(env, msg)
  {
    if env.nano && OnBlackList(env, msg) then Some(Blacklisted)
    else if Intrinsic(env, msg).Failure? then Some(IntrinsicOverflow)
    else if msg.gasLimit < Intrinsic(env, msg).value then Some(IntrinsicGasTooLow)
    else if env.prague && FloorDataGas(msg.data).Failure? then Some(IntrinsicOverflow)
    else if env.prague && msg.gasLimit < FloorDataGas(msg.data).value then Some(FloorDataGasTooLow)
    else if msg.value >= WORD then Some(InsufficientFundsForTransfer)
    else if msg.value != 0 && !CanTransfer(s, msg.from, msg.value) then Some(InsufficientFundsForTransfer)
    else if env.shanghai && msg.to.None? && |msg.data| > MAX_INIT_CODE_SIZE then Some(MaxInitCodeSizeExceeded)
    else None
  }

  function Floor(env: Env, msg: Message): nat
    requires Formed(env, msg)
  {
    if env.prague && FloorDataGas(msg.data).Success? then FloorDataGas(msg.data).value else 0
  }

  // ---------------------------------------------------------------------------------
  // Authorizations
  // ---------------------------------------------------------------------------------

  /** The authority of an authorization that passes every check of validateAuthorization. */
  function Authority(env: Env, s: State, auth: Authorization): Option<Address> {
    if auth.chainId != 0 && auth.chainId != env.chainId then None
    else if auth.nonce == UINT64_MAX then None
    else if auth.authority.None? then None
    else if auth.authority.value in env.blackList then None
    else if CodeAt(s, auth.authority.value).Contract? then None
    else if Nonce(s, auth.authority.value) != auth.nonce then None
    else auth.authority
  }

  function Delegated(auth: Authorization): Code {
    if auth.target == ZERO_ADDRESS then NoCode else Delegation(auth.target)
  }

  function ApplyAuth(env: Env, s: State, auth: Authorization): State {
    match Authority(env, s, auth)
    case None => s
    case Some(a) =>
      var s1 := if a in s.live then AddRefund(s, CALL_NEW_ACCOUNT_GAS - TX_AUTH_TUPLE_GAS) else s;
      SetCode(SetNonce(s1, a, auth.nonce + 1), a, Delegated(auth))
  }

  function ApplyAuths(env: Env, s: State, auths: seq<Authorization>): State
    decreases |auths|
  {
    if auths == [] then s
    else
      var last := |auths| - 1;
      ApplyAuth(env, ApplyAuths(env, s, auths[..last]), auths[last])
  }

  // ---------------------------------------------------------------------------------
  // execute
  // ---------------------------------------------------------------------------------

  /** A creation as the machine starts it: the deployment hook runs first before its fix;
      the creator's nonce is raised after the checks. */
  function Create(env: Env, msg: Message, s: State, gas: nat): Outcome {
    var early := !env.hookFix && env.hooksActive;
    var h := if early then env.vm.hook(s, msg, gas) else HookResult(s, gas, false);
    if h.rejected then Outcome(h.state, h.gasLeft, true)
    else if !CanTransfer(h.state, msg.from, msg.value) then Outcome(h.state, h.gasLeft, true)
    else if Nonce(h.state, msg.from) == UINT64_MAX then Outcome(h.state, h.gasLeft, true)
    else env.vm.construct(SetNonce(h.state, msg.from, Nonce(h.state, msg.from) + 1), msg, h.gasLeft)
  }

  /** The state a call starts in: sender's nonce raised, authorizations applied. */
  function Prepared(env: Env, msg: Message, s: State): State {
    var s1 := SetNonce(s, msg.from, Wrap64(Nonce(s, msg.from) + 1));
    if msg.auths.None? then s1 else ApplyAuths(env, s1, msg.auths.value)
  }

  function Invoke(env: Env, msg: Message, s: State, gas: nat): Outcome {
    if msg.to.None? then Create(env, msg, s, gas)
    else env.vm.call(Prepared(env, msg, s), msg, gas)
  }

  function Min(a: nat, b: nat): nat { if a < b then a else b }

  function Max(a: nat, b: nat): nat { if a < b then b else a }

  /** EIP-3529 lowered the share of the used gas a refund may reach. */
  function RefundQuotient(env: Env): (q: nat)
    ensures q > 0
  {
    if env.london then 5 else 2
  }

  function Refund(env: Env, used: nat, counter: nat): nat {
    if used / RefundQuotient(env) > counter then counter else used / RefundQuotient(env)
  }

  /** The gas handed back, after refunds and the data floor. */
  function Remaining(env: Env, msg: Message, out: Outcome): (left: nat)
    requires Formed(env, msg) && out.gasLeft <= msg.gasLimit && Floor(env, msg) <= msg.gasLimit
    ensures left <= msg.gasLimit
  {
    var left := out.gasLeft + Refund(env, msg.gasLimit - out.gasLeft, out.state.refund);
    if env.prague && msg.gasLimit - left < Floor(env, msg) then msg.gasLimit - Floor(env, msg) else left
  }

  /** The tip per gas; the base fee part is not paid to anyone. */
  function Tip(env: Env, msg: Message): nat {
    if !env.london then msg.gasPrice
    else if msg.gasPrice < env.baseFee then 0
    else msg.gasPrice - env.baseFee
  }

  /** The sender gets the unused gas back. */
  function Returned(msg: Message, s: State, left: nat): State {
    AddBalance(s, msg.from, Low256(left * msg.gasPrice))
  }

  /** The tip - and in BSC mode the blob fee too - goes to the fee recipient. */
  function Rewarded(env: Env, msg: Message, s: State, used: nat): State {
    var fee := Low256(used * Low256(Tip(env, msg)));
    if env.inBsc then
      var s1 := AddBalance(s, env.systemAddress, fee);
      if env.cancun then AddBalance(s1, env.systemAddress, Low256(BlobGas(msg) * env.blobBaseFee)) else s1
    else AddBalance(s, env.coinbase, fee)
  }

  /** The machine's outcome for a message that passed every check. */
  function Ran(env: Env, msg: Message, s: State): Outcome
    requires Formed(env, msg) && ReadyError(env, msg, Bought(env, msg, s)).None?
  {
    Invoke(env, msg, Bought(env, msg, s), msg.gasLimit - Intrinsic(env, msg).value)
  }

  function Settled(env: Env, msg: Message, out: Outcome, pool: nat): Result<Done, TxError>
    requires Formed(env, msg) && msg.gasLimit <= pool
    requires out.gasLeft <= msg.gasLimit && Floor(env, msg) <= msg.gasLimit
  {
    var left := Remaining(env, msg, out);
    var used := msg.gasLimit - left;
    var peak := msg.gasLimit - out.gasLeft;
    if msg.gasPrice >= WORD then Failure(Panicked)
    else
      Success(Done(
                Rewarded(env, msg, Returned(msg, out.state, left), used), pool - msg.gasLimit + left,
                used, if env.prague then Max(peak, Floor(env, msg)) else peak, out.failed))
  }

  /** execute: the new state and pool, or the error that refuses the message. */
  function Execute(env: Env, msg: Message, s: State, pool: nat): Result<Done, TxError>
    requires Formed(env, msg) && Sound(env.vm)
  {
    var err := Or(PreCheckError(env, msg, s), Or(BuyGasError(env, msg, s, pool), ReadyError(env, msg, Bought(env, msg, s))));
    if err.Some? then Failure(err.value)
    else
      InvokeKeeps(env, msg, Bought(env, msg, s), msg.gasLimit - Intrinsic(env, msg).value);
      Settled(env, msg, Ran(env, msg, s), pool)
  }

  // ---------------------------------------------------------------------------------
  // The machine's contract carried through to a message
  // ---------------------------------------------------------------------------------

  /** Authorizations move no wei. */
  lemma {:induction false} AuthsKeepWei(env: Env, s: State, auths: seq<Authorization>)
    ensures ApplyAuths(env, s, auths).wei == s.wei
    decreases |auths|
  {
    if auths != [] {
      AuthsKeepWei(env, s, auths[..|auths| - 1]);
    }
  }

  lemma InvokeKeeps(env: Env, msg: Message, s: State, gas: nat)
    requires Sound(env.vm)
    ensures Invoke(env, msg, s, gas).gasLeft <= gas
    ensures Total(Invoke(env, msg, s, gas).state) == Total(s)
  {
    if msg.to.None? {
      var h := env.vm.hook(s, msg, gas);
      assert Keeps(s, gas, h.state, h.gasLeft);
      var early := !env.hookFix && env.hooksActive;
      var s1, g := if early then h.state else s, if early then h.gasLeft else gas;
      var s2 := SetNonce(s1, msg.from, Nonce(s1, msg.from) + 1);
      assert Keeps(s2, g, env.vm.construct(s2, msg, g).state, env.vm.construct(s2, msg, g).gasLeft);
    } else {
      var s1 := Prepared(env, msg, s);
      if msg.auths.Some? {
        AuthsKeepWei(env, SetNonce(s, msg.from, Wrap64(Nonce(s, msg.from) + 1)), msg.auths.value);
      }
      assert Keeps(s1, gas, env.vm.call(s1, msg, gas).state, env.vm.call(s1, msg, gas).gasLeft);
    }
  }

  /** The exits of execute, in order. */
  lemma ExecuteSteps(env: Env, msg: Message, s: State, pool: nat)
    requires Formed(env, msg) && Sound(env.vm)
    ensures var first := Or(PreCheckError(env, msg, s), BuyGasError(env, msg, s, pool));
            var next := ReadyError(env, msg, Bought(env, msg, s));
            && (first.Some? ==> Execute(env, msg, s, pool) == Failure(first.value))
            && (first.None? && next.Some? ==> Execute(env, msg, s, pool) == Failure(next.value))
            && (first.None? && next.None? ==>
                  && msg.gasLimit <= pool && Floor(env, msg) <= msg.gasLimit && Ran(env, msg, s).gasLeft <= msg.gasLimit
                  && Execute(env, msg, s, pool) == Settled(env, msg, Ran(env, msg, s), pool))
  {
    if ReadyError(env, msg, Bought(env, msg, s)).None? {
      InvokeKeeps(env, msg, Bought(env, msg, s), msg.gasLimit - Intrinsic(env, msg).value);
    }
  }
}
