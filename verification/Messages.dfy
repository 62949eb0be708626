/** Transactions, the messages derived from them, and the block and chain settings they
    execute under. */
module Messages {
  import opened Wrappers
  import opened Gas
  import opened Accounts

  const BLOB_GAS_PER_BLOB: int := 0x2_0000
  const BLOB_TX_MAX_BLOBS: int := 6
  const MAX_TX_GAS: int := 0x100_0000
  const MAX_INIT_CODE_SIZE: int := 49152

  /** An EIP-7702 authorization; `authority` is what its signature recovers to. */
  datatype Authorization = Authorization(
    chainId: nat, nonce: Uint64, target: Address, authority: Option<Address>)

  datatype Message = Message(
    to: Option<Address>, from: Address, nonce: Uint64, value: nat, gasLimit: Uint64,
    gasPrice: nat, gasFeeCap: Option<nat>, gasTipCap: nat,
    data: seq<Byte>, accessList: Option<AccessList>,
    blobGasFeeCap: Option<nat>, blobHashes: Option<seq<Byte>>,
    auths: Option<seq<Authorization>>,
    skipNonceChecks: bool, skipTransactionChecks: bool)

  /** The pricing part of a transaction, by transaction type. Blob hashes are reduced to
      their version bytes. */
  datatype Pricing =
    | LegacyTx(gasPrice: nat)
    | AccessListTx(gasPrice: nat, accessList: AccessList)
    | DynamicFeeTx(tip: nat, cap: nat, accessList: AccessList)
    | BlobTx(tip: nat, cap: nat, accessList: AccessList, blobCap: nat, hashes: seq<Byte>)
    | SetCodeTx(tip: nat, cap: nat, accessList: AccessList, authList: seq<Authorization>)

  datatype Transaction = Transaction(
    nonce: Uint64, gas: Uint64, to: Option<Address>, value: nat, data: seq<Byte>,
    sender: Option<Address>, pricing: Pricing)

  datatype SenderError = InvalidSender

  /** What the abstract virtual machine does with a call or a construction. */
  datatype Outcome = Outcome(state: State, gasLeft: nat, failed: bool)

  /** What the DeployerProxy's answer to a deployment is. */
  datatype HookResult = HookResult(state: State, gasLeft: nat, rejected: bool)

  /** The virtual machine: a call, the part of a creation after the creator's nonce was
      raised, and the deployment hook. */
  datatype Vm = Vm(
    call: (State, Message, nat) -> Outcome,
    construct: (State, Message, nat) -> Outcome,
    hook: (State, Message, nat) -> HookResult)

  datatype Env = Env(
    homestead: bool, eip158: bool, istanbul: bool, shanghai: bool, london: bool, cancun: bool, prague: bool,
    osaka: bool, nano: bool, inBsc: bool, noBaseFee: bool,
    chainId: nat, baseFee: nat, blobBaseFee: nat, coinbase: Address, systemAddress: Address,
    systemContracts: set<Address>, pepper8: Address, pipe8: Address, blackList: set<Address>,
    hookFix: bool, hooksActive: bool, vm: Vm)

  /** A step of the machine spends gas, moves wei and never lowers a nonce. */
  ghost predicate Keeps(s: State, gas: nat, t: State, left: nat) {
    left <= gas && Total(t) == Total(s) && NoncesKept(s, t)
  }

  /** The contracts of the machine. The hook is a call of a system contract that pays no
      one, and a rejected one is reverted. */
  ghost predicate Sound(vm: Vm) {
    && (forall s, m, g: nat :: Keeps(s, g, vm.call(s, m, g).state, vm.call(s, m, g).gasLeft))
    && (forall s, m, g: nat :: Keeps(s, g, vm.construct(s, m, g).state, vm.construct(s, m, g).gasLeft))
    && (forall s, m, g: nat :: Keeps(s, g, vm.hook(s, m, g).state, vm.hook(s, m, g).gasLeft))
    && (forall s, m, g: nat :: vm.hook(s, m, g).state.wei == s.wei)
    && (forall s, m, g: nat :: vm.hook(s, m, g).rejected ==> vm.hook(s, m, g).state == s)
  }

  function Rules(env: Env): GasRules { GasRules(env.homestead, env.istanbul, env.shanghai) }

  function BlobGas(msg: Message): Uint64 {
    if msg.blobHashes.None? then 0 else Wrap64(|msg.blobHashes.value| * BLOB_GAS_PER_BLOB)
  }

  /** The fields a fork reads are present; the program would stop on a nil one. */
  predicate Formed(env: Env, msg: Message) {
    && |msg.data| <= UINT64_MAX
    && (env.london ==> msg.gasFeeCap.Some?)
    && (env.cancun && BlobGas(msg) > 0 ==> msg.blobGasFeeCap.Some?)
  }

  function FeeCap(tx: Transaction): nat {
    match tx.pricing
    case LegacyTx(p) => p
    case AccessListTx(p, _) => p
    case DynamicFeeTx(_, cap, _) => cap
    case BlobTx(_, cap, _, _, _) => cap
    case SetCodeTx(_, cap, _, _) => cap
  }

  function TipCap(tx: Transaction): nat {
    match tx.pricing
    case LegacyTx(p) => p
    case AccessListTx(p, _) => p
    case DynamicFeeTx(tip, _, _) => tip
    case BlobTx(tip, _, _, _, _) => tip
    case SetCodeTx(tip, _, _, _) => tip
  }

  /** TransactionToMessage. Without a base fee the price is the transaction's gas price,
      which for the capped types is the cap. */
  function ToMessage(tx: Transaction, baseFee: Option<nat>): Result<Message, SenderError> {
    if tx.sender.None? then Failure(InvalidSender)
    else
      var price :=
        if baseFee.None? then FeeCap(tx)
        else if TipCap(tx) + baseFee.value > FeeCap(tx) then FeeCap(tx)
        else TipCap(tx) + baseFee.value;
      Success(Message(
                tx.to, tx.sender.value, tx.nonce, tx.value, tx.gas,
                price, Some(FeeCap(tx)), TipCap(tx), tx.data,
                if tx.pricing.LegacyTx? then None else Some(tx.pricing.accessList),
                if tx.pricing.BlobTx? then Some(tx.pricing.blobCap) else None,
                if tx.pricing.BlobTx? then Some(tx.pricing.hashes) else None,
                if tx.pricing.SetCodeTx? then Some(tx.pricing.authList) else None,
                false, false))
  }
}
