/** The up-front gas of a transaction in 64-bit arithmetic, against a per-byte reference,
    and the block's gas pool. */
module Gas {
  import opened Wrappers

  const UINT64_MAX: int := 0xFFFF_FFFF_FFFF_FFFF
  const TWO_64: int := 0x1_0000_0000_0000_0000

  type Uint64 = x: int | 0 <= x <= UINT64_MAX
  type Byte = x: int | 0 <= x < 256

  const TX_GAS: int := 21000
  const TX_GAS_CONTRACT_CREATION: int := 53000
  const TX_DATA_ZERO_GAS: int := 4
  const TX_DATA_NON_ZERO_GAS_FRONTIER: int := 68
  const TX_DATA_NON_ZERO_GAS_EIP2028: int := 16
  const INIT_CODE_WORD_GAS: int := 2
  const TX_ACCESS_LIST_ADDRESS_GAS: int := 2400
  const TX_ACCESS_LIST_STORAGE_KEY_GAS: int := 1900
  const CALL_NEW_ACCOUNT_GAS: int := 25000
  const TX_AUTH_TUPLE_GAS: int := 12500
  const TX_TOKEN_PER_NON_ZERO_BYTE: int := 4
  const TX_COST_FLOOR_PER_TOKEN: int := 10

  datatype GasError = GasUintOverflow

  /** An access list, as the number of storage keys under each address. */
  type AccessList = seq<nat>

  /** The fork switches IntrinsicGas reads. */
  datatype GasRules = GasRules(homestead: bool, eip2028: bool, eip3860: bool)

  function Wrap64(x: int): Uint64 { x % TWO_64 }

  function CountZeros(data: seq<Byte>): (n: nat)
    ensures n <= |data|
  {
    if data == [] then 0 else (if data[0] == 0 then 1 else 0) + CountZeros(data[1..])
  }

  function StorageKeys(list: AccessList): nat {
    if list == [] then 0 else list[0] + StorageKeys(list[1..])
  }

  function ToWordSize(size: Uint64): Uint64 {
    if size > UINT64_MAX - 31 then UINT64_MAX / 32 + 1 else (size + 31) / 32
  }

  function NonZeroGas(rules: GasRules): int {
    if rules.eip2028 then TX_DATA_NON_ZERO_GAS_EIP2028 else TX_DATA_NON_ZERO_GAS_FRONTIER
  }

  function BaseGas(creation: bool, rules: GasRules): Uint64 {
    if creation && rules.homestead then TX_GAS_CONTRACT_CREATION else TX_GAS
  }

  /** `gas + count * price`, refused when it does not fit 64 bits. */
  function Charge(gas: Uint64, count: Uint64, price: int): Result<Uint64, GasError>
    requires 0 < price <= 68
  {
    if (UINT64_MAX - gas) / price < count then Failure(GasUintOverflow)
    else
      DivisionBound(UINT64_MAX - gas, price, count);
      Success(gas + count * price)
  }

  lemma DivisionBound(room: nat, price: int, count: nat)
    requires price > 0
    ensures room / price < count <==> room < count * price
  {
    if count <= room / price {
      assert count * price <= (room / price) * price;
    } else {
      assert (room / price + 1) * price <= count * price;
    }
  }

  function BytesGas(gas: Uint64, data: seq<Byte>, rules: GasRules): Result<Uint64, GasError>
    requires |data| <= UINT64_MAX
  {
    match Charge(gas, |data| - CountZeros(data), NonZeroGas(rules))
    case Failure(e) => Failure(e)
    case Success(g) => Charge(g, CountZeros(data), TX_DATA_ZERO_GAS)
  }

  function DataGas(gas: Uint64, data: seq<Byte>, creation: bool, rules: GasRules): Result<Uint64, GasError>
    requires |data| <= UINT64_MAX
  {
    if |data| == 0 then Success(gas)
    else
      match BytesGas(gas, data, rules)
      case Failure(e) => Failure(e)
      case Success(g) =>
        if creation && rules.eip3860 then Charge(g, ToWordSize(|data|), INIT_CODE_WORD_GAS) else Success(g)
  }

  function AccessGas(gas: Uint64, accessList: Option<AccessList>): Uint64 {
    if accessList.None? then gas
    else
      Wrap64(Wrap64(gas + Wrap64(|accessList.value| * TX_ACCESS_LIST_ADDRESS_GAS))
             + Wrap64(StorageKeys(accessList.value) * TX_ACCESS_LIST_STORAGE_KEY_GAS))
  }

  function AuthGas(gas: Uint64, auths: Option<nat>): Uint64 {
    if auths.None? then gas else Wrap64(gas + Wrap64(auths.value * CALL_NEW_ACCOUNT_GAS))
  }

  function ListGas(gas: Uint64, accessList: Option<AccessList>, auths: Option<nat>): Uint64 {
    AuthGas(AccessGas(gas, accessList), auths)
  }

  /** IntrinsicGas. The data part is checked for overflow; the list part is not. */
  function IntrinsicGas(data: seq<Byte>, accessList: Option<AccessList>, auths: Option<nat>, creation: bool, rules: GasRules)
    : Result<Uint64, GasError>
    requires |data| <= UINT64_MAX
  {
    match DataGas(BaseGas(creation, rules), data, creation, rules)
    case Failure(e) => Failure(e)
    case Success(g) => Success(ListGas(g, accessList, auths))
  }

  // ---------------------------------------------------------------------------------
  // The reference: what the price list says, in unbounded numbers
  // ---------------------------------------------------------------------------------

  /** Each byte at its own price. */
  function BytesCost(data: seq<Byte>, nonZero: int): int {
    if data == [] then 0
    else (if data[0] == 0 then TX_DATA_ZERO_GAS else nonZero) + BytesCost(data[1..], nonZero)
  }

  /** Init code is charged per started 32-byte word. */
  function WordsCost(data: seq<Byte>, creation: bool, rules: GasRules): int {
    if creation && rules.eip3860 then INIT_CODE_WORD_GAS * ((|data| + 31) / 32) else 0
  }

  function DataPrice(data: seq<Byte>, creation: bool, rules: GasRules): int {
    BaseGas(creation, rules) + BytesCost(data, NonZeroGas(rules)) + WordsCost(data, creation, rules)
  }

  /** Each listed address and each of its keys at its own price. */
  function AccessPrice(list: AccessList): int {
    if list == [] then 0
    else TX_ACCESS_LIST_ADDRESS_GAS + list[0] * TX_ACCESS_LIST_STORAGE_KEY_GAS + AccessPrice(list[1..])
  }

  function ListPrice(accessList: Option<AccessList>, auths: Option<nat>): int {
    (if accessList.None? then 0 else AccessPrice(accessList.value))
    + (if auths.None? then 0 else auths.value * CALL_NEW_ACCOUNT_GAS)
  }

  lemma {:induction false} BytesCostCounts(data: seq<Byte>, nonZero: int)
    ensures BytesCost(data, nonZero) == (|data| - CountZeros(data)) * nonZero + CountZeros(data) * TX_DATA_ZERO_GAS
  {
    if data != [] {
      BytesCostCounts(data[1..], nonZero);
      var k, z := |data[1..]|, CountZeros(data[1..]);
      assert (k - z + 1) * nonZero == (k - z) * nonZero + nonZero;
    }
  }

  lemma {:induction false} AccessPriceCounts(list: AccessList)
    ensures AccessPrice(list) == |list| * TX_ACCESS_LIST_ADDRESS_GAS + StorageKeys(list) * TX_ACCESS_LIST_STORAGE_KEY_GAS
  {
    if list != [] {
      AccessPriceCounts(list[1..]);
    }
  }

  /** Charging succeeds exactly when the sum fits. */
  lemma ChargeIsExact(gas: Uint64, count: Uint64, price: int)
    requires 0 < price <= 68
    ensures Charge(gas, count, price)
            == (if gas + count * price <= UINT64_MAX then Success(gas + count * price) else Failure(GasUintOverflow))
    ensures 0 <= count * price
  {
    DivisionBound(UINT64_MAX - gas, price, count);
  }

  lemma {:induction false} BytesGasIsCost(gas: Uint64, data: seq<Byte>, rules: GasRules)
    requires |data| <= UINT64_MAX
    ensures BytesGas(gas, data, rules) ==
            (if gas + BytesCost(data, NonZeroGas(rules)) <= UINT64_MAX then Success(gas + BytesCost(data, NonZeroGas(rules)))
             else Failure(GasUintOverflow))
    ensures 0 <= BytesCost(data, NonZeroGas(rules))
  {
    var z, p := CountZeros(data), NonZeroGas(rules);
    var nz := |data| - z;
    BytesCostCounts(data, p);
    ChargeIsExact(gas, nz, p);
    if gas + nz * p <= UINT64_MAX {
      ChargeIsExact(gas + nz * p, z, TX_DATA_ZERO_GAS);
    }
  }

  lemma {:induction false} DataGasIsPrice(data: seq<Byte>, creation: bool, rules: GasRules)
    requires |data| <= UINT64_MAX
    ensures DataPrice(data, creation, rules) <= UINT64_MAX ==>
              DataGas(BaseGas(creation, rules), data, creation, rules) == Success(DataPrice(data, creation, rules))
    ensures DataPrice(data, creation, rules) > UINT64_MAX ==>
              DataGas(BaseGas(creation, rules), data, creation, rules) == Failure(GasUintOverflow)
    ensures DataPrice(data, creation, rules) >= 0
  {
    var gas := BaseGas(creation, rules);
    BytesGasIsCost(gas, data, rules);
    WordSize(|data|);
    if gas + BytesCost(data, NonZeroGas(rules)) <= UINT64_MAX {
      ChargeIsExact(gas + BytesCost(data, NonZeroGas(rules)), ToWordSize(|data|), INIT_CODE_WORD_GAS);
    }
  }

  /** The overflow guard of toWordSize gives the same ceiling. */
  lemma WordSize(size: Uint64)
    ensures ToWordSize(size) == (size + 31) / 32
  {
  }

  lemma WrapAdd(x: int, y: int)
    ensures Wrap64(x + Wrap64(y)) == Wrap64(x + y)
    ensures Wrap64(Wrap64(x) + y) == Wrap64(x + y)
  {
    assert x + y == x + y % TWO_64 + TWO_64 * (y / TWO_64);
    assert x + y == x % TWO_64 + y + TWO_64 * (x / TWO_64);
    ModShift(x + y % TWO_64, y / TWO_64);
    ModShift(x % TWO_64 + y, x / TWO_64);
  }

  lemma ModShift(x: int, k: int)
    ensures (x + TWO_64 * k) % TWO_64 == x % TWO_64
  {
    var q, r := x / TWO_64, x % TWO_64;
    assert x + TWO_64 * k == TWO_64 * (q + k) + r;
  }

  lemma {:induction false} AccessGasIsPrice(gas: Uint64, list: AccessList)
    ensures AccessGas(gas, Some(list)) == Wrap64(gas + AccessPrice(list))
  {
    var a, k := |list| * TX_ACCESS_LIST_ADDRESS_GAS, StorageKeys(list) * TX_ACCESS_LIST_STORAGE_KEY_GAS;
    AccessPriceCounts(list);
    WrapAdd(gas, a);
    WrapAdd(gas + a, Wrap64(k));
    WrapAdd(gas + a, k);
  }

  /** The list part is the price list's sum modulo 2^64. */
  lemma {:induction false} ListGasIsPrice(gas: Uint64, accessList: Option<AccessList>, auths: Option<nat>)
    ensures ListGas(gas, accessList, auths) == Wrap64(gas + ListPrice(accessList, auths))
  {
    var access := if accessList.None? then 0 else AccessPrice(accessList.value);
    if accessList.Some? {
      AccessGasIsPrice(gas, accessList.value);
    }
    assert AccessGas(gas, accessList) == Wrap64(gas + access);
    if auths.Some? {
      var n := auths.value * CALL_NEW_ACCOUNT_GAS;
      WrapAdd(gas + access, Wrap64(n));
      WrapAdd(gas + access, n);
    }
  }

  /** Intrinsic gas is the price list's sum: refused exactly when the base and data part
      does not fit 64 bits; and otherwise right exactly when the lists do not carry the
      sum past 64 bits. */
  lemma {:induction false} IntrinsicGasIsPrice(data: seq<Byte>, accessList: Option<AccessList>, auths: Option<nat>, creation: bool, rules: GasRules)
    requires |data| <= UINT64_MAX
    ensures var r := IntrinsicGas(data, accessList, auths, creation, rules);
            var price := DataPrice(data, creation, rules) + ListPrice(accessList, auths);
            && (r == Failure(GasUintOverflow) <==> DataPrice(data, creation, rules) > UINT64_MAX)
            && (r.Success? ==> r.value == Wrap64(price))
            && (r == Success(price) <==> price <= UINT64_MAX)
  {
    DataGasIsPrice(data, creation, rules);
    var d := DataPrice(data, creation, rules);
    ListPriceNonNegative(accessList, auths);
    if d <= UINT64_MAX {
      var g: Uint64 := d;
      ListGasIsPrice(g, accessList, auths);
      WrapFits(g + ListPrice(accessList, auths));
      assert IntrinsicGas(data, accessList, auths, creation, rules) == Success(ListGas(g, accessList, auths));
    } else {
      assert IntrinsicGas(data, accessList, auths, creation, rules) == Failure(GasUintOverflow);
    }
  }

  lemma WrapFits(x: nat)
    ensures Wrap64(x) == x <==> x <= UINT64_MAX
  {
  }

  lemma {:induction false} ListPriceNonNegative(accessList: Option<AccessList>, auths: Option<nat>)
    ensures ListPrice(accessList, auths) >= 0
  {
    if accessList.Some? {
      AccessPriceCounts(accessList.value);
    }
  }

  /** 2^61 authorizations are worth 3125 * 2^64 gas, and pass with the base price alone. */
  lemma AuthListsCanWrap(rules: GasRules)
    ensures IntrinsicGas([], None, Some(0x2000_0000_0000_0000), false, rules) == Success(TX_GAS)
    ensures DataPrice([], false, rules) + ListPrice(None, Some(0x2000_0000_0000_0000)) > UINT64_MAX
  {
    IntrinsicGasIsPrice([], None, Some(0x2000_0000_0000_0000), false, rules);
    ModShift(TX_GAS, 3125);
  }

  // ---------------------------------------------------------------------------------
  // The data floor of EIP-7623
  // ---------------------------------------------------------------------------------

  function CountedTokens(data: seq<Byte>): Uint64
    requires |data| <= UINT64_MAX
  {
    var z := CountZeros(data);
    Wrap64(Wrap64((|data| - z) * TX_TOKEN_PER_NON_ZERO_BYTE) + z)
  }

  function FloorDataGas(data: seq<Byte>): Result<Uint64, GasError>
    requires |data| <= UINT64_MAX
  {
    var tokens := CountedTokens(data);
    if (UINT64_MAX - TX_GAS) / TX_COST_FLOOR_PER_TOKEN < tokens then Failure(GasUintOverflow)
    else Success(TX_GAS + tokens * TX_COST_FLOOR_PER_TOKEN)
  }

  /** Tokens in calldata: a zero byte is one, any other byte four. */
  function Tokens(data: seq<Byte>): nat {
    if data == [] then 0 else (if data[0] == 0 then 1 else 4) + Tokens(data[1..])
  }

  lemma {:induction false} TokensCount(data: seq<Byte>)
    ensures Tokens(data) == (|data| - CountZeros(data)) * TX_TOKEN_PER_NON_ZERO_BYTE + CountZeros(data)
  {
    if data != [] {
      TokensCount(data[1..]);
    }
  }

  lemma {:induction false} CountedTokensWrap(data: seq<Byte>)
    requires |data| <= UINT64_MAX
    ensures CountedTokens(data) == Wrap64(Tokens(data))
  {
    TokensCount(data);
    var z := CountZeros(data);
    WrapAdd((|data| - z) * TX_TOKEN_PER_NON_ZERO_BYTE, z);
  }

  /** The floor is 21000 plus ten per token, refused when that does not fit 64 bits, as
      long as the token count itself fits. */
  lemma {:induction false} FloorIsTokens(data: seq<Byte>)
    requires |data| <= UINT64_MAX
    ensures var floor := TX_GAS + TX_COST_FLOOR_PER_TOKEN * Tokens(data);
            && (FloorDataGas(data) == Success(floor) <==> floor <= UINT64_MAX)
            && (Tokens(data) <= UINT64_MAX && floor > UINT64_MAX ==> FloorDataGas(data) == Failure(GasUintOverflow))
  {
    CountedTokensWrap(data);
    var tokens := Tokens(data);
    if tokens <= UINT64_MAX {
      DivisionBound(UINT64_MAX - TX_GAS, TX_COST_FLOOR_PER_TOKEN, tokens);
    }
  }

  lemma {:induction false} NoZeros(data: seq<Byte>)
    requires forall i | 0 <= i < |data| :: data[i] != 0
    ensures CountZeros(data) == 0
  {
    if data != [] {
      NoZeros(data[1..]);
    }
  }

  /** Past that the guard is blind: 2^62 non-zero bytes are 2^64 tokens and cost nothing. */
  lemma FloorCanWrap(data: seq<Byte>)
    requires |data| == 0x4000_0000_0000_0000 && forall i | 0 <= i < |data| :: data[i] != 0
    ensures FloorDataGas(data) == Success(TX_GAS)
  {
    NoZeros(data);
  }

  // ---------------------------------------------------------------------------------
  // The gas pool
  // ---------------------------------------------------------------------------------

  class GasPool {
    var gas: Uint64

    constructor ()
      ensures gas == 0
    {
      gas := 0;
    }

    /** False where the program panics: the pool would pass 64 bits. */
    method AddGas(amount: Uint64) returns (ok: bool)
      modifies this
      ensures ok <==> old(gas) + amount <= UINT64_MAX
      ensures gas == if ok then old(gas) + amount else old(gas)
    {
      if gas > UINT64_MAX - amount {
        return false;
      }
      gas := gas + amount;
      return true;
    }

    /** False when the limit is reached; the pool is then untouched. */
    method SubGas(amount: Uint64) returns (ok: bool)
      modifies this
      ensures ok <==> amount <= old(gas)
      ensures gas == if ok then old(gas) - amount else old(gas)
    {
      if gas < amount {
        return false;
      }
      gas := gas - amount;
      return true;
    }
  }
}
