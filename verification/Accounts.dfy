/** Account state as the transaction layer sees it: balances, nonces, code, the refund
    counter, and which accounts exist.

    Balances are one multiset in which every wei carries its holder's address: a balance
    is a multiplicity and the total supply is the cardinality. Balances are 256-bit, so
    additions and subtractions wrap. */
module Accounts {
  import opened Wrappers
  import opened Gas

  type Address = int

  const ZERO_ADDRESS: Address := 0
  const WORD: int := 0x1_0000_0000_0000_0000_0000_0000_0000_0000_0000_0000_0000_0000_0000_0000_0000_0000

  /** Code is absent, an EIP-7702 delegation, or a contract's. */
  datatype Code = NoCode | Delegation(target: Address) | Contract

  datatype State = State(
    wei: multiset<Address>, nonces: map<Address, nat>, codes: map<Address, Code>,
    live: set<Address>, refund: Uint64)

  function Balance(s: State, a: Address): nat { s.wei[a] }

  function Total(s: State): nat { |s.wei| }

  function Nonce(s: State, a: Address): nat {
    if a in s.nonces then s.nonces[a] else 0
  }

  function CodeAt(s: State, a: Address): Code {
    if a in s.codes then s.codes[a] else NoCode
  }

  function Low256(x: nat): nat { x % WORD }

  function AddBalance(s: State, a: Address, amount: nat): State {
    s.(wei := s.wei[a := Low256(s.wei[a] + amount)], live := s.live + {a})
  }

  function SubBalance(s: State, a: Address, amount: nat): State {
    s.(wei := s.wei[a := (s.wei[a] - amount) % WORD], live := s.live + {a})
  }

  function SetNonce(s: State, a: Address, n: nat): State {
    s.(nonces := s.nonces[a := n], live := s.live + {a})
  }

  function SetCode(s: State, a: Address, c: Code): State {
    s.(codes := s.codes[a := c], live := s.live + {a})
  }

  function AddRefund(s: State, gas: Uint64): State {
    s.(refund := Wrap64(s.refund + gas))
  }

  function CanTransfer(s: State, a: Address, amount: nat): bool {
    Balance(s, a) >= amount
  }

  function Transfer(s: State, sender: Address, recipient: Address, amount: nat): State {
    AddBalance(SubBalance(s, sender, amount), recipient, amount)
  }

  predicate IsEmpty(s: State, a: Address) {
    Balance(s, a) == 0 && Nonce(s, a) == 0 && CodeAt(s, a) == NoCode
  }

  /** The end of a transaction: the refund counter is cleared, and from EIP-158 on empty
      accounts are gone. */
  function Finalised(s: State, eip158: bool): State {
    s.(refund := 0, live := if eip158 then set a | a in s.live && !IsEmpty(s, a) else s.live)
  }

  ghost predicate NoncesKept(s: State, t: State) {
    forall a :: Nonce(s, a) <= Nonce(t, a)
  }

  lemma BalanceWithinTotal(s: State, a: Address)
    ensures Balance(s, a) <= Total(s)
  {
    var rest := s.wei[a := 0];
    assert rest[a := s.wei[a]] == s.wei;
  }

  /** A credit that keeps the supply within 256 bits does not wrap. */
  lemma Credit(s: State, a: Address, amount: nat)
    requires Total(s) + amount < WORD
    ensures Total(AddBalance(s, a, amount)) == Total(s) + amount
    ensures Balance(AddBalance(s, a, amount), a) == Balance(s, a) + amount
  {
    BalanceWithinTotal(s, a);
  }

  /** More precisely, one that keeps the account itself within 256 bits. */
  lemma CreditFits(s: State, a: Address, amount: nat)
    requires Balance(s, a) + amount < WORD
    ensures Total(AddBalance(s, a, amount)) == Total(s) + amount
    ensures Balance(AddBalance(s, a, amount), a) == Balance(s, a) + amount
    ensures forall b | b != a :: Balance(AddBalance(s, a, amount), b) == Balance(s, b)
  {
  }

  /** And it changes that account only. */
  lemma CreditAt(s: State, a: Address, amount: nat, b: Address)
    requires Total(s) + amount < WORD
    ensures Balance(AddBalance(s, a, amount), b) == Balance(s, b) + if a == b then amount else 0
  {
    Credit(s, a, amount);
  }

  /** A debit takes exactly its amount exactly when the account holds it; otherwise the
      subtraction wraps and the supply changes by something else. */
  lemma Debit(s: State, a: Address, amount: nat)
    requires Total(s) < WORD && amount < WORD
    ensures Total(SubBalance(s, a, amount)) == Total(s) - amount <==> amount <= Balance(s, a)
    ensures amount <= Balance(s, a) ==> Balance(SubBalance(s, a, amount), a) == Balance(s, a) - amount
  {
    BalanceWithinTotal(s, a);
  }

  /** A covered transfer moves wei and makes none, whether or not the two accounts are
      the same, and touches no third account. */
  lemma TransferConserves(s: State, sender: Address, recipient: Address, amount: nat)
    requires Total(s) < WORD && CanTransfer(s, sender, amount)
    ensures var t := Transfer(s, sender, recipient, amount);
            && Total(t) == Total(s)
            && (sender == recipient ==> t.wei == s.wei)
            && (sender != recipient ==>
                  Balance(t, sender) == Balance(s, sender) - amount
                  && Balance(t, recipient) == Balance(s, recipient) + amount)
            && forall a | a != sender && a != recipient :: Balance(t, a) == Balance(s, a)
  {
    BalanceWithinTotal(s, sender);
    Debit(s, sender, amount);
    Credit(SubBalance(s, sender, amount), recipient, amount);
  }
}
