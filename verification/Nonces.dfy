/** Nonces over runs of messages: no (account, nonce) pair is consumed twice, whether by a
    transaction or by an EIP-7702 authorization. */
module Nonces {
  import opened Wrappers
  import opened Gas
  import opened Accounts
  import opened Messages
  import opened Transition
  import opened Conservation

  datatype Use = Use(account: Address, nonce: nat)

  predicate Distinct(uses: seq<Use>) {
    forall i, j | 0 <= i < j < |uses| :: uses[i] != uses[j]
  }

  /** Going from `s` to `t` consumed `uses`: each pair once, each within what its account's
      nonce moved over. */
  ghost predicate Between(uses: seq<Use>, s: State, t: State) {
    && NoncesKept(s, t)
    && Distinct(uses)
    && forall i | 0 <= i < |uses| :: Nonce(s, uses[i].account) <= uses[i].nonce < Nonce(t, uses[i].account)
  }

  lemma InSequence(before: seq<Use>, after: seq<Use>, s: State, t: State, r: State)
    requires Between(before, s, t) && Between(after, t, r)
    ensures Between(before + after, s, r)
  {
    var uses := before + after;
    forall i, j | 0 <= i < j < |uses| ensures uses[i] != uses[j] {
      if i < |before| <= j {
        assert uses[i].nonce < Nonce(t, uses[i].account);
        assert Nonce(t, uses[j].account) <= uses[j].nonce;
      }
    }
    forall i | 0 <= i < |uses| ensures Nonce(s, uses[i].account) <= uses[i].nonce < Nonce(r, uses[i].account) {
      assert Nonce(s, uses[i].account) <= Nonce(t, uses[i].account) <= Nonce(r, uses[i].account);
    }
  }

  // ---------------------------------------------------------------------------------
  // Authorizations
  // ---------------------------------------------------------------------------------

  /** When an authorization takes effect: for this chain or any, with a nonce that can still
      be raised and is its authority's, by an account that is not barred and has no contract
      code. */
  predicate Effective(env: Env, s: State, auth: Authorization) {
    && (auth.chainId == 0 || auth.chainId == env.chainId)
    && auth.nonce + 1 <= UINT64_MAX
    && auth.authority.Some?
    && auth.authority.value !in env.blackList
    && CodeAt(s, auth.authority.value) != Contract
    && Nonce(s, auth.authority.value) == auth.nonce
  }

  /** An effective authorization raises its authority's nonce by exactly one, installs or
      clears its code, and refunds the price of a new account if there was one already; a
      skipped one changes nothing. No other account is touched. */
  lemma AuthorizationEffect(env: Env, s: State, auth: Authorization)
    ensures var t := ApplyAuth(env, s, auth);
            if !Effective(env, s, auth) then Authority(env, s, auth).None? && t == s
            else
              var a := auth.authority.value;
              && Authority(env, s, auth) == Some(a)
              && Nonce(t, a) == Nonce(s, a) + 1
              && CodeAt(t, a) == (if auth.target == ZERO_ADDRESS then NoCode else Delegation(auth.target))
              && t.refund == (if a in s.live then Wrap64(s.refund + 12500) else s.refund)
              && t.wei == s.wei
              && forall b | b != a :: Nonce(t, b) == Nonce(s, b) && CodeAt(t, b) == CodeAt(s, b)
  {
  }

  /** The pairs a list of authorizations consumes, starting in `s`. */
  function AuthUses(env: Env, s: State, auths: seq<Authorization>): seq<Use>
    decreases |auths|
  {
    if auths == [] then []
    else
      var last := |auths| - 1;
      AuthUses(env, s, auths[..last])
      + match Authority(env, ApplyAuths(env, s, auths[..last]), auths[last])
        case None => []
        case Some(a) => [Use(a, auths[last].nonce)]
  }

  lemma {:induction false} AuthsBetween(env: Env, s: State, auths: seq<Authorization>)
    ensures Between(AuthUses(env, s, auths), s, ApplyAuths(env, s, auths))
    decreases |auths|
  {
    if auths != [] {
      var last := |auths| - 1;
      AuthsBetween(env, s, auths[..last]);
      var t := ApplyAuths(env, s, auths[..last]);
      AuthorizationEffect(env, t, auths[last]);
      var step := if Authority(env, t, auths[last]).None? then [] else [Use(auths[last].authority.value, auths[last].nonce)];
      assert Between(step, t, ApplyAuth(env, t, auths[last]));
      InSequence(AuthUses(env, s, auths[..last]), step, s, t, ApplyAuth(env, t, auths[last]));
    }
  }

  // ---------------------------------------------------------------------------------
  // One message
  // ---------------------------------------------------------------------------------

  /** The pairs a message consumes, its own and its authorizations'; `b` is the state after
      buying gas. */
  function UsesFrom(env: Env, msg: Message, b: State): seq<Use> {
    [Use(msg.from, msg.nonce)]
    + if msg.to.Some? && msg.auths.Some? then AuthUses(env, Raised(msg, b), msg.auths.value) else []
  }

  function Raised(msg: Message, b: State): State {
    SetNonce(b, msg.from, Wrap64(Nonce(b, msg.from) + 1))
  }

  function Uses(env: Env, msg: Message, s: State): seq<Use> {
    UsesFrom(env, msg, Bought(env, msg, s))
  }

  /** A creation turned down by the deployment hook where the hook still runs before the
      creator's nonce is raised. */
  predicate HookRejects(env: Env, msg: Message, s: State)
    requires Formed(env, msg) && ReadyError(env, msg, Bought(env, msg, s)).None?
  {
    msg.to.None? && !env.hookFix && env.hooksActive
    && env.vm.hook(Bought(env, msg, s), msg, msg.gasLimit - Intrinsic(env, msg).value).rejected
  }

  /** Buying, settling and paying leave nonces alone. */
  lemma SettlingKeepsNonces(env: Env, msg: Message, s: State, left: nat, used: nat)
    ensures Bought(env, msg, s).nonces == s.nonces
    ensures Rewarded(env, msg, Returned(msg, s, left), used).nonces == s.nonces
  {
  }

  lemma PreparedBetween(env: Env, msg: Message, b: State)
    requires msg.to.Some? && Nonce(b, msg.from) == msg.nonce < UINT64_MAX
    ensures Between(UsesFrom(env, msg, b), b, Prepared(env, msg, b))
  {
    var own := [Use(msg.from, msg.nonce)];
    var raised := Raised(msg, b);
    assert raised == SetNonce(b, msg.from, msg.nonce + 1);
    assert Between(own, b, raised);
    if msg.auths.Some? {
      AuthsBetween(env, raised, msg.auths.value);
      InSequence(own, AuthUses(env, raised, msg.auths.value), b, raised, Prepared(env, msg, b));
    } else {
      assert own + [] == own;
    }
  }

  lemma CallBetween(env: Env, msg: Message, b: State, gas: nat)
    requires Sound(env.vm) && msg.to.Some? && Nonce(b, msg.from) == msg.nonce < UINT64_MAX
    ensures Between(UsesFrom(env, msg, b), b, Invoke(env, msg, b, gas).state)
  {
    PreparedBetween(env, msg, b);
    var uses, ready := UsesFrom(env, msg, b), Prepared(env, msg, b);
    var out := env.vm.call(ready, msg, gas);
    assert Keeps(ready, gas, out.state, out.gasLeft);
    assert Between([], ready, out.state);
    InSequence(uses, [], b, ready, out.state);
    assert uses + [] == uses;
  }

  lemma CreateBetween(env: Env, msg: Message, s: State, gas: nat)
    requires Sound(env.vm) && msg.to.None? && Nonce(s, msg.from) == msg.nonce < UINT64_MAX
    requires CanTransfer(s, msg.from, msg.value)
    requires !(!env.hookFix && env.hooksActive && env.vm.hook(s, msg, gas).rejected)
    ensures NoncesKept(s, Create(env, msg, s, gas).state)
    ensures Nonce(Create(env, msg, s, gas).state, msg.from) > msg.nonce
  {
    var early := !env.hookFix && env.hooksActive;
    var h := if early then env.vm.hook(s, msg, gas) else HookResult(s, gas, false);
    assert Keeps(s, gas, h.state, h.gasLeft) && h.state.wei == s.wei;
    assert Nonce(s, msg.from) <= Nonce(h.state, msg.from);
    if Nonce(h.state, msg.from) != UINT64_MAX {
      var s1 := SetNonce(h.state, msg.from, Nonce(h.state, msg.from) + 1);
      var out := env.vm.construct(s1, msg, h.gasLeft);
      assert Keeps(s1, h.gasLeft, out.state, out.gasLeft);
      assert Nonce(s1, msg.from) <= Nonce(out.state, msg.from);
      forall a ensures Nonce(s, a) <= Nonce(out.state, a) {
        assert Nonce(s, a) <= Nonce(h.state, a) <= Nonce(s1, a) <= Nonce(out.state, a);
      }
    }
  }

  lemma SameNonces(uses: seq<Use>, b: State, s: State, t: State, r: State)
    requires Between(uses, b, t) && b.nonces == s.nonces && t.nonces == r.nonces
    ensures Between(uses, s, r)
  {
    assert forall a :: Nonce(s, a) == Nonce(b, a) && Nonce(r, a) == Nonce(t, a);
  }

  lemma CreateUses(env: Env, msg: Message, b: State, gas: nat)
    requires Sound(env.vm) && msg.to.None? && Nonce(b, msg.from) == msg.nonce < UINT64_MAX
    requires CanTransfer(b, msg.from, msg.value)
    requires !(!env.hookFix && env.hooksActive && env.vm.hook(b, msg, gas).rejected)
    ensures Between(UsesFrom(env, msg, b), b, Invoke(env, msg, b, gas).state)
  {
    CreateBetween(env, msg, b, gas);
    assert UsesFrom(env, msg, b) == [Use(msg.from, msg.nonce)];
  }

  /** The machine's part of a finished message. */
  lemma NoncesAfterRunning(env: Env, msg: Message, b: State, gas: nat)
    requires Sound(env.vm) && Nonce(b, msg.from) == msg.nonce < UINT64_MAX && CanTransfer(b, msg.from, msg.value)
    ensures var rejected := msg.to.None? && !env.hookFix && env.hooksActive && env.vm.hook(b, msg, gas).rejected;
            var t := Invoke(env, msg, b, gas).state;
            && (rejected ==> t == b)
            && (!rejected ==> Between(UsesFrom(env, msg, b), b, t) && Nonce(t, msg.from) > msg.nonce)
  {
    if msg.to.Some? {
      CallBetween(env, msg, b, gas);
      assert UsesFrom(env, msg, b)[0] == Use(msg.from, msg.nonce);
    } else if !(!env.hookFix && env.hooksActive && env.vm.hook(b, msg, gas).rejected) {
      CreateUses(env, msg, b, gas);
      assert UsesFrom(env, msg, b)[0] == Use(msg.from, msg.nonce);
    }
  }

  lemma SettledNonces(env: Env, msg: Message, s: State, pool: nat)
    requires Formed(env, msg) && Sound(env.vm)
    ensures Execute(env, msg, s, pool).Success? ==>
              && ReadyError(env, msg, Bought(env, msg, s)).None?
              && Execute(env, msg, s, pool).value.state.nonces == Ran(env, msg, s).state.nonces
              && Bought(env, msg, s).nonces == s.nonces
  {
    Opened(env, msg, s, pool);
    if Execute(env, msg, s, pool).Success? {
      var out := Ran(env, msg, s);
      var left := Remaining(env, msg, out);
      SettlingKeepsNonces(env, msg, s, 0, 0);
      SettlingKeepsNonces(env, msg, out.state, left, msg.gasLimit - left);
    }
  }

  lemma NonceChecked(env: Env, msg: Message, s: State, pool: nat)
    requires Formed(env, msg) && Sound(env.vm) && !msg.skipNonceChecks
    ensures Execute(env, msg, s, pool).Success? ==>
              Nonce(s, msg.from) == msg.nonce < UINT64_MAX && CanTransfer(Bought(env, msg, s), msg.from, msg.value)
  {
    Opened(env, msg, s, pool);
  }

  /** A finished message with nonce checks on raises its sender's nonce past its own exactly
      when no early hook rejected it; a rejected creation leaves every nonce as it was, so
      the same message passes the nonce check again. */
  lemma SenderNonceRaised(env: Env, msg: Message, s: State, pool: nat)
    requires Formed(env, msg) && Sound(env.vm) && !msg.skipNonceChecks
    ensures Execute(env, msg, s, pool).Success? ==>
              var t := Execute(env, msg, s, pool).value.state;
              && Nonce(s, msg.from) == msg.nonce
              && ReadyError(env, msg, Bought(env, msg, s)).None?
              && (Nonce(t, msg.from) > msg.nonce <==> !HookRejects(env, msg, s))
              && (HookRejects(env, msg, s) ==> t.nonces == s.nonces && CheckNonce(msg, t).None?)
              && (!HookRejects(env, msg, s) ==> Between(Uses(env, msg, s), s, t))
  {
    SettledNonces(env, msg, s, pool);
    NonceChecked(env, msg, s, pool);
    if Execute(env, msg, s, pool).Success? {
      var b, gas := Bought(env, msg, s), msg.gasLimit - Intrinsic(env, msg).value;
      NoncesAfterRunning(env, msg, b, gas);
      if !HookRejects(env, msg, s) {
        SameNonces(Uses(env, msg, s), b, s, Ran(env, msg, s).state, Execute(env, msg, s, pool).value.state);
      }
    }
  }

  // ---------------------------------------------------------------------------------
  // Runs
  // ---------------------------------------------------------------------------------

  /** A run mixes messages with other changes - system calls, block rewards - that lower
      no nonce. A refused message leaves the state as it was. */
  datatype Event =
    | Tx(env: Env, msg: Message, pool: nat)
    | Other(next: State)

  ghost predicate Possible(e: Event, s: State) {
    match e
    case Tx(env, msg, pool) => Formed(env, msg) && Sound(env.vm) && !msg.skipNonceChecks
    case Other(next) => NoncesKept(s, next)
  }

  function After(e: Event, s: State): State
    requires Possible(e, s)
  {
    match e
    case Tx(env, msg, pool) =>
      (match Execute(env, msg, s, pool)
       case Success(d) => d.state
       case Failure(_) => s)
    case Other(next) => next
  }

  function EventUses(e: Event, s: State): seq<Use>
    requires Possible(e, s)
  {
    match e
    case Tx(env, msg, pool) => if Execute(env, msg, s, pool).Success? then Uses(env, msg, s) else []
    case Other(_) => []
  }

  /** The event is not a creation that an early hook rejects. */
  ghost predicate NotRejected(e: Event, s: State)
    requires Possible(e, s)
  {
    match e
    case Tx(env, msg, pool) =>
      Execute(env, msg, s, pool).Success? ==> (Opened(env, msg, s, pool); !HookRejects(env, msg, s))
    case Other(_) => true
  }

  ghost predicate Reached(run: seq<Event>, s: State, states: seq<State>) {
    && |states| == |run| + 1 && states[0] == s
    && forall i | 0 <= i < |run| :: Possible(run[i], states[i]) && states[i + 1] == After(run[i], states[i])
  }

  ghost function RunUses(run: seq<Event>, states: seq<State>): seq<Use>
    requires |states| == |run| + 1
    requires forall i | 0 <= i < |run| :: Possible(run[i], states[i])
  {
    if run == [] then []
    else
      RunUses(run[..|run| - 1], states[..|run|]) + EventUses(run[|run| - 1], states[|run| - 1])
  }

  lemma EventBetween(e: Event, s: State)
    requires Possible(e, s)
    ensures NotRejected(e, s) ==> Between(EventUses(e, s), s, After(e, s))
  {
    if e.Tx? {
      SenderNonceRaised(e.env, e.msg, s, e.pool);
    }
  }

  /** Prefixes of runs are runs. */
  lemma RunPrefix(run: seq<Event>, s: State, states: seq<State>, k: nat)
    requires Reached(run, s, states) && k < |run|
    ensures Reached(run[..k], s, states[..k + 1])
    ensures forall i | 0 <= i < k :: run[..k][i] == run[i] && states[..k + 1][i] == states[i]
  {
  }

  /** Over any run in which no early hook rejects a creation, every (account, nonce) pair
      is consumed at most once. */
  lemma {:induction false} NoncesAreUsedOnce(run: seq<Event>, s: State, states: seq<State>)
    requires Reached(run, s, states)
    requires forall i | 0 <= i < |run| :: NotRejected(run[i], states[i])
    ensures Between(RunUses(run, states), s, states[|run|])
  {
    if run != [] {
      var k := |run| - 1;
      RunPrefix(run, s, states, k);
      NoncesAreUsedOnce(run[..k], s, states[..k + 1]);
      EventBetween(run[k], states[k]);
      InSequence(RunUses(run[..k], states[..k + 1]), EventUses(run[k], states[k]), s, states[k], states[|run|]);
    }
  }

  // ---------------------------------------------------------------------------------
  // The excluded case happens
  // ---------------------------------------------------------------------------------

  /** A chain on which the hook still runs first and turns every deployment down. */
  ghost predicate Rejecting(env: Env) {
    && !env.london && !env.cancun && !env.prague && !env.osaka && !env.nano && !env.shanghai
    && env.inBsc && !env.hookFix && env.hooksActive && Sound(env.vm)
    && forall s, m, g: nat :: env.vm.hook(s, m, g).rejected
  }

  /** A creation without price, value or data. */
  predicate FreeCreation(msg: Message) {
    && msg.to.None? && msg.nonce == 0 && msg.value == 0 && msg.gasLimit == 100000 && msg.gasPrice == 0
    && msg.gasFeeCap == Some(0) && msg.data == [] && msg.accessList.None? && msg.blobHashes.None? && msg.auths.None?
    && !msg.skipNonceChecks
  }

  predicate Blank(s: State) {
    s.wei == multiset{} && s.nonces == map[] && s.codes == map[]
  }

  lemma NothingPaid(s: State, a: Address)
    requires Blank(s)
    ensures Blank(AddBalance(s, a, 0)) && Blank(SubBalance(s, a, 0))
  {
  }

  lemma CreationPasses(env: Env, msg: Message, s: State)
    requires Rejecting(env) && FreeCreation(msg) && Blank(s)
    ensures Formed(env, msg)
    ensures PreCheckError(env, msg, s).None? && BuyGasError(env, msg, s, 100000).None?
    ensures ReadyError(env, msg, Bought(env, msg, s)).None?
    ensures Blank(Bought(env, msg, s))
  {
    NothingPaid(s, msg.from);
    assert Cost(env, msg) == 0 && Low256(0) == 0;
    assert DataGas(BaseGas(true, Rules(env)), [], true, Rules(env)) == Success(BaseGas(true, Rules(env)));
  }

  lemma CreationRepeats(env: Env, msg: Message, s: State)
    requires Rejecting(env) && FreeCreation(msg) && Blank(s)
    ensures Formed(env, msg) && Execute(env, msg, s, 100000).Success?
    ensures Blank(Execute(env, msg, s, 100000).value.state)
    ensures Uses(env, msg, s) == [Use(msg.from, 0)]
  {
    CreationPasses(env, msg, s);
    var b, gas := Bought(env, msg, s), msg.gasLimit - Intrinsic(env, msg).value;
    InvokeKeeps(env, msg, b, gas);
    assert env.vm.hook(b, msg, gas).rejected && env.vm.hook(b, msg, gas).state == b;
    var out := Ran(env, msg, s);
    assert out.state == b;
    var left := Remaining(env, msg, out);
    NothingPaid(b, msg.from);
    assert left * msg.gasPrice == 0 && Low256(0) == 0;
    NothingPaid(Returned(msg, b, left), env.systemAddress);
  }

  lemma UsesAppend(run: seq<Event>, states: seq<State>, e: Event, t: State)
    requires |states| == |run| + 1 && forall i | 0 <= i < |run| :: Possible(run[i], states[i])
    requires Possible(e, states[|run|])
    ensures forall i | 0 <= i < |run| + 1 :: Possible((run + [e])[i], (states + [t])[i])
    ensures RunUses(run + [e], states + [t]) == RunUses(run, states) + EventUses(e, states[|run|])
  {
    assert (run + [e])[..|run|] == run && (states + [t])[..|run| + 1] == states;
  }

  lemma OneEvent(e: Event, s: State, t: State)
    requires Possible(e, s)
    ensures RunUses([e], [s, t]) == EventUses(e, s)
  {
    UsesAppend([], [s], e, t);
    assert [] + [e] == [e] && [s] + [t] == [s, t];
  }

  lemma TwoEvents(e: Event, s: State, t: State, r: State)
    requires Possible(e, s) && Possible(e, t)
    ensures RunUses([e, e], [s, t, r]) == EventUses(e, s) + EventUses(e, t)
  {
    OneEvent(e, s, t);
    var run, states := [e], [s, t];
    UsesAppend(run, states, e, r);
    assert run + [e] == [e, e] && states + [r] == [s, t, r];
  }

  /** On such a chain the same creation goes through twice: a run that consumes one
      (account, nonce) pair two times. */
  lemma RejectedCreationsRepeat(env: Env, msg: Message, s: State)
    requires Rejecting(env) && FreeCreation(msg) && Blank(s)
    ensures exists run: seq<Event>, states: seq<State> ::
              Reached(run, s, states) && !Distinct(RunUses(run, states))
  {
    var e := Tx(env, msg, 100000);
    CreationRepeats(env, msg, s);
    var t := After(e, s);
    CreationRepeats(env, msg, t);
    var run, states := [e, e], [s, t, After(e, t)];
    TwoEvents(e, s, t, After(e, t));
    var uses := RunUses(run, states);
    assert uses[0] == uses[1];
    assert Reached(run, s, states);
  }

  /** And there are such chains. */
  lemma RejectingChainsExist()
    ensures exists env :: Rejecting(env)
  {
    var vm := Vm((s: State, m: Message, g: nat) => Outcome(s, g, false),
                 (s: State, m: Message, g: nat) => Outcome(s, g, false),
                 (s: State, m: Message, g: nat) => HookResult(s, g, true));
    var env := Env(false, false, false, false, false, false, false, false, false, true, false,
                   0, 0, 0, 7, 8, {}, 9, 10, {}, false, true, vm);
    assert Rejecting(env);
  }
}
