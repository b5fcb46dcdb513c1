/** One deposit, one message: however tokens reach the mediator, they are bridged once, less the fee. */
module Deposits {
  import opened Words
  import opened Chain
  import opened Bridge
  import opened Locked

  /** Unmodelled code that does not call back into the contracts. */
  predicate Silent(hook: Hook) {
    hook.actions.Nil?
  }

  function FeeOf(c: Config, env: Env): nat {
    if c.home then env.fee else 0
  }

  /** What a message is sent for: a token, native or bridged, from an account to a receiver on the other side. */
  datatype Order = Order(isNative: bool, token: Token, from: Address, receiver: Address, withCall: bool, gasLimit: nat)

  /** The order that a deposit in state s gives. */
  function OrderOf(s: State, token: Token, from: Address, receiver: Address, withCall: bool, env: Env): Order {
    Order(token !in s.med.nativeOf, token, from, receiver, withCall, env.gasLimit)
  }

  /**
   * Call data for a value of an order, in state s. It names the token by its native contract, and asks for a bridged
   * one unless the other side has acknowledged that there is one.
   */
  function PayloadFor(s: State, o: Order, value: nat): Payload {
    Tokens(!o.isNative, if o.isNative then o.token else Get(s.med.nativeOf, o.token),
           o.isNative && o.token !in s.med.acked, o.receiver, value, o.withCall)
  }

  ghost predicate Carries(c: Config, s: State, m: Message, o: Order, value: nat) {
    && m.sender == c.mediator && m.receiver == c.other && m.gasLimit == o.gasLimit <= c.maxGasPerTx
    && m.payload == PayloadFor(s, o, value)
  }

  /** From s to t the mediator sent one message, moving value less the fee, and recorded it for a refund. */
  ghost predicate OneMessage(c: Config, s: State, t: State, o: Order, value: nat, fee: nat) {
    |t.amb.sent| == |s.amb.sent| + 1 && t.amb.sent[..|s.amb.sent|] == s.amb.sent && fee <= value &&
    var m := t.amb.sent[|s.amb.sent|];
    && Carries(c, s, m, o, value - fee)
    && t.med.ops == s.med.ops[c.keccak(m) := Operation(o.token, o.from, value - fee)]
  }

  /** What the mediator received is split between the fee manager and what is locked or burned for the message. */
  ghost predicate Split(c: Config, s: State, t: State, isNative: bool, token: Token, value: nat, fee: nat)
    requires fee <= value
  {
    var locked := Balance(t, token, c.mediator) - Balance(s, token, c.mediator);
    && Balance(t, token, c.feeManager) == Balance(s, token, c.feeManager) + fee
    && if isNative then
         locked == -(fee as int)
         && Get(t.med.mediatorBalance, token) == Get(s.med.mediatorBalance, token) + (value - fee)
       else
         locked == -(value as int) && Get(t.ledger.supply, token) == Get(s.ledger.supply, token) - (value - fee)
  }

  /** From s to u the fee was moved, once, and then the fee manager's and the token's code ran, whatever it did. */
  ghost predicate AfterFee(c: Config, s: State, u: State, token: Token, env: Env) {
    if FeeOf(c, env) == 0 then u == s
    else
      var moved := Move(s, token, c.mediator, c.feeManager, env.fee);
      moved.Some? && u == RunAll(c, RunAll(c, moved.value, env.feeCall.actions), env.distribute.actions)
  }

  /**
   * From s to t a value was deposited: first its fee was moved, with what reenters from that, and then one message took
   * the rest. If nothing reenters, there is this one message, and the value was split exactly.
   */
  ghost predicate Deposited(c: Config, s: State, t: State, o: Order, value: nat, env: Env) {
    var fee := FeeOf(c, env);
    && fee <= value
    && (exists u ::
          && AfterFee(c, Register(s, o.token), u, o.token, env)
          && OneMessage(c, u, t, o, value - fee, 0) && Split(c, u, t, o.isNative, o.token, value - fee, 0))
    && (Silent(env.feeCall) && Silent(env.distribute) ==>
          && OneMessage(c, s, t, o, value, fee) && Split(c, s, t, o.isNative, o.token, value, fee)
          && t.med.lock == s.med.lock)
  }

  lemma DepositOnce(c: Config, s: State, token: Token, from: Address, receiver: Address, value: nat, withCall: bool,
                    env: Env)
    requires Deposit(c, s, token, from, receiver, value, withCall, env).Some? && c.feeManager != c.mediator
    ensures Deposited(c, s, Deposit(c, s, token, from, receiver, value, withCall, env).value,
                      OrderOf(s, token, from, receiver, withCall, env), value, env)
  {
    hide SendTokens, DepositFee, OneMessage, Split, AfterFee;
    var isNative, s0 := token !in s.med.nativeOf, Register(s, token);
    var t := Deposit(c, s, token, from, receiver, value, withCall, env).value;
    var r := DepositFee(c, s0, token, env).value;
    FeeTaken(c, s0, token, env);
    SentOnce(c, r.0, isNative, token, from, receiver, value - r.1, withCall, env);
    if Silent(env.feeCall) && Silent(env.distribute) {
      FeeMoved(c, s0, token, env);
      FeeAndMessage(c, s, r.0, t, OrderOf(s, token, from, receiver, withCall, env), value, r.1);
    }
  }

  lemma FeeAndMessage(c: Config, s: State, u: State, t: State, o: Order, value: nat, fee: nat)
    requires fee <= value && u.amb == s.amb && u.med == Register(s, o.token).med && u.ledger.supply == s.ledger.supply
    requires Balance(u, o.token, c.feeManager) == Balance(s, o.token, c.feeManager) + fee
    requires Balance(u, o.token, c.mediator) == Balance(s, o.token, c.mediator) - fee
    requires OneMessage(c, u, t, o, value - fee, 0) && Split(c, u, t, o.isNative, o.token, value - fee, 0)
    ensures OneMessage(c, s, t, o, value, fee) && Split(c, s, t, o.isNative, o.token, value, fee)
  {
  }

  lemma FeeTaken(c: Config, s: State, token: Token, env: Env)
    requires DepositFee(c, s, token, env).Some?
    ensures var r := DepositFee(c, s, token, env).value; r.1 == FeeOf(c, env) && AfterFee(c, s, r.0, token, env)
  {
    hide RunAll, Invoke;
    if FeeOf(c, env) != 0 {
      var s1 := Move(s, token, c.mediator, c.feeManager, env.fee).value;
      Called(c, s1, env.feeCall);
      Called(c, Invoke(c, s1, env.feeCall).value, env.distribute);
    }
  }

  lemma Called(c: Config, s: State, hook: Hook)
    requires Invoke(c, s, hook).Some?
    ensures Invoke(c, s, hook).value == RunAll(c, s, hook.actions)
  {
  }

  lemma FeeMoved(c: Config, s: State, token: Token, env: Env)
    requires DepositFee(c, s, token, env).Some? && c.feeManager != c.mediator
    requires Silent(env.feeCall) && Silent(env.distribute)
    ensures var r := DepositFee(c, s, token, env).value;
            && r.1 == FeeOf(c, env) && r.0.amb == s.amb && r.0.med == s.med && r.0.ledger.supply == s.ledger.supply
            && Balance(r.0, token, c.feeManager) == Balance(s, token, c.feeManager) + r.1
            && Balance(r.0, token, c.mediator) == Balance(s, token, c.mediator) - r.1
  {
    hide Invoke;
    if c.home && env.fee != 0 {
      var s1 := Move(s, token, c.mediator, c.feeManager, env.fee).value;
      SilentCall(c, s1, env.feeCall);
      SilentCall(c, s1, env.distribute);
    }
  }

  lemma SilentCall(c: Config, s: State, hook: Hook)
    requires Silent(hook)
    ensures Invoke(c, s, hook) == if hook.ok then Some(s) else None
  {
  }

  lemma SendsOne(c: Config, s: State, isNative: bool, token: Token, from: Address, receiver: Address, value: nat,
                 withCall: bool, env: Env)
    requires SendTokens(c, s, isNative, token, from, receiver, value, withCall, env).Some?
    ensures var t := SendTokens(c, s, isNative, token, from, receiver, value, withCall, env).value;
            && OneMessage(c, s, t, Order(isNative, token, from, receiver, withCall, env.gasLimit), value, 0)
            && t.med.lock == s.med.lock && t.med.acked == s.med.acked && t.med.nativeOf == s.med.nativeOf
  {
  }

  lemma SentOnce(c: Config, s: State, isNative: bool, token: Token, from: Address, receiver: Address, value: nat,
                 withCall: bool, env: Env)
    requires SendTokens(c, s, isNative, token, from, receiver, value, withCall, env).Some? && c.feeManager != c.mediator
    ensures var t := SendTokens(c, s, isNative, token, from, receiver, value, withCall, env).value;
            && OneMessage(c, s, t, Order(isNative, token, from, receiver, withCall, env.gasLimit), value, 0)
            && Split(c, s, t, isNative, token, value, 0) && t.med.lock == s.med.lock
  {
    hide OneMessage;
    SendsOne(c, s, isNative, token, from, receiver, value, withCall, env);
  }

  /** Whatever reenters from the fee payment, a deposit ends with its own message as the last one. */
  lemma DepositSendsLast(c: Config, s: State, token: Token, from: Address, receiver: Address, value: nat,
                         withCall: bool, env: Env)
    requires Deposit(c, s, token, from, receiver, value, withCall, env).Some?
    ensures var t, fee := Deposit(c, s, token, from, receiver, value, withCall, env).value, FeeOf(c, env);
            fee <= value && t.amb.sent != [] &&
            var m := t.amb.sent[|t.amb.sent| - 1];
            && Carries(c, t, m, OrderOf(s, token, from, receiver, withCall, env), value - fee)
            && c.keccak(m) in t.med.ops && t.med.ops[c.keccak(m)] == Operation(token, from, value - fee)
  {
    hide SendTokens, DepositFee, OneMessage, Carries, AfterFee;
    var r := DepositFee(c, Register(s, token), token, env).value;
    var o := OrderOf(s, token, from, receiver, withCall, env);
    FeeTaken(c, Register(s, token), token, env);
    SendsOne(c, r.0, o.isNative, token, from, receiver, value - r.1, withCall, env);
    LastMessage(c, r.0, SendTokens(c, r.0, o.isNative, token, from, receiver, value - r.1, withCall, env).value, o,
                value - r.1);
  }

  lemma LastMessage(c: Config, s: State, t: State, o: Order, value: nat)
    requires OneMessage(c, s, t, o, value, 0) && t.med.acked == s.med.acked && t.med.nativeOf == s.med.nativeOf
    ensures t.amb.sent != [] &&
            var m := t.amb.sent[|t.amb.sent| - 1];
            && Carries(c, t, m, o, value)
            && c.keccak(m) in t.med.ops && t.med.ops[c.keccak(m)] == Operation(o.token, o.from, value)
  {
  }

  /**
   * relayTokens with any token, also one that takes a cut of what it moves or calls back into the contracts: once the
   * tokens are pulled in, exactly what the mediator's balance grew by is deposited. Before that nothing is deposited,
   * of one token or of any, if and only if no call of fixMediatorBalance for it goes through meanwhile.
   */
  lemma RelayOnce(c: Config, s: State, a: Action, x: Option<Token>)
    requires a.RelayTokens? && Run(c, s, a).Some? && c.feeManager != c.mediator
    ensures Pull(c, s, a).Some?
    ensures var s1, t := Pull(c, s, a).value, Run(c, s, a).value;
            var grown := Balance(s1, a.token, c.mediator) - Balance(s, a.token, c.mediator);
            && !s1.med.lock && 0 <= grown <= a.value
            && Deposited(c, s1, t, OrderOf(s, a.token, a.from, a.receiver, a.withCall, a.env), grown, a.env)
    ensures NoDeposit(c, s, Pull(c, s, a).value, x) <==> !FixesAll(c, Pulled(c, s, a), a.pull.actions, x)
    ensures AllWithout(Fix(x), a.pull.actions) ==> NoDeposit(c, s, Pull(c, s, a).value, x)
  {
    hide Deposit, Pull, Deposited, NoDeposit, FixesAll;
    var s1 := Pull(c, s, a).value;
    PullLocked(c, s, a, x);
    if AllWithout(Fix(x), a.pull.actions) {
      NothingFixes(c, Pulled(c, s, a), a.pull.actions, x);
    }
    var grown := Balance(s1, a.token, c.mediator) - Balance(s, a.token, c.mediator);
    DepositOnce(c, s1, a.token, a.from, a.receiver, grown, a.withCall, a.env);
  }

  /** A token that just moves the value grows the mediator's balance by all of it, so all of it is deposited. */
  lemma PlainRelay(c: Config, s: State, a: Action)
    requires a.RelayTokens? && Run(c, s, a).Some? && c.feeManager != c.mediator && a.from != c.feeManager
    requires Silent(a.pull) && Silent(a.env.feeCall) && Silent(a.env.distribute)
    ensures var t := Run(c, s, a).value;
            && OneMessage(c, s, t, OrderOf(s, a.token, a.from, a.receiver, a.withCall, a.env), a.value, FeeOf(c, a.env))
            && !t.med.lock
            && Bridged(c, s, t, a.token, a.value, FeeOf(c, a.env))
  {
    hide Deposit, Invoke, TransferFrom, Move, OneMessage, Pull, AfterFee;
    RelayOnce(c, s, a, None);
    PlainPull(c, s, a);
    var s1 := Pull(c, s, a).value;
    SameMessage(c, s, s1, Run(c, s, a).value, OrderOf(s, a.token, a.from, a.receiver, a.withCall, a.env), a.value,
                FeeOf(c, a.env));
  }

  lemma PlainPull(c: Config, s: State, a: Action)
    requires a.RelayTokens? && Pull(c, s, a).Some? && Silent(a.pull) && a.from != c.mediator
    requires c.feeManager != c.mediator && a.from != c.feeManager
    ensures var t := Pull(c, s, a).value;
            && Balance(t, a.token, c.mediator) == Balance(s, a.token, c.mediator) + a.value
            && Balance(t, a.token, c.feeManager) == Balance(s, a.token, c.feeManager)
            && t.amb == s.amb && t.med == s.med.(lock := false) && t.ledger.supply == s.ledger.supply
  {
    hide Invoke, TransferFrom, Move;
    var s0 := SetLock(s, true);
    TransferLocked(c, s0, a.token, a.from, c.mediator, a.value, a.notify, a.from, false, a.env);
    SilentCall(c, Move(s0, a.token, a.from, c.mediator, a.value).value, a.pull);
    Moved(c, s0, a.token, a.from, a.value);
  }

  lemma SameMessage(c: Config, s: State, s1: State, t: State, o: Order, value: nat, fee: nat)
    requires s1.amb == s.amb && s1.med == s.med.(lock := s1.med.lock) && OneMessage(c, s1, t, o, value, fee)
    ensures OneMessage(c, s, t, o, value, fee)
  {
  }

  lemma Moved(c: Config, s: State, token: Token, from: Address, value: nat)
    requires Move(s, token, from, c.mediator, value).Some? && from != c.mediator
    requires c.feeManager != c.mediator && from != c.feeManager
    ensures var t := Move(s, token, from, c.mediator, value).value;
            && Balance(t, token, c.mediator) == Balance(s, token, c.mediator) + value
            && Balance(t, token, c.feeManager) == Balance(s, token, c.feeManager) && Balance(s, token, from) >= value
            && t.amb == s.amb && t.med == s.med && t.ledger.supply == s.ledger.supply
  {
  }

  /** Of the value that reached the mediator it keeps what is bridged, if native, and nothing, if burned. */
  ghost predicate Bridged(c: Config, s: State, t: State, token: Token, value: nat, fee: nat)
    requires fee <= value
  {
    && Balance(t, token, c.feeManager) == Balance(s, token, c.feeManager) + fee
    && if token in s.med.nativeOf then
         Balance(t, token, c.mediator) == Balance(s, token, c.mediator)
         && Get(t.ledger.supply, token) == Get(s.ledger.supply, token) - (value - fee)
       else
         Balance(t, token, c.mediator) == Balance(s, token, c.mediator) + (value - fee)
         && Get(t.med.mediatorBalance, token) == Get(s.med.mediatorBalance, token) + (value - fee)
  }

  /** A transfer with callback has the same effect as relayTokens: one message, the same split. */
  lemma TransferOnce(c: Config, s: State, a: Action)
    requires a.Transfer? && Run(c, s, a).Some? && a.to == c.mediator && !s.med.lock && c.feeManager != c.mediator
    requires a.notify || a.token in s.med.nativeOf
    ensures var t, moved := Run(c, s, a).value, Move(s, a.token, a.from, c.mediator, a.value);
            moved.Some?
            && Deposited(c, moved.value, t, OrderOf(s, a.token, a.from, a.receiver, a.withCall, a.env), a.value, a.env)
    ensures var t, fee := Run(c, s, a).value, FeeOf(c, a.env);
            Silent(a.env.feeCall) && Silent(a.env.distribute) && a.from != c.feeManager ==>
              && OneMessage(c, s, t, OrderOf(s, a.token, a.from, a.receiver, a.withCall, a.env), a.value, fee)
              && Bridged(c, s, t, a.token, a.value, fee)
  {
    hide Deposit, Move, AfterFee, OneMessage, Bridged, Split;
    assert Run(c, s, a) == TransferFrom(c, s, a.token, a.from, a.to, a.value, a.notify, a.receiver, a.withCall, a.env);
    assert Move(s, a.token, a.from, c.mediator, a.value).Some?;
    var s1, t := Move(s, a.token, a.from, c.mediator, a.value).value, Run(c, s, a).value;
    OnlyLedger(c, s, a.token, a.from, a.value);
    assert Run(c, s, a) == OnTokenTransfer(c, s1, a.token, a.from, a.receiver, a.value, a.withCall, a.env);
    DepositOnce(c, s1, a.token, a.from, a.receiver, a.value, a.withCall, a.env);
    if a.from != c.feeManager && Silent(a.env.feeCall) && Silent(a.env.distribute) {
      SameMessage(c, s, s1, t, OrderOf(s, a.token, a.from, a.receiver, a.withCall, a.env), a.value, FeeOf(c, a.env));
      SplitIsBridged(c, s, t, a.token, a.from, a.value, FeeOf(c, a.env));
    }
  }

  lemma SplitIsBridged(c: Config, s: State, t: State, token: Token, from: Address, value: nat, fee: nat)
    requires Move(s, token, from, c.mediator, value).Some? && from != c.mediator && from != c.feeManager
    requires fee <= value && c.feeManager != c.mediator
    requires Split(c, Move(s, token, from, c.mediator, value).value, t, token !in s.med.nativeOf, token, value, fee)
    ensures Bridged(c, s, t, token, value, fee)
  {
    hide Move;
    Moved(c, s, token, from, value);
  }

  lemma OnlyLedger(c: Config, s: State, token: Token, from: Address, value: nat)
    requires Move(s, token, from, c.mediator, value).Some?
    ensures var t := Move(s, token, from, c.mediator, value).value; t.amb == s.amb && t.med == s.med
  {
  }

  // ---------------------------------------------------------------- the owner, during a deposit

  function NoHook(): Hook {
    Hook(true, Nil)
  }

  function PlainEnv(): Env {
    Env(true, true, 0, true, 0, 0, NoHook(), NoHook(), NoHook(), NoHook(), NoHook())
  }

  /** Account 9 relays 10 of token 7, and the token's code lets the owner fix the mediator's balance meanwhile. */
  function FixedMeanwhile(): Action {
    RelayTokens(7, 9, 9, 10, false, false, Hook(true, Cons(FixBalance(7, 9, 10, PlainEnv()), Nil)), PlainEnv())
  }

  /** Then the same tokens are bridged twice, and the mediator's books show 20 where it has 10. */
  lemma FixMeanwhileCountsTwice(c: Config)
    requires c.mediator == 1 && c.other == 2 && !c.home
    ensures var s := WithBalance(Register(Blank(), 7), 7, 9, 10);
            var r := Run(c, s, FixedMeanwhile());
            && r.Some? && |r.value.amb.sent| == 2
            && r.value.amb.sent[0].payload.Tokens? && r.value.amb.sent[0].payload.value == 10
            && r.value.amb.sent[1].payload.Tokens? && r.value.amb.sent[1].payload.value == 10
            && Balance(r.value, 7, 1) == 10 && Get(r.value.med.mediatorBalance, 7) == 20
  {
    hide Pull, Run, Deposit;
    var s, a := WithBalance(Register(Blank(), 7), 7, 9, 10), FixedMeanwhile();
    var s1 := FixedPull(c);
    PlainDeposit(c, s1);
    RunsRelay(c, s, a);
  }

  lemma RunsRelay(c: Config, s: State, a: Action)
    requires a.RelayTokens? && a.from != c.mediator
    ensures Run(c, s, a) == Relay(c, s, a)
  {
    hide Relay;
  }

  lemma FixedPull(c: Config) returns (t: State)
    requires c.mediator == 1 && c.other == 2
    ensures Pull(c, WithBalance(Register(Blank(), 7), 7, 9, 10), FixedMeanwhile()) == Some(t)
    ensures |t.amb.sent| == 1 && t.amb.sent[0].payload.Tokens? && t.amb.sent[0].payload.value == 10
    ensures 7 !in t.med.nativeOf && !t.med.lock && Get(t.med.mediatorBalance, 7) == 10 && Balance(t, 7, 1) == 10
  {
    hide FixMediatorBalance;
    var s, a := SetLock(WithBalance(Register(Blank(), 7), 7, 9, 10), true), FixedMeanwhile();
    var s1 := Move(s, 7, 9, 1, 10).value;
    TransferLocked(c, s, 7, 9, 1, 10, false, 9, false, a.env);
    var s2 := Fixed(c, s1);
    assert RunAll(c, s2, Nil) == s2;
    assert RunAll(c, s1, a.pull.actions) == s2;
    t := SetLock(s2, false);
  }

  lemma Fixed(c: Config, s: State) returns (t: State)
    requires c.mediator == 1 && c.other == 2 && s.med == SetLock(Register(Blank(), 7), true).med
    requires s.amb == Blank().amb && Balance(s, 7, 1) == 10
    ensures FixMediatorBalance(c, s, 7, 9, 10, PlainEnv()) == Some(t) && t.ledger == s.ledger
    ensures Run(c, s, FixBalance(7, 9, 10, PlainEnv())) == Some(t)
    ensures |t.amb.sent| == 1 && t.amb.sent[0].payload.Tokens? && t.amb.sent[0].payload.value == 10
    ensures 7 !in t.med.nativeOf && Get(t.med.mediatorBalance, 7) == 10
  {
    t := FixMediatorBalance(c, s, 7, 9, 10, PlainEnv()).value;
  }

  lemma PlainDeposit(c: Config, s: State)
    requires c.mediator == 1 && c.other == 2 && !c.home && 7 !in s.med.nativeOf && Get(s.med.mediatorBalance, 7) == 10
    ensures var r := Deposit(c, s, 7, 9, 9, 10, false, PlainEnv());
            && r.Some? && |r.value.amb.sent| == |s.amb.sent| + 1 && r.value.amb.sent[..|s.amb.sent|] == s.amb.sent
            && r.value.amb.sent[|s.amb.sent|].payload.Tokens? && r.value.amb.sent[|s.amb.sent|].payload.value == 10
            && Get(r.value.med.mediatorBalance, 7) == 20 && Balance(r.value, 7, 1) == Balance(s, 7, 1)
  {
    hide PayOut, Invoke;
  }

  /** A plain transfer of a native token sends nothing; the owner can bridge exactly those tokens afterwards. */
  lemma ForcedTokensCanBeSent(c: Config, s: State, a: Action, receiver: Address, available: nat, env: Env)
    requires a.Transfer? && Run(c, s, a).Some? && a.to == c.mediator && !a.notify && a.token !in s.med.nativeOf
    requires Balance(s, a.token, c.mediator) == Get(s.med.mediatorBalance, a.token) && available >= a.value
    requires FixMediatorBalance(c, Run(c, s, a).value, a.token, receiver, available, env).Some?
    requires c.feeManager != c.mediator
    ensures var s1 := Run(c, s, a).value;
            var t := FixMediatorBalance(c, s1, a.token, receiver, available, env).value;
            && s1.amb == s.amb && s1.med == s.med
            && OneMessage(c, s, t, Order(true, a.token, receiver, receiver, false, env.gasLimit), a.value, 0)
            && Balance(t, a.token, c.mediator) == Get(t.med.mediatorBalance, a.token)
  {
    hide SendTokens;
    var s1 := Run(c, s, a).value;
    assert s1 == Move(s, a.token, a.from, c.mediator, a.value).value;
    SentOnce(c, s1, true, a.token, receiver, receiver, a.value, false, env);
  }
}
