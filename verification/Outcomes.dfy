/**
 * Exactly when a call goes through, and what it does then, if no code outside the contracts calls back: the guards of
 * all steps together, in terms of the state before the call.
 */
module Outcomes {
  import opened Words
  import opened Chain
  import opened Bridge
  import opened Locked
  import opened Deposits
  import opened Arrivals

  /** None of the code that is called on the way calls back into the contracts; it may revert. */
  predicate Undisturbed(env: Env) {
    Silent(env.feeCall) && Silent(env.distribute) && Silent(env.release)
  }

  /** A balance after a payment, of which the payer may be the mediator. */
  function After(c: Config, s: State, token: Token, isNative: bool, to: Address, value: nat, a: Address): int {
    Balance(s, token, a) + Gain(c, isNative, to, value, a)
  }

  lemma MoveExactly(c: Config, s: State, token: Token, to: Address, value: nat)
    ensures Move(s, token, c.mediator, to, value).Some?
       <==> value <= Balance(s, token, c.mediator) && to != 0 && After(c, s, token, true, to, value, to) < TWO_256
  {
  }

  lemma MintExactly(c: Config, s: State, token: Token, to: Address, value: nat)
    ensures Mint(s, token, to, value).Some?
       <==> Get(s.ledger.supply, token) + value < TWO_256 && After(c, s, token, false, to, value, to) < TWO_256
  {
  }

  // ---------------------------------------------------------------- fees on the way in

  predicate FeePayable(c: Config, s: State, isNative: bool, token: Token, env: Env) {
    && After(c, s, token, isNative, c.feeManager, env.fee, c.feeManager) < TWO_256
    && if isNative then env.feeCall.ok && c.feeManager != 0 && env.fee <= Balance(s, token, c.mediator)
       else Get(s.ledger.supply, token) + env.fee < TWO_256
  }

  /** A fee that cannot be paid is not due. */
  function FeeDue(c: Config, s: State, isNative: bool, token: Token, env: Env): nat {
    if c.home && FeePayable(c, s, isNative, token, env) then env.fee else 0
  }

  /** From s to t the fee was paid and nothing else happened. */
  ghost predicate OnlyFee(c: Config, s: State, t: State, isNative: bool, token: Token, fee: nat) {
    && t.amb == s.amb && t.med == s.med
    && (forall a: Address :: Balance(t, token, a) == After(c, s, token, isNative, c.feeManager, fee, a))
    && Get(t.ledger.supply, token) == Get(s.ledger.supply, token) + (if isNative then 0 else fee)
  }

  lemma PaysOnlyFee(c: Config, s: State, t: State, isNative: bool, token: Token, fee: nat)
    requires Pays(c, s, t, isNative, token, c.feeManager, fee)
    ensures OnlyFee(c, s, t, isNative, token, fee)
  {
  }

  /** Only distributing a fee can fail. */
  lemma FeeExactly(c: Config, s: State, isNative: bool, token: Token, env: Env)
    requires Undisturbed(env)
    ensures var r, fee := HandleFee(c, s, isNative, token, env), FeeDue(c, s, isNative, token, env);
            && (r.Some? <==> fee == 0 || env.distribute.ok)
            && (r.Some? ==> r.value.1 == fee && OnlyFee(c, s, r.value.0, isNative, token, fee))
  {
    hide Invoke, Move, Mint, Pays, OnlyFee;
    MoveExactly(c, s, token, c.feeManager, env.fee);
    MintExactly(c, s, token, c.feeManager, env.fee);
    var moved, minted := Move(s, token, c.mediator, c.feeManager, env.fee), Mint(s, token, c.feeManager, env.fee);
    if moved.Some? {
      MovePays(c, s, token, c.feeManager, env.fee);
      SilentCall(c, moved.value, env.feeCall);
      SilentCall(c, moved.value, env.distribute);
      PaysOnlyFee(c, s, moved.value, true, token, env.fee);
    }
    if minted.Some? {
      MintPays(c, s, token, c.feeManager, env.fee);
      SilentCall(c, minted.value, env.distribute);
      PaysOnlyFee(c, s, minted.value, false, token, env.fee);
    }
    NoFee(c, s, isNative, token);
  }

  lemma NoFee(c: Config, s: State, isNative: bool, token: Token)
    ensures OnlyFee(c, s, s, isNative, token, 0)
  {
  }

  // ---------------------------------------------------------------- arrivals

  lemma ReleaseExactly(c: Config, s: State, isNative: bool, token: Token, to: Address, value: nat, change: nat,
                       env: Env)
    requires Undisturbed(env)
    ensures Release(c, s, isNative, token, to, value, change, env).Some?
       <==> && After(c, s, token, isNative, to, value, to) < TWO_256
            && if isNative then
                 && to != 0 && env.release.ok && value <= Balance(s, token, c.mediator)
                 && change <= Get(s.med.mediatorBalance, token)
               else Get(s.ledger.supply, token) + value < TWO_256
  {
    hide Invoke, Move, Mint;
    MintExactly(c, s, token, to, value);
    MoveExactly(c, s, token, to, value);
    if isNative && Move(s, token, c.mediator, to, value).Some? {
      var s1 := Move(s, token, c.mediator, to, value).value;
      MovePays(c, s, token, to, value);
      SilentCall(c, s1, env.release);
    }
    if isNative && SubtractBalance(s, token, change).Some? {
      var s1 := SubtractBalance(s, token, change).value;
      MoveExactly(c, s1, token, to, value);
      if Move(s1, token, c.mediator, to, value).Some? {
        SilentCall(c, Move(s1, token, c.mediator, to, value).value, env.release);
      }
    }
  }

  /** The value can be handed out: the fee that is due first, then the rest to the recipient. */
  predicate CanPay(c: Config, s: State, isNative: bool, token: Token, to: Address, value: nat, env: Env) {
    var fee := FeeDue(c, s, isNative, token, env);
    && fee <= value && (fee > 0 ==> env.distribute.ok)
    && After(c, s, token, isNative, c.feeManager, fee, to) + Gain(c, isNative, to, value - fee, to) < TWO_256
    && if isNative then
         && to != 0 && env.release.ok && value <= Get(s.med.mediatorBalance, token)
         && value - fee <= After(c, s, token, true, c.feeManager, fee, c.mediator)
       else Get(s.ledger.supply, token) + value < TWO_256
  }

  lemma HandlingExactly(c: Config, s: State, isNative: bool, token: Token, to: Address, value: nat, env: Env)
    requires Undisturbed(env)
    ensures var r := HandleTokens(c, s, isNative, token, to, value, env);
            && (r.Some? <==> !s.med.lock && env.withinLimits && CanPay(c, s, isNative, token, to, value, env))
            && (r.Some? ==>
                  && Paid(c, s, r.value, isNative, token, to, value, FeeDue(c, s, isNative, token, env))
                  && r.value.amb == s.amb
                  && r.value.med == s.med.(mediatorBalance := r.value.med.mediatorBalance))
  {
    hide HandleFee, Release, Paid, FeePayable;
    FeeExactly(c, s, isNative, token, env);
    var fee := HandleFee(c, s, isNative, token, env);
    if fee.Some? && fee.value.1 <= value {
      var rest: nat := value - fee.value.1;
      ReleaseExactly(c, fee.value.0, isNative, token, to, rest, value, env);
      if !s.med.lock && env.withinLimits && Release(c, fee.value.0, isNative, token, to, rest, value, env).Some? {
        HandledPays(c, s, isNative, token, to, value, env);
        ReleasePays(c, fee.value.0, isNative, token, to, rest, value, env);
      }
    }
  }

  /** A refund goes through exactly for messages recorded and not yet refunded whose value can be paid. */
  lemma RefundExactly(c: Config, s: State, id: Digest, env: Env)
    requires Undisturbed(env)
    ensures FixFailedMessage(c, s, id, env).Some?
       <==> id !in s.med.fixed && id in s.med.ops &&
            var op := s.med.ops[id];
            var isNative := op.token !in s.med.nativeOf;
            && After(c, s, op.token, isNative, op.recipient, op.value, op.recipient) < TWO_256
            && if isNative then
                 && op.recipient != 0 && env.release.ok && op.value <= Balance(s, op.token, c.mediator)
                 && op.value <= Get(s.med.mediatorBalance, op.token)
               else Get(s.ledger.supply, op.token) + op.value < TWO_256
  {
    hide Release;
    if id !in s.med.fixed && id in s.med.ops {
      var op := s.med.ops[id];
      ReleaseExactly(c, MarkFixed(s, id), op.token !in s.med.nativeOf, op.token, op.recipient, op.value, op.value, env);
    }
  }

  // ---------------------------------------------------------------- deposits

  /** The guards of all steps of a deposit, once the value has come in. */
  predicate CanDeposit(c: Config, s: State, token: Token, receiver: Address, value: nat, env: Env) {
    var fee := FeeOf(c, env);
    && receiver != 0 && receiver != c.other && token != 0 && env.withinLimits && env.gasLimit <= c.maxGasPerTx
    && fee <= value
    && (fee > 0 ==>
          && env.feeCall.ok && env.distribute.ok && c.feeManager != 0 && fee <= Balance(s, token, c.mediator)
          && After(c, s, token, true, c.feeManager, fee, c.feeManager) < TWO_256)
    && if token in s.med.nativeOf then
         && value - fee <= After(c, s, token, true, c.feeManager, fee, c.mediator)
         && value - fee <= Get(s.ledger.supply, token)
       else
         && Get(s.med.mediatorBalance, token) + value - fee < TWO_256
         && (token in s.med.acked || env.hasName)
  }

  lemma DepositExactly(c: Config, s: State, token: Token, from: Address, receiver: Address, value: nat, withCall: bool,
                       env: Env)
    requires Undisturbed(env)
    ensures Deposit(c, s, token, from, receiver, value, withCall, env).Some?
       <==> CanDeposit(c, s, token, receiver, value, env)
  {
    hide DepositFee, SendTokens;
    var s0 := Register(s, token);
    DepositFeeExactly(c, s0, token, env);
    var fee := DepositFee(c, s0, token, env);
    if fee.Some? && fee.value.1 <= value {
      SendingExactly(c, fee.value.0, token !in s.med.nativeOf, token, from, receiver, value - fee.value.1, withCall,
                     env);
    }
  }

  lemma DepositFeeExactly(c: Config, s: State, token: Token, env: Env)
    requires Undisturbed(env)
    ensures var r, fee := DepositFee(c, s, token, env), FeeOf(c, env);
            && (r.Some? <==>
                  fee == 0
                  || (&& env.feeCall.ok && env.distribute.ok && c.feeManager != 0
                      && fee <= Balance(s, token, c.mediator)
                      && After(c, s, token, true, c.feeManager, fee, c.feeManager) < TWO_256))
            && (r.Some? ==> r.value.1 == fee && OnlyFee(c, s, r.value.0, true, token, fee))
  {
    hide Invoke, Move, OnlyFee, Pays;
    MoveExactly(c, s, token, c.feeManager, env.fee);
    var moved := Move(s, token, c.mediator, c.feeManager, env.fee);
    if moved.Some? {
      MovePays(c, s, token, c.feeManager, env.fee);
      SilentCall(c, moved.value, env.feeCall);
      SilentCall(c, moved.value, env.distribute);
      PaysOnlyFee(c, s, moved.value, true, token, env.fee);
    }
    NoFee(c, s, true, token);
  }

  lemma SendingExactly(c: Config, s: State, isNative: bool, token: Token, from: Address, receiver: Address, value: nat,
                       withCall: bool, env: Env)
    ensures SendTokens(c, s, isNative, token, from, receiver, value, withCall, env).Some?
       <==> && env.gasLimit <= c.maxGasPerTx
            && if isNative then
                 Get(s.med.mediatorBalance, token) + value < TWO_256 && (token in s.med.acked || env.hasName)
               else value <= Balance(s, token, c.mediator) && value <= Get(s.ledger.supply, token)
  {
  }

  /** relayTokens with a token that moves its value and does nothing else: all guards of the whole call. */
  lemma RelayExactly(c: Config, s: State, a: Action)
    requires a.RelayTokens? && Undisturbed(a.env) && Silent(a.pull)
    requires c.feeManager != c.mediator && a.from != c.feeManager
    ensures Run(c, s, a).Some?
       <==> && !s.med.lock && a.from != c.mediator && a.pull.ok
            && var moved := Move(s, a.token, a.from, c.mediator, a.value);
               moved.Some? && CanDeposit(c, moved.value, a.token, a.receiver, a.value, a.env)
  {
    hide Run, Pull, Deposit, Move, CanDeposit;
    RelayRuns(c, s, a);
    PullExactly(c, s, a);
    if a.from != c.mediator && Pull(c, s, a).Some? {
      PlainPull(c, s, a);
      OnlyLedger(c, s, a.token, a.from, a.value);
      if !s.med.lock {
        assert Pull(c, s, a).value == Move(s, a.token, a.from, c.mediator, a.value).value;
        DepositExactly(c, Pull(c, s, a).value, a.token, a.from, a.receiver, a.value, a.withCall, a.env);
      }
    }
  }

  lemma RelayRuns(c: Config, s: State, a: Action)
    requires a.RelayTokens?
    ensures Run(c, s, a)
         == if s.med.lock || a.from == c.mediator || Pull(c, s, a) == None then None
            else
              var s1 := Pull(c, s, a).value;
              var grown := Balance(s1, a.token, c.mediator) - Balance(s, a.token, c.mediator);
              if grown < 0 || grown > a.value then None
              else Deposit(c, s1, a.token, a.from, a.receiver, grown, a.withCall, a.env)
  {
    hide Pull, Deposit;
  }

  lemma PullExactly(c: Config, s: State, a: Action)
    requires a.RelayTokens? && Silent(a.pull)
    ensures var moved := Move(s, a.token, a.from, c.mediator, a.value);
            && (Pull(c, s, a).Some? <==> moved.Some? && a.pull.ok)
            && (Pull(c, s, a).Some? ==> Pull(c, s, a).value == SetLock(moved.value, false))
  {
    hide Invoke, TransferFrom;
    var s0 := SetLock(s, true);
    TransferLocked(c, s0, a.token, a.from, c.mediator, a.value, a.notify, a.from, false, a.env);
    if Move(s0, a.token, a.from, c.mediator, a.value).Some? {
      SilentCall(c, Move(s0, a.token, a.from, c.mediator, a.value).value, a.pull);
    }
  }

  /** A transfer to the mediator with callback goes through under the same guards. */
  lemma TransferExactly(c: Config, s: State, a: Action)
    requires a.Transfer? && a.to == c.mediator && (a.notify || a.token in s.med.nativeOf) && !s.med.lock
    requires Undisturbed(a.env)
    ensures Run(c, s, a).Some?
       <==> a.from != c.mediator
            && var moved := Move(s, a.token, a.from, c.mediator, a.value);
               moved.Some? && CanDeposit(c, moved.value, a.token, a.receiver, a.value, a.env)
  {
    hide Run, Deposit, Move, CanDeposit;
    var moved := Move(s, a.token, a.from, c.mediator, a.value);
    TransferRuns(c, s, a);
    if moved.Some? {
      OnlyLedger(c, s, a.token, a.from, a.value);
      DepositExactly(c, moved.value, a.token, a.from, a.receiver, a.value, a.withCall, a.env);
    }
  }

  lemma TransferRuns(c: Config, s: State, a: Action)
    requires a.Transfer? && a.to == c.mediator && (a.notify || a.token in s.med.nativeOf) && !s.med.lock
    ensures var moved := Move(s, a.token, a.from, c.mediator, a.value);
            Run(c, s, a) == if a.from == c.mediator || moved == None then None
                            else Deposit(c, moved.value, a.token, a.from, a.receiver, a.value, a.withCall, a.env)
  {
    hide Deposit, Move;
    assert a.from != c.mediator ==>
        Run(c, s, a) == TransferFrom(c, s, a.token, a.from, a.to, a.value, a.notify, a.receiver, a.withCall, a.env);
    var moved := Move(s, a.token, a.from, c.mediator, a.value);
    if a.from != c.mediator && moved.Some? {
      OnlyLedger(c, s, a.token, a.from, a.value);
      assert Run(c, s, a)
          == OnTokenTransfer(c, moved.value, a.token, a.from, a.receiver, a.value, a.withCall, a.env);
    }
  }

  /**
   * fixMediatorBalance sends what the mediator has beyond its books, as far as the limit allows, in one message to the
   * receiver, who also gets it back should it fail.
   */
  lemma FixExactly(c: Config, s: State, token: Token, receiver: Address, available: nat, env: Env)
    ensures var r := Run(c, s, FixBalance(token, receiver, available, env));
            var balance, held := Balance(s, token, c.mediator), Get(s.med.mediatorBalance, token);
            var sum := if balance < held + available then balance else held + available;
            && (r.Some? <==>
                  && receiver != 0 && token != 0 && token in s.med.registered && token !in s.med.nativeOf
                  && sum > held && sum < TWO_256 && (token in s.med.acked || env.hasName)
                  && env.gasLimit <= c.maxGasPerTx)
            && (r.Some? ==>
                  && OneMessage(c, s, r.value, Order(true, token, receiver, receiver, false, env.gasLimit), sum - held,
                                0)
                  && r.value.ledger == s.ledger && Get(r.value.med.mediatorBalance, token) == sum)
  {
    hide SendTokens, OneMessage;
    var balance, held := Balance(s, token, c.mediator), Get(s.med.mediatorBalance, token);
    if balance > held {
      var diff: nat := if balance - held > available then available else balance - held;
      SendingExactly(c, s, true, token, receiver, receiver, diff, false, env);
      if SendTokens(c, s, true, token, receiver, receiver, diff, false, env).Some? {
        SendsOne(c, s, true, token, receiver, receiver, diff, false, env);
        SendingBooks(c, s, token, receiver, diff, env);
      }
    }
  }

  lemma SendingBooks(c: Config, s: State, token: Token, receiver: Address, value: nat, env: Env)
    requires SendTokens(c, s, true, token, receiver, receiver, value, false, env).Some?
    ensures var t := SendTokens(c, s, true, token, receiver, receiver, value, false, env).value;
            t.ledger == s.ledger && Get(t.med.mediatorBalance, token) == Get(s.med.mediatorBalance, token) + value
  {
  }

  /** Any other transfer is one between two accounts and nothing else. */
  lemma PlainTransferExactly(c: Config, s: State, a: Action)
    requires a.Transfer? && (a.to != c.mediator || (!a.notify && a.token !in s.med.nativeOf))
    ensures Run(c, s, a) == if a.from == c.mediator then None else Move(s, a.token, a.from, a.to, a.value)
  {
    hide Move, OnTokenTransfer;
    assert a.from != c.mediator ==>
        Run(c, s, a) == TransferFrom(c, s, a.token, a.from, a.to, a.value, a.notify, a.receiver, a.withCall, a.env);
    if Move(s, a.token, a.from, a.to, a.value).Some? {
      MovesLedger(s, a.token, a.from, a.to, a.value);
    }
  }

  lemma MovesLedger(s: State, token: Token, from: Address, to: Address, value: nat)
    requires Move(s, token, from, to, value).Some?
    ensures var t := Move(s, token, from, to, value).value; t.amb == s.amb && t.med == s.med
  {
  }

  /** Holders other than the mediator can burn what they have of a bridged token. */
  lemma BurnExactly(c: Config, s: State, token: Token, holder: Address, value: nat)
    ensures var r := Run(c, s, Burn(token, holder, value));
            && (r.Some? <==>
                  && holder != c.mediator && token in s.med.nativeOf
                  && value <= Balance(s, token, holder) && value <= Get(s.ledger.supply, token))
            && (r.Some? ==>
                  && r.value.amb == s.amb && r.value.med == s.med
                  && (forall u: Token, a: Address ::
                        Balance(r.value, u, a) == Balance(s, u, a) - (if (u, a) == (token, holder) then value else 0))
                  && Get(r.value.ledger.supply, token) == Get(s.ledger.supply, token) - value
                  && Get(r.value.ledger.burned, token) == Get(s.ledger.burned, token) + value)
  {
  }

  // ---------------------------------------------------------------- messages

  /** Whoever but the mediator calls requireToPassMessage, within the gas limit, has a message sent in his own name. */
  lemma PassExactly(c: Config, s: State, sender: Address, receiver: Address, payload: Payload, gasLimit: nat)
    ensures Run(c, s, PassMessage(sender, receiver, payload, gasLimit))
         == if sender == c.mediator || gasLimit > c.maxGasPerTx then None
            else
              var m := Message(|s.amb.sent|, sender, receiver, gasLimit, payload);
              Some(s.(amb := s.amb.(sent := s.amb.sent + [m])))
  {
  }

  /** A refund can be asked for exactly if the message was executed without success and is one between the mediators. */
  lemma RequestExactly(c: Config, s: State, m: Message, gasLimit: nat)
    ensures Run(c, s, RequestFix(m, gasLimit))
         == if || c.keccak(m) !in s.amb.status || s.amb.status[c.keccak(m)]
               || m.receiver != c.mediator || m.sender != c.other || gasLimit > c.maxGasPerTx then None
            else
              var request := Message(|s.amb.sent|, c.mediator, c.other, gasLimit, FixFailed(c.keccak(m)));
              Some(s.(amb := s.amb.(sent := s.amb.sent + [request])))
  {
  }

  /** A message is executed once, if it can be looked up and nothing else is being executed; its outcome is recorded. */
  lemma ExecuteExactly(c: Config, s: State, m: Message, route: Route, env: Env)
    ensures var id, r := c.keccak(m), Run(c, s, ExecuteMessage(m, route, env));
            && (r.Some? <==>
                  && id !in s.amb.status && s.amb.messageId == EMPTY_MESSAGE_ID && LookUp(c, s, m, route).Some?)
            && (r.Some? ==>
                  var started := Open(LookUp(c, s, m, route).value, id, m.sender);
                  var done := Deliver(c, started, m, env);
                  r.value == if done.Some? then Close(done.value, id, true) else Close(started, id, false))
  {
    hide Deliver;
    if LookUp(c, s, m, route).Some? {
      var s1 := LookUp(c, s, m, route).value;
      assert s1.amb.messageId == s.amb.messageId;
    }
  }

  /** A receiver other than the mediator is called: it sees the message's sender, and its success is the outcome. */
  lemma ReceiverIsCalled(c: Config, s: State, m: Message, env: Env)
    requires m.receiver != c.mediator || m.payload.Call?
    ensures Deliver(c, s, m, env) == if env.enoughGas && env.run.ok then Some(RunAll(c, s, env.run.actions)) else None
  {
  }
}
