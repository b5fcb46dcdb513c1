/** What an executed message pays, what a refund pays, and that a failed execution pays nothing. */
module Arrivals {
  import opened Words
  import opened Chain
  import opened Bridge
  import opened Deposits

  // ---------------------------------------------------------------- payments, whatever reenters between them

  /** By how much a payment changes the balance of account a; a native token is paid by the mediator. */
  function Gain(c: Config, isNative: bool, to: Address, value: nat, a: Address): int {
    (if a == to then value else 0) - (if isNative && a == c.mediator then value else 0)
  }

  /** From s to t exactly one payment was made, out of the mediator's holdings or newly minted. */
  ghost predicate Pays(c: Config, s: State, t: State, isNative: bool, token: Token, to: Address, value: nat) {
    && t.amb == s.amb && t.med == s.med && t.ledger.burned == s.ledger.burned
    && (forall a: Address :: Balance(t, token, a) == Balance(s, token, a) + Gain(c, isNative, to, value, a))
    && Get(t.ledger.supply, token) == Get(s.ledger.supply, token) + (if isNative then 0 else value)
    && (forall u: Token, a: Address | u != token :: Balance(t, u, a) == Balance(s, u, a))
    && (forall u: Token | u != token :: Get(t.ledger.supply, u) == Get(s.ledger.supply, u))
  }

  /** From s to t the mediator's books of a token went down. */
  ghost predicate Booked(s: State, t: State, token: Token, change: nat) {
    && t.amb == s.amb && t.ledger == s.ledger && t.med == s.med.(mediatorBalance := t.med.mediatorBalance)
    && Get(t.med.mediatorBalance, token) == Get(s.med.mediatorBalance, token) - change
    && forall u: Token | u != token :: Get(t.med.mediatorBalance, u) == Get(s.med.mediatorBalance, u)
  }

  /** From s to t nothing happened but calls from outside. */
  ghost predicate Reached(c: Config, s: State, t: State) {
    exists actions :: t == RunAll(c, s, actions)
  }

  /** The fee: one payment to the fee manager, and then calls from outside; none if its payment fails. */
  ghost predicate FeePaid(c: Config, s: State, t: State, isNative: bool, token: Token, env: Env, fee: nat) {
    if fee == 0 then
      t == s
      && (c.home && env.fee > 0 ==>
            (if isNative then PayOut(c, s, token, c.feeManager, env.fee, env.feeCall)
             else Mint(s, token, c.feeManager, env.fee)) == None)
    else c.home && fee == env.fee && exists v :: Pays(c, s, v, isNative, token, c.feeManager, fee) && Reached(c, v, t)
  }

  /**
   * The release: one payment to the recipient, with calls from outside if the token is native. The home mediator then
   * reduces its books, the foreign one did so before.
   */
  ghost predicate Released(c: Config, s: State, t: State, isNative: bool, token: Token, to: Address, value: nat,
                           change: nat) {
    if !isNative then Pays(c, s, t, false, token, to, value)
    else if c.home then
      exists u, v :: Pays(c, s, u, true, token, to, value) && Reached(c, u, v) && Booked(v, t, token, change)
    else
      exists u, v :: Booked(s, u, token, change) && Pays(c, u, v, true, token, to, value) && Reached(c, v, t)
  }

  lemma MovePays(c: Config, s: State, token: Token, to: Address, value: nat)
    requires Move(s, token, c.mediator, to, value).Some?
    ensures Pays(c, s, Move(s, token, c.mediator, to, value).value, true, token, to, value)
  {
  }

  lemma MintPays(c: Config, s: State, token: Token, to: Address, value: nat)
    requires Mint(s, token, to, value).Some?
    ensures Pays(c, s, Mint(s, token, to, value).value, false, token, to, value)
  {
  }

  lemma SubtractBooks(s: State, token: Token, change: nat)
    requires SubtractBalance(s, token, change).Some?
    ensures Booked(s, SubtractBalance(s, token, change).value, token, change)
  {
  }

  function Append(a: Actions, b: Actions): Actions {
    match a
    case Nil => b
    case Cons(x, rest) => Cons(x, Append(rest, b))
  }

  lemma {:induction false} RunAppend(c: Config, s: State, a: Actions, b: Actions)
    ensures RunAll(c, RunAll(c, s, a), b) == RunAll(c, s, Append(a, b))
    decreases a
  {
    hide Run;
    match a {
      case Nil =>
      case Cons(x, rest) =>
        var r := Run(c, s, x);
        RunAppend(c, if r.Some? then r.value else s, rest, b);
    }
  }

  lemma InvokeReaches(c: Config, s: State, hook: Hook)
    requires Invoke(c, s, hook).Some?
    ensures Reached(c, s, Invoke(c, s, hook).value)
  {
    Called(c, s, hook);
  }

  lemma ReachedTwice(c: Config, r: State, s: State, t: State)
    requires Reached(c, r, s) && Reached(c, s, t)
    ensures Reached(c, r, t)
  {
    hide RunAll;
    var a :| s == RunAll(c, r, a);
    var b :| t == RunAll(c, s, b);
    RunAppend(c, r, a, b);
  }

  lemma HandleFeePaid(c: Config, s: State, isNative: bool, token: Token, env: Env)
    requires HandleFee(c, s, isNative, token, env).Some?
    ensures var r := HandleFee(c, s, isNative, token, env).value; FeePaid(c, s, r.0, isNative, token, env, r.1)
  {
    hide Invoke, Move, Mint, Pays, Reached;
    var r := HandleFee(c, s, isNative, token, env).value;
    if r.1 != 0 {
      if isNative {
        var v := Move(s, token, c.mediator, c.feeManager, env.fee).value;
        MovePays(c, s, token, c.feeManager, env.fee);
        InvokeReaches(c, v, env.feeCall);
        var w := Invoke(c, v, env.feeCall).value;
        InvokeReaches(c, w, env.distribute);
        ReachedTwice(c, v, w, r.0);
      } else {
        MintPays(c, s, token, c.feeManager, env.fee);
        InvokeReaches(c, Mint(s, token, c.feeManager, env.fee).value, env.distribute);
      }
    }
  }

  lemma ReleaseReleases(c: Config, s: State, isNative: bool, token: Token, to: Address, value: nat, change: nat,
                        env: Env)
    requires Release(c, s, isNative, token, to, value, change, env).Some?
    ensures Released(c, s, Release(c, s, isNative, token, to, value, change, env).value, isNative, token, to, value,
                     change)
  {
    hide Invoke, Move, Mint, Pays, Reached, SubtractBalance, Booked;
    var t := Release(c, s, isNative, token, to, value, change, env).value;
    if !isNative {
      MintPays(c, s, token, to, value);
    } else if c.home {
      var u := Move(s, token, c.mediator, to, value).value;
      MovePays(c, s, token, to, value);
      InvokeReaches(c, u, env.release);
      SubtractBooks(Invoke(c, u, env.release).value, token, change);
    } else {
      var u := SubtractBalance(s, token, change).value;
      SubtractBooks(s, token, change);
      MovePays(c, u, token, to, value);
      InvokeReaches(c, Move(u, token, c.mediator, to, value).value, env.release);
    }
  }

  // ---------------------------------------------------------------- payments with nothing between them

  /** From s to t a token of this chain was paid out: value in all, a part of it as a fee. */
  ghost predicate Paid(c: Config, s: State, t: State, isNative: bool, token: Token, recipient: Address, value: nat,
                       fee: nat) {
    && fee <= value
    && (forall a: Address ::
          Balance(t, token, a) == Balance(s, token, a) + Gain(c, isNative, c.feeManager, fee, a)
                                  + Gain(c, isNative, recipient, value - fee, a))
    && Get(t.ledger.supply, token) == Get(s.ledger.supply, token) + (if isNative then 0 else value)
    && Get(t.med.mediatorBalance, token) == Get(s.med.mediatorBalance, token) - (if isNative then value else 0)
  }

  lemma HandleFeePays(c: Config, s: State, isNative: bool, token: Token, env: Env)
    requires HandleFee(c, s, isNative, token, env).Some? && Silent(env.feeCall) && Silent(env.distribute)
    ensures var r := HandleFee(c, s, isNative, token, env).value;
            (r.0 == s && r.1 == 0) || Pays(c, s, r.0, isNative, token, c.feeManager, r.1)
  {
    hide Invoke, Move, Mint, Pays;
    if c.home && env.fee != 0 {
      var moved := Move(s, token, c.mediator, c.feeManager, env.fee);
      if moved.Some? {
        MovePays(c, s, token, c.feeManager, env.fee);
        SilentCall(c, moved.value, env.feeCall);
        SilentCall(c, moved.value, env.distribute);
      }
      var minted := Mint(s, token, c.feeManager, env.fee);
      if minted.Some? {
        MintPays(c, s, token, c.feeManager, env.fee);
        SilentCall(c, minted.value, env.distribute);
      }
    }
  }

  /** The recipient gets the value that is to be released, whichever order the mediator keeps. */
  lemma ReleasePays(c: Config, s: State, isNative: bool, token: Token, to: Address, value: nat, change: nat, env: Env)
    requires Release(c, s, isNative, token, to, value, change, env).Some? && Silent(env.release)
    ensures var t := Release(c, s, isNative, token, to, value, change, env).value;
            && t.amb == s.amb && t.med == s.med.(mediatorBalance := t.med.mediatorBalance)
            && (forall a: Address :: Balance(t, token, a) == Balance(s, token, a) + Gain(c, isNative, to, value, a))
            && Get(t.med.mediatorBalance, token) == Get(s.med.mediatorBalance, token) - (if isNative then change else 0)
            && Get(t.ledger.supply, token) == Get(s.ledger.supply, token) + (if isNative then 0 else value)
  {
    hide Invoke, Move, Mint, SubtractBalance, Gain;
    if isNative {
      var s0 := if c.home then s else SubtractBalance(s, token, change).value;
      var s1 := Move(s0, token, c.mediator, to, value).value;
      SilentCall(c, s1, env.release);
      MovePays(c, s0, token, to, value);
      SubtractBooks(if c.home then s1 else s, token, change);
    } else {
      MintPays(c, s, token, to, value);
    }
  }

  /**
   * An executed transfer pays its whole value, whatever reenters: first the fee, in one payment, then what is left of
   * the value, in one payment to the recipient, and the books of the native side go down by the value. If nothing
   * reenters, these are all the changes.
   */
  lemma HandleTokensPays(c: Config, s: State, isNative: bool, token: Token, recipient: Address, value: nat, env: Env)
    requires HandleTokens(c, s, isNative, token, recipient, value, env).Some?
    ensures var t := HandleTokens(c, s, isNative, token, recipient, value, env).value;
            exists fee: nat, u ::
              && fee <= value && FeePaid(c, s, u, isNative, token, env, fee)
              && Released(c, u, t, isNative, token, recipient, value - fee, value)
              && (Silent(env.feeCall) && Silent(env.distribute) && Silent(env.release) ==>
                    Paid(c, s, t, isNative, token, recipient, value, fee))
  {
    hide HandleFee, Release, FeePaid, Released, Paid;
    var r := HandleFee(c, s, isNative, token, env).value;
    HandleFeePaid(c, s, isNative, token, env);
    ReleaseReleases(c, r.0, isNative, token, recipient, value - r.1, value, env);
    if Silent(env.feeCall) && Silent(env.distribute) && Silent(env.release) {
      HandledPays(c, s, isNative, token, recipient, value, env);
    }
  }

  lemma HandledPays(c: Config, s: State, isNative: bool, token: Token, recipient: Address, value: nat, env: Env)
    requires HandleTokens(c, s, isNative, token, recipient, value, env).Some?
    requires Silent(env.feeCall) && Silent(env.distribute) && Silent(env.release)
    ensures Paid(c, s, HandleTokens(c, s, isNative, token, recipient, value, env).value, isNative, token, recipient,
                 value, HandleFee(c, s, isNative, token, env).value.1)
  {
    hide HandleFee, Release;
    var r := HandleFee(c, s, isNative, token, env).value;
    HandleFeePays(c, s, isNative, token, env);
    ReleasePays(c, r.0, isNative, token, recipient, value - r.1, value, env);
  }

  /** A refund flags the message and pays the recorded value to the recorded account, without a fee. */
  lemma RefundPays(c: Config, s: State, id: Digest, env: Env)
    requires FixFailedMessage(c, s, id, env).Some?
    ensures id in s.med.ops
    ensures var t, op := FixFailedMessage(c, s, id, env).value, s.med.ops[id];
            var isNative := op.token !in s.med.nativeOf;
            && id !in s.med.fixed
            && Released(c, MarkFixed(s, id), t, isNative, op.token, op.recipient, op.value, op.value)
            && (Silent(env.release) ==>
                  t.med.fixed == s.med.fixed + {id} && Paid(c, s, t, isNative, op.token, op.recipient, op.value, 0))
  {
    hide Release, Released;
    var op := s.med.ops[id];
    var isNative := op.token !in s.med.nativeOf;
    ReleaseReleases(c, MarkFixed(s, id), isNative, op.token, op.recipient, op.value, op.value, env);
    if Silent(env.release) {
      ReleasePays(c, MarkFixed(s, id), isNative, op.token, op.recipient, op.value, op.value, env);
    }
  }

  /** A failed execution leaves no trace but its outcome: no payment, no message, no refund flag. */
  lemma FailedExecutionPaysNothing(c: Config, s: State, m: Message, route: Route, env: Env)
    requires Execute(c, s, m, route, env).Some? && !Execute(c, s, m, route, env).value.amb.status[c.keccak(m)]
    ensures var t := Execute(c, s, m, route, env).value;
            && t.med == s.med && t.ledger == s.ledger && t.amb.sent == s.amb.sent
            && t.amb.status == s.amb.status[c.keccak(m) := false]
  {
    hide Deliver;
    var s1 := LookUp(c, s, m, route).value;
    assert s1 == s.(amb := s.amb.(storageRoot := s1.amb.storageRoot));
  }

  /** Nothing but the message's own state stands in the way of an unlock that the mediator's holdings cover. */
  lemma CoveredUnlockSucceeds(c: Config, s: State, token: Token, recipient: Address, value: nat, env: Env)
    requires !s.med.lock && env.withinLimits && !c.home && recipient != 0 && recipient != c.mediator
    requires Silent(env.release) && env.release.ok
    requires SubtractBalance(s, token, value).Some? && Balance(s, token, c.mediator) >= value
    requires Balance(s, token, recipient) + value < TWO_256
    ensures HandleTokens(c, s, true, token, recipient, value, env).Some?
  {
    hide Invoke;
    var s1 := SubtractBalance(s, token, value).value;
    SilentCall(c, Move(s1, token, c.mediator, recipient, value).value, env.release);
    assert HandleFee(c, s, true, token, env) == Some((s, 0));
    assert Release(c, s, true, token, recipient, value - 0, value, env)
           == PayOut(c, s1, token, recipient, value, env.release);
  }
}
