/** The mediator really has the native tokens that its books say it has, whatever reenters. */
module Solvency {
  import opened Words
  import opened Chain
  import opened Bridge
  import opened Locked
  import opened Custody
  import opened TwoChains

  /** What the mediator has of a token beyond what its books say. */
  ghost function Surplus(c: Config, s: State, token: Token): int {
    Balance(s, token, c.mediator) - Get(s.med.mediatorBalance, token)
  }

  /** From s to t the surplus of a native token drops by d at most. Bridged tokens are not in the books. */
  ghost predicate Drops(c: Config, s: State, t: State, token: Token, d: int) {
    && s.med.nativeOf.Keys <= t.med.nativeOf.Keys
    && (token !in t.med.nativeOf ==> Surplus(c, t, token) >= Surplus(c, s, token) - d)
  }

  lemma DropsTrans(c: Config, r: State, s: State, t: State, token: Token, d: int, e: int)
    requires Drops(c, r, s, token, d) && Drops(c, s, t, token, e)
    ensures Drops(c, r, t, token, d + e)
  {
  }

  /** The part of an amount of one token that concerns another one. */
  function Of(amount: int, token: Token, other: Token): int {
    if token == other then amount else 0
  }

  // ---------------------------------------------------------------- single steps

  lemma MoveDrops(c: Config, s: State, token: Token, from: Address, to: Address, value: nat, x: Token)
    requires Move(s, token, from, to, value).Some?
    ensures Drops(c, s, Move(s, token, from, to, value).value, x,
                  Of((if from == c.mediator then value else 0) - (if to == c.mediator then value else 0), token, x))
  {
  }

  lemma MintDrops(c: Config, s: State, token: Token, to: Address, value: nat, x: Token)
    requires Mint(s, token, to, value).Some?
    ensures Drops(c, s, Mint(s, token, to, value).value, x, 0)
  {
  }

  lemma SubtractDrops(c: Config, s: State, token: Token, change: nat, x: Token)
    requires SubtractBalance(s, token, change).Some?
    ensures Drops(c, s, SubtractBalance(s, token, change).value, x, Of(-(change as int), token, x))
  {
  }

  lemma SendTokensDrops(c: Config, s: State, isNative: bool, token: Token, from: Address, receiver: Address, value: nat,
                        withCall: bool, env: Env, x: Token)
    requires SendTokens(c, s, isNative, token, from, receiver, value, withCall, env).Some?
    requires isNative || token in s.med.nativeOf
    ensures Drops(c, s, SendTokens(c, s, isNative, token, from, receiver, value, withCall, env).value, x,
                  Of(value, token, x))
  {
  }

  // ---------------------------------------------------------------- calls from outside

  lemma InvokeDrops(c: Config, s: State, hook: Hook, x: Token)
    requires AllWithout(Tamper(c.mediator, x), hook.actions) && Invoke(c, s, hook).Some?
    ensures Drops(c, s, Invoke(c, s, hook).value, x, 0)
    decreases hook, 0
  {
    hide Drops;
    RunAllDrops(c, s, hook.actions, x);
  }

  lemma RunAllDrops(c: Config, s: State, actions: Actions, x: Token)
    requires AllWithout(Tamper(c.mediator, x), actions)
    ensures Drops(c, s, RunAll(c, s, actions), x, 0)
    decreases actions, 0
  {
    match actions {
      case Nil =>
      case Cons(a, rest) =>
        hide Drops, Run;
        var r := Run(c, s, a);
        if r.Some? {
          RunDrops(c, s, a, x);
          RunAllDrops(c, r.value, rest, x);
          DropsTrans(c, s, r.value, RunAll(c, r.value, rest), x, 0, 0);
        } else {
          RunAllDrops(c, s, rest, x);
        }
    }
  }

  lemma PayOutDrops(c: Config, s: State, token: Token, to: Address, value: nat, hook: Hook, x: Token)
    requires AllWithout(Tamper(c.mediator, x), hook.actions) && PayOut(c, s, token, to, value, hook).Some?
    ensures Drops(c, s, PayOut(c, s, token, to, value, hook).value, x, Of(value, token, x))
    decreases hook, 1
  {
    hide Invoke, Move;
    var s1 := Move(s, token, c.mediator, to, value).value;
    MoveDrops(c, s, token, c.mediator, to, value, x);
    InvokeDrops(c, s1, hook, x);
  }

  // ---------------------------------------------------------------- deposits

  lemma TransferFromDrops(c: Config, s: State, token: Token, from: Address, to: Address, value: nat, notify: bool,
                          receiver: Address, withCall: bool, env: Env, x: Token)
    requires EnvWithout(Tamper(c.mediator, x), env) && from != c.mediator
    requires TransferFrom(c, s, token, from, to, value, notify, receiver, withCall, env).Some?
    ensures Drops(c, s, TransferFrom(c, s, token, from, to, value, notify, receiver, withCall, env).value, x, 0)
    decreases env, 4
  {
    hide Move, OnTokenTransfer;
    var s1 := Move(s, token, from, to, value).value;
    MoveDrops(c, s, token, from, to, value, x);
    if to == c.mediator && (notify || token in s.med.nativeOf) {
      OnTokenTransferDrops(c, s1, token, from, receiver, value, withCall, env, x);
    }
  }

  lemma OnTokenTransferDrops(c: Config, s: State, token: Token, from: Address, receiver: Address, value: nat,
                             withCall: bool, env: Env, x: Token)
    requires EnvWithout(Tamper(c.mediator, x), env)
    requires OnTokenTransfer(c, s, token, from, receiver, value, withCall, env).Some?
    ensures Drops(c, s, OnTokenTransfer(c, s, token, from, receiver, value, withCall, env).value, x,
                  Of(value, token, x))
    decreases env, 3
  {
    hide Deposit;
    if !s.med.lock {
      DepositDrops(c, s, token, from, receiver, value, withCall, env, x);
    }
  }

  /** A deposit costs at most the deposited value. */
  lemma DepositDrops(c: Config, s: State, token: Token, from: Address, receiver: Address, value: nat, withCall: bool,
                     env: Env, x: Token)
    requires EnvWithout(Tamper(c.mediator, x), env)
    requires Deposit(c, s, token, from, receiver, value, withCall, env).Some?
    ensures Drops(c, s, Deposit(c, s, token, from, receiver, value, withCall, env).value, x, Of(value, token, x))
    decreases env, 2
  {
    hide DepositFee, SendTokens;
    var r := DepositFee(c, Register(s, token), token, env).value;
    DepositFeeDrops(c, Register(s, token), token, env, x);
    SendTokensDrops(c, r.0, token !in s.med.nativeOf, token, from, receiver, value - r.1, withCall, env, x);
  }

  lemma DepositFeeDrops(c: Config, s: State, token: Token, env: Env, x: Token)
    requires EnvWithout(Tamper(c.mediator, x), env) && DepositFee(c, s, token, env).Some?
    ensures var r := DepositFee(c, s, token, env).value; Drops(c, s, r.0, x, Of(r.1, token, x))
    decreases env, 1
  {
    hide PayOut, Invoke;
    if c.home && env.fee != 0 {
      var s1 := PayOut(c, s, token, c.feeManager, env.fee, env.feeCall).value;
      PayOutDrops(c, s, token, c.feeManager, env.fee, env.feeCall, x);
      InvokeDrops(c, s1, env.distribute, x);
    }
  }

  lemma PullDrops(c: Config, s: State, a: Action, x: Token)
    requires a.RelayTokens? && a.from != c.mediator && AllWithout(Tamper(c.mediator, x), a.pull.actions)
    requires Pull(c, s, a).Some?
    ensures Drops(c, s, Pull(c, s, a).value, x, 0)
    decreases a, 0
  {
    hide Move, Invoke, TransferFrom;
    var s0 := SetLock(s, true);
    TransferLocked(c, s0, a.token, a.from, c.mediator, a.value, a.notify, a.from, false, a.env);
    var s1 := Move(s0, a.token, a.from, c.mediator, a.value).value;
    MoveDrops(c, s0, a.token, a.from, c.mediator, a.value, x);
    InvokeDrops(c, s1, a.pull, x);
  }

  /**
   * relayTokens costs what was booked while the tokens came in, whatever their code did then: what it deposits it
   * measured before.
   */
  lemma RelayCosts(c: Config, s: State, a: Action)
    requires a.RelayTokens? && EnvWithout(Tamper(c.mediator, a.token), a.env) && Relay(c, s, a).Some?
    ensures Pull(c, s, a).Some?
    ensures Drops(c, s, Relay(c, s, a).value, a.token,
                  Get(Pull(c, s, a).value.med.mediatorBalance, a.token) - Get(s.med.mediatorBalance, a.token))
    decreases a.env, 5
  {
    hide Pull, Deposit, NoDeposit, FixesAll;
    var s1 := Pull(c, s, a).value;
    var grown := Balance(s1, a.token, c.mediator) - Balance(s, a.token, c.mediator);
    PullLocked(c, s, a, None);
    DepositDrops(c, s1, a.token, a.from, a.receiver, grown, a.withCall, a.env, a.token);
  }

  /** Nothing is booked unless a fix of that token goes through. */
  lemma RelayDrops(c: Config, s: State, a: Action, x: Token)
    requires a.RelayTokens? && a.from != c.mediator && Without(Tamper(c.mediator, x), a) && Relay(c, s, a).Some?
    ensures Drops(c, s, Relay(c, s, a).value, x, 0)
    decreases a, 1
  {
    hide Pull, Deposit, FixesAll;
    var s1 := Pull(c, s, a).value;
    if x == a.token {
      RelayCosts(c, s, a);
      NothingFixes(c, Pulled(c, s, a), a.pull.actions, Some(x));
      PullLocked(c, s, a, Some(x));
    } else {
      var grown := Balance(s1, a.token, c.mediator) - Balance(s, a.token, c.mediator);
      PullDrops(c, s, a, x);
      DepositDrops(c, s1, a.token, a.from, a.receiver, grown, a.withCall, a.env, x);
    }
  }

  // ---------------------------------------------------------------- arrivals

  lemma HandleFeeDrops(c: Config, s: State, isNative: bool, token: Token, env: Env, x: Token)
    requires EnvWithout(Tamper(c.mediator, x), env) && HandleFee(c, s, isNative, token, env).Some?
    ensures var r := HandleFee(c, s, isNative, token, env).value;
            Drops(c, s, r.0, x, Of(if isNative then r.1 else 0, token, x))
    decreases env, 2
  {
    hide PayOut, Invoke, Mint;
    if c.home && env.fee != 0 {
      var paid := if isNative then PayOut(c, s, token, c.feeManager, env.fee, env.feeCall)
                  else Mint(s, token, c.feeManager, env.fee);
      if paid.Some? {
        if isNative {
          PayOutDrops(c, s, token, c.feeManager, env.fee, env.feeCall, x);
        } else {
          MintDrops(c, s, token, c.feeManager, env.fee, x);
        }
        InvokeDrops(c, paid.value, env.distribute, x);
      }
    }
  }

  lemma ReleaseDrops(c: Config, s: State, isNative: bool, token: Token, recipient: Address, value: nat, change: nat,
                     env: Env, x: Token)
    requires EnvWithout(Tamper(c.mediator, x), env)
    requires Release(c, s, isNative, token, recipient, value, change, env).Some?
    ensures Drops(c, s, Release(c, s, isNative, token, recipient, value, change, env).value, x,
                  Of(if isNative then value - change else 0, token, x))
    decreases env, 2
  {
    hide PayOut, Mint, SubtractBalance;
    if !isNative {
      MintDrops(c, s, token, recipient, value, x);
    } else if c.home {
      var s1 := PayOut(c, s, token, recipient, value, env.release).value;
      PayOutDrops(c, s, token, recipient, value, env.release, x);
      SubtractDrops(c, s1, token, change, x);
    } else {
      var s1 := SubtractBalance(s, token, change).value;
      SubtractDrops(c, s, token, change, x);
      PayOutDrops(c, s1, token, recipient, value, env.release, x);
    }
  }

  lemma HandleTokensDrops(c: Config, s: State, isNative: bool, token: Token, recipient: Address, value: nat, env: Env,
                          x: Token)
    requires EnvWithout(Tamper(c.mediator, x), env) && HandleTokens(c, s, isNative, token, recipient, value, env).Some?
    ensures Drops(c, s, HandleTokens(c, s, isNative, token, recipient, value, env).value, x, 0)
    decreases env, 3
  {
    hide HandleFee, Release;
    var r := HandleFee(c, s, isNative, token, env).value;
    HandleFeeDrops(c, s, isNative, token, env, x);
    ReleaseDrops(c, r.0, isNative, token, recipient, value - r.1, value, env, x);
  }

  lemma ArrivingDrops(c: Config, s: State, p: Payload, env: Env, x: Token)
    requires p.Tokens? && Arriving(s, p, env).Some?
    ensures Drops(c, s, Arriving(s, p, env).value.0, x, 0)
  {
  }

  lemma HandleMessageDrops(c: Config, s: State, p: Payload, env: Env, x: Token)
    requires EnvWithout(Tamper(c.mediator, x), env) && p.Tokens? && HandleMessage(c, s, p, env).Some?
    ensures Drops(c, s, HandleMessage(c, s, p, env).value, x, 0)
    decreases env, 4
  {
    hide Arriving, HandleTokens, Invoke, Drops;
    var r := Arriving(s, p, env).value;
    ArrivingDrops(c, s, p, env, x);
    var s1 := HandleTokens(c, r.0, p.toNative, r.1, p.recipient, p.value, env).value;
    HandleTokensDrops(c, r.0, p.toNative, r.1, p.recipient, p.value, env, x);
    DropsTrans(c, s, r.0, s1, x, 0, 0);
    if p.withCall && Invoke(c, s1, env.callback).Some? {
      InvokeDrops(c, s1, env.callback, x);
      DropsTrans(c, s, s1, Invoke(c, s1, env.callback).value, x, 0, 0);
    }
  }

  lemma FixFailedMessageDrops(c: Config, s: State, id: Digest, env: Env, x: Token)
    requires EnvWithout(Tamper(c.mediator, x), env) && FixFailedMessage(c, s, id, env).Some?
    ensures Drops(c, s, FixFailedMessage(c, s, id, env).value, x, 0)
    decreases env, 4
  {
    hide Release;
    var op := s.med.ops[id];
    ReleaseDrops(c, MarkFixed(s, id), op.token !in s.med.nativeOf, op.token, op.recipient, op.value, op.value, env, x);
  }

  lemma DeliverDrops(c: Config, s: State, m: Message, env: Env, x: Token)
    requires EnvWithout(Tamper(c.mediator, x), env) && Deliver(c, s, m, env).Some?
    ensures Drops(c, s, Deliver(c, s, m, env).value, x, 0)
    decreases env, 5
  {
    hide HandleMessage, FixFailedMessage, Invoke, Drops;
    if m.receiver != c.mediator || m.payload.Call? {
      InvokeDrops(c, s, env.run, x);
    } else if m.payload.Tokens? {
      HandleMessageDrops(c, s, m.payload, env, x);
    } else {
      FixFailedMessageDrops(c, s, m.payload.id, env, x);
    }
  }

  lemma ExecuteDrops(c: Config, s: State, m: Message, route: Route, env: Env, x: Token)
    requires EnvWithout(Tamper(c.mediator, x), env) && Execute(c, s, m, route, env).Some?
    ensures Drops(c, s, Execute(c, s, m, route, env).value, x, 0)
    decreases env, 6
  {
    hide Deliver;
    var s1 := LookUp(c, s, m, route).value;
    assert s1 == s.(amb := s.amb.(storageRoot := s1.amb.storageRoot));
    var started := Open(s1, c.keccak(m), m.sender);
    if Deliver(c, started, m, env).Some? {
      DeliverDrops(c, started, m, env, x);
    }
  }

  /** No call lowers the surplus, however much reenters. */
  lemma RunDrops(c: Config, s: State, a: Action, x: Token)
    requires Without(Tamper(c.mediator, x), a) && Run(c, s, a).Some?
    ensures Drops(c, s, Run(c, s, a).value, x, 0)
    decreases a, 2
  {
    hide Execute, Relay, TransferFrom, OnTokenTransfer;
    match a {
      case ExecuteMessage(m, route, env) =>
        ExecuteDrops(c, s, m, route, env, x);
      case RelayTokens(_, _, _, _, _, _, _, _) =>
        RelayDrops(c, s, a, x);
      case Transfer(token, from, to, value, notify, receiver, withCall, env) =>
        TransferFromDrops(c, s, token, from, to, value, notify, receiver, withCall, env, x);
      case Notify(token, from, receiver, value, withCall, env) =>
        OnTokenTransferDrops(c, s, token, from, receiver, value, withCall, env, x);
      case _ =>
    }
  }

  // ---------------------------------------------------------------- every run

  /**
   * The token's own code does not tamper with the mediator, except while relayTokens pulls it in, and the owner fixes
   * its balance from outside only.
   */
  ghost predicate Fair(c: Config, a: Action, x: Token) {
    a.FixBalance? || Without(Tamper(c.mediator, x), a)
  }

  ghost predicate Covered(c: Config, s: State, x: Token) {
    x !in s.med.nativeOf ==> Balance(s, x, c.mediator) >= Get(s.med.mediatorBalance, x)
  }

  lemma CallCovers(c: Config, s: State, a: Action, x: Token)
    requires Fair(c, a, x) && Covered(c, s, x)
    ensures Covered(c, Transact(c, s, a), x)
  {
    if Run(c, s, a).Some? {
      if a.FixBalance? {
        FixCovers(c, s, a.token, a.receiver, a.available, a.env, x);
      } else {
        hide Run;
        RunDrops(c, s, a, x);
      }
    }
  }

  /** The owner enters no more into the books than there is. */
  lemma FixCovers(c: Config, s: State, token: Token, receiver: Address, available: nat, env: Env, x: Token)
    requires Covered(c, s, x) && FixMediatorBalance(c, s, token, receiver, available, env).Some?
    ensures Covered(c, FixMediatorBalance(c, s, token, receiver, available, env).value, x)
  {
    hide SendTokens;
    var balance, held := Balance(s, token, c.mediator), Get(s.med.mediatorBalance, token);
    var diff := if balance - held > available then available else balance - held;
    SendTokensDrops(c, s, true, token, receiver, receiver, diff, false, env, x);
  }

  ghost predicate FairEvents(p: Setup, events: seq<Event>, x: Token) {
    forall k | 0 <= k < |events| && events[k].HomeCall? :: Fair(p.home, events[k].action, x)
  }

  lemma {:induction false} PlayCovers(p: Setup, w: World, events: seq<Event>, x: Token)
    requires FairEvents(p, events, x) && Covered(p.home, w.home, x)
    ensures Covered(p.home, Play(p, w, events).home, x)
    decreases |events|
  {
    hide Fair, Transact;
    if events != [] {
      var e := events[0];
      if e.HomeCall? {
        CallCovers(p.home, w.home, e.action, x);
      }
      assert forall k | 0 <= k < |events[1..]| :: events[1..][k] == events[k + 1];
      PlayCovers(p, Next(p, w, e), events[1..], x);
    }
  }

  /** In every reachable state the mediator has at least what its books say. */
  lemma BooksAreCovered(p: Setup, events: seq<Event>, x: Token)
    requires FairEvents(p, events, x)
    ensures var s := Play(p, Genesis(), events).home;
            x !in s.med.nativeOf ==> Balance(s, x, p.home.mediator) >= Get(s.med.mediatorBalance, x)
  {
    hide Play;
    PlayCovers(p, Genesis(), events, x);
  }

  lemma ForeignBooksAreCovered(p: Setup, events: seq<Event>, x: Token)
    requires FairEvents(SwapSetup(p), SwapEvents(events), x)
    ensures var s := Play(p, Genesis(), events).foreign;
            x !in s.med.nativeOf ==> Balance(s, x, p.foreign.mediator) >= Get(s.med.mediatorBalance, x)
  {
    hide Play;
    PlaySwap(p, Genesis(), events);
    BooksAreCovered(SwapSetup(p), SwapEvents(events), x);
  }

  /**
   * Backing. What exists of the bridged token on the other side, what holders burned of it and what is under way never
   * exceeds the native tokens that the mediator has.
   */
  lemma BridgedSupplyIsBacked(p: Setup, events: seq<Event>, x: Token)
    requires ValidSetup(p) && FairEvents(p, events, x) && x !in Play(p, Genesis(), events).home.med.nativeOf
    ensures var w := Play(p, Genesis(), events);
            Balance(w.home, x, p.home.mediator)
            >= Issued(w.foreign, x)
             + Pending(p.home, w.home.amb.sent, false, x, w.foreign.amb.status, w.home.med.fixed)
             + Pending(p.foreign, w.foreign.amb.sent, true, x, w.home.amb.status, w.foreign.med.fixed)
  {
    hide Play, Pending, Issued;
    BooksAreCovered(p, events, x);
    Conservation(p, events, x);
  }
}
