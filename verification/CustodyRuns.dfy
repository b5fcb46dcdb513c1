/** Whole calls, with everything that reenters from them, keep the invariant and every balance between the chains. */
module CustodyRuns {
  import opened Words
  import opened Chain
  import opened Bridge
  import opened Custody
  import opened CustodySteps

  lemma InvokeKeeps(v: View, s: State, hook: Hook, x: Asset)
    requires Inv(v, s) && Invoke(v.c, s, hook).Some?
    ensures Step(v, s, Invoke(v.c, s, hook).value, x, 0)
    decreases hook, 0
  {
    hide Inv, Step;
    RunAllKeeps(v, s, hook.actions, x);
  }

  lemma RunAllKeeps(v: View, s: State, actions: Actions, x: Asset)
    requires Inv(v, s)
    ensures Step(v, s, RunAll(v.c, s, actions), x, 0)
    decreases actions, 0
  {
    hide Inv, Step;
    match actions {
      case Nil =>
        StepRefl(v, s, x);
      case Cons(a, rest) =>
        var r := Run(v.c, s, a);
        var t := if r.Some? then r.value else s;
        if r.Some? {
          RunKeeps(v, s, a, x);
        } else {
          StepRefl(v, s, x);
        }
        StepInv(v, s, t, x, 0);
        RunAllKeeps(v, t, rest, x);
        StepTrans(v, s, t, RunAll(v.c, t, rest), x, 0, 0);
    }
  }

  lemma PayOutKeeps(v: View, s: State, token: Token, to: Address, value: nat, hook: Hook, x: Asset)
    requires Inv(v, s) && PayOut(v.c, s, token, to, value, hook).Some?
    ensures Step(v, s, PayOut(v.c, s, token, to, value, hook).value, x, 0)
    decreases hook, 1
  {
    hide Inv, Step, Move, Invoke;
    var s1 := Move(s, token, v.c.mediator, to, value).value;
    MoveStep(v, s, token, v.c.mediator, to, value, x);
    StepInv(v, s, s1, x, 0);
    InvokeKeeps(v, s1, hook, x);
    StepTrans(v, s, s1, Invoke(v.c, s1, hook).value, x, 0, 0);
  }

  lemma RunKeeps(v: View, s: State, a: Action, x: Asset)
    requires Inv(v, s) && Run(v.c, s, a).Some?
    ensures Step(v, s, Run(v.c, s, a).value, x, 0)
    decreases a, 2
  {
    hide Inv, Step;
    match a {
      case PassMessage(sender, receiver, payload, gasLimit) =>
        SendStep(v, s, Message(|s.amb.sent|, sender, receiver, gasLimit, payload), x);
      case ExecuteMessage(m, route, env) =>
        ExecuteKeeps(v, s, m, route, env, x);
      case RelayTokens(_, _, _, _, _, _, _, _) =>
        RelayKeeps(v, s, a, x);
      case Transfer(token, from, to, value, notify, receiver, withCall, env) =>
        TransferFromKeeps(v, s, token, from, to, value, notify, receiver, withCall, env, x);
      case Notify(token, from, receiver, value, withCall, env) =>
        OnTokenTransferKeeps(v, s, token, from, receiver, value, withCall, env, x);
      case Burn(token, holder, value) =>
        HolderBurnStep(v, s, token, holder, value, x);
      case Rebase(token, holder, balance) =>
        BalanceStep(v, s, token, holder, balance, x);
      case RequestFix(m, gasLimit) =>
        SendStep(v, s, Message(|s.amb.sent|, v.c.mediator, v.c.other, gasLimit, FixFailed(v.c.keccak(m))), x);
      case FixBalance(token, receiver, available, env) =>
        FixBalanceKeeps(v, s, token, receiver, available, env, x);
    }
  }

  lemma TransferFromKeeps(v: View, s: State, token: Token, from: Address, to: Address, value: nat, notify: bool,
                          receiver: Address, withCall: bool, env: Env, x: Asset)
    requires Inv(v, s) && TransferFrom(v.c, s, token, from, to, value, notify, receiver, withCall, env).Some?
    ensures Step(v, s, TransferFrom(v.c, s, token, from, to, value, notify, receiver, withCall, env).value, x, 0)
    decreases env, 4
  {
    hide Inv, Step, Move, OnTokenTransfer;
    var s1 := Move(s, token, from, to, value).value;
    MoveStep(v, s, token, from, to, value, x);
    StepInv(v, s, s1, x, 0);
    if to == v.c.mediator && (notify || token in s.med.nativeOf) {
      OnTokenTransferKeeps(v, s1, token, from, receiver, value, withCall, env, x);
      StepTrans(v, s, s1, OnTokenTransfer(v.c, s1, token, from, receiver, value, withCall, env).value, x, 0, 0);
    }
  }

  lemma SendTokensKeeps(v: View, s: State, isNative: bool, token: Token, from: Address, receiver: Address, value: nat,
                        withCall: bool, env: Env, x: Asset)
    requires Inv(v, s) && isNative == (token !in s.med.nativeOf) && token in s.med.registered
    requires SendTokens(v.c, s, isNative, token, from, receiver, value, withCall, env).Some?
    ensures Step(v, s, SendTokens(v.c, s, isNative, token, from, receiver, value, withCall, env).value, x, 0)
  {
    hide Inv, Step, PrepareMessage;
    var p := PrepareMessage(v.c, s, isNative, token, receiver, value, withCall, env.hasName).value;
    var y := Behind(s, token);
    PrepareStep(v, s, isNative, token, receiver, value, withCall, env.hasName);
    StepInv(v, s, p.0, y, -(value as int));
    Prepared(v, s, isNative, token, receiver, value, withCall, env.hasName);
    var m := Message(|p.0.amb.sent|, v.c.mediator, v.c.other, env.gasLimit, p.1);
    RecordStep(v, p.0, m, Operation(token, from, value));
    StepTrans(v, s, p.0, AppendedAs(v.c, p.0, m, Operation(token, from, value)), y, -(value as int), value);
    StepAny(v, s, AppendedAs(v.c, p.0, m, Operation(token, from, value)), y, x);
  }

  lemma Prepared(v: View, s: State, isNative: bool, token: Token, receiver: Address, value: nat, withCall: bool,
                 hasName: bool)
    requires isNative == (token !in s.med.nativeOf)
    requires PrepareMessage(v.c, s, isNative, token, receiver, value, withCall, hasName).Some?
    ensures var p := PrepareMessage(v.c, s, isNative, token, receiver, value, withCall, hasName).value;
            && p.0.amb == s.amb && p.0.med.registered == s.med.registered && p.0.med.nativeOf == s.med.nativeOf
            && p.1.Tokens? && p.1.value == value && Asset(!p.1.toNative, p.1.token) == Behind(s, token)
  {
  }

  lemma FixBalanceKeeps(v: View, s: State, token: Token, receiver: Address, available: nat, env: Env, x: Asset)
    requires Inv(v, s) && FixMediatorBalance(v.c, s, token, receiver, available, env).Some?
    ensures Step(v, s, FixMediatorBalance(v.c, s, token, receiver, available, env).value, x, 0)
  {
    hide Inv, Step, SendTokens;
    var balance, held := Balance(s, token, v.c.mediator), Get(s.med.mediatorBalance, token);
    var diff := if balance - held > available then available else balance - held;
    SendTokensKeeps(v, s, true, token, receiver, receiver, diff, false, env, x);
  }

  // ---------------------------------------------------------------- deposits

  lemma OnTokenTransferKeeps(v: View, s: State, token: Token, from: Address, receiver: Address, value: nat,
                             withCall: bool, env: Env, x: Asset)
    requires Inv(v, s) && OnTokenTransfer(v.c, s, token, from, receiver, value, withCall, env).Some?
    ensures Step(v, s, OnTokenTransfer(v.c, s, token, from, receiver, value, withCall, env).value, x, 0)
    decreases env, 3
  {
    hide Inv, Step, Deposit;
    if s.med.lock {
      StepRefl(v, s, x);
    } else {
      DepositKeeps(v, s, token, from, receiver, value, withCall, env, x);
    }
  }

  lemma PullKeeps(v: View, s: State, a: Action, x: Asset)
    requires Inv(v, s) && a.RelayTokens? && Pull(v.c, s, a).Some?
    ensures Step(v, s, Pull(v.c, s, a).value, x, 0)
    decreases a, 0
  {
    hide Inv, Step, TransferFrom, Invoke, SetLock;
    var s0 := SetLock(s, true);
    LockStep(v, s, true, x);
    StepInv(v, s, s0, x, 0);
    var s1 := TransferFrom(v.c, s0, a.token, a.from, v.c.mediator, a.value, a.notify, a.from, false, a.env).value;
    TransferFromKeeps(v, s0, a.token, a.from, v.c.mediator, a.value, a.notify, a.from, false, a.env, x);
    StepInv(v, s0, s1, x, 0);
    StepTrans(v, s, s0, s1, x, 0, 0);
    var s2 := Invoke(v.c, s1, a.pull).value;
    InvokeKeeps(v, s1, a.pull, x);
    StepInv(v, s1, s2, x, 0);
    StepTrans(v, s, s1, s2, x, 0, 0);
    LockStep(v, s2, false, x);
    StepTrans(v, s, s2, SetLock(s2, false), x, 0, 0);
  }

  lemma RelayKeeps(v: View, s: State, a: Action, x: Asset)
    requires Inv(v, s) && a.RelayTokens? && Relay(v.c, s, a).Some?
    ensures Step(v, s, Relay(v.c, s, a).value, x, 0)
    decreases a, 1
  {
    hide Inv, Step, Pull, Deposit;
    var s1 := Pull(v.c, s, a).value;
    PullKeeps(v, s, a, x);
    StepInv(v, s, s1, x, 0);
    var diff := Balance(s1, a.token, v.c.mediator) - Balance(s, a.token, v.c.mediator);
    DepositKeeps(v, s1, a.token, a.from, a.receiver, diff, a.withCall, a.env, x);
    StepTrans(v, s, s1, Relay(v.c, s, a).value, x, 0, 0);
  }

  lemma LockStep(v: View, s: State, lock: bool, x: Asset)
    requires Inv(v, s)
    ensures Step(v, s, SetLock(s, lock), x, 0)
  {
    hide Inv, Step;
    FlagsStep(v, s, lock, s.med.registered, s.med.acked, x);
  }

  lemma FlagsStep(v: View, s: State, lock: bool, registered: set<Token>, acked: set<Token>, x: Asset)
    requires Inv(v, s) && registered >= s.med.registered
    ensures Step(v, s, s.(med := s.med.(lock := lock, registered := registered, acked := acked)), x, 0)
  {
    hide Inv, Step;
    FlagStep(v, s, s.(med := s.med.(lock := lock, registered := registered, acked := acked)), x);
  }

  lemma DepositKeeps(v: View, s: State, token: Token, from: Address, receiver: Address, value: nat, withCall: bool,
                     env: Env, x: Asset)
    requires Inv(v, s) && Deposit(v.c, s, token, from, receiver, value, withCall, env).Some?
    ensures Step(v, s, Deposit(v.c, s, token, from, receiver, value, withCall, env).value, x, 0)
    decreases env, 2
  {
    hide Inv, Step, DepositFee, SendTokens, Grows;
    var s0 := Register(s, token);
    FlagsStep(v, s, s.med.lock, s.med.registered + {token}, s.med.acked, x);
    StepInv(v, s, s0, x, 0);
    var r := DepositFee(v.c, s0, token, env).value;
    DepositFeeKeeps(v, s0, token, env, x);
    StepInv(v, s0, r.0, x, 0);
    StepTrans(v, s, s0, r.0, x, 0, 0);
    StillNative(v, s0, r.0, token);
    SendTokensKeeps(v, r.0, token !in s.med.nativeOf, token, from, receiver, value - r.1, withCall, env, x);
    StepTrans(v, s, r.0, Deposit(v.c, s, token, from, receiver, value, withCall, env).value, x, 0, 0);
  }

  /** A registered token never turns from a native into a bridged one. */
  lemma StillNative(v: View, s: State, t: State, token: Token)
    requires Inv(v, s) && Inv(v, t) && Grows(s, t) && token in s.med.registered
    ensures token in t.med.registered
    ensures token in t.med.nativeOf <==> token in s.med.nativeOf
  {
  }

  lemma DepositFeeKeeps(v: View, s: State, token: Token, env: Env, x: Asset)
    requires Inv(v, s) && DepositFee(v.c, s, token, env).Some?
    ensures Step(v, s, DepositFee(v.c, s, token, env).value.0, x, 0)
    decreases env, 1
  {
    hide Inv, Step, PayOut, Invoke;
    if !v.c.home || env.fee == 0 {
      StepRefl(v, s, x);
    } else {
      var s1 := PayOut(v.c, s, token, v.c.feeManager, env.fee, env.feeCall).value;
      PayOutKeeps(v, s, token, v.c.feeManager, env.fee, env.feeCall, x);
      StepInv(v, s, s1, x, 0);
      InvokeKeeps(v, s1, env.distribute, x);
      StepTrans(v, s, s1, Invoke(v.c, s1, env.distribute).value, x, 0, 0);
    }
  }

  // ---------------------------------------------------------------- arrivals

  /** Only a minted fee shifts the balance yet: an unlocked one is taken from the mediator's balance later. */
  lemma HandleFeeKeeps(v: View, s: State, isNative: bool, token: Token, env: Env, x: Asset)
    requires Inv(v, s) && HandleFee(v.c, s, isNative, token, env).Some? && (isNative || Stands(s, token, x))
    ensures var r := HandleFee(v.c, s, isNative, token, env).value;
            Step(v, s, r.0, x, if isNative then 0 else r.1)
    decreases env, 2
  {
    hide Inv, Step, PayOut, Invoke, Mint;
    if !v.c.home || env.fee == 0 {
      StepRefl(v, s, x);
    } else {
      var paid := if isNative then PayOut(v.c, s, token, v.c.feeManager, env.fee, env.feeCall)
                  else Mint(s, token, v.c.feeManager, env.fee);
      var d := if isNative then 0 else env.fee;
      if paid == None {
        StepRefl(v, s, x);
      } else {
        if isNative {
          PayOutKeeps(v, s, token, v.c.feeManager, env.fee, env.feeCall, x);
        } else {
          MintStep(v, s, token, v.c.feeManager, env.fee, x);
        }
        StepInv(v, s, paid.value, x, d);
        InvokeKeeps(v, paid.value, env.distribute, x);
        StepTrans(v, s, paid.value, Invoke(v.c, paid.value, env.distribute).value, x, d, 0);
      }
    }
  }

  lemma ReleaseKeeps(v: View, s: State, isNative: bool, token: Token, recipient: Address, value: nat, change: nat,
                     env: Env, x: Asset)
    requires Inv(v, s) && Release(v.c, s, isNative, token, recipient, value, change, env).Some?
    requires if isNative then x == Asset(true, token) else Stands(s, token, x)
    ensures Step(v, s, Release(v.c, s, isNative, token, recipient, value, change, env).value, x,
                 if isNative then change else value)
    decreases env, 2
  {
    hide Inv, Step, PayOut, Mint, SubtractBalance;
    if !isNative {
      MintStep(v, s, token, recipient, value, x);
    } else if v.c.home {
      var s1 := PayOut(v.c, s, token, recipient, value, env.release).value;
      PayOutKeeps(v, s, token, recipient, value, env.release, x);
      StepInv(v, s, s1, x, 0);
      SubtractStep(v, s1, token, change);
      StepTrans(v, s, s1, SubtractBalance(s1, token, change).value, x, 0, change);
    } else {
      var s1 := SubtractBalance(s, token, change).value;
      SubtractStep(v, s, token, change);
      StepInv(v, s, s1, x, change);
      PayOutKeeps(v, s1, token, recipient, value, env.release, x);
      StepTrans(v, s, s1, PayOut(v.c, s1, token, recipient, value, env.release).value, x, change, 0);
    }
  }

  /** An arrival takes its value, fee included, off the receiving side. */
  lemma HandleTokensKeeps(v: View, s: State, isNative: bool, token: Token, recipient: Address, value: nat, env: Env,
                          x: Asset)
    requires Inv(v, s) && HandleTokens(v.c, s, isNative, token, recipient, value, env).Some?
    requires if isNative then x == Asset(true, token) else Stands(s, token, x)
    ensures Step(v, s, HandleTokens(v.c, s, isNative, token, recipient, value, env).value, x, value)
    decreases env, 3
  {
    hide Inv, Step, HandleFee, Release;
    var r := HandleFee(v.c, s, isNative, token, env).value;
    var d := if isNative then 0 else r.1;
    HandleFeeKeeps(v, s, isNative, token, env, x);
    StepInv(v, s, r.0, x, d);
    ReleaseKeeps(v, r.0, isNative, token, recipient, value - r.1, value, env, x);
    StepTrans(v, s, r.0, Release(v.c, r.0, isNative, token, recipient, value - r.1, value, env).value, x, d, value - d);
  }

  lemma ArrivingKeeps(v: View, s: State, p: Payload, env: Env)
    requires Inv(v, s) && p.Tokens? && Arriving(s, p, env).Some?
    ensures var r, x := Arriving(s, p, env).value, Asset(p.toNative, p.token);
            Step(v, s, r.0, x, 0) && if p.toNative then r.1 == p.token else Stands(r.0, r.1, x)
  {
    hide Inv, Step, GetBridgedTokenOrDeploy;
    var x := Asset(p.toNative, p.token);
    if p.toNative {
      FlagsStep(v, s, s.med.lock, s.med.registered, s.med.acked + {p.token}, x);
    } else if p.deploy {
      DeployStep(v, s, p.token, env.hasName, env.created, x);
    } else {
      InvRegistry(v, s);
      StepRefl(v, s, x);
    }
  }

  lemma HandleMessageKeeps(v: View, s: State, p: Payload, env: Env)
    requires Inv(v, s) && p.Tokens? && HandleMessage(v.c, s, p, env).Some?
    ensures Step(v, s, HandleMessage(v.c, s, p, env).value, Asset(p.toNative, p.token), p.value)
    decreases env, 4
  {
    hide Inv, Step, HandleTokens, Invoke, GetBridgedTokenOrDeploy;
    var x := Asset(p.toNative, p.token);
    var r := Arriving(s, p, env).value;
    ArrivingKeeps(v, s, p, env);
    StepInv(v, s, r.0, x, 0);
    var s1 := HandleTokens(v.c, r.0, p.toNative, r.1, p.recipient, p.value, env).value;
    HandleTokensKeeps(v, r.0, p.toNative, r.1, p.recipient, p.value, env, x);
    StepInv(v, r.0, s1, x, p.value);
    StepTrans(v, s, r.0, s1, x, 0, p.value);
    if p.withCall && Invoke(v.c, s1, env.callback).Some? {
      InvokeKeeps(v, s1, env.callback, x);
      StepTrans(v, s, s1, Invoke(v.c, s1, env.callback).value, x, p.value, 0);
    }
  }

  lemma FixFailedMessageKeeps(v: View, s: State, id: Digest, env: Env, x: Asset)
    requires Inv(v, s) && FixFailedMessage(v.c, s, id, env).Some? && Failed(v.o.amb.status, id)
    ensures Step(v, s, FixFailedMessage(v.c, s, id, env).value, x, 0)
    decreases env, 4
  {
    hide Inv, Step, Release;
    var op := s.med.ops[id];
    var s1, y := MarkFixed(s, id), Behind(s, op.token);
    MarkFixedStep(v, s, id);
    StepInv(v, s, s1, y, -(op.value as int));
    ReleaseKeeps(v, s1, op.token !in s.med.nativeOf, op.token, op.recipient, op.value, op.value, env, y);
    StepTrans(v, s, s1, FixFailedMessage(v.c, s, id, env).value, y, -(op.value as int), op.value);
    StepAny(v, s, FixFailedMessage(v.c, s, id, env).value, y, x);
  }

  // ---------------------------------------------------------------- execution

  /** What a chain knows of the mediator messages in the other chain's log. */
  lemma MediatorMessage(v: View, s: State, m: Message)
    requires Inv(v, s) && m in v.o.amb.sent
    ensures IsTokens(v.co, m) ==> m.receiver == v.c.mediator
    ensures m.sender == v.c.other && m.payload.FixFailed? ==> Failed(v.o.amb.status, m.payload.id)
  {
    var k :| 0 <= k < |v.o.amb.sent| && v.o.amb.sent[k] == m;
    if IsTokens(v.co, m) {
      assert RecordedAs(v.co, v.o, v.o.amb.sent[k]);
    }
  }

  lemma DeliverKeeps(v: View, s: State, m: Message, env: Env)
    requires Inv(v, s) && m in v.o.amb.sent && s.amb.messageSender == m.sender
    requires Deliver(v.c, s, m, env).Some?
    ensures Step(v, s, Deliver(v.c, s, m, env).value, PaidAsset(m), Payment(v, m))
    decreases env, 5
  {
    PairedViews(v, s);
    hide Inv, Step, HandleMessage, FixFailedMessage, Invoke;
    MediatorMessage(v, s, m);
    if m.receiver != v.c.mediator || m.payload.Call? {
      InvokeKeeps(v, s, env.run, PaidAsset(m));
    } else if m.payload.Tokens? {
      HandleMessageKeeps(v, s, m.payload, env);
    } else {
      FixFailedMessageKeeps(v, s, m.payload.id, env, PaidAsset(m));
    }
  }

  lemma PairedViews(v: View, s: State)
    requires Inv(v, s)
    ensures Paired(v)
  {
  }

  /** An executed message is off the way exactly when its value has arrived. */
  lemma ExecuteKeeps(v: View, s: State, m: Message, route: Route, env: Env, x: Asset)
    requires Inv(v, s) && Execute(v.c, s, m, route, env).Some?
    ensures Step(v, s, Execute(v.c, s, m, route, env).value, x, 0)
    decreases env, 6
  {
    hide Inv, Shift, Deliver, LookUp;
    var id, y := v.c.keccak(m), PaidAsset(m);
    var s1 := LookUp(v.c, s, m, route).value;
    LookUpStep(v, s, m, route, y);
    LookUpKeeps(v.c, s, m, route);
    ShiftInv(v, s, s1, y, 0);
    var started := Open(s1, id, m.sender);
    OpenStep(v, s1, m, y);
    ShiftInv(v, s1, started, y, 0);
    ShiftTrans(v, s, s1, started, y, 0, 0);
    var r := Deliver(v.c, started, m, env);
    if r.Some? {
      DeliverKeeps(v, started, m, env);
      ShiftInv(v, started, r.value, y, Payment(v, m));
      ShiftTrans(v, s, started, r.value, y, 0, Payment(v, m));
      CloseStep(v, r.value, m, true);
      ShiftTrans(v, s, r.value, Close(r.value, id, true), y, Payment(v, m), -(Payment(v, m) as int));
    } else {
      CloseStep(v, started, m, false);
      ShiftTrans(v, s, started, Close(started, id, false), y, 0, 0);
    }
    NothingOpen(v, s);
    StepAny(v, s, Execute(v.c, s, m, route, env).value, y, x);
  }

  lemma ShiftInv(v: View, s: State, t: State, x: Asset, d: int)
    requires Shift(v, s, t, x, d)
    ensures Inv(v, t)
  {
  }

  lemma LookUpKeeps(c: Config, s: State, m: Message, route: Route)
    requires LookUp(c, s, m, route).Some?
    ensures LookUp(c, s, m, route).value.amb == s.amb.(storageRoot := LookUp(c, s, m, route).value.amb.storageRoot)
  {
  }

  lemma NothingOpen(v: View, s: State)
    requires Inv(v, s) && s.amb.messageId == EMPTY_MESSAGE_ID
    ensures s.amb.messageSender == EMPTY_ADDRESS
  {
  }
}
