/** What the records of one chain say about the other one: cached roots, acknowledged deployments, and the lock. */
module Records {
  import opened Words
  import opened Chain
  import opened Bridge
  import opened Custody
  import opened CustodySteps
  import CustodyRuns
  import opened TwoChains

  /** A transfer of a native token for which the other side is not asked to deploy anything. */
  ghost predicate NeedsNoDeployment(c: Config, m: Message) {
    IsTokens(c, m) && !m.payload.toNative && !m.payload.deploy
  }

  /** The other side has a bridged token for a token of this one. */
  ghost predicate HasBridged(v: View, token: Token) {
    token in v.o.med.bridgedOf
  }

  /** A token of the other side was sent over from there. */
  ghost predicate CameOver(v: View, token: Token) {
    exists k :: 0 <= k < |v.o.amb.sent| && IsTransfer(v.o.amb.sent[k], v.co.mediator, false, token)
  }

  /**
   * A cached root is what the light client shows. A token whose deployment was acknowledged has a bridged token on the
   * other side, and so has every token that was sent without asking for one. Bridged tokens stand for tokens that were
   * sent over. The books fit into a word.
   */
  ghost predicate Tracks(v: View, s: State) {
    && Roots(v, s)
    && (forall slot | slot in s.amb.storageRoot ::
          slot in s.amb.roots && s.amb.storageRoot[slot] == s.amb.roots[slot])
    && (forall token | token in s.med.acked :: HasBridged(v, token))
    && (forall k | 0 <= k < |s.amb.sent| && NeedsNoDeployment(v.c, s.amb.sent[k]) ::
          HasBridged(v, s.amb.sent[k].payload.token))
    && (forall token | token in s.med.bridgedOf :: CameOver(v, token))
    && (forall token | token in s.med.mediatorBalance :: s.med.mediatorBalance[token] < TWO_256)
  }

  /** From s to t the records stay sound and the lock is as before. */
  ghost predicate Keeps(v: View, s: State, t: State) {
    Tracks(v, t) && t.med.lock == s.med.lock
  }

  /** What has to be known of the other chain, which stands still meanwhile. */
  ghost predicate Standing(v: View) {
    Paired(v) && Recorded(v.co, v.o) && Registry(v.o)
  }

  // ---------------------------------------------------------------- single steps

  /** Nothing but balances, flags and the open delivery changes, and the books go down at most. */
  ghost predicate Lowers(s: State, t: State) {
    && t.amb.sent == s.amb.sent && t.amb.roots == s.amb.roots && t.amb.storageRoot == s.amb.storageRoot
    && t.med.acked == s.med.acked && t.med.bridgedOf == s.med.bridgedOf && t.med.lock == s.med.lock
    && forall token | token in t.med.mediatorBalance ::
         token in s.med.mediatorBalance && t.med.mediatorBalance[token] <= s.med.mediatorBalance[token]
  }

  lemma LowersKeeps(v: View, s: State, t: State)
    requires Tracks(v, s) && Lowers(s, t)
    ensures Keeps(v, s, t)
  {
  }

  lemma MoveLowers(s: State, token: Token, from: Address, to: Address, value: nat)
    requires Move(s, token, from, to, value).Some?
    ensures Lowers(s, Move(s, token, from, to, value).value)
  {
  }

  lemma MintLowers(s: State, token: Token, to: Address, value: nat)
    requires Mint(s, token, to, value).Some?
    ensures Lowers(s, Mint(s, token, to, value).value)
  {
  }

  lemma SubtractKeeps(v: View, s: State, token: Token, change: nat)
    requires Tracks(v, s) && SubtractBalance(s, token, change).Some?
    ensures Keeps(v, s, SubtractBalance(s, token, change).value)
  {
  }

  /** A bridged token is created for a token that is just arriving. */
  lemma DeployKeeps(v: View, s: State, m: Message, hasName: bool, created: Token)
    requires Tracks(v, s) && m in v.o.amb.sent && IsTokens(v.co, m) && !m.payload.toNative
    requires GetBridgedTokenOrDeploy(s, m.payload.token, hasName, created).Some?
    ensures Keeps(v, s, GetBridgedTokenOrDeploy(s, m.payload.token, hasName, created).value.0)
  {
    var k :| 0 <= k < |v.o.amb.sent| && v.o.amb.sent[k] == m;
    assert IsTransfer(v.o.amb.sent[k], v.co.mediator, false, m.payload.token);
  }

  lemma SendKeeps(v: View, s: State, sender: Address, receiver: Address, payload: Payload, gasLimit: nat)
    requires Tracks(v, s) && Send(v.c, s, sender, receiver, payload, gasLimit).Some?
    requires sender == v.c.mediator && payload.Tokens? && !payload.toNative && !payload.deploy ==>
               HasBridged(v, payload.token)
    ensures Keeps(v, s, Send(v.c, s, sender, receiver, payload, gasLimit).value)
  {
  }

  /** The other side is not asked to deploy a bridged token only if it has acknowledged that there is one. */
  lemma SendTokensKeeps(v: View, s: State, isNative: bool, token: Token, from: Address, receiver: Address, value: nat,
                        withCall: bool, env: Env)
    requires Tracks(v, s) && SendTokens(v.c, s, isNative, token, from, receiver, value, withCall, env).Some?
    ensures Keeps(v, s, SendTokens(v.c, s, isNative, token, from, receiver, value, withCall, env).value)
  {
    hide Send, Tracks, HasBridged, BurnFrom;
    var p := PrepareMessage(v.c, s, isNative, token, receiver, value, withCall, env.hasName).value;
    PrepareKeeps(v, s, isNative, token, receiver, value, withCall, env.hasName);
    var s1 := Send(v.c, p.0, v.c.mediator, v.c.other, p.1, env.gasLimit).value;
    SendKeeps(v, p.0, v.c.mediator, v.c.other, p.1, env.gasLimit);
    LowersKeeps(v, s1, SendTokens(v.c, s, isNative, token, from, receiver, value, withCall, env).value);
  }

  lemma PrepareKeeps(v: View, s: State, isNative: bool, token: Token, receiver: Address, value: nat, withCall: bool,
                     hasName: bool)
    requires Tracks(v, s) && PrepareMessage(v.c, s, isNative, token, receiver, value, withCall, hasName).Some?
    ensures var p := PrepareMessage(v.c, s, isNative, token, receiver, value, withCall, hasName).value;
            && Keeps(v, s, p.0) && p.1.Tokens?
            && (!p.1.toNative && !p.1.deploy ==> HasBridged(v, p.1.token))
  {
  }

  /** A transfer back shows that the token has been bridged. */
  lemma AcknowledgeKeeps(v: View, s: State, m: Message)
    requires Standing(v) && Tracks(v, s) && m in v.o.amb.sent && IsTokens(v.co, m) && m.payload.toNative
    ensures Keeps(v, s, Acknowledge(s, m.payload.token))
  {
    var k :| 0 <= k < |v.o.amb.sent| && v.o.amb.sent[k] == m;
    assert RecordedAs(v.co, v.o, v.o.amb.sent[k]);
  }

  /** What is cached is what the light client shows. */
  lemma LookUpKeeps(v: View, s: State, m: Message, route: Route)
    requires Standing(v) && Tracks(v, s) && LookUp(v.c, s, m, route).Some?
    ensures Keeps(v, s, LookUp(v.c, s, m, route).value) && m in v.o.amb.sent
  {
    LookUpSent(v, s, m, route);
  }

  // ---------------------------------------------------------------- calls from outside

  lemma InvokeKeeps(v: View, s: State, hook: Hook)
    requires Standing(v) && Tracks(v, s) && Invoke(v.c, s, hook).Some?
    ensures Keeps(v, s, Invoke(v.c, s, hook).value)
    decreases hook, 0
  {
    hide Tracks, Standing;
    RunAllKeeps(v, s, hook.actions);
  }

  lemma RunAllKeeps(v: View, s: State, actions: Actions)
    requires Standing(v) && Tracks(v, s)
    ensures Keeps(v, s, RunAll(v.c, s, actions))
    decreases actions, 0
  {
    hide Tracks, Standing, Run;
    match actions {
      case Nil =>
      case Cons(a, rest) =>
        var r := Run(v.c, s, a);
        if r.Some? {
          RunKeeps(v, s, a);
          RunAllKeeps(v, r.value, rest);
        } else {
          RunAllKeeps(v, s, rest);
        }
    }
  }

  lemma PayOutKeeps(v: View, s: State, token: Token, to: Address, value: nat, hook: Hook)
    requires Standing(v) && Tracks(v, s) && PayOut(v.c, s, token, to, value, hook).Some?
    ensures Keeps(v, s, PayOut(v.c, s, token, to, value, hook).value)
    decreases hook, 1
  {
    hide Tracks, Standing, Invoke, Move, Lowers;
    var s1 := Move(s, token, v.c.mediator, to, value).value;
    MoveLowers(s, token, v.c.mediator, to, value);
    LowersKeeps(v, s, s1);
    InvokeKeeps(v, s1, hook);
  }

  // ---------------------------------------------------------------- deposits

  lemma TransferFromKeeps(v: View, s: State, token: Token, from: Address, to: Address, value: nat, notify: bool,
                          receiver: Address, withCall: bool, env: Env)
    requires Standing(v) && Tracks(v, s)
    requires TransferFrom(v.c, s, token, from, to, value, notify, receiver, withCall, env).Some?
    ensures Keeps(v, s, TransferFrom(v.c, s, token, from, to, value, notify, receiver, withCall, env).value)
    decreases env, 4
  {
    hide Tracks, Standing, Move, OnTokenTransfer, Lowers;
    var s1 := Move(s, token, from, to, value).value;
    MoveLowers(s, token, from, to, value);
    LowersKeeps(v, s, s1);
    if to == v.c.mediator && (notify || token in s.med.nativeOf) {
      OnTokenTransferKeeps(v, s1, token, from, receiver, value, withCall, env);
    }
  }

  lemma OnTokenTransferKeeps(v: View, s: State, token: Token, from: Address, receiver: Address, value: nat,
                             withCall: bool, env: Env)
    requires Standing(v) && Tracks(v, s)
    requires OnTokenTransfer(v.c, s, token, from, receiver, value, withCall, env).Some?
    ensures Keeps(v, s, OnTokenTransfer(v.c, s, token, from, receiver, value, withCall, env).value)
    decreases env, 3
  {
    hide Tracks, Standing, Deposit;
    if !s.med.lock {
      DepositKeeps(v, s, token, from, receiver, value, withCall, env);
    }
  }

  lemma DepositKeeps(v: View, s: State, token: Token, from: Address, receiver: Address, value: nat, withCall: bool,
                     env: Env)
    requires Standing(v) && Tracks(v, s) && Deposit(v.c, s, token, from, receiver, value, withCall, env).Some?
    ensures Keeps(v, s, Deposit(v.c, s, token, from, receiver, value, withCall, env).value)
    decreases env, 2
  {
    hide Tracks, Standing, DepositFee, SendTokens;
    var s0 := Register(s, token);
    LowersKeeps(v, s, s0);
    var r := DepositFee(v.c, s0, token, env).value;
    DepositFeeKeeps(v, s0, token, env);
    SendTokensKeeps(v, r.0, token !in s.med.nativeOf, token, from, receiver, value - r.1, withCall, env);
  }

  lemma DepositFeeKeeps(v: View, s: State, token: Token, env: Env)
    requires Standing(v) && Tracks(v, s) && DepositFee(v.c, s, token, env).Some?
    ensures Keeps(v, s, DepositFee(v.c, s, token, env).value.0)
    decreases env, 1
  {
    hide Tracks, Standing, PayOut, Invoke;
    if v.c.home && env.fee != 0 {
      PayOutKeeps(v, s, token, v.c.feeManager, env.fee, env.feeCall);
      InvokeKeeps(v, PayOut(v.c, s, token, v.c.feeManager, env.fee, env.feeCall).value, env.distribute);
    }
  }

  lemma LockKeeps(v: View, s: State, lock: bool)
    requires Tracks(v, s)
    ensures Tracks(v, SetLock(s, lock))
  {
  }

  lemma PullKeeps(v: View, s: State, a: Action)
    requires Standing(v) && Tracks(v, s) && a.RelayTokens? && Pull(v.c, s, a).Some?
    ensures Tracks(v, Pull(v.c, s, a).value) && !Pull(v.c, s, a).value.med.lock
    decreases a, 0
  {
    hide Tracks, Standing, TransferFrom, Invoke;
    var s0 := SetLock(s, true);
    LockKeeps(v, s, true);
    var s1 := TransferFrom(v.c, s0, a.token, a.from, v.c.mediator, a.value, a.notify, a.from, false, a.env).value;
    TransferFromKeeps(v, s0, a.token, a.from, v.c.mediator, a.value, a.notify, a.from, false, a.env);
    InvokeKeeps(v, s1, a.pull);
    LockKeeps(v, Invoke(v.c, s1, a.pull).value, false);
  }

  lemma RelayKeeps(v: View, s: State, a: Action)
    requires Standing(v) && Tracks(v, s) && a.RelayTokens? && Relay(v.c, s, a).Some?
    ensures Keeps(v, s, Relay(v.c, s, a).value)
    decreases a, 1
  {
    hide Tracks, Standing, Pull, Deposit;
    var s1 := Pull(v.c, s, a).value;
    PullKeeps(v, s, a);
    var grown := Balance(s1, a.token, v.c.mediator) - Balance(s, a.token, v.c.mediator);
    DepositKeeps(v, s1, a.token, a.from, a.receiver, grown, a.withCall, a.env);
  }

  // ---------------------------------------------------------------- arrivals

  lemma HandleFeeKeeps(v: View, s: State, isNative: bool, token: Token, env: Env)
    requires Standing(v) && Tracks(v, s) && HandleFee(v.c, s, isNative, token, env).Some?
    ensures Keeps(v, s, HandleFee(v.c, s, isNative, token, env).value.0)
    decreases env, 2
  {
    hide Tracks, Standing, PayOut, Invoke, Mint, Lowers;
    if v.c.home && env.fee != 0 {
      var paid := if isNative then PayOut(v.c, s, token, v.c.feeManager, env.fee, env.feeCall)
                  else Mint(s, token, v.c.feeManager, env.fee);
      if paid.Some? {
        if isNative {
          PayOutKeeps(v, s, token, v.c.feeManager, env.fee, env.feeCall);
        } else {
          MintLowers(s, token, v.c.feeManager, env.fee);
          LowersKeeps(v, s, paid.value);
        }
        InvokeKeeps(v, paid.value, env.distribute);
      }
    }
  }

  lemma ReleaseKeeps(v: View, s: State, isNative: bool, token: Token, recipient: Address, value: nat, change: nat,
                     env: Env)
    requires Standing(v) && Tracks(v, s)
    requires Release(v.c, s, isNative, token, recipient, value, change, env).Some?
    ensures Keeps(v, s, Release(v.c, s, isNative, token, recipient, value, change, env).value)
    decreases env, 2
  {
    hide Tracks, Standing, PayOut, Mint, SubtractBalance, Lowers;
    if !isNative {
      MintLowers(s, token, recipient, value);
      LowersKeeps(v, s, Mint(s, token, recipient, value).value);
    } else if v.c.home {
      PayOutKeeps(v, s, token, recipient, value, env.release);
      SubtractKeeps(v, PayOut(v.c, s, token, recipient, value, env.release).value, token, change);
    } else {
      SubtractKeeps(v, s, token, change);
      PayOutKeeps(v, SubtractBalance(s, token, change).value, token, recipient, value, env.release);
    }
  }

  lemma HandleTokensKeeps(v: View, s: State, isNative: bool, token: Token, recipient: Address, value: nat, env: Env)
    requires Standing(v) && Tracks(v, s) && HandleTokens(v.c, s, isNative, token, recipient, value, env).Some?
    ensures Keeps(v, s, HandleTokens(v.c, s, isNative, token, recipient, value, env).value)
    decreases env, 3
  {
    hide Tracks, Standing, HandleFee, Release;
    var r := HandleFee(v.c, s, isNative, token, env).value;
    HandleFeeKeeps(v, s, isNative, token, env);
    ReleaseKeeps(v, r.0, isNative, token, recipient, value - r.1, value, env);
  }

  lemma ArrivingKeeps(v: View, s: State, m: Message, env: Env)
    requires Standing(v) && Tracks(v, s) && m in v.o.amb.sent && IsTokens(v.co, m)
    requires Arriving(s, m.payload, env).Some?
    ensures Keeps(v, s, Arriving(s, m.payload, env).value.0)
  {
    hide Tracks, Standing, GetBridgedTokenOrDeploy, Lowers;
    if m.payload.toNative {
      AcknowledgeKeeps(v, s, m);
    } else if m.payload.deploy {
      DeployKeeps(v, s, m, env.hasName, env.created);
    }
  }

  lemma HandleMessageKeeps(v: View, s: State, m: Message, env: Env)
    requires Standing(v) && Tracks(v, s) && m in v.o.amb.sent && IsTokens(v.co, m)
    requires HandleMessage(v.c, s, m.payload, env).Some?
    ensures Keeps(v, s, HandleMessage(v.c, s, m.payload, env).value)
    decreases env, 4
  {
    hide Tracks, Standing, Arriving, HandleTokens, Invoke;
    var p, r := m.payload, Arriving(s, m.payload, env).value;
    ArrivingKeeps(v, s, m, env);
    var s1 := HandleTokens(v.c, r.0, p.toNative, r.1, p.recipient, p.value, env).value;
    HandleTokensKeeps(v, r.0, p.toNative, r.1, p.recipient, p.value, env);
    if p.withCall && Invoke(v.c, s1, env.callback).Some? {
      InvokeKeeps(v, s1, env.callback);
    }
  }

  lemma FixFailedMessageKeeps(v: View, s: State, id: Digest, env: Env)
    requires Standing(v) && Tracks(v, s) && FixFailedMessage(v.c, s, id, env).Some?
    ensures Keeps(v, s, FixFailedMessage(v.c, s, id, env).value)
    decreases env, 4
  {
    hide Tracks, Standing, Release;
    var op := s.med.ops[id];
    LowersKeeps(v, s, MarkFixed(s, id));
    ReleaseKeeps(v, MarkFixed(s, id), op.token !in s.med.nativeOf, op.token, op.recipient, op.value, op.value, env);
  }

  lemma DeliverKeeps(v: View, s: State, m: Message, env: Env)
    requires Standing(v) && Tracks(v, s) && m in v.o.amb.sent && s.amb.messageSender == m.sender
    requires Deliver(v.c, s, m, env).Some?
    ensures Keeps(v, s, Deliver(v.c, s, m, env).value)
    decreases env, 5
  {
    assert Paired(v);
    hide Tracks, Standing, HandleMessage, FixFailedMessage, Invoke;
    if m.receiver != v.c.mediator || m.payload.Call? {
      InvokeKeeps(v, s, env.run);
    } else if m.payload.Tokens? {
      HandleMessageKeeps(v, s, m, env);
    } else {
      FixFailedMessageKeeps(v, s, m.payload.id, env);
    }
  }

  lemma ExecuteKeeps(v: View, s: State, m: Message, route: Route, env: Env)
    requires Standing(v) && Tracks(v, s) && Execute(v.c, s, m, route, env).Some?
    ensures Keeps(v, s, Execute(v.c, s, m, route, env).value)
    decreases env, 6
  {
    hide Tracks, Standing, Deliver, LookUp;
    var id, s1 := v.c.keccak(m), LookUp(v.c, s, m, route).value;
    LookUpKeeps(v, s, m, route);
    var started := Open(s1, id, m.sender);
    LowersKeeps(v, s1, started);
    var r := Deliver(v.c, started, m, env);
    if r.Some? {
      DeliverKeeps(v, started, m, env);
      LowersKeeps(v, r.value, Close(r.value, id, true));
    } else {
      LowersKeeps(v, started, Close(started, id, false));
    }
  }

  /** Every call leaves the records sound and the lock as it was, however much reenters. */
  lemma RunKeeps(v: View, s: State, a: Action)
    requires Standing(v) && Tracks(v, s) && Run(v.c, s, a).Some?
    ensures Keeps(v, s, Run(v.c, s, a).value)
    decreases a, 2
  {
    hide Tracks, Standing, Execute, Relay, TransferFrom, OnTokenTransfer, SendTokens, Send;
    match a {
      case PassMessage(sender, receiver, payload, gasLimit) =>
        SendKeeps(v, s, sender, receiver, payload, gasLimit);
      case ExecuteMessage(m, route, env) =>
        ExecuteKeeps(v, s, m, route, env);
      case RelayTokens(_, _, _, _, _, _, _, _) =>
        RelayKeeps(v, s, a);
      case Transfer(token, from, to, value, notify, receiver, withCall, env) =>
        TransferFromKeeps(v, s, token, from, to, value, notify, receiver, withCall, env);
      case Notify(token, from, receiver, value, withCall, env) =>
        OnTokenTransferKeeps(v, s, token, from, receiver, value, withCall, env);
      case Burn(token, holder, value) =>
        LowersKeeps(v, s, HolderBurn(s, token, holder, value).value);
      case Rebase(token, holder, balance) =>
        LowersKeeps(v, s, WithBalance(s, token, holder, balance));
      case RequestFix(m, gasLimit) =>
        SendKeeps(v, s, v.c.mediator, v.c.other, FixFailed(v.c.keccak(m)), gasLimit);
      case FixBalance(token, receiver, available, env) =>
        var balance, held := Balance(s, token, v.c.mediator), Get(s.med.mediatorBalance, token);
        SendTokensKeeps(v, s, true, token, receiver, receiver,
                        if balance - held > available then available else balance - held, false, env);
    }
  }

  // ---------------------------------------------------------------- every run

  /** The records of both sides are sound, and no call is left half way. */
  ghost predicate Ready(p: Setup, w: World) {
    && Safe(p, w)
    && Tracks(HomeView(p, w), w.home) && Tracks(View(p.foreign, p.home, w.home), w.foreign)
    && !w.home.med.lock && !w.foreign.med.lock
  }

  /** What one side's records say of the other one stays true while that one changes. */
  lemma StillTracks(v: View, s: State, t: State)
    requires Tracks(View(v.co, v.c, s), v.o) && s.amb.sent <= t.amb.sent && s.med.bridgedOf.Keys <= t.med.bridgedOf.Keys
    ensures Tracks(View(v.co, v.c, t), v.o)
  {
    var w, w' := View(v.co, v.c, s), View(v.co, v.c, t);
    assert forall k | 0 <= k < |s.amb.sent| :: t.amb.sent[k] == s.amb.sent[k];
    assert forall token | HasBridged(w, token) :: HasBridged(w', token);
    forall token | CameOver(w, token) ensures CameOver(w', token) {
      var k :| 0 <= k < |s.amb.sent| && IsTransfer(s.amb.sent[k], v.c.mediator, false, token);
      assert t.amb.sent[k] == s.amb.sent[k];
    }
  }

  lemma CallStaysReady(p: Setup, w: World, a: Action)
    requires Ready(p, w)
    ensures Ready(p, w.(home := Transact(p.home, w.home, a)))
  {
    hide Inv, Imbalance, Run, Tracks;
    var v := HomeView(p, w);
    CallKeeps(p, w, a);
    if Run(p.home, w.home, a).Some? {
      var t := Run(p.home, w.home, a).value;
      SafeStands(p, w);
      RunKeeps(v, w.home, a);
      BridgedGrows(v, w.home, a);
      StillTracks(v, w.home, t);
    }
  }

  lemma SafeStands(p: Setup, w: World)
    requires Safe(p, w)
    ensures Standing(HomeView(p, w))
  {
    hide Imbalance;
  }

  lemma BridgedGrows(v: View, s: State, a: Action)
    requires Inv(v, s) && Run(v.c, s, a).Some?
    ensures var t := Run(v.c, s, a).value; s.amb.sent <= t.amb.sent && s.med.bridgedOf.Keys <= t.med.bridgedOf.Keys
  {
    hide Run, Inv, Imbalance;
    CustodyRuns.RunKeeps(v, s, a, Asset(true, 0));
    var t := Run(v.c, s, a).value;
    InvRegistry(v, s);
    InvRegistry(v, t);
  }

  lemma SyncStaysReady(p: Setup, w: World, slot: nat, n: nat)
    requires Ready(p, w)
    ensures Ready(p, w.(home := Sync(p.foreign, w.home, w.foreign.amb.sent, slot, n)))
  {
    hide Safe;
    var t, v := Sync(p.foreign, w.home, w.foreign.amb.sent, slot, n), HomeView(p, w);
    SyncKeeps(p, w, slot, n);
    StillTracks(v, w.home, t);
  }

  lemma ReadySwap(p: Setup, w: World)
    requires Ready(p, w)
    ensures Ready(SwapSetup(p), Swap(w))
  {
    hide Safe, Tracks;
    SafeSwap(p, w);
  }

  lemma NextStaysReady(p: Setup, w: World, e: Event)
    requires Ready(p, w)
    ensures Ready(p, Next(p, w, e))
  {
    hide Ready, Transact, Sync;
    match e {
      case HomeCall(a) =>
        CallStaysReady(p, w, a);
      case HomeSync(slot, n) =>
        SyncStaysReady(p, w, slot, n);
      case ForeignCall(a) =>
        ReadySwap(p, w);
        CallStaysReady(SwapSetup(p), Swap(w), a);
        ReadySwap(SwapSetup(p), Swap(Next(p, w, e)));
      case ForeignSync(slot, n) =>
        ReadySwap(p, w);
        SyncStaysReady(SwapSetup(p), Swap(w), slot, n);
        ReadySwap(SwapSetup(p), Swap(Next(p, w, e)));
    }
  }

  lemma {:induction false} PlayStaysReady(p: Setup, w: World, events: seq<Event>)
    requires Ready(p, w)
    ensures Ready(p, Play(p, w, events))
    decreases |events|
  {
    hide Ready, Next;
    if events != [] {
      NextStaysReady(p, w, events[0]);
      PlayStaysReady(p, Next(p, w, events[0]), events[1..]);
    }
  }

  /** In every run. */
  lemma EveryRunIsReady(p: Setup, events: seq<Event>)
    requires ValidSetup(p)
    ensures Ready(p, Play(p, Genesis(), events))
  {
    hide Play;
    GenesisIsSafe(p);
    PlayStaysReady(p, Genesis(), events);
  }

  /** No token is a native one and a bridged one of the other side's: what is bridged there is native here. */
  lemma BridgedIsNative(p: Setup, events: seq<Event>, token: Token)
    requires ValidSetup(p)
    ensures var w := Play(p, Genesis(), events);
            && (token in w.foreign.med.bridgedOf ==> token in w.home.med.registered && token !in w.home.med.nativeOf)
            && (token in w.home.med.bridgedOf ==> token in w.foreign.med.registered && token !in w.foreign.med.nativeOf)
  {
    hide Play, Ready;
    EveryRunIsReady(p, events);
    var w := Play(p, Genesis(), events);
    if token in w.foreign.med.bridgedOf {
      NativeThere(p, w, token);
    }
    if token in w.home.med.bridgedOf {
      ReadySwap(p, w);
      NativeThere(SwapSetup(p), Swap(w), token);
    }
  }

  lemma NativeThere(p: Setup, w: World, token: Token)
    requires Ready(p, w) && token in w.foreign.med.bridgedOf
    ensures token in w.home.med.registered && token !in w.home.med.nativeOf
  {
    hide Imbalance, Linked, Numbered, Requested, Once, Registry;
    assert CameOver(View(p.foreign, p.home, w.home), token);
    var k :| 0 <= k < |w.home.amb.sent| && IsTransfer(w.home.amb.sent[k], p.home.mediator, false, token);
    assert IsTokens(p.home, w.home.amb.sent[k]);
    assert RecordedAs(p.home, w.home, w.home.amb.sent[k]);
  }
}
