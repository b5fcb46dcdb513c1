/** While relayTokens pulls tokens in, the lock keeps all that reenters, but for fixMediatorBalance, from depositing. */
module Locked {
  import opened Words
  import opened Chain
  import opened Bridge
  import opened Custody

  // ---------------------------------------------------------------- kinds of calls that do not occur

  /** A token, if one is named, and any token otherwise. */
  predicate Matches(x: Option<Token>, token: Token) {
    x == None || x.value == token
  }

  /**
   * Fix is fixMediatorBalance for a token, which only the owner can call. Tamper adds what a token's own code can do
   * to the mediator besides transfers: change its balance at will, or report a transfer that did not take place.
   */
  datatype Ban = Fix(x: Option<Token>) | Tamper(mediator: Address, token: Token)

  predicate Banned(b: Ban, a: Action) {
    match a
    case FixBalance(token, _, _, _) => if b.Fix? then Matches(b.x, token) else token == b.token
    case Rebase(token, holder, _) => b.Tamper? && token == b.token && holder == b.mediator
    case Notify(token, _, _, _, _, _) => b.Tamper? && token == b.token
    case _ => false
  }

  /** What is banned while a token is pulled in. Its own code may tamper then, as relayTokens measures the result. */
  function WhilePulling(b: Ban, token: Token): Ban {
    if b.Tamper? && b.token == token then Fix(Some(token)) else b
  }

  /** No banned call, at any depth. */
  predicate Without(b: Ban, a: Action)
    decreases a
  {
    !Banned(b, a) &&
    match a
    case ExecuteMessage(_, _, env) => EnvWithout(b, env)
    case RelayTokens(token, _, _, _, _, _, pull, env) =>
      AllWithout(WhilePulling(b, token), pull.actions) && EnvWithout(b, env)
    case Transfer(_, _, _, _, _, _, _, env) => EnvWithout(b, env)
    case Notify(_, _, _, _, _, env) => EnvWithout(b, env)
    case _ => true
  }

  predicate AllWithout(b: Ban, actions: Actions)
    decreases actions
  {
    match actions
    case Nil => true
    case Cons(a, rest) => Without(b, a) && AllWithout(b, rest)
  }

  predicate EnvWithout(b: Ban, env: Env)
    decreases env
  {
    && AllWithout(b, env.feeCall.actions) && AllWithout(b, env.distribute.actions)
    && AllWithout(b, env.release.actions) && AllWithout(b, env.callback.actions) && AllWithout(b, env.run.actions)
  }

  // ---------------------------------------------------------------- fixes that go through

  /** With the lock set, some call of fixMediatorBalance for the token goes through while the actions run. */
  ghost predicate FixesAll(c: Config, s: State, actions: Actions, x: Option<Token>)
    decreases actions, 0
  {
    match actions
    case Nil => false
    case Cons(a, rest) =>
      var r := Run(c, s, a);
      Fixes(c, s, a, x) || FixesAll(c, if r.Some? then r.value else s, rest, x)
  }

  /** The same for one call: by itself, or from code that is called by a message it executes. */
  ghost predicate Fixes(c: Config, s: State, a: Action, x: Option<Token>)
    decreases a, 1
  {
    Run(c, s, a).Some? &&
    match a
    case FixBalance(token, _, _, _) => Matches(x, token)
    case ExecuteMessage(m, route, env) =>
      var found := LookUp(c, s, m, route);
      found.Some? &&
      var started := Open(found.value, c.keccak(m), m.sender);
      Deliver(c, started, m, env).Some? && FixesDeliver(c, started, m, env, x)
    case _ => false
  }

  /** From the receiver's code, or from the token's while a refund is paid. */
  ghost predicate FixesDeliver(c: Config, s: State, m: Message, env: Env, x: Option<Token>)
    decreases env, 1
  {
    if m.receiver != c.mediator || m.payload.Call? then FixesAll(c, s, env.run.actions, x)
    else m.payload.FixFailed? && FixesRefund(c, s, m.payload.id, env, x)
  }

  ghost predicate FixesRefund(c: Config, s: State, id: Digest, env: Env, x: Option<Token>)
    decreases env, 0
  {
    id in s.med.ops && s.med.ops[id].token !in s.med.nativeOf &&
    var op := s.med.ops[id];
    var paying := if c.home then Some(MarkFixed(s, id)) else SubtractBalance(MarkFixed(s, id), op.token, op.value);
    paying.Some? &&
    var paid := Move(paying.value, op.token, c.mediator, op.recipient, op.value);
    paid.Some? && FixesAll(c, paid.value, env.release.actions, x)
  }

  // ---------------------------------------------------------------- what stays while the lock is set

  /** A transfer of the mediator, of the token. */
  ghost predicate About(c: Config, x: Option<Token>, m: Message) {
    IsTokens(c, m) && (x == None || (!m.payload.toNative && m.payload.token == x.value))
  }

  /** No transfer of the token was sent or recorded, and none of it was added to the books. */
  ghost predicate NoDeposit(c: Config, s: State, t: State, x: Option<Token>) {
    && s.amb.sent <= t.amb.sent
    && (forall k | |s.amb.sent| <= k < |t.amb.sent| :: !About(c, x, t.amb.sent[k]))
    && (x == None ==> t.med.ops == s.med.ops)
    && (forall id | id in t.med.ops && Matches(x, t.med.ops[id].token) ::
          id in s.med.ops && s.med.ops[id] == t.med.ops[id])
    && (forall token: Token | Matches(x, token) ::
          Get(t.med.mediatorBalance, token) <= Get(s.med.mediatorBalance, token))
  }

  ghost predicate SomeDeposit(c: Config, s: State, t: State, x: Option<Token>) {
    s.amb.sent <= t.amb.sent && exists k :: |s.amb.sent| <= k < |t.amb.sent| && About(c, x, t.amb.sent[k])
  }

  /** From s to t, under the lock: whether something was deposited depends on whether a fix went through. */
  ghost predicate StaysLocked(c: Config, s: State, t: State, x: Option<Token>, fixes: bool) {
    && t.med.lock && t.med.nativeOf == s.med.nativeOf
    && if fixes then SomeDeposit(c, s, t, x) else NoDeposit(c, s, t, x)
  }

  lemma LockedTrans(c: Config, r: State, s: State, t: State, x: Option<Token>, f: bool, g: bool)
    requires StaysLocked(c, r, s, x, f) && StaysLocked(c, s, t, x, g)
    ensures StaysLocked(c, r, t, x, f || g)
  {
    assert forall k | 0 <= k < |s.amb.sent| :: t.amb.sent[k] == s.amb.sent[k];
    if f {
      var k :| |r.amb.sent| <= k < |s.amb.sent| && About(c, x, s.amb.sent[k]);
      assert About(c, x, t.amb.sent[k]);
    } else if g {
      var k :| |s.amb.sent| <= k < |t.amb.sent| && About(c, x, t.amb.sent[k]);
    }
  }

  lemma LockedRefl(c: Config, s: State, x: Option<Token>)
    requires s.med.lock
    ensures StaysLocked(c, s, s, x, false)
  {
  }

  /** Everything but ledger, delivery and caches is the same, and the books went down at most. */
  lemma LockedQuietly(c: Config, s: State, t: State, x: Option<Token>)
    requires s.med.lock && t.amb.sent == s.amb.sent
    requires t.med == s.med.(mediatorBalance := t.med.mediatorBalance, fixed := t.med.fixed)
    requires forall token: Token :: Get(t.med.mediatorBalance, token) <= Get(s.med.mediatorBalance, token)
    ensures StaysLocked(c, s, t, x, false)
  {
  }

  lemma InvokeLocked(c: Config, s: State, hook: Hook, x: Option<Token>)
    requires s.med.lock && Invoke(c, s, hook).Some?
    ensures StaysLocked(c, s, Invoke(c, s, hook).value, x, FixesAll(c, s, hook.actions, x))
    decreases hook, 0
  {
    hide StaysLocked, FixesAll;
    RunAllLocked(c, s, hook.actions, x);
  }

  lemma RunAllLocked(c: Config, s: State, actions: Actions, x: Option<Token>)
    requires s.med.lock
    ensures StaysLocked(c, s, RunAll(c, s, actions), x, FixesAll(c, s, actions, x))
    decreases actions, 0
  {
    hide StaysLocked, Fixes, Run;
    match actions {
      case Nil =>
        LockedRefl(c, s, x);
      case Cons(a, rest) =>
        var r := Run(c, s, a);
        if r.Some? {
          RunLocked(c, s, a, x);
          StillLocked(c, s, r.value, x, Fixes(c, s, a, x));
          RunAllLocked(c, r.value, rest, x);
          LockedTrans(c, s, r.value, RunAll(c, r.value, rest), x, Fixes(c, s, a, x), FixesAll(c, r.value, rest, x));
        } else {
          RevertedFixes(c, s, a, x);
          RunAllLocked(c, s, rest, x);
        }
    }
  }

  lemma StillLocked(c: Config, s: State, t: State, x: Option<Token>, fixes: bool)
    requires StaysLocked(c, s, t, x, fixes)
    ensures t.med.lock
  {
  }

  lemma RevertedFixes(c: Config, s: State, a: Action, x: Option<Token>)
    requires Run(c, s, a) == None
    ensures !Fixes(c, s, a, x)
  {
    hide Run;
  }

  lemma MoveLocked(c: Config, s: State, token: Token, from: Address, to: Address, value: nat, x: Option<Token>)
    requires s.med.lock && Move(s, token, from, to, value).Some?
    ensures StaysLocked(c, s, Move(s, token, from, to, value).value, x, false)
    ensures Move(s, token, from, to, value).value.med.lock
  {
    LockedQuietly(c, s, Move(s, token, from, to, value).value, x);
  }

  lemma SubtractLocked(c: Config, s: State, token: Token, change: nat, x: Option<Token>)
    requires s.med.lock && SubtractBalance(s, token, change).Some?
    ensures StaysLocked(c, s, SubtractBalance(s, token, change).value, x, false)
    ensures SubtractBalance(s, token, change).value.med.lock
  {
    LockedQuietly(c, s, SubtractBalance(s, token, change).value, x);
  }

  lemma PayOutLocked(c: Config, s: State, token: Token, to: Address, value: nat, hook: Hook, x: Option<Token>)
    requires s.med.lock && PayOut(c, s, token, to, value, hook).Some?
    ensures Move(s, token, c.mediator, to, value).Some?
    ensures StaysLocked(c, s, PayOut(c, s, token, to, value, hook).value, x,
                        FixesAll(c, Move(s, token, c.mediator, to, value).value, hook.actions, x))
    decreases hook, 1
  {
    hide Invoke, Move, StaysLocked, FixesAll;
    var s1 := Move(s, token, c.mediator, to, value).value;
    MoveLocked(c, s, token, c.mediator, to, value, x);
    InvokeLocked(c, s1, hook, x);
    LockedTrans(c, s, s1, Invoke(c, s1, hook).value, x, false, FixesAll(c, s1, hook.actions, x));
  }

  lemma FixFailedMessageLocked(c: Config, s: State, id: Digest, env: Env, x: Option<Token>)
    requires s.med.lock && FixFailedMessage(c, s, id, env).Some?
    ensures StaysLocked(c, s, FixFailedMessage(c, s, id, env).value, x, FixesRefund(c, s, id, env, x))
    decreases env, 2
  {
    hide PayOut, Move, Mint, SubtractBalance, StaysLocked, FixesAll;
    var op, s0, t := s.med.ops[id], MarkFixed(s, id), FixFailedMessage(c, s, id, env).value;
    LockedQuietly(c, s, s0, x);
    if op.token in s.med.nativeOf {
      MintLocked(c, s0, op.token, op.recipient, op.value, x);
      LockedTrans(c, s, s0, t, x, false, false);
    } else if c.home {
      var s1 := PayOut(c, s0, op.token, op.recipient, op.value, env.release).value;
      PayOutLocked(c, s0, op.token, op.recipient, op.value, env.release, x);
      var f := FixesAll(c, Move(s0, op.token, c.mediator, op.recipient, op.value).value, env.release.actions, x);
      StillLocked(c, s0, s1, x, f);
      SubtractLocked(c, s1, op.token, op.value, x);
      LockedTrans(c, s0, s1, t, x, f, false);
      LockedTrans(c, s, s0, t, x, false, f);
    } else {
      var s1 := SubtractBalance(s0, op.token, op.value).value;
      SubtractLocked(c, s0, op.token, op.value, x);
      PayOutLocked(c, s1, op.token, op.recipient, op.value, env.release, x);
      var f := FixesAll(c, Move(s1, op.token, c.mediator, op.recipient, op.value).value, env.release.actions, x);
      LockedTrans(c, s0, s1, t, x, false, f);
      LockedTrans(c, s, s0, t, x, false, f);
    }
  }

  lemma MintLocked(c: Config, s: State, token: Token, to: Address, value: nat, x: Option<Token>)
    requires s.med.lock && Mint(s, token, to, value).Some?
    ensures StaysLocked(c, s, Mint(s, token, to, value).value, x, false)
  {
    LockedQuietly(c, s, Mint(s, token, to, value).value, x);
  }

  /** Arriving transfers are refused; only other messages and refunds get through. */
  lemma DeliverLocked(c: Config, s: State, m: Message, env: Env, x: Option<Token>)
    requires s.med.lock && Deliver(c, s, m, env).Some?
    ensures StaysLocked(c, s, Deliver(c, s, m, env).value, x, FixesDeliver(c, s, m, env, x))
    decreases env, 3
  {
    hide FixFailedMessage, Invoke, StaysLocked, FixesAll, FixesRefund;
    if m.receiver != c.mediator || m.payload.Call? {
      InvokeLocked(c, s, env.run, x);
    } else if m.payload.Tokens? {
      HandleRefused(c, s, m.payload, env);
      assert false;
    } else {
      FixFailedMessageLocked(c, s, m.payload.id, env, x);
    }
  }

  lemma HandleRefused(c: Config, s: State, p: Payload, env: Env)
    requires s.med.lock && p.Tokens?
    ensures HandleMessage(c, s, p, env) == None
  {
  }

  lemma ExecuteLocked(c: Config, s: State, m: Message, route: Route, env: Env, x: Option<Token>)
    requires s.med.lock && Execute(c, s, m, route, env).Some? && LookUp(c, s, m, route).Some?
    ensures var started := Open(LookUp(c, s, m, route).value, c.keccak(m), m.sender);
            StaysLocked(c, s, Execute(c, s, m, route, env).value, x,
                        Deliver(c, started, m, env).Some? && FixesDeliver(c, started, m, env, x))
    decreases env, 4
  {
    hide Deliver, StaysLocked, FixesDeliver;
    var id, s1, t := c.keccak(m), LookUp(c, s, m, route).value, Execute(c, s, m, route, env).value;
    assert s1 == s.(amb := s.amb.(storageRoot := s1.amb.storageRoot));
    var started := Open(s1, id, m.sender);
    LockedQuietly(c, s, started, x);
    var r := Deliver(c, started, m, env);
    if r.Some? {
      var f := FixesDeliver(c, started, m, env, x);
      DeliverLocked(c, started, m, env, x);
      StillLocked(c, started, r.value, x, f);
      LockedQuietly(c, r.value, t, x);
      LockedTrans(c, started, r.value, t, x, f, false);
      LockedTrans(c, s, started, t, x, false, f);
    } else {
      LockedQuietly(c, s, t, x);
    }
  }

  /** The token's callback is ignored. */
  lemma TransferLocked(c: Config, s: State, token: Token, from: Address, to: Address, value: nat, notify: bool,
                       receiver: Address, withCall: bool, env: Env)
    requires s.med.lock
    ensures TransferFrom(c, s, token, from, to, value, notify, receiver, withCall, env)
            == Move(s, token, from, to, value)
  {
    hide Deposit;
  }

  /** A fix that goes through sends a transfer of its token, and changes nothing about other tokens. */
  lemma FixLocked(c: Config, s: State, token: Token, receiver: Address, available: nat, env: Env, x: Option<Token>)
    requires s.med.lock && FixMediatorBalance(c, s, token, receiver, available, env).Some?
    ensures StaysLocked(c, s, FixMediatorBalance(c, s, token, receiver, available, env).value, x, Matches(x, token))
  {
    var t := FixMediatorBalance(c, s, token, receiver, available, env).value;
    assert IsTokens(c, t.amb.sent[|s.amb.sent|]) && t.amb.sent[|s.amb.sent|].payload.token == token;
  }

  /** Messages that are no transfers of the mediator. */
  lemma SendLocked(c: Config, s: State, sender: Address, receiver: Address, payload: Payload, gasLimit: nat,
                   x: Option<Token>)
    requires s.med.lock && Send(c, s, sender, receiver, payload, gasLimit).Some?
    requires sender != c.mediator || !payload.Tokens?
    ensures StaysLocked(c, s, Send(c, s, sender, receiver, payload, gasLimit).value, x, false)
  {
  }

  /** One reentrant call. */
  lemma RunLocked(c: Config, s: State, a: Action, x: Option<Token>)
    requires s.med.lock && Run(c, s, a).Some?
    ensures StaysLocked(c, s, Run(c, s, a).value, x, Fixes(c, s, a, x))
    decreases a, 1
  {
    hide Execute, Deposit, Pull, TransferFrom, StaysLocked, Deliver, FixesDeliver, Move, LookUp,
         FixMediatorBalance, Send;
    match a {
      case PassMessage(sender, receiver, payload, gasLimit) =>
        SendLocked(c, s, sender, receiver, payload, gasLimit, x);
      case ExecuteMessage(m, route, env) =>
        ExecuteFinds(c, s, m, route, env);
        ExecuteLocked(c, s, m, route, env, x);
      case RelayTokens(_, _, _, _, _, _, _, _) =>
        assert false;
      case Transfer(token, from, to, value, notify, receiver, withCall, env) =>
        TransferLocked(c, s, token, from, to, value, notify, receiver, withCall, env);
        MoveLocked(c, s, token, from, to, value, x);
      case Notify(token, from, receiver, value, withCall, env) =>
        assert OnTokenTransfer(c, s, token, from, receiver, value, withCall, env) == Some(s);
        LockedRefl(c, s, x);
      case Burn(token, holder, value) =>
        LockedQuietly(c, s, HolderBurn(s, token, holder, value).value, x);
      case Rebase(token, holder, balance) =>
        LockedQuietly(c, s, WithBalance(s, token, holder, balance), x);
      case RequestFix(m, gasLimit) =>
        SendLocked(c, s, c.mediator, c.other, FixFailed(c.keccak(m)), gasLimit, x);
      case FixBalance(token, receiver, available, env) =>
        FixLocked(c, s, token, receiver, available, env, x);
    }
  }

  lemma ExecuteFinds(c: Config, s: State, m: Message, route: Route, env: Env)
    requires Execute(c, s, m, route, env).Some?
    ensures LookUp(c, s, m, route).Some?
  {
    hide Deliver, LookUp;
  }

  /** The state in which the pulled token's code runs. */
  ghost function Pulled(c: Config, s: State, a: Action): State
    requires a.RelayTokens? && Pull(c, s, a).Some?
    ensures Move(SetLock(s, true), a.token, a.from, c.mediator, a.value) == Some(Pulled(c, s, a))
  {
    hide Invoke, TransferFrom;
    TransferLocked(c, SetLock(s, true), a.token, a.from, c.mediator, a.value, a.notify, a.from, false, a.env);
    Move(SetLock(s, true), a.token, a.from, c.mediator, a.value).value
  }

  /**
   * Pulling tokens in deposits nothing yet, whatever their code does meanwhile, if and only if no call of
   * fixMediatorBalance goes through: for one token, or for all of them.
   */
  lemma PullLocked(c: Config, s: State, a: Action, x: Option<Token>)
    requires a.RelayTokens? && Pull(c, s, a).Some?
    ensures NoDeposit(c, s, Pull(c, s, a).value, x) <==> !FixesAll(c, Pulled(c, s, a), a.pull.actions, x)
    ensures !Pull(c, s, a).value.med.lock && Pull(c, s, a).value.med.nativeOf == s.med.nativeOf
  {
    hide Invoke, TransferFrom, Move, FixesAll;
    var s0, s1 := SetLock(s, true), Pulled(c, s, a);
    var f := FixesAll(c, s1, a.pull.actions, x);
    TransferLocked(c, s0, a.token, a.from, c.mediator, a.value, a.notify, a.from, false, a.env);
    MoveLocked(c, s0, a.token, a.from, c.mediator, a.value, x);
    InvokeLocked(c, s1, a.pull, x);
    LockedTrans(c, s0, s1, Invoke(c, s1, a.pull).value, x, false, f);
  }

  // ---------------------------------------------------------------- no fix goes through if none is called

  lemma {:induction false} NothingFixes(c: Config, s: State, actions: Actions, x: Option<Token>)
    requires AllWithout(Fix(x), actions)
    ensures !FixesAll(c, s, actions, x)
    decreases actions, 0
  {
    hide Run, Fixes, Without;
    match actions {
      case Nil =>
      case Cons(a, rest) =>
        var r := Run(c, s, a);
        CallFixesNothing(c, s, a, x);
        NothingFixes(c, if r.Some? then r.value else s, rest, x);
    }
  }

  lemma {:induction false} CallFixesNothing(c: Config, s: State, a: Action, x: Option<Token>)
    requires Without(Fix(x), a)
    ensures !Fixes(c, s, a, x)
    decreases a, 1
  {
    hide Run, LookUp, Deliver, FixesAll;
    if a.ExecuteMessage? && LookUp(c, s, a.message, a.route).Some? {
      var started := Open(LookUp(c, s, a.message, a.route).value, c.keccak(a.message), a.message.sender);
      DeliveryFixesNothing(c, started, a.message, a.env, x);
    }
  }

  lemma {:induction false} DeliveryFixesNothing(c: Config, s: State, m: Message, env: Env, x: Option<Token>)
    requires EnvWithout(Fix(x), env)
    ensures !FixesDeliver(c, s, m, env, x)
    decreases env, 1
  {
    hide FixesAll, SubtractBalance, Move;
    NothingFixes(c, s, env.run.actions, x);
    if m.payload.FixFailed? && FixesRefund(c, s, m.payload.id, env, x) {
      var id := m.payload.id;
      var op := s.med.ops[id];
      var paying := if c.home then Some(MarkFixed(s, id)) else SubtractBalance(MarkFixed(s, id), op.token, op.value);
      var paid := Move(paying.value, op.token, c.mediator, op.recipient, op.value);
      NothingFixes(c, paid.value, env.release.actions, x);
      assert false;
    }
  }
}
