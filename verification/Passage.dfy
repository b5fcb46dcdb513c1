/** Every transfer that was sent can arrive: what its execution needs is there, on whichever side it was sent. */
module Passage {
  import opened Words
  import opened Chain
  import opened Bridge
  import opened Custody
  import opened CustodySteps
  import CustodyRuns
  import Locked
  import opened TwoChains
  import opened Deposits
  import opened Arrivals
  import opened Outcomes
  import opened Records
  import opened Recovery
  import Solvency

  // ---------------------------------------------------------------- which messages can be looked up

  /** What the light client shows of the other chain contains the message. */
  predicate Shown(c: Config, s: State, m: Message, route: Route) {
    route.slot in s.amb.roots &&
    match route
    case Storage(slot) => Bridge.Holds(s.amb.roots[slot], m.nonce, c.keccak(m))
    case Log(slot) => c.keccak(m) in s.amb.roots[slot]
  }

  /** Caching makes no difference: a lookup succeeds if and only if the light client shows the message. */
  lemma LookUpExactly(v: View, s: State, m: Message, route: Route)
    requires Tracks(v, s)
    ensures LookUp(v.c, s, m, route).Some? <==> Shown(v.c, s, m, route)
  {
  }

  /** So a slot that was learned serves all its messages, forever, whatever has been executed with it before. */
  lemma SlotServesAll(p: Setup, events: seq<Event>, more: seq<Event>, m: Message, route: Route)
    requires ValidSetup(p) && Shown(p.foreign, Play(p, Genesis(), events).foreign, m, route)
    ensures LookUp(p.foreign, Play(p, Play(p, Genesis(), events), more).foreign, m, route).Some?
  {
    hide Play, Safe, Tracks, LookUp;
    var w := Play(p, Genesis(), events);
    EveryRunIsReady(p, events);
    PlayStaysReady(p, w, more);
    PlayKeeps(p, w, more);
    var after := Play(p, w, more);
    LookUpExactly(View(p.foreign, p.home, after.home), after.foreign, m, route);
  }

  // ---------------------------------------------------------------- one execution

  /** The token of this side that arrives. */
  function ArrivesAs(s: State, p: Payload, env: Env): Token
    requires p.Tokens?
  {
    if p.toNative then p.token else if p.token in s.med.bridgedOf then s.med.bridgedOf[p.token] else env.created
  }

  /** A token that arrives for the first time has a name, and its bridged token is a new contract. */
  predicate CanDeploy(s: State, p: Payload, env: Env)
    requires p.Tokens?
  {
    p.deploy && !p.toNative && p.token !in s.med.bridgedOf ==>
      env.hasName && env.created != 0 && env.created !in s.med.registered && env.created !in s.med.nativeOf
  }

  /** The fee of this side. */
  function FeeOn(c: Config, s: State, p: Payload, env: Env): nat
    requires p.Tokens?
  {
    FeeDue(c, s, p.toNative, ArrivesAs(s, p, env), env)
  }

  /**
   * What it takes for a transfer to be executed with success: gas and limits, a bridged token or a way to deploy one, a
   * fee within the value, no overflow of the recipient's balance and, to unlock native tokens, the tokens themselves.
   */
  predicate Passes(c: Config, s: State, p: Payload, env: Env)
    requires p.Tokens?
  {
    var token, fee := ArrivesAs(s, p, env), FeeOn(c, s, p, env);
    && env.enoughGas && env.withinLimits && CanDeploy(s, p, env)
    && fee <= p.value && (fee > 0 ==> env.distribute.ok)
    && After(c, s, token, p.toNative, c.feeManager, fee, p.recipient)
       + Gain(c, p.toNative, p.recipient, p.value - fee, p.recipient) < TWO_256
    && (p.toNative ==>
          && p.recipient != 0 && env.release.ok
          && p.value - fee <= After(c, s, token, true, c.feeManager, fee, c.mediator))
  }

  /** What the books say: a native token can be taken off them, a bridged one does not overflow its supply. */
  predicate InTheBooks(s: State, isNative: bool, token: Token, value: nat) {
    if isNative then value <= Get(s.med.mediatorBalance, token) else Get(s.ledger.supply, token) + value < TWO_256
  }

  predicate OnBooks(s: State, p: Payload, env: Env)
    requires p.Tokens?
  {
    CanDeploy(s, p, env) ==> InTheBooks(s, p.toNative, ArrivesAs(s, p, env), p.value)
  }

  /** A transfer that asks for no bridged token has one. */
  predicate Expected(s: State, p: Payload)
    requires p.Tokens?
  {
    !p.toNative && !p.deploy ==> p.token in s.med.bridgedOf && s.med.bridgedOf[p.token] in s.med.registered
  }

  /**
   * From s to t message m has arrived: it was executed with success, its value was paid out, the fee of this side
   * included, the token's deployment is known, and then, if it asks for that, the recipient's callback ran.
   */
  ghost predicate Arrived(c: Config, s: State, t: State, m: Message, env: Env)
    requires m.payload.Tokens?
  {
    exists u: State ::
      && HandedOut(c, s, u, m.payload, env)
      && t == Close(if m.payload.withCall && env.callback.ok then RunAll(c, u, env.callback.actions) else u,
                    c.keccak(m), true)
  }

  ghost predicate HandedOut(c: Config, s: State, u: State, p: Payload, env: Env)
    requires p.Tokens?
  {
    var token := ArrivesAs(s, p, env);
    && Paid(c, s, u, p.toNative, token, p.recipient, p.value, FeeOn(c, s, p, env)) && u.amb.sent == s.amb.sent
    && if p.toNative then p.token in u.med.acked
       else p.token in u.med.bridgedOf && u.med.bridgedOf[p.token] == token && token in u.med.registered
  }

  /** What the arriving message is about, and what is known about its token from then on. */
  ghost predicate Prepared(s: State, t: State, p: Payload, token: Token)
    requires p.Tokens?
  {
    && t.amb == s.amb && t.ledger == s.ledger
    && t.med.mediatorBalance == s.med.mediatorBalance && t.med.lock == s.med.lock
    && if p.toNative then p.token in t.med.acked
       else p.token in t.med.bridgedOf && t.med.bridgedOf[p.token] == token && token in t.med.registered
  }

  lemma ArrivesExactly(s: State, p: Payload, env: Env)
    requires p.Tokens? && Expected(s, p)
    ensures var r, token := Arriving(s, p, env), ArrivesAs(s, p, env);
            && (r.Some? <==> CanDeploy(s, p, env))
            && (r.Some? ==> r.value.1 == token && Prepared(s, r.value.0, p, token))
  {
  }

  lemma HandlesExactly(c: Config, s: State, p: Payload, env: Env)
    requires p.Tokens? && Undisturbed(env) && Expected(s, p) && !s.med.lock
    requires env.enoughGas && OnBooks(s, p, env)
    ensures HandleMessage(c, s, p, env).Some? <==> Passes(c, s, p, env)
    ensures Passes(c, s, p, env) ==>
              exists u: State ::
                && HandedOut(c, s, u, p, env)
                && HandleMessage(c, s, p, env)
                   == Some(if p.withCall && env.callback.ok then RunAll(c, u, env.callback.actions) else u)
  {
    hide Arriving, HandleTokens, Paid, RunAll, FeeDue, CanDeploy, Expected;
    var token := ArrivesAs(s, p, env);
    ArrivesExactly(s, p, env);
    if CanDeploy(s, p, env) {
      var r := Arriving(s, p, env).value;
      SameFee(c, s, r.0, p.toNative, token, env);
      HandlingExactly(c, r.0, p.toNative, token, p.recipient, p.value, env);
      var handled := HandleTokens(c, r.0, p.toNative, token, p.recipient, p.value, env);
      if handled.Some? {
        SamePaid(c, r.0, s, handled.value, handled.value, p.toNative, token, p.recipient, p.value, FeeOn(c, s, p, env));
        assert HandedOut(c, s, handled.value, p, env);
      }
    }
  }

  lemma SameFee(c: Config, s: State, t: State, isNative: bool, token: Token, env: Env)
    requires t.ledger == s.ledger
    ensures FeeDue(c, t, isNative, token, env) == FeeDue(c, s, isNative, token, env)
  {
  }

  /** Only ledger and books matter for what was paid. */
  lemma SamePaid(c: Config, s: State, s': State, t: State, t': State, isNative: bool, token: Token, to: Address,
                 value: nat, fee: nat)
    requires s'.ledger == s.ledger && s'.med.mediatorBalance == s.med.mediatorBalance
    requires t'.ledger == t.ledger && t'.med.mediatorBalance == t.med.mediatorBalance
    requires Paid(c, s, t, isNative, token, to, value, fee)
    ensures Paid(c, s', t', isNative, token, to, value, fee)
  {
  }

  /** The outcome of a transfer's execution is recorded, and it is success if and only if the transfer passes. */
  ghost predicate RightOutcome(c: Config, s: State, t: State, m: Message, env: Env)
    requires m.payload.Tokens?
  {
    && c.keccak(m) in t.amb.status && (t.amb.status[c.keccak(m)] <==> Passes(c, s, m.payload, env))
    && (Passes(c, s, m.payload, env) ==> Arrived(c, s, t, m, env))
  }

  lemma TransferExecutes(c: Config, s: State, m: Message, route: Route, env: Env)
    requires c.keccak(m) !in s.amb.status && s.amb.messageId == EMPTY_MESSAGE_ID && LookUp(c, s, m, route).Some?
    requires m.sender == c.other && m.receiver == c.mediator && m.payload.Tokens? && !s.med.lock && Undisturbed(env)
    requires Expected(s, m.payload) && OnBooks(s, m.payload, env)
    ensures RightOutcome(c, s, Transact(c, s, ExecuteMessage(m, route, env)), m, env)
  {
    hide HandleMessage, RunAll, LookUp, Passes, OnBooks, HandedOut, Expected, Run;
    var id, s1 := c.keccak(m), LookUp(c, s, m, route).value;
    FoundOnly(c, s, m, route);
    var started := Open(s1, id, m.sender);
    SameConditions(c, s, started, m.payload, env);
    ExecuteExactly(c, s, m, route, env);
    DeliversTransfer(c, started, m, env);
    if env.enoughGas {
      HandlesExactly(c, started, m.payload, env);
      if Passes(c, s, m.payload, env) {
        var u: State :| HandedOut(c, started, u, m.payload, env)
                        && HandleMessage(c, started, m.payload, env)
                           == Some(if m.payload.withCall && env.callback.ok then RunAll(c, u, env.callback.actions)
                                   else u);
        SameHandedOut(c, started, s, u, m.payload, env);
      }
    } else {
      NeedsGas(c, s, m.payload, env);
    }
  }

  lemma NeedsGas(c: Config, s: State, p: Payload, env: Env)
    requires p.Tokens? && !env.enoughGas
    ensures !Passes(c, s, p, env)
  {
  }

  /** What arrives depends on ledger and mediator only. */
  lemma SameHandedOut(c: Config, s: State, s': State, u: State, p: Payload, env: Env)
    requires s'.ledger == s.ledger && s'.med == s.med && s'.amb.sent == s.amb.sent
    requires p.Tokens? && HandedOut(c, s, u, p, env)
    ensures HandedOut(c, s', u, p, env)
  {
    hide Paid, FeeDue;
    SameFee(c, s, s', p.toNative, ArrivesAs(s, p, env), env);
    SamePaid(c, s, s', u, u, p.toNative, ArrivesAs(s, p, env), p.recipient, p.value, FeeOn(c, s, p, env));
  }

  lemma FoundOnly(c: Config, s: State, m: Message, route: Route)
    requires LookUp(c, s, m, route).Some?
    ensures var t := LookUp(c, s, m, route).value; t == s.(amb := s.amb.(storageRoot := t.amb.storageRoot))
  {
  }

  lemma SameConditions(c: Config, s: State, t: State, p: Payload, env: Env)
    requires p.Tokens? && t.med == s.med && t.ledger == s.ledger
    ensures ArrivesAs(t, p, env) == ArrivesAs(s, p, env) && Passes(c, t, p, env) == Passes(c, s, p, env)
    ensures OnBooks(t, p, env) == OnBooks(s, p, env) && Expected(t, p) == Expected(s, p)
  {
    hide FeeDue;
    SameFee(c, s, t, p.toNative, ArrivesAs(s, p, env), env);
  }

  lemma DeliversTransfer(c: Config, s: State, m: Message, env: Env)
    requires m.receiver == c.mediator && m.payload.Tokens? && s.amb.messageSender == c.other
    ensures Deliver(c, s, m, env) == if env.enoughGas then HandleMessage(c, s, m.payload, env) else None
  {
    hide HandleMessage;
  }

  // ---------------------------------------------------------------- every transfer under way

  /** Message k of the home chain is a transfer that was not executed yet. */
  ghost predicate UnderWay(p: Setup, w: World, k: nat) {
    k < |w.home.amb.sent| && IsTokens(p.home, w.home.amb.sent[k])
    && p.foreign.keccak(w.home.amb.sent[k]) !in w.foreign.amb.status
  }

  /** It is a message between the mediators, and if it does not ask for a bridged token, there is one. */
  lemma RightlyAddressed(p: Setup, w: World, k: nat)
    requires Ready(p, w) && UnderWay(p, w, k)
    ensures var m := w.home.amb.sent[k];
            m.sender == p.foreign.other && m.receiver == p.foreign.mediator && Expected(w.foreign, m.payload)
  {
    hide Imbalance, Linked, Numbered, Requested, Once;
    assert RecordedAs(p.home, w.home, w.home.amb.sent[k]);
    var m := w.home.amb.sent[k];
    if !m.payload.toNative && !m.payload.deploy {
      assert NeedsNoDeployment(p.home, m) && HasBridged(HomeView(p, w), m.payload.token);
    }
  }

  /** The value is part of what the books of both sides say. */
  lemma BooksAgree(p: Setup, w: World, k: nat, env: Env)
    requires Ready(p, w) && UnderWay(p, w, k)
    ensures OnBooks(w.foreign, w.home.amb.sent[k].payload, env)
  {
    hide Pending, Inv, Tracks;
    RightlyAddressed(p, w, k);
    var m := w.home.amb.sent[k];
    var q := m.payload;
    StillCounts(p, w, k);
    PendingCovers(p.home, w.home.amb.sent, k, q.toNative, q.token, w.foreign.amb.status, w.home.med.fixed);
    assert Imbalance(HomeView(p, w), w.home, Asset(!q.toNative, q.token)) == 0;
    if !q.toNative {
      BooksFit(HomeView(p, w), w.home, q.token);
      ForeignRegistry(p, w);
    }
  }

  lemma StillCounts(p: Setup, w: World, k: nat)
    requires Ready(p, w) && UnderWay(p, w, k)
    ensures var m := w.home.amb.sent[k];
            Worth(p.home, m, m.payload.toNative, m.payload.token, w.foreign.amb.status, w.home.med.fixed)
            == m.payload.value
  {
    NotRefunded(p, w, k);
  }

  lemma BooksFit(v: View, s: State, token: Token)
    requires Tracks(v, s)
    ensures Get(s.med.mediatorBalance, token) < TWO_256
  {
  }

  lemma ForeignRegistry(p: Setup, w: World)
    requires Ready(p, w)
    ensures Registry(w.foreign)
  {
    hide Imbalance, Tracks;
  }

  /**
   * Passage. In every reachable state every transfer that was sent and has no outcome yet, once it is shown, is
   * executed with success and pays its value exactly if it passes. A token whose deployment was acknowledged needs no
   * new one.
   */
  lemma TransferArrives(p: Setup, events: seq<Event>, k: nat, route: Route, env: Env)
    requires ValidSetup(p) && UnderWay(p, Play(p, Genesis(), events), k) && Undisturbed(env)
    requires var w := Play(p, Genesis(), events); Shown(p.foreign, w.foreign, w.home.amb.sent[k], route)
    ensures var w := Play(p, Genesis(), events);
            var m := w.home.amb.sent[k];
            var after := Next(p, w, ForeignCall(ExecuteMessage(m, route, env)));
            RightOutcome(p.foreign, w.foreign, after.foreign, m, env)
  {
    hide Play, Ready, UnderWay, Shown, RightOutcome, Transact;
    EveryRunIsReady(p, events);
    ShownTransferArrives(p, Play(p, Genesis(), events), k, route, env);
  }

  lemma ShownTransferArrives(p: Setup, w: World, k: nat, route: Route, env: Env)
    requires Ready(p, w) && UnderWay(p, w, k) && Undisturbed(env)
    requires Shown(p.foreign, w.foreign, w.home.amb.sent[k], route)
    ensures var m := w.home.amb.sent[k];
            RightOutcome(p.foreign, w.foreign, Transact(p.foreign, w.foreign, ExecuteMessage(m, route, env)), m, env)
  {
    hide Inv, Imbalance, Tracks, Shown, RightOutcome, OnBooks, Expected, Transact, LookUp;
    var m := w.home.amb.sent[k];
    LookUpExactly(View(p.foreign, p.home, w.home), w.foreign, m, route);
    RightlyAddressed(p, w, k);
    BooksAgree(p, w, k, env);
    TransferExecutes(p.foreign, w.foreign, m, route, env);
  }

  /** The light client learns the messages sent so far, and then one of them is executed. */
  function Crossing(p: Setup, w: World, m: Message, slot: nat, env: Env): seq<Event> {
    [ForeignSync(slot, |w.home.amb.sent|), ForeignCall(ExecuteMessage(m, Storage(slot), env))]
  }

  /** So two events are enough, which anybody can bring about. */
  lemma TransferCrosses(p: Setup, events: seq<Event>, k: nat, env: Env) returns (slot: nat)
    requires ValidSetup(p) && UnderWay(p, Play(p, Genesis(), events), k) && Undisturbed(env)
    ensures var w := Play(p, Genesis(), events);
            var m := w.home.amb.sent[k];
            RightOutcome(p.foreign, w.foreign, Play(p, w, Crossing(p, w, m, slot, env)).foreign, m, env)
  {
    hide Play, Ready, UnderWay, RightOutcome, Crossing;
    EveryRunIsReady(p, events);
    slot := ReadyTransferCrosses(p, Play(p, Genesis(), events), k, env);
  }

  lemma ReadyTransferCrosses(p: Setup, w: World, k: nat, env: Env) returns (slot: nat)
    requires Ready(p, w) && UnderWay(p, w, k) && Undisturbed(env)
    ensures var m := w.home.amb.sent[k];
            RightOutcome(p.foreign, w.foreign, Play(p, w, Crossing(p, w, m, slot, env)).foreign, m, env)
  {
    hide Play, Ready, RightOutcome, Transact, Sync;
    var m := w.home.amb.sent[k];
    slot := NewSlot(w.foreign.amb.roots.Keys, {});
    var learned := Next(p, w, ForeignSync(slot, |w.home.amb.sent|));
    NextStaysReady(p, w, ForeignSync(slot, |w.home.amb.sent|));
    SyncShowsAll(p, w, slot, k);
    ShownTransferArrives(p, learned, k, Storage(slot), env);
    var after := Next(p, learned, ForeignCall(ExecuteMessage(m, Storage(slot), env)));
    SameOutcome(p.foreign, learned.foreign, w.foreign, after.foreign, m, env);
    TwoEvents(p, w, Crossing(p, w, m, slot, env)[0], Crossing(p, w, m, slot, env)[1]);
  }

  lemma SyncShowsAll(p: Setup, w: World, slot: nat, k: nat)
    requires Ready(p, w) && k < |w.home.amb.sent| && slot !in w.foreign.amb.roots
    ensures var t := Sync(p.home, w.foreign, w.home.amb.sent, slot, |w.home.amb.sent|);
            && t == w.foreign.(amb := w.foreign.amb.(roots := t.amb.roots))
            && Shown(p.foreign, t, w.home.amb.sent[k], Storage(slot))
  {
    hide Imbalance, Tracks, Linked;
    assert w.home.amb.sent[..|w.home.amb.sent|] == w.home.amb.sent;
  }

  /** The outcome depends on ledger and mediator only. */
  lemma SameOutcome(c: Config, s: State, s': State, t: State, m: Message, env: Env)
    requires s'.ledger == s.ledger && s'.med == s.med && s'.amb.sent == s.amb.sent
    requires m.payload.Tokens? && RightOutcome(c, s, t, m, env)
    ensures RightOutcome(c, s', t, m, env)
  {
    hide HandedOut, RunAll, Passes, OnBooks, Expected;
    SameConditions(c, s, s', m.payload, env);
    if Passes(c, s, m.payload, env) {
      var u: State :|
        && HandedOut(c, s, u, m.payload, env)
        && t == Close(if m.payload.withCall && env.callback.ok then RunAll(c, u, env.callback.actions) else u,
                      c.keccak(m), true);
      SameHandedOut(c, s, s', u, m.payload, env);
    }
  }

  lemma TwoEvents(p: Setup, w: World, a: Event, b: Event)
    ensures Play(p, w, [a, b]) == Next(p, Next(p, w, a), b)
  {
    hide Next;
    assert [a, b][1..] == [b] && [b][1..] == [];
    assert Play(p, w, [a, b]) == Play(p, Next(p, w, a), [b]);
    assert Play(p, Next(p, w, a), [b]) == Play(p, Next(p, Next(p, w, a), b), []);
  }

  // ---------------------------------------------------------------- every message, whatever the environment does

  /**
   * Every message that is shown and has no outcome yet gets one. A receiver other than the mediator is called, with the
   * message's sender as messageSender, and its success is the outcome.
   */
  lemma MessageIsExecuted(p: Setup, events: seq<Event>, k: nat, route: Route, env: Env)
    requires ValidSetup(p) && k < |Play(p, Genesis(), events).home.amb.sent|
    requires var w := Play(p, Genesis(), events);
             var m := w.home.amb.sent[k];
             p.foreign.keccak(m) !in w.foreign.amb.status && Shown(p.foreign, w.foreign, m, route)
    ensures var w := Play(p, Genesis(), events);
            var m := w.home.amb.sent[k];
            var id, found := p.foreign.keccak(m), LookUp(p.foreign, w.foreign, m, route);
            var t := Next(p, w, ForeignCall(ExecuteMessage(m, route, env))).foreign;
            && id in t.amb.status && found.Some?
            && (m.receiver != p.foreign.mediator || m.payload.Call? ==>
                  var started := Open(found.value, id, m.sender);
                  t == if env.enoughGas && env.run.ok then Close(RunAll(p.foreign, started, env.run.actions), id, true)
                       else Close(started, id, false))
  {
    hide Play, Inv, Imbalance, Tracks, Shown, LookUp, Run, Deliver, RunAll;
    EveryRunIsReady(p, events);
    var w := Play(p, Genesis(), events);
    var m := w.home.amb.sent[k];
    LookUpExactly(View(p.foreign, p.home, w.home), w.foreign, m, route);
    ExecuteExactly(p.foreign, w.foreign, m, route, env);
    var started := Open(LookUp(p.foreign, w.foreign, m, route).value, p.foreign.keccak(m), m.sender);
    if m.receiver != p.foreign.mediator || m.payload.Call? {
      ReceiverIsCalled(p.foreign, started, m, env);
    }
  }

  /**
   * So no transfer is lost. Whatever the environment does while it is executed, it was either executed with success, or
   * it is stuck, which is when it can be refunded.
   */
  lemma TransferSettles(p: Setup, events: seq<Event>, k: nat, route: Route, env: Env)
    requires ValidSetup(p) && UnderWay(p, Play(p, Genesis(), events), k)
    requires var w := Play(p, Genesis(), events); Shown(p.foreign, w.foreign, w.home.amb.sent[k], route)
    ensures var w := Play(p, Genesis(), events);
            var id := p.foreign.keccak(w.home.amb.sent[k]);
            var after := Next(p, w, ForeignCall(ExecuteMessage(w.home.amb.sent[k], route, env)));
            id in after.foreign.amb.status && (after.foreign.amb.status[id] || Stuck(p, after, k))
  {
    hide Play, Transact, Shown;
    var w := Play(p, Genesis(), events);
    EveryRunIsReady(p, events);
    MessageIsExecuted(p, events, k, route, env);
    NotRefunded(p, w, k);
  }

  lemma NotRefunded(p: Setup, w: World, k: nat)
    requires Ready(p, w) && UnderWay(p, w, k)
    ensures p.home.keccak == p.foreign.keccak && p.home.keccak(w.home.amb.sent[k]) !in w.home.med.fixed
  {
    hide Imbalance, Own, Tracks, Roots, Delivery, Executed;
    assert Refunded(w.home, w.foreign);
  }

  // ---------------------------------------------------------------- from the deposit to the arrival

  /** relayTokens, or a transfer of a token that calls the mediator back. */
  predicate MakesDeposit(c: Config, s: State, a: Action) {
    a.RelayTokens? || (a.Transfer? && a.to == c.mediator && (a.notify || a.token in s.med.nativeOf))
  }

  /** What the mediator received. */
  function Brought(c: Config, s: State, a: Action): int
    requires MakesDeposit(c, s, a)
  {
    if a.Transfer? then a.value
    else
      var pulled := Pull(c, s, a);
      if pulled == None then 0 else Balance(pulled.value, a.token, c.mediator) - Balance(s, a.token, c.mediator)
  }

  function OrderFor(s: State, a: Action): Order
    requires a.RelayTokens? || a.Transfer?
  {
    OrderOf(s, a.token, a.from, a.receiver, a.withCall, a.env)
  }

  /** The state in which the value has come in, and the deposit begins. */
  lemma DepositBegins(v: View, s: State, a: Action) returns (s1: State)
    requires Inv(v, s) && !s.med.lock && MakesDeposit(v.c, s, a) && Run(v.c, s, a).Some?
    ensures Inv(v, s1) && Grows(s, s1) && s1.med.nativeOf == s.med.nativeOf && Brought(v.c, s, a) >= 0
    ensures Run(v.c, s, a) == Deposit(v.c, s1, a.token, a.from, a.receiver, Brought(v.c, s, a), a.withCall, a.env)
  {
    hide Inv, Run, Deposit, Move, Pull, Step, Locked.FixesAll, Locked.NoDeposit;
    var x := Asset(true, 0);
    if a.RelayTokens? {
      RelayRuns(v.c, s, a);
      s1 := Pull(v.c, s, a).value;
      Locked.PullLocked(v.c, s, a, None);
      CustodyRuns.PullKeeps(v, s, a, x);
      StepInv(v, s, s1, x, 0);
    } else {
      TransferRuns(v.c, s, a);
      s1 := Move(s, a.token, a.from, v.c.mediator, a.value).value;
      OnlyLedger(v.c, s, a.token, a.from, a.value);
      MoveStep(v, s, a.token, a.from, v.c.mediator, a.value, x);
      StepInv(v, s, s1, x, 0);
    }
  }

  /** A deposit makes the log longer. */
  lemma DepositAppends(v: View, s: State, token: Token, from: Address, receiver: Address, value: nat, withCall: bool,
                       env: Env)
    requires Inv(v, s) && Deposit(v.c, s, token, from, receiver, value, withCall, env).Some?
    ensures |Deposit(v.c, s, token, from, receiver, value, withCall, env).value.amb.sent| > |s.amb.sent|
  {
    hide Inv, Step, SendTokens, DepositFee, Carries;
    var x, s0 := Asset(true, 0), Register(s, token);
    CustodyRuns.FlagsStep(v, s, s.med.lock, s.med.registered + {token}, s.med.acked, x);
    StepInv(v, s, s0, x, 0);
    CustodyRuns.DepositFeeKeeps(v, s0, token, env, x);
    var r := DepositFee(v.c, s0, token, env).value;
    StepInv(v, s0, r.0, x, 0);
    SendsOne(v.c, r.0, token !in s.med.nativeOf, token, from, receiver, value - r.1, withCall, env);
  }

  /** After a deposit its message is the last one, on its way, and carries what came in, less the fee. */
  lemma DepositIsUnderWay(p: Setup, w: World, a: Action)
    requires Ready(p, w) && MakesDeposit(p.home, w.home, a) && Run(p.home, w.home, a).Some?
    ensures var t, value := Run(p.home, w.home, a).value, Brought(p.home, w.home, a) - FeeOf(p.home, a.env);
            && value >= 0 && t.amb.sent != [] && UnderWay(p, w.(home := t), |t.amb.sent| - 1)
            && Carries(p.home, t, t.amb.sent[|t.amb.sent| - 1], OrderFor(w.home, a), value)
  {
    hide Inv, Run, Tracks, Deposit, Brought, Imbalance;
    var v := HomeView(p, w);
    var s1 := DepositBegins(v, w.home, a);
    var t := Run(p.home, w.home, a).value;
    DepositSendsLast(p.home, s1, a.token, a.from, a.receiver, Brought(p.home, w.home, a), a.withCall, a.env);
    DepositAppends(v, s1, a.token, a.from, a.receiver, Brought(p.home, w.home, a), a.withCall, a.env);
    CallStaysReady(p, w, a);
    CallKeeps(p, w, a);
    NewInLog(p, w, t, |t.amb.sent| - 1);
  }

  lemma NewInLog(p: Setup, w: World, t: State, k: nat)
    requires Safe(p, w) && Inv(HomeView(p, w), t) && w.home.amb.sent <= t.amb.sent
    requires |w.home.amb.sent| <= k < |t.amb.sent|
    ensures p.foreign.keccak(t.amb.sent[k]) !in w.foreign.amb.status
  {
  }

  /** The deposit, and then the crossing of its message. */
  function DepositAndCrossing(p: Setup, w: World, a: Action, m: Message, slot: nat, env: Env): seq<Event> {
    [HomeCall(a)] + Crossing(p, Next(p, w, HomeCall(a)), m, slot, env)
  }

  /**
   * From end to end. In every reachable state a deposit that goes through is followed by its arrival within two events:
   * its own message carries what came in, less the fee, and is executed with success exactly if it passes.
   */
  lemma DepositArrives(p: Setup, events: seq<Event>, a: Action, env: Env) returns (m: Message, slot: nat)
    requires ValidSetup(p) && MakesDeposit(p.home, Play(p, Genesis(), events).home, a) && Undisturbed(env)
    requires Run(p.home, Play(p, Genesis(), events).home, a).Some?
    ensures var w := Play(p, Genesis(), events);
            var t, value := Run(p.home, w.home, a).value, Brought(p.home, w.home, a) - FeeOf(p.home, a.env);
            && value >= 0 && Carries(p.home, t, m, OrderFor(w.home, a), value)
            && m.payload.Tokens?
            && RightOutcome(p.foreign, w.foreign, Play(p, w, DepositAndCrossing(p, w, a, m, slot, env)).foreign, m, env)
  {
    hide Play, Ready, UnderWay, RightOutcome, Run, Brought, Crossing;
    var w := Play(p, Genesis(), events);
    EveryRunIsReady(p, events);
    DepositIsUnderWay(p, w, a);
    var t := Run(p.home, w.home, a).value;
    m := t.amb.sent[|t.amb.sent| - 1];
    NextStaysReady(p, w, HomeCall(a));
    IsTransferMessage(p, w.(home := t), |t.amb.sent| - 1);
    slot := ReadyTransferCrosses(p, w.(home := t), |t.amb.sent| - 1, env);
    FirstEvent(p, w, HomeCall(a), Crossing(p, w.(home := t), m, slot, env));
  }

  lemma IsTransferMessage(p: Setup, w: World, k: nat)
    requires UnderWay(p, w, k)
    ensures k < |w.home.amb.sent| && w.home.amb.sent[k].payload.Tokens?
  {
  }

  lemma FirstEvent(p: Setup, w: World, e: Event, more: seq<Event>)
    ensures Play(p, w, [e] + more) == Play(p, Next(p, w, e), more)
  {
    hide Next;
    assert ([e] + more)[1..] == more;
  }

  // ---------------------------------------------------------------- the other direction, and what is there to unlock

  /** The same for transfers of the other side. */
  lemma ForeignTransferCrosses(p: Setup, events: seq<Event>, k: nat, env: Env) returns (slot: nat)
    requires ValidSetup(p) && UnderWay(SwapSetup(p), Swap(Play(p, Genesis(), events)), k) && Undisturbed(env)
    ensures var w := Play(p, Genesis(), events);
            var m := w.foreign.amb.sent[k];
            var after := Play(p, w, SwapEvents(Crossing(SwapSetup(p), Swap(w), m, slot, env)));
            RightOutcome(p.home, w.home, after.home, m, env)
  {
    hide Play, RightOutcome, Crossing, SwapEvents;
    var q, w := SwapSetup(p), Play(p, Genesis(), events);
    PlaySwap(p, Genesis(), events);
    slot := TransferCrosses(q, SwapEvents(events), k, env);
    PlaySwap(q, Swap(w), Crossing(q, Swap(w), w.foreign.amb.sent[k], slot, env));
  }

  /** And for its deposits. */
  lemma ForeignDepositArrives(p: Setup, events: seq<Event>, a: Action, env: Env) returns (m: Message, slot: nat)
    requires ValidSetup(p) && MakesDeposit(p.foreign, Play(p, Genesis(), events).foreign, a) && Undisturbed(env)
    requires Run(p.foreign, Play(p, Genesis(), events).foreign, a).Some?
    ensures var w := Play(p, Genesis(), events);
            var t, value := Run(p.foreign, w.foreign, a).value,
                            Brought(p.foreign, w.foreign, a) - FeeOf(p.foreign, a.env);
            var crossing := DepositAndCrossing(SwapSetup(p), Swap(w), a, m, slot, env);
            && value >= 0 && Carries(p.foreign, t, m, OrderFor(w.foreign, a), value) && m.payload.Tokens?
            && RightOutcome(p.home, w.home, Play(p, w, SwapEvents(crossing)).home, m, env)
  {
    hide Play, Run, RightOutcome, Carries, DepositAndCrossing, SwapEvents, Brought;
    var q, w := SwapSetup(p), Play(p, Genesis(), events);
    PlaySwap(p, Genesis(), events);
    m, slot := DepositArrives(q, SwapEvents(events), a, env);
    PlaySwap(q, Swap(w), DepositAndCrossing(q, Swap(w), a, m, slot, env));
  }

  /** What is on its way back has a bridged token where it comes from. */
  lemma BridgedThere(p: Setup, w: World, k: nat)
    requires Ready(p, w) && UnderWay(p, w, k)
    ensures var q := w.home.amb.sent[k].payload; q.toNative ==> q.token in w.home.med.bridgedOf
  {
    hide Imbalance, Linked, Tracks, Numbered, Requested, Once;
    assert RecordedAs(p.home, w.home, w.home.amb.sent[k]);
  }

  /** What a transfer back is to unlock is there, unless the token's own code tampered with the mediator. */
  lemma UnlockIsCovered(p: Setup, events: seq<Event>, k: nat)
    requires ValidSetup(p) && UnderWay(SwapSetup(p), Swap(Play(p, Genesis(), events)), k)
    requires var w := Play(p, Genesis(), events);
             var q := w.foreign.amb.sent[k].payload;
             q.toNative && Solvency.FairEvents(p, events, q.token)
    ensures var w := Play(p, Genesis(), events);
            var q := w.foreign.amb.sent[k].payload;
            Balance(w.home, q.token, p.home.mediator) >= q.value
  {
    hide Play, Ready, UnderWay, Solvency.FairEvents;
    var q, w := SwapSetup(p), Play(p, Genesis(), events);
    EveryRunIsReady(p, events);
    ReadySwap(p, w);
    IsTransferMessage(q, Swap(w), k);
    BooksAgree(q, Swap(w), k, PlainEnv());
    BridgedThere(q, Swap(w), k);
    BridgedIsNative(p, events, w.foreign.amb.sent[k].payload.token);
    Solvency.BooksAreCovered(p, events, w.foreign.amb.sent[k].payload.token);
  }
}
