/** The bridge as a whole: both chains, their calls in any order, and the light clients between them. */
module TwoChains {
  import opened Words
  import opened Chain
  import opened Bridge
  import opened Custody
  import opened CustodySteps
  import opened CustodyRuns

  datatype Setup = Setup(home: Config, foreign: Config)

  ghost predicate ValidSetup(p: Setup) {
    && p.home.keccak == p.foreign.keccak && CollisionFree(p.home.keccak)
    && p.home.mediator == p.foreign.other && p.foreign.mediator == p.home.other
  }

  datatype World = World(home: State, foreign: State)

  /**
   * A transaction on either chain, or the light client of one chain learning a slot of the other. What it learns is
   * the array sentMessages of some state up to now, which is what its first n messages are.
   */
  datatype Event =
    | HomeCall(action: Action)
    | ForeignCall(action: Action)
    | HomeSync(slot: nat, n: nat)
    | ForeignSync(slot: nat, n: nat)

  function Transact(c: Config, s: State, a: Action): State {
    var r := Run(c, s, a);
    if r.Some? then r.value else s
  }

  function Hashes(c: Config, sent: seq<Message>): seq<Digest> {
    seq<Digest>(|sent|, k requires 0 <= k < |sent| => c.keccak(sent[k]))
  }

  /** Slots are never rewritten. */
  function Sync(c: Config, s: State, sent: seq<Message>, slot: nat, n: nat): State {
    if slot in s.amb.roots || n > |sent| then s
    else s.(amb := s.amb.(roots := s.amb.roots[slot := Hashes(c, sent[..n])]))
  }

  function Next(p: Setup, w: World, e: Event): World {
    match e
    case HomeCall(a) => w.(home := Transact(p.home, w.home, a))
    case ForeignCall(a) => w.(foreign := Transact(p.foreign, w.foreign, a))
    case HomeSync(slot, n) => w.(home := Sync(p.foreign, w.home, w.foreign.amb.sent, slot, n))
    case ForeignSync(slot, n) => w.(foreign := Sync(p.home, w.foreign, w.home.amb.sent, slot, n))
  }

  function Play(p: Setup, w: World, events: seq<Event>): World
    decreases |events|
  {
    if events == [] then w else Play(p, Next(p, w, events[0]), events[1..])
  }

  function Genesis(): World {
    World(Blank(), Blank())
  }

  // ---------------------------------------------------------------- safety of every run

  ghost function HomeView(p: Setup, w: World): View {
    View(p.home, p.foreign, w.foreign)
  }

  ghost predicate Safe(p: Setup, w: World) {
    && Inv(HomeView(p, w), w.home)
    && (forall x :: Imbalance(HomeView(p, w), w.home, x) == 0)
    && w.home.amb.messageId == EMPTY_MESSAGE_ID && w.foreign.amb.messageId == EMPTY_MESSAGE_ID
  }

  function Swap(w: World): World {
    World(w.foreign, w.home)
  }

  function SwapSetup(p: Setup): Setup {
    Setup(p.foreign, p.home)
  }

  /** The two chains play symmetric parts. */
  lemma SafeSwap(p: Setup, w: World)
    requires Safe(p, w)
    ensures Safe(SwapSetup(p), Swap(w))
  {
    forall x ensures Imbalance(HomeView(SwapSetup(p), Swap(w)), w.foreign, x) == 0 {
      hide Pending;
      assert Imbalance(HomeView(p, w), w.home, Asset(!x.local, x.token)) == 0;
    }
  }

  /** What no event takes back. */
  ghost predicate Later(w: World, w': World) {
    LaterState(w.home, w'.home) && LaterState(w.foreign, w'.foreign)
  }

  ghost predicate LaterState(s: State, t: State) {
    && s.amb.sent <= t.amb.sent && s.med.fixed <= t.med.fixed
    && (forall slot | slot in s.amb.roots :: slot in t.amb.roots && t.amb.roots[slot] == s.amb.roots[slot])
    && forall id | id in s.amb.status :: id in t.amb.status && t.amb.status[id] == s.amb.status[id]
  }

  lemma CallKeeps(p: Setup, w: World, a: Action)
    requires Safe(p, w)
    ensures Safe(p, w.(home := Transact(p.home, w.home, a))) && LaterState(w.home, Transact(p.home, w.home, a))
  {
    hide Inv, Imbalance, Run;
    if Run(p.home, w.home, a).Some? {
      RunKeeps(HomeView(p, w), w.home, a, Asset(true, 0));
    }
  }

  lemma SyncKeeps(p: Setup, w: World, slot: nat, n: nat)
    requires Safe(p, w)
    ensures Safe(p, w.(home := Sync(p.foreign, w.home, w.foreign.amb.sent, slot, n)))
    ensures LaterState(w.home, Sync(p.foreign, w.home, w.foreign.amb.sent, slot, n))
  {
    var t, v := Sync(p.foreign, w.home, w.foreign.amb.sent, slot, n), HomeView(p, w);
    SyncInv(v, w.home, slot, n);
    forall x ensures Imbalance(v, t, x) == 0 {
      hide Pending;
      assert Imbalance(v, w.home, x) == 0;
    }
  }

  lemma SyncInv(v: View, s: State, slot: nat, n: nat)
    requires Inv(v, s)
    ensures Inv(v, Sync(v.co, s, v.o.amb.sent, slot, n))
  {
    var t := Sync(v.co, s, v.o.amb.sent, slot, n);
    QuietlyRecorded(v.c, s, t);
    assert Linked(v, t) by { assert Linked(v, s); }
    assert Linked(View(v.co, v.c, t), v.o) by { assert Linked(View(v.co, v.c, s), v.o); }
  }

  lemma NextKeeps(p: Setup, w: World, e: Event)
    requires Safe(p, w)
    ensures Safe(p, Next(p, w, e)) && Later(w, Next(p, w, e))
  {
    hide Safe, Transact, Sync;
    match e {
      case HomeCall(a) =>
        CallKeeps(p, w, a);
      case HomeSync(slot, n) =>
        SyncKeeps(p, w, slot, n);
      case ForeignCall(a) =>
        SafeSwap(p, w);
        CallKeeps(SwapSetup(p), Swap(w), a);
        SafeSwap(SwapSetup(p), Swap(Next(p, w, e)));
      case ForeignSync(slot, n) =>
        SafeSwap(p, w);
        SyncKeeps(SwapSetup(p), Swap(w), slot, n);
        SafeSwap(SwapSetup(p), Swap(Next(p, w, e)));
    }
  }

  lemma {:induction false} PlayKeeps(p: Setup, w: World, events: seq<Event>)
    requires Safe(p, w)
    ensures Safe(p, Play(p, w, events)) && Later(w, Play(p, w, events))
    decreases |events|
  {
    hide Safe, Next;
    if events != [] {
      NextKeeps(p, w, events[0]);
      PlayKeeps(p, Next(p, w, events[0]), events[1..]);
    }
  }

  lemma GenesisIsSafe(p: Setup)
    requires ValidSetup(p)
    ensures Safe(p, Genesis())
  {
  }

  /** Every run keeps the invariant and both chains in balance. */
  lemma EveryRunIsSafe(p: Setup, events: seq<Event>)
    requires ValidSetup(p)
    ensures Safe(p, Play(p, Genesis(), events))
  {
    GenesisIsSafe(p);
    PlayKeeps(p, Genesis(), events);
  }

  function SwapEvent(e: Event): Event {
    match e
    case HomeCall(a) => ForeignCall(a)
    case ForeignCall(a) => HomeCall(a)
    case HomeSync(slot, n) => ForeignSync(slot, n)
    case ForeignSync(slot, n) => HomeSync(slot, n)
  }

  function SwapEvents(events: seq<Event>): seq<Event> {
    if events == [] then [] else [SwapEvent(events[0])] + SwapEvents(events[1..])
  }

  /** Whatever holds of one side in every run holds of the other one. */
  lemma {:induction false} PlaySwap(p: Setup, w: World, events: seq<Event>)
    ensures Play(SwapSetup(p), Swap(w), SwapEvents(events)) == Swap(Play(p, w, events))
    decreases |events|
  {
    hide Transact, Sync;
    if events != [] {
      assert Next(SwapSetup(p), Swap(w), SwapEvent(events[0])) == Swap(Next(p, w, events[0]));
      assert SwapEvents(events)[1..] == SwapEvents(events[1..]);
      PlaySwap(p, Next(p, w, events[0]), events[1..]);
    }
  }

  // ---------------------------------------------------------------- what this means

  /**
   * Conservation. What the mediator on the native side holds is what exists of the bridged token, plus what holders
   * burned of it, plus the value of all transfers in either direction that are neither executed nor refunded.
   */
  lemma Conservation(p: Setup, events: seq<Event>, token: Token)
    requires ValidSetup(p)
    ensures var w := Play(p, Genesis(), events);
            && Get(w.home.med.mediatorBalance, token)
               == Issued(w.foreign, token)
                + Pending(p.home, w.home.amb.sent, false, token, w.foreign.amb.status, w.home.med.fixed)
                + Pending(p.foreign, w.foreign.amb.sent, true, token, w.home.amb.status, w.foreign.med.fixed)
            && Get(w.foreign.med.mediatorBalance, token)
               == Issued(w.home, token)
                + Pending(p.foreign, w.foreign.amb.sent, false, token, w.home.amb.status, w.foreign.med.fixed)
                + Pending(p.home, w.home.amb.sent, true, token, w.foreign.amb.status, w.home.med.fixed)
  {
    hide Pending, Issued, Play, Inv;
    EveryRunIsSafe(p, events);
    var w := Play(p, Genesis(), events);
    assert Imbalance(HomeView(p, w), w.home, Asset(true, token)) == 0;
    assert Imbalance(HomeView(p, w), w.home, Asset(false, token)) == 0;
  }

  lemma {:induction false} PendingCovers(c: Config, sent: seq<Message>, k: nat, toNative: bool, token: Token,
                                         status: map<Digest, bool>, fixed: set<Digest>)
    requires k < |sent|
    ensures Pending(c, sent, toNative, token, status, fixed) >= Worth(c, sent[k], toNative, token, status, fixed)
  {
    if k < |sent| - 1 {
      PendingCovers(c, sent[..|sent| - 1], k, toNative, token, status, fixed);
    }
  }

  /** The balance subtraction can never fail: every transfer back that is still open is covered by what is held. */
  lemma TransfersAreCovered(p: Setup, events: seq<Event>, k: nat, token: Token)
    requires ValidSetup(p)
    requires var w := Play(p, Genesis(), events);
             && k < |w.foreign.amb.sent| && IsTransfer(w.foreign.amb.sent[k], p.foreign.mediator, true, token)
             && !Settled(p.foreign.keccak(w.foreign.amb.sent[k]), w.home.amb.status, w.foreign.med.fixed)
    ensures var w := Play(p, Genesis(), events);
            SubtractBalance(w.home, token, w.foreign.amb.sent[k].payload.value).Some?
  {
    hide Pending, Issued, Play;
    var w := Play(p, Genesis(), events);
    Conservation(p, events, token);
    PendingCovers(p.foreign, w.foreign.amb.sent, k, true, token, w.home.amb.status, w.foreign.med.fixed);
  }

  /** The receivers that were called are those of the executed messages, each of them once. */
  ghost predicate EachDeliveredOnce(s: State) {
    && (forall i, j | 0 <= i < j < |s.amb.delivered| :: s.amb.delivered[i] != s.amb.delivered[j])
    && (forall id :: id in s.amb.delivered <==> id in s.amb.status)
  }

  lemma AtMostOnceDelivery(p: Setup, events: seq<Event>)
    requires ValidSetup(p)
    ensures var w := Play(p, Genesis(), events); EachDeliveredOnce(w.home) && EachDeliveredOnce(w.foreign)
  {
    hide Play;
    EveryRunIsSafe(p, events);
    var w := Play(p, Genesis(), events);
    assert Once(w.home) && Once(w.foreign);
  }

  /** Every message executed here was sent there, whatever root or log proved it. */
  ghost predicate AllSent(s: State, co: Config, o: State) {
    forall id | id in s.amb.status :: exists k :: 0 <= k < |o.amb.sent| && co.keccak(o.amb.sent[k]) == id
  }

  lemma ExecutedImpliesSent(p: Setup, events: seq<Event>)
    requires ValidSetup(p)
    ensures var w := Play(p, Genesis(), events);
            AllSent(w.home, p.foreign, w.foreign) && AllSent(w.foreign, p.home, w.home)
  {
    hide Play;
    EveryRunIsSafe(p, events);
    var w := Play(p, Genesis(), events);
    assert forall id | id in w.home.amb.status :: SentBy(p.foreign, w.foreign, id) by {
      assert Executed(HomeView(p, w), w.home);
    }
    assert forall id | id in w.foreign.amb.status :: SentBy(p.home, w.home, id) by {
      assert Executed(View(p.foreign, p.home, w.home), w.foreign);
    }
  }

  /**
   * A refund is final: a refunded message failed on the other side, no later event executes it, and no later call
   * refunds it again, however often that is requested.
   */
  lemma RefundExcludesExecution(p: Setup, events: seq<Event>, more: seq<Event>, id: Digest, env: Env)
    requires ValidSetup(p) && id in Play(p, Genesis(), events).home.med.fixed
    ensures var w := Play(p, Play(p, Genesis(), events), more);
            Failed(w.foreign.amb.status, id) && FixFailedMessage(p.home, w.home, id, env) == None
  {
    hide Play, Later;
    EveryRunIsSafe(p, events);
    var w := Play(p, Genesis(), events);
    assert Refunded(w.home, w.foreign);
    PlayKeeps(p, w, more);
    LaterRefunds(w, Play(p, w, more), id);
  }

  lemma LaterRefunds(w: World, w': World, id: Digest)
    requires Later(w, w') && id in w.home.med.fixed && Failed(w.foreign.amb.status, id)
    ensures id in w'.home.med.fixed && Failed(w'.foreign.amb.status, id)
  {
  }

  /** An outcome, once recorded, stays, and its message can not be executed again. */
  lemma OutcomesAreTerminal(p: Setup, events: seq<Event>, more: seq<Event>, m: Message, route: Route, env: Env)
    requires ValidSetup(p) && p.home.keccak(m) in Play(p, Genesis(), events).home.amb.status
    ensures var before, after := Play(p, Genesis(), events), Play(p, Play(p, Genesis(), events), more);
            && p.home.keccak(m) in after.home.amb.status
            && after.home.amb.status[p.home.keccak(m)] == before.home.amb.status[p.home.keccak(m)]
            && Execute(p.home, after.home, m, route, env) == None
  {
    hide Play;
    EveryRunIsSafe(p, events);
    PlayKeeps(p, Play(p, Genesis(), events), more);
  }

  /**
   * Reentrancy. Whatever unmodelled code does while a message is being delivered, the delivery stays the same one,
   * messageSender stays the sender of that message on the other chain, and no other message can be delivered.
   */
  lemma DeliveriesDoNotNest(v: View, s: State, actions: Actions, m: Message, route: Route, env: Env)
    requires Inv(v, s) && s.amb.messageId != EMPTY_MESSAGE_ID
    ensures var t := RunAll(v.c, s, actions);
            && t.amb.messageId == s.amb.messageId
            && (exists k :: 0 <= k < |v.o.amb.sent| && v.c.keccak(v.o.amb.sent[k]) == t.amb.messageId
                            && v.o.amb.sent[k].sender == t.amb.messageSender)
            && Execute(v.c, t, m, route, env) == None
  {
    hide RunAll, Deliver, Own, Imbalance;
    RunAllKeeps(v, s, actions, Asset(true, 0));
    var t := RunAll(v.c, s, actions);
    assert Delivery(v, t);
    if LookUp(v.c, t, m, route).Some? {
      LookUpKeeps(v.c, t, m, route);
    }
  }
}
