/** A transfer that failed on the other side can always be refunded: three transactions are enough. */
module Recovery {
  import opened Words
  import opened Chain
  import opened Bridge
  import opened Custody
  import opened CustodySteps
  import opened TwoChains
  import opened Deposits
  import opened Arrivals
  import opened Solvency

  /** Message k of the home chain is a transfer that was executed without success and has not been refunded. */
  ghost predicate Stuck(p: Setup, w: World, k: nat) {
    k < |w.home.amb.sent| && IsTokens(p.home, w.home.amb.sent[k]) &&
    var id := p.home.keccak(w.home.amb.sent[k]);
    Failed(w.foreign.amb.status, id) && id !in w.home.med.fixed
  }

  /** The mediator's holdings cover the refund and nothing overflows, or the refund can be minted. */
  predicate Payable(c: Config, s: State, op: Operation) {
    if op.token !in s.med.nativeOf then Move(s, op.token, c.mediator, op.recipient, op.value).Some?
    else Mint(s, op.token, op.recipient, op.value).Some?
  }

  /** From s to t the recorded account got the recorded value, without a fee. */
  ghost predicate PaidBack(c: Config, s: State, t: State, op: Operation) {
    var isNative := op.token !in s.med.nativeOf;
    Paid(c, s, t, isNative, op.token, op.recipient, op.value, 0)
  }

  /** The request that the other mediator passes for a failed message. */
  function Request(c: Config, s: State, id: Digest, gas: nat): Message {
    Message(|s.amb.sent|, c.mediator, c.other, gas, FixFailed(id))
  }

  /** Ask for the refund there, learn that it was asked for, and execute it here. */
  function RecoveryOf(p: Setup, w: World, m: Message, gas: nat, slot: nat): seq<Event> {
    [ForeignCall(RequestFix(m, gas)), HomeSync(slot, |w.foreign.amb.sent| + 1),
     HomeCall(ExecuteMessage(Request(p.foreign, w.foreign, p.home.keccak(m), gas), Storage(slot), PlainEnv()))]
  }

  // ---------------------------------------------------------------- the three steps

  lemma RequestPasses(c: Config, s: State, m: Message, gas: nat)
    requires gas <= c.maxGasPerTx && Failed(s.amb.status, c.keccak(m))
    requires m.receiver == c.mediator && m.sender == c.other
    ensures Transact(c, s, RequestFix(m, gas)) == Appended(s, Request(c, s, c.keccak(m), gas))
  {
  }

  lemma SyncShows(c: Config, s: State, sent: seq<Message>, slot: nat)
    requires sent != [] && slot !in s.amb.roots
    ensures var t := Sync(c, s, sent, slot, |sent|);
            && t == s.(amb := s.amb.(roots := t.amb.roots)) && slot in t.amb.roots
            && Bridge.Holds(t.amb.roots[slot], |sent| - 1, c.keccak(sent[|sent| - 1]))
  {
    assert sent[..|sent|] == sent;
  }

  /** The execution of the request refunds. */
  lemma RequestRefunds(c: Config, s: State, m: Message, slot: nat)
    requires m.sender == c.other && m.receiver == c.mediator && m.payload.FixFailed? && c.keccak(m) !in s.amb.status
    requires s.amb.messageId == EMPTY_MESSAGE_ID && m.payload.id in s.med.ops && m.payload.id !in s.med.fixed
    requires slot in s.amb.roots && slot !in s.amb.storageRoot && Bridge.Holds(s.amb.roots[slot], m.nonce, c.keccak(m))
    requires var op := s.med.ops[m.payload.id];
             Payable(c, s, op) && (op.token !in s.med.nativeOf ==> SubtractBalance(s, op.token, op.value).Some?)
    ensures var t := Transact(c, s, ExecuteMessage(m, Storage(slot), PlainEnv()));
            m.payload.id in t.med.fixed && PaidBack(c, s, t, s.med.ops[m.payload.id])
  {
    hide Deliver, Paid, FixFailedMessage;
    var id, env := c.keccak(m), PlainEnv();
    var s1 := LookUp(c, s, m, Storage(slot)).value;
    var started := Open(s1, id, m.sender);
    RefundGoesThrough(c, started, m.payload.id);
    DeliverRefunds(c, started, m, env);
    RefundPays(c, started, m.payload.id, env);
    var r := FixFailedMessage(c, started, m.payload.id, env).value;
    ExecutesTo(c, s, m, Storage(slot), env, r);
    SamePayment(c, s, started, r, Close(r, id, true), s.med.ops[m.payload.id]);
  }

  lemma RefundGoesThrough(c: Config, s: State, id: Digest)
    requires id in s.med.ops && id !in s.med.fixed && Payable(c, s, s.med.ops[id])
    requires s.med.ops[id].token !in s.med.nativeOf ==>
               SubtractBalance(s, s.med.ops[id].token, s.med.ops[id].value).Some?
    ensures FixFailedMessage(c, s, id, PlainEnv()).Some?
  {
    hide Invoke;
    var op, s0 := s.med.ops[id], MarkFixed(s, id);
    if op.token !in s.med.nativeOf {
      var s1 := if c.home then s0 else SubtractBalance(s0, op.token, op.value).value;
      SilentCall(c, Move(s1, op.token, c.mediator, op.recipient, op.value).value, NoHook());
    }
  }

  lemma DeliverRefunds(c: Config, s: State, m: Message, env: Env)
    requires m.receiver == c.mediator && m.payload.FixFailed? && s.amb.messageSender == c.other && env.enoughGas
    ensures Deliver(c, s, m, env) == FixFailedMessage(c, s, m.payload.id, env)
  {
    hide FixFailedMessage;
  }

  /** A delivery that goes through is the execution. */
  lemma ExecutesTo(c: Config, s: State, m: Message, route: Route, env: Env, r: State)
    requires c.keccak(m) !in s.amb.status && s.amb.messageId == EMPTY_MESSAGE_ID && LookUp(c, s, m, route).Some?
    requires Deliver(c, Open(LookUp(c, s, m, route).value, c.keccak(m), m.sender), m, env) == Some(r)
    ensures Transact(c, s, ExecuteMessage(m, route, env)) == Close(r, c.keccak(m), true)
  {
    hide Deliver;
    var s1 := LookUp(c, s, m, route).value;
    assert s1 == s.(amb := s.amb.(storageRoot := s1.amb.storageRoot));
    assert Run(c, s, ExecuteMessage(m, route, env)) == Execute(c, s, m, route, env);
  }

  lemma SamePayment(c: Config, s: State, started: State, r: State, t: State, op: Operation)
    requires started.med == s.med && started.ledger == s.ledger && t.med == r.med && t.ledger == r.ledger
    requires PaidBack(c, started, r, op)
    ensures PaidBack(c, s, t, op)
  {
  }

  // ---------------------------------------------------------------- every stuck transfer

  lemma {:induction false} FreshSlot(used: set<nat>) returns (slot: nat)
    ensures forall x | x in used :: x < slot
    decreases |used|
  {
    if used == {} {
      slot := 0;
    } else {
      var x :| x in used;
      var rest := used - {x};
      slot := FreshSlot(rest);
      if slot <= x {
        slot := x + 1;
      }
      assert used == rest + {x};
    }
  }

  lemma NewSlot(a: set<nat>, b: set<nat>) returns (slot: nat)
    ensures slot !in a && slot !in b
  {
    var i := FreshSlot(a);
    var j := FreshSlot(b);
    slot := if i < j then j else i;
  }

  /** The operation recorded for a stuck transfer, and that the books still contain its value. */
  lemma StuckIsRecorded(p: Setup, w: World, k: nat)
    requires Safe(p, w) && Stuck(p, w, k)
    ensures var m := w.home.amb.sent[k];
            var id := p.home.keccak(m);
            && m.receiver == p.foreign.mediator && m.sender == p.foreign.other && id in w.home.med.ops
            && (w.home.med.ops[id].token !in w.home.med.nativeOf ==>
                  SubtractBalance(w.home, w.home.med.ops[id].token, w.home.med.ops[id].value).Some?)
  {
    hide Pending, Issued, Registry, Linked, Numbered, Requested, Once;
    var m := w.home.amb.sent[k];
    assert RecordedAs(p.home, w.home, m);
    var op := w.home.med.ops[p.home.keccak(m)];
    if op.token !in w.home.med.nativeOf {
      assert Imbalance(HomeView(p, w), w.home, Asset(true, op.token)) == 0;
      PendingCovers(p.home, w.home.amb.sent, k, false, op.token, w.foreign.amb.status, w.home.med.fixed);
    }
  }

  lemma ThreeEvents(p: Setup, w: World, a: Event, b: Event, c: Event)
    ensures Play(p, w, [a, b, c]) == Next(p, Next(p, Next(p, w, a), b), c)
  {
    hide Next;
    assert [a, b, c][1..] == [b, c] && [b, c][1..] == [c] && [c][1..] == [];
    assert Play(p, w, [a, b, c]) == Play(p, Next(p, w, a), [b, c]);
    assert Play(p, Next(p, w, a), [b, c]) == Play(p, Next(p, Next(p, w, a), b), [c]);
    assert Play(p, Next(p, Next(p, Next(p, w, a), b), c), []) == Next(p, Next(p, Next(p, w, a), b), c);
  }

  /**
   * Recovery. In every reachable state, every stuck transfer whose refund can be paid is refunded by three events that
   * anybody can bring about, and the recorded account gets the recorded value.
   */
  lemma StuckTransferIsRefunded(p: Setup, events: seq<Event>, k: nat, gas: nat) returns (slot: nat)
    requires ValidSetup(p) && Stuck(p, Play(p, Genesis(), events), k) && gas <= p.foreign.maxGasPerTx
    requires var s := Play(p, Genesis(), events).home;
             p.home.keccak(s.amb.sent[k]) in s.med.ops ==> Payable(p.home, s, s.med.ops[p.home.keccak(s.amb.sent[k])])
    ensures var w := Play(p, Genesis(), events);
            var after := Play(p, w, RecoveryOf(p, w, w.home.amb.sent[k], gas, slot));
            var id := p.home.keccak(w.home.amb.sent[k]);
            && id in w.home.med.ops && id in after.home.med.fixed
            && PaidBack(p.home, w.home, after.home, w.home.med.ops[id])
  {
    hide Play, Safe, Stuck, PaidBack, Payable;
    var w := Play(p, Genesis(), events);
    EveryRunIsSafe(p, events);
    StuckIsRecorded(p, w, k);
    slot := Refund(p, w, k, gas);
  }

  lemma Refund(p: Setup, w: World, k: nat, gas: nat) returns (slot: nat)
    requires ValidSetup(p) && Safe(p, w) && Stuck(p, w, k) && gas <= p.foreign.maxGasPerTx
    requires var id := p.home.keccak(w.home.amb.sent[k]);
             id in w.home.med.ops && Payable(p.home, w.home, w.home.med.ops[id])
    ensures var after := Play(p, w, RecoveryOf(p, w, w.home.amb.sent[k], gas, slot));
            var id := p.home.keccak(w.home.amb.sent[k]);
            id in after.home.med.fixed && PaidBack(p.home, w.home, after.home, w.home.med.ops[id])
  {
    hide Play, Transact, Sync, PaidBack, Inv, Imbalance, SubtractBalance, Payable;
    var m := w.home.amb.sent[k];
    var id := p.home.keccak(m);
    slot := NewSlot(w.home.amb.roots.Keys, w.home.amb.storageRoot.Keys);
    var request := Request(p.foreign, w.foreign, id, gas);
    var more := RecoveryOf(p, w, m, gas, slot);
    StuckIsRecorded(p, w, k);
    RequestPasses(p.foreign, w.foreign, m, gas);
    NotExecuted(p, w, request);
    var sent := w.foreign.amb.sent + [request];
    SyncShows(p.foreign, w.home, sent, slot);
    var t := Sync(p.foreign, w.home, sent, slot, |sent|);
    StillPayable(p.home, w.home, t, w.home.med.ops[id]);
    RequestRefunds(p.home, t, request, slot);
    SamePayment(p.home, w.home, t, Transact(p.home, t, ExecuteMessage(request, Storage(slot), PlainEnv())),
                Transact(p.home, t, ExecuteMessage(request, Storage(slot), PlainEnv())), w.home.med.ops[id]);
    ThreeEvents(p, w, more[0], more[1], more[2]);
  }

  /** The request is a new message, so it has no outcome yet. */
  lemma NotExecuted(p: Setup, w: World, request: Message)
    requires Safe(p, w) && request.nonce == |w.foreign.amb.sent|
    ensures p.home.keccak(request) !in w.home.amb.status
  {
    hide Imbalance;
    NewMessage(View(p.foreign, p.home, w.home), w.foreign, request);
  }

  lemma StillPayable(c: Config, s: State, t: State, op: Operation)
    requires t == s.(amb := t.amb) && Payable(c, s, op)
    ensures Payable(c, t, op)
    ensures SubtractBalance(s, op.token, op.value).Some? ==> SubtractBalance(t, op.token, op.value).Some?
  {
  }

  /** The same for transfers of the other side. */
  lemma ForeignTransferIsRefunded(p: Setup, events: seq<Event>, k: nat, gas: nat) returns (slot: nat)
    requires ValidSetup(p) && Stuck(SwapSetup(p), Swap(Play(p, Genesis(), events)), k) && gas <= p.home.maxGasPerTx
    requires var s := Play(p, Genesis(), events).foreign;
             var id := p.foreign.keccak(s.amb.sent[k]);
             id in s.med.ops ==> Payable(p.foreign, s, s.med.ops[id])
    ensures var w := Play(p, Genesis(), events);
            var more := RecoveryOf(SwapSetup(p), Swap(w), w.foreign.amb.sent[k], gas, slot);
            var after := Play(p, w, SwapEvents(more));
            var id := p.foreign.keccak(w.foreign.amb.sent[k]);
            && id in w.foreign.med.ops && id in after.foreign.med.fixed
            && PaidBack(p.foreign, w.foreign, after.foreign, w.foreign.med.ops[id])
  {
    hide Play, PaidBack, Payable, RecoveryOf, SwapEvents;
    var q, w := SwapSetup(p), Play(p, Genesis(), events);
    PlaySwap(p, Genesis(), events);
    slot := StuckTransferIsRefunded(q, SwapEvents(events), k, gas);
    PlaySwap(q, Swap(w), RecoveryOf(q, Swap(w), w.foreign.amb.sent[k], gas, slot));
  }

  /** What the books contain is there to be paid, so only a bad account or an overflow stands in the way of a refund. */
  lemma FairRefundIsPayable(p: Setup, events: seq<Event>, k: nat)
    requires ValidSetup(p) && Stuck(p, Play(p, Genesis(), events), k)
    requires var s := Play(p, Genesis(), events).home;
             var id := p.home.keccak(s.amb.sent[k]);
             id in s.med.ops ==>
               var op := s.med.ops[id];
               && op.token !in s.med.nativeOf && FairEvents(p, events, op.token)
               && op.recipient != 0 && Balance(s, op.token, op.recipient) + op.value < TWO_256
    ensures var s := Play(p, Genesis(), events).home;
            var id := p.home.keccak(s.amb.sent[k]);
            id in s.med.ops && Payable(p.home, s, s.med.ops[id])
  {
    hide Play, Safe, FairEvents;
    var w := Play(p, Genesis(), events);
    EveryRunIsSafe(p, events);
    StuckIsRecorded(p, w, k);
    BooksAreCovered(p, events, w.home.med.ops[p.home.keccak(w.home.amb.sent[k])].token);
  }
}
