/** Each single change of storage keeps the invariant and shifts the imbalance of at most one asset. */
module CustodySteps {
  import opened Chain
  import opened Bridge
  import opened Custody

  // ---------------------------------------------------------------- sums over the log

  lemma PendingSnoc(c: Config, sent: seq<Message>, m: Message, toNative: bool, token: Token,
                    status: map<Digest, bool>, fixed: set<Digest>)
    ensures Pending(c, sent + [m], toNative, token, status, fixed)
         == Pending(c, sent, toNative, token, status, fixed) + Worth(c, m, toNative, token, status, fixed)
  {
    assert (sent + [m])[..|sent|] == sent;
  }

  /** Both records tell the same about all messages of a log. */
  ghost predicate SameSettled(c: Config, sent: seq<Message>, status: map<Digest, bool>, fixed: set<Digest>,
                              status': map<Digest, bool>, fixed': set<Digest>) {
    forall k | 0 <= k < |sent| ::
        Settled(c.keccak(sent[k]), status, fixed) == Settled(c.keccak(sent[k]), status', fixed')
  }

  lemma {:induction false} PendingFrame(c: Config, sent: seq<Message>, toNative: bool, token: Token,
                                        status: map<Digest, bool>, fixed: set<Digest>, status': map<Digest, bool>,
                                        fixed': set<Digest>)
    requires SameSettled(c, sent, status, fixed, status', fixed')
    ensures Pending(c, sent, toNative, token, status', fixed') == Pending(c, sent, toNative, token, status, fixed)
  {
    if sent != [] {
      var init := sent[..|sent| - 1];
      forall k | 0 <= k < |init|
        ensures Settled(c.keccak(init[k]), status, fixed) == Settled(c.keccak(init[k]), status', fixed')
      {
        assert init[k] == sent[k];
      }
      PendingFrame(c, init, toNative, token, status, fixed, status', fixed');
      assert Settled(c.keccak(sent[|sent| - 1]), status, fixed) == Settled(c.keccak(sent[|sent| - 1]), status', fixed');
    }
  }

  ghost function Amount(c: Config, m: Message, toNative: bool, token: Token): nat {
    if IsTransfer(m, c.mediator, toNative, token) then m.payload.value else 0
  }

  /** When message k of the log, and no other, gets settled, the sum drops by its value. */
  lemma {:induction false} PendingSettle(c: Config, sent: seq<Message>, k: nat, toNative: bool, token: Token,
                                         status: map<Digest, bool>, fixed: set<Digest>, status': map<Digest, bool>,
                                         fixed': set<Digest>)
    requires k < |sent| && Numbered(sent) && CollisionFree(c.keccak)
    requires !Settled(c.keccak(sent[k]), status, fixed) && Settled(c.keccak(sent[k]), status', fixed')
    requires forall id | id != c.keccak(sent[k]) :: Settled(id, status, fixed) == Settled(id, status', fixed')
    ensures Pending(c, sent, toNative, token, status', fixed')
         == Pending(c, sent, toNative, token, status, fixed) - Amount(c, sent[k], toNative, token)
  {
    var n := |sent| - 1;
    var init := sent[..n];
    assert forall j | 0 <= j < |init| :: init[j] == sent[j];
    if k < n {
      assert sent[n].nonce == n && sent[k].nonce == k;
      assert init[k] == sent[k];
      PendingSettle(c, init, k, toNative, token, status, fixed, status', fixed');
    } else {
      forall j | 0 <= j < |init|
        ensures Settled(c.keccak(init[j]), status, fixed) == Settled(c.keccak(init[j]), status', fixed')
      {
        assert init[j].nonce == j && sent[n].nonce == n;
      }
      PendingFrame(c, init, toNative, token, status, fixed, status', fixed');
    }
  }

  // ---------------------------------------------------------------- changes of tokens and registry

  /** Only balances, flags and the growing registry differ. */
  ghost predicate Quiet(s: State, t: State) {
    && t.amb == s.amb && t.med.ops == s.med.ops && t.med.fixed == s.med.fixed
    && Registry(t) && Grows(s, t)
  }

  lemma QuietInv(v: View, s: State, t: State)
    requires Inv(v, s) && Quiet(s, t)
    ensures Inv(v, t)
  {
    QuietRecorded(v.c, s, t);
    var w, w' := View(v.co, v.c, s), View(v.co, v.c, t);
    assert Linked(w', v.o) by {
      assert Linked(w, v.o);
    }
  }

  lemma QuietRecorded(c: Config, s: State, t: State)
    requires Recorded(c, s) && Quiet(s, t)
    ensures Recorded(c, t)
  {
    forall k | 0 <= k < |t.amb.sent| && IsTokens(c, t.amb.sent[k]) ensures RecordedAs(c, t, t.amb.sent[k]) {
      assert RecordedAs(c, s, s.amb.sent[k]);
    }
  }

  lemma QuietStep(v: View, s: State, t: State, x: Asset, d: int)
    requires Inv(v, s) && Quiet(s, t)
    requires forall y :: Kept(t, y) == Kept(s, y) - (if y == x then d else 0)
    ensures Step(v, s, t, x, d)
  {
    QuietInv(v, s, t);
    hide Inv, Quiet, Kept, Pending;
    forall y ensures Imbalance(v, t, y) == Imbalance(v, s, y) - (if y == x then d else 0) {
      QuietImbalance(v, s, t, y);
    }
    assert Grows(s, t) && t.amb == s.amb by { QuietIsQuiet(s, t); }
  }

  lemma QuietIsQuiet(s: State, t: State)
    requires Quiet(s, t)
    ensures Grows(s, t) && t.amb == s.amb && t.med.fixed == s.med.fixed
  {
  }

  lemma QuietImbalance(v: View, s: State, t: State, y: Asset)
    requires Quiet(s, t)
    ensures Imbalance(v, t, y) - Imbalance(v, s, y) == Kept(t, y) - Kept(s, y)
  {
    hide Kept, Pending;
  }

  lemma SameKept(v: View, s: State, t: State, x: Asset)
    requires Inv(v, s) && Quiet(s, t)
    requires t.med.mediatorBalance == s.med.mediatorBalance && t.med.bridgedOf == s.med.bridgedOf
    requires t.ledger.supply == s.ledger.supply && t.ledger.burned == s.ledger.burned
    ensures Step(v, s, t, x, 0)
  {
    QuietStep(v, s, t, x, 0);
  }

  lemma StepInv(v: View, s: State, t: State, x: Asset, d: int)
    requires Step(v, s, t, x, d)
    ensures Inv(v, t) && Grows(s, t)
    ensures t.amb.messageId == s.amb.messageId && t.amb.messageSender == s.amb.messageSender
  {
  }

  lemma InvRegistry(v: View, s: State)
    requires Inv(v, s)
    ensures Registry(s)
  {
  }

  lemma BalanceStep(v: View, s: State, token: Token, holder: Address, balance: nat, x: Asset)
    requires Inv(v, s)
    ensures Step(v, s, WithBalance(s, token, holder, balance), x, 0)
  {
    hide Inv;
    InvRegistry(v, s);
    SameKept(v, s, WithBalance(s, token, holder, balance), x);
  }

  lemma MoveStep(v: View, s: State, token: Token, from: Address, to: Address, value: nat, x: Asset)
    requires Inv(v, s) && Move(s, token, from, to, value).Some?
    ensures Step(v, s, Move(s, token, from, to, value).value, x, 0)
  {
    hide Inv, Step;
    var b := Balance(s, token, from) - value;
    BalanceStep(v, s, token, from, b, x);
    var s1 := WithBalance(s, token, from, b);
    assert Inv(v, s1) by { StepInv(v, s, s1, x, 0); }
    BalanceStep(v, s1, token, to, Balance(s1, token, to) + value, x);
    StepTrans(v, s, s1, WithBalance(s1, token, to, Balance(s1, token, to) + value), x, 0, 0);
  }

  lemma FlagStep(v: View, s: State, t: State, x: Asset)
    requires Inv(v, s)
    requires exists lock, registered, acked ::
               && registered >= s.med.registered
               && t == s.(med := s.med.(lock := lock, registered := registered, acked := acked))
    ensures Step(v, s, t, x, 0)
  {
    hide Inv;
    InvRegistry(v, s);
    SameKept(v, s, t, x);
  }

  /** A bridged token and the asset it stands for. */
  ghost predicate Stands(s: State, token: Token, x: Asset) {
    token in s.med.nativeOf && x == Asset(false, s.med.nativeOf[token])
  }

  /** A change of the supply or the burned amount of one bridged token, and of balances. */
  ghost predicate IssuedOnly(s: State, t: State, token: Token) {
    && t == s.(ledger := t.ledger)
    && t.ledger.supply.Keys <= s.ledger.supply.Keys + {token}
    && t.ledger.burned.Keys <= s.ledger.burned.Keys + {token}
    && (forall b: Token | b != token :: Get(t.ledger.supply, b) == Get(s.ledger.supply, b))
    && (forall b: Token | b != token :: Get(t.ledger.burned, b) == Get(s.ledger.burned, b))
  }

  lemma IssuedStep(v: View, s: State, t: State, token: Token, x: Asset)
    requires Inv(v, s) && Stands(s, token, x) && IssuedOnly(s, t, token)
    ensures Step(v, s, t, x, Outstanding(t, token) - Outstanding(s, token))
  {
    hide Inv, Quiet, Kept, Registry, IssuedOnly;
    InvRegistry(v, s);
    IssuedQuietly(s, t, token);
    IssuedKept(s, t, token, x);
    QuietStep(v, s, t, x, Outstanding(t, token) - Outstanding(s, token));
  }

  lemma IssuedQuietly(s: State, t: State, token: Token)
    requires Registry(s) && token in s.med.nativeOf && IssuedOnly(s, t, token)
    ensures Quiet(s, t)
  {
  }

  lemma IssuedKept(s: State, t: State, token: Token, x: Asset)
    requires Registry(s) && Stands(s, token, x) && IssuedOnly(s, t, token)
    ensures forall y :: Kept(t, y) == Kept(s, y) - (if y == x then Outstanding(t, token) - Outstanding(s, token) else 0)
  {
  }

  ghost function Outstanding(s: State, token: Token): nat {
    Get(s.ledger.supply, token) + Get(s.ledger.burned, token)
  }

  lemma MintStep(v: View, s: State, token: Token, to: Address, value: nat, x: Asset)
    requires Inv(v, s) && Stands(s, token, x) && Mint(s, token, to, value).Some?
    ensures Step(v, s, Mint(s, token, to, value).value, x, value)
  {
    hide Inv, Step;
    IssuedStep(v, s, Mint(s, token, to, value).value, token, x);
  }

  lemma BurnStep(v: View, s: State, token: Token, holder: Address, value: nat, x: Asset)
    requires Inv(v, s) && Stands(s, token, x) && BurnFrom(s, token, holder, value).Some?
    ensures Step(v, s, BurnFrom(s, token, holder, value).value, x, -(value as int))
  {
    hide Inv, Step;
    IssuedStep(v, s, BurnFrom(s, token, holder, value).value, token, x);
  }

  lemma HolderBurnStep(v: View, s: State, token: Token, holder: Address, value: nat, x: Asset)
    requires Inv(v, s) && token in s.med.nativeOf && HolderBurn(s, token, holder, value).Some?
    ensures Step(v, s, HolderBurn(s, token, holder, value).value, x, 0)
  {
    hide Inv, Step;
    var t, y := HolderBurn(s, token, holder, value).value, Asset(false, s.med.nativeOf[token]);
    IssuedStep(v, s, t, token, y);
    StepAny(v, s, t, y, x);
  }

  /** A change of the mediator's balance of one token. */
  lemma HeldStep(v: View, s: State, token: Token, balance: nat)
    requires Inv(v, s)
    ensures Step(v, s, s.(med := s.med.(mediatorBalance := s.med.mediatorBalance[token := balance])),
                 Asset(true, token), Get(s.med.mediatorBalance, token) - balance)
  {
    hide Inv;
    InvRegistry(v, s);
    QuietStep(v, s, s.(med := s.med.(mediatorBalance := s.med.mediatorBalance[token := balance])), Asset(true, token),
              Get(s.med.mediatorBalance, token) - balance);
  }

  /** The asset behind a token of this chain. */
  ghost function Behind(s: State, token: Token): Asset {
    if token in s.med.nativeOf then Asset(false, s.med.nativeOf[token]) else Asset(true, token)
  }

  lemma PrepareStep(v: View, s: State, isNative: bool, token: Token, receiver: Address, value: nat, withCall: bool,
                    hasName: bool)
    requires Inv(v, s) && isNative == (token !in s.med.nativeOf)
    requires PrepareMessage(v.c, s, isNative, token, receiver, value, withCall, hasName).Some?
    ensures Step(v, s, PrepareMessage(v.c, s, isNative, token, receiver, value, withCall, hasName).value.0,
                 Behind(s, token), -(value as int))
  {
    hide Inv, Step;
    if isNative {
      HeldStep(v, s, token, Get(s.med.mediatorBalance, token) + value);
    } else {
      BurnStep(v, s, token, v.c.mediator, value, Behind(s, token));
    }
  }

  lemma SubtractStep(v: View, s: State, token: Token, value: nat)
    requires Inv(v, s) && SubtractBalance(s, token, value).Some?
    ensures Step(v, s, SubtractBalance(s, token, value).value, Asset(true, token), value)
  {
    hide Inv, Step;
    HeldStep(v, s, token, Get(s.med.mediatorBalance, token) - value);
  }

  /** A new bridged token stands for a token that nothing was issued for. */
  lemma DeployStep(v: View, s: State, token: Token, hasName: bool, created: Token, x: Asset)
    requires Inv(v, s) && GetBridgedTokenOrDeploy(s, token, hasName, created).Some?
    ensures var r := GetBridgedTokenOrDeploy(s, token, hasName, created).value;
            Step(v, s, r.0, x, 0) && Stands(r.0, r.1, Asset(false, token))
  {
    hide Inv, Quiet, Kept, Registry, GetBridgedTokenOrDeploy;
    InvRegistry(v, s);
    DeployedQuietly(s, token, hasName, created);
    NothingIssued(s, token, hasName, created);
    QuietStep(v, s, GetBridgedTokenOrDeploy(s, token, hasName, created).value.0, x, 0);
  }

  lemma DeployedQuietly(s: State, token: Token, hasName: bool, created: Token)
    requires Registry(s) && GetBridgedTokenOrDeploy(s, token, hasName, created).Some?
    ensures var r := GetBridgedTokenOrDeploy(s, token, hasName, created).value;
            Quiet(s, r.0) && Stands(r.0, r.1, Asset(false, token))
  {
  }

  lemma NothingIssued(s: State, token: Token, hasName: bool, created: Token)
    requires Registry(s) && GetBridgedTokenOrDeploy(s, token, hasName, created).Some?
    ensures forall y :: Kept(GetBridgedTokenOrDeploy(s, token, hasName, created).value.0, y) == Kept(s, y)
  {
  }

  // ---------------------------------------------------------------- changes of the message logs

  /** A message that is new to a log has not been executed and is not refunded. */
  lemma NewMessage(v: View, s: State, m: Message)
    requires Inv(v, s) && m.nonce == |s.amb.sent|
    ensures v.c.keccak(m) !in v.o.amb.status && v.c.keccak(m) !in s.med.fixed && v.c.keccak(m) !in s.med.ops
    ensures !Settled(v.c.keccak(m), v.o.amb.status, s.med.fixed)
  {
    assert !SentBy(v.c, s, v.c.keccak(m));
    assert Executed(View(v.co, v.c, s), v.o);
  }

  ghost function Appended(s: State, m: Message): State {
    s.(amb := s.amb.(sent := s.amb.sent + [m]))
  }

  /** What the other chain knows of this one survives growth of this one. */
  lemma LinkedGrows(v: View, s: State, t: State)
    requires Linked(View(v.co, v.c, s), v.o) && Grows(s, t)
    ensures Linked(View(v.co, v.c, t), v.o)
  {
    var w, w' := View(v.co, v.c, s), View(v.co, v.c, t);
    assert forall k | 0 <= k < |s.amb.sent| :: t.amb.sent[k] == s.amb.sent[k];
    assert Roots(w', v.o) by {
      assert Roots(w, v.o);
    }
    assert Executed(w', v.o) by {
      forall id | id in v.o.amb.status ensures SentBy(v.c, t, id) {
        assert SentBy(v.c, s, id);
      }
    }
    assert Delivery(w', v.o) by {
      assert Delivery(w, v.o);
    }
    assert Refunded(v.o, t) by {
      assert Refunded(v.o, s);
    }
  }

  /** Messages that move no value: from anyone but the mediator, or its requests for a refund. */
  lemma SendStep(v: View, s: State, m: Message, x: Asset)
    requires Inv(v, s) && m.nonce == |s.amb.sent|
    requires m.sender == v.c.mediator ==> m.payload.FixFailed? && Failed(s.amb.status, m.payload.id)
    ensures Step(v, s, Appended(s, m), x, 0)
  {
    hide Own, Linked, Imbalance;
    var t := Appended(s, m);
    LinkedGrows(v, s, t);
    SendOwn(v.c, s, m);
    AppendedLinked(v, s, t);
    forall y ensures Imbalance(v, t, y) == Imbalance(v, s, y) {
      AppendedImbalance(v, s, t, m, y);
    }
  }

  /** Growth of the log and the records changes nothing about what a chain knows of the other one. */
  lemma AppendedLinked(v: View, s: State, t: State)
    requires Linked(v, s) && t.amb == s.amb.(sent := t.amb.sent) && t.med.fixed == s.med.fixed
    ensures Linked(v, t)
  {
  }

  lemma AppendedImbalance(v: View, s: State, t: State, m: Message, y: Asset)
    requires t.amb == s.amb.(sent := s.amb.sent + [m]) && t.med == s.med.(ops := t.med.ops) && t.ledger == s.ledger
    ensures Imbalance(v, t, y) == Imbalance(v, s, y) - Worth(v.c, m, !y.local, y.token, v.o.amb.status, s.med.fixed)
  {
    hide Pending;
    PendingSnoc(v.c, s.amb.sent, m, !y.local, y.token, v.o.amb.status, s.med.fixed);
  }

  lemma SendOwn(c: Config, s: State, m: Message)
    requires Own(c, s) && m.nonce == |s.amb.sent|
    requires m.sender == c.mediator ==> m.payload.FixFailed? && Failed(s.amb.status, m.payload.id)
    ensures Own(c, Appended(s, m))
  {
    var t := Appended(s, m);
    assert Recorded(c, t) by {
      forall k | 0 <= k < |t.amb.sent| && IsTokens(c, t.amb.sent[k]) ensures RecordedAs(c, t, t.amb.sent[k]) {
        assert RecordedAs(c, s, s.amb.sent[k]);
      }
      forall id | id in t.med.ops
        ensures exists k :: 0 <= k < |t.amb.sent| && IsTokens(c, t.amb.sent[k]) && c.keccak(t.amb.sent[k]) == id
      {
        var k :| 0 <= k < |s.amb.sent| && IsTokens(c, s.amb.sent[k]) && c.keccak(s.amb.sent[k]) == id;
        assert t.amb.sent[k] == s.amb.sent[k];
      }
    }
  }

  ghost function AppendedAs(c: Config, s: State, m: Message, op: Operation): State {
    var t := Appended(s, m);
    t.(med := t.med.(ops := t.med.ops[c.keccak(m) := op]))
  }

  /** A message that moves value, recorded under its hash. */
  lemma RecordStep(v: View, s: State, m: Message, op: Operation)
    requires Inv(v, s) && m.nonce == |s.amb.sent| && IsTokens(v.c, m)
    requires RecordedAs(v.c, AppendedAs(v.c, s, m, op), m)
    ensures Step(v, s, AppendedAs(v.c, s, m, op), Asset(!m.payload.toNative, m.payload.token), m.payload.value)
  {
    hide Own, Linked, Imbalance;
    var t := AppendedAs(v.c, s, m, op);
    NewMessage(v, s, m);
    LinkedGrows(v, s, t);
    RecordOwn(v.c, s, m, op);
    AppendedLinked(v, s, t);
    forall y
      ensures Imbalance(v, t, y) == Imbalance(v, s, y)
                - (if y == Asset(!m.payload.toNative, m.payload.token) then m.payload.value else 0)
    {
      AppendedImbalance(v, s, t, m, y);
    }
  }

  lemma RecordOwn(c: Config, s: State, m: Message, op: Operation)
    requires Own(c, s) && m.nonce == |s.amb.sent| && IsTokens(c, m) && CollisionFree(c.keccak)
    requires RecordedAs(c, AppendedAs(c, s, m, op), m)
    ensures Own(c, AppendedAs(c, s, m, op))
  {
    var t := AppendedAs(c, s, m, op);
    assert Recorded(c, t) by {
      forall k | 0 <= k < |t.amb.sent| && IsTokens(c, t.amb.sent[k]) ensures RecordedAs(c, t, t.amb.sent[k]) {
        if k < |s.amb.sent| {
          assert RecordedAs(c, s, s.amb.sent[k]);
          assert c.keccak(s.amb.sent[k]) != c.keccak(m);
        }
      }
      forall id | id in t.med.ops
        ensures exists k :: 0 <= k < |t.amb.sent| && IsTokens(c, t.amb.sent[k]) && c.keccak(t.amb.sent[k]) == id
      {
        if id == c.keccak(m) {
          assert t.amb.sent[|s.amb.sent|] == m;
        } else {
          var k :| 0 <= k < |s.amb.sent| && IsTokens(c, s.amb.sent[k]) && c.keccak(s.amb.sent[k]) == id;
          assert t.amb.sent[k] == s.amb.sent[k];
        }
      }
    }
  }

  /** Flagging a failed transfer as refunded takes its value off the way. */
  lemma MarkFixedStep(v: View, s: State, id: Digest)
    requires Inv(v, s) && id in s.med.ops && id !in s.med.fixed && Failed(v.o.amb.status, id)
    ensures Step(v, s, MarkFixed(s, id), Behind(s, s.med.ops[id].token), -(s.med.ops[id].value as int))
  {
    hide Inv, Imbalance, Behind;
    MarkFixedInv(v, s, id);
    var k := RecordedIndex(v, s, id);
    var x, d := Behind(s, s.med.ops[id].token), s.med.ops[id].value;
    forall y ensures Imbalance(v, MarkFixed(s, id), y) == Imbalance(v, s, y) + (if y == x then d else 0) {
      MarkFixedImbalance(v, s, k, id, y);
    }
  }

  /** The message that a recorded operation belongs to. */
  lemma RecordedIndex(v: View, s: State, id: Digest) returns (k: nat)
    requires Inv(v, s) && id in s.med.ops
    ensures k < |s.amb.sent| && IsTokens(v.c, s.amb.sent[k]) && v.c.keccak(s.amb.sent[k]) == id
    ensures Behind(s, s.med.ops[id].token) == Asset(!s.amb.sent[k].payload.toNative, s.amb.sent[k].payload.token)
    ensures s.med.ops[id].value == s.amb.sent[k].payload.value
  {
    k :| 0 <= k < |s.amb.sent| && IsTokens(v.c, s.amb.sent[k]) && v.c.keccak(s.amb.sent[k]) == id;
    assert RecordedAs(v.c, s, s.amb.sent[k]);
  }

  lemma MarkFixedInv(v: View, s: State, id: Digest)
    requires Inv(v, s) && id in s.med.ops && id !in s.med.fixed && Failed(v.o.amb.status, id)
    ensures Inv(v, MarkFixed(s, id)) && Grows(s, MarkFixed(s, id))
  {
    hide Own, Roots, Delivery, Executed, Refunded;
    OwnFixed(v.c, s, id);
    LinkedFixed(v, s, id);
    LinkedGrows(v, s, MarkFixed(s, id));
  }

  lemma LinkedFixed(v: View, s: State, id: Digest)
    requires Linked(v, s) && Failed(v.o.amb.status, id)
    ensures Linked(v, MarkFixed(s, id))
  {
  }

  lemma OwnFixed(c: Config, s: State, id: Digest)
    requires Own(c, s)
    ensures Own(c, MarkFixed(s, id))
  {
    QuietlyRecorded(c, s, MarkFixed(s, id));
  }

  lemma MarkFixedImbalance(v: View, s: State, k: nat, id: Digest, y: Asset)
    requires Inv(v, s) && id !in s.med.fixed && Failed(v.o.amb.status, id)
    requires k < |s.amb.sent| && IsTokens(v.c, s.amb.sent[k]) && v.c.keccak(s.amb.sent[k]) == id
    ensures Imbalance(v, MarkFixed(s, id), y) == Imbalance(v, s, y) + Amount(v.c, s.amb.sent[k], !y.local, y.token)
  {
    PendingSettle(v.c, s.amb.sent, k, !y.local, y.token, v.o.amb.status, s.med.fixed, v.o.amb.status,
                  s.med.fixed + {id});
  }

  lemma QuietlyRecorded(c: Config, s: State, t: State)
    requires Recorded(c, s) && t.amb.sent == s.amb.sent && t.med == s.med.(fixed := t.med.fixed)
    ensures Recorded(c, t)
  {
    forall k | 0 <= k < |t.amb.sent| && IsTokens(c, t.amb.sent[k]) ensures RecordedAs(c, t, t.amb.sent[k]) {
      assert RecordedAs(c, s, s.amb.sent[k]);
    }
  }

  // ---------------------------------------------------------------- execution

  lemma LookUpStep(v: View, s: State, m: Message, route: Route, x: Asset)
    requires Inv(v, s) && LookUp(v.c, s, m, route).Some?
    ensures Step(v, s, LookUp(v.c, s, m, route).value, x, 0)
    ensures SentBy(v.co, v.o, v.c.keccak(m)) && m in v.o.amb.sent
  {
    hide Own, Linked, Imbalance, LookUp;
    var t := LookUp(v.c, s, m, route).value;
    LookUpResult(v, s, m, route);
    InvRoots(v, s);
    LookUpSent(v, s, m, route);
    OwnSame(v.c, s, t);
    LinkedGrows(v, s, t);
    ImbalanceSame(v, s, t);
  }

  /** A lookup changes nothing but the cache, which then shows what the light client shows. */
  lemma LookUpResult(v: View, s: State, m: Message, route: Route)
    requires LookUp(v.c, s, m, route).Some?
    ensures var t := LookUp(v.c, s, m, route).value;
            t == s.(amb := s.amb.(storageRoot := t.amb.storageRoot)) && (Linked(v, s) ==> Linked(v, t))
  {
  }

  lemma InvRoots(v: View, s: State)
    requires Inv(v, s)
    ensures Paired(v) && Roots(v, s)
  {
  }

  lemma LookUpSent(v: View, s: State, m: Message, route: Route)
    requires Paired(v) && Roots(v, s) && LookUp(v.c, s, m, route).Some?
    ensures SentBy(v.co, v.o, v.c.keccak(m)) && m in v.o.amb.sent
  {
    match route {
      case Storage(slot) =>
        assert v.o.amb.sent[m.nonce] == m;
      case Log(slot) =>
        var k :| 0 <= k < |s.amb.roots[slot]| && s.amb.roots[slot][k] == v.c.keccak(m);
        assert v.o.amb.sent[k] == m;
    }
  }

  /** Caches and roots are not part of a chain's own invariant. */
  lemma OwnSame(c: Config, s: State, t: State)
    requires Own(c, s) && t == s.(amb := s.amb.(storageRoot := t.amb.storageRoot))
    ensures Own(c, t)
  {
    QuietlyRecorded(c, s, t);
  }

  lemma ImbalanceSame(v: View, s: State, t: State)
    requires t.amb.sent == s.amb.sent && t.amb.status == s.amb.status && t.med == s.med && t.ledger == s.ledger
    ensures forall y :: Imbalance(v, t, y) == Imbalance(v, s, y)
  {
    hide Pending;
  }

  /** While a delivery is open its message counts as under way. */
  lemma OpenStep(v: View, s: State, m: Message, x: Asset)
    requires Inv(v, s) && s.amb.messageId == EMPTY_MESSAGE_ID
    requires m in v.o.amb.sent && v.c.keccak(m) !in s.amb.status
    ensures Shift(v, s, Open(s, v.c.keccak(m), m.sender), x, 0)
  {
    hide Own, Linked, Imbalance;
    var t := Open(s, v.c.keccak(m), m.sender);
    OpenOwn(v.c, s, v.c.keccak(m), m.sender);
    OpenLinked(v, s, m);
    LinkedGrows(v, s, t);
    ImbalanceSame(v, s, t);
  }

  lemma OpenOwn(c: Config, s: State, id: Digest, sender: Address)
    requires Own(c, s) && s.amb.messageId == EMPTY_MESSAGE_ID && id !in s.amb.status && id != EMPTY_MESSAGE_ID
    ensures Own(c, Open(s, id, sender))
  {
    QuietlyRecorded(c, s, Open(s, id, sender));
    OpenOnce(s, id, sender);
  }

  lemma OpenLinked(v: View, s: State, m: Message)
    requires Linked(v, s) && m in v.o.amb.sent && v.c.keccak(m) !in s.amb.status && v.c.keccak(m) != EMPTY_MESSAGE_ID
    ensures Linked(v, Open(s, v.c.keccak(m), m.sender))
  {
    var k :| 0 <= k < |v.o.amb.sent| && v.o.amb.sent[k] == m;
  }

  lemma OpenOnce(s: State, id: Digest, sender: Address)
    requires Once(s) && s.amb.messageId == EMPTY_MESSAGE_ID && id !in s.amb.status && id != EMPTY_MESSAGE_ID
    ensures Once(Open(s, id, sender))
  {
    var d := s.amb.delivered + [id];
    assert id !in s.amb.delivered;
    assert forall e :: e in d <==> e in s.amb.delivered || e == id;
  }

  /** The value that the delivery of a message takes off the receiving side, and of which asset. */
  ghost function Payment(v: View, m: Message): nat {
    if IsTokens(v.co, m) then m.payload.value else 0
  }

  ghost function PaidAsset(m: Message): Asset {
    if m.payload.Tokens? then Asset(m.payload.toNative, m.payload.token) else Asset(true, 0)
  }

  /** Closing a delivery with success settles its message; closing it as failed leaves its value under way. */
  lemma CloseStep(v: View, s: State, m: Message, success: bool)
    requires Inv(v, s) && m in v.o.amb.sent && s.amb.messageId == v.c.keccak(m)
    ensures Shift(v, s, Close(s, v.c.keccak(m), success), PaidAsset(m), if success then -(Payment(v, m) as int) else 0)
  {
    hide Inv, Imbalance;
    var t := Close(s, v.c.keccak(m), success);
    CloseInv(v, s, m, success);
    forall y
      ensures Imbalance(v, t, y) == Imbalance(v, s, y) + (if success && y == PaidAsset(m) then Payment(v, m) else 0)
    {
      CloseImbalance(v, s, m, success, y);
    }
  }

  lemma CloseInv(v: View, s: State, m: Message, success: bool)
    requires Inv(v, s) && m in v.o.amb.sent && s.amb.messageId == v.c.keccak(m)
    ensures Inv(v, Close(s, v.c.keccak(m), success)) && Grows(s, Close(s, v.c.keccak(m), success))
  {
    hide Own, Linked;
    var id, t := v.c.keccak(m), Close(s, v.c.keccak(m), success);
    NotYetExecuted(v, s, m);
    CloseOwn(v.c, s, id, success);
    CloseLinked(v, s, m, success);
    LinkedGrows(v, s, t);
  }

  /** The message that is being delivered has no outcome yet. */
  lemma NotYetExecuted(v: View, s: State, m: Message)
    requires Linked(v, s) && s.amb.messageId == v.c.keccak(m) != EMPTY_MESSAGE_ID
    ensures v.c.keccak(m) !in s.amb.status
  {
    assert Delivery(v, s);
  }

  lemma CloseOwn(c: Config, s: State, id: Digest, success: bool)
    requires Own(c, s) && s.amb.messageId == id && id !in s.amb.status && id != EMPTY_MESSAGE_ID
    ensures Own(c, Close(s, id, success))
  {
    QuietlyRecorded(c, s, Close(s, id, success));
  }

  lemma CloseLinked(v: View, s: State, m: Message, success: bool)
    requires Linked(v, s) && m in v.o.amb.sent && v.c.keccak == v.co.keccak
    ensures Linked(v, Close(s, v.c.keccak(m), success))
  {
    assert SentBy(v.co, v.o, v.c.keccak(m)) by {
      var k :| 0 <= k < |v.o.amb.sent| && v.o.amb.sent[k] == m;
    }
  }

  lemma CloseImbalance(v: View, s: State, m: Message, success: bool, y: Asset)
    requires Inv(v, s) && m in v.o.amb.sent && s.amb.messageId == v.c.keccak(m)
    ensures Imbalance(v, Close(s, v.c.keccak(m), success), y)
         == Imbalance(v, s, y) + (if success then Amount(v.co, m, y.local, y.token) else 0)
  {
    hide Pending, Recorded, Registry, Requested, Once, Roots, Executed;
    var id := v.c.keccak(m);
    var status' := s.amb.status[id := success];
    NotYetExecuted(v, s, m);
    assert id !in v.o.med.fixed by { assert Refunded(v.o, s); }
    if success {
      var k :| 0 <= k < |v.o.amb.sent| && v.o.amb.sent[k] == m;
      PendingSettle(v.co, v.o.amb.sent, k, y.local, y.token, s.amb.status, v.o.med.fixed, status', v.o.med.fixed);
    } else {
      PendingFrame(v.co, v.o.amb.sent, y.local, y.token, s.amb.status, v.o.med.fixed, status', v.o.med.fixed);
    }
  }
}
