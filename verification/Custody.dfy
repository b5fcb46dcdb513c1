/** What every call into the contracts of one chain keeps, seen together with the state of the other chain. */
module Custody {
  import opened Chain

  /** The other chain, which stands still while a transaction runs on this one. */
  datatype View = View(c: Config, co: Config, o: State)

  ghost predicate Paired(v: View) {
    && v.c.keccak == v.co.keccak && CollisionFree(v.c.keccak)
    && v.c.mediator == v.co.other && v.co.mediator == v.c.other
  }

  // ---------------------------------------------------------------- value under way

  /** A token, native to this chain or to the other one. */
  datatype Asset = Asset(local: bool, token: Token)

  ghost predicate IsTransfer(m: Message, sender: Address, toNative: bool, token: Token) {
    m.sender == sender && m.payload.Tokens? && m.payload.toNative == toNative && m.payload.token == token
  }

  /** A message is settled once it was executed with success on the other side or refunded on its own. */
  ghost predicate Settled(id: Digest, status: map<Digest, bool>, fixed: set<Digest>) {
    (id in status && status[id]) || id in fixed
  }

  ghost function Worth(c: Config, m: Message, toNative: bool, token: Token, status: map<Digest, bool>,
                       fixed: set<Digest>): nat {
    if IsTransfer(m, c.mediator, toNative, token) && !Settled(c.keccak(m), status, fixed) then m.payload.value else 0
  }

  /** The value of all unsettled transfers of one token among the messages sent by a chain. */
  ghost function Pending(c: Config, sent: seq<Message>, toNative: bool, token: Token, status: map<Digest, bool>,
                         fixed: set<Digest>): nat {
    if sent == [] then 0
    else
      var k := |sent| - 1;
      Pending(c, sent[..k], toNative, token, status, fixed) + Worth(c, sent[k], toNative, token, status, fixed)
  }

  /** Bridged tokens of a token of the other side that were minted and never bridged back. */
  ghost function Issued(s: State, token: Token): nat {
    if token in s.med.bridgedOf then
      Get(s.ledger.supply, s.med.bridgedOf[token]) + Get(s.ledger.burned, s.med.bridgedOf[token])
    else 0
  }

  /** What a chain keeps for an asset: its mediator's balance, or minus what it issued. */
  ghost function Kept(s: State, x: Asset): int {
    if x.local then Get(s.med.mediatorBalance, x.token) as int else -(Issued(s, x.token) as int)
  }

  /** Held on the native side, less issued on the bridged side, less under way in either direction. */
  ghost function Imbalance(v: View, s: State, x: Asset): int {
    Kept(s, x) + Kept(v.o, Asset(!x.local, x.token))
    - Pending(v.c, s.amb.sent, !x.local, x.token, v.o.amb.status, s.med.fixed)
    - Pending(v.co, v.o.amb.sent, x.local, x.token, s.amb.status, v.o.med.fixed)
  }

  // ---------------------------------------------------------------- the invariant

  ghost predicate Numbered(sent: seq<Message>) {
    forall k | 0 <= k < |sent| :: sent[k].nonce == k
  }

  ghost predicate Recorded(c: Config, s: State) {
    && (forall k | 0 <= k < |s.amb.sent| && IsTokens(c, s.amb.sent[k]) :: RecordedAs(c, s, s.amb.sent[k]))
    && (forall id | id in s.med.ops ::
          exists k :: 0 <= k < |s.amb.sent| && IsTokens(c, s.amb.sent[k]) && c.keccak(s.amb.sent[k]) == id)
  }

  ghost predicate IsTokens(c: Config, m: Message) {
    m.sender == c.mediator && m.payload.Tokens?
  }

  ghost predicate RecordedAs(c: Config, s: State, m: Message)
    requires m.payload.Tokens?
  {
    m.receiver == c.other && c.keccak(m) in s.med.ops &&
    var op := s.med.ops[c.keccak(m)];
    op.value == m.payload.value && op.token in s.med.registered
    && if m.payload.toNative then op.token in s.med.nativeOf && s.med.nativeOf[op.token] == m.payload.token
       else op.token !in s.med.nativeOf && op.token == m.payload.token
  }

  ghost predicate Registry(s: State) {
    && (forall t | t in s.med.bridgedOf ::
          s.med.bridgedOf[t] in s.med.nativeOf && s.med.nativeOf[s.med.bridgedOf[t]] == t)
    && (forall b | b in s.med.nativeOf ::
          s.med.nativeOf[b] in s.med.bridgedOf && s.med.bridgedOf[s.med.nativeOf[b]] == b)
    && s.med.nativeOf.Keys <= s.med.registered
    && s.ledger.supply.Keys <= s.med.nativeOf.Keys && s.ledger.burned.Keys <= s.med.nativeOf.Keys
  }

  /** Refunds are asked for failed messages only. */
  ghost predicate Requested(c: Config, s: State) {
    forall k | 0 <= k < |s.amb.sent| && s.amb.sent[k].sender == c.mediator && s.amb.sent[k].payload.FixFailed? ::
      Failed(s.amb.status, s.amb.sent[k].payload.id)
  }

  ghost predicate Failed(status: map<Digest, bool>, id: Digest) {
    id in status && !status[id]
  }

  ghost predicate SentBy(c: Config, s: State, id: Digest) {
    exists k :: 0 <= k < |s.amb.sent| && c.keccak(s.amb.sent[k]) == id
  }

  /** Each root shows the first messages of the log. */
  ghost predicate Prefix(c: Config, root: seq<Digest>, sent: seq<Message>) {
    |root| <= |sent| && forall k | 0 <= k < |root| :: root[k] == c.keccak(sent[k])
  }

  ghost predicate Roots(v: View, s: State) {
    && (forall slot | slot in s.amb.roots :: Prefix(v.co, s.amb.roots[slot], v.o.amb.sent))
    && (forall slot | slot in s.amb.storageRoot :: Prefix(v.co, s.amb.storageRoot[slot], v.o.amb.sent))
  }

  /** The delivery in progress, if any. */
  ghost predicate Delivery(v: View, s: State) {
    if s.amb.messageId == EMPTY_MESSAGE_ID then s.amb.messageSender == EMPTY_ADDRESS
    else
      s.amb.messageId !in s.amb.status
      && exists k :: 0 <= k < |v.o.amb.sent| && v.c.keccak(v.o.amb.sent[k]) == s.amb.messageId
                     && v.o.amb.sent[k].sender == s.amb.messageSender
  }

  /** Every message reached its receiver at most once, and then it is executed or just being executed. */
  ghost predicate Once(s: State) {
    && (forall i, j | 0 <= i < j < |s.amb.delivered| :: s.amb.delivered[i] != s.amb.delivered[j])
    && (forall id :: id in s.amb.delivered <==>
                     id in s.amb.status || (id == s.amb.messageId && id != EMPTY_MESSAGE_ID))
  }

  ghost predicate Executed(v: View, s: State) {
    forall id | id in s.amb.status :: SentBy(v.co, v.o, id)
  }

  /** Refunded messages have failed on the other side. */
  ghost predicate Refunded(s: State, o: State) {
    forall id | id in s.med.fixed :: Failed(o.amb.status, id)
  }

  /** One chain by itself. */
  ghost predicate Own(c: Config, s: State) {
    Numbered(s.amb.sent) && Recorded(c, s) && Registry(s) && Requested(c, s) && Once(s)
  }

  /** One chain as it depends on the other. */
  ghost predicate Linked(v: View, s: State) {
    Roots(v, s) && Delivery(v, s) && Executed(v, s) && Refunded(s, v.o)
  }

  ghost predicate Inv(v: View, s: State) {
    && Paired(v)
    && Own(v.c, s) && Own(v.co, v.o)
    && Linked(v, s) && Linked(View(v.co, v.c, s), v.o)
  }

  // ---------------------------------------------------------------- steps

  /** Logs and outcomes are append-only. */
  ghost predicate Grows(s: State, t: State) {
    && s.amb.sent <= t.amb.sent
    && (forall id | id in s.amb.status :: id in t.amb.status && t.amb.status[id] == s.amb.status[id])
    && s.amb.roots == t.amb.roots
    && (forall b | b in s.med.nativeOf :: b in t.med.nativeOf && t.med.nativeOf[b] == s.med.nativeOf[b])
    && s.med.registered <= t.med.registered && s.med.fixed <= t.med.fixed
    && (forall b | b in t.med.nativeOf :: b in s.med.nativeOf || b !in s.med.registered)
  }

  /** From s to t the imbalance of asset x drops by d, and nothing else goes out of balance. */
  ghost predicate Shift(v: View, s: State, t: State, x: Asset, d: int) {
    Inv(v, t) && Grows(s, t)
    && forall y :: Imbalance(v, t, y) == Imbalance(v, s, y) - (if y == x then d else 0)
  }

  /** A shift within which the open delivery, if any, stays the same. */
  ghost predicate Step(v: View, s: State, t: State, x: Asset, d: int) {
    Shift(v, s, t, x, d)
    && t.amb.messageId == s.amb.messageId && t.amb.messageSender == s.amb.messageSender
  }

  lemma ShiftTrans(v: View, r: State, s: State, t: State, x: Asset, d: int, e: int)
    requires Shift(v, r, s, x, d) && Shift(v, s, t, x, e)
    ensures Shift(v, r, t, x, d + e)
  {
    hide Inv, Imbalance;
  }

  lemma StepTrans(v: View, r: State, s: State, t: State, x: Asset, d: int, e: int)
    requires Step(v, r, s, x, d) && Step(v, s, t, x, e)
    ensures Step(v, r, t, x, d + e)
  {
    hide Shift;
    ShiftTrans(v, r, s, t, x, d, e);
  }

  lemma StepRefl(v: View, s: State, x: Asset)
    requires Inv(v, s)
    ensures Step(v, s, s, x, 0)
  {
    hide Inv, Imbalance;
  }

  /** A step that balances is a step for every asset. */
  lemma StepAny(v: View, s: State, t: State, x: Asset, y: Asset)
    requires Step(v, s, t, x, 0)
    ensures Step(v, s, t, y, 0)
  {
    hide Inv, Imbalance;
  }
}
