/** What the contracts of one chain do: TrustlessAMB, the Omnibridge mediators and the tokens, as one system. */
module Bridge {
  import opened Words
  import opened Chain

  /** The storage right after initialization. */
  function Blank(): State {
    State(Amb([], map[], map[], map[], EMPTY_MESSAGE_ID, EMPTY_ADDRESS, []),
          Mediator(false, map[], map[], {}, map[], map[], {}, {}),
          Ledger(map[], map[], map[]))
  }

  // ---------------------------------------------------------------- tokens

  function Balance(s: State, token: Token, holder: Address): nat {
    Get(s.ledger.balances, (token, holder))
  }

  function WithBalance(s: State, token: Token, holder: Address, balance: nat): State {
    s.(ledger := s.ledger.(balances := s.ledger.balances[(token, holder) := balance]))
  }

  function Move(s: State, token: Token, from: Address, to: Address, value: nat): Option<State> {
    if value > Balance(s, token, from) || to == 0 then None
    else
      var s1 := WithBalance(s, token, from, Balance(s, token, from) - value);
      var sum := Balance(s1, token, to) + value;
      if sum >= TWO_256 then None else Some(WithBalance(s1, token, to, sum))
  }

  function Mint(s: State, token: Token, to: Address, value: nat): Option<State> {
    var supply, sum := Get(s.ledger.supply, token) + value, Balance(s, token, to) + value;
    if supply >= TWO_256 || sum >= TWO_256 then None
    else
      var s1 := s.(ledger := s.ledger.(supply := s.ledger.supply[token := supply]));
      Some(WithBalance(s1, token, to, sum))
  }

  function BurnFrom(s: State, token: Token, holder: Address, value: nat): Option<State> {
    if value > Balance(s, token, holder) || value > Get(s.ledger.supply, token) then None
    else
      var s1 := WithBalance(s, token, holder, Balance(s, token, holder) - value);
      Some(s1.(ledger := s1.ledger.(supply := s1.ledger.supply[token := Get(s1.ledger.supply, token) - value])))
  }

  /** A holder burns bridged tokens of his own. */
  function HolderBurn(s: State, token: Token, holder: Address, value: nat): Option<State> {
    var s1 :- BurnFrom(s, token, holder, value);
    Some(s1.(ledger := s1.ledger.(burned := s1.ledger.burned[token := Get(s1.ledger.burned, token) + value])))
  }

  // ---------------------------------------------------------------- sending messages

  function Send(c: Config, s: State, sender: Address, receiver: Address, payload: Payload,
                gasLimit: nat): Option<State> {
    if gasLimit > c.maxGasPerTx then None
    else Some(s.(amb := s.amb.(sent := s.amb.sent + [Message(|s.amb.sent|, sender, receiver, gasLimit, payload)])))
  }

  /** Locks native tokens or burns bridged ones, and gives the call data for the other mediator. */
  function PrepareMessage(c: Config, s: State, isNative: bool, token: Token, receiver: Address, value: nat,
                          withCall: bool, hasName: bool): Option<(State, Payload)> {
    if isNative then
      var balance := Get(s.med.mediatorBalance, token) + value;
      var deploy := token !in s.med.acked;
      if balance >= TWO_256 || (deploy && !hasName) then None
      else
        Some((s.(med := s.med.(mediatorBalance := s.med.mediatorBalance[token := balance])),
              Tokens(false, token, deploy, receiver, value, withCall)))
    else
      var s1 :- BurnFrom(s, token, c.mediator, value);
      Some((s1, Tokens(true, Get(s.med.nativeOf, token), false, receiver, value, withCall)))
  }

  /** Passes the message and records the operation under its hash, for a later refund to `from`. */
  function PassAndRecord(c: Config, s: State, token: Token, from: Address, value: nat, payload: Payload,
                         gasLimit: nat): Option<State> {
    var s1 :- Send(c, s, c.mediator, c.other, payload, gasLimit);
    var id := c.keccak(s1.amb.sent[|s.amb.sent|]);
    Some(s1.(med := s1.med.(ops := s1.med.ops[id := Operation(token, from, value)])))
  }

  function SendTokens(c: Config, s: State, isNative: bool, token: Token, from: Address, receiver: Address, value: nat,
                      withCall: bool, env: Env): Option<State> {
    var p :- PrepareMessage(c, s, isNative, token, receiver, value, withCall, env.hasName);
    PassAndRecord(c, p.0, token, from, value, p.1, env.gasLimit)
  }

  function RequestFailedMessageFix(c: Config, s: State, m: Message, gasLimit: nat): Option<State> {
    var id := c.keccak(m);
    if id !in s.amb.status || s.amb.status[id] then None
    else if m.receiver != c.mediator || m.sender != c.other then None
    else Send(c, s, c.mediator, c.other, FixFailed(id), gasLimit)
  }

  /** Sends the tokens that reached the mediator without a deposit, as far as the limits allow. */
  function FixMediatorBalance(c: Config, s: State, token: Token, receiver: Address, available: nat,
                              env: Env): Option<State> {
    if receiver == 0 || token == 0 || token !in s.med.registered || token in s.med.nativeOf then None
    else
      var balance, held := Balance(s, token, c.mediator), Get(s.med.mediatorBalance, token);
      if balance <= held || available == 0 then None
      else
        var diff := if balance - held > available then available else balance - held;
        SendTokens(c, s, true, token, receiver, receiver, diff, false, env)
  }

  // ---------------------------------------------------------------- executing messages

  /** The other chain's sentMessages, as the route shows them; a storage root looked up once is cached. */
  function LookUp(c: Config, s: State, m: Message, route: Route): Option<State> {
    var id := c.keccak(m);
    match route
    case Storage(slot) =>
      if slot in s.amb.storageRoot then
        if Holds(s.amb.storageRoot[slot], m.nonce, id) then Some(s) else None
      else if slot in s.amb.roots && Holds(s.amb.roots[slot], m.nonce, id) then
        Some(s.(amb := s.amb.(storageRoot := s.amb.storageRoot[slot := s.amb.roots[slot]])))
      else None
    case Log(slot) =>
      if slot in s.amb.roots && id in s.amb.roots[slot] then Some(s) else None
  }

  predicate Holds(sentMessages: seq<Digest>, nonce: nat, id: Digest) {
    nonce < |sentMessages| && sentMessages[nonce] == id
  }

  function Open(s: State, id: Digest, sender: Address): State {
    s.(amb := s.amb.(messageId := id, messageSender := sender, delivered := s.amb.delivered + [id]))
  }

  function Close(s: State, id: Digest, success: bool): State {
    s.(amb := s.amb.(messageId := EMPTY_MESSAGE_ID, messageSender := EMPTY_ADDRESS,
                     status := s.amb.status[id := success]))
  }

  /** The bridged token of a token from the other side, which is created on its first arrival. */
  function GetBridgedTokenOrDeploy(s: State, token: Token, hasName: bool, created: Token): Option<(State, Token)> {
    if token in s.med.bridgedOf then
      var b := s.med.bridgedOf[token];
      Some((s.(med := s.med.(registered := s.med.registered + {b})), b))
    else if !hasName || created == 0 || created in s.med.registered || created in s.med.nativeOf then None
    else
      Some((s.(med := s.med.(bridgedOf := s.med.bridgedOf[token := created],
                             nativeOf := s.med.nativeOf[created := token], registered := s.med.registered + {created})),
            created))
  }

  /** The token of this chain that an arriving message is about. */
  function Arriving(s: State, p: Payload, env: Env): Option<(State, Token)>
    requires p.Tokens?
  {
    if p.toNative then Some((Acknowledge(s, p.token), p.token))
    else if p.deploy then GetBridgedTokenOrDeploy(s, p.token, env.hasName, env.created)
    else if p.token in s.med.bridgedOf && s.med.bridgedOf[p.token] in s.med.registered then
      Some((s, s.med.bridgedOf[p.token]))
    else None
  }

  function SetLock(s: State, lock: bool): State {
    s.(med := s.med.(lock := lock))
  }

  function Register(s: State, token: Token): State {
    s.(med := s.med.(registered := s.med.registered + {token}))
  }

  function Acknowledge(s: State, token: Token): State {
    s.(med := s.med.(acked := s.med.acked + {token}))
  }

  function MarkFixed(s: State, id: Digest): State {
    s.(med := s.med.(fixed := s.med.fixed + {id}))
  }

  function SubtractBalance(s: State, token: Token, value: nat): Option<State> {
    var balance := Get(s.med.mediatorBalance, token);
    if value > balance then None
    else Some(s.(med := s.med.(mediatorBalance := s.med.mediatorBalance[token := balance - value])))
  }

  // ---------------------------------------------------------------- reentrancy

  /** A call to unmodelled code; None when it reverts, which undoes all it did. */
  function Invoke(c: Config, s: State, hook: Hook): Option<State>
    decreases hook, 0
  {
    if hook.ok then Some(RunAll(c, s, hook.actions)) else None
  }

  /** Calls one after the other; those that revert leave no trace. */
  function RunAll(c: Config, s: State, actions: Actions): State
    decreases actions, 0
  {
    match actions
    case Nil => s
    case Cons(a, rest) =>
      var r := Run(c, s, a);
      RunAll(c, if r.Some? then r.value else s, rest)
  }

  /** One call into the contracts, None when it reverts. The mediator itself is no outside caller. */
  function Run(c: Config, s: State, a: Action): Option<State>
    decreases a, 2
  {
    match a
    case PassMessage(sender, receiver, payload, gasLimit) =>
      if sender == c.mediator then None else Send(c, s, sender, receiver, payload, gasLimit)
    case ExecuteMessage(m, route, env) =>
      Execute(c, s, m, route, env)
    case RelayTokens(token, from, receiver, value, notify, withCall, pull, env) =>
      if from == c.mediator then None else Relay(c, s, a)
    case Transfer(token, from, to, value, notify, receiver, withCall, env) =>
      if from == c.mediator then None else TransferFrom(c, s, token, from, to, value, notify, receiver, withCall, env)
    case Notify(token, from, receiver, value, withCall, env) =>
      if token in s.med.nativeOf then None else OnTokenTransfer(c, s, token, from, receiver, value, withCall, env)
    case Burn(token, holder, value) =>
      if holder == c.mediator || token !in s.med.nativeOf then None else HolderBurn(s, token, holder, value)
    case Rebase(token, holder, balance) =>
      if token in s.med.nativeOf then None else Some(WithBalance(s, token, holder, balance))
    case RequestFix(m, gasLimit) =>
      RequestFailedMessageFix(c, s, m, gasLimit)
    case FixBalance(token, receiver, available, env) =>
      FixMediatorBalance(c, s, token, receiver, available, env)
  }

  /** A transfer by the mediator, with whatever the token's code does besides. */
  function PayOut(c: Config, s: State, token: Token, to: Address, value: nat, hook: Hook): Option<State>
    decreases hook, 1
  {
    var s1 :- Move(s, token, c.mediator, to, value);
    Invoke(c, s1, hook)
  }

  /** A transfer between others; bridged tokens, and ERC677 tokens in general, call the mediator back. */
  function TransferFrom(c: Config, s: State, token: Token, from: Address, to: Address, value: nat, notify: bool,
                        receiver: Address, withCall: bool, env: Env): Option<State>
    decreases env, 4
  {
    var s1 :- Move(s, token, from, to, value);
    if to == c.mediator && (notify || token in s.med.nativeOf) then
      OnTokenTransfer(c, s1, token, from, receiver, value, withCall, env)
    else Some(s1)
  }

  /** The token callback, which does nothing while relayTokens pulls tokens in. */
  function OnTokenTransfer(c: Config, s: State, token: Token, from: Address, receiver: Address, value: nat,
                           withCall: bool, env: Env): Option<State>
    decreases env, 3
  {
    if s.med.lock then Some(s) else Deposit(c, s, token, from, receiver, value, withCall, env)
  }

  /** The first part of relayTokens: under the lock, the tokens are pulled in, with whatever their code does besides. */
  function Pull(c: Config, s: State, a: Action): Option<State>
    requires a.RelayTokens?
    decreases a, 0
  {
    var s1 :- TransferFrom(c, SetLock(s, true), a.token, a.from, c.mediator, a.value, a.notify, a.from, false, a.env);
    var s2 :- Invoke(c, s1, a.pull);
    Some(SetLock(s2, false))
  }

  /** relayTokens: what counts is by how much the mediator's balance grew. */
  function Relay(c: Config, s: State, a: Action): Option<State>
    requires a.RelayTokens?
    decreases a, 1
  {
    if s.med.lock then None
    else
      var before := Balance(s, a.token, c.mediator);
      var s1 :- Pull(c, s, a);
      var after := Balance(s1, a.token, c.mediator);
      if after < before || after - before > a.value then None
      else Deposit(c, s1, a.token, a.from, a.receiver, after - before, a.withCall, a.env)
  }

  /** bridgeSpecificActionsOnTokenTransfer of both mediators. */
  function Deposit(c: Config, s: State, token: Token, from: Address, receiver: Address, value: nat, withCall: bool,
                   env: Env): Option<State>
    decreases env, 2
  {
    if receiver == 0 || receiver == c.other || token == 0 || !env.withinLimits then None
    else
      var isNative := token !in s.med.nativeOf;
      var r :- DepositFee(c, Register(s, token), token, env);
      if r.1 > value then None else SendTokens(c, r.0, isNative, token, from, receiver, value - r.1, withCall, env)
  }

  /** The home mediator's fee on the way out; a failing fee transfer fails the deposit. */
  function DepositFee(c: Config, s: State, token: Token, env: Env): Option<(State, nat)>
    decreases env, 1
  {
    if !c.home || env.fee == 0 then Some((s, 0))
    else
      var s1 :- PayOut(c, s, token, c.feeManager, env.fee, env.feeCall);
      var s2 :- Invoke(c, s1, env.distribute);
      Some((s2, env.fee))
  }

  /** The home mediator's fee on the way in: moved or minted to the manager; if that call fails there is no fee. */
  function HandleFee(c: Config, s: State, isNative: bool, token: Token, env: Env): Option<(State, nat)>
    decreases env, 2
  {
    if !c.home || env.fee == 0 then Some((s, 0))
    else
      var paid := if isNative then PayOut(c, s, token, c.feeManager, env.fee, env.feeCall)
                  else Mint(s, token, c.feeManager, env.fee);
      match paid
      case None => Some((s, 0))
      case Some(s1) =>
        var s2 :- Invoke(c, s1, env.distribute);
        Some((s2, env.fee))
  }

  /** Unlocks or mints. The home mediator pays before it reduces its balance, the foreign one after. */
  function Release(c: Config, s: State, isNative: bool, token: Token, recipient: Address, value: nat, change: nat,
                   env: Env): Option<State>
    decreases env, 2
  {
    if !isNative then Mint(s, token, recipient, value)
    else if c.home then
      var s1 :- PayOut(c, s, token, recipient, value, env.release);
      SubtractBalance(s1, token, change)
    else
      var s1 :- SubtractBalance(s, token, change);
      PayOut(c, s1, token, recipient, value, env.release)
  }

  function HandleTokens(c: Config, s: State, isNative: bool, token: Token, recipient: Address, value: nat,
                        env: Env): Option<State>
    decreases env, 3
  {
    if s.med.lock || !env.withinLimits then None
    else
      var r :- HandleFee(c, s, isNative, token, env);
      if r.1 > value then None else Release(c, r.0, isNative, token, recipient, value - r.1, value, env)
  }

  /** The handle entry points; the receiver's callback may fail without consequence. */
  function HandleMessage(c: Config, s: State, p: Payload, env: Env): Option<State>
    requires p.Tokens?
    decreases env, 4
  {
    var r :- Arriving(s, p, env);
    var s1 :- HandleTokens(c, r.0, p.toNative, r.1, p.recipient, p.value, env);
    var s2 := if p.withCall then Invoke(c, s1, env.callback) else None;
    Some(if s2.Some? then s2.value else s1)
  }

  function FixFailedMessage(c: Config, s: State, id: Digest, env: Env): Option<State>
    decreases env, 4
  {
    if id in s.med.fixed || id !in s.med.ops then None
    else
      var op := s.med.ops[id];
      Release(c, MarkFixed(s, id), op.token !in s.med.nativeOf, op.token, op.recipient, op.value, op.value, env)
  }

  /** The call of a message's receiver. */
  function Deliver(c: Config, s: State, m: Message, env: Env): Option<State>
    decreases env, 5
  {
    if !env.enoughGas then None
    else if m.receiver != c.mediator || m.payload.Call? then Invoke(c, s, env.run)
    else if s.amb.messageSender != c.other then None
    else match m.payload
      case Tokens(_, _, _, _, _, _) => HandleMessage(c, s, m.payload, env)
      case FixFailed(id) => FixFailedMessage(c, s, id, env)
  }

  /** executeMessage and executeMessageFromLog: a failing receiver is rolled back, its message is marked as failed. */
  function Execute(c: Config, s: State, m: Message, route: Route, env: Env): Option<State>
    decreases env, 6
  {
    var id := c.keccak(m);
    if id in s.amb.status then None
    else
      var s1 :- LookUp(c, s, m, route);
      if s1.amb.messageId != EMPTY_MESSAGE_ID then None
      else
        var started := Open(s1, id, m.sender);
        var r := Deliver(c, started, m, env);
        Some(if r.Some? then Close(r.value, id, true) else Close(started, id, false))
  }
}
