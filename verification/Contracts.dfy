/**
 * The contracts of one chain in imperative form: each entry point updates storage in place, in the order of the
 * Solidity code, and is proved to do what its function in module Bridge says. A method that returns false reverts;
 * whoever handles the revert puts the storage back.
 */
module Contracts {
  import opened Words
  import opened Chain
  import B = Bridge

  ghost predicate Hashed(c: Config, sent: seq<Message>, hashes: map<nat, Digest>) {
    forall k | 0 <= k < |sent| :: k in hashes && hashes[k] == c.keccak(sent[k])
  }

  class Contracts {
    const c: Config

    // TrustlessAMB
    var nonce: nat
    var sentMessages: map<nat, Digest>
    var executionStatus: map<Digest, bool>
    var storageRoot: map<nat, seq<Digest>>
    var messageId: Digest
    var messageSender: Address

    // the events SentMessage, the receiver calls made, and what the light client shows of the other chain
    var messages: seq<Message>
    var delivered: seq<Digest>
    var lightClient: map<nat, seq<Digest>>

    // Omnibridge
    var locked: bool
    var mediatorBalance: map<Token, nat>
    var operations: map<Digest, Operation>
    var messageFixed: set<Digest>
    var bridgedTokenAddress: map<Token, Token>
    var nativeTokenAddress: map<Token, Token>
    var ackDeploy: set<Token>
    var registered: set<Token>

    // tokens
    var balances: map<(Token, Address), nat>
    var totalSupply: map<Token, nat>
    var burned: map<Token, nat>

    function Storage(): State
      reads this
    {
      State(AmbStorage(), MediatorStorage(), Ledger(balances, totalSupply, burned))
    }

    function AmbStorage(): Amb
      reads `messages, `executionStatus, `lightClient, `storageRoot, `messageId, `messageSender, `delivered
    {
      Amb(messages, executionStatus, lightClient, storageRoot, messageId, messageSender, delivered)
    }

    function MediatorStorage(): Mediator
      reads `locked, `mediatorBalance, `operations, `messageFixed, `bridgedTokenAddress, `nativeTokenAddress
      reads `ackDeploy, `registered
    {
      Mediator(locked, mediatorBalance, operations, messageFixed, bridgedTokenAddress, nativeTokenAddress, ackDeploy,
               registered)
    }

    /** sentMessages holds the hash of every emitted message under its nonce. */
    ghost predicate Valid()
      reads `nonce, `messages, `sentMessages
    {
      nonce == |messages| && Hashed(c, messages, sentMessages)
    }

    /** The storage is what r says, or the call reverts as r says. */
    ghost predicate Became(r: Option<State>, ok: bool)
      reads this
    {
      ok == r.Some? && (ok ==> Valid() && Storage() == r.value)
    }

    constructor (config: Config)
      ensures Valid() && c == config && Storage() == B.Blank()
    {
      c := config;
      nonce, sentMessages, executionStatus, storageRoot := 0, map[], map[], map[];
      messageId, messageSender := EMPTY_MESSAGE_ID, EMPTY_ADDRESS;
      messages, delivered, lightClient := [], [], map[];
      locked, mediatorBalance, operations, messageFixed := false, map[], map[], {};
      bridgedTokenAddress, nativeTokenAddress, ackDeploy, registered := map[], map[], {}, {};
      balances, totalSupply, burned := map[], map[], map[];
    }

    /** Undoes a reverted call. */
    method Restore(s: State, hashes: map<nat, Digest>)
      requires Hashed(c, s.amb.sent, hashes)
      modifies this
      ensures Valid() && Storage() == s
    {
      hide Hashed, Valid, AmbStorage, MediatorStorage;
      RestoreAmb(s.amb, hashes);
      RestoreMediator(s.med);
      RestoreLedger(s.ledger);
    }

    method RestoreLedger(l: Ledger)
      modifies `balances, `totalSupply, `burned
      ensures balances == l.balances && totalSupply == l.supply && burned == l.burned
    {
      balances, totalSupply, burned := l.balances, l.supply, l.burned;
    }

    method RestoreAmb(a: Amb, hashes: map<nat, Digest>)
      requires Hashed(c, a.sent, hashes)
      modifies `nonce, `sentMessages, `messages, `delivered, `lightClient
      modifies `executionStatus, `storageRoot, `messageId, `messageSender
      ensures Valid() && AmbStorage() == a
    {
      hide Hashed;
      nonce, sentMessages := |a.sent|, hashes;
      messages, delivered, lightClient := a.sent, a.delivered, a.roots;
      executionStatus, storageRoot := a.status, a.storageRoot;
      messageId, messageSender := a.messageId, a.messageSender;
    }

    method RestoreMediator(m: Mediator)
      modifies `locked, `mediatorBalance, `operations, `messageFixed, `bridgedTokenAddress, `nativeTokenAddress,
               `ackDeploy, `registered
      ensures MediatorStorage() == m
    {
      locked, mediatorBalance, operations, messageFixed := m.lock, m.mediatorBalance, m.ops, m.fixed;
      bridgedTokenAddress, nativeTokenAddress, ackDeploy, registered := m.bridgedOf, m.nativeOf, m.acked, m.registered;
    }

    // ---------------------------------------------------------------- tokens

    method Move(token: Token, from: Address, to: Address, value: nat) returns (ok: bool)
      requires Valid()
      modifies this
      ensures Became(B.Move(old(Storage()), token, from, to, value), ok)
    {
      if value > Get(balances, (token, from)) || to == 0 {
        return false;
      }
      balances := balances[(token, from) := Get(balances, (token, from)) - value];
      if Get(balances, (token, to)) + value >= TWO_256 {
        return false;
      }
      balances := balances[(token, to) := Get(balances, (token, to)) + value];
      return true;
    }

    method Mint(token: Token, to: Address, value: nat) returns (ok: bool)
      requires Valid()
      modifies this
      ensures Became(B.Mint(old(Storage()), token, to, value), ok)
    {
      if Get(totalSupply, token) + value >= TWO_256 {
        return false;
      }
      totalSupply := totalSupply[token := Get(totalSupply, token) + value];
      if Get(balances, (token, to)) + value >= TWO_256 {
        return false;
      }
      balances := balances[(token, to) := Get(balances, (token, to)) + value];
      return true;
    }

    method BurnFrom(token: Token, holder: Address, value: nat) returns (ok: bool)
      requires Valid()
      modifies this
      ensures Became(B.BurnFrom(old(Storage()), token, holder, value), ok)
    {
      if value > Get(balances, (token, holder)) {
        return false;
      }
      balances := balances[(token, holder) := Get(balances, (token, holder)) - value];
      if value > Get(totalSupply, token) {
        return false;
      }
      totalSupply := totalSupply[token := Get(totalSupply, token) - value];
      return true;
    }

    method HolderBurn(token: Token, holder: Address, value: nat) returns (ok: bool)
      requires Valid()
      modifies this
      ensures Became(B.HolderBurn(old(Storage()), token, holder, value), ok)
    {
      ok := BurnFrom(token, holder, value);
      if ok {
        burned := burned[token := Get(burned, token) + value];
      }
    }

    // ---------------------------------------------------------------- sending

    method RequireToPassMessage(sender: Address, receiver: Address, data: Payload, gasLimit: nat)
      returns (ok: bool, id: Digest)
      requires Valid()
      modifies this
      ensures Became(B.Send(c, old(Storage()), sender, receiver, data, gasLimit), ok)
      ensures ok ==> |messages| == |old(messages)| + 1 && id == c.keccak(messages[|old(messages)|])
    {
      id := EMPTY_MESSAGE_ID;
      if gasLimit > c.maxGasPerTx {
        return false, id;
      }
      var message := Message(nonce, sender, receiver, gasLimit, data);
      id := c.keccak(message);
      sentMessages := sentMessages[nonce := id];
      messages := messages + [message];
      nonce := nonce + 1;
      return true, id;
    }

    method PrepareMessage(isNative: bool, token: Token, receiver: Address, value: nat, withCall: bool, hasName: bool)
      returns (ok: bool, data: Payload)
      requires Valid()
      modifies this
      ensures var r := B.PrepareMessage(c, old(Storage()), isNative, token, receiver, value, withCall, hasName);
              ok == r.Some? && (ok ==> Valid() && (Storage(), data) == r.value)
    {
      data := Call(0);
      if isNative {
        if Get(mediatorBalance, token) + value >= TWO_256 {
          return false, data;
        }
        mediatorBalance := mediatorBalance[token := Get(mediatorBalance, token) + value];
        if token in ackDeploy {
          return true, Tokens(false, token, false, receiver, value, withCall);
        }
        return hasName, Tokens(false, token, true, receiver, value, withCall);
      }
      var nativeToken := Get(nativeTokenAddress, token);
      ok := BurnFrom(token, c.mediator, value);
      data := Tokens(true, nativeToken, false, receiver, value, withCall);
    }

    method SendTokens(isNative: bool, token: Token, from: Address, receiver: Address, value: nat, withCall: bool,
                      env: Env)
      returns (ok: bool)
      requires Valid()
      modifies this
      ensures Became(B.SendTokens(c, old(Storage()), isNative, token, from, receiver, value, withCall, env), ok)
    {
      var data, id;
      ok, data := PrepareMessage(isNative, token, receiver, value, withCall, env.hasName);
      if !ok {
        return;
      }
      ok, id := RequireToPassMessage(c.mediator, c.other, data, env.gasLimit);
      if ok {
        operations := operations[id := Operation(token, from, value)];
      }
    }

    method RequestFailedMessageFix(m: Message, gasLimit: nat) returns (ok: bool)
      requires Valid()
      modifies this
      ensures Became(B.RequestFailedMessageFix(c, old(Storage()), m, gasLimit), ok)
    {
      var id := c.keccak(m);
      if id !in executionStatus || executionStatus[id] {
        return false;
      }
      if m.receiver != c.mediator || m.sender != c.other {
        return false;
      }
      ok, id := RequireToPassMessage(c.mediator, c.other, FixFailed(id), gasLimit);
    }

    method FixMediatorBalance(token: Token, receiver: Address, available: nat, env: Env) returns (ok: bool)
      requires Valid()
      modifies this
      ensures Became(B.FixMediatorBalance(c, old(Storage()), token, receiver, available, env), ok)
    {
      hide B.SendTokens, Valid;
      if receiver == 0 || token == 0 || token !in registered || token in nativeTokenAddress {
        return false;
      }
      if Get(balances, (token, c.mediator)) <= Get(mediatorBalance, token) || available == 0 {
        return false;
      }
      var diff := Get(balances, (token, c.mediator)) - Get(mediatorBalance, token);
      if diff > available {
        diff := available;
      }
      ok := SendTokens(true, token, receiver, receiver, diff, false, env);
    }

    // ---------------------------------------------------------------- small steps of an execution

    /** Checks the proof of a message; a storage root looked up for the first time is cached. */
    method LookUp(m: Message, route: Route) returns (ok: bool)
      requires Valid()
      modifies this
      ensures Became(B.LookUp(c, old(Storage()), m, route), ok)
    {
      var id := c.keccak(m);
      match route {
        case Storage(slot) =>
          if slot !in storageRoot {
            if slot !in lightClient {
              return false;
            }
            storageRoot := storageRoot[slot := lightClient[slot]];
          }
          return B.Holds(storageRoot[slot], m.nonce, id);
        case Log(slot) =>
          return slot in lightClient && id in lightClient[slot];
      }
    }

    method GetBridgedTokenOrDeploy(token: Token, hasName: bool, created: Token) returns (ok: bool, bridged: Token)
      requires Valid()
      modifies this
      ensures var r := B.GetBridgedTokenOrDeploy(old(Storage()), token, hasName, created);
              ok == r.Some? && (ok ==> Valid() && (Storage(), bridged) == r.value)
    {
      bridged := created;
      if token in bridgedTokenAddress {
        bridged := bridgedTokenAddress[token];
      } else {
        if !hasName || created == 0 || created in registered || created in nativeTokenAddress {
          return false, bridged;
        }
        bridgedTokenAddress := bridgedTokenAddress[token := created];
        nativeTokenAddress := nativeTokenAddress[created := token];
      }
      registered := registered + {bridged};
      return true, bridged;
    }

    method Arriving(p: Payload, env: Env) returns (ok: bool, token: Token)
      requires Valid() && p.Tokens?
      modifies this
      ensures var r := B.Arriving(old(Storage()), p, env);
              ok == r.Some? && (ok ==> Valid() && (Storage(), token) == r.value)
    {
      if p.toNative {
        ackDeploy := ackDeploy + {p.token};
        return true, p.token;
      }
      if p.deploy {
        ok, token := GetBridgedTokenOrDeploy(p.token, env.hasName, env.created);
        return;
      }
      if p.token in bridgedTokenAddress {
        return bridgedTokenAddress[p.token] in registered, bridgedTokenAddress[p.token];
      }
      return false, 0;
    }

    // ---------------------------------------------------------------- reentrant calls

    method Invoke(hook: Hook) returns (ok: bool)
      requires Valid()
      modifies this
      ensures Became(B.Invoke(c, old(Storage()), hook), ok)
      decreases hook, 0
    {
      RunAll(hook.actions);
      return hook.ok;
    }

    method RunAll(actions: Actions)
      requires Valid()
      modifies this
      ensures Valid() && Storage() == B.RunAll(c, old(Storage()), actions)
      decreases actions, 0
    {
      match actions {
        case Nil =>
        case Cons(a, rest) =>
          Transact(a);
          RunAll(rest);
      }
    }

    /** A call that leaves no trace when it reverts. */
    method Transact(a: Action)
      requires Valid()
      modifies this
      ensures Valid()
      ensures Storage() == var r := B.Run(c, old(Storage()), a); if r.Some? then r.value else old(Storage())
      decreases a, 3
    {
      var s, hashes := Storage(), sentMessages;
      var ok := Run(a);
      if !ok {
        Restore(s, hashes);
      }
    }

    method Run(a: Action) returns (ok: bool)
      requires Valid()
      modifies this
      ensures Became(B.Run(c, old(Storage()), a), ok)
      decreases a, 2
    {
      match a {
        case PassMessage(sender, receiver, payload, gasLimit) =>
          if sender == c.mediator { return false; }
          var id;
          ok, id := RequireToPassMessage(sender, receiver, payload, gasLimit);
        case ExecuteMessage(m, route, env) =>
          ok := ExecuteMessage(m, route, env);
        case RelayTokens(token, from, receiver, value, notify, withCall, pull, env) =>
          if from == c.mediator { return false; }
          ok := RelayTokens(a);
        case Transfer(token, from, to, value, notify, receiver, withCall, env) =>
          if from == c.mediator { return false; }
          ok := TransferFrom(token, from, to, value, notify, receiver, withCall, env);
        case Notify(token, from, receiver, value, withCall, env) =>
          if token in nativeTokenAddress { return false; }
          ok := OnTokenTransfer(token, from, receiver, value, withCall, env);
        case Burn(token, holder, value) =>
          if holder == c.mediator || token !in nativeTokenAddress { return false; }
          ok := HolderBurn(token, holder, value);
        case Rebase(token, holder, balance) =>
          if token in nativeTokenAddress { return false; }
          balances := balances[(token, holder) := balance];
          ok := true;
        case RequestFix(m, gasLimit) =>
          ok := RequestFailedMessageFix(m, gasLimit);
        case FixBalance(token, receiver, available, env) =>
          ok := FixMediatorBalance(token, receiver, available, env);
      }
    }

    method PayOut(token: Token, to: Address, value: nat, hook: Hook) returns (ok: bool)
      requires Valid()
      modifies this
      ensures Became(B.PayOut(c, old(Storage()), token, to, value, hook), ok)
      decreases hook, 1
    {
      ok := Move(token, c.mediator, to, value);
      if ok {
        ok := Invoke(hook);
      }
    }

    method TransferFrom(token: Token, from: Address, to: Address, value: nat, notify: bool, receiver: Address,
                        withCall: bool, env: Env)
      returns (ok: bool)
      requires Valid()
      modifies this
      ensures Became(B.TransferFrom(c, old(Storage()), token, from, to, value, notify, receiver, withCall, env), ok)
      decreases env, 4
    {
      ok := Move(token, from, to, value);
      if ok && to == c.mediator && (notify || token in nativeTokenAddress) {
        ok := OnTokenTransfer(token, from, receiver, value, withCall, env);
      }
    }

    method OnTokenTransfer(token: Token, from: Address, receiver: Address, value: nat, withCall: bool, env: Env)
      returns (ok: bool)
      requires Valid()
      modifies this
      ensures Became(B.OnTokenTransfer(c, old(Storage()), token, from, receiver, value, withCall, env), ok)
      decreases env, 3
    {
      ok := true;
      if !locked {
        ok := Deposit(token, from, receiver, value, withCall, env);
      }
    }

    /** Takes the tokens while the lock is set. */
    method Pull(a: Action) returns (ok: bool)
      requires Valid() && a.RelayTokens?
      modifies this
      ensures Became(B.Pull(c, old(Storage()), a), ok)
      decreases a, 0
    {
      hide B.TransferFrom, B.Invoke, Hashed;
      locked := true;
      ok := TransferFrom(a.token, a.from, c.mediator, a.value, a.notify, a.from, false, a.env);
      if !ok {
        return;
      }
      ok := Invoke(a.pull);
      locked := false;
    }

    method RelayTokens(a: Action) returns (ok: bool)
      requires Valid() && a.RelayTokens?
      modifies this
      ensures Became(B.Relay(c, old(Storage()), a), ok)
      decreases a, 1
    {
      hide B.Pull, B.Deposit, Hashed;
      if locked {
        return false;
      }
      var balanceBefore := Get(balances, (a.token, c.mediator));
      ok := Pull(a);
      if !ok {
        return;
      }
      var balanceAfter := Get(balances, (a.token, c.mediator));
      if balanceAfter < balanceBefore || balanceAfter - balanceBefore > a.value {
        return false;
      }
      ok := Deposit(a.token, a.from, a.receiver, balanceAfter - balanceBefore, a.withCall, a.env);
    }

    method Register(token: Token)
      requires Valid()
      modifies this
      ensures Valid() && Storage() == B.Register(old(Storage()), token)
    {
      registered := registered + {token};
    }

    method Deposit(token: Token, from: Address, receiver: Address, value: nat, withCall: bool, env: Env)
      returns (ok: bool)
      requires Valid()
      modifies this
      ensures Became(B.Deposit(c, old(Storage()), token, from, receiver, value, withCall, env), ok)
      decreases env, 2
    {
      hide B.DepositFee, B.SendTokens, B.Register, Hashed;
      ok := receiver != 0 && receiver != c.other && token != 0 && env.withinLimits;
      if ok {
        var isNative := token !in nativeTokenAddress;
        Register(token);
        var fee;
        ok, fee := DepositFee(token, env);
        ok := ok && fee <= value;
        if ok {
          ok := SendTokens(isNative, token, from, receiver, value - fee, withCall, env);
        }
      }
    }

    method DepositFee(token: Token, env: Env) returns (ok: bool, fee: nat)
      requires Valid()
      modifies this
      ensures var r := B.DepositFee(c, old(Storage()), token, env);
              ok == r.Some? && (ok ==> Valid() && (Storage(), fee) == r.value)
      decreases env, 1
    {
      if !c.home || env.fee == 0 {
        return true, 0;
      }
      fee := env.fee;
      ok := PayOut(token, c.feeManager, fee, env.feeCall);
      if ok {
        ok := Invoke(env.distribute);
      }
    }

    /** A fee call that fails is undone, and the message goes on without a fee. */
    method HandleFee(isNative: bool, token: Token, env: Env) returns (ok: bool, fee: nat)
      requires Valid()
      modifies this
      ensures var r := B.HandleFee(c, old(Storage()), isNative, token, env);
              ok == r.Some? && (ok ==> Valid() && (Storage(), fee) == r.value)
      decreases env, 2
    {
      if !c.home || env.fee == 0 {
        return true, 0;
      }
      var s, hashes := Storage(), sentMessages;
      if isNative {
        ok := PayOut(token, c.feeManager, env.fee, env.feeCall);
      } else {
        ok := Mint(token, c.feeManager, env.fee);
      }
      if !ok {
        Restore(s, hashes);
        return true, 0;
      }
      ok := Invoke(env.distribute);
      fee := env.fee;
    }

    method SubtractBalance(token: Token, change: nat) returns (ok: bool)
      requires Valid()
      modifies this
      ensures Became(B.SubtractBalance(old(Storage()), token, change), ok)
    {
      if change > Get(mediatorBalance, token) {
        return false;
      }
      mediatorBalance := mediatorBalance[token := Get(mediatorBalance, token) - change];
      return true;
    }

    method Release(isNative: bool, token: Token, recipient: Address, value: nat, change: nat, env: Env)
      returns (ok: bool)
      requires Valid()
      modifies this
      ensures Became(B.Release(c, old(Storage()), isNative, token, recipient, value, change, env), ok)
      decreases env, 2
    {
      if !isNative {
        ok := Mint(token, recipient, value);
      } else if c.home {
        ok := PayOut(token, recipient, value, env.release);
        if ok {
          ok := SubtractBalance(token, change);
        }
      } else {
        ok := SubtractBalance(token, change);
        if ok {
          ok := PayOut(token, recipient, value, env.release);
        }
      }
    }

    method HandleTokens(isNative: bool, token: Token, recipient: Address, value: nat, env: Env) returns (ok: bool)
      requires Valid()
      modifies this
      ensures Became(B.HandleTokens(c, old(Storage()), isNative, token, recipient, value, env), ok)
      decreases env, 3
    {
      if locked || !env.withinLimits {
        return false;
      }
      var fee;
      ok, fee := HandleFee(isNative, token, env);
      if !ok || fee > value {
        return false;
      }
      ok := Release(isNative, token, recipient, value - fee, value, env);
    }

    method HandleMessage(p: Payload, env: Env) returns (ok: bool)
      requires Valid() && p.Tokens?
      modifies this
      ensures Became(B.HandleMessage(c, old(Storage()), p, env), ok)
      decreases env, 4
    {
      var token;
      ok, token := Arriving(p, env);
      if !ok {
        return;
      }
      ok := HandleTokens(p.toNative, token, p.recipient, p.value, env);
      if ok && p.withCall {
        ReceiverCallback(env.callback);
      }
    }

    /** The callback of a recipient; whether it succeeds is ignored. */
    method ReceiverCallback(hook: Hook)
      requires Valid()
      modifies this
      ensures Valid()
      ensures Storage() == var r := B.Invoke(c, old(Storage()), hook); if r.Some? then r.value else old(Storage())
      decreases hook, 1
    {
      var s, hashes := Storage(), sentMessages;
      var ok := Invoke(hook);
      if !ok {
        Restore(s, hashes);
      }
    }

    method FixFailedMessage(id: Digest, env: Env) returns (ok: bool)
      requires Valid()
      modifies this
      ensures Became(B.FixFailedMessage(c, old(Storage()), id, env), ok)
      decreases env, 4
    {
      if id in messageFixed || id !in operations {
        return false;
      }
      var op := operations[id];
      messageFixed := messageFixed + {id};
      ok := Release(op.token !in nativeTokenAddress, op.token, op.recipient, op.value, op.value, env);
    }

    method Deliver(m: Message, env: Env) returns (ok: bool)
      requires Valid()
      modifies this
      ensures Became(B.Deliver(c, old(Storage()), m, env), ok)
      decreases env, 5
    {
      if !env.enoughGas {
        return false;
      }
      if m.receiver != c.mediator || m.payload.Call? {
        ok := Invoke(env.run);
        return;
      }
      if messageSender != c.other {
        return false;
      }
      match m.payload {
        case Tokens(_, _, _, _, _, _) =>
          ok := HandleMessage(m.payload, env);
        case FixFailed(id) =>
          ok := FixFailedMessage(id, env);
      }
    }

    method Open(id: Digest, sender: Address)
      requires Valid()
      modifies this
      ensures Valid() && Storage() == B.Open(old(Storage()), id, sender)
    {
      messageId, messageSender := id, sender;
      delivered := delivered + [id];
    }

    method Close(id: Digest, status: bool)
      requires Valid()
      modifies this
      ensures Valid() && Storage() == B.Close(old(Storage()), id, status)
    {
      messageId, messageSender := EMPTY_MESSAGE_ID, EMPTY_ADDRESS;
      executionStatus := executionStatus[id := status];
    }

    /** The call of a receiver, which is undone if it fails. */
    method CallReceiver(m: Message, env: Env) returns (status: bool)
      requires Valid()
      modifies this
      ensures Valid()
      ensures var r := B.Deliver(c, old(Storage()), m, env);
              status == r.Some? && Storage() == if r.Some? then r.value else old(Storage())
      decreases env, 6
    {
      hide B.Deliver;
      var s, hashes := Storage(), sentMessages;
      status := Deliver(m, env);
      if !status {
        Restore(s, hashes);
      }
    }

    method ExecuteMessage(m: Message, route: Route, env: Env) returns (ok: bool)
      requires Valid()
      modifies this
      ensures Became(B.Execute(c, old(Storage()), m, route, env), ok)
      decreases env, 7
    {
      hide B.Deliver, B.LookUp, B.Open, B.Close, Hashed;
      var id := c.keccak(m);
      if id in executionStatus {
        return false;
      }
      ok := LookUp(m, route);
      if !ok {
        return;
      }
      if messageId != EMPTY_MESSAGE_ID {
        return false;
      }
      Open(id, m.sender);
      var status := CallReceiver(m, env);
      Close(id, status);
      return true;
    }

    /** The light client learns a slot of the other chain; slots are never rewritten. */
    method LearnSlot(slot: nat, root: seq<Digest>)
      requires Valid()
      modifies this
      ensures Valid()
      ensures Storage() == var s := old(Storage());
                           if slot in s.amb.roots then s else s.(amb := s.amb.(roots := s.amb.roots[slot := root]))
    {
      if slot !in lightClient {
        lightClient := lightClient[slot := root];
      }
    }

    /** The first n entries of the array sentMessages. */
    method SentMessages(n: nat) returns (root: seq<Digest>)
      requires Valid() && n <= nonce
      ensures |root| == n && forall k | 0 <= k < n :: root[k] == c.keccak(messages[k])
    {
      root := [];
      for i := 0 to n
        invariant |root| == i && forall k | 0 <= k < i :: root[k] == c.keccak(messages[k])
      {
        root := root + [sentMessages[i]];
      }
    }
  }
}
