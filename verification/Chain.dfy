/** The contracts' storage on one chain, and everything that may happen to it within one transaction. */
module Chain {
  import opened Words

  type Address = nat

  /** A token is known by the address of its contract. */
  type Token = Address

  /** A keccak hash. It is a number of unbounded size, so that collision-freedom is a satisfiable hypothesis. */
  type Digest = nat

  const EMPTY_MESSAGE_ID: Digest := TWO_256 - 1
  const EMPTY_ADDRESS: Address := 0xFFff_FFff_FFff_FFff_FFff_FFff_FFff_FFff_FFff_FFff

  // ---------------------------------------------------------------- messages

  /**
   * Call data of a message. Tokens stands for the six handle entry points: toNative tells handleNativeTokens from
   * handleBridgedTokens, deploy and withCall select the deployAndHandle and AndCall variants.
   */
  datatype Payload =
    | Tokens(toNative: bool, token: Token, deploy: bool, recipient: Address, value: nat, withCall: bool)
    | FixFailed(id: Digest)
    | Call(data: nat)

  datatype Message = Message(nonce: nat, sender: Address, receiver: Address, gasLimit: nat, payload: Payload)

  /** What is fixed when the contracts of one chain are initialized. Only the home mediator has a fee manager. */
  datatype Config = Config(keccak: Message -> Digest, mediator: Address, other: Address, maxGasPerTx: nat,
                           home: bool, feeManager: Address)

  /** Different messages have different hashes, none of which is the marker for "no message". */
  ghost predicate CollisionFree(keccak: Message -> Digest) {
    && (forall m :: keccak(m) != EMPTY_MESSAGE_ID)
    && (forall m, n :: keccak(m) == keccak(n) ==> m == n)
  }

  // ---------------------------------------------------------------- storage

  /**
   * TrustlessAMB. sent holds the emitted messages: sentMessages[i] is the hash of sent[i] and nonce is |sent|.
   * status maps executed messages to the success of their execution. roots is the view of the light client: for each
   * of its slots the array sentMessages of the other chain in that slot's state. delivered logs receiver calls.
   */
  datatype Amb = Amb(sent: seq<Message>, status: map<Digest, bool>, roots: map<nat, seq<Digest>>,
                     storageRoot: map<nat, seq<Digest>>, messageId: Digest, messageSender: Address,
                     delivered: seq<Digest>)

  datatype Operation = Operation(token: Token, recipient: Address, value: nat)

  /** The Omnibridge mediator. A token in nativeOf is a bridged one, all others count as native to this chain. */
  datatype Mediator = Mediator(lock: bool, mediatorBalance: map<Token, nat>, ops: map<Digest, Operation>,
                               fixed: set<Digest>, bridgedOf: map<Token, Token>, nativeOf: map<Token, Token>,
                               acked: set<Token>, registered: set<Token>)

  /** Token balances; supply and burned (by holders) are kept for the bridged tokens. */
  datatype Ledger = Ledger(balances: map<(Token, Address), nat>, supply: map<Token, nat>, burned: map<Token, nat>)

  datatype State = State(amb: Amb, med: Mediator, ledger: Ledger)

  function Get<K>(m: map<K, nat>, k: K): nat {
    if k in m then m[k] else 0
  }

  // ---------------------------------------------------------------- behaviour of code outside the model

  /** A call to a contract that is not modelled: it does anything at all, and then returns or reverts. */
  datatype Hook = Hook(ok: bool, actions: Actions)

  datatype Actions = Nil | Cons(head: Action, tail: Actions)

  /** How a storage lookup of the other chain is proved: in its state at a slot, or by a log up to that slot. */
  datatype Route = Storage(slot: nat) | Log(slot: nat)

  /** The choices left to the environment while a mediator function runs. */
  datatype Env = Env(withinLimits: bool, hasName: bool, gasLimit: nat, enoughGas: bool, created: Token, fee: nat,
                     feeCall: Hook, distribute: Hook, release: Hook, callback: Hook, run: Hook)

  /** Every call into the modelled contracts. */
  datatype Action =
    | PassMessage(sender: Address, receiver: Address, payload: Payload, gasLimit: nat)
    | ExecuteMessage(message: Message, route: Route, env: Env)
    | RelayTokens(token: Token, from: Address, receiver: Address, value: nat, notify: bool, withCall: bool,
                  pull: Hook, env: Env)
    | Transfer(token: Token, from: Address, to: Address, value: nat, notify: bool, receiver: Address, withCall: bool,
               env: Env)
    | Notify(token: Token, from: Address, receiver: Address, value: nat, withCall: bool, env: Env)
    | Burn(token: Token, holder: Address, value: nat)
    | Rebase(token: Token, holder: Address, balance: nat)
    | RequestFix(message: Message, gasLimit: nat)
    | FixBalance(token: Token, receiver: Address, available: nat, env: Env)
}
