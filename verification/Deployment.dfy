/** Both chains' contracts as objects: what is proved of the bridge as a whole holds of their storage. */
module Deployment {
  import opened Chain
  import opened Bridge
  import opened Custody
  import opened TwoChains
  import opened Solvency
  import opened Contracts

  /** One chain's light client learns what the other chain's contracts store. */
  method SyncContracts(chain: Contracts, source: Contracts, slot: nat, n: nat)
    requires chain != source && chain.Valid() && source.Valid()
    modifies chain
    ensures chain.Valid()
    ensures chain.Storage() == Sync(source.c, old(chain.Storage()), source.messages, slot, n)
  {
    if n <= source.nonce {
      var root := source.SentMessages(n);
      assert root == Hashes(source.c, source.messages[..n]);
      chain.LearnSlot(slot, root);
    }
  }

  method PlayEvent(p: Setup, home: Contracts, foreign: Contracts, e: Event)
    requires home != foreign && home.Valid() && foreign.Valid() && home.c == p.home && foreign.c == p.foreign
    modifies home, foreign
    ensures home.Valid() && foreign.Valid()
    ensures World(home.Storage(), foreign.Storage()) == Next(p, old(World(home.Storage(), foreign.Storage())), e)
  {
    hide Run;
    match e {
      case HomeCall(a) => home.Transact(a);
      case ForeignCall(a) => foreign.Transact(a);
      case HomeSync(slot, n) => SyncContracts(home, foreign, slot, n);
      case ForeignSync(slot, n) => SyncContracts(foreign, home, slot, n);
    }
  }

  method PlayEvents(p: Setup, home: Contracts, foreign: Contracts, events: seq<Event>)
    requires home != foreign && home.Valid() && foreign.Valid() && home.c == p.home && foreign.c == p.foreign
    modifies home, foreign
    ensures home.Valid() && foreign.Valid()
    ensures World(home.Storage(), foreign.Storage()) == Play(p, old(World(home.Storage(), foreign.Storage())), events)
  {
    hide Next;
    ghost var end := Play(p, World(home.Storage(), foreign.Storage()), events);
    for i := 0 to |events|
      invariant home.Valid() && foreign.Valid()
      invariant Play(p, World(home.Storage(), foreign.Storage()), events[i..]) == end
    {
      assert events[i..][1..] == events[i + 1..];
      PlayEvent(p, home, foreign, events[i]);
    }
  }

  /** The two deployments after any events: their own fields satisfy the conservation equation. */
  method RunBridge(p: Setup, events: seq<Event>) returns (home: Contracts, foreign: Contracts)
    requires ValidSetup(p)
    ensures home.Valid() && foreign.Valid() && home.c == p.home && foreign.c == p.foreign
    ensures forall token: Token ::
              && Get(home.mediatorBalance, token)
                 == Issued(foreign.Storage(), token)
                  + Pending(p.home, home.messages, false, token, foreign.executionStatus, home.messageFixed)
                  + Pending(p.foreign, foreign.messages, true, token, home.executionStatus, foreign.messageFixed)
              && Get(foreign.mediatorBalance, token)
                 == Issued(home.Storage(), token)
                  + Pending(p.foreign, foreign.messages, false, token, home.executionStatus, foreign.messageFixed)
                  + Pending(p.home, home.messages, true, token, foreign.executionStatus, home.messageFixed)
    ensures EachDeliveredOnce(home.Storage()) && EachDeliveredOnce(foreign.Storage())
    ensures forall x: Token | FairEvents(p, events, x) && x !in home.nativeTokenAddress ::
              Get(home.balances, (x, p.home.mediator)) >= Get(home.mediatorBalance, x)
  {
    hide Play, Pending, Issued, EachDeliveredOnce, FairEvents;
    home := new Contracts(p.home);
    foreign := new Contracts(p.foreign);
    PlayEvents(p, home, foreign, events);
    AtMostOnceDelivery(p, events);
    forall token: Token
      ensures Get(home.mediatorBalance, token)
              == Issued(foreign.Storage(), token)
               + Pending(p.home, home.messages, false, token, foreign.executionStatus, home.messageFixed)
               + Pending(p.foreign, foreign.messages, true, token, home.executionStatus, foreign.messageFixed)
      ensures Get(foreign.mediatorBalance, token)
              == Issued(home.Storage(), token)
               + Pending(p.foreign, foreign.messages, false, token, home.executionStatus, foreign.messageFixed)
               + Pending(p.home, home.messages, true, token, foreign.executionStatus, home.messageFixed)
    {
      Conservation(p, events, token);
    }
    forall x: Token | FairEvents(p, events, x) && x !in home.nativeTokenAddress
      ensures Get(home.balances, (x, p.home.mediator)) >= Get(home.mediatorBalance, x)
    {
      BooksAreCovered(p, events, x);
    }
  }
}
