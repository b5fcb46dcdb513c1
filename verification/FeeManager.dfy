/** The home mediator's fee manager: fee rates, the reward list and the distribution of collected fees. */
module FeeManager {
  import opened Words

  type Address = nat

  /** 1 ether, which stands for 100%. */
  const MAX_FEE: nat := 1_000_000_000_000_000_000
  const MAX_REWARD_ACCOUNTS: nat := 50

  datatype FeeType = HomeToForeign | ForeignToHome

  ghost predicate Distinct(list: seq<Address>) {
    forall i, j | 0 <= i < j < |list| :: list[i] != list[j]
  }

  // ---------------------------------------------------------------- shares

  /** What reward account i gets of a fee: an equal share, and one account what is left over. */
  function Share(fee: nat, n: nat, lucky: nat, i: nat): nat
    requires n > 0
  {
    fee / n + if fee % n > 0 && lucky == i then fee % n else 0
  }

  /** What the accounts before k get together. */
  function TotalShares(fee: nat, n: nat, lucky: nat, k: nat): nat
    requires n > 0
  {
    if k == 0 then 0 else TotalShares(fee, n, lucky, k - 1) + Share(fee, n, lucky, k - 1)
  }

  /** What address a gets of them. */
  function Received(list: seq<Address>, fee: nat, lucky: nat, k: nat, a: Address): nat
    requires k <= |list| && list != []
  {
    if k == 0 then 0
    else Received(list, fee, lucky, k - 1, a) + if list[k - 1] == a then Share(fee, |list|, lucky, k - 1) else 0
  }

  lemma {:induction false} SharesSoFar(fee: nat, n: nat, lucky: nat, k: nat)
    requires n > 0
    ensures TotalShares(fee, n, lucky, k) == k * (fee / n) + if fee % n > 0 && lucky < k then fee % n else 0
    decreases k
  {
    if k > 0 {
      SharesSoFar(fee, n, lucky, k - 1);
      assert k * (fee / n) == (k - 1) * (fee / n) + fee / n;
    }
  }

  /** The shares of all accounts are the whole fee. */
  lemma SharesAddUp(fee: nat, n: nat, lucky: nat)
    requires lucky < n
    ensures TotalShares(fee, n, lucky, n) == fee
  {
    SharesSoFar(fee, n, lucky, n);
    assert fee == n * (fee / n) + fee % n;
  }

  /** All shares but one are the same, a whole part of the fee; that one is more by less than one unit per account. */
  lemma SharesAreEqual(fee: nat, n: nat, lucky: nat, i: nat)
    requires n > 0 && i != lucky
    ensures n * Share(fee, n, lucky, i) <= fee < n * (Share(fee, n, lucky, i) + 1)
    ensures Share(fee, n, lucky, i) <= Share(fee, n, lucky, lucky) < Share(fee, n, lucky, i) + n
  {
    assert fee == n * (fee / n) + fee % n;
  }

  lemma {:induction false} SharesGrow(fee: nat, n: nat, lucky: nat, k: nat, m: nat)
    requires n > 0 && k <= m
    ensures TotalShares(fee, n, lucky, k) <= TotalShares(fee, n, lucky, m)
    decreases m
  {
    if k < m {
      SharesGrow(fee, n, lucky, k, m - 1);
    }
  }

  /** In a list without duplicates every account gets its share, and nobody else gets anything. */
  lemma {:induction false} ReceivedShare(list: seq<Address>, fee: nat, lucky: nat, k: nat, a: Address)
    requires k <= |list| && list != [] && Distinct(list)
    ensures forall i | 0 <= i < k && list[i] == a :: Received(list, fee, lucky, k, a) == Share(fee, |list|, lucky, i)
    ensures a !in list[..k] ==> Received(list, fee, lucky, k, a) == 0
    decreases k
  {
    if k > 0 {
      ReceivedShare(list, fee, lucky, k - 1, a);
      assert a !in list[..k] ==> a !in list[..k - 1];
      assert list[k - 1] == a ==> a !in list[..k - 1];
    }
  }

  /** An account's share is nothing only if the fee is, or if it is too small to be divided and goes to another one. */
  lemma ShareOfNothing(fee: nat, n: nat, lucky: nat, i: nat)
    requires n > 0
    ensures Share(fee, n, lucky, i) == 0 <==> fee == 0 || (fee < n && lucky != i)
  {
    assert fee == n * (fee / n) + fee % n;
    if fee < n {
      assert fee / n == 0;
    } else {
      assert fee / n >= 1;
    }
  }

  /** When address a gets nothing. */
  lemma ReceivedNothing(list: seq<Address>, fee: nat, lucky: nat, a: Address)
    requires list != [] && Distinct(list) && lucky < |list|
    ensures Received(list, fee, lucky, |list|, a) == 0
       <==> a !in list || fee == 0 || (fee < |list| && list[lucky] != a)
  {
    hide Share, Received;
    ReceivedShare(list, fee, lucky, |list|, a);
    assert list[..|list|] == list;
    if a in list {
      var i :| 0 <= i < |list| && list[i] == a;
      ShareOfNothing(fee, |list|, lucky, i);
    }
  }

  // ---------------------------------------------------------------- fees

  /** A rate in parts of MAX_FEE of a value, rounded down. */
  function FeeOf(value: nat, rate: nat): nat {
    value * rate / MAX_FEE
  }

  /** The fee is the largest amount within the rate, and less than any positive value. */
  lemma FeeIsRoundedDown(value: nat, rate: nat)
    requires rate < MAX_FEE
    ensures var fee := FeeOf(value, rate);
            && fee * MAX_FEE <= value * rate < (fee + 1) * MAX_FEE
            && fee <= value && (value > 0 ==> fee < value)
  {
    var fee := FeeOf(value, rate);
    if fee >= value && value > 0 {
      MulRate(value, rate);
    }
  }

  lemma MulRate(value: nat, rate: nat)
    requires value > 0 && rate < MAX_FEE
    ensures value * rate < value * MAX_FEE
  {
  }

  ghost predicate ValidList(list: seq<Address>, mediator: Address) {
    |list| <= MAX_REWARD_ACCOUNTS && Distinct(list) && forall i | 0 <= i < |list| :: list[i] != 0 && list[i] != mediator
  }

  /** The checks of the constructor, each account against all before it. */
  method CheckRewardList(list: seq<Address>, mediator: Address) returns (ok: bool)
    ensures ok <==> ValidList(list, mediator)
  {
    if |list| > MAX_REWARD_ACCOUNTS {
      return false;
    }
    for i := 0 to |list|
      invariant forall k | 0 <= k < i :: list[k] != 0 && list[k] != mediator
      invariant Distinct(list[..i])
    {
      if list[i] == 0 || list[i] == mediator {
        return false;
      }
      for j := 0 to i
        invariant list[i] !in list[..j]
      {
        if list[j] == list[i] {
          return false;
        }
      }
      assert list[..i + 1] == list[..i] + [list[i]];
    }
    assert list[..|list|] == list;
    return true;
  }

  class OmnibridgeFeeManager {
    const me: Address
    const owner: Address
    const mediator: Address
    var fees: map<(FeeType, Address), nat>
    var rewardAddresses: seq<Address>

    /** Balances of the token that fees are distributed in. */
    var balances: map<Address, nat>

    /** Default rates are set, rates are below 100%, and no account is listed twice. */
    ghost predicate Valid()
      reads this
    {
      && (forall t: FeeType :: (t, 0) in fees)
      && (forall e | e in fees :: 1 <= fees[e] <= MAX_FEE)
      && Distinct(rewardAddresses) && |rewardAddresses| <= MAX_REWARD_ACCOUNTS
    }

    function BalanceOf(a: Address): nat
      reads this
    {
      if a in balances then balances[a] else 0
    }

    /** The reward list has passed CheckRewardList; any other list fails the deployment. */
    constructor (self: Address, contractOwner: Address, bridge: Address, list: seq<Address>, homeToForeign: nat,
                 foreignToHome: nat)
      requires homeToForeign < MAX_FEE && foreignToHome < MAX_FEE && ValidList(list, bridge)
      ensures Valid() && rewardAddresses == list && balances == map[]
      ensures me == self && owner == contractOwner && mediator == bridge
      ensures fees == map[(HomeToForeign, 0) := 1 + homeToForeign, (ForeignToHome, 0) := 1 + foreignToHome]
      ensures forall token :: GetFee(HomeToForeign, token) == homeToForeign
      ensures forall token :: GetFee(ForeignToHome, token) == foreignToHome
    {
      me, owner, mediator := self, contractOwner, bridge;
      fees := map[(HomeToForeign, 0) := 1 + homeToForeign, (ForeignToHome, 0) := 1 + foreignToHome];
      rewardAddresses, balances := list, map[];
      new;
      forall t: FeeType ensures (t, 0) in fees {
        assert t.HomeToForeign? || t.ForeignToHome?;
      }
    }

    /**
     * A rate of 0 is stored as 1, so that it can override the default. It is then in force in this direction for the
     * token, or, as a default (token 0), for all tokens without a rate of their own, and for nothing else.
     */
    method SetFee(sender: Address, t: FeeType, token: Address, rate: nat) returns (ok: bool)
      requires Valid()
      modifies `fees
      ensures Valid()
      ensures ok <==> sender == owner && rate < MAX_FEE
      ensures fees == if ok then old(fees)[(t, token) := 1 + rate] else old(fees)
      ensures ok ==> forall d, x ::
                GetFee(d, x) == if d == t && (x == token || (token == 0 && (t, x) !in old(fees))) then rate
                                else old(GetFee(d, x))
    {
      if sender != owner || rate >= MAX_FEE {
        return false;
      }
      fees := fees[(t, token) := 1 + rate];
      return true;
    }

    function GetFee(t: FeeType, token: Address): (rate: nat)
      requires Valid()
      reads this
      ensures rate < MAX_FEE
      ensures (t, token) in fees ==> fees[(t, token)] == 1 + rate
      ensures (t, token) !in fees ==> fees[(t, 0)] == 1 + rate
    {
      if (t, token) in fees then fees[(t, token)] - 1
      else
        match t
        case HomeToForeign => fees[(HomeToForeign, 0)] - 1
        case ForeignToHome => fees[(ForeignToHome, 0)] - 1
    }

    /** The rate that was set last for a token is the rate in force. */
    lemma LastRateCounts(t: FeeType, token: Address, rate: nat)
      requires Valid() && (t, token) in fees && fees[(t, token)] == 1 + rate
      ensures GetFee(t, token) == rate
    {
    }

    /** A token without a rate of its own has the default rate of the direction. */
    lemma DefaultCounts(t: FeeType, token: Address)
      requires Valid() && (t, token) !in fees
      ensures GetFee(t, token) == GetFee(t, 0)
    {
    }

    /** None is an overflow of the product. */
    method CalculateFee(t: FeeType, token: Address, value: nat) returns (fee: Option<nat>)
      requires Valid()
      ensures rewardAddresses == [] ==> fee == Some(0)
      ensures rewardAddresses != [] ==>
                fee == if value * GetFee(t, token) < TWO_256 then Some(FeeOf(value, GetFee(t, token))) else None
      ensures fee.Some? ==> fee.value <= value && (value > 0 ==> fee.value < value)
      ensures rewardAddresses != [] && fee.Some? ==>
                var r := if (t, token) in fees then fees[(t, token)] - 1 else fees[(t, 0)] - 1;
                fee.value * MAX_FEE <= value * r < (fee.value + 1) * MAX_FEE
    {
      if |rewardAddresses| == 0 {
        return Some(0);
      }
      var rate := GetFee(t, token);
      FeeIsRoundedDown(value, rate);
      if value * rate >= TWO_256 {
        return None;
      }
      return Some(value * rate / MAX_FEE);
    }

    method IsRewardAddress(addr: Address) returns (listed: bool)
      ensures listed <==> addr in rewardAddresses
    {
      for i := 0 to |rewardAddresses|
        invariant addr !in rewardAddresses[..i]
      {
        if rewardAddresses[i] == addr {
          return true;
        }
      }
      return false;
    }

    method AddRewardAddress(sender: Address, addr: Address) returns (ok: bool)
      requires Valid()
      modifies `rewardAddresses
      ensures Valid()
      ensures ok <==> sender == owner && addr != 0 && addr != mediator && addr !in old(rewardAddresses)
                      && |old(rewardAddresses)| < MAX_REWARD_ACCOUNTS
      ensures rewardAddresses == if ok then old(rewardAddresses) + [addr] else old(rewardAddresses)
    {
      var listed := IsRewardAddress(addr);
      if sender != owner || addr == 0 || addr == mediator || listed || |rewardAddresses| >= MAX_REWARD_ACCOUNTS {
        return false;
      }
      rewardAddresses := rewardAddresses + [addr];
      return true;
    }

    /** The last account takes the place of the removed one. */
    method RemoveRewardAddress(sender: Address, addr: Address) returns (ok: bool)
      requires Valid()
      modifies `rewardAddresses
      ensures Valid()
      ensures ok <==> sender == owner && addr in old(rewardAddresses)
      ensures multiset(rewardAddresses)
              == if ok then multiset(old(rewardAddresses)) - multiset{addr} else multiset(old(rewardAddresses))
    {
      if sender != owner {
        return false;
      }
      var n := |rewardAddresses|;
      for i := 0 to n
        invariant rewardAddresses == old(rewardAddresses)
        invariant forall k | 0 <= k < i :: rewardAddresses[k] != addr
      {
        if rewardAddresses[i] == addr {
          RemoveAt(i);
          return true;
        }
      }
      return false;
    }

    method RemoveAt(i: nat)
      requires Valid() && i < |rewardAddresses|
      modifies `rewardAddresses
      ensures Valid() && multiset(rewardAddresses) == multiset(old(rewardAddresses)) - multiset{old(rewardAddresses)[i]}
    {
      SwapOut(rewardAddresses, i);
      rewardAddresses := rewardAddresses[i := rewardAddresses[|rewardAddresses| - 1]][..|rewardAddresses| - 1];
    }

    /**
     * Pays out the manager's balance, unless there is nobody to pay or the token refuses to pay one of the accounts.
     * All of it leaves if and only if the manager is no reward account itself, or has nothing to get as one.
     */
    method DistributeFee(sender: Address, random: nat, refused: set<Address>) returns (ok: bool)
      requires Valid()
      modifies `balances
      ensures ok <==> sender == mediator && rewardAddresses != []
                      && forall i | 0 <= i < |rewardAddresses| :: rewardAddresses[i] !in refused
      ensures !ok ==> balances == old(balances)
      ensures ok ==> forall a: Address ::
                BalanceOf(a) == (if a == me then 0 else old(BalanceOf(a)))
                                + Received(rewardAddresses, old(BalanceOf(me)), random % |rewardAddresses|,
                                           |rewardAddresses|, a)
      ensures ok ==> var fee, n := old(BalanceOf(me)), |rewardAddresses|;
              BalanceOf(me) == 0
              <==> me !in rewardAddresses || fee == 0 || (fee < n && rewardAddresses[random % n] != me)
    {
      if sender != mediator || |rewardAddresses| == 0 {
        return false;
      }
      hide Share, Received, TotalShares;
      var n, fee, before := |rewardAddresses|, BalanceOf(me), balances;
      ok := PayShares(fee, random % n, refused);
      if ok {
        SharesAddUp(fee, n, random % n);
        ReceivedNothing(rewardAddresses, fee, random % n, me);
      } else {
        balances := before;
      }
    }

    /** Pays one account after the other, up to the first that is refused. */
    method PayShares(fee: nat, lucky: nat, refused: set<Address>) returns (ok: bool)
      requires rewardAddresses != [] && lucky < |rewardAddresses| && fee == BalanceOf(me)
      modifies `balances
      ensures ok <==> forall i | 0 <= i < |rewardAddresses| :: rewardAddresses[i] !in refused
      ensures ok ==> forall a: Address :: BalanceOf(a) == Expected(a, old(balances), fee, lucky, |rewardAddresses|)
    {
      var n := |rewardAddresses|;
      var feePerAccount := fee / n;
      var diff := fee - feePerAccount * n;
      assert diff == fee % n;
      SharesAddUp(fee, n, lucky);
      for i := 0 to n
        invariant forall k | 0 <= k < i :: rewardAddresses[k] !in refused
        invariant forall a: Address :: BalanceOf(a) == Expected(a, old(balances), fee, lucky, i)
      {
        if rewardAddresses[i] in refused {
          return false;
        }
        var feeToDistribute := feePerAccount;
        if diff > 0 && lucky == i {
          feeToDistribute := feeToDistribute + diff;
        }
        SharesGrow(fee, n, lucky, i + 1, n);
        Transfer(rewardAddresses[i], feeToDistribute);
      }
      return true;
    }

    /** Balances after the first k accounts were paid. */
    ghost function Expected(a: Address, before: map<Address, nat>, fee: nat, lucky: nat, k: nat): int
      requires k <= |rewardAddresses| && rewardAddresses != []
      reads this
    {
      (if a in before then before[a] else 0) + Received(rewardAddresses, fee, lucky, k, a)
      - if a == me then TotalShares(fee, |rewardAddresses|, lucky, k) else 0
    }

    /** safeTransfer from the manager's own balance. */
    method Transfer(to: Address, value: nat)
      requires value <= BalanceOf(me)
      modifies `balances
      ensures forall a: Address ::
                BalanceOf(a) == old(BalanceOf(a)) - (if a == me then value else 0) + (if a == to then value else 0)
    {
      balances := balances[me := BalanceOf(me) - value];
      balances := balances[to := BalanceOf(to) + value];
    }
  }

  lemma SwapOut(list: seq<Address>, i: nat)
    requires i < |list| && Distinct(list)
    ensures var rest := list[i := list[|list| - 1]][..|list| - 1];
            Distinct(rest) && multiset(rest) == multiset(list) - multiset{list[i]}
  {
    var n := |list|;
    var rest := list[i := list[n - 1]][..n - 1];
    assert list == list[..n - 1] + [list[n - 1]];
    if i < n - 1 {
      assert rest == list[..n - 1][i := list[n - 1]];
    }
  }

  /** The manager 3 is one of two reward accounts: of 10 it distributes, 5 stay with it. */
  method ListedManagerKeepsShare() returns (left: nat, paid: nat)
    ensures left == 5 && paid == 5
  {
    var m := new OmnibridgeFeeManager(3, 1, 2, [3, 4], 0, 0);
    m.balances := map[3 := 10];
    var ok := m.DistributeFee(2, 0, {});
    HalfEach();
    left, paid := m.BalanceOf(3), m.BalanceOf(4);
  }

  /** With 1% out and 2% back a token costs 1 of 100 and 2 of 100, and 3 on the way out after its own rate was set. */
  method EachWayItsRate(token: Address) returns (out: Option<nat>, back: Option<nat>, own: Option<nat>)
    requires token != 0
    ensures out == Some(1) && back == Some(2) && own == Some(3)
  {
    hide FeeOf;
    var percent := 10_000_000_000_000_000;
    var m := new OmnibridgeFeeManager(3, 1, 2, [4], percent, 2 * percent);
    out := m.CalculateFee(HomeToForeign, token, 100);
    var ok := m.SetFee(1, HomeToForeign, token, 3 * percent);
    own := m.CalculateFee(HomeToForeign, token, 100);
    back := m.CalculateFee(ForeignToHome, token, 100);
  }

  lemma HalfEach()
    ensures Received([3, 4], 10, 0, 2, 3) == 5 && Received([3, 4], 10, 0, 2, 4) == 5
  {
    assert Received([3, 4], 10, 0, 1, 3) == 5 && Received([3, 4], 10, 0, 1, 4) == 0;
  }
}
