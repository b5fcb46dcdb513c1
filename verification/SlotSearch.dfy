/** The search for the beacon slot of an execution block: a bisection that probes its way around empty slots. */
module SlotSearch {
  import opened Words

  /** Blocks by slot, each with the number of its execution payload, if it has one. Other slots are empty. */
  type Blocks = map<nat, Option<nat>>

  /** A block before the target; a missing payload counts as such. */
  predicate Before(payload: Option<nat>, target: nat) {
    payload == None || payload.value < target
  }

  /** Payload numbers never decrease along the blocks. */
  ghost predicate Ordered(blocks: Blocks, target: nat) {
    forall i, j | i in blocks && j in blocks && i < j :: Before(blocks[j], target) ==> Before(blocks[i], target)
  }

  ghost predicate Empty(blocks: Blocks, lo: int, hi: int) {
    forall j: nat | lo <= j < hi :: j !in blocks
  }

  /** The lowest slot from start on whose block has at least the target number. */
  ghost predicate IsAnswer(blocks: Blocks, start: nat, target: nat, slot: nat) {
    && start <= slot && slot in blocks && !Before(blocks[slot], target)
    && forall j: nat | start <= j < slot && j in blocks :: Before(blocks[j], target)
  }

  /** The number of empty slots right below a slot, down to start. */
  function Gap(blocks: Blocks, start: nat, slot: nat): nat {
    if slot <= start || slot - 1 in blocks then 0 else 1 + Gap(blocks, start, slot - 1)
  }

  lemma {:induction false} GapBelow(blocks: Blocks, start: nat, l: nat, slot: nat)
    requires start <= l <= slot && Empty(blocks, l, slot)
    requires l == start || l - 1 in blocks
    ensures Gap(blocks, start, slot) == slot - l
  {
    if l < slot {
      GapBelow(blocks, start, l, slot - 1);
    }
  }

  lemma {:induction false} GapIsEmpty(blocks: Blocks, start: nat, slot: nat)
    requires start <= slot
    ensures Gap(blocks, start, slot) <= slot - start
    ensures Empty(blocks, slot - Gap(blocks, start, slot), slot)
  {
    if slot > start && slot - 1 !in blocks {
      GapIsEmpty(blocks, start, slot - 1);
    }
  }

  // ---------------------------------------------------------------- probing

  /** Where the s-th probe lies, relative to the middle: 0, -1, 1, -2, 2, ... */
  function Offset(s: nat): int
    requires s >= 1
  {
    if s % 2 == 1 then s / 2 else -(s / 2)
  }

  /**
   * Probes around the middle of l .. r until it hits a block or leaves the range. It leaves it only if all slots
   * below r are empty and their number is odd; if that number is even, it ends at r itself.
   */
  method Probe(blocks: Blocks, l: nat, r: nat) returns (m: int)
    requires l < r && r in blocks
    ensures l <= m <= r ==> m in blocks
    ensures m == r ==> (r - l) % 2 == 0 && Empty(blocks, l, r)
    ensures !(l <= m <= r) ==> (r - l) % 2 == 1 && Empty(blocks, l, r)
  {
    m := (l + r) / 2;
    ghost var mid := (l + r) / 2;
    var s: nat := 1;
    while l <= m <= r && m !in blocks
      invariant s >= 1 && m == mid + Offset(s) && l <= mid - (s - 1) / 2 && mid + s / 2 <= r + 1
      invariant Empty(blocks, mid - (s - 1) / 2, mid + s / 2)
      decreases 2 * (r - l) + 3 - s
    {
      ProbeStep(blocks, mid, s);
      if s % 2 == 0 {
        m := m + s;
      } else {
        m := m - s;
      }
      s := s + 1;
    }
    ProbeEnd(blocks, l, r, mid, s);
  }

  lemma ProbeStep(blocks: Blocks, mid: nat, s: nat)
    requires s >= 1 && Empty(blocks, mid - (s - 1) / 2, mid + s / 2)
    requires mid + Offset(s) >= 0 && mid + Offset(s) !in blocks
    ensures Offset(s + 1) == if s % 2 == 0 then Offset(s) + s else Offset(s) - s
    ensures Empty(blocks, mid - s / 2, mid + (s + 1) / 2)
  {
  }

  lemma ProbeEnd(blocks: Blocks, l: nat, r: nat, mid: nat, s: nat)
    requires l < r && r in blocks && mid == (l + r) / 2 && s >= 1
    requires Empty(blocks, mid - (s - 1) / 2, mid + s / 2) && l <= mid - (s - 1) / 2
    ensures var m := mid + Offset(s);
            && (m == r ==> (r - l) % 2 == 0 && Empty(blocks, l, r))
            && (!(l <= m <= r) ==> (r - l) % 2 == 1 && Empty(blocks, l, r))
  {
  }

  // ---------------------------------------------------------------- the search

  /** The least slot in start .. head that answers the search. */
  lemma {:induction false} Answer(blocks: Blocks, start: nat, target: nat, head: nat) returns (a: nat)
    requires start <= head && head in blocks && !Before(blocks[head], target)
    ensures IsAnswer(blocks, start, target, a) && a <= head
    decreases head - start
  {
    if start in blocks && !Before(blocks[start], target) {
      a := start;
    } else {
      a := Answer(blocks, start + 1, target, head);
    }
  }

  lemma OneAnswer(blocks: Blocks, start: nat, target: nat, a: nat)
    requires IsAnswer(blocks, start, target, a)
    ensures forall b | IsAnswer(blocks, start, target, b) :: b == a
  {
  }

  /** The answer a lies between l and r; all slots below l are known to come before it. */
  ghost predicate Bracket(blocks: Blocks, start: nat, target: nat, l: nat, r: nat, a: nat) {
    && start <= l <= a <= r && r in blocks && !Before(blocks[r], target) && IsAnswer(blocks, start, target, a)
    && (l == r || l == start || l - 1 in blocks)
  }

  /** One round of the search. It makes progress unless the search is stuck for good. */
  method Round(blocks: Blocks, start: nat, target: nat, l: nat, r: nat, ghost a: nat) returns (l': nat, r': nat)
    requires Ordered(blocks, target) && Bracket(blocks, start, target, l, r, a) && l < r
    ensures Bracket(blocks, start, target, l', r', a)
    ensures if Settles(blocks, start, a) then r' - l' < r - l else l' < r'
  {
    var m := Probe(blocks, l, r);
    l', r' := l, r;
    if m < l || m > r {
      l' := r;
    } else if Before(blocks[m], target) {
      l' := m + 1;
    } else {
      r' := m;
    }
    RoundGap(blocks, start, target, l, r, a);
    assert a < r ==> !Empty(blocks, l, r);
  }

  /** If only empty slots are left below the answer, all of them are. */
  lemma RoundGap(blocks: Blocks, start: nat, target: nat, l: nat, r: nat, a: nat)
    requires Bracket(blocks, start, target, l, r, a) && l < r
    ensures Empty(blocks, l, r) ==> a == r && Gap(blocks, start, a) == r - l
    ensures a == l ==> Gap(blocks, start, a) == 0
  {
    if Empty(blocks, l, r) {
      GapBelow(blocks, start, l, r);
    }
  }

  datatype Result = Found(slot: nat) | Error | Running

  /** The search ends when no slots, or an odd number of slots, are empty right below its answer. */
  predicate Settles(blocks: Blocks, start: nat, slot: nat) {
    Gap(blocks, start, slot) == 0 || Gap(blocks, start, slot) % 2 == 1
  }

  /** With no two adjacent empty slots the search always ends. */
  lemma SettlesWithoutAdjacentGaps(blocks: Blocks, start: nat, slot: nat)
    requires start <= slot && forall j: nat | start <= j && j + 1 < slot :: j in blocks || j + 1 in blocks
    ensures Settles(blocks, start, slot)
  {
    GapIsEmpty(blocks, start, slot);
    if Gap(blocks, start, slot) >= 2 {
      assert slot - 2 in blocks || slot - 2 + 1 in blocks;
    }
  }

  /** Two empty slots below the answer: slots 0 and 3 hold payloads 1 and 5, and the target is 2. */
  lemma StuckOnTwoEmptySlots()
    ensures var blocks: Blocks := map[0 := Some(1), 3 := Some(5)];
            Ordered(blocks, 2) && IsAnswer(blocks, 0, 2, 3) && !Settles(blocks, 0, 3)
  {
    var blocks: Blocks := map[0 := Some(1), 3 := Some(5)];
    assert Gap(blocks, 0, 1) == 0;
    assert Gap(blocks, 0, 2) == 1;
    assert Gap(blocks, 0, 3) == 2;
  }

  /**
   * Runs the given number of rounds of the search, Running if it is not over by then. What it finds is the answer.
   * It finds it within the first rounds, or else never, depending on the empty slots right below the answer.
   */
  method FindSlot(blocks: Blocks, start: nat, head: nat, target: nat, rounds: nat) returns (res: Result)
    requires head in blocks && Ordered(blocks, target)
    ensures res == Error <==> Before(blocks[head], target)
    ensures start > head && res != Error ==> res == Found(start)
    ensures start <= head && res.Found? ==> IsAnswer(blocks, start, target, res.slot)
    ensures forall a: nat | start <= head && IsAnswer(blocks, start, target, a) && !Settles(blocks, start, a) ::
              !res.Found?
    ensures forall a: nat | start <= head && IsAnswer(blocks, start, target, a) && Settles(blocks, start, a) ::
              res == Error || rounds < head - start || res == Found(a)
  {
    if Before(blocks[head], target) {
      return Error;
    }
    if start >= head {
      return Found(start);
    }
    ghost var a := Answer(blocks, start, target, head);
    var l: nat, r: nat := start, head;
    var round: nat := 0;
    while l < r && round < rounds
      invariant Bracket(blocks, start, target, l, r, a) == true
      invariant !Settles(blocks, start, a) ==> l < r
      invariant Settles(blocks, start, a) ==> r - l <= head - start - round
      decreases rounds - round
    {
      l, r := Round(blocks, start, target, l, r, a);
      round := round + 1;
    }
    OneAnswer(blocks, start, target, a);
    res := if l < r then Running else Found(l);
  }

  /** The search from slot 0 on over those two empty slots is not over after any number of rounds. */
  method SearchOverTwoEmptySlots(rounds: nat) returns (res: Result)
    ensures res == Running
  {
    StuckOnTwoEmptySlots();
    res := FindSlot(map[0 := Some(1), 3 := Some(5)], 0, 3, 2, rounds);
  }
}
