/**
 * The agent rule both generations share: a CSV row has two optional agent
 * slots (a name and a phone each), and a slot yields an agent only when
 * both its name and its phone are non-blank. Kept slots stay in slot order.
 */
module AgentSlots {
  import opened Common

  datatype AgentSlot = AgentSlot(name: Option<string>, phone: Option<string>)

  predicate IsComplete(slot: AgentSlot) {
    !IsNullOrWhiteSpace(slot.name) && !IsNullOrWhiteSpace(slot.phone)
  }

  /** The slots that yield an agent, in their original order. */
  function KeptSlots(slots: seq<AgentSlot>): (kept: seq<AgentSlot>)
    ensures |kept| <= |slots|
    ensures forall k | 0 <= k < |kept| :: IsComplete(kept[k]) && kept[k] in slots
  {
    if slots == [] then []
    else (if IsComplete(slots[0]) then [slots[0]] else []) + KeptSlots(slots[1..])
  }

  /** Filtering distributes over concatenation, so kept slots keep their relative order. */
  lemma {:induction false} KeptSlotsAppend(a: seq<AgentSlot>, b: seq<AgentSlot>)
    ensures KeptSlots(a + b) == KeptSlots(a) + KeptSlots(b)
  {
    if a == [] {
      assert a + b == b;
    } else {
      assert (a + b)[0] == a[0];
      assert (a + b)[1..] == a[1..] + b;
      KeptSlotsAppend(a[1..], b);
    }
  }

  /** A slot is kept exactly when it is complete. */
  lemma {:induction false} KeptIffComplete(slots: seq<AgentSlot>, s: AgentSlot)
    ensures s in KeptSlots(slots) <==> s in slots && IsComplete(s)
  {
    if slots != [] {
      KeptIffComplete(slots[1..], s);
      assert slots == [slots[0]] + slots[1..];
    }
  }

  /** With the two CSV slots: at most two agents, slot 1 before slot 2, each kept iff complete. */
  lemma TwoSlots(slot1: AgentSlot, slot2: AgentSlot)
    ensures var kept := KeptSlots([slot1, slot2]);
      |kept| <= 2 &&
      (|kept| == 2 <==> IsComplete(slot1) && IsComplete(slot2)) &&
      (|kept| > 0 && kept[0] == slot1 <== IsComplete(slot1)) &&
      (kept == [] <==> !IsComplete(slot1) && !IsComplete(slot2)) &&
      (IsComplete(slot2) ==> kept[|kept| - 1] == slot2)
  {
    assert [slot1, slot2][1..] == [slot2];
    assert [slot2][1..] == [];
  }
}
