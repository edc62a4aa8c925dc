/** The dashboard's two toggle lists: opened gifts and flipped memory cards.
    Toggling an id removes it when present and appends it when absent. */
module Dashboard {
  import opened Lists

  /** `prev.includes(id) ? prev.filter(x => x !== id) : [...prev, id]` */
  function Toggle(list: seq<int>, id: int): seq<int>
  {
    if id in list then RemoveAll(list, id) else list + [id]
  }

  /** An absent id goes at the end; the list before it is untouched. */
  lemma ToggleAbsent(list: seq<int>, id: int)
    requires id !in list
    ensures Toggle(list, id) == list + [id]
  {
  }

  /** A present id is removed everywhere, and the others keep their order:
      removing from a concatenation removes from each part. */
  lemma TogglePresent(list: seq<int>, id: int, a: seq<int>, b: seq<int>)
    requires id in list && list == a + b
    ensures id !in Toggle(list, id)
    ensures Toggle(list, id) == RemoveAll(a, id) + RemoveAll(b, id)
  {
    RemoveAllAppend(a, b, id);
  }

  /** A toggle flips the membership of the toggled id and of no other id. */
  lemma ToggleFlipsMembership(list: seq<int>, id: int, other: int)
    ensures (id in Toggle(list, id)) == (id !in list)
    ensures other != id ==> (other in Toggle(list, id) <==> other in list)
  {
    if other != id && id in list {
      RemoveAllMember(list, id, other);
    }
  }

  /** Toggling an absent id twice gives the list back. */
  lemma {:induction false} ToggleTwice(list: seq<int>, id: int)
    requires id !in list
    ensures Toggle(Toggle(list, id), id) == list
  {
    RemoveAllAppend(list, [id], id);
    RemoveAbsent(list, id);
  }

  /** A duplicate-free list stays duplicate-free. */
  lemma ToggleKeepsDistinct(list: seq<int>, id: int)
    requires Distinct(list)
    ensures Distinct(Toggle(list, id))
  {
    if id in list {
      RemoveAllDistinct(list, id);
    }
  }

  /** The component's state: the two lists live side by side. */
  datatype State = State(openedGifts: seq<int>, flippedMemories: seq<int>)

  /** `toggleGift`: only the gift list changes. */
  function ToggleGift(st: State, id: int): (r: State)
    ensures r.flippedMemories == st.flippedMemories
    ensures (id in r.openedGifts) == (id !in st.openedGifts)
  {
    st.(openedGifts := Toggle(st.openedGifts, id))
  }

  /** `toggleMemoryFlip`: only the memory list changes. */
  function ToggleMemoryFlip(st: State, id: int): (r: State)
    ensures r.openedGifts == st.openedGifts
    ensures (id in r.flippedMemories) == (id !in st.flippedMemories)
  {
    st.(flippedMemories := Toggle(st.flippedMemories, id))
  }

  /** The two toggles commute: neither list sees the other's updates. */
  lemma TogglesIndependent(st: State, g: int, m: int)
    ensures ToggleGift(ToggleMemoryFlip(st, m), g) == ToggleMemoryFlip(ToggleGift(st, g), m)
  {
  }
}
