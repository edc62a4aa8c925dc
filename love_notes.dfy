/** The love-note wall: each envelope opens once and stays open; the way on
    unlocks when every note has been read. */
module LoveNotes {
  import opened Lists

  /** The ids of the four notes, in the order they are listed. */
  const NoteIds: seq<int> := [1, 2, 3, 4]

  /** `toggleNote`: an unrevealed id is appended; a revealed one is ignored. */
  function Reveal(revealed: seq<int>, id: int): seq<int>
  {
    if id !in revealed then revealed + [id] else revealed
  }

  /** `allRevealed`: as many ids revealed as there are notes. */
  predicate AllRevealed(revealed: seq<int>)
  {
    |revealed| == |NoteIds|
  }

  /** The "left to read" count shown while the way on is locked. */
  function Left(revealed: seq<int>): int
  {
    |NoteIds| - |revealed|
  }

  /** Revealing an unrevealed id appends it; a revealed one changes nothing. */
  lemma RevealCases(revealed: seq<int>, id: int)
    ensures id !in revealed ==> Reveal(revealed, id) == revealed + [id]
    ensures id in revealed ==> Reveal(revealed, id) == revealed
  {
  }

  /** Revealing twice is revealing once. */
  lemma RevealIdempotent(revealed: seq<int>, id: int)
    ensures Reveal(Reveal(revealed, id), id) == Reveal(revealed, id)
  {
  }

  /** Nothing is ever un-revealed, the id is revealed afterwards, and the
      list stays duplicate-free. */
  lemma RevealGrows(revealed: seq<int>, id: int)
    ensures revealed <= Reveal(revealed, id)
    ensures id in Reveal(revealed, id)
    ensures Distinct(revealed) ==> Distinct(Reveal(revealed, id))
  {
  }

  /** What the component can reach: distinct ids, all of them note ids. */
  ghost predicate Reachable(revealed: seq<int>)
  {
    Distinct(revealed) && forall i :: 0 <= i < |revealed| ==> revealed[i] in NoteIds
  }

  /** Clicking a note keeps the list reachable. */
  lemma RevealReachable(revealed: seq<int>, id: int)
    requires Reachable(revealed) && id in NoteIds
    ensures Reachable(Reveal(revealed, id))
  {
  }

  /** The ids of a duplicate-free sequence form a set of the same size. */
  lemma {:induction false} DistinctCard(s: seq<int>)
    requires Distinct(s)
    ensures |set x | x in s| == |s|
  {
    if s != [] {
      var t := s[..|s| - 1];
      var last := s[|s| - 1];
      assert Distinct(t);
      DistinctCard(t);
      assert s == t + [last];
      assert last !in t;
      assert (set x | x in s) == (set x | x in t) + {last};
    }
  }

  /** For a reachable list the count never goes negative, and the way on
      unlocks exactly when every note has been revealed. */
  lemma LeftAndAllRevealed(revealed: seq<int>)
    requires Reachable(revealed)
    ensures Left(revealed) >= 0
    ensures AllRevealed(revealed) <==> forall id :: id in NoteIds ==> id in revealed
  {
    var ids := set x | x in revealed;
    var notes := {1, 2, 3, 4};
    DistinctCard(revealed);
    assert ids <= notes;
    assert |notes| == 4;
    assert notes == ids + (notes - ids) && ids !! (notes - ids);
    assert |ids| <= 4;
    if forall id :: id in NoteIds ==> id in revealed {
      assert notes <= ids;
    }
  }
}
