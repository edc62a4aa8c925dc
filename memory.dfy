/** The card-matching mini-game: sixteen face-down cards, two per icon.  A click
    turns a card face up; with two cards up the board locks until a delayed
    resolution either marks the pair matched or turns both face down again. */
module Memory {
  import opened Lists

  /** The number of distinct icons, and the deck size: every icon twice. */
  const IconCount: int := 8
  const DeckSize: int := 2 * IconCount

  datatype Card = Card(id: int, iconIndex: int, isFlipped: bool, isMatched: bool)

  /** The timeout a second click schedules, with the pair it will resolve. */
  datatype Pending = Idle | MatchDue(first: int, second: int) | MismatchDue(first: int, second: int)

  /** Everything the component keeps: the deck, the face-up unmatched cards in
      click order, the lock, and the scheduled resolution. */
  datatype Board = Board(cards: seq<Card>, flippedIndices: seq<int>, isLocked: bool, pending: Pending)

  /** A random-comparator shuffle is taken to be some permutation of the
      sixteen positions of the doubled icon list. */
  predicate IsShuffle(perm: seq<int>)
  {
    && |perm| == DeckSize
    && Distinct(perm)
    && (forall k :: 0 <= k < |perm| ==> 0 <= perm[k] < DeckSize)
    && (forall v :: 0 <= v < DeckSize ==> v in perm)
  }

  /** The dealt deck: card `k` shows the icon at shuffled position `k`, found
      again in the icon list, which for the doubled list is `perm[k] % 8`. */
  function InitialDeck(perm: seq<int>): seq<Card>
    requires |perm| == DeckSize
  {
    seq(DeckSize, k requires 0 <= k < DeckSize => Card(k, perm[k] % IconCount, false, false))
  }

  /** The positions showing an icon. */
  function IconPositions(cards: seq<Card>, icon: int): set<int>
  {
    set k | 0 <= k < |cards| && cards[k].iconIndex == icon
  }

  /** `isGameWon`: a dealt deck with every card matched. */
  predicate Won(cards: seq<Card>)
  {
    |cards| > 0 && forall k :: 0 <= k < |cards| ==> cards[k].isMatched
  }

  /** What every reachable board satisfies. */
  predicate Inv(b: Board)
  {
    && (forall k :: 0 <= k < |b.cards| ==> b.cards[k].isMatched ==> b.cards[k].isFlipped)
    && (forall k :: 0 <= k < |b.cards| ==>
          (k in b.flippedIndices <==> b.cards[k].isFlipped && !b.cards[k].isMatched))
    && IndicesInRange(b)
    && Distinct(b.flippedIndices) && |b.flippedIndices| <= 2
    && (b.isLocked <==> |b.flippedIndices| == 2)
    && (b.pending.Idle? <==> !b.isLocked)
    && PendingInRange(b)
    && (b.pending.MatchDue? ==>
          b.flippedIndices == [b.pending.first, b.pending.second] &&
          b.cards[b.pending.first].iconIndex == b.cards[b.pending.second].iconIndex)
    && (b.pending.MismatchDue? ==>
          b.flippedIndices == [b.pending.first, b.pending.second] &&
          b.cards[b.pending.first].iconIndex != b.cards[b.pending.second].iconIndex)
  }

  /** `handleCardClick`: ignored while locked or on a face-up or matched card;
      otherwise the card turns up and its index is appended, and a second card
      locks the board and schedules the resolution its icons call for. */
  function AfterClick(b: Board, index: int): Board
    requires 0 <= index < |b.cards| && IndicesInRange(b)
  {
    if b.isLocked || b.cards[index].isFlipped || b.cards[index].isMatched then b
    else
      var cards := b.cards[index := b.cards[index].(isFlipped := true)];
      var flipped := b.flippedIndices + [index];
      if |flipped| == 2 then
        var first, second := flipped[0], flipped[1];
        Board(cards, flipped, true,
              if cards[first].iconIndex == cards[second].iconIndex then MatchDue(first, second)
              else MismatchDue(first, second))
      else
        Board(cards, flipped, b.isLocked, b.pending)
  }

  /** The recorded face-up indices lie inside the deck. */
  predicate IndicesInRange(b: Board)
  {
    forall i :: 0 <= i < |b.flippedIndices| ==> 0 <= b.flippedIndices[i] < |b.cards|
  }

  /** The pair a scheduled resolution names lies inside the deck. */
  predicate PendingInRange(b: Board)
  {
    !b.pending.Idle? ==> 0 <= b.pending.first < |b.cards| && 0 <= b.pending.second < |b.cards|
  }

  /** The timeout callback: a match marks both cards matched, a mismatch turns
      both face down; either way the list empties and the board unlocks. */
  function AfterTimeout(b: Board): Board
    requires PendingInRange(b)
  {
    match b.pending
    case Idle => b
    case MatchDue(first, second) =>
      var c1 := b.cards[first := b.cards[first].(isMatched := true)];
      var c2 := c1[second := c1[second].(isMatched := true)];
      Board(c2, [], false, Idle)
    case MismatchDue(first, second) =>
      var c1 := b.cards[first := b.cards[first].(isFlipped := false)];
      var c2 := c1[second := c1[second].(isFlipped := false)];
      Board(c2, [], false, Idle)
  }

  /** The dealt deck has sixteen face-down unmatched cards with ids 0..15 and
      icon indices 0..7. */
  lemma DeckShape(perm: seq<int>)
    requires IsShuffle(perm)
    ensures |InitialDeck(perm)| == DeckSize
    ensures forall k :: 0 <= k < DeckSize ==>
      var c := InitialDeck(perm)[k];
      c.id == k && 0 <= c.iconIndex < IconCount && !c.isFlipped && !c.isMatched
    ensures !Won(InitialDeck(perm))
  {
    assert !InitialDeck(perm)[0].isMatched;
  }

  /** Every icon occurs exactly twice in the dealt deck. */
  lemma DeckPairs(perm: seq<int>, icon: int)
    requires IsShuffle(perm) && 0 <= icon < IconCount
    ensures |IconPositions(InitialDeck(perm), icon)| == 2
  {
    var deck := InitialDeck(perm);
    assert icon in perm && icon + IconCount in perm;
    var a :| 0 <= a < DeckSize && perm[a] == icon;
    var b :| 0 <= b < DeckSize && perm[b] == icon + IconCount;
    forall k | 0 <= k < DeckSize && deck[k].iconIndex == icon
      ensures k == a || k == b
    {
      assert perm[k] == icon || perm[k] == icon + IconCount;
    }
    assert IconPositions(deck, icon) == {a, b};
  }

  /** The board before and after dealing satisfies the invariant. */
  lemma InitialInv(perm: seq<int>)
    requires IsShuffle(perm)
    ensures Inv(Board([], [], false, Idle))
    ensures Inv(Board(InitialDeck(perm), [], false, Idle))
  {
  }

  /** A click while locked, or on a face-up or matched card, changes nothing. */
  lemma ClickIgnored(b: Board, index: int)
    requires 0 <= index < |b.cards| && IndicesInRange(b)
    requires b.isLocked || b.cards[index].isFlipped || b.cards[index].isMatched
    ensures AfterClick(b, index) == b
  {
  }

  /** An accepted click turns exactly that card face up, appends its index, and
      locks the board exactly when it is the second card. */
  lemma ClickFlips(b: Board, index: int)
    requires 0 <= index < |b.cards| && IndicesInRange(b)
    requires !b.isLocked && !b.cards[index].isFlipped && !b.cards[index].isMatched
    ensures var a := AfterClick(b, index);
      && |a.cards| == |b.cards|
      && a.cards[index] == b.cards[index].(isFlipped := true)
      && (forall k :: 0 <= k < |b.cards| && k != index ==> a.cards[k] == b.cards[k])
      && a.flippedIndices == b.flippedIndices + [index]
      && (a.isLocked <==> |b.flippedIndices| == 1)
  {
  }

  /** A click keeps the invariant: at most two distinct indices, locked
      exactly at two, and the list agreeing with the face-up cards. */
  lemma ClickKeepsInv(b: Board, index: int)
    requires Inv(b) && 0 <= index < |b.cards|
    ensures Inv(AfterClick(b, index))
  {
    if !(b.isLocked || b.cards[index].isFlipped || b.cards[index].isMatched) {
      var a := AfterClick(b, index);
      assert index !in b.flippedIndices;
      forall k | 0 <= k < |a.cards|
        ensures k in a.flippedIndices <==> a.cards[k].isFlipped && !a.cards[k].isMatched
      {
        if k != index {
          assert a.cards[k] == b.cards[k];
          assert k in a.flippedIndices <==> k in b.flippedIndices;
        }
      }
    }
  }

  /** Resolving a pair with equal icons marks both matched, leaves every other
      card alone, empties the list and unlocks. */
  lemma TimeoutMatch(b: Board)
    requires Inv(b) && b.pending.MatchDue?
    ensures var a := AfterTimeout(b);
      && |a.cards| == |b.cards|
      && a.cards[b.pending.first] == b.cards[b.pending.first].(isMatched := true)
      && a.cards[b.pending.second] == b.cards[b.pending.second].(isMatched := true)
      && (forall k :: 0 <= k < |b.cards| && k != b.pending.first && k != b.pending.second ==>
            a.cards[k] == b.cards[k])
      && a.flippedIndices == [] && !a.isLocked && a.pending == Idle
  {
    assert b.pending.first != b.pending.second by {
      assert b.flippedIndices[0] != b.flippedIndices[1];
    }
  }

  /** Resolving a mismatched pair turns both face down, leaves every other card
      alone, empties the list and unlocks. */
  lemma TimeoutMismatch(b: Board)
    requires Inv(b) && b.pending.MismatchDue?
    ensures var a := AfterTimeout(b);
      && |a.cards| == |b.cards|
      && a.cards[b.pending.first] == b.cards[b.pending.first].(isFlipped := false)
      && a.cards[b.pending.second] == b.cards[b.pending.second].(isFlipped := false)
      && (forall k :: 0 <= k < |b.cards| && k != b.pending.first && k != b.pending.second ==>
            a.cards[k] == b.cards[k])
      && a.flippedIndices == [] && !a.isLocked && a.pending == Idle
  {
    assert b.pending.first != b.pending.second by {
      assert b.flippedIndices[0] != b.flippedIndices[1];
    }
  }

  /** The resolution keeps the invariant. */
  lemma TimeoutKeepsInv(b: Board)
    requires Inv(b)
    ensures PendingInRange(b)
    ensures Inv(AfterTimeout(b))
  {
    if !b.pending.Idle? {
      var f, s := b.pending.first, b.pending.second;
      assert b.flippedIndices[0] == f && b.flippedIndices[1] == s;
      assert f != s;
      var a := AfterTimeout(b);
      forall k | 0 <= k < |a.cards|
        ensures !(a.cards[k].isFlipped && !a.cards[k].isMatched)
      {
        if k != f && k != s {
          assert a.cards[k] == b.cards[k];
          assert k !in b.flippedIndices;
        }
      }
    }
  }

  /** Matched cards stay matched, and the deck keeps its size and icons. */
  lemma MatchedStays(b: Board, index: int, k: int)
    requires Inv(b) && 0 <= index < |b.cards| && 0 <= k < |b.cards|
    ensures PendingInRange(b)
    ensures |AfterClick(b, index).cards| == |b.cards| == |AfterTimeout(b).cards|
    ensures b.cards[k].isMatched ==> AfterClick(b, index).cards[k].isMatched
    ensures b.cards[k].isMatched ==> AfterTimeout(b).cards[k].isMatched
    ensures AfterClick(b, index).cards[k].iconIndex == b.cards[k].iconIndex
    ensures AfterTimeout(b).cards[k].iconIndex == b.cards[k].iconIndex
  {
    TimeoutKeepsInv(b);
  }

  /** A won board has nothing face up and unmatched, and ignores every click. */
  lemma WonIsFinal(b: Board)
    ensures Inv(b) && Won(b.cards) ==> b.flippedIndices == [] && !b.isLocked && b.pending == Idle
    ensures Inv(b) && Won(b.cards) ==> forall index :: 0 <= index < |b.cards| ==> AfterClick(b, index) == b
  {
    HeadIn(b.flippedIndices);
  }

  /** A mismatched pair undoes both clicks: from a settled board, the two
      clicks and the resolution give back the same deck. */
  lemma {:induction false} MismatchRestores(b: Board, i: int, j: int)
    requires Inv(b) && !b.isLocked && b.flippedIndices == []
    requires 0 <= i < |b.cards| && 0 <= j < |b.cards| && i != j
    requires !b.cards[i].isFlipped && !b.cards[i].isMatched
    requires !b.cards[j].isFlipped && !b.cards[j].isMatched
    requires b.cards[i].iconIndex != b.cards[j].iconIndex
    ensures Inv(AfterClick(AfterClick(b, i), j))
    ensures AfterClick(AfterClick(b, i), j).pending == MismatchDue(i, j)
    ensures AfterTimeout(AfterClick(AfterClick(b, i), j)) == b
  {
    var b1 := AfterClick(b, i);
    ClickKeepsInv(b, i);
    ClickKeepsInv(b1, j);
    var b2 := AfterClick(b1, j);
    var a := AfterTimeout(b2);
    assert a.cards == b.cards;
  }

  /** The component: the deck lives in an array whose cards are updated in place. */
  class MemoryGame {
    var cards: array<Card>
    var flippedIndices: seq<int>
    var isLocked: bool
    var pending: Pending

    function State(): Board
      reads this, cards
    {
      Board(cards[..], flippedIndices, isLocked, pending)
    }

    ghost predicate Valid()
      reads this, cards
    {
      Inv(State())
    }

    /** The first render: no cards yet. */
    constructor ()
      ensures Valid()
      ensures State() == Board([], [], false, Idle)
    {
      cards := new Card[0];
      flippedIndices := [];
      isLocked := false;
      pending := Idle;
    }

    /** The mount effect: deal the shuffled deck. */
    method Deal(perm: seq<int>)
      requires Valid() && cards.Length == 0 && IsShuffle(perm)
      modifies this
      ensures Valid() && fresh(cards)
      ensures State() == Board(InitialDeck(perm), [], false, Idle)
    {
      HeadIn(flippedIndices);
      cards := new Card[DeckSize](k requires 0 <= k < DeckSize =>
        Card(k, perm[k] % IconCount, false, false));
      assert cards[..] == InitialDeck(perm);
      InitialInv(perm);
    }

    /** `handleCardClick`: the card is updated in place in the deck array. */
    method CardClick(index: int)
      requires Valid() && 0 <= index < cards.Length
      modifies this, cards
      ensures Valid() && cards == old(cards)
      ensures State() == AfterClick(old(State()), index)
    {
      ClickKeepsInv(State(), index);
      if isLocked || cards[index].isFlipped || cards[index].isMatched {
        return;
      }
      cards[index] := cards[index].(isFlipped := true);
      var newFlipped := flippedIndices + [index];
      flippedIndices := newFlipped;
      if |newFlipped| == 2 {
        isLocked := true;
        var first, second := newFlipped[0], newFlipped[1];
        if cards[first].iconIndex == cards[second].iconIndex {
          pending := MatchDue(first, second);
        } else {
          pending := MismatchDue(first, second);
        }
      }
    }

    /** The scheduled timeout firing; with nothing scheduled it does nothing. */
    method Timeout()
      requires Valid()
      modifies this, cards
      ensures Valid() && cards == old(cards)
      ensures State() == AfterTimeout(old(State()))
    {
      TimeoutKeepsInv(State());
      match pending
      case Idle =>
      case MatchDue(first, second) =>
        cards[first] := cards[first].(isMatched := true);
        cards[second] := cards[second].(isMatched := true);
        flippedIndices := [];
        isLocked := false;
        pending := Idle;
      case MismatchDue(first, second) =>
        cards[first] := cards[first].(isFlipped := false);
        cards[second] := cards[second].(isFlipped := false);
        flippedIndices := [];
        isLocked := false;
        pending := Idle;
    }

    /** `isGameWon`, read off the deck. Once it holds, nothing is face up or
        scheduled, and every further click leaves the game as it is. */
    function IsGameWon(): (r: bool)
      reads this, cards
      ensures r <==> cards.Length > 0 && forall k :: 0 <= k < cards.Length ==> cards[k].isMatched
      ensures r && Valid() ==> flippedIndices == [] && !isLocked && pending == Idle
      ensures r && Valid() ==> forall index :: 0 <= index < cards.Length ==> AfterClick(State(), index) == State()
    {
      WonIsFinal(State());
      Won(cards[..])
    }
  }
}
