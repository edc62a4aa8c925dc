/** The simple heart-tapping game: hearts drift down, a tap collects one,
    a heart whose fall animation ends disappears, and ten taps win. */
module HeartGame {
  import opened Lists

  datatype HeartItem = HeartItem(id: int, x: real, size: real, speed: real)

  datatype State = State(score: int, hearts: seq<HeartItem>)

  /** The score that triggers the win. */
  const TargetScore: int := 10

  /** The test `h => h.id !== id`. */
  function OtherId(id: int): HeartItem -> bool
  {
    (h: HeartItem) => h.id != id
  }

  /** `prev.filter(h => h.id !== id)`, shared by a tap and by the animation end. */
  function RemoveHeart(hearts: seq<HeartItem>, id: int): seq<HeartItem>
  {
    Filter(hearts, OtherId(id))
  }

  /** `collectHeart`: one more point and the heart gone. */
  function Collect(st: State, id: int): State
  {
    State(st.score + 1, RemoveHeart(st.hearts, id))
  }

  /** The animation-complete handler: the heart goes, the score stays. */
  function AnimationComplete(st: State, id: int): State
  {
    st.(hearts := RemoveHeart(st.hearts, id))
  }

  /** `spawnHeart`: a new heart at the end. */
  function Spawn(st: State, heart: HeartItem): State
  {
    st.(hearts := st.hearts + [heart])
  }

  /** The win effect fires when the score is exactly the target. */
  predicate WinTriggered(st: State)
  {
    st.score == TargetScore
  }

  /** Removal drops every heart with that id and keeps every other heart. */
  lemma RemoveHeartMembers(hearts: seq<HeartItem>, id: int, h: HeartItem)
    ensures h in RemoveHeart(hearts, id) <==> h in hearts && h.id != id
  {
    FilterMember(hearts, OtherId(id), h);
  }

  /** Removal keeps the order of the remaining hearts. */
  lemma RemoveHeartInOrder(a: seq<HeartItem>, b: seq<HeartItem>, id: int)
    ensures RemoveHeart(a + b, id) == RemoveHeart(a, id) + RemoveHeart(b, id)
  {
    FilterAppend(a, b, OtherId(id));
  }

  /** A tap raises the score by exactly one, with no cap, and removes the heart. */
  lemma CollectEffect(st: State, id: int)
    ensures Collect(st, id).score == st.score + 1
    ensures forall h :: h in Collect(st, id).hearts ==> h in st.hearts && h.id != id
  {
  }

  /** The animation end changes the hearts exactly as a tap does, and not the score. */
  lemma AnimationCompleteEffect(st: State, id: int)
    ensures AnimationComplete(st, id).score == st.score
    ensures AnimationComplete(st, id).hearts == Collect(st, id).hearts
  {
  }

  /** A spawn appends exactly one heart at the end. */
  lemma SpawnEffect(st: State, heart: HeartItem)
    ensures |Spawn(st, heart).hearts| == |st.hearts| + 1
    ensures Spawn(st, heart).hearts[..|st.hearts|] == st.hearts
    ensures Spawn(st, heart).hearts[|st.hearts|] == heart
    ensures Spawn(st, heart).score == st.score
  {
  }

  /** Starting from the initial score, the win fires after exactly ten taps
      and not earlier; a tap past the target leaves the trigger off again. */
  lemma {:induction false} WinAfterTenTaps(st: State, ids: seq<int>)
    requires st.score == 0
    ensures WinTriggered(CollectAll(st, ids)) <==> |ids| == TargetScore
  {
    CollectAllScore(st, ids);
  }

  /** A run of taps. */
  function CollectAll(st: State, ids: seq<int>): State
    decreases |ids|
  {
    if ids == [] then st else CollectAll(Collect(st, ids[0]), ids[1..])
  }

  /** Each tap of a run counts once. */
  lemma {:induction false} CollectAllScore(st: State, ids: seq<int>)
    ensures CollectAll(st, ids).score == st.score + |ids|
    decreases |ids|
  {
    if ids != [] {
      CollectAllScore(Collect(st, ids[0]), ids[1..]);
    }
  }
}
