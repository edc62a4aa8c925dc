/** The cursor's sparkle trail: a short buffer of recent sparkles, each
    stamped with its creation time in milliseconds, pruned by age. */
module SparkleTrail {
  import opened Lists

  datatype Sparkle = Sparkle(id: int, x: int, y: int)

  /** How many earlier sparkles a mouse move keeps. */
  const Keep: nat := 15

  /** How long a sparkle lives, in milliseconds. */
  const MaxAge: int := 500

  /** The mouse-move update `[...prev.slice(-15), newSparkle]`. */
  function AddSparkle(prev: seq<Sparkle>, sparkle: Sparkle): seq<Sparkle>
  {
    SliceLast(prev, Keep) + [sparkle]
  }

  /** The interval's update `prev.filter(s => now - s.id < 500)`. */
  function Prune(prev: seq<Sparkle>, now: int): seq<Sparkle>
  {
    Filter(prev, Young(now))
  }

  /** The test `s => now - s.id < 500`. */
  function Young(now: int): Sparkle -> bool
  {
    (s: Sparkle) => now - s.id < MaxAge
  }

  /** After a move the trail holds at most sixteen sparkles, the new one last,
      preceded by the last (at most fifteen) earlier ones in their order. */
  lemma AddSparkleShape(prev: seq<Sparkle>, sparkle: Sparkle)
    ensures |AddSparkle(prev, sparkle)| <= Keep + 1
    ensures |AddSparkle(prev, sparkle)| == (if |prev| < Keep then |prev| else Keep) + 1
    ensures AddSparkle(prev, sparkle)[|AddSparkle(prev, sparkle)| - 1] == sparkle
    ensures var r := AddSparkle(prev, sparkle);
            forall i :: 0 <= i < |r| - 1 ==> r[i] == prev[|prev| - (|r| - 1) + i]
  {
  }

  /** A short trail is kept whole. */
  lemma AddSparkleShort(prev: seq<Sparkle>, sparkle: Sparkle)
    requires |prev| < Keep
    ensures AddSparkle(prev, sparkle) == prev + [sparkle]
  {
  }

  /** The prune keeps exactly the sparkles younger than 500 ms. */
  lemma PruneKeepsYoung(prev: seq<Sparkle>, now: int, s: Sparkle)
    ensures s in Prune(prev, now) <==> s in prev && now - s.id < MaxAge
  {
    FilterMember(prev, Young(now), s);
  }

  /** The kept sparkles stay in order: pruning a concatenation prunes each part. */
  lemma PruneInOrder(a: seq<Sparkle>, b: seq<Sparkle>, now: int)
    ensures Prune(a + b, now) == Prune(a, now) + Prune(b, now)
  {
    FilterAppend(a, b, Young(now));
  }

  /** For a fixed clock the prune is idempotent and never lengthens the trail. */
  lemma PruneIdempotent(prev: seq<Sparkle>, now: int)
    ensures Prune(Prune(prev, now), now) == Prune(prev, now)
    ensures |Prune(prev, now)| <= |prev|
  {
    FilterIdempotent(prev, Young(now));
  }

  /** A trail of fresh sparkles loses nothing. */
  lemma PruneFresh(prev: seq<Sparkle>, now: int)
    requires forall i :: 0 <= i < |prev| ==> now - prev[i].id < MaxAge
    ensures Prune(prev, now) == prev
  {
    FilterAll(prev, Young(now));
  }
}
