/** The heart-catcher mini-game: pairs of falling items (a heart and a bomb)
    are spawned at the top, fall by their own speed every tick, and are caught
    by a catcher that follows the pointer. Ten caught hearts win; losing three
    lives to bombs loses. Positions are percentages of the play field, the
    catcher position and the field width are pixels. */
module Catcher {
  import opened Lists

  datatype Kind = Heart | Bomb

  datatype Status = Playing | Won | Lost

  datatype Item = Item(id: real, x: real, y: real, size: real, speed: real, opacity: real, kind: Kind)

  const TargetScore: int := 10
  const StartLives: int := 3

  function RAbs(r: real): real
  {
    if r < 0.0 then -r else r
  }

  function RMin(a: real, b: real): real
  {
    if a < b then a else b
  }

  function RMax(a: real, b: real): real
  {
    if a < b then b else a
  }

  function Min(a: int, b: int): int
  {
    if a < b then a else b
  }

  function Max(a: int, b: int): int
  {
    if a < b then b else a
  }

  /** `item => ({ ...item, y: item.y + item.speed })` over the whole list. */
  function Advance(items: seq<Item>): seq<Item>
  {
    seq(|items|, i requires 0 <= i < |items| => items[i].(y := items[i].y + items[i].speed))
  }

  /** The catch test: within 60 px of the catcher horizontally and inside the
      band 82 < y < 92. */
  predicate IsCaught(item: Item, width: real, catcherX: real)
  {
    RAbs(item.x / 100.0 * width - catcherX) < 60.0 && 82.0 < item.y < 92.0
  }

  /** The miss test: at or below the bottom edge. */
  predicate IsMissed(item: Item)
  {
    item.y >= 100.0
  }

  /** The three branches of the classification loop, the catch test first. */
  function CaughtTest(width: real, catcherX: real): Item -> bool
  {
    (item: Item) => IsCaught(item, width, catcherX)
  }

  function MissedTest(width: real, catcherX: real): Item -> bool
  {
    (item: Item) => !IsCaught(item, width, catcherX) && IsMissed(item)
  }

  function RemainTest(width: real, catcherX: real): Item -> bool
  {
    (item: Item) => !IsCaught(item, width, catcherX) && !IsMissed(item)
  }

  /** The ids of a list of items. */
  function Ids(s: seq<Item>): set<real>
    decreases |s|
  {
    if s == [] then {} else Ids(s[..|s| - 1]) + {s[|s| - 1].id}
  }

  /** The dedup filter: an item is kept when its id was neither processed
      before the tick nor met earlier in the list; every id met is recorded. */
  function Unique(caught: seq<Item>, processed: set<real>): seq<Item>
    decreases |caught|
  {
    if caught == [] then []
    else
      var init, last := caught[..|caught| - 1], caught[|caught| - 1];
      Unique(init, processed) + (if last.id in processed + Ids(init) then [] else [last])
  }

  /** `list.filter(item => item.type === kind).length`. */
  function CountKind(s: seq<Item>, k: Kind): nat
  {
    |Filter(s, OfKind(k))|
  }

  function OfKind(k: Kind): Item -> bool
  {
    (item: Item) => item.kind == k
  }

  /** The score update: only when hearts were caught, capped at the target. */
  function ScoreAfter(score: int, hearts: nat): int
  {
    if hearts > 0 then Min(TargetScore, score + hearts) else score
  }

  /** The lives update: only when bombs were caught, floored at zero. */
  function LivesAfter(lives: int, bombs: nat): int
  {
    if bombs > 0 then Max(0, lives - bombs) else lives
  }

  /** The status update: the score update may set `won`, then the lives update
      may set `lost`, so a tick that does both ends lost. */
  function StatusAfter(status: Status, score: int, hearts: nat, lives: int, bombs: nat): Status
  {
    var afterScore := if hearts > 0 && score + hearts >= TargetScore then Won else status;
    if bombs > 0 && lives - bombs <= 0 then Lost else afterScore
  }

  /** Everything one tick reads and writes. */
  datatype Snapshot = Snapshot(score: int, lives: int, items: seq<Item>, status: Status, processed: set<real>)

  /** The game's invariant: the counters in range, and the status agreeing with them. */
  predicate Consistent(st: Snapshot)
  {
    && 0 <= st.score <= TargetScore && 0 <= st.lives <= StartLives
    && (st.status == Playing ==> st.score < TargetScore && st.lives > 0)
    && (st.status == Won ==> st.score == TargetScore)
    && (st.status == Lost ==> st.lives == 0)
  }

  /** One tick of the game loop, which runs only while the game is on. */
  function TickSpec(st: Snapshot, width: real, catcherX: real): Snapshot
  {
    if st.status != Playing then st
    else
      var next := Advance(st.items);
      var caught := Filter(next, CaughtTest(width, catcherX));
      var unique := Unique(caught, st.processed);
      var hearts, bombs := CountKind(unique, Heart), CountKind(unique, Bomb);
      Snapshot(
        ScoreAfter(st.score, hearts),
        LivesAfter(st.lives, bombs),
        Filter(next, RemainTest(width, catcherX)),
        StatusAfter(st.status, st.score, hearts, st.lives, bombs),
        st.processed + Ids(caught))
  }

  /** Every item falls by exactly its own speed; nothing else about it changes. */
  lemma AdvanceFalls(items: seq<Item>, i: int)
    requires 0 <= i < |items|
    ensures |Advance(items)| == |items|
    ensures Advance(items)[i].y == items[i].y + items[i].speed
    ensures Advance(items)[i].(y := items[i].y) == items[i]
  {
  }

  /** Each item takes exactly one branch of the loop. */
  lemma ExactlyOneBranch(item: Item, width: real, catcherX: real)
    ensures CaughtTest(width, catcherX)(item) || MissedTest(width, catcherX)(item) || RemainTest(width, catcherX)(item)
    ensures !(CaughtTest(width, catcherX)(item) && MissedTest(width, catcherX)(item))
    ensures !(CaughtTest(width, catcherX)(item) && RemainTest(width, catcherX)(item))
    ensures !(MissedTest(width, catcherX)(item) && RemainTest(width, catcherX)(item))
  {
  }

  /** The three lists together hold every advanced item exactly as often as it
      occurs: caught, missed and remaining partition the items. */
  lemma Partition(s: seq<Item>, width: real, catcherX: real)
    ensures multiset(Filter(s, CaughtTest(width, catcherX))) +
            multiset(Filter(s, MissedTest(width, catcherX))) +
            multiset(Filter(s, RemainTest(width, catcherX))) == multiset(s)
  {
    forall item | item in s
      ensures CaughtTest(width, catcherX)(item) || MissedTest(width, catcherX)(item) || RemainTest(width, catcherX)(item)
      ensures !(CaughtTest(width, catcherX)(item) && MissedTest(width, catcherX)(item))
      ensures !(CaughtTest(width, catcherX)(item) && RemainTest(width, catcherX)(item))
      ensures !(MissedTest(width, catcherX)(item) && RemainTest(width, catcherX)(item))
    {
      ExactlyOneBranch(item, width, catcherX);
    }
    FilterPartition(s, CaughtTest(width, catcherX), MissedTest(width, catcherX), RemainTest(width, catcherX));
  }

  /** The recorded ids are the ids met, recorded once each. */
  lemma {:induction false} IdsMember(s: seq<Item>, id: real)
    ensures id in Ids(s) <==> exists i :: 0 <= i < |s| && s[i].id == id
    decreases |s|
  {
    if s != [] {
      var init := s[..|s| - 1];
      IdsMember(init, id);
      if id in Ids(init) {
        var i :| 0 <= i < |init| && init[i].id == id;
        assert s[i].id == id;
      }
      if exists i :: 0 <= i < |s| && s[i].id == id {
        var i :| 0 <= i < |s| && s[i].id == id;
        if i < |s| - 1 {
          assert init[i].id == id;
        }
      }
    }
  }

  /** The dedup keeps caught items only, never one whose id was processed, never
      the same id twice, and it keeps exactly the ids that were not processed. */
  lemma UniqueSpec(caught: seq<Item>, processed: set<real>)
    ensures forall u :: u in Unique(caught, processed) ==> u in caught && u.id !in processed
    ensures Ids(Unique(caught, processed)) == Ids(caught) - processed
    ensures DistinctIds(Unique(caught, processed))
  {
    UniqueSound(caught, processed);
    UniqueIds(caught, processed);
    UniqueDistinct(caught, processed);
  }

  lemma {:induction false} UniqueSound(caught: seq<Item>, processed: set<real>)
    ensures forall u :: u in Unique(caught, processed) ==> u in caught && u.id !in processed
    decreases |caught|
  {
    if caught != [] {
      var init := caught[..|caught| - 1];
      UniqueSound(init, processed);
      assert forall v :: v in init ==> v in caught;
    }
  }

  lemma {:induction false} UniqueIds(caught: seq<Item>, processed: set<real>)
    ensures Ids(Unique(caught, processed)) == Ids(caught) - processed
    decreases |caught|
  {
    if caught != [] {
      var init, last := caught[..|caught| - 1], caught[|caught| - 1];
      UniqueIds(init, processed);
      var u := Unique(init, processed);
      assert Ids(caught) == Ids(init) + {last.id};
      if last.id in processed + Ids(init) {
        assert Unique(caught, processed) == u;
      } else {
        var w := u + [last];
        assert w[..|w| - 1] == u;
      }
    }
  }

  lemma {:induction false} UniqueDistinct(caught: seq<Item>, processed: set<real>)
    ensures DistinctIds(Unique(caught, processed))
    decreases |caught|
  {
    if caught != [] {
      var init, last := caught[..|caught| - 1], caught[|caught| - 1];
      UniqueDistinct(init, processed);
      UniqueIds(init, processed);
      var u := Unique(init, processed);
      if last.id !in processed + Ids(init) {
        var w := u + [last];
        forall i, j | 0 <= i < j < |w| ensures w[i].id != w[j].id {
          if j == |w| - 1 {
            assert w[i] == u[i];
            IdsMember(u, u[i].id);
          } else {
            assert w[i] == u[i] && w[j] == u[j];
          }
        }
      }
    }
  }

  predicate DistinctIds(s: seq<Item>)
  {
    forall i, j :: 0 <= i < j < |s| ==> s[i].id != s[j].id
  }

  /** The score never goes down and never passes the target; it is the capped
      sum; the game is won by the tick exactly when the sum reaches the target. */
  lemma ScoreUpdate(score: int, hearts: nat)
    requires 0 <= score <= TargetScore
    ensures score <= ScoreAfter(score, hearts) <= TargetScore
    ensures ScoreAfter(score, hearts) == Min(TargetScore, score + hearts)
    ensures ScoreAfter(score, hearts) == TargetScore <==> score + hearts >= TargetScore
  {
  }

  /** Lives never go up and never below zero; they are the floored difference. */
  lemma LivesUpdate(lives: int, bombs: nat)
    requires 0 <= lives
    ensures 0 <= LivesAfter(lives, bombs) <= lives
    ensures LivesAfter(lives, bombs) == Max(0, lives - bombs)
    ensures LivesAfter(lives, bombs) == 0 <==> lives - bombs <= 0
  {
  }

  /** One tick keeps the invariant; while playing, the score only rises and the
      lives only fall; the status becomes won when the hearts reach the target
      and lost when the lives run out; a finished game does not change. */
  lemma TickKeepsConsistent(st: Snapshot, width: real, catcherX: real)
    requires Consistent(st)
    ensures Consistent(TickSpec(st, width, catcherX))
    ensures st.score <= TickSpec(st, width, catcherX).score
    ensures TickSpec(st, width, catcherX).lives <= st.lives
    ensures st.status != Playing ==> TickSpec(st, width, catcherX) == st
    ensures st.status == Playing && TickSpec(st, width, catcherX).score == TargetScore ==>
              TickSpec(st, width, catcherX).status != Playing
    ensures st.status == Playing && TickSpec(st, width, catcherX).lives == 0 ==>
              TickSpec(st, width, catcherX).status == Lost
  {
  }

  /** Only the remaining items survive a tick; a caught id is recorded, it is
      never counted on a later tick, and nothing counted was processed before. */
  lemma TickBookkeeping(st: Snapshot, width: real, catcherX: real)
    requires st.status == Playing
    ensures var next := Advance(st.items);
            var caught := Filter(next, CaughtTest(width, catcherX));
            && TickSpec(st, width, catcherX).items == Filter(next, RemainTest(width, catcherX))
            && TickSpec(st, width, catcherX).processed == st.processed + Ids(caught)
            && Ids(Unique(caught, st.processed)) == Ids(caught) - st.processed
            && multiset(caught) + multiset(Filter(next, MissedTest(width, catcherX))) +
               multiset(TickSpec(st, width, catcherX).items) == multiset(next)
  {
    var next := Advance(st.items);
    UniqueSpec(Filter(next, CaughtTest(width, catcherX)), st.processed);
    Partition(next, width, catcherX);
  }

  /** The random draws of one spawn, each in [0, 1), and the clock. */
  datatype Draws = Draws(base: real, offset: real, speed: real, size: real, opacity: real,
                         heartId: real, bombId: real)

  predicate UnitDraws(d: Draws)
  {
    && 0.0 <= d.base < 1.0 && 0.0 <= d.offset < 1.0 && 0.0 <= d.speed < 1.0
    && 0.0 <= d.size < 1.0 && 0.0 <= d.opacity < 1.0
    && 0.0 <= d.heartId < 1.0 && 0.0 <= d.bombId < 1.0
  }

  /** `Math.max(7, Math.min(93, x))`. */
  function ClampX(x: real): real
  {
    RMax(7.0, RMin(93.0, x))
  }

  /** The pair `spawnItem` appends: a heart left of centre and a bomb right of
      it, sharing speed, size and opacity, both just above the field. */
  function SpawnPair(now: int, d: Draws): seq<Item>
  {
    var baseX := d.base * 70.0 + 10.0;
    var offset := 10.0 + d.offset * 15.0;
    var speed := 0.75 + d.speed * 0.55;
    var size := 20.0 + d.size * 14.0;
    var opacity := 0.8 + d.opacity * 0.2;
    [Item(now as real + d.heartId, ClampX(baseX - offset), -10.0, size, speed, opacity, Heart),
     Item(now as real + d.bombId, ClampX(baseX + offset), -10.0, size, speed, opacity, Bomb)]
  }

  /** The shape of a spawned pair. */
  lemma SpawnPairSpec(now: int, d: Draws)
    requires UnitDraws(d)
    ensures var p := SpawnPair(now, d);
      && |p| == 2 && p[0].kind == Heart && p[1].kind == Bomb
      && p[0].y == -10.0 && p[1].y == -10.0
      && 7.0 <= p[0].x <= 93.0 && 7.0 <= p[1].x <= 93.0
      && p[0].x <= p[1].x
      && p[0].speed == p[1].speed && 0.75 <= p[0].speed < 1.30
      && p[0].size == p[1].size && 20.0 <= p[0].size < 34.0
  {
  }

  /** The catcher target: pointer position relative to the field, kept 40 px
      inside both edges; on a field narrower than 80 px the left margin wins. */
  function ClampCatcher(x: real, width: real): (r: real)
  {
    RMax(40.0, RMin(width - 40.0, x))
  }

  lemma ClampCatcherSpec(x: real, width: real)
    ensures width >= 80.0 ==> 40.0 <= ClampCatcher(x, width) <= width - 40.0
    ensures width >= 80.0 && 40.0 <= x <= width - 40.0 ==> ClampCatcher(x, width) == x
    ensures width < 80.0 ==> ClampCatcher(x, width) == 40.0
  {
  }

  /** One more item extends exactly the list of the branch it takes. */
  lemma ClassifyStep(prefix: seq<Item>, item: Item, width: real, catcherX: real)
    ensures Filter(prefix + [item], CaughtTest(width, catcherX)) ==
            Filter(prefix, CaughtTest(width, catcherX)) + (if IsCaught(item, width, catcherX) then [item] else [])
    ensures Filter(prefix + [item], MissedTest(width, catcherX)) ==
            Filter(prefix, MissedTest(width, catcherX)) + (if !IsCaught(item, width, catcherX) && IsMissed(item) then [item] else [])
    ensures Filter(prefix + [item], RemainTest(width, catcherX)) ==
            Filter(prefix, RemainTest(width, catcherX)) + (if !IsCaught(item, width, catcherX) && !IsMissed(item) then [item] else [])
  {
    FilterSnoc(prefix, item, CaughtTest(width, catcherX));
    FilterSnoc(prefix, item, MissedTest(width, catcherX));
    FilterSnoc(prefix, item, RemainTest(width, catcherX));
  }

  /** The classification loop: every advanced item goes to exactly one list,
      in order, the catch test taking precedence over the miss test. */
  method Classify(next: seq<Item>, width: real, catcherX: real)
    returns (caught: seq<Item>, missed: seq<Item>, remaining: seq<Item>)
    ensures caught == Filter(next, CaughtTest(width, catcherX))
    ensures missed == Filter(next, MissedTest(width, catcherX))
    ensures remaining == Filter(next, RemainTest(width, catcherX))
  {
    caught, missed, remaining := [], [], [];
    var i := 0;
    while i < |next|
      invariant 0 <= i <= |next|
      invariant caught == Filter(next[..i], CaughtTest(width, catcherX))
      invariant missed == Filter(next[..i], MissedTest(width, catcherX))
      invariant remaining == Filter(next[..i], RemainTest(width, catcherX))
    {
      var item := next[i];
      if IsCaught(item, width, catcherX) {
        caught := caught + [item];
      } else if IsMissed(item) {
        missed := missed + [item];
      } else {
        remaining := remaining + [item];
      }
      assert next[..i + 1] == next[..i] + [item];
      ClassifyStep(next[..i], item, width, catcherX);
      i := i + 1;
    }
    assert next[..|next|] == next;
  }

  class CatcherGame {
    var score: int
    var lives: int
    var items: seq<Item>
    var status: Status
    var processed: set<real>
    /** Where the catcher is heading: the value set on the pointer spring. */
    var target: real

    function State(): Snapshot
      reads this
    {
      Snapshot(score, lives, items, status, processed)
    }

    ghost predicate Valid()
      reads this
    {
      Consistent(State())
    }

    /** A fresh game; the catcher starts at half the window width. */
    constructor (windowWidth: real)
      ensures Valid()
      ensures State() == Snapshot(0, StartLives, [], Playing, {})
      ensures target == windowWidth / 2.0
    {
      score, lives, items, status, processed := 0, StartLives, [], Playing, {};
      target := windowWidth / 2.0;
    }

    /** The pointer handler: ignored without a field or once the game is over. */
    method PointerMove(hasField: bool, clientX: real, fieldLeft: real, fieldWidth: real)
      modifies this`target
      ensures !hasField || status != Playing ==> target == old(target)
      ensures hasField && status == Playing ==> target == ClampCatcher(clientX - fieldLeft, fieldWidth)
    {
      if !hasField || status != Playing {
        return;
      }
      var x := clientX - fieldLeft;
      target := RMax(40.0, RMin(fieldWidth - 40.0, x));
    }

    /** `spawnItem`: append a heart and a bomb, only while playing. */
    method Spawn(now: int, d: Draws)
      requires Valid()
      modifies this`items
      ensures Valid()
      ensures items == if status == Playing then old(items) + SpawnPair(now, d) else old(items)
    {
      if status != Playing {
        return;
      }
      var baseX := d.base * 70.0 + 10.0;
      var offset := 10.0 + d.offset * 15.0;
      var heartX := RMax(7.0, RMin(93.0, baseX - offset));
      var bombX := RMax(7.0, RMin(93.0, baseX + offset));
      var speed := 0.75 + d.speed * 0.55;
      var size := 20.0 + d.size * 14.0;
      var opacity := 0.8 + d.opacity * 0.2;
      var heartItem := Item(now as real + d.heartId, heartX, -10.0, size, speed, opacity, Heart);
      var bombItem := Item(now as real + d.bombId, bombX, -10.0, size, speed, opacity, Bomb);
      items := items + [heartItem, bombItem];
    }

    /** The dedup loop: keep an item whose id is not yet processed, and
        record its id. */
    method RecordCaught(caught: seq<Item>) returns (uniqueCaught: seq<Item>)
      modifies this`processed
      ensures uniqueCaught == Unique(caught, old(processed))
      ensures processed == old(processed) + Ids(caught)
    {
      uniqueCaught := [];
      var j := 0;
      while j < |caught|
        invariant 0 <= j <= |caught|
        invariant uniqueCaught == Unique(caught[..j], old(processed))
        invariant processed == old(processed) + Ids(caught[..j])
      {
        var item := caught[j];
        assert caught[..j + 1] == caught[..j] + [item];
        assert caught[..j + 1][..j] == caught[..j];
        if item.id !in processed {
          processed := processed + {item.id};
          uniqueCaught := uniqueCaught + [item];
        }
        j := j + 1;
      }
      assert caught[..|caught|] == caught;
    }

    /** The score and lives updaters with the status they set: the score
        first, then the lives, so running out of lives has the last word. */
    method ApplyCatches(caughtHearts: nat, caughtBombs: nat)
      modifies this`score, this`lives, this`status
      ensures score == ScoreAfter(old(score), caughtHearts)
      ensures lives == LivesAfter(old(lives), caughtBombs)
      ensures status == StatusAfter(old(status), old(score), caughtHearts, old(lives), caughtBombs)
    {
      if caughtHearts > 0 {
        var newScore := score + caughtHearts;
        if newScore >= TargetScore {
          status := Won;
        }
        score := Min(TargetScore, newScore);
      }
      if caughtBombs > 0 {
        var newLives := lives - caughtBombs;
        if newLives <= 0 {
          status := Lost;
        }
        lives := Max(0, newLives);
      }
    }

    /** One tick of the game loop: advance, classify, dedup the catches, then
        update score, lives and status; only the remaining items are kept. */
    method Tick(width: real, catcherX: real)
      requires Valid()
      modifies this`score, this`lives, this`items, this`status, this`processed
      ensures Valid()
      ensures State() == TickSpec(old(State()), width, catcherX)
    {
      if status != Playing {
        return;
      }
      ghost var before := State();
      var next := Advance(items);
      var caught, missed, remaining := Classify(next, width, catcherX);
      if |caught| > 0 {
        var uniqueCaught := RecordCaught(caught);
        var caughtHearts := |Filter(uniqueCaught, OfKind(Heart))|;
        var caughtBombs := |Filter(uniqueCaught, OfKind(Bomb))|;
        ApplyCatches(caughtHearts, caughtBombs);
      } else {
        assert Unique(caught, processed) == [] && Ids(caught) == {};
      }
      items := remaining;
      TickKeepsConsistent(before, width, catcherX);
    }

    /** `restartGame`: a fresh game with an empty dedup record. */
    method Restart()
      requires Valid()
      modifies this`score, this`lives, this`items, this`status, this`processed
      ensures Valid()
      ensures State() == Snapshot(0, StartLives, [], Playing, {})
    {
      score := 0;
      lives := StartLives;
      items := [];
      status := Playing;
      processed := {};
    }
  }
}
