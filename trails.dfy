/**
 * The autonomous wandering trails: at most three points that spawn at
 * random, move along a fixed heading and fade, and are dropped when dead
 * or outside the canvas.
 */
module Trails {
  import opened Geometry

  /** At most this many trails are active (`maxTrails`). */
  const MaxTrails: nat := 3
  /** Distance a trail moves per frame (`trailSpeed`). */
  const TrailSpeed: real := 0.005
  /** Life a trail loses per frame. */
  const LifeDecrement: real := 0.001
  /** The decimal literal of `Math.PI`. */
  const Pi: real := 3.141592653589793
  /** Frames after which a trail spawned with life 1.0 has certainly been dropped. */
  const LifeSpan: nat := 1000

  datatype Trail = Trail(position: Vec2, angle: real, life: real)

  /**
   * The unit direction of a heading angle, standing for
   * `(Math.cos(angle), Math.sin(angle))`; the trigonometry is left to the caller.
   */
  type Heading = real -> Vec2

  /** The filter test of an update: still alive and inside the closed unit square. */
  predicate Alive(t: Trail) {
    t.life > 0.0 && InsideClosed(t.position)
  }

  /** What holds of every trail in the active list. */
  predicate WellFormed(t: Trail) {
    Alive(t) && t.life <= 1.0 && 0.0 <= t.angle < 2.0 * Pi
  }

  /** What holds of the active list: at most three trails, each well formed. */
  predicate ListInvariant(ts: seq<Trail>) {
    |ts| <= MaxTrails && forall t <- ts :: WellFormed(t)
  }

  /**
   * The trail created by the spawn timer from three `Math.random()` draws
   * rx, ry, ra in [0,1): it starts at (rx, ry) with heading ra * 2 pi and full life.
   */
  function NewTrail(rx: real, ry: real, ra: real): (t: Trail)
    requires 0.0 <= rx < 1.0 && 0.0 <= ry < 1.0 && 0.0 <= ra < 1.0
    ensures t.position == Vec2(rx, ry) && t.life == 1.0 && t.angle == ra * Pi * 2.0
    ensures 0.0 <= t.position.x < 1.0 && 0.0 <= t.position.y < 1.0
    ensures 0.0 <= t.angle < 2.0 * Pi
    ensures WellFormed(t)
  {
    assert ra * Pi < Pi by { assert (1.0 - ra) * Pi > 0.0; }
    Trail(Vec2(rx, ry), ra * Pi * 2.0, 1.0)
  }

  /**
   * One frame of movement and fading of one trail, before the filter test:
   * the same heading, life exactly 0.001 lower, moved by the speed along
   * the heading.
   */
  function Step(t: Trail, heading: Heading): (r: Trail)
    ensures r.angle == t.angle
    ensures r.life == t.life - 0.001
    ensures r.position.x - t.position.x == TrailSpeed * heading(t.angle).x
    ensures r.position.y - t.position.y == TrailSpeed * heading(t.angle).y
  {
    var d := heading(t.angle);
    Trail(Vec2(t.position.x + d.x * TrailSpeed, t.position.y + d.y * TrailSpeed),
          t.angle, t.life - LifeDecrement)
  }

  /**
   * The list after `updateTrails`: every trail moved and faded, and only
   * those still alive and on the canvas kept, in their original order.
   */
  function Survivors(ts: seq<Trail>, heading: Heading): (r: seq<Trail>)
    ensures |r| <= |ts|
    ensures forall t <- r :: Alive(t)
  {
    if ts == [] then []
    else
      var last := Step(ts[|ts| - 1], heading);
      Survivors(ts[..|ts| - 1], heading) + (if Alive(last) then [last] else [])
  }

  /** The positions in the old list of the trails that survive an update, in order. */
  ghost function KeptIndices(ts: seq<Trail>, heading: Heading): seq<nat> {
    if ts == [] then []
    else
      KeptIndices(ts[..|ts| - 1], heading)
      + (if Alive(Step(ts[|ts| - 1], heading)) then [|ts| - 1] else [])
  }

  /**
   * An update keeps exactly the moved trails that pass the filter: the j-th
   * survivor is the moved trail at the j-th kept index, the kept indices are
   * strictly increasing (order is preserved), and an index is kept if and
   * only if its moved trail is alive and on the canvas.
   */
  lemma {:induction false} SurvivorsExactly(ts: seq<Trail>, heading: Heading)
    ensures |KeptIndices(ts, heading)| == |Survivors(ts, heading)|
    ensures forall j :: 0 <= j < |KeptIndices(ts, heading)| ==>
              KeptIndices(ts, heading)[j] < |ts|
              && Survivors(ts, heading)[j] == Step(ts[KeptIndices(ts, heading)[j]], heading)
    ensures forall j1, j2 :: 0 <= j1 < j2 < |KeptIndices(ts, heading)| ==>
              KeptIndices(ts, heading)[j1] < KeptIndices(ts, heading)[j2]
    ensures forall i :: 0 <= i < |ts| ==>
              (Alive(Step(ts[i], heading)) <==> i in KeptIndices(ts, heading))
  {
    KeptIndicesIncreasing(ts, heading);
    SurvivorsAtKeptIndices(ts, heading);
    KeptIndicesAreAlive(ts, heading);
  }

  /** The kept indices are positions of the old list, in strictly increasing order. */
  lemma {:induction false} KeptIndicesIncreasing(ts: seq<Trail>, heading: Heading)
    ensures forall j :: 0 <= j < |KeptIndices(ts, heading)| ==> KeptIndices(ts, heading)[j] < |ts|
    ensures forall j1, j2 :: 0 <= j1 < j2 < |KeptIndices(ts, heading)| ==>
              KeptIndices(ts, heading)[j1] < KeptIndices(ts, heading)[j2]
  {
    if ts != [] {
      KeptIndicesIncreasing(ts[..|ts| - 1], heading);
    }
  }

  /** The j-th survivor is the moved trail at the j-th kept index. */
  lemma {:induction false} SurvivorsAtKeptIndices(ts: seq<Trail>, heading: Heading)
    ensures |KeptIndices(ts, heading)| == |Survivors(ts, heading)|
    ensures forall j :: 0 <= j < |KeptIndices(ts, heading)| && KeptIndices(ts, heading)[j] < |ts| ==>
              Survivors(ts, heading)[j] == Step(ts[KeptIndices(ts, heading)[j]], heading)
  {
    if ts != [] {
      var front := ts[..|ts| - 1];
      SurvivorsAtKeptIndices(front, heading);
      var ks, r := KeptIndices(ts, heading), Survivors(ts, heading);
      var ks', r' := KeptIndices(front, heading), Survivors(front, heading);
      forall j | 0 <= j < |ks| && ks[j] < |ts|
        ensures r[j] == Step(ts[ks[j]], heading)
      {
        if j < |ks'| {
          assert ks[j] == ks'[j] && r[j] == r'[j];
          if ks'[j] < |front| {
            assert ts[ks[j]] == front[ks'[j]];
          } else {
            KeptIndicesIncreasing(front, heading);
          }
        }
      }
    }
  }

  /** An index is kept if and only if its moved trail is alive and on the canvas. */
  lemma {:induction false} KeptIndicesAreAlive(ts: seq<Trail>, heading: Heading)
    ensures forall i :: 0 <= i < |ts| ==>
              (Alive(Step(ts[i], heading)) <==> i in KeptIndices(ts, heading))
  {
    if ts != [] {
      var front := ts[..|ts| - 1];
      KeptIndicesAreAlive(front, heading);
      KeptIndicesIncreasing(front, heading);
      var ks, ks' := KeptIndices(ts, heading), KeptIndices(front, heading);
      assert |ts| - 1 !in ks';
      forall i | 0 <= i < |ts|
        ensures Alive(Step(ts[i], heading)) <==> i in ks
      {
        if i < |front| {
          assert ts[i] == front[i];
          assert i in ks <==> i in ks';
        }
      }
    }
  }

  /** An update distributes over concatenation: it filters trail by trail, independently of position. */
  lemma {:induction false} SurvivorsAppend(a: seq<Trail>, b: seq<Trail>, heading: Heading)
    ensures Survivors(a + b, heading) == Survivors(a, heading) + Survivors(b, heading)
  {
    if b != [] {
      var b' := b[..|b| - 1];
      SurvivorsAppend(a, b', heading);
      assert (a + b)[..|a + b| - 1] == a + b';
      assert (a + b)[|a + b| - 1] == b[|b| - 1];
    } else {
      assert a + b == a;
    }
  }

  /** An update keeps the list well formed: life stays in (0,1], positions on the canvas, headings unchanged. */
  lemma SurvivorsWellFormed(ts: seq<Trail>, heading: Heading)
    requires forall t <- ts :: WellFormed(t)
    ensures forall t <- Survivors(ts, heading) :: WellFormed(t)
  {
    SurvivorsExactly(ts, heading);
    var r, ks := Survivors(ts, heading), KeptIndices(ts, heading);
    forall j | 0 <= j < |r|
      ensures WellFormed(r[j])
    {
      assert ts[ks[j]] in ts;
    }
  }

  /** When some trail is dropped, the update leaves fewer trails than there were. */
  lemma {:induction false} DroppedShrinks(ts: seq<Trail>, heading: Heading, k: nat)
    requires k < |ts| && !Alive(Step(ts[k], heading))
    ensures |Survivors(ts, heading)| < |ts|
  {
    var front := ts[..|ts| - 1];
    if k < |ts| - 1 {
      assert front[k] == ts[k];
      DroppedShrinks(front, heading, k);
    }
  }

  /** The list after n frames with no spawning in between. */
  function Frames(ts: seq<Trail>, heading: Heading, n: nat): seq<Trail> {
    if n == 0 then ts else Survivors(Frames(ts, heading, n - 1), heading)
  }

  /** After n frames every remaining trail has lost at least n * 0.001 of its life. */
  lemma {:induction false} LifeAfterFrames(ts: seq<Trail>, heading: Heading, n: nat)
    requires forall t <- ts :: t.life <= 1.0
    ensures forall t <- Frames(ts, heading, n) :: t.life <= 1.0 - n as real * LifeDecrement
  {
    if n > 0 {
      var before := Frames(ts, heading, n - 1);
      LifeAfterFrames(ts, heading, n - 1);
      SurvivorsExactly(before, heading);
      var r, ks := Survivors(before, heading), KeptIndices(before, heading);
      forall j | 0 <= j < |r|
        ensures r[j].life <= 1.0 - n as real * LifeDecrement
      {
        assert before[ks[j]] in before;
      }
    }
  }

  /** A list whose every trail has at most one frame of life left is emptied by the next update. */
  lemma {:induction false} FadedAreDropped(ts: seq<Trail>, heading: Heading)
    requires forall t <- ts :: t.life <= LifeDecrement
    ensures Survivors(ts, heading) == []
  {
    if ts != [] {
      var front := ts[..|ts| - 1];
      assert forall t <- front :: t in ts;
      FadedAreDropped(front, heading);
      assert ts[|ts| - 1] in ts;
    }
  }

  /** In any list, a trail with at most 0.001 of life left is not kept by the next update. */
  lemma FadedTrailIsDropped(ts: seq<Trail>, heading: Heading, i: nat)
    requires i < |ts| && ts[i].life <= LifeDecrement
    ensures i !in KeptIndices(ts, heading)
  {
    SurvivorsExactly(ts, heading);
  }

  /**
   * Without new spawns the list empties within 1000 frames: every trail in
   * the list has life at most 1.0 and loses 0.001 per frame.
   */
  lemma DrainedAfterLifeSpan(ts: seq<Trail>, heading: Heading)
    requires forall t <- ts :: WellFormed(t)
    ensures Frames(ts, heading, LifeSpan) == []
  {
    LifeAfterFrames(ts, heading, LifeSpan - 1);
    FadedAreDropped(Frames(ts, heading, LifeSpan - 1), heading);
  }

  /** On one of the four edges of the unit square. */
  predicate OnEdge(p: Vec2) {
    p.x == 0.0 || p.x == 1.0 || p.y == 0.0 || p.y == 1.0
  }

  /**
   * A trail that moves exactly onto an edge of the canvas, with life left,
   * is kept: the bounds of the filter are inclusive.
   */
  lemma EdgeIsKept(t: Trail, heading: Heading)
    requires OnEdge(Step(t, heading).position) && InsideClosed(Step(t, heading).position)
    requires t.life > LifeDecrement
    ensures Survivors([t], heading) == [Step(t, heading)]
  {
    assert [t][..0] == [];
  }

  /** A trail whose life reaches exactly 0 on this update is dropped on this update. */
  lemma ZeroLifeIsDropped(t: Trail, heading: Heading)
    requires t.life == LifeDecrement
    ensures Survivors([t], heading) == []
  {
    assert [t][..0] == [];
  }
}
