/**
 * Which point feeds the accumulation pass on a frame: the mouse, one of
 * the wandering trails, or nothing (off the canvas).
 */
module Feed {
  import opened Geometry
  import opened Trails

  /**
   * What `uMousePos` refers to. `updateTrailTexture` in main.js stores a
   * reference to the mouse vector or to a trail's position vector; a trail is named here by its
   * index in the list as it was when the selection was made.
   */
  datatype FeedSource = Pointer | TrailAt(index: nat) | OffCanvas

  /**
   * The main feed: the mouse when it is strictly inside the canvas,
   * otherwise the first trail, otherwise the off-canvas point.
   */
  function MainFeed(mouse: Vec2, trails: seq<Trail>): (r: FeedSource)
    ensures r == Pointer <==> InsideOpen(mouse)
    ensures r == TrailAt(0) <==> !InsideOpen(mouse) && trails != []
    ensures r == OffCanvas <==> !InsideOpen(mouse) && trails == []
  {
    if InsideOpen(mouse) then Pointer
    else if |trails| > 0 then TrailAt(0)
    else OffCanvas
  }

  /** The frame index `floor(uTime * 100) % (trails.length + 1)`, for a tick standing for `floor(uTime * 100)`. */
  function FrameIndex(tick: nat, count: nat): (k: nat)
    ensures k <= count
    ensures k == 0 <==> tick % (count + 1) == 0
  {
    tick % (count + 1)
  }

  /**
   * The feed chosen on a frame: index 0 picks the main feed, index k >= 1
   * picks the (k-1)-th trail. The `|| mainTrail` fallback of `updateTrailTexture`
   * in main.js is kept as written; the contract shows it is never taken.
   */
  function SelectFeed(mouse: Vec2, trails: seq<Trail>, tick: nat): (r: FeedSource)
    ensures r.TrailAt? ==> r.index < |trails|
    ensures FrameIndex(tick, |trails|) == 0 ==> r == MainFeed(mouse, trails)
    ensures FrameIndex(tick, |trails|) > 0 ==> r == TrailAt(FrameIndex(tick, |trails|) - 1)
  {
    var k := FrameIndex(tick, |trails|);
    if k == 0 then MainFeed(mouse, trails)
    else if k - 1 < |trails| then TrailAt(k - 1)
    else MainFeed(mouse, trails)
  }

  /** The selection repeats with period trails.length + 1 in the tick. */
  lemma SelectFeedPeriodic(mouse: Vec2, trails: seq<Trail>, tick: nat)
    ensures SelectFeed(mouse, trails, tick + |trails| + 1) == SelectFeed(mouse, trails, tick)
  {
    var m := |trails| + 1;
    ModUnique(tick + m, m, tick / m + 1, tick % m);
  }

  /** Every trail is fed once per cycle: in cycle c, tick c * (trails.length + 1) + j + 1 selects trail j. */
  lemma EveryTrailIsFed(mouse: Vec2, trails: seq<Trail>, cycle: nat, j: nat)
    requires j < |trails|
    ensures SelectFeed(mouse, trails, cycle * (|trails| + 1) + j + 1) == TrailAt(j)
  {
    var m := |trails| + 1;
    ModUnique(cycle * m + j + 1, m, cycle, j + 1);
  }

  lemma MultipleAtLeastModulus(d: int, m: int)
    requires m > 0
    ensures d >= 1 ==> d * m >= m
    ensures d <= -1 ==> d * m <= -m
  {
    if d >= 1 {
      assert d * m == (d - 1) * m + m;
    } else if d <= -1 {
      assert d * m == (d + 1) * m - m;
    }
  }

  /** Euclidean division has one quotient and remainder. */
  lemma ModUnique(a: nat, m: nat, q: int, r: int)
    requires m > 0 && 0 <= r < m && a == q * m + r
    ensures a % m == r
  {
    var q', r' := a / m, a % m;
    assert (q - q') * m == r' - r;
    MultipleAtLeastModulus(q - q', m);
  }

  /**
   * With the mouse off the canvas and trails active, the first trail feeds
   * two of every trails.length + 1 frames: as main feed at index 0 and
   * through its own slot at index 1.
   */
  lemma FirstTrailFedTwice(mouse: Vec2, trails: seq<Trail>, tick: nat)
    requires !InsideOpen(mouse) && trails != []
    ensures SelectFeed(mouse, trails, tick) == TrailAt(0) <==> FrameIndex(tick, |trails|) <= 1
  {
  }

  /**
   * The position the accumulation pass actually renders. Selection happens
   * before `updateTrails`, which then moves the selected trail's position
   * object in place, so a trail feed renders the moved position of the
   * trail as it was selected from the old list.
   */
  function FedPosition(src: FeedSource, mouse: Vec2, before: seq<Trail>, heading: Heading): (p: Vec2)
    requires src.TrailAt? ==> src.index < |before|
    ensures src.Pointer? ==> p == mouse
    ensures src.OffCanvas? ==> p == OffCanvasPoint && !InsideClosed(p)
    ensures src.TrailAt? ==>
              && p.x - before[src.index].position.x == TrailSpeed * heading(before[src.index].angle).x
              && p.y - before[src.index].position.y == TrailSpeed * heading(before[src.index].angle).y
  {
    match src
    case Pointer => mouse
    case TrailAt(k) => Step(before[k], heading).position
    case OffCanvas => OffCanvasPoint
  }

  /**
   * A fed trail is rendered at its moved position; if it survives the
   * update, the survivor that comes from it has that position.
   */
  lemma FedTrailIsMoved(mouse: Vec2, before: seq<Trail>, tick: nat, heading: Heading)
    requires SelectFeed(mouse, before, tick).TrailAt?
    ensures var k := SelectFeed(mouse, before, tick).index;
            var p := FedPosition(TrailAt(k), mouse, before, heading);
            && p.x == before[k].position.x + TrailSpeed * heading(before[k].angle).x
            && p.y == before[k].position.y + TrailSpeed * heading(before[k].angle).y
            && (Alive(Step(before[k], heading)) ==>
                  exists j :: 0 <= j < |Survivors(before, heading)| && j < |KeptIndices(before, heading)|
                              && KeptIndices(before, heading)[j] == k
                              && Survivors(before, heading)[j] == Step(before[k], heading)
                              && Survivors(before, heading)[j].position == p)
  {
    var k := SelectFeed(mouse, before, tick).index;
    SurvivorsExactly(before, heading);
    var ks := KeptIndices(before, heading);
    if Alive(Step(before[k], heading)) {
      assert k in ks;
      var j :| 0 <= j < |ks| && ks[j] == k;
      assert Survivors(before, heading)[j] == Step(before[k], heading);
    }
  }

  /**
   * A fed trail that leaves the canvas or dies on this frame is still
   * rendered, at its moved position, while the update drops it: it has no
   * kept index and the list shrinks.
   */
  lemma DroppedTrailStillFed(mouse: Vec2, before: seq<Trail>, tick: nat, heading: Heading)
    requires SelectFeed(mouse, before, tick).TrailAt?
    requires !Alive(Step(before[SelectFeed(mouse, before, tick).index], heading))
    ensures var k := SelectFeed(mouse, before, tick).index;
            && FedPosition(TrailAt(k), mouse, before, heading) == Step(before[k], heading).position
            && k !in KeptIndices(before, heading)
            && |Survivors(before, heading)| < |before|
  {
    var k := SelectFeed(mouse, before, tick).index;
    SurvivorsExactly(before, heading);
    DroppedShrinks(before, heading, k);
  }

}
