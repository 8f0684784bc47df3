/**
 * The renderer's state machine: pointer, trail list, the two ping-pong
 * accumulation targets, the time uniform, the fed point and the surface
 * uniforms, advanced one animation frame at a time.
 */
module Renderer {
  import opened Geometry
  import opened Trails
  import opened Feed
  import opened Pointer
  import opened Profiles

  /** An off-screen render target; only its identity and its recorded size are modelled. */
  class RenderTarget {
    var width: nat
    var height: nat

    constructor (w: nat, h: nat)
      ensures width == w && height == h
    {
      width, height := w, h;
    }

    /** `setSize`: records the new size; the GPU contents are not modelled. */
    method SetSize(w: nat, h: nat)
      modifies this
      ensures width == w && height == h
    {
      width, height := w, h;
    }
  }

  /** `floor(uTime * 100)` over exact reals. */
  function FrameTick(time: real): (tick: nat)
    requires time >= 0.0
    ensures tick as real <= time * 100.0 < tick as real + 1.0
  {
    (time * 100.0).Floor
  }

  /** Starting from 0, the tick read after the n-th increment of 0.01 is n: the frame counter. */
  lemma FrameTickCountsFrames(n: nat)
    ensures FrameTick(n as real * 0.01) == n
  {
    assert n as real * 0.01 * 100.0 == n as real;
  }

  /** Whether n swaps leave the pair exchanged. */
  ghost function Odd(n: nat): bool {
    if n == 0 then false else !Odd(n - 1)
  }

  lemma {:induction false} OddIsRemainder(n: nat)
    ensures Odd(n) <==> n % 2 == 1
  {
    if n > 0 { OddIsRemainder(n - 1); }
  }

  class ShaderRenderer {
    /** The normalized pointer (`this.mouse`). */
    var mouse: Vec2
    /** The active wandering trails, oldest first. */
    var trails: seq<Trail>
    /** The viewport size in pixels (`this.sizes`). */
    var width: nat
    var height: nat
    /** The ping-pong pair: slot 0 is `accumulationTargetA` (written), slot 1 `accumulationTargetB` (read). */
    const targets: array<RenderTarget>
    /** The accumulation material's `uTime`. */
    var time: real
    /** The accumulation material's `uPreviousTexture`. */
    var previousTexture: RenderTarget?
    /** The surface material's `uTrailTexture`. */
    var trailTexture: RenderTarget?
    /** The target the last accumulation pass rendered into. */
    var lastWritten: RenderTarget?
    /** What the accumulation material's `uMousePos` refers to. */
    var feedSource: FeedSource
    /** The point the last accumulation pass rendered at (the value behind `uMousePos` at render time). */
    var feedPosition: Vec2
    /** The surface material's lighting uniforms. */
    var surface: SurfaceUniforms
    /** The selected profile's name. */
    var currentProfile: string

    ghost predicate Valid()
      reads this, targets, targets[..]
    {
      && targets.Length == 2
      && targets[0] != targets[1]
      && targets[0].width == width && targets[0].height == height
      && targets[1].width == width && targets[1].height == height
      && ListInvariant(trails)
      && time >= 0.0
    }

    /**
     * Builds the renderer for a viewport of w x h pixels: both targets at
     * that size, no trails, the mouse at (0,0), the soft profile; then the
     * animation loop runs its first frame.
     */
    constructor (w: nat, h: nat, heading: Heading)
      ensures Valid() && fresh(targets) && fresh(targets[0]) && fresh(targets[1])
      ensures width == w && height == h
      ensures mouse == Vec2(0.0, 0.0) && trails == []
      ensures surface == InitialSurface && currentProfile == InitialProfileName
      ensures time == 0.01
      ensures trailTexture == lastWritten == targets[1] && previousTexture == targets[0]
      ensures feedSource == OffCanvas && feedPosition == OffCanvasPoint
    {
      mouse := Vec2(0.0, 0.0);
      trails := [];
      width, height := w, h;
      var a := new RenderTarget(w, h);
      var b := new RenderTarget(w, h);
      targets := new RenderTarget[2] [a, b];
      time := 0.0;
      previousTexture, trailTexture, lastWritten := null, null, null;
      feedSource := Pointer;
      feedPosition := mouse;
      surface := InitialSurface;
      currentProfile := InitialProfileName;
      new;
      FrameTickCountsFrames(1);
      UpdateTrailTexture(heading);
    }

    /** The spawn timer: appends a new trail built from three random draws while fewer than three are active. */
    method SpawnTimerTick(rx: real, ry: real, ra: real) returns (spawned: bool)
      requires Valid()
      requires 0.0 <= rx < 1.0 && 0.0 <= ry < 1.0 && 0.0 <= ra < 1.0
      modifies this`trails
      ensures Valid()
      ensures spawned == (|old(trails)| < MaxTrails)
      ensures trails == if spawned then old(trails) + [NewTrail(rx, ry, ra)] else old(trails)
    {
      spawned := |trails| < MaxTrails;
      if spawned {
        trails := trails + [NewTrail(rx, ry, ra)];
      }
    }

    /** `handleMouseMove`: the mouse becomes the normalized pointer position. */
    method HandleMouseMove(clientX: real, clientY: real)
      requires Valid()
      requires width > 0 && height > 0
      modifies this`mouse
      ensures Valid()
      ensures mouse == NormalizePointer(clientX, clientY, width, height)
    {
      mouse := Vec2(clientX / width as real, 1.0 - clientY / height as real);
    }

    /** `updateTrails`: moves and fades every trail, then keeps those still alive and on the canvas. */
    method UpdateTrails(heading: Heading)
      requires Valid()
      modifies this`trails
      ensures Valid()
      ensures trails == Survivors(old(trails), heading)
    {
      var ts := trails;
      var kept: seq<Trail> := [];
      var i := 0;
      while i < |ts|
        invariant 0 <= i <= |ts|
        invariant kept == Survivors(ts[..i], heading)
      {
        var t := ts[i];
        var d := heading(t.angle);
        t := t.(position := Vec2(t.position.x + d.x * TrailSpeed, t.position.y + d.y * TrailSpeed));
        t := t.(life := t.life - LifeDecrement);
        if t.life > 0.0 && 0.0 <= t.position.x <= 1.0 && 0.0 <= t.position.y <= 1.0 {
          kept := kept + [t];
        }
        assert ts[..i + 1][..i] == ts[..i];
        i := i + 1;
      }
      assert ts[..i] == ts;
      SurvivorsWellFormed(ts, heading);
      trails := kept;
    }

    /** The buffer-size part of `handleResize`: both targets take the new viewport size. */
    method HandleResize(w: nat, h: nat)
      requires Valid()
      modifies this`width, this`height, targets[0], targets[1]
      ensures Valid()
      ensures width == w && height == h
      ensures targets[0].width == targets[1].width == w
      ensures targets[0].height == targets[1].height == h
    {
      width, height := w, h;
      targets[0].SetSize(w, h);
      targets[1].SetSize(w, h);
    }

    /**
     * The profile selector's change handler: records the name, then copies
     * the profile's lighting values and colour into the uniforms. A name
     * outside the table makes the lookup undefined and the first uniform
     * write throw: the handler fails (ok is false) after the name is
     * recorded, leaving the uniforms as they were.
     */
    method OnProfileChange(value: string) returns (ok: bool)
      requires Valid()
      modifies this`currentProfile, this`surface
      ensures Valid()
      ensures currentProfile == value
      ensures ok == (value in ProfileTable)
      ensures ok ==> surface == ApplyProfile(old(surface), ProfileTable[value])
      ensures !ok ==> surface == old(surface)
    {
      currentProfile := value;
      if value !in ProfileTable {
        return false;
      }
      var profile := ProfileTable[value];
      surface := surface.(ambient := profile.ambient);
      surface := surface.(diffuseStrength := profile.diffuseStrength);
      surface := surface.(specularStrength := profile.specularStrength);
      surface := surface.(specularPower := profile.specularPower);
      surface := surface.(wrap := profile.wrap);
      surface := surface.(color := if profile.color.Some? then profile.color.value else White);
      ok := true;
    }

    /**
     * `updateTrailTexture`, one frame of the accumulation pass: advance the
     * time, read B and write A, select the feed from the list as it was,
     * update the trails, render at the fed point, hand A to the surface
     * material and swap the pair.
     */
    method UpdateTrailTexture(heading: Heading)
      requires Valid()
      modifies this`time, this`previousTexture, this`feedSource, this`trails,
               this`feedPosition, this`lastWritten, this`trailTexture, targets
      ensures Valid()
      ensures time == old(time) + 0.01
      ensures previousTexture == old(targets[1]) && lastWritten == old(targets[0])
      ensures lastWritten != previousTexture
      ensures trailTexture == lastWritten
      ensures targets[0] == old(targets[1]) && targets[1] == old(targets[0])
      ensures feedSource == SelectFeed(mouse, old(trails), FrameTick(time))
      ensures feedPosition == FedPosition(feedSource, mouse, old(trails), heading)
      ensures trails == Survivors(old(trails), heading)
    {
      time := time + 0.01;

      var currentTarget := targets[0];
      var previousTarget := targets[1];
      previousTexture := previousTarget;

      RenderFedPoint(heading);
      lastWritten := currentTarget;

      trailTexture := currentTarget;

      SwapTargets();
    }

    /**
     * The middle of a frame: select the feed from the list as it was,
     * update the trails, and render at the fed point.
     */
    method RenderFedPoint(heading: Heading)
      requires Valid()
      modifies this`feedSource, this`trails, this`feedPosition
      ensures Valid()
      ensures feedSource == SelectFeed(mouse, old(trails), FrameTick(time))
      ensures feedPosition == FedPosition(feedSource, mouse, old(trails), heading)
      ensures trails == Survivors(old(trails), heading)
    {
      feedSource := SelectFeed(mouse, trails, FrameTick(time));
      var before := trails;
      UpdateTrails(heading);
      feedPosition := FedPosition(feedSource, mouse, before, heading);
    }

    /** The swap `[A, B] = [B, A]`: the two slots exchange their targets. */
    method SwapTargets()
      requires Valid()
      modifies targets
      ensures Valid()
      ensures targets[0] == old(targets[1]) && targets[1] == old(targets[0])
    {
      targets[0], targets[1] := targets[1], targets[0];
    }

    /**
     * n turns of the animation loop with no pointer, resize, profile or
     * spawn events in between: the time advances by n * 0.01, the pair is
     * swapped n times and the trails are updated n times.
     */
    method AnimateFrames(n: nat, heading: Heading)
      requires Valid()
      modifies this`time, this`previousTexture, this`feedSource, this`trails,
               this`feedPosition, this`lastWritten, this`trailTexture, targets
      ensures Valid()
      ensures time == old(time) + n as real * 0.01
      ensures n % 2 == 0 ==> targets[0] == old(targets[0]) && targets[1] == old(targets[1])
      ensures n % 2 == 1 ==> targets[0] == old(targets[1]) && targets[1] == old(targets[0])
      ensures n > 0 ==> trailTexture == lastWritten == targets[1] && previousTexture == targets[0]
      ensures n > 0 ==> feedSource == SelectFeed(mouse, Frames(old(trails), heading, n - 1), FrameTick(time))
      ensures n > 0 ==> feedPosition == FedPosition(feedSource, mouse, Frames(old(trails), heading, n - 1), heading)
      ensures n == 0 ==> trailTexture == old(trailTexture) && lastWritten == old(lastWritten)
                         && previousTexture == old(previousTexture)
                         && feedSource == old(feedSource) && feedPosition == old(feedPosition)
      ensures trails == Frames(old(trails), heading, n)
    {
      if n == 0 {
        return;
      }
      ghost var a, b, ts, t0 := targets[0], targets[1], trails, time;
      // `prev` is the list the last frame selected its feed from.
      ghost var prev := trails;
      UpdateTrailTexture(heading);
      ghost var swapped := true;
      var i := 1;
      while i < n
        invariant 1 <= i <= n
        invariant Valid()
        invariant time == t0 + i as real * 0.01
        invariant swapped == Odd(i)
        invariant targets[0] == (if swapped then b else a) && targets[1] == (if swapped then a else b)
        invariant trailTexture == lastWritten == targets[1] && previousTexture == targets[0]
        invariant prev == Frames(ts, heading, i - 1)
        invariant feedSource == SelectFeed(mouse, prev, FrameTick(time))
        invariant feedPosition == FedPosition(feedSource, mouse, prev, heading)
        invariant trails == Survivors(prev, heading)
      {
        prev := trails;
        UpdateTrailTexture(heading);
        swapped := !swapped;
        i := i + 1;
      }
      OddIsRemainder(n);
    }
  }

  /**
   * Two consecutive frames of the animation loop: the target the first
   * frame writes is the one the second reads, and the second writes the one
   * the first read, so the pair alternates roles frame by frame.
   */
  method TwoFrames(r: ShaderRenderer, heading: Heading)
    returns (written1: RenderTarget?, read1: RenderTarget?, written2: RenderTarget?, read2: RenderTarget?)
    requires r.Valid()
    modifies r, r.targets
    ensures r.Valid()
    ensures written1 != null && read1 != null && written1 != read1
    ensures read2 == written1 && written2 == read1
  {
    r.UpdateTrailTexture(heading);
    written1, read1 := r.lastWritten, r.previousTexture;
    r.UpdateTrailTexture(heading);
    written2, read2 := r.lastWritten, r.previousTexture;
  }
}
