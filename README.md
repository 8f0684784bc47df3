# Shader trail renderer: trail bookkeeping and frame sequencing

This project models the state machine inside the `ShaderRenderer` class of
`threejs-shaders-template/src/main.js`. The class draws a full-viewport
shader background. An accumulation pass integrates a moving "feed point"
into a pair of ping-pong render targets. A surface pass then samples the
target just written. The model covers:

- the wandering trails: at most three points, spawned by a 2-second timer,
  moved along their heading and faded every frame, and dropped when dead or
  off the canvas (module `Trails`);
- the choice of feed point: the mouse or a trail, picked by a time-derived
  frame index. The trail's position is read after the update has moved it
  (module `Feed`);
- mouse normalisation (module `Pointer`);
- the lighting profiles and the uniform bundle that a profile switch
  overwrites (module `Profiles`);
- the renderer object itself (module `Renderer`). It holds the pointer, the
  trail list, the viewport size, the two-slot array of render targets, the
  `uTime` uniform, the texture uniforms and the fed point. Its methods are
  the spawn timer callback, `handleMouseMove`, `updateTrails`, the
  buffer-size part of `handleResize`, the profile `onChange` handler and
  `updateTrailTexture`. `AnimateFrames` runs n turns of the animation loop.

Coordinates, life and time are exact `real`s. `Math.random()` draws are
method parameters in [0,1). `(Math.cos(a), Math.sin(a))` is a function
parameter `heading: real -> Vec2`. Render targets are objects that carry
only their recorded size, and a texture is named by its target.

Behaviours of `main.js` worth knowing, each proved about the model:

- A trail exactly on the canvas edge (x or y equal to 0 or 1) is kept,
  because the filter uses `>= 0` and `<= 1` (`Trails.EdgeIsKept`). A trail
  whose life reaches exactly 0 is dropped (`Trails.ZeroLifeIsDropped`).
- Frame index k >= 1 selects trail k-1 even when the mouse is on the
  canvas. The mouse only wins index 0 (`Feed.SelectFeed`, `Feed.EveryTrailIsFed`).
- With the mouse off the canvas, index 0 falls back to the first trail
  rather than off-canvas. So the first trail feeds two frames of every
  cycle (`Feed.FirstTrailFedTwice`).

## Model

| member | source | states |
|---|---|---|
| Pointer.NormalizePointer | threejs-shaders-template/src/main.js:270-273 | The mouse is (clientX/width, 1 - clientY/height), stated as its inverse: multiplying back by the viewport size gives the client coordinates. There is no clamping. |
| Pointer.NormalizePointerInjective | threejs-shaders-template/src/main.js:270-273 | Two pointer events give the same mouse position if and only if their client coordinates are equal. |
| Pointer.InsideViewportIff | threejs-shaders-template/src/main.js:270-273 | The normalized mouse is strictly inside (0,1)² if and only if the pointer is strictly inside the viewport. |
| Trails.NewTrail | threejs-shaders-template/src/main.js:24-31 | A spawned trail starts at (rx, ry) in [0,1)², with life 1.0 and heading exactly ra·π·2, which lies in [0,2π). It is well formed. |
| Trails.Step | threejs-shaders-template/src/main.js:279-283 | One frame keeps the heading, lowers life by exactly 0.001 and moves the position by 0.005·(cos, sin) of the heading. |
| Trails.Survivors | threejs-shaders-template/src/main.js:277-289 | After an update the list never grows, and every remaining trail is alive and inside [0,1]². |
| Trails.SurvivorsExactly | threejs-shaders-template/src/main.js:277-289 | The updated list is exactly the moved trails that pass the filter. The j-th survivor is the moved trail at the j-th kept index. Kept indices strictly increase, so order is preserved. An index is kept if and only if its moved trail has life > 0 and lies in [0,1]². |
| Trails.KeptIndicesIncreasing | threejs-shaders-template/src/main.js:277-289 | The kept indices are positions of the old list, in strictly increasing order: the loop keeps trails in their original order. |
| Trails.SurvivorsAtKeptIndices | threejs-shaders-template/src/main.js:279-288 | There are as many survivors as kept indices, and the j-th survivor is the moved trail at the j-th kept index. |
| Trails.KeptIndicesAreAlive | threejs-shaders-template/src/main.js:286-288 | The filter: an index is kept if and only if its moved trail has life > 0 and both coordinates in [0,1] (inclusive bounds). |
| Trails.SurvivorsAppend | threejs-shaders-template/src/main.js:277-289 | The update filters trail by trail: updating a + b gives the update of a followed by the update of b. |
| Trails.SurvivorsWellFormed | threejs-shaders-template/src/main.js:275-290 | The update keeps the list invariant: life in (0,1], positions in [0,1]², headings in [0,2π). |
| Trails.LifeAfterFrames | threejs-shaders-template/src/main.js:283 | After n updates every remaining trail has life at most 1 - 0.001·n. |
| Trails.FadedAreDropped | threejs-shaders-template/src/main.js:283-288 | A list whose trails all have at most 0.001 of life left is emptied by the next update. |
| Trails.FadedTrailIsDropped | threejs-shaders-template/src/main.js:283-286 | In any list, a trail with at most 0.001 of life left is not kept by the next update. |
| Trails.DrainedAfterLifeSpan | threejs-shaders-template/src/main.js:275-290 | With no spawns in between, any well-formed list is empty after 1000 updates. |
| Trails.EdgeIsKept | threejs-shaders-template/src/main.js:286-288 | Any trail with life left that moves exactly onto the canvas edge (a coordinate equal to 0 or 1) is kept: the bounds are inclusive. |
| Trails.DroppedShrinks | threejs-shaders-template/src/main.js:285-288 | When any moved trail fails the filter, the update leaves strictly fewer trails than there were. |
| Trails.ZeroLifeIsDropped | threejs-shaders-template/src/main.js:283-286 | A trail whose life reaches exactly 0 is removed by the same update. |
| Feed.MainFeed | threejs-shaders-template/src/main.js:323-325 | The main feed is the mouse if and only if the mouse is strictly inside (0,1)². Otherwise it is the first trail when the list is non-empty, and off-canvas (-1,-1) when it is empty. |
| Feed.FrameIndex | threejs-shaders-template/src/main.js:328 | The frame index lies in [0, trails.length]. It is 0 exactly when the tick is a multiple of trails.length + 1. |
| Feed.SelectFeed | threejs-shaders-template/src/main.js:328-330 | Index 0 selects the main feed and index k ≥ 1 selects trail k-1. A selected trail index is always within the list, so the `|| mainTrail` fallback is never taken. |
| Feed.SelectFeedPeriodic | threejs-shaders-template/src/main.js:328 | The selection repeats with period trails.length + 1 ticks. |
| Feed.EveryTrailIsFed | threejs-shaders-template/src/main.js:328-330 | Every trail is selected at least once per cycle, at offset j + 1 for trail j, wherever the mouse is. |
| Feed.FirstTrailFedTwice | threejs-shaders-template/src/main.js:323-330 | With the mouse off the canvas and trails active, the first trail is selected exactly at frame indices 0 and 1. |
| Feed.FedPosition | threejs-shaders-template/src/main.js:329-336 | The point rendered: the mouse for the pointer feed, exactly (-1,-1), which lies off [0,1]², for the off-canvas feed, and for a trail the selected trail's old position displaced by 0.005·(cos, sin) of its heading, because the update moved the object `uMousePos` refers to. |
| Feed.FedTrailIsMoved | threejs-shaders-template/src/main.js:329-336 | A fed trail is rendered at its position after the update has moved it in place. If the trail survives, it is the survivor at some position j whose kept index is the selected trail, that survivor is the moved trail, and its position is the fed point. |
| Feed.DroppedTrailStillFed | threejs-shaders-template/src/main.js:329-336 | For every trail selected on the frame it fails the filter: it is still rendered, at its moved position, while its index is not kept and the new list is shorter than the old. |
| Profiles.ProfileTableContents | threejs-shaders-template/src/main.js:90-113 | The table holds exactly "original", "soft" and "purple". Only "purple" carries a tint, only "original" has wrap 0, and every specular power lies in [1,64]. |
| Profiles.ApplyProfile | threejs-shaders-template/src/main.js:156-162 | A profile switch sets ambient, diffuse, specular strength, specular power and wrap from the profile. Colour becomes the profile's tint, or white when it has none. Decay, displacement and radius are left as they were. |
| Profiles.ApplyProfileLastWins | threejs-shaders-template/src/main.js:154-163 | Switching to p and then q gives the same uniforms as switching to q alone. |
| Profiles.ApplyProfileIdempotent | threejs-shaders-template/src/main.js:154-163 | Selecting the same profile twice gives the same uniforms as selecting it once. |
| Profiles.InitialSurfaceIsSoft | threejs-shaders-template/src/main.js:115-138 | The uniforms the material starts with are what selecting the initial "soft" profile produces. |
| Profiles.UntintedProfileRestoresWhite | threejs-shaders-template/src/main.js:105-112 | The "purple" profile sets the tint #ec3249. Switching from it to "original" restores white. |
| Renderer.FrameTick | threejs-shaders-template/src/main.js:328 | The tick is floor(uTime·100): a natural number within 1 below uTime·100. |
| Renderer.FrameTickCountsFrames | threejs-shaders-template/src/main.js:314 | Starting from 0, after n increments of 0.01 the tick is exactly n (exact arithmetic). |
| Renderer.RenderTarget.constructor | threejs-shaders-template/src/main.js:180-190 | A new render target records the requested size. |
| Renderer.RenderTarget.SetSize | threejs-shaders-template/src/main.js:308-309 | `setSize` records the new size. |
| Renderer.ShaderRenderer.constructor | threejs-shaders-template/src/main.js:11-57 | For any viewport size, zero included, builds two distinct fresh targets at that size, no trails, the mouse at (0,0), the soft profile and an untinted surface. Then the first animation frame runs: time is 0.01, B was read, A was written and handed to the surface, the pair is swapped and the feed is off-canvas. |
| Renderer.ShaderRenderer.SpawnTimerTick | threejs-shaders-template/src/main.js:22-33 | A trail is spawned if and only if fewer than 3 are active. It is appended at the end, and the count never exceeds 3. |
| Renderer.ShaderRenderer.HandleMouseMove | threejs-shaders-template/src/main.js:270-273 | The mouse becomes the normalized pointer position for the current viewport size. |
| Renderer.ShaderRenderer.UpdateTrails | threejs-shaders-template/src/main.js:275-290 | The loop moves, fades and filters every trail. The new list is `Survivors` of the old one, and the list invariant is kept. |
| Renderer.ShaderRenderer.HandleResize | threejs-shaders-template/src/main.js:292-310 | For any new size, zero included, the recorded viewport size and both targets take it, so the two targets always have the same size. |
| Renderer.ShaderRenderer.OnProfileChange | threejs-shaders-template/src/main.js:154-163 | The name is always recorded. A profile in the table is applied to the uniforms. For a name outside the table the lookup is undefined and the handler throws, after recording the name and before touching any uniform, so the uniforms are unchanged. |
| Renderer.ShaderRenderer.UpdateTrailTexture | threejs-shaders-template/src/main.js:312-345 | One frame: uTime grows by exactly 0.01. The pass reads B and writes A, and these are never the same target. The feed is selected from the list as it was before the update, and rendered at the moved position. The surface texture becomes the target just written, and the two slots swap. |
| Renderer.ShaderRenderer.RenderFedPoint | threejs-shaders-template/src/main.js:328-336 | The middle of a frame: the feed is selected from the list as it was, the trails are updated to `Survivors` of the old list, and the fed point is the selected source resolved against the moved trails. |
| Renderer.ShaderRenderer.SwapTargets | threejs-shaders-template/src/main.js:343-344 | The two slots exchange their targets, and the targets stay distinct. |
| Renderer.ShaderRenderer.AnimateFrames | threejs-shaders-template/src/main.js:347-363 | n frames advance time by n·0.01 and swap the pair n times, so slots are exchanged when n is odd. After at least one frame, the surface samples the last target written, the feed is the one selected from the list after n-1 updates at the final tick, and the fed point is that feed resolved after the n-th update. With n = 0 nothing changes. The trails are those after n updates. |
| Renderer.TwoFrames | threejs-shaders-template/src/main.js:312-345 | In two consecutive frames, the target the first frame writes is the one the second frame reads, and the reverse. |

## Left out

- Everything drawn through Three.js/WebGL is left out, because these are foreign library calls. That covers what the passes write into the targets, `clear`, the main scene render, materials, meshes, the camera and the renderer's own `setSize`. Only target identities and recorded sizes are kept.
- The GLSL programs (decay, turbulence, swirl, lighting) are not part of this model; they are per-pixel floating-point numerics.
- `calculateCameraDistance`, the camera aspect and the pixel ratio in `handleResize` are left out: they are trigonometry and foreign calls.
- `Math.random`, `Math.cos` and `Math.sin` are left out; the model takes their results as parameters.
- IEEE-754 arithmetic is not modelled. Positions, life and `uTime` are exact reals, so `+= 0.01` and `-= 0.001` do not round.
- Renderer.FrameTick: computes floor(uTime·100) over exact reals. Accumulated floating-point `uTime` can floor to a neighbouring value. The selection lemmas in `Feed` hold for every tick, so they cover any value the float computation yields.
- Renderer.ShaderRenderer.OnProfileChange: names inherited from `Object.prototype` ("toString", "constructor", "__proto__") are not modelled. In main.js their lookup in the `profiles` object literal is defined, so the handler sets five uniforms to `undefined` and the colour to white; the model treats every name outside the table as a failed lookup. The selector only offers the three table names.
- Renderer.ShaderRenderer.HandleMouseMove: requires a non-zero viewport. In JavaScript a zero width or height gives Infinity or NaN, which reals cannot represent. The constructor and `HandleResize` accept a zero size.
- Trail objects are modelled as values, not mutated in place. The reference `uMousePos` keeps to a trail's position is modelled by the trail's index in the list as it was at selection (`Feed.FeedSource`), resolved against the moved trail.
- Event timing is left out: `setInterval`, `requestAnimationFrame` and DOM listeners are host scheduling. Spawns, pointer moves, resizes and profile switches are separate methods that the caller may interleave between frames. `AnimateFrames` runs frames with no events in between.
- The GUI sliders (lil-gui) and the mesh size controls are left out. The sliders can set displacement, effect radius, decay, specular strength and specular power at any time (main.js:164-168), and the trail material's five fluid uniforms (main.js:211-215). The size controls set the mesh scale, not a uniform (main.js:65-72). Ambient, diffuse strength, wrap and colour change only through the profile switch, which is modelled.
- Texture loading and the aspect-ratio reshape of the plane (main.js:81-86) are left out; they are asynchronous asset I/O.
- The trail material's turbulence, edge, swirl and persistence uniforms, and `uCurrentTexture`, are left out. No core operation changes them.
- Profiles.Tint: the colour `'#ec3249'` is given as sRGB components divided by 255. Any colour-space conversion three.js may apply is not modelled.
- threejs-shaders-template/src/ShaderBackground.jsx is not part of this model. It is a React wrapper around the same pipeline without trails. Its swap at ShaderBackground.jsx:149 assigns to the `const` bindings declared at lines 70 and 76, which throws a TypeError in JavaScript.
