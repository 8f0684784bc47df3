/** The lighting profiles and the surface shader's uniform bundle. */
module Profiles {

  datatype Option<T> = None | Some(value: T)

  /** A THREE.Color as red, green and blue components in [0,1]. */
  datatype Color = Color(r: real, g: real, b: real)

  /** `new THREE.Color(1, 1, 1)`. */
  const White: Color := Color(1.0, 1.0, 1.0)

  /** `'#ec3249'`, as sRGB components in [0,1]. */
  const Tint: Color := Color(236.0 / 255.0, 50.0 / 255.0, 73.0 / 255.0)

  /** A named lighting preset; only some presets carry a tint colour. */
  datatype Profile = Profile(
    ambient: real,
    diffuseStrength: real,
    specularStrength: real,
    specularPower: real,
    wrap: real,
    color: Option<Color>)

  /** The presets offered by the profile selector, by name. */
  const ProfileTable: map<string, Profile> := map[
    "original" := Profile(0.3, 1.0, 0.5, 32.0, 0.0, None),
    "soft" := Profile(0.5, 0.7, 0.3, 16.0, 0.5, None),
    "purple" := Profile(0.4, 0.6, 0.8, 24.0, 0.2, Some(Tint))
  ]

  /**
   * The selector offers exactly three presets; only "purple" carries a
   * tint, and "original" is the one with plain Lambert lighting (wrap 0).
   */
  lemma ProfileTableContents()
    ensures ProfileTable.Keys == {"original", "soft", "purple"}
    ensures forall name <- ProfileTable :: ProfileTable[name].color.Some? <==> name == "purple"
    ensures forall name <- ProfileTable :: ProfileTable[name].wrap == 0.0 <==> name == "original"
    ensures forall name <- ProfileTable :: 1.0 <= ProfileTable[name].specularPower <= 64.0
  {
  }

  /** The profile selected when the renderer starts. */
  const InitialProfileName: string := "soft"

  /** The uniforms of the surface material that the model tracks (`uDecay` … `uColor`). */
  datatype SurfaceUniforms = SurfaceUniforms(
    decay: real,
    displacementStrength: real,
    effectRadius: real,
    ambient: real,
    diffuseStrength: real,
    specularStrength: real,
    specularPower: real,
    wrap: real,
    color: Color)

  /** The surface uniforms as the material is created: the soft profile's lighting, untinted. */
  const InitialSurface: SurfaceUniforms :=
    SurfaceUniforms(0.95, 0.05, 0.15,
                    ProfileTable["soft"].ambient, ProfileTable["soft"].diffuseStrength,
                    ProfileTable["soft"].specularStrength, ProfileTable["soft"].specularPower,
                    ProfileTable["soft"].wrap, White)

  /** The colour a profile sets: its own tint, or white when it has none (`profile.color || white`). */
  function ProfileColor(p: Profile): Color {
    match p.color
    case Some(c) => c
    case None => White
  }

  /**
   * The uniforms after switching to profile p: the five lighting values and
   * the colour come from p, decay, displacement and radius are kept.
   */
  function ApplyProfile(u: SurfaceUniforms, p: Profile): (r: SurfaceUniforms)
    ensures r.decay == u.decay && r.displacementStrength == u.displacementStrength
            && r.effectRadius == u.effectRadius
    ensures r.ambient == p.ambient && r.diffuseStrength == p.diffuseStrength
            && r.specularStrength == p.specularStrength && r.specularPower == p.specularPower
            && r.wrap == p.wrap
    ensures r.color == if p.color.Some? then p.color.value else White
  {
    u.(ambient := p.ambient, diffuseStrength := p.diffuseStrength,
       specularStrength := p.specularStrength, specularPower := p.specularPower,
       wrap := p.wrap, color := ProfileColor(p))
  }

  /** A profile switch overwrites the whole lighting bundle: the previous profile leaves no trace. */
  lemma ApplyProfileLastWins(u: SurfaceUniforms, p: Profile, q: Profile)
    ensures ApplyProfile(ApplyProfile(u, p), q) == ApplyProfile(u, q)
  {
  }

  /** Selecting the same profile twice is the same as selecting it once. */
  lemma ApplyProfileIdempotent(u: SurfaceUniforms, p: Profile)
    ensures ApplyProfile(ApplyProfile(u, p), p) == ApplyProfile(u, p)
  {
  }

  /** The initial uniforms are what selecting the initial soft profile gives. */
  lemma InitialSurfaceIsSoft()
    ensures InitialProfileName in ProfileTable
    ensures ApplyProfile(InitialSurface, ProfileTable[InitialProfileName]) == InitialSurface
  {
  }

  /** Switching to the tinted profile and back to an untinted one restores white. */
  lemma UntintedProfileRestoresWhite(u: SurfaceUniforms)
    ensures ApplyProfile(ApplyProfile(u, ProfileTable["purple"]), ProfileTable["original"]).color == White
    ensures ApplyProfile(u, ProfileTable["purple"]).color == Tint
  {
  }
}
