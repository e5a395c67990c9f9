/**
 Blend modes: the catalogue that maps every blend function to the shader code
 implementing it, and the `BlendMode` value that pairs a blend function with
 an opacity and announces every change of its function with a "change" event.
 */
module BlendModes {

  import opened Wrappers

  /** The closed enumeration of blend functions. */
  datatype BlendFunction =
    | Skip | Add | Alpha | Average | ColorBurn | ColorDodge | Darken
    | Difference | Exclusion | Lighten | Multiply | Divide | Negation
    | Normal | Overlay | Reflect | Screen | SoftLight | Subtract

  /**
   A shader fragment. Its GLSL text is opaque here; a fragment is identified
   by the shader file it is imported from.
   */
  datatype Fragment = Fragment(file: string)

  /** Every blend function, in the order of the catalogue. */
  const AllFunctions: seq<BlendFunction> := [
    Skip, Add, Alpha, Average, ColorBurn, ColorDodge, Darken,
    Difference, Exclusion, Lighten, Multiply, Divide, Negation,
    Normal, Overlay, Reflect, Screen, SoftLight, Subtract
  ]

  /**
   The catalogue `blendFunctions`: `Skip` has no shader code (`null`), every
   other function has its own fragment file.
   */
  function Catalogue(f: BlendFunction): (r: Option<Fragment>)
    ensures r.None? <==> f == Skip
    ensures r.Some? ==> |r.value.file| > 0
  {
    match f
    case Skip => None
    case Add => Some(Fragment("./glsl/add/shader.frag"))
    case Alpha => Some(Fragment("./glsl/alpha/shader.frag"))
    case Average => Some(Fragment("./glsl/average/shader.frag"))
    case ColorBurn => Some(Fragment("./glsl/color-burn/shader.frag"))
    case ColorDodge => Some(Fragment("./glsl/color-dodge/shader.frag"))
    case Darken => Some(Fragment("./glsl/darken/shader.frag"))
    case Difference => Some(Fragment("./glsl/difference/shader.frag"))
    case Exclusion => Some(Fragment("./glsl/exclusion/shader.frag"))
    case Lighten => Some(Fragment("./glsl/lighten/shader.frag"))
    case Multiply => Some(Fragment("./glsl/multiply/shader.frag"))
    case Divide => Some(Fragment("./glsl/divide/shader.frag"))
    case Negation => Some(Fragment("./glsl/negation/shader.frag"))
    case Normal => Some(Fragment("./glsl/normal/shader.frag"))
    case Overlay => Some(Fragment("./glsl/overlay/shader.frag"))
    case Reflect => Some(Fragment("./glsl/reflect/shader.frag"))
    case Screen => Some(Fragment("./glsl/screen/shader.frag"))
    case SoftLight => Some(Fragment("./glsl/soft-light/shader.frag"))
    case Subtract => Some(Fragment("./glsl/subtract/shader.frag"))
  }

  /** The only event a blend mode dispatches. */
  datatype Event = Change

  /**
   A blend mode: the current blend function, the opacity, and the log of the
   events dispatched so far (the `EventDispatcher` the class extends).
   */
  datatype BlendMode = BlendMode(f: BlendFunction, opacity: real, events: seq<Event>)

  /** The opacity a blend mode gets when the constructor is given none. */
  const DefaultOpacity: real := 1.0

  /**
   The constructor: stores the blend function and the opacity (1.0 when
   absent) and dispatches nothing.
   */
  function Create(f: BlendFunction, opacity: Option<real>): (r: BlendMode)
    ensures GetBlendFunction(r) == f
    ensures GetOpacity(r) == if opacity.Some? then opacity.value else 1.0
    ensures r.events == []
  {
    BlendMode(f, if opacity.Some? then opacity.value else DefaultOpacity, [])
  }

  /** `getOpacity()`. */
  function GetOpacity(b: BlendMode): real
  {
    b.opacity
  }

  /** `setOpacity(x)`: stores the opacity and dispatches no event. */
  function SetOpacity(b: BlendMode, x: real): (r: BlendMode)
    ensures GetOpacity(r) == x
    ensures GetBlendFunction(r) == GetBlendFunction(b)
    ensures GetShaderCode(r) == GetShaderCode(b)
    ensures r.events == b.events
  {
    b.(opacity := x)
  }

  /** The `blendFunction` getter and the deprecated `getBlendFunction()`. */
  function GetBlendFunction(b: BlendMode): BlendFunction
  {
    b.f
  }

  /**
   The `blendFunction` setter and the deprecated `setBlendFunction(v)`:
   stores `v` and dispatches exactly one "change" event, even when `v` is
   the current function.
   */
  function SetBlendFunction(b: BlendMode, v: BlendFunction): (r: BlendMode)
    ensures GetBlendFunction(r) == v
    ensures GetOpacity(r) == GetOpacity(b)
    ensures r.events == b.events + [Change]
    ensures GetShaderCode(r) == Catalogue(v)
  {
    BlendMode(v, b.opacity, b.events + [Change])
  }

  /** `getShaderCode()`: the catalogue entry of the current blend function. */
  function GetShaderCode(b: BlendMode): (r: Option<Fragment>)
    ensures r.None? <==> GetBlendFunction(b) == Skip
  {
    Catalogue(b.f)
  }
}
