/**
 Properties of the blend-function catalogue and of blend modes under
 sequences of calls: the catalogue is total and tells functions apart, and
 the "change" events are exactly what a listener needs to keep its copy of
 the shader code current.
 */
module BlendModeProperties {

  import opened Wrappers
  import opened BlendModes

  /**
   Every blend function is listed once, there are 19 of them, and the only
   one the catalogue gives no shader code is the first, `Skip`.
   */
  lemma AllFunctionsComplete()
    ensures |AllFunctions| == 19
    ensures forall f: BlendFunction :: f in AllFunctions
    ensures forall i, j :: 0 <= i < j < |AllFunctions| ==> AllFunctions[i] != AllFunctions[j]
    ensures forall i :: 0 <= i < |AllFunctions| ==> (Catalogue(AllFunctions[i]).None? <==> i == 0)
  {
    forall f: BlendFunction ensures f in AllFunctions {
      match f {
        case Skip => case Add => case Alpha => case Average => case ColorBurn =>
        case ColorDodge => case Darken => case Difference => case Exclusion =>
        case Lighten => case Multiply => case Divide => case Negation => case Normal =>
        case Overlay => case Reflect => case Screen => case SoftLight => case Subtract =>
      }
    }
  }

  /**
   `Skip` is the only function without shader code, and distinct functions
   have distinct fragments.
   */
  lemma CatalogueSeparatesFunctions(f: BlendFunction, g: BlendFunction)
    ensures Catalogue(f) == None <==> f == Skip
    ensures Catalogue(f) == Catalogue(g) ==> f == g
  {
  }

  /** A call on a blend mode. */
  datatype Command = SetOpacityCmd(x: real) | SetFunctionCmd(v: BlendFunction)

  function Step(b: BlendMode, c: Command): BlendMode
  {
    match c
    case SetOpacityCmd(x) => SetOpacity(b, x)
    case SetFunctionCmd(v) => SetBlendFunction(b, v)
  }

  /** Performs the calls of `cs` one after the other. */
  function Run(b: BlendMode, cs: seq<Command>): BlendMode
    decreases |cs|
  {
    if |cs| == 0 then b else Run(Step(b, cs[0]), cs[1..])
  }

  /** How many calls of `cs` set the blend function. */
  function FunctionSets(cs: seq<Command>): nat
    decreases |cs|
  {
    if |cs| == 0 then 0
    else (if cs[0].SetFunctionCmd? then 1 else 0) + FunctionSets(cs[1..])
  }

  /** The blend function in force after `cs`, starting from `f`. */
  function LastFunction(f: BlendFunction, cs: seq<Command>): BlendFunction
    decreases |cs|
  {
    if |cs| == 0 then f
    else LastFunction(if cs[0].SetFunctionCmd? then cs[0].v else f, cs[1..])
  }

  /**
   Every blend-function call dispatches exactly one "change" event and every
   opacity call none, so the log grows by the number of function calls.
   */
  lemma {:induction false} EventsCountFunctionSets(b: BlendMode, cs: seq<Command>)
    ensures Run(b, cs).events == b.events + seq(FunctionSets(cs), _ => Change)
    decreases |cs|
  {
    if |cs| > 0 {
      EventsCountFunctionSets(Step(b, cs[0]), cs[1..]);
    }
  }

  /**
   After any calls, the blend function is the last one set and the shader
   code is its catalogue entry.
   */
  lemma {:induction false} RunEndsOnLastFunction(b: BlendMode, cs: seq<Command>)
    ensures GetBlendFunction(Run(b, cs)) == LastFunction(GetBlendFunction(b), cs)
    ensures GetShaderCode(Run(b, cs)) == Catalogue(LastFunction(GetBlendFunction(b), cs))
    decreases |cs|
  {
    if |cs| > 0 {
      RunEndsOnLastFunction(Step(b, cs[0]), cs[1..]);
    }
  }

  /** The opacity in force after `cs`, starting from `x`. */
  function LastOpacity(x: real, cs: seq<Command>): real
    decreases |cs|
  {
    if |cs| == 0 then x
    else LastOpacity(if cs[0].SetOpacityCmd? then cs[0].x else x, cs[1..])
  }

  /**
   `getOpacity()` after any calls answers the opacity of the last
   `setOpacity`, or the one held before when there was none.
   */
  lemma {:induction false} RunEndsOnLastOpacity(b: BlendMode, cs: seq<Command>)
    ensures GetOpacity(Run(b, cs)) == LastOpacity(GetOpacity(b), cs)
    decreases |cs|
  {
    if |cs| > 0 {
      RunEndsOnLastOpacity(Step(b, cs[0]), cs[1..]);
    }
  }

  /**
   The blend-function getter on a blend mode created with `f` answers the
   function of the last blend-function call, or `f` when there was none,
   and its opacity is the last one set, or the constructor's.
   */
  lemma CreateThenRunGetters(f: BlendFunction, opacity: Option<real>, cs: seq<Command>)
    ensures GetBlendFunction(Run(Create(f, opacity), cs)) == LastFunction(f, cs)
    ensures GetOpacity(Run(Create(f, opacity), cs)) ==
      LastOpacity(if opacity.Some? then opacity.value else 1.0, cs)
  {
    RunEndsOnLastFunction(Create(f, opacity), cs);
    RunEndsOnLastOpacity(Create(f, opacity), cs);
  }

  /**
   A listener that saw no "change" event can keep the shader code it read
   before: calls that dispatch nothing never change the blend function.
   */
  lemma {:induction false} NoEventKeepsShaderCode(b: BlendMode, cs: seq<Command>)
    requires |Run(b, cs).events| == |b.events|
    ensures GetBlendFunction(Run(b, cs)) == GetBlendFunction(b)
    ensures GetShaderCode(Run(b, cs)) == GetShaderCode(b)
    decreases |cs|
  {
    EventsCountFunctionSets(b, cs);
    if |cs| > 0 {
      assert !cs[0].SetFunctionCmd?;
      EventsCountFunctionSets(Step(b, cs[0]), cs[1..]);
      NoEventKeepsShaderCode(Step(b, cs[0]), cs[1..]);
    }
  }

  /** Setting the current function again still dispatches one event. */
  lemma SetSameFunctionStillDispatches(b: BlendMode)
    ensures SetBlendFunction(b, GetBlendFunction(b)).f == b.f
    ensures |SetBlendFunction(b, GetBlendFunction(b)).events| == |b.events| + 1
  {
  }
}
