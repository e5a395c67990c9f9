# Selection layers and blend modes

A Dafny model of two pieces of a post-processing library for three.js:

- **`Selection`** (`src/core/Selection.js`): a set of scene objects tied to
  one render layer (0–31, default 10). Every mutation of the set is paired
  with a change to the 32-bit layer mask of the object concerned, so that the
  renderer can draw only the selected objects by enabling that layer.
  `add` enables the layer bit (or, in exclusive mode, makes it the only bit),
  `delete` clears it on members only, `clear` clears it on every member,
  `set` is `clear` followed by `add` of each object in order, `setLayer` moves
  every member from the old layer to the new one, and `setVisible` enables or
  disables layer 0 on every member.
- **`BlendMode`** (`src/effects/blending/BlendMode.js`): the catalogue that
  maps each of the 19 blend functions to its shader fragment (`SKIP` to
  `null`), and the blend-mode value holding a blend function and an opacity,
  which dispatches one "change" event every time its blend function is set.

## Layout

| file | module | contents |
|---|---|---|
| `wrappers.dfy` | `Wrappers` | `Option`, for a value that may be `null` |
| `layers.dfy` | `Layers` | the three.js layer mask as `bv32`: enable = OR the bit, disable = AND its complement, set = the bit alone |
| `selection.dfy` | `Selections` | the selection state (members in iteration order, layer, exclusive flag), the mask map, and every operation as a pure transition |
| `selection_properties.dfy` | `SelectionProperties` | bit-level effect of each operation, the invariants they keep or break, inverses and equivalent call sequences |
| `blend_mode.dfy` | `BlendModes` | the blend-function enumeration, the catalogue, and the blend mode with its event log |
| `blend_mode_properties.dfy` | `BlendModeProperties` | totality and injectivity of the catalogue; events and shader code over sequences of calls |

Modelling choices:

- Scene objects are `ObjectId`s; their layer masks are a `map<ObjectId, bv32>`
  held next to the selection in a `World`. Each operation returns the new
  `World`. The JavaScript `Set` is a duplicate-free sequence in insertion
  order, since the loops of `Selection` iterate in that order.
- A layer is a `bv5`, which has exactly the 32 values [0, 31] that
  `setLayer` documents, so out-of-range layers cannot be expressed.
- An object passed to `add` or `set` must carry a mask (`add` calls
  `object.layers` on it); `delete` of a non-member never touches the mask,
  so it needs none.
- The event dispatcher is an append-only log of `Change` events inside the
  blend-mode value. Opacity is a `real` treated as an opaque value.
- Shader fragments are opaque: a `Fragment` is identified by the GLSL file it
  is imported from (`src/effects/blending/BlendMode.js:4-21`).
- The deprecated aliases are folded into one member each: the `layer`
  property into `GetLayer`/`SetLayer`, and `getBlendFunction`/
  `setBlendFunction` into `GetBlendFunction`/`SetBlendFunction`, which
  model the `blendFunction` getter and setter they call.

Two invariants are distinguished. `MembersOnLayer` (every member has the
layer bit) is kept by `add`, `delete`, `clear`, `set` and `setLayer`, and by
`setVisible` except when the selection itself uses layer 0 and hides its
members. `Consistent` (an object has the layer bit exactly when it is a
member) is the stronger reading sometimes given for this component; the code
keeps it under `add`, `delete`, `clear`, `set` and `setVisible` (except
`setVisible(false)` on a layer-0 selection), never establishes it on its own,
and both `setLayer` and that `setVisible` case can break it: `setLayer`
leaves alone objects that are on the new layer for reasons of their own, and
hiding a layer-0 selection takes its members off the layer. The model follows the code
and proves both facts.

## Model

| member | source | states |
|---|---|---|
| Layers.EnableSpec | src/core/Selection.js:182 | enabling a layer switches that layer on and leaves every other layer of the mask as it was |
| Layers.DisableSpec | src/core/Selection.js:201 | disabling a layer switches that layer off and leaves every other layer as it was |
| Layers.OnlySpec | src/core/Selection.js:178 | `layers.set(c)` leaves `c` as the one and only enabled layer |
| Layers.MoveSpec | src/core/Selection.js:100-101 | disable-old-then-enable-new leaves the mask on the new layer, off the old one when they differ, and every third layer unchanged |
| SelectionProperties.RunHas | src/core/Selection.js:174-207 | after any sequence of add and delete calls, `has(x)` holds exactly when the last call on `x` was an add, or there was no call on `x` and `x` was selected before |
| SelectionProperties.OnlySetLayerChangesLayer | src/core/Selection.js:80-107 | `getLayer()` answers `v` after `setLayer(v)`, and add, delete, clear, set and setVisible leave it unchanged |
| Selections.IndexOf | src/core/Selection.js:158-162 | the result is 0 or -1, and 0 exactly when the object is selected |
| Selections.SetLayer | src/core/Selection.js:94-107 | the layer becomes `v` and nothing else in the selection changes; each member's mask is moved from the old layer to `v`; non-members' masks are untouched |
| Selections.Clear | src/core/Selection.js:115-127 | the selection becomes empty with layer and flag kept; each former member loses the layer; non-members' masks are untouched |
| Selections.Add | src/core/Selection.js:174-188 | the object becomes a member (appended unless already present, nothing else joins); its mask becomes the layer alone when exclusive, else gains the layer; no other mask changes |
| Selections.Delete | src/core/Selection.js:197-207 | answers whether the object was a member; a member leaves the set (others stay) and loses the layer; a non-member leaves the whole state unchanged |
| Selections.AddAll | src/core/Selection.js:140-144 | adding a sequence one by one selects exactly the old members plus its elements; each element's mask gets the layer (or is the layer alone when exclusive), duplicates included; other masks are untouched |
| Selections.Set | src/core/Selection.js:136-148 | members are exactly the elements of `objs`; elements end on the layer (alone when exclusive), former members not in `objs` lose it, all other masks are untouched |
| Selections.SetVisible | src/core/Selection.js:218-236 | every member gains or loses layer 0 as asked, the selection itself and non-members are unchanged |
| Selections.Create | src/core/Selection.js:17-45 | a new selection is on the given layer or 10, not exclusive, and holds exactly the elements of the given collection (none when absent); every element gains that layer with its other bits kept, and no other mask changes |
| SelectionProperties.CreateEstablishesMembersOnLayer | src/core/Selection.js:39-43 | a new selection starts with every member on its layer |
| SelectionProperties.AddEnablesLayer | src/core/Selection.js:180-186 | non-exclusive add selects the object and its mask gains the layer with every other bit kept |
| SelectionProperties.ExclusiveAddKeepsOnlyLayer | src/core/Selection.js:176-178 | exclusive add selects the object and leaves its mask with the current layer and no other |
| SelectionProperties.DeleteDisablesLayer | src/core/Selection.js:199-205 | deleting a member answers true, deselects it, and clears only its layer bit |
| SelectionProperties.ClearDisablesLayer | src/core/Selection.js:117-125 | after clear nothing is selected and each former member has lost exactly the layer bit |
| SelectionProperties.SetLayerMovesMembers | src/core/Selection.js:96-105 | after setLayer(v) getLayer is v, every member is on v, off the old layer when v differs, with all other bits kept |
| SelectionProperties.AddKeepsMembersOnLayer | src/core/Selection.js:174-188 | add keeps "every member has the layer bit" |
| SelectionProperties.DeleteKeepsMembersOnLayer | src/core/Selection.js:197-207 | delete keeps "every member has the layer bit" |
| SelectionProperties.ClearKeepsMembersOnLayer | src/core/Selection.js:115-127 | clear establishes "every member has the layer bit" |
| SelectionProperties.SetEstablishesMembersOnLayer | src/core/Selection.js:136-148 | set establishes "every member has the layer bit" from any state |
| SelectionProperties.SetLayerKeepsMembersOnLayer | src/core/Selection.js:94-107 | setLayer establishes "every member has the (new) layer bit" |
| SelectionProperties.SetVisibleKeepsMembersOnLayer | src/core/Selection.js:218-236 | setVisible keeps "every member has the layer bit" unless it hides members of a layer-0 selection |
| SelectionProperties.SetVisibleFalseOnLayerZero | src/core/Selection.js:218-236 | on any layer-0 selection, setVisible(false) takes every member off the selection layer, so a non-empty selection loses both "every member has the layer bit" and the two-way invariant |
| SelectionProperties.SetVisibleKeepsConsistent | src/core/Selection.js:218-236 | setVisible keeps "an object has the layer bit exactly when it is a member" unless it hides the members of a layer-0 selection |
| SelectionProperties.AddKeepsConsistent | src/core/Selection.js:174-188 | add keeps "an object has the layer bit exactly when it is a member" |
| SelectionProperties.DeleteKeepsConsistent | src/core/Selection.js:197-207 | delete keeps the two-way invariant, because non-members' bits are never touched |
| SelectionProperties.ClearKeepsConsistent | src/core/Selection.js:115-127 | clear keeps the two-way invariant and leaves no object on the layer |
| SelectionProperties.SetKeepsConsistent | src/core/Selection.js:136-148 | set keeps the two-way invariant |
| SelectionProperties.SetLayerMayBreakConsistent | src/core/Selection.js:98-103 | a non-member already on the new layer stays there, so setLayer does not keep the two-way invariant |
| SelectionProperties.RunKeepsConsistent | src/core/Selection.js:174-207 | any sequence of add and delete calls from a consistent state ends consistent |
| SelectionProperties.ClearIsDeleteEach | src/core/Selection.js:115-127 | clear has the same effect as deleting every member in iteration order |
| SelectionProperties.SetIsDeleteEachThenAdd | src/core/Selection.js:136-148 | set(objs) equals deleting every member and then adding the elements of objs in order |
| SelectionProperties.DeleteUndoesAdd | src/core/Selection.js:174-207 | without exclusive mode, delete exactly undoes the add of an object that was neither selected nor on the layer, and answers true |
| SelectionProperties.RemoveKeepsOrder | src/core/Selection.js:205 | deleting the member at position i leaves the members before and after it in their iteration order |
| SelectionProperties.AddUndoesDelete | src/core/Selection.js:174-207 | without exclusive mode and when every member is on the layer, re-adding a deleted member restores every mask and the membership |
| SelectionProperties.SetLayerSameIsIdentity | src/core/Selection.js:94-107 | when every member is on the layer, setLayer with the current layer keeps every member's bit and changes nothing |
| SelectionProperties.SetLayerRoundTrip | src/core/Selection.js:94-107 | when every member is on the layer, moving to a layer no member is on and back restores the whole state |
| BlendModes.Catalogue | src/effects/blending/BlendMode.js:30-50 | the lookup is total; it has no fragment exactly for SKIP, and every other function has a fragment identified by its own (non-empty) import path; the GLSL text itself is not modelled |
| BlendModes.Create | src/effects/blending/BlendMode.js:65-87 | the new blend mode has the given function, the given opacity or 1.0, and has dispatched no event |
| BlendModeProperties.RunEndsOnLastOpacity | src/effects/blending/BlendMode.js:95-111 | after any sequence of calls, `getOpacity()` answers the last opacity set, or the one held before when none was set |
| BlendModeProperties.CreateThenRunGetters | src/effects/blending/BlendMode.js:65-143 | on a blend mode created with `f`, after any calls the `blendFunction` getter (and `getBlendFunction()`) answers the last function set or `f`, and `getOpacity()` the last opacity set or the constructor's (1.0 by default) |
| BlendModes.SetOpacity | src/effects/blending/BlendMode.js:107-111 | getOpacity returns the new value; function, shader code and event log are unchanged |
| BlendModes.SetBlendFunction | src/effects/blending/BlendMode.js:125-130 | the getter returns the new function, the opacity is kept, exactly one change event is appended, and the shader code is the catalogue entry of the new function |
| BlendModes.GetShaderCode | src/effects/blending/BlendMode.js:164-168 | the shader code is null exactly when the current function is SKIP |
| BlendModeProperties.AllFunctionsComplete | src/effects/blending/BlendMode.js:30-50 | the 19 keys of the catalogue are listed once each, every function is among them, and the catalogue gives no shader code to the first (SKIP) and only to it |
| BlendModeProperties.CatalogueSeparatesFunctions | src/effects/blending/BlendMode.js:31-49 | SKIP is the only function mapped to null, and distinct functions map to fragments with distinct import paths (nothing is claimed about the GLSL text) |
| BlendModeProperties.EventsCountFunctionSets | src/effects/blending/BlendMode.js:107-130 | over any sequence of calls, the event log grows by one change event per blend-function call and none per opacity call |
| BlendModeProperties.RunEndsOnLastFunction | src/effects/blending/BlendMode.js:125-130 | after any sequence of calls the function is the last one set and the shader code is its catalogue entry |
| BlendModeProperties.NoEventKeepsShaderCode | src/effects/blending/BlendMode.js:125-130 | calls that dispatch no event leave the blend function and the shader code unchanged |
| BlendModeProperties.SetSameFunctionStillDispatches | src/effects/blending/BlendMode.js:125-130 | setting the current function again keeps it and still dispatches one event |

## Left out

- `src/materials/KawaseBlurMaterial.js`: a parameter bag over a three.js shader material whose only computation is a floating-point reciprocal; nothing to verify.
- The GLSL fragment files: their text is not visible; fragments are identified by file name only.
- three.js `EventDispatcher`, `Uniform` and `Layers`: listeners are not modelled (the event log stands for the events every listener receives); the opacity is stored directly rather than in a `Uniform`; `Layers` is the `bv32` model above.
- Layer values outside [0, 31]: excluded by the `bv5` layer type rather than modelled (three.js shifts by the value modulo 32).
- Opacity as a floating-point number: it is only stored and returned, so it is a `real`.
- `sel.set(sel)`: `set` would iterate the selection it has just cleared and end empty; the model passes the objects as a value sequence, so this aliasing is not expressible.
- Return values used for chaining are not modelled: each operation yields the new state. In particular `clear()` returns the result of `Set.prototype.clear`, which is `undefined`, although its documentation promises the selection itself, so `sel.clear().add(o)` fails in JavaScript.
- Blend functions outside the 19 values: the enumeration is closed in the model, so `new BlendMode()` without a function (which leaves it `undefined`, and makes `getShaderCode()` answer `undefined` rather than `null`) is not expressible.
- Writes to the public `exclusive` field: a plain record update, with no member of its own.
- Selections.Set: states the members as a set, not their iteration order (the first occurrences in `objs`).
