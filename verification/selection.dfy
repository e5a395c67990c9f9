/**
 An object selection: a set of scene objects tied to one render layer. Every
 mutation of the set is paired with a change to the layer mask of the object
 concerned, so that the renderer can draw exactly the selected objects by
 enabling that layer on its camera.

 Scene objects are identified by `ObjectId`; their layer masks live outside the
 selection, in the `Masks` map of the surrounding `World`. The JavaScript
 `Selection` extends `Set`, iterated in insertion order; it is modelled
 as a sequence without duplicates in that order.
 */
module Selections {

  import opened Wrappers
  import opened Layers

  /** The identity of a scene object (an `Object3D` reference). */
  type ObjectId = nat

  /** The layer mask of every scene object the selection may touch. */
  type Masks = map<ObjectId, Mask>

  /** The layer a new selection uses when none is given. */
  const DefaultLayer: Layer := 10

  datatype Selection = Selection(members: seq<ObjectId>, layer: Layer, exclusive: bool)

  /** A selection together with the masks of the objects it works on. */
  datatype World = World(selection: Selection, masks: Masks)

  predicate NoDuplicates(s: seq<ObjectId>)
  {
    forall i, j :: 0 <= i < j < |s| ==> s[i] != s[j]
  }

  /** Every object of `objs` carries a layer mask. */
  predicate AllHaveMasks(objs: seq<ObjectId>, masks: Masks)
  {
    forall o :: o in objs ==> o in masks
  }

  /**
   The structural invariant of the model: members are distinct (a `Set`
   holds each object once) and every member carries a layer mask.
   */
  predicate Valid(w: World)
  {
    NoDuplicates(w.selection.members) && AllHaveMasks(w.selection.members, w.masks)
  }

  /** `has(o)`, inherited from `Set`: whether `o` is selected. */
  predicate Has(s: Selection, o: ObjectId)
  {
    o in s.members
  }

  /** `indexOf(o)`: the deprecated alias of `has` that answers 0 or -1. */
  function IndexOf(s: Selection, o: ObjectId): (r: int)
    ensures r == 0 || r == -1
    ensures r == 0 <==> Has(s, o)
  {
    if Has(s, o) then 0 else -1
  }

  /** `getLayer()` and the deprecated `layer` getter. */
  function GetLayer(s: Selection): Layer
  {
    s.layer
  }

  /** `members` with the occurrence of `o` (if any) taken out. */
  function Remove(s: seq<ObjectId>, o: ObjectId): (r: seq<ObjectId>)
    requires NoDuplicates(s)
    ensures NoDuplicates(r)
    ensures forall x :: x in r <==> x in s && x != o
    ensures o in s ==> |r| == |s| - 1
    ensures o !in s ==> r == s
  {
    if |s| == 0 then []
    else if s[0] == o then s[1..]
    else
      var rest := Remove(s[1..], o);
      assert s[0] !in s[1..];
      [s[0]] + rest
  }

  /**
   Applies `f` to the mask of every object of `objs`, one object after the
   other (the `for (const object of this)` loops of `Selection`), and leaves
   every other mask alone.
   */
  function ApplyEach(masks: Masks, objs: seq<ObjectId>, f: Mask -> Mask): (r: Masks)
    requires NoDuplicates(objs) && AllHaveMasks(objs, masks)
    ensures r.Keys == masks.Keys
    ensures forall o :: o in masks && o in objs ==> r[o] == f(masks[o])
    ensures forall o :: o in masks && o !in objs ==> r[o] == masks[o]
    decreases |objs|
  {
    if |objs| == 0 then masks
    else
      var o := objs[0];
      ApplyEach(masks[o := f(masks[o])], objs[1..], f)
  }

  /**
   `setLayer(v)` and the deprecated `layer` setter: every member leaves the
   old layer and joins `v`, then `v` becomes the current layer.
   */
  function SetLayer(w: World, v: Layer): (r: World)
    requires Valid(w)
    ensures Valid(r)
    ensures r.selection == w.selection.(layer := v)
    ensures GetLayer(r.selection) == v
    ensures r.masks.Keys == w.masks.Keys
    ensures forall o :: o in w.masks && Has(w.selection, o) ==>
      r.masks[o] == Enable(Disable(w.masks[o], w.selection.layer), v)
    ensures forall o :: o in w.masks && !Has(w.selection, o) ==> r.masks[o] == w.masks[o]
  {
    var c := w.selection.layer;
    World(w.selection.(layer := v), ApplyEach(w.masks, w.selection.members, m => Enable(Disable(m, c), v)))
  }

  /** `clear()`: every member leaves the layer, then the selection is emptied. */
  function Clear(w: World): (r: World)
    requires Valid(w)
    ensures Valid(r)
    ensures r.selection == w.selection.(members := [])
    ensures r.masks.Keys == w.masks.Keys
    ensures forall o :: o in w.masks && Has(w.selection, o) ==>
      r.masks[o] == Disable(w.masks[o], w.selection.layer)
    ensures forall o :: o in w.masks && !Has(w.selection, o) ==> r.masks[o] == w.masks[o]
  {
    var c := w.selection.layer;
    World(w.selection.(members := []), ApplyEach(w.masks, w.selection.members, m => Disable(m, c)))
  }

  /**
   `add(o)`: in exclusive mode the mask of `o` becomes the current layer
   alone, otherwise the current layer is enabled on it; then `o` joins the
   set, at the end of the iteration order unless it is already there.
   */
  function Add(w: World, o: ObjectId): (r: World)
    requires Valid(w) && o in w.masks
    ensures Valid(r)
    ensures Has(r.selection, o)
    ensures forall x :: Has(r.selection, x) <==> Has(w.selection, x) || x == o
    ensures r.selection.layer == w.selection.layer && r.selection.exclusive == w.selection.exclusive
    ensures Has(w.selection, o) ==> r.selection.members == w.selection.members
    ensures !Has(w.selection, o) ==> r.selection.members == w.selection.members + [o]
    ensures r.masks.Keys == w.masks.Keys
    ensures r.masks[o] == if w.selection.exclusive then Only(w.selection.layer)
                          else Enable(w.masks[o], w.selection.layer)
    ensures forall x :: x in w.masks && x != o ==> r.masks[x] == w.masks[x]
  {
    var s := w.selection;
    var mask := if s.exclusive then Only(s.layer) else Enable(w.masks[o], s.layer);
    var members := if o in s.members then s.members else s.members + [o];
    World(s.(members := members), w.masks[o := mask])
  }

  /**
   `delete(o)`: a member leaves the layer and the set, and the answer is
   `true`; for a non-member nothing changes and the answer is `false`.
   */
  function Delete(w: World, o: ObjectId): (r: (World, bool))
    requires Valid(w)
    ensures Valid(r.0)
    ensures r.1 == Has(w.selection, o)
    ensures !Has(r.0.selection, o)
    ensures forall x :: x != o ==> (Has(r.0.selection, x) <==> Has(w.selection, x))
    ensures r.0.selection.layer == w.selection.layer && r.0.selection.exclusive == w.selection.exclusive
    ensures r.0.masks.Keys == w.masks.Keys
    ensures r.1 ==> r.0.masks[o] == Disable(w.masks[o], w.selection.layer)
    ensures !r.1 ==> r.0 == w
    ensures forall x :: x in w.masks && x != o ==> r.0.masks[x] == w.masks[x]
  {
    var s := w.selection;
    if o in s.members then
      var members := Remove(s.members, o);
      (World(s.(members := members), w.masks[o := Disable(w.masks[o], s.layer)]), true)
    else
      (w, false)
  }

  /** Adds the objects of `objs` one by one, in order. */
  function AddAll(w: World, objs: seq<ObjectId>): (r: World)
    requires Valid(w) && AllHaveMasks(objs, w.masks)
    ensures Valid(r)
    ensures forall x :: Has(r.selection, x) <==> Has(w.selection, x) || x in objs
    ensures r.selection.layer == w.selection.layer && r.selection.exclusive == w.selection.exclusive
    ensures r.masks.Keys == w.masks.Keys
    ensures forall x :: x in w.masks && x in objs ==>
      r.masks[x] == if w.selection.exclusive then Only(w.selection.layer)
                    else Enable(w.masks[x], w.selection.layer)
    ensures forall x :: x in w.masks && x !in objs ==> r.masks[x] == w.masks[x]
    decreases |objs|
  {
    if |objs| == 0 then w
    else
      var o := objs[0];
      var r := AddAll(Add(w, o), objs[1..]);
      assert forall x :: x in objs <==> x == o || x in objs[1..];
      forall x | x in w.masks && x == o && x in objs[1..] && !w.selection.exclusive
        ensures r.masks[x] == Enable(w.masks[x], w.selection.layer)
      {
        EnableTwice(w.masks[x], w.selection.layer);
      }
      r
  }

  /**
   `set(objs)`: `clear()` followed by `add` of every element of `objs` in
   order. Afterwards the members are exactly the elements of `objs`.
   */
  function Set(w: World, objs: seq<ObjectId>): (r: World)
    requires Valid(w) && AllHaveMasks(objs, w.masks)
    ensures Valid(r)
    ensures forall x :: Has(r.selection, x) <==> x in objs
    ensures r.selection.layer == w.selection.layer && r.selection.exclusive == w.selection.exclusive
    ensures r.masks.Keys == w.masks.Keys
    ensures forall x :: x in w.masks && x in objs ==>
      r.masks[x] == if w.selection.exclusive then Only(w.selection.layer)
                    else Enable(w.masks[x], w.selection.layer)
    ensures forall x :: x in w.masks && x !in objs && Has(w.selection, x) ==>
      r.masks[x] == Disable(w.masks[x], w.selection.layer)
    ensures forall x :: x in w.masks && x !in objs && !Has(w.selection, x) ==> r.masks[x] == w.masks[x]
  {
    var r := AddAll(Clear(w), objs);
    forall x | x in w.masks && x in objs && Has(w.selection, x)
      ensures !w.selection.exclusive ==> r.masks[x] == Enable(w.masks[x], w.selection.layer)
    {
      DisableThenEnable(w.masks[x], w.selection.layer);
    }
    r
  }

  /** `setVisible(visible)`: layer 0 is enabled or disabled on every member. */
  function SetVisible(w: World, visible: bool): (r: World)
    requires Valid(w)
    ensures Valid(r)
    ensures r.selection == w.selection
    ensures r.masks.Keys == w.masks.Keys
    ensures forall o :: o in w.masks && Has(w.selection, o) ==>
      r.masks[o] == if visible then Enable(w.masks[o], 0) else Disable(w.masks[o], 0)
    ensures forall o :: o in w.masks && !Has(w.selection, o) ==> r.masks[o] == w.masks[o]
  {
    var f := if visible then (m: Mask) => Enable(m, 0) else (m: Mask) => Disable(m, 0);
    World(w.selection, ApplyEach(w.masks, w.selection.members, f))
  }

  /**
   The constructor: a selection on `layer` (10 when absent), not exclusive,
   filled by `set(iterable)` when an iterable is given.
   */
  function Create(iterable: Option<seq<ObjectId>>, layer: Option<Layer>, masks: Masks): (r: World)
    requires iterable.Some? ==> AllHaveMasks(iterable.value, masks)
    ensures Valid(r)
    ensures r.selection.layer == (if layer.Some? then layer.value else DefaultLayer)
    ensures !r.selection.exclusive
    ensures forall x :: Has(r.selection, x) <==> iterable.Some? && x in iterable.value
    ensures r.masks.Keys == masks.Keys
    ensures forall x :: x in masks && iterable.Some? && x in iterable.value ==>
      r.masks[x] == Enable(masks[x], r.selection.layer)
    ensures forall x :: x in masks && !(iterable.Some? && x in iterable.value) ==> r.masks[x] == masks[x]
  {
    var empty := World(Selection([], if layer.Some? then layer.value else DefaultLayer, false), masks);
    if iterable.Some? then Set(empty, iterable.value) else empty
  }
}
