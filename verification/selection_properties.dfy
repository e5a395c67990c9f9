/**
 Properties of the selection model: what each mutator does to individual
 layer bits, the invariants the mutators keep, and how the operations relate
 to one another (inverses, equivalent call sequences).
 */
module SelectionProperties {

  import opened Wrappers
  import opened Layers
  import opened Selections

  /** Every member has the selection's layer enabled. */
  predicate MembersOnLayer(w: World)
    requires Valid(w)
  {
    forall o :: o in w.selection.members ==> IsEnabled(w.masks[o], w.selection.layer)
  }

  /**
   The stronger, two-way reading: an object carries the selection's layer
   exactly when it is a member.
   */
  predicate Consistent(w: World)
    requires Valid(w)
  {
    forall o :: o in w.masks ==> (IsEnabled(w.masks[o], w.selection.layer) <==> Has(w.selection, o))
  }

  // ---------------------------------------------------------------------------
  // Bit-level effect of each mutator

  /**
   Non-exclusive `add(o)`: `o` becomes a member, its mask gains the current
   layer and keeps every other bit.
   */
  lemma AddEnablesLayer(w: World, o: ObjectId)
    requires Valid(w) && o in w.masks && !w.selection.exclusive
    ensures Has(Add(w, o).selection, o)
    ensures forall d: Layer :: IsEnabled(Add(w, o).masks[o], d) <==>
      d == w.selection.layer || IsEnabled(w.masks[o], d)
  {
    EnableSpec(w.masks[o], w.selection.layer);
  }

  /** Exclusive `add(o)`: the mask of `o` has the current layer and no other. */
  lemma ExclusiveAddKeepsOnlyLayer(w: World, o: ObjectId)
    requires Valid(w) && o in w.masks && w.selection.exclusive
    ensures Has(Add(w, o).selection, o)
    ensures forall d: Layer :: IsEnabled(Add(w, o).masks[o], d) <==> d == w.selection.layer
  {
    OnlySpec(w.selection.layer);
  }

  /**
   `delete(o)` of a member: `o` leaves the set, loses the current layer and
   keeps every other bit, and the call answers `true`.
   */
  lemma DeleteDisablesLayer(w: World, o: ObjectId)
    requires Valid(w) && Has(w.selection, o)
    ensures Delete(w, o).1
    ensures !Has(Delete(w, o).0.selection, o)
    ensures forall d: Layer :: IsEnabled(Delete(w, o).0.masks[o], d) <==>
      d != w.selection.layer && IsEnabled(w.masks[o], d)
  {
    DisableSpec(w.masks[o], w.selection.layer);
  }

  /**
   `clear()`: nothing is selected any more, every former member has lost the
   layer (and nothing else), and every other mask is untouched.
   */
  lemma ClearDisablesLayer(w: World)
    requires Valid(w)
    ensures forall o :: !Has(Clear(w).selection, o)
    ensures forall o, d: Layer :: o in w.masks && Has(w.selection, o) ==>
      (IsEnabled(Clear(w).masks[o], d) <==> d != w.selection.layer && IsEnabled(w.masks[o], d))
  {
    forall o | o in w.masks && Has(w.selection, o) {
      DisableSpec(w.masks[o], w.selection.layer);
    }
  }

  /**
   `setLayer(v)`: every member ends on `v`; when `v` differs from the old
   layer, every member is off the old one; the other bits of members are kept.
   */
  lemma SetLayerMovesMembers(w: World, v: Layer)
    requires Valid(w)
    ensures GetLayer(SetLayer(w, v).selection) == v
    ensures forall o :: Has(w.selection, o) ==> IsEnabled(SetLayer(w, v).masks[o], v)
    ensures v != w.selection.layer ==>
      forall o :: Has(w.selection, o) ==> !IsEnabled(SetLayer(w, v).masks[o], w.selection.layer)
    ensures forall o, d: Layer :: Has(w.selection, o) && d != v && d != w.selection.layer ==>
      (IsEnabled(SetLayer(w, v).masks[o], d) <==> IsEnabled(w.masks[o], d))
  {
    var c := w.selection.layer;
    var r := SetLayer(w, v);
    forall o | Has(w.selection, o)
      ensures IsEnabled(r.masks[o], v)
      ensures v != c ==> !IsEnabled(r.masks[o], c)
      ensures forall d: Layer :: d != v && d != c ==> (IsEnabled(r.masks[o], d) <==> IsEnabled(w.masks[o], d))
    {
      MoveSpec(w.masks[o], c, v);
    }
  }

  // ---------------------------------------------------------------------------
  // The invariant "every member is on the layer"

  lemma {:induction false} AddKeepsMembersOnLayer(w: World, o: ObjectId)
    requires Valid(w) && o in w.masks && MembersOnLayer(w)
    ensures MembersOnLayer(Add(w, o))
  {
    EnableSpec(w.masks[o], w.selection.layer);
    OnlySpec(w.selection.layer);
  }

  lemma {:induction false} DeleteKeepsMembersOnLayer(w: World, o: ObjectId)
    requires Valid(w) && MembersOnLayer(w)
    ensures MembersOnLayer(Delete(w, o).0)
  {
  }

  lemma ClearKeepsMembersOnLayer(w: World)
    requires Valid(w)
    ensures MembersOnLayer(Clear(w))
  {
  }

  /** `set(objs)` establishes the invariant whatever state it starts from. */
  lemma SetEstablishesMembersOnLayer(w: World, objs: seq<ObjectId>)
    requires Valid(w) && AllHaveMasks(objs, w.masks)
    ensures MembersOnLayer(Set(w, objs))
  {
    var c := w.selection.layer;
    forall o | o in objs
      ensures IsEnabled(Enable(w.masks[o], c), c) && IsEnabled(Only(c), c)
    {
      EnableSpec(w.masks[o], c);
      OnlySpec(c);
    }
  }

  lemma SetLayerKeepsMembersOnLayer(w: World, v: Layer)
    requires Valid(w)
    ensures MembersOnLayer(SetLayer(w, v))
  {
    SetLayerMovesMembers(w, v);
  }

  /** `setVisible` keeps the invariant unless it hides the members on layer 0. */
  lemma SetVisibleKeepsMembersOnLayer(w: World, visible: bool)
    requires Valid(w) && MembersOnLayer(w)
    requires visible || w.selection.layer != 0
    ensures MembersOnLayer(SetVisible(w, visible))
  {
    var c := w.selection.layer;
    forall o | o in w.selection.members
      ensures IsEnabled(Enable(w.masks[o], 0), c)
      ensures c != 0 ==> IsEnabled(Disable(w.masks[o], 0), c)
    {
      EnableSpec(w.masks[o], 0);
      DisableSpec(w.masks[o], 0);
    }
  }

  /**
   When the selection itself uses layer 0, `setVisible(false)` takes every
   member off the selection layer: the invariant above is lost as soon as
   there is a member.
   */
  lemma SetVisibleFalseOnLayerZero(w: World)
    requires Valid(w) && w.selection.layer == 0
    ensures forall o :: o in w.selection.members ==>
      !IsEnabled(SetVisible(w, false).masks[o], w.selection.layer)
    ensures |w.selection.members| > 0 ==> !MembersOnLayer(SetVisible(w, false))
    ensures |w.selection.members| > 0 ==> !Consistent(SetVisible(w, false))
  {
    forall o | o in w.selection.members
      ensures !IsEnabled(Disable(w.masks[o], 0), 0)
    {
      DisableSpec(w.masks[o], 0);
    }
    if |w.selection.members| > 0 {
      assert w.selection.members[0] in w.selection.members;
    }
  }

  /**
   `setVisible` keeps the two-way invariant under the same condition as the
   one-way invariant: unless it hides the members of a layer-0 selection.
   */
  lemma SetVisibleKeepsConsistent(w: World, visible: bool)
    requires Valid(w) && Consistent(w)
    requires visible || w.selection.layer != 0
    ensures Consistent(SetVisible(w, visible))
  {
    var c := w.selection.layer;
    forall o | o in w.masks
      ensures IsEnabled(Enable(w.masks[o], 0), c) <==> IsEnabled(w.masks[o], c) || c == 0
      ensures c != 0 ==> (IsEnabled(Disable(w.masks[o], 0), c) <==> IsEnabled(w.masks[o], c))
    {
      EnableSpec(w.masks[o], 0);
      DisableSpec(w.masks[o], 0);
    }
  }

  /** A witness: a one-member selection on layer 0 that `setVisible(false)` empties of the layer. */
  lemma SetVisibleFalseOnLayerZeroWitness()
    ensures var w := World(Selection([7], 0, false), map[7 := 1]);
      Valid(w) && MembersOnLayer(w) && !MembersOnLayer(SetVisible(w, false))
  {
    var w := World(Selection([7], 0, false), map[7 := 1]);
    assert IsEnabled(w.masks[7], 0);
    DisableSpec(w.masks[7], 0);
  }

  // ---------------------------------------------------------------------------
  // The two-way invariant under add, delete, clear and set

  lemma AddKeepsConsistent(w: World, o: ObjectId)
    requires Valid(w) && o in w.masks && Consistent(w)
    ensures Consistent(Add(w, o))
  {
    EnableSpec(w.masks[o], w.selection.layer);
    OnlySpec(w.selection.layer);
  }

  lemma DeleteKeepsConsistent(w: World, o: ObjectId)
    requires Valid(w) && Consistent(w)
    ensures Consistent(Delete(w, o).0)
  {
    if Has(w.selection, o) {
      DisableSpec(w.masks[o], w.selection.layer);
    }
  }

  lemma ClearKeepsConsistent(w: World)
    requires Valid(w) && Consistent(w)
    ensures Consistent(Clear(w))
    ensures forall o :: o in w.masks ==> !IsEnabled(Clear(w).masks[o], w.selection.layer)
  {
    ClearDisablesLayer(w);
  }

  lemma SetKeepsConsistent(w: World, objs: seq<ObjectId>)
    requires Valid(w) && AllHaveMasks(objs, w.masks) && Consistent(w)
    ensures Consistent(Set(w, objs))
  {
    var c := w.selection.layer;
    forall o | o in w.masks
      ensures IsEnabled(Enable(w.masks[o], c), c) && IsEnabled(Only(c), c)
      ensures !IsEnabled(Disable(w.masks[o], c), c)
    {
      EnableSpec(w.masks[o], c);
      DisableSpec(w.masks[o], c);
      OnlySpec(c);
    }
  }

  /**
   `setLayer` does not keep the two-way invariant: an object that is on the
   new layer for reasons of its own is left there although it is no member.
   */
  lemma SetLayerMayBreakConsistent()
    ensures var w := World(Selection([], 10, false), map[3 := 2]);
      Valid(w) && Consistent(w) && !Consistent(SetLayer(w, 1))
  {
    var w := World(Selection([], 10, false), map[3 := 2]);
    assert !IsEnabled(w.masks[3], 10);
    assert IsEnabled(SetLayer(w, 1).masks[3], 1);
  }

  /** A call of `add` or `delete`. */
  datatype Op = AddOp(o: ObjectId) | DeleteOp(o: ObjectId)

  predicate OpsHaveMasks(ops: seq<Op>, masks: Masks)
  {
    forall i :: 0 <= i < |ops| ==> ops[i].AddOp? ==> ops[i].o in masks
  }

  /** Performs the calls of `ops` one after the other. */
  function Run(w: World, ops: seq<Op>): (r: World)
    requires Valid(w) && OpsHaveMasks(ops, w.masks)
    ensures Valid(r) && r.masks.Keys == w.masks.Keys
    ensures r.selection.layer == w.selection.layer
    decreases |ops|
  {
    if |ops| == 0 then w
    else
      var next := match ops[0]
        case AddOp(o) => Add(w, o)
        case DeleteOp(o) => Delete(w, o).0;
      Run(next, ops[1..])
  }

  /**
   Any sequence of `add` and `delete` calls that starts from a consistent
   state leaves an object on the selection layer exactly when it is a member.
   */
  lemma {:induction false} RunKeepsConsistent(w: World, ops: seq<Op>)
    requires Valid(w) && OpsHaveMasks(ops, w.masks) && Consistent(w)
    ensures Consistent(Run(w, ops))
    decreases |ops|
  {
    if |ops| > 0 {
      var next := match ops[0]
        case AddOp(o) => Add(w, o)
        case DeleteOp(o) => Delete(w, o).0;
      match ops[0] {
        case AddOp(o) => AddKeepsConsistent(w, o);
        case DeleteOp(o) => DeleteKeepsConsistent(w, o);
      }
      assert OpsHaveMasks(ops[1..], next.masks) by {
        forall i | 0 <= i < |ops[1..]| && ops[1..][i].AddOp? ensures ops[1..][i].o in next.masks {
          assert ops[1..][i] == ops[i + 1];
        }
      }
      RunKeepsConsistent(next, ops[1..]);
    }
  }

  /**
   Whether `x` is selected after `ops`, starting from `present`: the last call
   on `x` decides, and with no call on `x` nothing changes.
   */
  function HasAfter(present: bool, ops: seq<Op>, x: ObjectId): bool
    decreases |ops|
  {
    if |ops| == 0 then present
    else HasAfter(if ops[0].o == x then ops[0].AddOp? else present, ops[1..], x)
  }

  /**
   `has(x)` after any sequence of `add` and `delete` calls: true exactly when
   the last call on `x` was an `add`, or there was none and `x` was selected.
   */
  lemma {:induction false} RunHas(w: World, ops: seq<Op>, x: ObjectId)
    requires Valid(w) && OpsHaveMasks(ops, w.masks)
    ensures Has(Run(w, ops).selection, x) == HasAfter(Has(w.selection, x), ops, x)
    decreases |ops|
  {
    if |ops| > 0 {
      var next := match ops[0]
        case AddOp(o) => Add(w, o)
        case DeleteOp(o) => Delete(w, o).0;
      assert Has(next.selection, x) == if ops[0].o == x then ops[0].AddOp? else Has(w.selection, x);
      assert OpsHaveMasks(ops[1..], next.masks) by {
        forall i | 0 <= i < |ops[1..]| && ops[1..][i].AddOp? ensures ops[1..][i].o in next.masks {
          assert ops[1..][i] == ops[i + 1];
        }
      }
      RunHas(next, ops[1..], x);
    }
  }

  /**
   `getLayer()` answers the layer last given to `setLayer`: `setLayer(v)`
   makes it `v`, and `add`, `delete`, `clear`, `set` and `setVisible` keep it.
   */
  lemma OnlySetLayerChangesLayer(w: World, added: ObjectId, deleted: ObjectId, objs: seq<ObjectId>, visible: bool, v: Layer)
    requires Valid(w) && added in w.masks && AllHaveMasks(objs, w.masks)
    ensures GetLayer(SetLayer(w, v).selection) == v
    ensures GetLayer(Add(w, added).selection) == GetLayer(w.selection)
    ensures GetLayer(Delete(w, deleted).0.selection) == GetLayer(w.selection)
    ensures GetLayer(Clear(w).selection) == GetLayer(w.selection)
    ensures GetLayer(Set(w, objs).selection) == GetLayer(w.selection)
    ensures GetLayer(SetVisible(w, visible).selection) == GetLayer(w.selection)
  {
  }

  // ---------------------------------------------------------------------------
  // Relations between operations

  /** Deletes the objects of `objs` one by one, in order. */
  function DeleteAll(w: World, objs: seq<ObjectId>): (r: World)
    requires Valid(w)
    ensures Valid(r)
    decreases |objs|
  {
    if |objs| == 0 then w else DeleteAll(Delete(w, objs[0]).0, objs[1..])
  }

  /** A new selection has every member on its layer. */
  lemma CreateEstablishesMembersOnLayer(iterable: Option<seq<ObjectId>>, layer: Option<Layer>, masks: Masks)
    requires iterable.Some? ==> AllHaveMasks(iterable.value, masks)
    ensures MembersOnLayer(Create(iterable, layer, masks))
  {
    var r := Create(iterable, layer, masks);
    forall o | o in r.selection.members
      ensures IsEnabled(Enable(masks[o], r.selection.layer), r.selection.layer)
    {
      EnableSpec(masks[o], r.selection.layer);
    }
  }

  /** `clear()` has the effect of deleting every member in iteration order. */
  lemma {:induction false} ClearIsDeleteEach(w: World)
    requires Valid(w)
    ensures DeleteAll(w, w.selection.members) == Clear(w)
    decreases |w.selection.members|
  {
    var members := w.selection.members;
    if |members| > 0 {
      var w1 := Delete(w, members[0]).0;
      assert w1.selection.members == members[1..];
      ClearIsDeleteEach(w1);
      var a, b := Clear(w1).masks, Clear(w).masks;
      assert a.Keys == b.Keys;
      assert forall o :: o in a ==> a[o] == b[o];
      assert a == b;
    }
  }

  /**
   `set(objs)` has the same effect as deleting every current member and then
   adding the elements of `objs` in order.
   */
  lemma SetIsDeleteEachThenAdd(w: World, objs: seq<ObjectId>)
    requires Valid(w) && AllHaveMasks(objs, w.masks)
    ensures AllHaveMasks(objs, DeleteAll(w, w.selection.members).masks)
    ensures Set(w, objs) == AddAll(DeleteAll(w, w.selection.members), objs)
  {
    ClearIsDeleteEach(w);
  }

  /**
   `delete` keeps the other members in their iteration order: removing the
   member at position `i` leaves the members before and after it as they were.
   */
  lemma {:induction false} RemoveKeepsOrder(s: seq<ObjectId>, i: nat)
    requires NoDuplicates(s) && i < |s|
    ensures Remove(s, s[i]) == s[..i] + s[i + 1..]
    decreases i
  {
    if i > 0 {
      assert s[0] != s[i];
      assert s[1..][i - 1] == s[i];
      RemoveKeepsOrder(s[1..], i - 1);
      assert s[..i] == [s[0]] + s[1..][..i - 1];
      assert s[i + 1..] == s[1..][i..];
    }
  }

  lemma RemoveLast(s: seq<ObjectId>, o: ObjectId)
    requires NoDuplicates(s) && o !in s
    ensures NoDuplicates(s + [o])
    ensures Remove(s + [o], o) == s
  {
    if |s| > 0 {
      assert (s + [o])[1..] == s[1..] + [o];
      RemoveLast(s[1..], o);
    }
  }

  /**
   Without exclusive mode, `delete` undoes the `add` of an object that was
   neither a member nor on the layer before.
   */
  lemma DeleteUndoesAdd(w: World, o: ObjectId)
    requires Valid(w) && o in w.masks && !w.selection.exclusive
    requires !Has(w.selection, o) && !IsEnabled(w.masks[o], w.selection.layer)
    ensures Delete(Add(w, o), o) == (w, true)
  {
    RemoveLast(w.selection.members, o);
    EnableThenDisable(w.masks[o], w.selection.layer);
    var m := Delete(Add(w, o), o).0.masks;
    assert m == w.masks;
  }

  /**
   Without exclusive mode, adding back a deleted member restores every mask
   and the membership; only the member's place in the iteration order moves.
   */
  lemma AddUndoesDelete(w: World, o: ObjectId)
    requires Valid(w) && MembersOnLayer(w) && !w.selection.exclusive && Has(w.selection, o)
    ensures Add(Delete(w, o).0, o).masks == w.masks
    ensures forall x :: Has(Add(Delete(w, o).0, o).selection, x) <==> Has(w.selection, x)
  {
    var c := w.selection.layer;
    DisableThenEnable(w.masks[o], c);
    Idempotent(w.masks[o], c);
    var m := Add(Delete(w, o).0, o).masks;
    assert m == w.masks;
  }

  /** `setLayer` with the current layer changes nothing while members are on it. */
  lemma SetLayerSameIsIdentity(w: World)
    requires Valid(w) && MembersOnLayer(w)
    ensures SetLayer(w, w.selection.layer) == w
  {
    var c := w.selection.layer;
    forall o | o in w.selection.members
      ensures Enable(Disable(w.masks[o], c), c) == w.masks[o]
    {
      DisableThenEnable(w.masks[o], c);
      Idempotent(w.masks[o], c);
    }
    var m := SetLayer(w, c).masks;
    assert m == w.masks;
  }

  /**
   Moving to a layer no member is on and back restores every mask, provided
   the members were on the original layer.
   */
  lemma SetLayerRoundTrip(w: World, v: Layer)
    requires Valid(w) && MembersOnLayer(w)
    requires forall o :: o in w.selection.members ==> !IsEnabled(w.masks[o], v)
    ensures SetLayer(SetLayer(w, v), w.selection.layer) == w
  {
    var c := w.selection.layer;
    forall o | o in w.selection.members
      ensures Enable(Disable(Enable(Disable(w.masks[o], c), v), v), c) == w.masks[o]
    {
      MoveBack(w.masks[o], c, v);
    }
    var m := SetLayer(SetLayer(w, v), c).masks;
    assert m == w.masks;
  }
}
