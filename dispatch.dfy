/** Dynamic dispatch through a trait object: a `dyn Trait` value is the
    record {object pointer, vtable pointer}, and a method's vtable slot is
    the position of its entry among the trait object's items. */
module Dispatch {
  import opened Types
  import opened Ir
  import opened Collaborators

  /** The first entry of `items` whose function type has identity `fnId`.
      Every entry looked at before it must be a function definition; meeting
      one that is not is an internal error. */
  function SlotSearch(items: seq<ObjectItem>, fnId: nat): (r: Outcome<Option<nat>>)
    ensures r.Ok? && r.value.Some? ==> r.value.value < |items|
  {
    if items == [] then Ok(None)
    else if !items[0].ty.FnDefTy? then Ice("trait object item is not a function")
    else if items[0].ty.fn.id == fnId then Ok(Some(0))
    else
      match SlotSearch(items[1..], fnId)
      case Ice(why) => Ice(why)
      case Ok(None) => Ok(None)
      case Ok(Some(k)) => Ok(Some(k + 1))
  }

  predicate Matches(item: ObjectItem, fnId: nat) {
    item.ty.FnDefTy? && item.ty.fn.id == fnId
  }

  /** The slot found is the first matching one; no slot is found exactly
      when every entry is a function and none matches. */
  lemma {:induction false} SlotSearchFirstMatch(items: seq<ObjectItem>, fnId: nat)
    ensures var r := SlotSearch(items, fnId);
      r.Ok? && r.value.Some? ==>
        && Matches(items[r.value.value], fnId)
        && forall j :: 0 <= j < r.value.value ==> items[j].ty.FnDefTy? && !Matches(items[j], fnId)
    ensures SlotSearch(items, fnId) == Ok(None) <==>
      forall j :: 0 <= j < |items| ==> items[j].ty.FnDefTy? && !Matches(items[j], fnId)
  {
    if items != [] {
      SlotSearchFirstMatch(items[1..], fnId);
      assert forall j :: 1 <= j < |items| ==> items[j] == items[1..][j - 1];
    }
  }

  /** The vtable slot search as the loop over the trait object's items. */
  method FindSlot(items: seq<ObjectItem>, fnId: nat) returns (r: Outcome<Option<nat>>)
    ensures r == SlotSearch(items, fnId)
  {
    var offset := 0;
    while offset < |items|
      invariant 0 <= offset <= |items|
      invariant SlotSearch(items, fnId) == Shift(SlotSearch(items[offset..], fnId), offset)
    {
      assert items[offset..][1..] == items[offset + 1..];
      var item := items[offset];
      if !item.ty.FnDefTy? {
        return Ice("trait object item is not a function");
      }
      if item.ty.fn.id == fnId {
        return Ok(Some(offset));
      }
      offset := offset + 1;
    }
    return Ok(None);
  }

  /** A slot result of a suffix starting at `offset`, as a slot of the whole. */
  function Shift(r: Outcome<Option<nat>>, offset: nat): Outcome<Option<nat>> {
    match r
    case Ok(Some(k)) => Ok(Some(k + offset))
    case _ => r
  }

  /** The trait object a receiver designates: behind a reference the
      receiver is dereferenced to its base type first. */
  function DynObject(receiver: Ty, receiverRef: Tree, be: Backend): (r: Tree)
    ensures receiver.RefTy? ==> r == Indirect(be.compileTy(receiver.base), receiverRef)
    ensures !receiver.RefTy? ==> r == receiverRef
  {
    if receiver.RefTy? then Indirect(be.compileTy(receiver.base), receiverRef) else receiverRef
  }

  /** The function to call through the vtable: the slot of the first entry
      for the method, read from field 1 (the vtable) of the trait object and
      typed as the trait's function pointer type. A method the trait object
      has no entry for yields the error mark. */
  function DynCallee(items: seq<ObjectItem>, receiver: Ty, fntype: FnType, receiverRef: Tree, be: Backend)
    : (r: Outcome<Tree>)
    ensures r.Ice? <==> SlotSearch(items, fntype.id).Ice?
    ensures r == Ok(ErrorMark) <==> SlotSearch(items, fntype.id) == Ok(None)
    ensures r.Ok? && r.value != ErrorMark ==>
      && r.value.VirtualCall? && r.value.fnTy == be.compileTraitFnTy(fntype)
      && r.value.entry == VtableEntry(FieldRef(r.value.receiver, 1), r.value.index)
      && r.value.receiver == DynObject(receiver, receiverRef, be)
      && SlotSearch(items, fntype.id) == Ok(Some(r.value.index))
  {
    match SlotSearch(items, fntype.id)
    case Ice(why) => Ice(why)
    case Ok(None) => Ok(ErrorMark)
    case Ok(Some(slot)) =>
      var obj := DynObject(receiver, receiverRef, be);
      Ok(VirtualCall(be.compileTraitFnTy(fntype), VtableEntry(FieldRef(obj, 1), slot), obj, slot))
  }

  /** CompileExpr::get_fn_addr_from_dyn. */
  method FnAddrFromDyn(items: seq<ObjectItem>, receiver: Ty, fntype: FnType, receiverRef: Tree, be: Backend)
    returns (r: Outcome<Tree>)
    ensures r == DynCallee(items, receiver, fntype, receiverRef, be)
  {
    var found := FindSlot(items, fntype.id);
    match found {
      case Ice(why) =>
        return Ice(why);
      case Ok(None) =>
        return Ok(ErrorMark);
      case Ok(Some(slot)) =>
        var obj := DynObject(receiver, receiverRef, be);
        var expectedFnType := be.compileTraitFnTy(fntype);
        var vtable := FieldRef(obj, 1);
        return Ok(VirtualCall(expectedFnType, VtableEntry(vtable, slot), obj, slot));
    }
  }

  /** The receiver passed to a virtual call: field 0 (the object pointer) of
      the trait object. */
  function ReceiverFromDyn(receiver: Ty, receiverRef: Tree, be: Backend): (r: Tree)
    ensures r.FieldRef? && r.index == 0
    ensures r.record == DynObject(receiver, receiverRef, be)
    ensures receiver.RefTy? ==> r.record == Indirect(be.compileTy(receiver.base), receiverRef)
  {
    FieldRef(DynObject(receiver, receiverRef, be), 0)
  }

  /** A virtual call reads the vtable of, and passes as receiver the object
      pointer of, one and the same trait object, and calls the method's first
      matching slot. */
  lemma SameObject(items: seq<ObjectItem>, receiver: Ty, fntype: FnType, receiverRef: Tree, be: Backend)
    requires DynCallee(items, receiver, fntype, receiverRef, be).Ok?
    requires DynCallee(items, receiver, fntype, receiverRef, be).value != ErrorMark
    ensures var call := DynCallee(items, receiver, fntype, receiverRef, be).value;
      && call.receiver == ReceiverFromDyn(receiver, receiverRef, be).record
      && call.index < |items| && Matches(items[call.index], fntype.id)
  {
    SlotSearchFirstMatch(items, fntype.id);
  }
}
