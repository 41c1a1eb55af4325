/** The cell binding service of Excel.Addin.Common/BindingService.cs: a
    dictionary from cell key to a type-erased binding that, when the cell's
    value changes, casts the new value to the bound property's type and
    assigns that one property of that one target object. */
module Bindings {
  import opened Wrappers
  import opened Strings

  /** An object reference: an address in the heap of bound objects. */
  type ObjId = nat

  /** A boxed .NET value as Excel delivers it: null, or a value whose
      runtime type has the given name; `repr` stands for the payload. */
  datatype Value = Null | Boxed(typeName: string, repr: string)

  /** The static `TProperty` of a binding: the name of the type a boxed
      value must have, and whether null is rejected. `rejectsNull` holds for
      a non-nullable value type, to which null cannot be unboxed. A
      reference type `R` is `PropertyType("R", false)`. A `Nullable<T>`
      property is `PropertyType("T", false)`: it accepts null and a boxed
      `T`. */
  datatype PropertyType = PropertyType(name: string, rejectsNull: bool)

  /** The body of the accessor lambda `o => ...`, as far as the constructor
      inspects it: a member expression naming a property, one naming a
      field, or anything else. */
  datatype Accessor = PropertyMember(name: string) | FieldMember(name: string) | OtherExpression

  /** The objects bindings point into: each object's property values by
      property name. */
  type Objects = map<ObjId, map<string, Value>>

  /** The exceptions `Binding.Set` can raise: `InvalidCastException` from
      `(TProperty) value`, `NullReferenceException` from unboxing null to a
      value type or from invoking the null delegate, and the
      `TargetException` of `PropertyInfo.SetValue` on a null target. */
  datatype Error =
    | InvalidCast(expected: string, actual: string)
    | NullUnboxing(expected: string)
    | NullSetter
    | NullTarget

  /** The heap holding the bound objects, which `Set` mutates. */
  class Heap {
    var objects: Objects

    constructor (objects: Objects)
      ensures this.objects == objects
    {
      this.objects := objects;
    }
  }

  /** `(TProperty) value`: unboxing needs the exact runtime type; null casts
      only to a reference type. */
  function Cast(value: Value, t: PropertyType): (r: Outcome<Error>)
    ensures r.Pass? <==> (value.Null? && !t.rejectsNull) || (value.Boxed? && value.typeName == t.name)
  {
    match value
    case Null => if t.rejectsNull then Fail(NullUnboxing(t.name)) else Pass
    case Boxed(actual, _) => if actual == t.name then Pass else Fail(InvalidCast(t.name, actual))
  }

  /** `Binding<T, TProperty>`: the cell it was made for, the target, the
      property type, and the setter delegate `_property`, which holds the
      bound property's name or is `None` (null) when the constructor could
      not build one. */
  datatype Binding = Binding(cell: string, target: ObjId, propertyType: PropertyType, setter: Option<string>)
  {
    /** The result of `Set(value)` on the heap `objs`: the cast is evaluated
        before the delegate is invoked, and the delegate before `SetValue`
        looks at its target. */
    function SetEffect(value: Value, objs: Objects): (r: Result<Objects, Error>)
      ensures r.Ok? <==> Cast(value, propertyType).Pass? && setter.Some? && target in objs
      ensures Cast(value, propertyType).Fail? ==> r == Err(Cast(value, propertyType).error)
      ensures Cast(value, propertyType).Pass? && setter.None? ==> r == Err(NullSetter)
      ensures Cast(value, propertyType).Pass? && setter.Some? && target !in objs ==> r == Err(NullTarget)
      ensures r.Ok? ==> r.value.Keys == objs.Keys
      ensures r.Ok? ==> r.value[target].Keys == objs[target].Keys + {setter.value}
      ensures r.Ok? ==> r.value[target][setter.value] == value
      ensures r.Ok? ==> forall p :: p in objs[target] && p != setter.value ==> r.value[target][p] == objs[target][p]
      ensures r.Ok? ==> forall id :: id in objs && id != target ==> r.value[id] == objs[id]
    {
      match Cast(value, propertyType)
      case Fail(e) => Err(e)
      case Pass =>
        match setter
        case None => Err(NullSetter)
        case Some(p) =>
          if target in objs then Ok(objs[target := objs[target][p := value]]) else Err(NullTarget)
    }

    /** `Binding<T, TProperty>.Set`: assigns the bound property of the
        target on the heap, or throws and changes nothing. */
    method Set(value: Value, heap: Heap) returns (r: Outcome<Error>)
      modifies heap
      ensures r == Committed(SetEffect(value, old(heap.objects)))
      ensures heap.objects == After(SetEffect(value, old(heap.objects)), old(heap.objects))
    {
      var cast := Cast(value, propertyType);
      if cast.Fail? {
        return cast;
      }
      if setter.None? {
        return Fail(NullSetter);
      }
      if target !in heap.objects {
        return Fail(NullTarget);
      }
      var props := heap.objects[target];
      heap.objects := heap.objects[target := props[setter.value := value]];
      r := Pass;
    }
  }

  /** How a call that returns a new heap or throws ends. */
  function Committed(r: Result<Objects, Error>): Outcome<Error>
  {
    match r
    case Ok(_) => Pass
    case Err(e) => Fail(e)
  }

  /** The heap after such a call: unchanged when it threw. */
  function After(r: Result<Objects, Error>, objs: Objects): Objects
  {
    match r
    case Ok(next) => next
    case Err(_) => objs
  }

  /** The `Binding<T, TProperty>` constructor: the setter exists exactly
      when the accessor's body is a member expression whose member is a
      property, and then it sets that property. */
  function NewBinding(cell: string, target: ObjId, propertyType: PropertyType, accessor: Accessor): (b: Binding)
    ensures b.cell == cell && b.target == target && b.propertyType == propertyType
    ensures b.setter.Some? <==> accessor.PropertyMember?
    ensures accessor.PropertyMember? ==> b.setter.value == accessor.name
  {
    var setter := match accessor
      case PropertyMember(p) => Some(p)
      case FieldMember(_) => None
      case OtherExpression => None;
    Binding(cell, target, propertyType, setter)
  }

  /** `OnValueChanged` on the binding map `bindings`: nothing for a key
      without a binding, that binding's `Set` otherwise. */
  function Notify(bindings: map<string, Binding>, cell: string, value: Value, objs: Objects): Result<Objects, Error>
  {
    if cell !in bindings then Ok(objs) else bindings[cell].SetEffect(value, objs)
  }

  /** The key `OnSheetChange` derives from a changed range:
      `[workbook]sheet` followed by the range's address, where `workbook` is
      the name of the application's active workbook, which need not be the
      workbook the range is in. */
  function SheetKey(workbook: string, sheet: string, address: string): string
  {
    "[" + workbook + "]" + sheet + address
  }

  // ---------------------------------------------------------------------
  // Properties of binding and notification

  /** Binding a cell with a property accessor and then notifying that cell
      with a value of the property's type assigns exactly that property of
      that target. */
  lemma BindThenNotify(bindings: map<string, Binding>, cell: string, target: ObjId, t: PropertyType,
                       property: string, value: Value, objs: Objects)
    requires Cast(value, t).Pass? && target in objs
    ensures var r := Notify(bindings[cell := NewBinding(cell, target, t, PropertyMember(property))], cell, value, objs);
      r.Ok? && r.value.Keys == objs.Keys && r.value[target][property] == value &&
      (forall p :: p in objs[target] && p != property ==> r.value[target][p] == objs[target][p]) &&
      (forall id :: id in objs && id != target ==> r.value[id] == objs[id])
  {
  }

  /** A notification whose value has the wrong type never assigns: it fails
      with the cast's exception, whatever the binding's setter. */
  lemma WrongTypeNeverAssigns(bindings: map<string, Binding>, cell: string, value: Value, objs: Objects)
    requires cell in bindings && Cast(value, bindings[cell].propertyType).Fail?
    ensures Notify(bindings, cell, value, objs) == Err(Cast(value, bindings[cell].propertyType).error)
    ensures value.Boxed? ==> Notify(bindings, cell, value, objs).error.InvalidCast?
    ensures value.Null? ==> Notify(bindings, cell, value, objs).error.NullUnboxing?
  {
  }

  /** A binding whose accessor is not a property member expression is
      inert: notifying its cell always throws and never changes the heap. */
  lemma InertBindingNeverAssigns(cell: string, target: ObjId, t: PropertyType, accessor: Accessor,
                                 value: Value, objs: Objects)
    requires !accessor.PropertyMember?
    ensures var r := NewBinding(cell, target, t, accessor).SetEffect(value, objs);
      r.Err? && (r.error == NullSetter || r.error == Cast(value, t).error) && After(r, objs) == objs
  {
  }

  /** Rebinding a cell replaces the old binding: a notification reaches only
      the newer one, and an object bound only by the older one is left as
      it was. */
  lemma RebindLastWins(bindings: map<string, Binding>, cell: string, older: Binding, newer: Binding,
                       value: Value, objs: Objects)
    ensures Notify(bindings[cell := older][cell := newer], cell, value, objs) == newer.SetEffect(value, objs)
    ensures older.target != newer.target && older.target in objs ==>
      After(Notify(bindings[cell := older][cell := newer], cell, value, objs), objs)[older.target] == objs[older.target]
  {
    assert bindings[cell := older][cell := newer][cell] == newer;
  }

  /** One `AddBinding` call. */
  datatype BindCall = BindCall(cell: string, target: ObjId, propertyType: PropertyType, accessor: Accessor)

  function BindingOf(call: BindCall): Binding
  {
    NewBinding(call.cell, call.target, call.propertyType, call.accessor)
  }

  /** The binding map after a sequence of `AddBinding` calls. */
  function BindAll(bindings: map<string, Binding>, calls: seq<BindCall>): map<string, Binding>
    decreases |calls|
  {
    if calls == [] then bindings
    else BindAll(bindings[calls[0].cell := BindingOf(calls[0])], calls[1..])
  }

  /** The binding the last call for `cell` made, or the one it had before
      the calls when none of them names it. */
  function LastBindingFor(bindings: map<string, Binding>, calls: seq<BindCall>, cell: string): Option<Binding>
    decreases |calls|
  {
    if calls == [] then (if cell in bindings then Some(bindings[cell]) else None)
    else if calls[|calls| - 1].cell == cell then Some(BindingOf(calls[|calls| - 1]))
    else LastBindingFor(bindings, calls[..|calls| - 1], cell)
  }

  lemma {:induction false} BindAllSnoc(bindings: map<string, Binding>, calls: seq<BindCall>, call: BindCall)
    ensures BindAll(bindings, calls + [call]) == BindAll(bindings, calls)[call.cell := BindingOf(call)]
    decreases |calls|
  {
    if calls == [] {
      assert [] + [call] == [call];
      assert [call][1..] == [];
    } else {
      assert (calls + [call])[0] == calls[0];
      assert (calls + [call])[1..] == calls[1..] + [call];
      BindAllSnoc(bindings[calls[0].cell := BindingOf(calls[0])], calls[1..], call);
    }
  }

  /** Last write wins across any sequence of `AddBinding` calls: each key
      holds at most the binding of the last call that named it, and a key
      no call named keeps what it had. */
  lemma {:induction false} BindAllLastWins(bindings: map<string, Binding>, calls: seq<BindCall>, cell: string)
    ensures cell in BindAll(bindings, calls) <==> LastBindingFor(bindings, calls, cell).Some?
    ensures cell in BindAll(bindings, calls) ==>
      BindAll(bindings, calls)[cell] == LastBindingFor(bindings, calls, cell).value
    decreases |calls|
  {
    if calls != [] {
      var init, last := calls[..|calls| - 1], calls[|calls| - 1];
      assert calls == init + [last];
      BindAllSnoc(bindings, init, last);
      BindAllLastWins(bindings, init, cell);
    }
  }

  /** One change notification from the host. */
  datatype Change = Change(cell: string, value: Value)

  /** The heap after a sequence of notifications, each of which either
      completes or throws and leaves the heap as it was. */
  function Replay(bindings: map<string, Binding>, changes: seq<Change>, objs: Objects): Objects
    decreases |changes|
  {
    if changes == [] then objs
    else Replay(bindings, changes[1..], After(Notify(bindings, changes[0].cell, changes[0].value, objs), objs))
  }

  /** The value of property `p` of object `id`, if it has one. */
  function Prop(objs: Objects, id: ObjId, p: string): Option<Value>
  {
    if id in objs && p in objs[id] then Some(objs[id][p]) else None
  }

  /** No binding of the map assigns property `p` of object `id`. */
  predicate Unbound(bindings: map<string, Binding>, id: ObjId, p: string)
  {
    forall k :: k in bindings ==> !(bindings[k].target == id && bindings[k].setter == Some(p))
  }

  /** Notifications touch only bound properties: across any sequence of
      them, no object appears or disappears, and a property no binding
      assigns keeps its value. */
  lemma {:induction false} ReplayFrame(bindings: map<string, Binding>, changes: seq<Change>, objs: Objects,
                                       id: ObjId, p: string)
    requires Unbound(bindings, id, p)
    ensures Replay(bindings, changes, objs).Keys == objs.Keys
    ensures Prop(Replay(bindings, changes, objs), id, p) == Prop(objs, id, p)
    decreases |changes|
  {
    if changes != [] {
      var next := After(Notify(bindings, changes[0].cell, changes[0].value, objs), objs);
      assert next.Keys == objs.Keys && Prop(next, id, p) == Prop(objs, id, p) by {
        if changes[0].cell in bindings {
          var b := bindings[changes[0].cell];
          assert !(b.target == id && b.setter == Some(p));
        }
      }
      ReplayFrame(bindings, changes[1..], next, id, p);
    }
  }

  // ---------------------------------------------------------------------
  // Properties of the sheet-change key

  /** Two ranges of one sheet with different addresses give different keys. */
  lemma SheetKeyAddressInjective(workbook: string, sheet: string, a1: string, a2: string)
    requires SheetKey(workbook, sheet, a1) == SheetKey(workbook, sheet, a2)
    ensures a1 == a2
  {
    var n := |"[" + workbook + "]" + sheet|;
    assert a1 == SheetKey(workbook, sheet, a1)[n..];
    assert a2 == SheetKey(workbook, sheet, a2)[n..];
  }

  /** The key determines its three parts when the workbook name holds no
      ']', the sheet name no '$' and the address starts with '$', as
      Excel's absolute addresses do. Since the workbook part is the active
      workbook's name, equal ranges of two workbooks still share a key. */
  lemma SheetKeyInjective(w1: string, s1: string, a1: string, w2: string, s2: string, a2: string)
    requires Excludes(w1, ']') && Excludes(w2, ']') && Excludes(s1, '$') && Excludes(s2, '$')
    requires |a1| > 0 && a1[0] == '$' && |a2| > 0 && a2[0] == '$'
    requires SheetKey(w1, s1, a1) == SheetKey(w2, s2, a2)
    ensures w1 == w2 && s1 == s2 && a1 == a2
  {
    var k := SheetKey(w1, s1, a1);
    assert k[1..] == w1 + ("]" + s1 + a1);
    assert k[1..] == w2 + ("]" + s2 + a2);
    IndexOfAfterFreePrefix(w1, "]" + s1 + a1, ']');
    IndexOfAfterFreePrefix(w2, "]" + s2 + a2, ']');
    assert w1 == k[1..][..|w1|] == w2;
    var tail := k[|w1| + 2..];
    assert tail == s1 + a1;
    assert tail == s2 + a2;
    IndexOfAfterFreePrefix(s1, a1, '$');
    IndexOfAfterFreePrefix(s2, a2, '$');
    assert s1 == tail[..|s1|] == s2;
    assert a1 == tail[|s1|..] == a2;
  }

  /** Without those conditions the key does not identify the range: the
      sheet name and the address are joined with no separator. */
  lemma SheetKeyCollision()
    ensures ("Sheet1$A", "$1") != ("Sheet1", "$A$1")
    ensures SheetKey("Book1", "Sheet1$A", "$1") == SheetKey("Book1", "Sheet1", "$A$1")
  {
  }

  // ---------------------------------------------------------------------
  // The service as state

  /** `BindingService`: the `_bindings` dictionary as a field. */
  class BindingService {
    var bindings: map<string, Binding>

    constructor ()
      ensures bindings == map[]
    {
      bindings := map[];
    }

    /** `AddBinding`: `_bindings[cell] = new Binding<T, TProperty>(...)`,
        replacing whatever was bound to the cell before. */
    method AddBinding(cell: string, target: ObjId, propertyType: PropertyType, accessor: Accessor)
      modifies this
      ensures bindings == old(bindings)[cell := NewBinding(cell, target, propertyType, accessor)]
      ensures cell in bindings && bindings[cell] == NewBinding(cell, target, propertyType, accessor)
      ensures forall k :: k in old(bindings) && k != cell ==> k in bindings && bindings[k] == old(bindings)[k]
      ensures bindings.Keys == old(bindings).Keys + {cell}
    {
      bindings := bindings[cell := NewBinding(cell, target, propertyType, accessor)];
    }

    /** `OnValueChanged`: returns at once when no binding has the key;
        otherwise calls `Set` on that key's binding. The map never changes. */
    method OnValueChanged(cell: string, value: Value, heap: Heap) returns (r: Outcome<Error>)
      modifies heap
      ensures cell !in bindings ==> r == Pass && heap.objects == old(heap.objects)
      ensures cell in bindings ==> r == Committed(bindings[cell].SetEffect(value, old(heap.objects)))
      ensures heap.objects == After(Notify(bindings, cell, value, old(heap.objects)), old(heap.objects))
    {
      if cell !in bindings {
        return Pass;
      }
      var binding := bindings[cell];
      r := binding.Set(value, heap);
    }

    /** `OnSheetChange`, with the active workbook's name and the changed
        range's sheet name, address and new value passed in. The workbook
        part of the key is `Application.ActiveWorkbook.Name`, not the name
        of the range's own workbook. */
    method OnSheetChange(activeWorkbook: string, sheet: string, address: string, value: Value, heap: Heap) returns (r: Outcome<Error>)
      modifies heap
      ensures r == Committed(Notify(bindings, SheetKey(activeWorkbook, sheet, address), value, old(heap.objects)))
      ensures heap.objects == After(Notify(bindings, SheetKey(activeWorkbook, sheet, address), value, old(heap.objects)), old(heap.objects))
    {
      r := OnValueChanged(SheetKey(activeWorkbook, sheet, address), value, heap);
    }
  }

  /** A client: a price cell bound to a quote object, changed twice. */
  method PriceCellScenario()
  {
    var heap := new Heap(map[0 := map["Price" := Null]]);
    var service := new BindingService();
    var double := PropertyType("Double", true);
    service.AddBinding(SheetKey("Book1", "Sheet1", "$A$1"), 0, double, PropertyMember("Price"));
    var r := service.OnSheetChange("Book1", "Sheet1", "$A$1", Boxed("Double", "42.5"), heap);
    assert r == Pass && heap.objects[0]["Price"] == Boxed("Double", "42.5");
    // an unbound cell: no change and no exception
    assert SheetKey("Book1", "Sheet1", "$B$1")[14] == 'B' != SheetKey("Book1", "Sheet1", "$A$1")[14];
    r := service.OnSheetChange("Book1", "Sheet1", "$B$1", Boxed("Double", "1"), heap);
    assert r == Pass && heap.objects[0]["Price"] == Boxed("Double", "42.5");
    // a string for a double: the cast throws and the price stays
    r := service.OnSheetChange("Book1", "Sheet1", "$A$1", Boxed("String", "abc"), heap);
    assert r == Fail(InvalidCast("Double", "String")) && heap.objects[0]["Price"] == Boxed("Double", "42.5");
  }
}
