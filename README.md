# Handle table and cell bindings of the Excel add-in packages

This project models two small string-keyed registries of the add-in
packages and proves properties of the model in Dafny.

- **The object handle table** (`ExcelInterfaces/Globals.cs`, module
  `HandleTable`). A process-wide dictionary maps generated handles to
  registered objects. `AddItem` builds the handle
  `name::timestamp::typeName::`. It stores the object only when that
  handle is new and returns the handle either way. The `IPublicObject`
  overload uses the base type's name and also writes the handle into the
  object's `Handle` property. `TryGetItem`, `GetItem` and
  `PublicObject.This<T>` look a handle up and cast the stored object to
  the requested type.
- **The cell binding service** (`Excel.Addin.Common/BindingService.cs`,
  module `Bindings`). A dictionary maps a cell key to a type-erased
  binding. `AddBinding` overwrites the key. `OnValueChanged` ignores
  unknown keys. For a known key it calls the binding's `Set`, which casts
  the value to the property type and assigns one property of one target.
  `OnSheetChange` derives the key `[workbook]sheet` + address, where
  `workbook` is the name of the application's active workbook.

State the source updates in place becomes classes:
- `Globals.items` is a `map<string, Obj>`.
- `Obj` is a class, because its `Handle` property is mutable.
- `BindingService.bindings` is a `map<string, Binding>`.
- The bound objects form a `Heap`: a map from object id to property name to value.

Every state-changing method is tied to a pure function:
- `Inserted` for the table.
- `Binding.SetEffect` and `Notify` for the bindings.

The lemmas are stated about these functions. Inputs that the source takes
from its environment are parameters:
- the clock reading `DateTime.Now.ToString("mm:ss.ffff")`;
- an object's type names and the set of types it can be cast to;
- the name of Excel's active workbook, and the sheet name, address and value of the changed range;
- the shape of the accessor lambda.

Two client methods, `HandleTable.QuoteScenario` and
`Bindings.PriceCellScenario`, show what callers can conclude from the
contracts alone.

Behaviours of the code worth knowing, which the model keeps as they are:
- **Handle collisions.** The code returns the generated handle even on a
  collision. That handle is the existing entry's key, so it resolves to
  the object that was there first (`SameTickCollision`).
- **Handle uniqueness.** Handles are not unique per registration. Objects
  registered under one name within one clock reading get the same handle
  when they share the discriminator:
  - for `AddItem`, the same runtime type (`SameTickCollision`);
  - for the `IPublicObject` overload, the same base type, even when their
    runtime types differ (`SharedBaseCollision`). Every class deriving
    directly from `object` gives `::Object::`.

  The `mm:ss.ffff` reading also repeats every hour.
- **Accessors that are not properties.** The setter delegate stays null.
  After the cast, which is evaluated first and throws its own exception
  for a mistyped value, `Set` throws a `NullReferenceException`
  (`NullSetter`). It is not a silent no-op.
- **Sheet keys.** Distinct ranges can give the same key, in two ways:
  - The sheet name and the address are joined without a separator
    (`SheetKeyCollision`). Under the conditions of `SheetKeyInjective` the
    key does determine the workbook, sheet and address strings.
  - The workbook part is `Application.ActiveWorkbook.Name`, not the
    range's own workbook. Cell `Sheet1!$A$1` of Book1 and the same cell
    of Book2 both give `[Book1]Sheet1$A$1` while Book1 is active, whatever
    the names.

## Model

| member | source | states |
|---|---|---|
| `HandleTable.Globals.constructor` | ExcelInterfaces/Globals.cs:50 | the table starts empty |
| `HandleTable.Globals.AddItem` | ExcelInterfaces/Globals.cs:67-74 | the returned handle is exactly `name::timestamp::typeName::`; if it was absent the table gains exactly that entry; if present the table is unchanged; the handle is returned either way |
| `HandleTable.Globals.AddPublicItem` | ExcelInterfaces/Globals.cs:76-86 | same as `AddItem` but with the base type's name as discriminator, and the object's `Handle` is set to the returned handle whether or not it was stored |
| `HandleTable.TimestampHandle` | ExcelInterfaces/Globals.cs:100-103 | defined as `name + "::" + timestamp`, the clock reading being a parameter |
| `HandleTable.MakeHandle` | ExcelInterfaces/Globals.cs:69 | defined as `TimestampHandle(name, timestamp) + "::" + discriminator + "::"`; both overloads use it, with different discriminators |
| `HandleTable.Error.Message` | ExcelInterfaces/Globals.cs:17-18 | defined as `"Object missing : " + handle` |
| `HandleTable.CastsTo` | ExcelInterfaces/Globals.cs:60 | defined as: `(TActual) tmp` succeeds when the requested type is `Object` or one of the types the object can be cast to |
| `HandleTable.Inserted` | ExcelInterfaces/Globals.cs:70-71 | the add-if-absent update: key set grows by the handle, an existing entry keeps its object, a new handle maps to the object, no other entry changes |
| `HandleTable.TryGetTypedValue` | ExcelInterfaces/Globals.cs:52-65 | absent key: `false` and the null default; present key whose object casts: `true` and the object; present key whose object does not cast: the cast failure |
| `HandleTable.Globals.TryGetItem` | ExcelInterfaces/Globals.cs:94-97 | found exactly when the handle is present and its object casts to the requested type, then the value is the stored object; never found means a null value; a failure is exactly a failed cast of a present object; reads and never changes the table |
| `HandleTable.Globals.GetItem` | ExcelInterfaces/Globals.cs:88-92 | null exactly when the handle is absent, the stored object otherwise |
| `HandleTable.Globals.This` | ExcelInterfaces/Globals.cs:25-32 | throws `ObjectMissing(handle)` exactly when the handle is absent; returns the stored object exactly when it is present and casts; a cast failure otherwise |
| `HandleTable.MissingMessageNamesHandle` | ExcelInterfaces/Globals.cs:15-21 | two `ObjectMissing` exceptions with the same message are the same exception: the message determines the handle it names |
| `HandleTable.ParseMakeHandle` | ExcelInterfaces/Globals.cs:69 | parsing a generated handle gives back its name, timestamp and type name when name and type name are colon-free |
| `HandleTable.ParseHandleSound` | ExcelInterfaces/Globals.cs:69 | every string that parses is the handle generated from its parts |
| `HandleTable.MakeHandleInjective` | ExcelInterfaces/Globals.cs:69 | equal handles come from equal name, timestamp and type name (colon-free names and type names) |
| `HandleTable.SharedBaseCollision` | ExcelInterfaces/Globals.cs:78-83 | two objects with one base type, one name and one clock reading get one handle under the `IPublicObject` overload; the table keeps the first, and the second is not reachable by that handle |
| `HandleTable.SameTickCollision` | ExcelInterfaces/Globals.cs:69-73 | two same-typed objects with one name and clock reading get the same handle, and the second registration changes nothing: the handle still maps to the first object |
| `HandleTable.RunKeepsEntries` | ExcelInterfaces/Globals.cs:50 | across any sequence of registrations no handle is removed or re-pointed, and every new handle was generated by one of the registrations |
| `HandleTable.AddThenResolve` | ExcelInterfaces/Globals.cs:67-92 | right after `AddItem`, `GetItem` on the returned handle gives the new object, or the old one on a collision; every other handle resolves as before |
| `Bindings.Cast` | Excel.Addin.Common/BindingService.cs:56 | `(TProperty) value` succeeds exactly for a boxed value of that exact type, or for null with a property type that does not reject null (a reference type or a `Nullable<T>`) |
| `Bindings.Notify` | Excel.Addin.Common/BindingService.cs:21-27 | defined as: the heap unchanged for a key without a binding, otherwise that binding's `SetEffect` |
| `Bindings.SheetKey` | Excel.Addin.Common/BindingService.cs:32 | defined as `"[" + activeWorkbook + "]" + sheet + address` |
| `Bindings.Binding.SetEffect` | Excel.Addin.Common/BindingService.cs:54-57 | succeeds exactly when the cast succeeds, the setter exists and the target exists; a failed cast throws its exception before the null delegate is invoked, and a missing target throws `NullTarget` only after both; on success the bound property equals the value and every other property and object is unchanged |
| `Bindings.Binding.Set` | Excel.Addin.Common/BindingService.cs:54-57 | the heap after `Set` is the one `SetEffect` gives, or is unchanged when it throws |
| `Bindings.NewBinding` | Excel.Addin.Common/BindingService.cs:59-71 | the binding keeps cell, target and property type; the setter exists exactly when the accessor is a member expression naming a property, and then it sets that property |
| `Bindings.BindingService.constructor` | Excel.Addin.Common/BindingService.cs:14 | the map starts empty |
| `Bindings.BindingService.AddBinding` | Excel.Addin.Common/BindingService.cs:16-19 | the cell now holds exactly the new binding; every other key keeps its binding; the key set grows by the cell |
| `Bindings.BindingService.OnValueChanged` | Excel.Addin.Common/BindingService.cs:21-27 | an unknown key returns normally and changes nothing; a known key runs only that binding's `Set`; the map never changes |
| `Bindings.BindingService.OnSheetChange` | Excel.Addin.Common/BindingService.cs:29-34 | the same as `OnValueChanged` at the key `[activeWorkbook]sheet` + address |
| `Bindings.BindThenNotify` | Excel.Addin.Common/BindingService.cs:16-27 | binding a property and then notifying with a well-typed value sets that property to the value and leaves everything else |
| `Bindings.WrongTypeNeverAssigns` | Excel.Addin.Common/BindingService.cs:56 | a value of the wrong type fails with a cast exception, not coerced: an invalid cast for a boxed value, a null unboxing for null |
| `Bindings.InertBindingNeverAssigns` | Excel.Addin.Common/BindingService.cs:64-70 | a binding built from a field or computed accessor never assigns: `Set` always throws and the heap is unchanged |
| `Bindings.RebindLastWins` | Excel.Addin.Common/BindingService.cs:18 | after rebinding a key, a notification goes to the newer binding only, and a target of the older binding alone is untouched |
| `Bindings.BindAllLastWins` | Excel.Addin.Common/BindingService.cs:14-19 | after any sequence of `AddBinding` calls each key holds exactly the binding of the last call naming it, or its earlier binding when no call names it |
| `Bindings.ReplayFrame` | Excel.Addin.Common/BindingService.cs:21-27 | across any sequence of notifications no object appears or disappears, and a property no binding assigns keeps its value |
| `Bindings.SheetKeyAddressInjective` | Excel.Addin.Common/BindingService.cs:32 | two ranges of one sheet with different addresses give different keys |
| `Bindings.SheetKeyInjective` | Excel.Addin.Common/BindingService.cs:32 | the key identifies workbook, sheet and address when the workbook name has no `]`, the sheet name no `$` and the address starts with `$` |
| `Bindings.SheetKeyCollision` | Excel.Addin.Common/BindingService.cs:32 | two different ranges (`Sheet1$A` + `$1` and `Sheet1` + `$A$1`) give the same key |

## Left out

- `PublicObject.WriteToXml`: it reflects over public fields and calls `XmlSerializer`, a library that is not part of this model. Its output cannot be stated.
- The clock: `TimestampHandle` takes the formatted `DateTime.Now` reading as a string parameter. The `mm:ss.ffff` format and how readings advance over time are not modelled.
- The Excel Interop objects in `OnSheetChange`: the workbook name, sheet name, address and value are parameters. A target that is not a `Range` is not modelled; in .NET it null-propagates to the key `[]`.
- Expression trees and `PropertyInfo.SetValue`: the accessor is reduced to its shape (`Accessor`), and the setter to the name of the property it assigns.
- Bindings.NewBinding: `PropertyMember` stands only for a property read directly off the lambda's parameter (`o => o.Price`). The constructor also builds a setter for two other member expressions over a `PropertyInfo`, and the model does not cover them:
  - a nested accessor (`o => o.Inner.Price`), whose `SetValue` runs on the root object and throws `TargetException`;
  - a static property (`o => Config.Rate`), whose `SetValue` writes the static property and ignores the target.
- Bindings.Binding.SetEffect: a property without a `set` accessor, where `SetValue` would throw, is not modelled; every bound property is assumed settable.
- Bindings.Cast: it has only the exact-type rule of unboxing, with `Nullable<T>` expressed as `PropertyType("T", false)`. Two other rules are not modelled: unboxing between an enum and its underlying integer type, and casting a reference-typed value to a base type or an interface.
- HandleTable.Globals.TryGetItem: a value-type `TValue`, whose default is not null, is not modelled. The out value of a miss is always `None`.
- Null arguments: model strings, objects and accessors are never null, so these .NET paths are not modelled:
  - `AddItem` with a null object throws at `obj.GetType()`;
  - `AddItem` with a null name silently builds `::timestamp::T::`, the same handle as the name `""`;
  - `TryGetItem`, `GetItem` and `This` with a null handle throw `ArgumentNullException` from `Dictionary.TryGetValue`, so `This(null)` does not throw `ObjectMissing`;
  - `AddBinding` with a null cell throws from the dictionary indexer;
  - `AddBinding` with a null accessor lambda throws at `.Body`.
- A missing base type is the empty string, as the `?.Name` concatenation gives.
- The base-class `Binding.Set` no-op and the null check in `binding.Value?.Set` are not modelled. `AddBinding` stores only constructed `Binding<T, TProperty>` objects, so neither is reachable. The stored `_cell` field is kept in the datatype (`cell`) but never read. `_object`, and the `obj` the setter closure captures, are `target`, which `SetEffect` reads.
- Thread safety of the static dictionaries: the code has none, and the model is sequential.
