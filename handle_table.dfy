/** The process-wide object handle table of ExcelInterfaces/Globals.cs:
    objects are registered under generated handles of the form
    `name::timestamp::typeName::` and looked up again by handle, with a
    checked cast to the type the caller asks for. */
module HandleTable {
  import opened Wrappers
  import opened Strings

  /** The separator between the parts of a handle. */
  const Separator: string := "::"

  /** The name of `System.Object`, to which every object can be cast. */
  const ObjectTypeName: string := "Object"

  /** A .NET object as the table sees it: the name of its runtime type, the
      name of that type's base type (the empty string when there is none, as
      `BaseType?.Name` concatenates), the names of every type it can be cast
      to, whether it implements `IPublicObject`, and that interface's
      mutable `Handle` property (`None` is the initial null). */
  class Obj {
    const typeName: string
    const baseTypeName: string
    const castableTo: set<string>
    const isPublicObject: bool
    var handle: Option<string>

    constructor (typeName: string, baseTypeName: string, castableTo: set<string>, isPublicObject: bool)
      ensures this.typeName == typeName && this.baseTypeName == baseTypeName
      ensures this.castableTo == castableTo && this.isPublicObject == isPublicObject
      ensures handle == None
    {
      this.typeName := typeName;
      this.baseTypeName := baseTypeName;
      this.castableTo := castableTo;
      this.isPublicObject := isPublicObject;
      handle := None;
    }
  }

  /** The text `ObjectMissing` passes to `ApplicationException`. */
  const MissingPrefix: string := "Object missing : "

  /** The exceptions a lookup can raise: `ObjectMissing` (Globals.cs:15-21)
      and the `InvalidCastException` of a failed downcast. */
  datatype Error = ObjectMissing(handle: string) | InvalidCast(handle: string, requested: string)
  {
    /** The message an `ObjectMissing` carries. */
    function Message(): string
      requires ObjectMissing?
    {
      MissingPrefix + handle
    }
  }

  /** The message of an `ObjectMissing` names its handle: two such
      exceptions with the same message are the same exception. */
  lemma MissingMessageNamesHandle(e1: Error, e2: Error)
    requires e1.ObjectMissing? && e2.ObjectMissing?
    requires e1.Message() == e2.Message()
    ensures e1 == e2
  {
    assert e1.handle == e1.Message()[|MissingPrefix|..];
    assert e2.handle == e2.Message()[|MissingPrefix|..];
  }

  // ---------------------------------------------------------------------
  // Handles

  /** `TimestampHandle`, with the clock reading passed in. */
  function TimestampHandle(name: string, timestamp: string): string
  {
    name + Separator + timestamp
  }

  /** The handle `AddItem` generates for a name, a clock reading and a type
      discriminator. */
  function MakeHandle(name: string, timestamp: string, discriminator: string): string
  {
    TimestampHandle(name, timestamp) + Separator + discriminator + Separator
  }

  /** The three parts a handle is built from. */
  datatype HandleParts = HandleParts(name: string, timestamp: string, discriminator: string)

  /** Takes a handle apart again: the name runs up to the first ':', the
      discriminator is the colon-free part before the closing "::", and the
      timestamp (which may itself contain ':') is what lies between. */
  function ParseHandle(h: string): Option<HandleParts>
  {
    if |h| < 2 || h[|h| - 2..] != Separator then None else ParseBody(h[..|h| - 2])
  }

  /** Splits `name::timestamp::discriminator` at the first ':'. */
  function ParseBody(body: string): Option<HandleParts>
  {
    var i := IndexOf(body, ':');
    if |body| < i + 2 || body[i..i + 2] != Separator then None
    else
      var tail := ParseTail(body[i + 2..]);
      if tail.None? then None else Some(HandleParts(body[..i], tail.value.0, tail.value.1))
  }

  /** Splits `timestamp::discriminator` at the last "::". */
  function ParseTail(rest: string): Option<(string, string)>
  {
    var j := SuffixStart(rest, ':');
    if j < 2 || rest[j - 2..j] != Separator then None
    else Some((rest[..j - 2], rest[j..]))
  }

  lemma ParseMakeTail(timestamp: string, discriminator: string)
    requires Excludes(discriminator, ':')
    ensures ParseTail(timestamp + Separator + discriminator) == Some((timestamp, discriminator))
  {
    var rest := timestamp + Separator + discriminator;
    assert rest == (timestamp + Separator) + discriminator;
    SuffixStartBeforeFreeSuffix(timestamp + Separator, discriminator, ':');
    assert rest[..|timestamp|] == timestamp;
    assert rest[|timestamp| + 2..] == discriminator;
  }

  lemma ParseTailSound(rest: string)
    requires ParseTail(rest).Some?
    ensures Excludes(ParseTail(rest).value.1, ':')
    ensures ParseTail(rest).value.0 + Separator + ParseTail(rest).value.1 == rest
  {
    var j := SuffixStart(rest, ':');
    assert rest == rest[..j - 2] + rest[j - 2..j] + rest[j..];
  }

  lemma ParseMakeBody(name: string, timestamp: string, discriminator: string)
    requires Excludes(name, ':') && Excludes(discriminator, ':')
    ensures ParseBody(name + Separator + timestamp + Separator + discriminator) == Some(HandleParts(name, timestamp, discriminator))
  {
    var rest := timestamp + Separator + discriminator;
    var body := name + Separator + timestamp + Separator + discriminator;
    assert body == name + Separator + rest;
    IndexOfAfterFreePrefix(name, Separator + rest, ':');
    SplitJoined(name, rest);
    ParseMakeTail(timestamp, discriminator);
    ParseBodyAt(body, |name|, timestamp, discriminator);
  }

  /** The slices of `name::rest`. */
  lemma SplitJoined(name: string, rest: string)
    ensures var body := name + Separator + rest;
      body == name + (Separator + rest) &&
      body[..|name|] == name && body[|name|..|name| + 2] == Separator && body[|name| + 2..] == rest
  {
  }

  /** `ParseBody` at a known first colon and a known tail. */
  lemma ParseBodyAt(body: string, i: nat, timestamp: string, discriminator: string)
    requires IndexOf(body, ':') == i && |body| >= i + 2 && body[i..i + 2] == Separator
    requires ParseTail(body[i + 2..]) == Some((timestamp, discriminator))
    ensures ParseBody(body) == Some(HandleParts(body[..i], timestamp, discriminator))
  {
  }

  lemma ParseBodySound(body: string)
    requires ParseBody(body).Some?
    ensures var p := ParseBody(body).value;
      Excludes(p.name, ':') && Excludes(p.discriminator, ':') &&
      p.name + Separator + p.timestamp + Separator + p.discriminator == body
  {
    var i := IndexOf(body, ':');
    ParseTailSound(body[i + 2..]);
    ParseBodyRebuilds(body);
  }

  lemma ParseBodyRebuilds(body: string)
    requires ParseBody(body).Some?
    ensures var p := ParseBody(body).value;
      p.name + Separator + p.timestamp + Separator + p.discriminator == body
  {
    var i := IndexOf(body, ':');
    var rest := body[i + 2..];
    ParseBodyShape(body);
    ParseTailSound(rest);
    SplitAtSeparator(body, i);
    var tail := ParseTail(rest).value;
    JoinThree(body, body[..i], rest, tail.0, tail.1);
  }

  /** What a successful `ParseBody` found. */
  lemma ParseBodyShape(body: string)
    requires ParseBody(body).Some?
    ensures var i := IndexOf(body, ':');
      |body| >= i + 2 && body[i..i + 2] == Separator && ParseTail(body[i + 2..]).Some? &&
      ParseBody(body).value == HandleParts(body[..i], ParseTail(body[i + 2..]).value.0, ParseTail(body[i + 2..]).value.1)
  {
  }

  lemma SplitAtSeparator(body: string, i: nat)
    requires |body| >= i + 2 && body[i..i + 2] == Separator
    ensures body == body[..i] + Separator + body[i + 2..]
  {
    assert body == body[..i] + body[i..i + 2] + body[i + 2..];
  }

  /** Regrouping `name::(timestamp::discriminator)`. */
  lemma JoinThree(body: string, name: string, rest: string, timestamp: string, discriminator: string)
    requires body == name + Separator + rest && rest == timestamp + Separator + discriminator
    ensures name + Separator + timestamp + Separator + discriminator == body
  {
  }

  /** Parsing recovers the parts of every handle whose name and
      discriminator contain no ':' (a .NET type name never does). */
  lemma ParseMakeHandle(name: string, timestamp: string, discriminator: string)
    requires Excludes(name, ':') && Excludes(discriminator, ':')
    ensures ParseHandle(MakeHandle(name, timestamp, discriminator)) == Some(HandleParts(name, timestamp, discriminator))
  {
    var body := name + Separator + timestamp + Separator + discriminator;
    var h := MakeHandle(name, timestamp, discriminator);
    assert h == body + Separator;
    assert h[..|h| - 2] == body;
    ParseMakeBody(name, timestamp, discriminator);
  }

  /** Every handle that parses is the handle of its parts. */
  lemma ParseHandleSound(h: string)
    requires ParseHandle(h).Some?
    ensures var p := ParseHandle(h).value;
      Excludes(p.name, ':') && Excludes(p.discriminator, ':') &&
      MakeHandle(p.name, p.timestamp, p.discriminator) == h
  {
    ParseBodySound(h[..|h| - 2]);
    assert h == h[..|h| - 2] + h[|h| - 2..];
  }

  /** Handles are injective in their parts when names and discriminators
      are colon-free: equal handles come from equal inputs. */
  lemma MakeHandleInjective(n1: string, t1: string, d1: string, n2: string, t2: string, d2: string)
    requires Excludes(n1, ':') && Excludes(d1, ':') && Excludes(n2, ':') && Excludes(d2, ':')
    requires MakeHandle(n1, t1, d1) == MakeHandle(n2, t2, d2)
    ensures n1 == n2 && t1 == t2 && d1 == d2
  {
    ParseMakeHandle(n1, t1, d1);
    ParseMakeHandle(n2, t2, d2);
  }

  // ---------------------------------------------------------------------
  // The table as a value

  /** The `Items` dictionary after `if (!Items.ContainsKey(h)) Items.Add(h, obj)`. */
  function Inserted(items: map<string, Obj>, h: string, obj: Obj): (r: map<string, Obj>)
    ensures r.Keys == items.Keys + {h}
    ensures r[h] == if h in items then items[h] else obj
    ensures forall k :: k in items ==> r[k] == items[k]
  {
    if h in items then items else items[h := obj]
  }

  /** The cast `(TActual) value` succeeds: every object is an `Object`. */
  predicate CastsTo(obj: Obj, requested: string)
  {
    requested == ObjectTypeName || requested in obj.castableTo
  }

  /** The two results of `TryGetTypedValue`: the return value and the out
      parameter (`None` when it is left at its null default). */
  datatype TryGet = TryGet(found: bool, value: Option<Obj>)

  /** `TryGetTypedValue`: dictionary lookup followed by a checked cast. */
  function TryGetTypedValue(data: map<string, Obj>, key: string, requested: string): (r: Result<TryGet, Error>)
    ensures key !in data ==> r == Ok(TryGet(false, None))
    ensures key in data && CastsTo(data[key], requested) ==> r == Ok(TryGet(true, Some(data[key])))
    ensures key in data && !CastsTo(data[key], requested) ==> r == Err(InvalidCast(key, requested))
  {
    if key in data then
      var tmp := data[key];
      if CastsTo(tmp, requested) then Ok(TryGet(true, Some(tmp))) else Err(InvalidCast(key, requested))
    else
      Ok(TryGet(false, None))
  }

  /** One registration: which `AddItem` overload is called, by name, clock
      reading and object. */
  datatype Registration = Registration(name: string, timestamp: string, obj: Obj, asPublicObject: bool)

  /** The type discriminator each overload puts in the handle. */
  function Discriminator(obj: Obj, asPublicObject: bool): string
  {
    if asPublicObject then obj.baseTypeName else obj.typeName
  }

  function HandleOf(reg: Registration): string
  {
    MakeHandle(reg.name, reg.timestamp, Discriminator(reg.obj, reg.asPublicObject))
  }

  /** The table after a sequence of registrations. Lookups leave it alone. */
  function Run(items: map<string, Obj>, regs: seq<Registration>): map<string, Obj>
    decreases |regs|
  {
    if regs == [] then items
    else Run(Inserted(items, HandleOf(regs[0]), regs[0].obj), regs[1..])
  }

  /** Entries are never removed or replaced: across any sequence of
      registrations every existing handle keeps its object, and every new
      handle is one that some registration generated. */
  lemma {:induction false} RunKeepsEntries(items: map<string, Obj>, regs: seq<Registration>)
    ensures items.Keys <= Run(items, regs).Keys
    ensures forall h :: h in items ==> Run(items, regs)[h] == items[h]
    ensures forall h :: h in Run(items, regs) && h !in items ==>
      exists i :: 0 <= i < |regs| && HandleOf(regs[i]) == h
    decreases |regs|
  {
    if regs != [] {
      var next := Inserted(items, HandleOf(regs[0]), regs[0].obj);
      RunKeepsEntries(next, regs[1..]);
      forall h | h in Run(items, regs) && h !in items
        ensures exists i :: 0 <= i < |regs| && HandleOf(regs[i]) == h
      {
        if h in next {
          assert HandleOf(regs[0]) == h;
        } else {
          var i :| 0 <= i < |regs[1..]| && HandleOf(regs[1..][i]) == h;
          assert HandleOf(regs[i + 1]) == h;
        }
      }
    }
  }

  /** Two objects of the same type registered under the same name within one
      clock reading get the same handle, and the table keeps only what was
      there first: the second object cannot be reached by its handle. */
  lemma SameTickCollision(items: map<string, Obj>, name: string, timestamp: string, a: Obj, b: Obj)
    requires a.typeName == b.typeName
    ensures var h := MakeHandle(name, timestamp, a.typeName);
      h == MakeHandle(name, timestamp, b.typeName) &&
      Inserted(Inserted(items, h, a), h, b) == Inserted(items, h, a) &&
      Inserted(Inserted(items, h, a), h, b)[h] == (if h in items then items[h] else a)
  {
  }

  /** The `IPublicObject` overload discriminates by base type only: two
      objects of different runtime types that share a base type, registered
      under one name within one clock reading, get the same handle, and the
      table keeps only what was there first. */
  lemma SharedBaseCollision(items: map<string, Obj>, name: string, timestamp: string, a: Obj, b: Obj)
    requires a.baseTypeName == b.baseTypeName
    ensures var ra, rb := Registration(name, timestamp, a, true), Registration(name, timestamp, b, true);
      var h := HandleOf(ra);
      HandleOf(rb) == h &&
      Run(items, [ra, rb]) == Inserted(items, h, a) &&
      Run(items, [ra, rb])[h] == (if h in items then items[h] else a)
  {
    var ra, rb := Registration(name, timestamp, a, true), Registration(name, timestamp, b, true);
    var h := HandleOf(ra);
    var first := Inserted(items, h, a);
    assert [ra, rb][0] == ra && [ra, rb][1..] == [rb];
    assert Run(items, [ra, rb]) == Run(first, [rb]);
    assert [rb][0] == rb && [rb][1..] == [];
    assert Run(first, [rb]) == Run(Inserted(first, h, b), []);
  }

  // ---------------------------------------------------------------------
  // The table as state

  /** `Globals`: the static `Items` dictionary as the field of one object. */
  class Globals {
    var items: map<string, Obj>

    /** The static initializer: the table starts empty. */
    constructor ()
      ensures items == map[]
    {
      items := map[];
    }

    /** `AddItem(string, object)`: the discriminator is the runtime type's
        name; the object is stored only when the handle is new, and the
        handle is returned either way. */
    method AddItem(name: string, timestamp: string, obj: Obj) returns (h: string)
      modifies this
      ensures h == name + "::" + timestamp + "::" + obj.typeName + "::"
      ensures h in items
      ensures h !in old(items) ==> items == old(items)[h := obj]
      ensures h in old(items) ==> items == old(items)
      ensures items == Inserted(old(items), h, obj)
    {
      h := MakeHandle(name, timestamp, obj.typeName);
      if h !in items {
        items := items[h := obj];
      }
    }

    /** `AddItem(string, IPublicObject)`: the discriminator is the base
        type's name, and the handle is written back into the object's
        `Handle` property whether or not the object was stored, so after a
        collision the object names a handle that resolves to another one. */
    method AddPublicItem(name: string, timestamp: string, obj: Obj) returns (h: string)
      requires obj.isPublicObject
      modifies this, obj
      ensures h == name + "::" + timestamp + "::" + obj.baseTypeName + "::"
      ensures obj.handle == Some(h)
      ensures h in items
      ensures h !in old(items) ==> items == old(items)[h := obj]
      ensures h in old(items) ==> items == old(items)
      ensures items == Inserted(old(items), h, obj)
    {
      h := MakeHandle(name, timestamp, obj.baseTypeName);
      if h !in items {
        items := items[h := obj];
      }
      obj.handle := Some(h);
    }

    /** `TryGetItem<TValue>`: false and the null default for an absent
        handle; true and the stored object for a present one whose object
        casts to `requested`; a cast failure otherwise. */
    function TryGetItem(handle: string, requested: string): (r: Result<TryGet, Error>)
      reads this
      ensures r.Ok? && r.value.found <==> handle in items && CastsTo(items[handle], requested)
      ensures r.Ok? && !r.value.found ==> r.value.value == None
      ensures r.Ok? && r.value.found ==> r.value.value == Some(items[handle])
      ensures r.Err? <==> handle in items && !CastsTo(items[handle], requested)
      ensures r.Err? ==> r.error == InvalidCast(handle, requested)
    {
      TryGetTypedValue(items, handle, requested)
    }

    /** `GetItem`: null exactly when the handle is absent, the stored object
        otherwise (the cast to `object` cannot fail). */
    function GetItem(handle: string): (r: Option<Obj>)
      reads this
      ensures r.None? <==> handle !in items
      ensures r.Some? ==> r.value == items[handle]
    {
      var r := TryGetItem(handle, ObjectTypeName);
      if r.Ok? && r.value.found then r.value.value else None
    }

    /** `PublicObject.This<T>`: throws `ObjectMissing(handle)` for an absent
        handle, the cast failure for an object of another type, and returns
        the stored object otherwise. */
    function This(handle: string, requested: string): (r: Result<Obj, Error>)
      reads this
      ensures handle !in items <==> r == Err(ObjectMissing(handle))
      ensures r.Ok? <==> handle in items && CastsTo(items[handle], requested)
      ensures r.Ok? ==> r.value == items[handle]
      ensures handle in items && !CastsTo(items[handle], requested) ==> r == Err(InvalidCast(handle, requested))
    {
      match TryGetItem(handle, requested)
      case Err(e) => Err(e)
      case Ok(TryGet(found, obj)) =>
        if !found || obj.None? then Err(ObjectMissing(handle)) else Ok(obj.value)
    }
  }

  /** Registering then looking up: right after `AddItem`, the returned handle
      resolves to the new object when the handle was new and to the old one
      on a collision; no other handle resolves differently. */
  method AddThenResolve(g: Globals, name: string, timestamp: string, obj: Obj, other: string) returns (h: string)
    modifies g
    ensures g.GetItem(h) == Some(if h in old(g.items) then old(g.items)[h] else obj)
    ensures other != h ==> g.GetItem(other) == old(g.GetItem(other))
  {
    h := g.AddItem(name, timestamp, obj);
  }

  /** A client: two quotes registered under one name. In different clock
      readings both stay reachable; in the same reading the second is lost. */
  method QuoteScenario()
  {
    var g := new Globals();
    var a := new Obj("Quote", "Object", {"Quote"}, false);
    var b := new Obj("Quote", "Object", {"Quote"}, false);
    var ha := g.AddItem("quote", "05:17.1234", a);
    var hb := g.AddItem("quote", "05:17.1235", b);
    assert ha != hb by {
      assert ha[13..17] == "1234" && hb[13..17] == "1235";
    }
    assert g.GetItem(ha) == Some(a) && g.GetItem(hb) == Some(b);
    var c := new Obj("Quote", "Object", {"Quote"}, false);
    var hc := g.AddItem("quote", "05:17.1235", c);
    assert hc == hb && g.GetItem(hc) == Some(b);
    var missing := g.This("never-registered", "Quote");
    assert missing == Err(ObjectMissing("never-registered")) by {
      assert "never-registered" !in g.items by {
        assert forall k :: k in g.items ==> k == ha || k == hb;
        assert ha[..7] == "quote::";
        assert hb[..7] == "quote::";
      }
    }
  }
}
