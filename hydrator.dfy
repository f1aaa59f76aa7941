/** The response hydrator `dc_from_dict` (demo/setup.py): it turns a decoded
    JSON tree into nested dataclass instances, field by field, guided by the
    declared type of each field. Python's run-time reflection over dataclass
    fields is replaced by an explicit description of the declared types. */
module Hydrator {
  import opened JsonValue
  import opened Results

  /** The declared type of a dataclass field, or the class handed to
      `dc_from_dict`: a dataclass, a `list[T]`, or anything else (`int`,
      `str`, `bool`, ...), which the hydrator never looks into. */
  datatype FieldType =
    | Prim
    | Rec(cls: string, fields: seq<Field>)
    | ListOf(elem: FieldType)

  /** One declared field of a dataclass, in declaration order. */
  datatype Field = Field(name: string, ty: FieldType)

  /** What hydration produces: a value passed through untouched (Python
      `None` is `Raw(JNull)`), a dataclass instance whose fields are listed in
      declaration order, or a freshly built Python list. */
  datatype Value =
    | Raw(json: Json)
    | Instance(cls: string, entries: seq<Entry>)
    | List(items: seq<Value>)

  datatype Entry = Entry(name: string, value: Value)

  /** The exceptions the hydrator lets escape: `AttributeError` from calling
      `.get` on something that is not a dict, and `TypeError` from iterating
      something that is not iterable. */
  datatype HydrateError =
    | NotAMapping(got: Json)
    | NotIterable(got: Json)

  /** True when `v` is an instance of record type `t` holding exactly the
      declared fields, under their declared names, in declaration order. */
  predicate HasDeclaredFields(t: FieldType, v: Value)
    requires t.Rec?
  {
    && v.Instance?
    && v.cls == t.cls
    && |v.entries| == |t.fields|
    && forall i | 0 <= i < |t.fields| :: v.entries[i].name == t.fields[i].name
  }

  /** `dc_from_dict(cls, data)`. The input is only touched by `data.get`
      inside the field loop, so a dataclass without fields accepts any input,
      and one with fields raises on the first `.get` when the input is not a
      dict. */
  function Hydrate(t: FieldType, data: Json): (r: Result<Value, HydrateError>)
    ensures !t.Rec? ==> r == Ok(Raw(data))
    ensures t.Rec? && |t.fields| == 0 ==> r == Ok(Instance(t.cls, []))
    ensures t.Rec? && |t.fields| > 0 && !data.JObj? ==> r == Err(NotAMapping(data))
    ensures t.Rec? && r.Ok? ==> HasDeclaredFields(t, r.value)
    ensures t.Rec? && data.JObj? && r.Ok? ==>
              forall i | 0 <= i < |t.fields| ::
                HydrateEntry(t.fields[i], data.obj) == Ok(r.value.entries[i])
    ensures t.Rec? && data.JObj? && r.Err? ==>
              exists i | 0 <= i < |t.fields| ::
                && HydrateEntry(t.fields[i], data.obj) == Err(r.error)
                && forall j | 0 <= j < i :: HydrateEntry(t.fields[j], data.obj).Ok?
    decreases t, 1
  {
    if !t.Rec? then Ok(Raw(data))
    else if |t.fields| == 0 then Ok(Instance(t.cls, []))
    else if !data.JObj? then Err(NotAMapping(data))
    else
      var rs := seq(|t.fields|, i requires 0 <= i < |t.fields| => HydrateEntry(t.fields[i], data.obj));
      assert forall i | 0 <= i < |t.fields| :: rs[i] == HydrateEntry(t.fields[i], data.obj);
      match Collect(rs)
      case Ok(entries) => Ok(Instance(t.cls, entries))
      case Err(e) => Err(e)
  }

  /** One iteration of the field loop: `value = data.get(f.name)`, converted
      according to the field's declared type, stored as `kwargs[f.name]`. */
  function HydrateEntry(f: Field, m: map<string, Json>): (r: Result<Entry, HydrateError>)
    ensures r.Ok? ==> r.value.name == f.name
    decreases f.ty, 5
  {
    match HydrateField(f.ty, Lookup(m, f.name))
    case Ok(v) => Ok(Entry(f.name, v))
    case Err(e) => Err(e)
  }

  /** The conversion of one looked-up field value by its declared type:
      `None` stays `None` except that a list field becomes an empty list; a
      primitive field keeps its value; a nested record becomes an instance
      with its declared fields; a list field becomes a list, and raises when
      its value cannot be iterated. */
  function HydrateField(t: FieldType, v: Json): (r: Result<Value, HydrateError>)
    ensures v.JNull? ==> r == Ok(if t.ListOf? then List([]) else Raw(JNull))
    ensures t.Prim? ==> r == Ok(Raw(v))
    ensures t.Rec? && !v.JNull? && r.Ok? ==> HasDeclaredFields(t, r.value)
    ensures t.ListOf? && r.Ok? ==> r.value.List?
    ensures t.ListOf? && v == JObj(map[]) ==> r == Ok(List([]))
    ensures t.ListOf? && !(v.JNull? || v.JArr? || v.JStr? || v == JObj(map[])) ==> r == Err(NotIterable(v))
    decreases t, 4
  {
    match t
    case Rec(_, _) => if v.JNull? then Ok(Raw(JNull)) else Hydrate(t, v)
    case ListOf(e) =>
      (match v
       case JNull => Ok(List([]))
       case JArr(xs) => HydrateListItems(e, xs)
       case JStr(s) => HydrateListItems(e, Chars(s))
       case JObj(o) => if o == map[] then HydrateListItems(e, []) else Err(NotIterable(v))
       case _ => Err(NotIterable(v)))
    case Prim => Ok(Raw(v))
  }

  /** `[dc_from_dict(item_type, v) for v in value]`, as a Python list. */
  function HydrateListItems(e: FieldType, xs: seq<Json>): (r: Result<Value, HydrateError>)
    decreases e, 3
  {
    match HydrateAll(e, xs)
    case Ok(vs) => Ok(List(vs))
    case Err(err) => Err(err)
  }

  /** Hydrates every element of `xs` against `e`, in order, stopping at the
      first element that raises. */
  function HydrateAll(e: FieldType, xs: seq<Json>): (r: Result<seq<Value>, HydrateError>)
    ensures r.Ok? <==> forall i | 0 <= i < |xs| :: Hydrate(e, xs[i]).Ok?
    ensures r.Ok? ==> |r.value| == |xs| &&
                      forall i | 0 <= i < |xs| :: Hydrate(e, xs[i]) == Ok(r.value[i])
    ensures r.Err? ==> exists i | 0 <= i < |xs| ::
                         Hydrate(e, xs[i]) == Err(r.error) && forall j | 0 <= j < i :: Hydrate(e, xs[j]).Ok?
    decreases e, 2
  {
    var rs := seq(|xs|, i requires 0 <= i < |xs| => Hydrate(e, xs[i]));
    assert forall i | 0 <= i < |xs| :: rs[i] == Hydrate(e, xs[i]);
    Collect(rs)
  }

  /** `dc_from_dict(cls, data)` as the source runs it: a loop over the
      declared fields that builds the keyword arguments one at a time and
      converts nested records and lists by recursive calls. */
  method DcFromDict(t: FieldType, data: Json) returns (r: Result<Value, HydrateError>)
    ensures r == Hydrate(t, data)
    decreases t, 1
  {
    if !t.Rec? {
      return Ok(Raw(data));
    }
    var fs := t.fields;
    var kwargs: seq<Entry> := [];
    for i := 0 to |fs|
      invariant |kwargs| == i
      invariant i > 0 ==> data.JObj?
      invariant forall j | 0 <= j < i :: data.JObj? && HydrateEntry(fs[j], data.obj) == Ok(kwargs[j])
    {
      var f := fs[i];
      if !data.JObj? {
        // `data.get` on something that is not a dict
        return Err(NotAMapping(data));
      }
      var m := data.obj;
      var value := Lookup(m, f.name);
      var v: Value;
      match f.ty {
        case Rec(_, _) =>
          if value.JNull? {
            v := Raw(JNull);
          } else {
            var sub := DcFromDict(f.ty, value);
            if sub.Err? {
              assert HydrateEntry(fs[i], m) == Err(sub.error);
              return Err(sub.error);
            }
            v := sub.value;
          }
        case ListOf(itemType) =>
          if value.JNull? {
            v := List([]);
          } else {
            var items: seq<Json>;
            if value.JArr? {
              items := value.arr;
            } else if value.JStr? {
              items := Chars(value.str);
            } else if value == JObj(map[]) {
              // iterating an empty dict yields nothing, whatever the key order
              items := [];
            } else {
              assert HydrateEntry(fs[i], m) == Err(NotIterable(value));
              return Err(NotIterable(value));
            }
            var sub := HydrateItems(itemType, items);
            assert HydrateField(f.ty, value) == HydrateListItems(itemType, items);
            if sub.Err? {
              assert HydrateEntry(fs[i], m) == Err(sub.error);
              return Err(sub.error);
            }
            v := List(sub.value);
          }
        case Prim =>
          v := Raw(value);
      }
      kwargs := kwargs + [Entry(f.name, v)];
    }
    assert Hydrate(t, data).Ok?;
    assert Hydrate(t, data).value.entries == kwargs;
    return Ok(Instance(t.cls, kwargs));
  }

  /** The list comprehension `[dc_from_dict(item_type, v) for v in value]`. */
  method HydrateItems(itemType: FieldType, xs: seq<Json>) returns (r: Result<seq<Value>, HydrateError>)
    ensures r == HydrateAll(itemType, xs)
    decreases itemType, 2
  {
    var out: seq<Value> := [];
    for i := 0 to |xs|
      invariant |out| == i
      invariant forall j | 0 <= j < i :: Hydrate(itemType, xs[j]) == Ok(out[j])
    {
      var x := DcFromDict(itemType, xs[i]);
      if x.Err? {
        return Err(x.error);
      }
      out := out + [x.value];
    }
    assert HydrateAll(itemType, xs).value == out;
    return Ok(out);
  }

  /** The converse of `Hydrate`'s field-by-field postcondition: an object
      whose declared fields each hydrate to the given entries hydrates to the
      instance holding exactly those entries. */
  lemma HydrateFromEntries(t: FieldType, m: map<string, Json>, entries: seq<Entry>)
    requires t.Rec? && |entries| == |t.fields|
    requires forall i | 0 <= i < |t.fields| :: HydrateEntry(t.fields[i], m) == Ok(entries[i])
    ensures Hydrate(t, JObj(m)) == Ok(Instance(t.cls, entries))
  {
    assert Hydrate(t, JObj(m)).Ok?;
    assert Hydrate(t, JObj(m)).value.entries == entries;
  }

  /** The converse of `HydrateAll`'s element-wise postcondition. */
  lemma HydrateAllFromElements(e: FieldType, xs: seq<Json>, vs: seq<Value>)
    requires |vs| == |xs|
    requires forall i | 0 <= i < |xs| :: Hydrate(e, xs[i]) == Ok(vs[i])
    ensures HydrateAll(e, xs) == Ok(vs)
  {
    assert HydrateAll(e, xs).Ok?;
    assert HydrateAll(e, xs).value == vs;
  }

  // ----------------------------------------------------------------------
  // Which inputs hydrate: an independent description of the accepted shapes
  // ----------------------------------------------------------------------

  /** `data` has the shape that record type `t` expects: anything at all for
      a non-record type or a record type without fields, otherwise a JSON
      object whose declared fields each have an acceptable value (absent keys
      read as `null`). */
  predicate Conforms(t: FieldType, data: Json)
    decreases t, 1
  {
    || !t.Rec?
    || |t.fields| == 0
    || (&& data.JObj?
        && forall i | 0 <= i < |t.fields| ::
             FieldConforms(t.fields[i].ty, Lookup(data.obj, t.fields[i].name)))
  }

  /** A field value is acceptable for its declared type: a record field takes
      `null` or a conforming object; a list field takes `null`, an array of
      conforming elements, or a string, whose one-character elements only a
      record element type with fields rejects, or an empty object, which
      iterates to nothing; a primitive field takes anything. */
  predicate FieldConforms(t: FieldType, v: Json)
    decreases t, 2
  {
    match t
    case Prim => true
    case Rec(_, _) => v.JNull? || Conforms(t, v)
    case ListOf(e) =>
      || v.JNull?
      || (v.JArr? && forall i | 0 <= i < |v.arr| :: Conforms(e, v.arr[i]))
      || (v.JStr? && (e.Rec? && |e.fields| > 0 ==> v.str == []))
      || v == JObj(map[])
  }

  /** Hydration raises exactly on the inputs that do not have the expected
      shape; on every conforming input it succeeds. */
  lemma {:induction false} HydrateSucceedsIffConforms(t: FieldType, data: Json)
    ensures Hydrate(t, data).Ok? <==> Conforms(t, data)
    decreases t, 1
  {
    if t.Rec? && data.JObj? {
      forall i | 0 <= i < |t.fields|
        ensures HydrateEntry(t.fields[i], data.obj).Ok? <==>
                FieldConforms(t.fields[i].ty, Lookup(data.obj, t.fields[i].name))
      {
        FieldSucceedsIffConforms(t.fields[i].ty, Lookup(data.obj, t.fields[i].name));
      }
    }
  }

  lemma {:induction false} FieldSucceedsIffConforms(t: FieldType, v: Json)
    ensures HydrateField(t, v).Ok? <==> FieldConforms(t, v)
    decreases t, 2
  {
    match t
    case Prim =>
    case Rec(_, _) =>
      if !v.JNull? {
        HydrateSucceedsIffConforms(t, v);
      }
    case ListOf(e) =>
      if v.JArr? {
        forall i | 0 <= i < |v.arr|
          ensures Hydrate(e, v.arr[i]).Ok? <==> Conforms(e, v.arr[i])
        {
          HydrateSucceedsIffConforms(e, v.arr[i]);
        }
      } else if v.JStr? && v.str != [] {
        assert Hydrate(e, Chars(v.str)[0]).Ok? <==> !(e.Rec? && |e.fields| > 0);
      }
  }

  /** Hydrating a whole list raises exactly when some element does not conform. */
  lemma HydrateAllSucceedsIffConforms(e: FieldType, xs: seq<Json>)
    ensures HydrateAll(e, xs).Ok? <==> forall i | 0 <= i < |xs| :: Conforms(e, xs[i])
  {
    forall i | 0 <= i < |xs| ensures Hydrate(e, xs[i]).Ok? <==> Conforms(e, xs[i]) {
      HydrateSucceedsIffConforms(e, xs[i]);
    }
  }

  // ----------------------------------------------------------------------
  // Which input keys matter
  // ----------------------------------------------------------------------

  /** The result depends on the input object only through the values its
      declared field names look up: other keys are never read. */
  lemma OnlyDeclaredKeysMatter(t: FieldType, m: map<string, Json>, m': map<string, Json>)
    requires t.Rec?
    requires forall i | 0 <= i < |t.fields| ::
               Lookup(m, t.fields[i].name) == Lookup(m', t.fields[i].name)
    ensures Hydrate(t, JObj(m)) == Hydrate(t, JObj(m'))
  {
    var rs := seq(|t.fields|, i requires 0 <= i < |t.fields| => HydrateEntry(t.fields[i], m));
    var rs' := seq(|t.fields|, i requires 0 <= i < |t.fields| => HydrateEntry(t.fields[i], m'));
    assert rs == rs';
  }

  /** True when `k` names one of the declared fields of record type `t`. */
  predicate Declares(t: FieldType, k: string)
    requires t.Rec?
  {
    exists i | 0 <= i < |t.fields| :: t.fields[i].name == k
  }

  /** Adding, replacing or removing a key that no declared field names leaves
      the result unchanged. */
  lemma UnknownKeyIgnored(t: FieldType, m: map<string, Json>, k: string, x: Json)
    requires t.Rec? && !Declares(t, k)
    ensures Hydrate(t, JObj(m[k := x])) == Hydrate(t, JObj(m))
    ensures Hydrate(t, JObj(m - {k})) == Hydrate(t, JObj(m))
  {
    OnlyDeclaredKeysMatter(t, m[k := x], m);
    OnlyDeclaredKeysMatter(t, m - {k}, m);
  }

  /** A missing key and a key holding `null` hydrate identically. */
  lemma MissingKeyIsNull(t: FieldType, m: map<string, Json>, k: string)
    requires t.Rec?
    ensures Hydrate(t, JObj(m - {k})) == Hydrate(t, JObj(m[k := JNull]))
  {
    OnlyDeclaredKeysMatter(t, m - {k}, m[k := JNull]);
  }

  // ----------------------------------------------------------------------
  // What each kind of declared field becomes
  // ----------------------------------------------------------------------

  /** A field whose key is absent is still present in the result: `None`,
      except that a list field becomes an empty list. */
  lemma AbsentFieldDefaults(t: FieldType, m: map<string, Json>, i: nat)
    requires t.Rec? && i < |t.fields| && t.fields[i].name !in m
    requires Hydrate(t, JObj(m)).Ok?
    ensures Hydrate(t, JObj(m)).value.entries[i] ==
            Entry(t.fields[i].name, if t.fields[i].ty.ListOf? then List([]) else Raw(JNull))
  {
  }

  /** A nested-record field holding `null` (or absent) stays `None`, never a
      default instance; otherwise it is the hydration of the nested object,
      which then holds the nested type's declared fields. */
  lemma NestedRecordField(t: FieldType, m: map<string, Json>, i: nat)
    requires t.Rec? && i < |t.fields| && t.fields[i].ty.Rec?
    requires Hydrate(t, JObj(m)).Ok?
    ensures var v := Lookup(m, t.fields[i].name);
            var out := Hydrate(t, JObj(m)).value.entries[i].value;
            && (v.JNull? ==> out == Raw(JNull))
            && (!v.JNull? ==> Hydrate(t.fields[i].ty, v) == Ok(out) &&
                              HasDeclaredFields(t.fields[i].ty, out))
  {
    var f, v := t.fields[i], Lookup(m, t.fields[i].name);
    assert HydrateEntry(f, m) == Ok(Hydrate(t, JObj(m)).value.entries[i]);
    assert !v.JNull? ==> HydrateField(f.ty, v) == Hydrate(f.ty, v);
  }

  /** A list field holding `null` (or absent) becomes the empty list, never
      `None`; an array becomes a list of the same length whose element `j` is
      the hydration of input element `j`; a string is iterated one character
      at a time, which only a record element type with fields rejects; an
      empty object becomes the empty list. */
  lemma ListField(t: FieldType, m: map<string, Json>, i: nat)
    requires t.Rec? && i < |t.fields| && t.fields[i].ty.ListOf?
    requires Hydrate(t, JObj(m)).Ok?
    ensures var v := Lookup(m, t.fields[i].name);
            var out := Hydrate(t, JObj(m)).value.entries[i].value;
            && (v.JNull? || v.JArr? || v.JStr? || v == JObj(map[]))
            && out.List?
            && (v.JNull? || v.JObj? ==> out.items == [])
            && (v.JArr? ==>
                  && |out.items| == |v.arr|
                  && forall j | 0 <= j < |v.arr| ::
                       Hydrate(t.fields[i].ty.elem, v.arr[j]) == Ok(out.items[j]))
            && (v.JStr? && t.fields[i].ty.elem.Rec? && |t.fields[i].ty.elem.fields| > 0 ==> out.items == [])
            && (v.JStr? ==>
                  && |out.items| == |v.str|
                  && forall j | 0 <= j < |v.str| ::
                       Hydrate(t.fields[i].ty.elem, JStr([v.str[j]])) == Ok(out.items[j]))
  {
    var f, v := t.fields[i], Lookup(m, t.fields[i].name);
    assert HydrateEntry(f, m) == Ok(Hydrate(t, JObj(m)).value.entries[i]);
    assert HydrateField(f.ty, v).Ok?;
    if v.JArr? {
      assert HydrateField(f.ty, v) == HydrateListItems(f.ty.elem, v.arr);
    } else if v.JStr? {
      assert HydrateField(f.ty, v) == HydrateListItems(f.ty.elem, Chars(v.str));
      StringOfRecordsRaises(f.ty.elem, v.str);
    }
  }

  /** Iterating a non-empty string into a record type with fields raises on
      the first character, which is not a dict. */
  lemma StringOfRecordsRaises(e: FieldType, s: string)
    ensures e.Rec? && |e.fields| > 0 && s != [] ==> HydrateListItems(e, Chars(s)).Err?
  {
    if e.Rec? && |e.fields| > 0 && s != [] {
      assert Hydrate(e, Chars(s)[0]).Err?;
    }
  }

  /** A primitive field is the looked-up value itself, not coerced or checked
      against the declared type. */
  lemma PrimitiveFieldPassesThrough(t: FieldType, m: map<string, Json>, i: nat)
    requires t.Rec? && i < |t.fields| && t.fields[i].ty.Prim?
    requires Hydrate(t, JObj(m)).Ok?
    ensures Hydrate(t, JObj(m)).value.entries[i].value == Raw(Lookup(m, t.fields[i].name))
  {
  }
}
