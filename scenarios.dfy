/** Two worked hydrations: a list of nested records with an unknown key in one
    element, and a nested record whose key is absent. */
module HydrationScenarios {
  import opened JsonValue
  import opened Results
  import opened Hydrator

  /** `@dataclass class Inner: id: int; name: str` */
  const InnerType: FieldType := Rec("Inner", [Field("id", Prim), Field("name", Prim)])

  /** `@dataclass class Outer: items: list[Inner]` */
  const OuterWithItems: FieldType := Rec("Outer", [Field("items", ListOf(InnerType))])

  /** `@dataclass class Outer: child: Inner` */
  const OuterWithChild: FieldType := Rec("Outer", [Field("child", InnerType)])

  /** `@dataclass class Empty: pass` */
  const EmptyType: FieldType := Rec("Empty", [])

  function InnerJson(id: int, name: string): Json {
    JObj(map["id" := JNum(id), "name" := JStr(name)])
  }

  function InnerValue(id: int, name: string): Value {
    Instance("Inner", [Entry("id", Raw(JNum(id))), Entry("name", Raw(JStr(name)))])
  }

  /** `{"items": [{"id":1,"name":"a"}, {"id":2,"name":"b"},
      {"extra":"ignored","id":3,"name":"c"}]}` becomes
      `Outer(items=[Inner(1,"a"), Inner(2,"b"), Inner(3,"c")])`: order kept,
      the extra key dropped. */
  lemma ItemsKeepOrderAndDropExtraKeys()
    ensures Hydrate(OuterWithItems,
                    JObj(map["items" := JArr([InnerJson(1, "a"), InnerJson(2, "b"),
                                              JObj(InnerJson(3, "c").obj["extra" := JStr("ignored")])])]))
            == Ok(Instance("Outer", [Entry("items", List([InnerValue(1, "a"), InnerValue(2, "b"),
                                                          InnerValue(3, "c")]))]))
  {
    var third := InnerJson(3, "c").obj["extra" := JStr("ignored")];
    var xs := [InnerJson(1, "a"), InnerJson(2, "b"), JObj(third)];
    var vs := [InnerValue(1, "a"), InnerValue(2, "b"), InnerValue(3, "c")];
    forall i | 0 <= i < 3 ensures Hydrate(InnerType, xs[i]) == Ok(vs[i]) {
      var id, name := [1, 2, 3][i], ["a", "b", "c"][i];
      InnerHydrates(id, name);
      if i == 2 {
        assert !Declares(InnerType, "extra");
        UnknownKeyIgnored(InnerType, InnerJson(3, "c").obj, "extra", JStr("ignored"));
      }
    }
    HydrateAllFromElements(InnerType, xs, vs);
    var items := map["items" := JArr(xs)];
    assert HydrateEntry(OuterWithItems.fields[0], items) == Ok(Entry("items", List(vs)));
    HydrateFromEntries(OuterWithItems, items, [Entry("items", List(vs))]);
  }

  /** `{"id": n, "name": s}` becomes `Inner(n, s)`. */
  lemma InnerHydrates(id: int, name: string)
    ensures Hydrate(InnerType, InnerJson(id, name)) == Ok(InnerValue(id, name))
  {
    var m := InnerJson(id, name).obj;
    assert HydrateEntry(InnerType.fields[0], m) == Ok(Entry("id", Raw(JNum(id))));
    assert HydrateEntry(InnerType.fields[1], m) == Ok(Entry("name", Raw(JStr(name))));
    HydrateFromEntries(InnerType, m, InnerValue(id, name).entries);
  }

  /** `{}` against `Outer{child: Inner}` becomes `Outer(child=None)`, not an
      `Inner` with empty fields. */
  lemma AbsentChildIsNone()
    ensures Hydrate(OuterWithChild, JObj(map[])) == Ok(Instance("Outer", [Entry("child", Raw(JNull))]))
  {
    assert HydrateEntry(OuterWithChild.fields[0], map[]) == Ok(Entry("child", Raw(JNull)));
    HydrateFromEntries(OuterWithChild, map[], [Entry("child", Raw(JNull))]);
  }

  /** A dataclass without fields never calls `data.get`, so it is built from
      any input, and a string given for a `list[Empty]` field yields one
      instance per character. */
  lemma EmptyRecordAcceptsAnything()
    ensures Hydrate(EmptyType, JNum(42)) == Ok(Instance("Empty", []))
    ensures HydrateField(ListOf(EmptyType), JStr("ab")) ==
            Ok(List([Instance("Empty", []), Instance("Empty", [])]))
  {
    var xs := Chars("ab");
    assert xs == [JStr("a"), JStr("b")];
    HydrateAllFromElements(EmptyType, xs, [Instance("Empty", []), Instance("Empty", [])]);
  }
}
