# Photo organizer demo script: hydrator, response readers and parity labelling

This project models the logic of `demo/setup.py`. That script runs against a
PhotoPrism server. It re-indexes the library and fetches a page of photos,
then loads each photo's details. A photo whose name is a decimal number gets
an "Even Number" or "Odd Number" label, and every photo is then approved.

The model has five parts:

- `JsonValue` / `Results` (`json.dfy`): decoded JSON values. `Lookup` models
  `dict.get`, where a missing key and an explicit `null` both read as `None`.
  `Chars` gives what iterating a Python string yields. `Collect` sequences
  computations that may raise and stops at the first error, like a list
  comprehension or a `for` loop whose body throws.
- `Hydrator` (`hydrator.dfy`): `dc_from_dict`. Python's run-time reflection
  is replaced by an explicit `FieldType` with three cases: a dataclass
  (`Rec`), a `list[T]` (`ListOf`), or anything else (`Prim`). `Hydrate` and
  its helpers are the specification. `DcFromDict` and `HydrateItems` are the
  loop and comprehension as the source runs them, and each is proved equal to
  the specification. The lemmas prove the properties:
  - which inputs hydrate at all (`Conforms`)
  - which keys matter
  - what each kind of field becomes.
- `Photos` (`photos.dfy`): the five dataclasses `Details`, `File`,
  `LabelInfo`, `PhotoLabel` and `Photo` as constant `FieldType`s, and the
  readers `Photo.list_from_response` / `Photo.from_response`. Each reader
  takes a response given as its status code and its decoded body.
- `Labelling` (`labelling.dfy`): the even/odd decision of the main loop as a
  pure function. The loop itself is a method that records the requests it
  would issue (add a label, approve), in order.
- `HydrationScenarios` (`scenarios.dfy`): two concrete hydrations, worked
  through with the general lemmas.

Exceptions become values. `HydrateError.NotAMapping` is the `AttributeError`
from calling `.get` on a non-dict. `HydrateError.NotIterable` is the
`TypeError` from iterating a number or a boolean (and, in the model, a
non-empty JSON object; see "Left out"). `None` is never iterated: a `None`
list field becomes `[]`, as does an empty object. `ResponseError` holds the
readers' `ValueError`s. Python `None` in a hydrated record is
`Raw(JNull)`.

The model keeps the code's behaviour on points where a cleaner design might differ:

- An absent primitive field becomes `None`, not a "natural zero value".
  `data.get` returns `None`, and no default is applied.
- A list field may declare any element type, not only a record type. Elements
  of a non-record type are passed through unchanged, like any non-dataclass
  target.
- A list field holding a string is iterated character by character, as Python
  does. With a record element type that declares fields, this raises on the
  first character.
- Input that is not a mapping where a record with fields is expected is not
  undefined. The first `data.get` raises `AttributeError`, which the model
  returns as `NotAMapping`.
- The input is only touched by `data.get` inside the field loop. A dataclass
  that declares no fields is therefore built from any input, including a
  number or a string.

Hydration is a function of its inputs, so calling it twice on the same input
gives equal results by construction.

## Model

| member | source | states |
|---|---|---|
| JsonValue.LookupAfterUpdate | demo/setup.py:16 | `data.get` (`Lookup`) sees a stored value under its own key only; a removed key reads as `None`, the same as a stored JSON null |
| JsonValue.JoinChars | demo/setup.py:21 | iterating a string (`Chars`) yields one one-character string per character, and joining them gives the string back |
| Results.Collect | demo/setup.py:15-22 | a sequence of raising computations succeeds iff every one succeeds, then holds all values in order; otherwise it fails with the error of the first one that raises |
| Hydrator.Hydrate | demo/setup.py:8-23 | a non-dataclass target returns the input unchanged; a dataclass with no fields gives an empty instance for any input; a dataclass with fields raises on a non-dict; on success the instance has exactly the declared fields, in declaration order, each the conversion of its looked-up value; on failure the error is that of the first field that raises |
| Hydrator.HydrateEntry | demo/setup.py:16-22 | one field's entry carries the declared field name |
| Hydrator.HydrateField | demo/setup.py:16-22 | one looked-up value by its declared type: `None` stays `None` except that a list field becomes `[]`; a primitive keeps its value; a nested record is an instance with its declared fields; a list field gives a list (`[]` for an empty object, which iterates to nothing), and raises when the value is a number, boolean or non-empty object |
| Hydrator.HydrateAll | demo/setup.py:21 | (wrapped as a Python list by `HydrateListItems`) hydrating a list succeeds iff every element hydrates; the result has the same length and element i is the hydration of input element i; otherwise the first failing element's error |
| Hydrator.DcFromDict | demo/setup.py:8-23 | the field loop building `kwargs` one field at a time, with recursive calls and `.get` raising on a non-dict at the first field, computes exactly `Hydrate` (including which error escapes) |
| Hydrator.HydrateItems | demo/setup.py:21 | the element-by-element comprehension computes exactly `HydrateAll` |
| Hydrator.HydrateFromEntries | demo/setup.py:14-23 | conversely, an object whose declared fields each convert to the given entries hydrates to the instance with exactly those entries |
| Hydrator.HydrateAllFromElements | demo/setup.py:21 | conversely, a list whose elements each hydrate to the given values hydrates to exactly that list |
| Hydrator.HydrateSucceedsIffConforms | demo/setup.py:12-23 | hydration raises exactly on inputs that do not have the expected shape (`Conforms`): non-dict for a record with fields, non-null non-dict for a nested record with fields, non-iterable (or a non-empty object) for a list, a non-empty string for a list of records with fields; a record without fields accepts anything |
| Hydrator.FieldSucceedsIffConforms | demo/setup.py:16-22 | one field's conversion raises exactly when its value does not fit the declared field type |
| Hydrator.HydrateAllSucceedsIffConforms | demo/setup.py:21 | a list hydrates iff every element conforms |
| Hydrator.OnlyDeclaredKeysMatter | demo/setup.py:15-16 | two objects that agree on the values of the declared field names hydrate identically |
| Hydrator.UnknownKeyIgnored | demo/setup.py:9-16 | adding, replacing or removing a key that names no declared field does not change the result |
| Hydrator.MissingKeyIsNull | demo/setup.py:16 | an absent key and a key holding null give the same result |
| Hydrator.AbsentFieldDefaults | demo/setup.py:16-22 | a declared field whose key is absent is still present: `None`, or the empty list for a list field |
| Hydrator.NestedRecordField | demo/setup.py:17-18 | a nested-record field that is null or absent stays `None`, never a default instance; otherwise it is the recursive hydration, an instance with the nested type's declared fields |
| Hydrator.ListField | demo/setup.py:19-21 | a list field that is null or absent becomes the empty list, never `None`; an array keeps its length and order, element j being the hydration of input element j; a string is iterated by character, and is empty when the elements are records with fields; an empty object gives the empty list |
| Hydrator.StringOfRecordsRaises | demo/setup.py:21 | iterating a non-empty string into a record type with fields raises, because its first character is not a dict |
| Hydrator.PrimitiveFieldPassesThrough | demo/setup.py:22 | a primitive field is the looked-up value itself, with no coercion or check against the declared type |
| Photos.ListFromResponse | demo/setup.py:73-82 | status other than 200 raises; a non-array body raises; otherwise it succeeds iff every element conforms to `Photo`, with one hydrated Photo per element in the same order |
| Photos.FromResponse | demo/setup.py:84-91 | status other than 200 raises; otherwise it succeeds iff the body conforms to `Photo`, giving its hydration |
| Photos.HydratedPhotoShape | demo/setup.py:25-71 | the five dataclasses are transcribed as `DetailsType`, `FileType`, `LabelInfoType`, `PhotoLabelType` and `PhotoType`; a hydrated Photo has its ten declared attributes; `Files` and `Labels` are lists, never `None`; each label is a `PhotoLabel` whose `Label` is `None` or a `LabelInfo` |
| Labelling.Decide | demo/setup.py:185-192 | with `IsDigitString` for `isdigit()` and `DecimalValue` for `int()`: "Even Number" is added only for a non-empty digit string without that label, "Odd Number" likewise; at most one label, never both |
| Labelling.LabelFor | demo/setup.py:186-198 | the label body posted has priority 1, is not a favourite, and is named after the decision |
| Labelling.ParityOfLastDigit | demo/setup.py:185 | `int(name) % 2` equals the parity of the name's last digit |
| Labelling.DecideByLastDigit | demo/setup.py:185-192 | the rule restated by the last digit: even last digit gives "Even Number" unless present, odd gives "Odd Number" unless present, any other name gives nothing |
| Labelling.DecideIsIdempotent | demo/setup.py:185-198 | once the chosen label has been added, applying the rule again adds nothing |
| Labelling.MoreLabelsOnlySuppress | demo/setup.py:185-192 | more existing labels can only suppress the label, never change which one is added |
| Labelling.ActionsFor | demo/setup.py:184-199 | when every request succeeds, one photo gets at most one label request, then exactly one approval; the label request is issued exactly when the rule fires |
| Labelling.Plan | demo/setup.py:184-199 | the requests for a sequence of photos are those of each photo in turn: at least one and at most two per photo |
| Labelling.LabelAndApprove | demo/setup.py:184-199 | the loop over the detailed photos issues exactly the requests of `Plan`, photo after photo |
| Labelling.EveryPhotoApprovedInOrder | demo/setup.py:184-199 | when every request succeeds, the approvals issued are exactly one per photo, in the photos' order |
| Labelling.LabelsFollowTheRule | demo/setup.py:184-199 | every label request issued is the rule's outcome for a photo with that UID |
| Labelling.RuleFiresThenLabelled | demo/setup.py:184-199 | conversely, every photo the rule selects gets its label request |
| HydrationScenarios.ItemsKeepOrderAndDropExtraKeys | demo/setup.py:19-21 | `Outer{items: list[Inner]}` on three items, one with an extra key, gives the three `Inner` instances in order with the extra key dropped |
| HydrationScenarios.InnerHydrates | demo/setup.py:14-23 | `{"id": n, "name": s}` hydrates to `Inner(n, s)` |
| HydrationScenarios.AbsentChildIsNone | demo/setup.py:17-18 | `{}` against `Outer{child: Inner}` gives `Outer(child=None)` |
| HydrationScenarios.EmptyRecordAcceptsAnything | demo/setup.py:12-23 | a dataclass without fields is built from the number 42, and a string `"ab"` for a `list[Empty]` field gives two instances |

## Left out

- HTTP and network I/O are not modelled. This covers connection setup, the
  requests and the responses: `get_http_connection`, `run_index`,
  `get_photos`, `get_photo_details`, `add_label`, `approve_photo`
  (demo/setup.py:93-179). A response is only its status code and decoded
  body, and the loop's requests are only recorded as `Action`s.
- Reading `PHOTOPRISM_SITE_URL` and parsing it with `urlparse`, including the
  default port 2342, are environment access and a library call.
- `default_headers` is a constant dictionary with no behaviour.
- `json.loads`, `json.dumps` and UTF-8 decoding are not modelled. Bodies are
  already-decoded `Json` values, so a body that fails to decode is not
  represented.
- `response.reason` in the error messages is not modelled. Errors carry the
  status code only.
- JSON numbers are integers. Floating-point values are not modelled; the
  hydrator passes them through like any primitive.
- Python's reflection (`is_dataclass`, `fields`, `__origin__`, `__args__`) is
  replaced by the explicit `FieldType`. A field annotated with a bare `list`
  or an unparameterised generic has no `__args__`, so it takes the primitive
  path; in the model it is written as `Prim`.
- Hydrator.HydrateField: a list field holding a non-empty JSON object raises
  `NotIterable`. Python iterates the object's keys in insertion order, which a
  `map` does not record. What Python then does depends on the element type:
  - a record type with fields: `AttributeError` (`NotAMapping`) on the first
    key;
  - a record type without fields: one instance per key;
  - any other type: a list of the keys.
  An empty object is modelled exactly: it iterates to nothing.
  `FieldSucceedsIffConforms` and `HydrateSucceedsIffConforms` inherit the
  gap: their success conditions reject a non-empty object for a list field
  even where Python succeeds. `FromResponse` and `ListFromResponse` do not:
  Photo's list fields (`Files: list[File]`, `Labels: list[PhotoLabel]`) have
  record element types with fields, so Python raises there too. For them only
  the error kind differs: `NotIterable` instead of `NotAMapping`.
- Labelling.Decide: "digit" means the ASCII digits `'0'..'9'`. Python's
  `str.isdigit` also accepts other Unicode digits. For Unicode decimal digits
  such as `'３'` (U+FF13) or `'٣'` (U+0663), `int()` accepts them too, so the
  script labels a photo named "３" "Odd Number" while `Decide` returns
  `NoLabel`. For other digits, such as superscripts, `int()` raises; that
  crash is not modelled either. Neither is the `ValueError` that `int()`
  raises on a digit string longer than CPython's default limit of 4300
  digits (`sys.int_info.default_max_str_digits`); `Decide` labels such a name.
- Labelling.PhotoView: the loop reads `photo.UID`, `photo.Name` and each
  `label.Label.Name` from the hydrated Photo. The model takes them as strings
  already extracted. The `AttributeError`s Python raises on a `None` label or
  a non-string name are not modelled. Neither is the short-circuit of `any`,
  which stops at the first matching label.
- Labelling.LabelAndApprove: `Plan` is the sequence of requests issued when
  every request succeeds. `add_label` and `approve_photo` raise `ValueError`
  on a status other than 200 (demo/setup.py:164-165, 177-178), which ends the
  loop: a photo whose label request fails is not approved, and no later photo
  is processed. A failing request is not modelled, so `ActionsFor`,
  `EveryPhotoApprovedInOrder` and `RuleFiresThenLabelled` describe the run in
  which all requests succeed.
- The top-level sequencing is not modelled: indexing, then fetching the list,
  then fetching each photo's details (demo/setup.py:181-183). That part is
  network calls only.
