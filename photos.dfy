/** The record types the script declares for the photo API and the two
    response readers `Photo.list_from_response` and `Photo.from_response`.
    The HTTP exchange itself is outside the model: a response is its status
    code and its already-decoded JSON body. */
module Photos {
  import opened JsonValue
  import opened Results
  import opened Hydrator

  /** `@dataclass class Details`. */
  const DetailsType: FieldType :=
    Rec("Details", [Field("PhotoID", Prim), Field("Keywords", Prim), Field("KeywordsSrc", Prim),
                    Field("Notes", Prim), Field("NotesSrc", Prim)])

  /** `@dataclass class File`. */
  const FileType: FieldType :=
    Rec("File", [Field("UID", Prim), Field("PhotoUID", Prim), Field("Name", Prim)])

  /** `@dataclass class LabelInfo`. */
  const LabelInfoType: FieldType :=
    Rec("LabelInfo", [Field("ID", Prim), Field("UID", Prim), Field("Slug", Prim),
                      Field("CustomSlug", Prim), Field("Name", Prim), Field("Priority", Prim),
                      Field("Favorite", Prim), Field("Description", Prim), Field("Notes", Prim)])

  /** `@dataclass class PhotoLabel`: a label attached to a photo. */
  const PhotoLabelType: FieldType :=
    Rec("PhotoLabel", [Field("PhotoID", Prim), Field("LabelID", Prim), Field("LabelSrc", Prim),
                       Field("Uncertainty", Prim), Field("Label", LabelInfoType)])

  /** `@dataclass class Photo`. */
  const PhotoType: FieldType :=
    Rec("Photo", [Field("ID", Prim), Field("UID", Prim), Field("Type", Prim), Field("Name", Prim),
                  Field("OriginalName", Prim), Field("Favorite", Prim),
                  Field("Details", DetailsType),
                  Field("Files", ListOf(FileType)),
                  Field("Labels", ListOf(PhotoLabelType)),
                  Field("DeletedAt", Prim)])

  /** An HTTP response: its status code and its body after `json.loads`. */
  datatype Response = Response(status: int, body: Json)

  /** The `ValueError`s the readers raise, and the hydrator's own exceptions
      escaping through them. */
  datatype ResponseError =
    | HttpError(status: int)
    | ExpectedList
    | Malformed(cause: HydrateError)

  const HttpOk := 200

  /** `Photo.list_from_response`: a non-200 status and a body that is not a
      JSON array are errors; otherwise every element is hydrated as a Photo,
      in order. */
  function ListFromResponse(resp: Response): (r: Result<seq<Value>, ResponseError>)
    ensures resp.status != HttpOk ==> r == Err(HttpError(resp.status))
    ensures resp.status == HttpOk && !resp.body.JArr? ==> r == Err(ExpectedList)
    ensures r.Ok? <==> && resp.status == HttpOk && resp.body.JArr?
                       && forall i | 0 <= i < |resp.body.arr| :: Conforms(PhotoType, resp.body.arr[i])
    ensures r.Ok? ==> && |r.value| == |resp.body.arr|
                      && forall i | 0 <= i < |resp.body.arr| ::
                           Hydrate(PhotoType, resp.body.arr[i]) == Ok(r.value[i])
  {
    if resp.status != HttpOk then Err(HttpError(resp.status))
    else if !resp.body.JArr? then Err(ExpectedList)
    else
      HydrateAllSucceedsIffConforms(PhotoType, resp.body.arr);
      match HydrateAll(PhotoType, resp.body.arr)
      case Ok(photos) => Ok(photos)
      case Err(e) => Err(Malformed(e))
  }

  /** `Photo.from_response`: a non-200 status is an error; otherwise the body
      is hydrated as one Photo. */
  function FromResponse(resp: Response): (r: Result<Value, ResponseError>)
    ensures resp.status != HttpOk ==> r == Err(HttpError(resp.status))
    ensures r.Ok? <==> resp.status == HttpOk && Conforms(PhotoType, resp.body)
    ensures r.Ok? ==> Hydrate(PhotoType, resp.body) == Ok(r.value)
  {
    if resp.status != HttpOk then Err(HttpError(resp.status))
    else
      HydrateSucceedsIffConforms(PhotoType, resp.body);
      match Hydrate(PhotoType, resp.body)
      case Ok(photo) => Ok(photo)
      case Err(e) => Err(Malformed(e))
  }

  /** Every Photo the readers return has all ten declared attributes, and its
      `Files` and `Labels` are lists (possibly empty), never `None`, so the
      labelling loop can iterate `photo.Labels` without checking for `None`;
      each of its labels is a PhotoLabel instance whose `Label` is `None` or a
      LabelInfo instance. */
  lemma HydratedPhotoShape(data: Json, photo: Value)
    requires Hydrate(PhotoType, data) == Ok(photo)
    ensures HasDeclaredFields(PhotoType, photo)
    ensures photo.entries[7].name == "Files" && photo.entries[7].value.List?
    ensures photo.entries[8].name == "Labels" && photo.entries[8].value.List?
    ensures forall j | 0 <= j < |photo.entries[8].value.items| ::
              var pl := photo.entries[8].value.items[j];
              && HasDeclaredFields(PhotoLabelType, pl)
              && pl.entries[4].name == "Label"
              && (pl.entries[4].value == Raw(JNull) ||
                  HasDeclaredFields(LabelInfoType, pl.entries[4].value))
  {
    var m := data.obj;
    ListField(PhotoType, m, 7);
    ListField(PhotoType, m, 8);
    var labels := photo.entries[8].value.items;
    var v := Lookup(m, "Labels");
    forall j | 0 <= j < |labels|
      ensures HasDeclaredFields(PhotoLabelType, labels[j])
      ensures labels[j].entries[4].value == Raw(JNull) ||
              HasDeclaredFields(LabelInfoType, labels[j].entries[4].value)
    {
      assert v.JArr?;
      var x := v.arr[j];
      assert Hydrate(PhotoLabelType, x) == Ok(labels[j]);
      assert x.JObj?;
      NestedRecordField(PhotoLabelType, x.obj, 4);
    }
  }
}
