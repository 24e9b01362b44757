/** The `/api/upload` route: POST takes a form with the image file, a title
    and a comma-separated tag string, and uploads the image to the gallery
    folder with the tags as a list and the title and tag string in the
    record's context. */
module UploadRoute {
  import opened Common
  import opened JsString
  import opened JsNumber
  import opened UriComponent
  import opened QueryString
  import opened TagList
  import opened Media
  import opened ImagesRoute

  /** A form field: a file, or text. */
  datatype FormValue = FileValue(file: File) | TextValue(text: string)

  /** The fields of the posted form; `None` for a field that is missing. */
  datatype UploadForm = UploadForm(image: Option<FormValue>, title: Option<string>, tags: Option<string>)

  /** The tag list of a tag string: none for the empty string, otherwise
      the trimmed, non-empty comma-separated pieces in order. */
  function ParseTags(tagString: string): (tags: seq<string>)
    ensures WellFormedTags(tags)
    ensures tagString == [] ==> tags == []
  {
    if tagString == [] then [] else SplitTags(tagString)
  }

  /** The context string: the title twice, as alt text and as title, and
      the tag string, each percent-encoded. */
  function ContextString(title: string, tagString: string): (r: string)
    ensures Split(r, '|') == [Entry("alt", Enc(title)), Entry("title", Enc(title)), Entry("tags", Enc(tagString))]
  {
    var t, g := Enc(title), Enc(tagString);
    EncodedHasNoDelimiter(t);
    EncodedHasNoDelimiter(g);
    assert '|' !in Entry("alt", t) && '|' !in Entry("title", t) && '|' !in Entry("tags", g);
    SplitThree(Entry("alt", t), Entry("title", t), Entry("tags", g), '|');
    Entry("alt", Enc(title)) + "|" + Entry("title", Enc(title)) + "|" + Entry("tags", Enc(tagString))
  }

  datatype UploadReply =
    | Uploaded(record: Resource)
    | UploadRejected(error: string)
    | UploadFailed(error: string)

  function UploadStatus(reply: UploadReply): int {
    match reply
    case Uploaded(_) => 200
    case UploadRejected(_) => 400
    case UploadFailed(_) => 500
  }

  /** A form value JavaScript treats as false: a missing field or the empty
      text. */
  predicate Falsy(v: Option<FormValue>) {
    v.None? || v.value == TextValue([])
  }

  /** Two records that agree on every field but the title, the tags and the
      creation time. */
  predicate SameButMetadata(a: Resource, b: Resource) {
    a.(title := None, tags := NoTags, createdAt := 0) == b.(title := None, tags := NoTags, createdAt := 0)
  }

  /** The POST handler. `clock` is `Date.now()` at the upload, `createdAt`
      the time stamped on the answer, and `upload` the media service's
      upload. The first half of the result is what was sent to `upload`, if
      anything was. An image field that is text and not a file fails when
      its bytes are read. */
  function Post(form: UploadForm, clock: nat, createdAt: int, upload: UploadParams -> Result<Resource>)
    : (r: (Option<UploadParams>, UploadReply))
    ensures r.1.UploadRejected? <==> Falsy(form.image)
    ensures r.0.Some? <==> form.image.Some? && form.image.value.FileValue?
    ensures r.0.Some? ==>
      var title, tagString := StringOr(form.title, ""), StringOr(form.tags, "");
      && r.0.value.file == form.image.value.file
      && r.0.value.folder == Folder
      && r.0.value.publicId == NatToString(clock)
      && r.0.value.tags == ParseTags(tagString)
      && r.0.value.context == ContextString(title, tagString)
    ensures r.1.Uploaded? <==> r.0.Some? && upload(r.0.value).Ok?
    ensures r.1.Uploaded? ==>
      && SameButMetadata(r.1.record, upload(r.0.value).value)
      && r.1.record.title == Some(StringOr(form.title, ""))
      && r.1.record.tags == TagArray(r.0.value.tags)
      && r.1.record.createdAt == createdAt
  {
    var title := StringOr(form.title, "");
    var tagString := StringOr(form.tags, "");
    if Falsy(form.image) then (None, UploadRejected("No image provided"))
    else if form.image.value.TextValue? then (None, UploadFailed("Error uploading image"))
    else
      var tags := ParseTags(tagString);
      var params := UploadParams(form.image.value.file, Folder, NatToString(clock), tags, ContextString(title, tagString));
      match upload(params)
      case Err(_) => (Some(params), UploadFailed("Error uploading image"))
      case Ok(result) => (Some(params), Uploaded(result.(title := Some(title), tags := TagArray(tags), createdAt := createdAt)))
  }

  /** The whole handler, from the request body: `None` is a body that is
      not form data, on which reading the form throws and the handler
      answers 500 without uploading anything. */
  function PostRequest(body: Option<UploadForm>, clock: nat, createdAt: int,
                       upload: UploadParams -> Result<Resource>)
    : (r: (Option<UploadParams>, UploadReply))
    ensures body.None? ==> r.0.None? && r.1 == UploadFailed("Error uploading image") && UploadStatus(r.1) == 500
    ensures body.Some? ==> r == Post(body.value, clock, createdAt, upload)
    ensures r.0.Some? ==> body.Some? && r.0.value.folder == Folder
  {
    match body
    case None => (None, UploadFailed("Error uploading image"))
    case Some(form) => Post(form, clock, createdAt, upload)
  }

  /** The guard on the empty string changes nothing: the empty string has no
      tags anyway. */
  lemma ParseTagsIsSplitTags(tagString: string)
    ensures ParseTags(tagString) == SplitTags(tagString)
  {
    if tagString == [] {
      SplitTagsOne([]);
    }
  }

  /** The tag string stored in the context, decoded and split the way the
      listing does it, gives the tags the upload was given. */
  lemma ContextTagsRoundTrip(tagString: string)
    ensures Dec(Enc(tagString)) == Some(tagString)
    ensures SplitTags(Dec(Enc(tagString)).value) == ParseTags(tagString)
  {
    DecEnc(tagString);
    ParseTagsIsSplitTags(tagString);
  }

  /** How the service stores the context string. */
  lemma StoredContextOf(title: string, tagString: string)
    ensures StoredContext(ContextString(title, tagString))
            == map["alt" := Enc(title)]["title" := Enc(title)]["tags" := Enc(tagString)]
  {
    var t, g := Enc(title), Enc(tagString);
    EncodedHasNoDelimiter(t);
    EncodedHasNoDelimiter(g);
    assert '|' !in Entry("alt", t) && '|' !in Entry("title", t) && '|' !in Entry("tags", g);
    StoredThree("alt", t, "title", t, "tags", g);
  }

  /** The title the listing shows for an uploaded image is the title it was
      uploaded with. */
  lemma ListedTitle(title: string, tagString: string)
    ensures ExtractTitle(StoredContext(ContextString(title, tagString))) == Some(title)
  {
    StoredContextOf(title, tagString);
    EncInjective(title, []);
    DecEnc(title);
  }

  /** The tags the listing shows for an uploaded image are the tags the
      upload route parsed, whether the service kept the tag list or not. */
  lemma ListedTags(record: Resource, title: string, tagString: string)
    requires record.context == StoredContext(ContextString(title, tagString))
    requires record.tags == TagArray(ParseTags(tagString)) || !HasNativeTags(record)
    ensures ExtractTags(record) == Some(ParseTags(tagString))
  {
    StoredContextOf(title, tagString);
    EncInjective(tagString, []);
    ContextTagsRoundTrip(tagString);
  }

  /** An uploaded image, as the service keeps it, comes back from the
      listing with its title and its tags. */
  lemma ListedUpload(record: Resource, title: string, tagString: string)
    requires record.context == StoredContext(ContextString(title, tagString))
    requires record.tags == TagArray(ParseTags(tagString)) || !HasNativeTags(record)
    ensures Normalise(record) == Some(record.(title := Some(title), tags := TagArray(ParseTags(tagString))))
  {
    ListedTitle(title, tagString);
    ListedTags(record, title, tagString);
  }

  /** Whatever the search term, the leading clause of the listing's search
      expression names the folder uploads go to. */
  lemma UploadsAreListed(form: UploadForm, clock: nat, createdAt: int,
                         upload: UploadParams -> Result<Resource>, search: string)
    requires Post(form, clock, createdAt, upload).0.Some?
    ensures LeadingFolder(SearchExpression(search)) == Some(Post(form, clock, createdAt, upload).0.value.folder)
  {
    ExpressionLeadingFolder(search);
  }
}
