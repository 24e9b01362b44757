/** The records the gallery exchanges with the hosted media service, and the
    part of the service's behaviour the gallery depends on: the folder it
    keeps the images in, the search request, and how a `key=value|...`
    context string is stored. The service itself is not modelled; its
    answers are parameters of the operations that call it. */
module Media {
  import opened Common
  import opened JsString

  /** The one folder the gallery uploads to and lists. */
  const Folder: string := "image_gallery"

  /** The `tags` field of a record: absent, a list, or (in records that did
      not come from the listing) a single comma-separated string. */
  datatype Tags = NoTags | TagArray(items: seq<string>) | TagString(text: string)

  /** An image record. `context` is the record's context metadata, the empty
      map when it has none; `title` is absent in records straight from the
      service and set by the listing and the upload route. */
  datatype Resource = Resource(
    publicId: string,
    secureUrl: string,
    createdAt: int,
    width: nat,
    height: nat,
    format: string,
    title: Option<string>,
    tags: Tags,
    context: map<string, string>)

  /** A search request: expression, page size, sort order, the extra fields
      asked for, and the cursor of the page to continue from. */
  datatype SearchQuery = SearchQuery(
    expression: string,
    maxResults: int,
    sortField: string,
    descending: bool,
    fields: seq<string>,
    cursor: Option<string>)

  /** What a search returns. */
  datatype SearchResult = SearchResult(
    resources: seq<Resource>,
    nextCursor: Option<string>,
    totalCount: Option<int>)

  /** A file picked or dropped in the browser. */
  datatype File = File(name: string, mimeType: string, size: nat)

  /** An upload: the file, and the options it is uploaded with. */
  datatype UploadParams = UploadParams(
    file: File,
    folder: string,
    publicId: string,
    tags: seq<string>,
    context: string)

  /** One `key=value` entry of a context string. */
  function Entry(key: string, value: string): string {
    key + "=" + value
  }

  /** The `key=value` entries of a context string, later keys overriding
      earlier ones; an entry without `=` is a key with the empty value. */
  function Entries(pieces: seq<string>): (r: map<string, string>)
    ensures forall k :: k in r ==> '=' !in k
    ensures (forall i :: 0 <= i < |pieces| ==> '|' !in pieces[i]) ==> forall k :: k in r ==> '|' !in k && '|' !in r[k]
    decreases |pieces|
  {
    if pieces == [] then map[]
    else
      var (k, v) := SplitOnce(pieces[|pieces| - 1], '=');
      Entries(pieces[..|pieces| - 1])[k := v]
  }

  /** How the service stores a context string `k1=v1|k2=v2|...`. */
  function StoredContext(s: string): (r: map<string, string>)
    ensures forall k :: k in r ==> '=' !in k && '|' !in k && '|' !in r[k]
  {
    Entries(Split(s, '|'))
  }

  /** Three pieces without the separator, joined by it, split back. */
  lemma SplitThree(e1: string, e2: string, e3: string, sep: char)
    requires sep !in e1 && sep !in e2 && sep !in e3
    ensures Split(e1 + [sep] + e2 + [sep] + e3, sep) == [e1, e2, e3]
  {
    SplitWithoutSeparator(e1, sep);
    SplitWithoutSeparator(e2, sep);
    SplitWithoutSeparator(e3, sep);
    SplitConcat(e2, e3, sep);
    SplitConcat(e1, e2 + [sep] + e3, sep);
    assert e1 + [sep] + e2 + [sep] + e3 == e1 + [sep] + (e2 + [sep] + e3);
  }

  lemma EntriesThree(k1: string, v1: string, k2: string, v2: string, k3: string, v3: string)
    requires '=' !in k1 && '=' !in k2 && '=' !in k3
    ensures Entries([Entry(k1, v1), Entry(k2, v2), Entry(k3, v3)]) == map[k1 := v1][k2 := v2][k3 := v3]
  {
    var pieces := [Entry(k1, v1), Entry(k2, v2), Entry(k3, v3)];
    SplitOnceAt(k1, '=', v1);
    SplitOnceAt(k2, '=', v2);
    SplitOnceAt(k3, '=', v3);
    var two, one := pieces[..2], pieces[..1];
    assert two[..1] == one && one[..0] == [];
    assert Entries(one) == map[k1 := v1];
    assert Entries(two) == Entries(one)[k2 := v2];
    assert Entries(pieces) == Entries(two)[k3 := v3];
  }

  /** The context stored from three entries with keys free of `=` and
      entries free of `|`: a later key overrides an earlier one. */
  lemma StoredThree(k1: string, v1: string, k2: string, v2: string, k3: string, v3: string)
    requires '=' !in k1 && '=' !in k2 && '=' !in k3
    requires '|' !in Entry(k1, v1) && '|' !in Entry(k2, v2) && '|' !in Entry(k3, v3)
    ensures StoredContext(Entry(k1, v1) + "|" + Entry(k2, v2) + "|" + Entry(k3, v3))
            == map[k1 := v1][k2 := v2][k3 := v3]
  {
    SplitThree(Entry(k1, v1), Entry(k2, v2), Entry(k3, v3), '|');
    EntriesThree(k1, v1, k2, v2, k3, v3);
  }
}
