/** The `/api/images` route: GET lists one page of the gallery folder,
    optionally filtered by a search term, and normalises every record's
    title and tags; DELETE removes one image by its public id. */
module ImagesRoute {
  import opened Common
  import opened JsString
  import opened JsNumber
  import opened UriComponent
  import opened QueryString
  import opened TagList
  import opened Media

  /** `parseInt(raw) || fallback`: a missing, unparseable or zero parameter
      falls back; any other integer is taken as it is, negative ones too. */
  function IntParam(raw: Option<string>, fallback: int): (n: int)
    ensures raw.Some? && ParseInt(raw.value).Some? && ParseInt(raw.value).value != 0
            ==> n == ParseInt(raw.value).value
    ensures raw.None? || ParseInt(raw.value).None? || ParseInt(raw.value).value == 0
            ==> n == fallback
  {
    if raw.None? then fallback
    else match ParseInt(raw.value)
      case None => fallback
      case Some(v) => if v == 0 then fallback else v
  }

  /** A positive number written in decimal is read back as itself. */
  lemma IntParamOfRendered(k: nat, fallback: int)
    requires k > 0
    ensures IntParam(Some(NatToString(k)), fallback) == k
  {
    ParseIntOfRendered(k, false, []);
    assert "" + (NatToString(k) + []) == NatToString(k);
  }

  /** The clause that scopes a search to the gallery folder. */
  const FolderClause: string := "folder:" + Folder

  /** The folder named by the leading clause of a search expression: the
      word after its leading `folder:`. The term inserted after it may
      add further clauses, so this is not the set of folders the expression
      can match. */
  function LeadingFolder(e: string): Option<string> {
    if StartsWith(e, "folder:") then Some(SplitOnce(e[|"folder:"|..], ' ').0) else None
  }

  /** The search expression for a search term: the folder alone, or the
      folder and a match on the title or the tags, the term inserted as it
      is, with no escaping. */
  function SearchExpression(search: string): (e: string)
    ensures StartsWith(e, FolderClause)
    ensures e == FolderClause <==> search == []
  {
    if search == [] then FolderClause
    else FolderClause + (" AND (context.title:" + search + " OR tags:" + search + ")")
  }

  /** The folder clause followed by nothing or by a space-led remainder
      leads with the gallery folder. */
  lemma LeadingClause(rest: string)
    requires rest == [] || rest[0] == ' '
    ensures LeadingFolder(FolderClause + rest) == Some(Folder)
  {
    var e := FolderClause + rest;
    assert e[..7] == "folder:";
    assert e[7..] == Folder + rest;
    assert ' ' !in Folder;
    assert |"folder:"| == 7 && StartsWith(e, "folder:");
    if rest == [] {
      assert e[7..] == Folder;
      assert SplitOnce(Folder, ' ').0 == Folder;
    } else {
      assert Folder + rest == Folder + [' '] + rest[1..];
      SplitOnceAt(Folder, ' ', rest[1..]);
    }
  }

  /** Whatever the search term, the expression's leading clause names the
      gallery folder. */
  lemma ExpressionLeadingFolder(search: string)
    ensures LeadingFolder(SearchExpression(search)) == Some(Folder)
  {
    if search == [] {
      LeadingClause([]);
      assert FolderClause + [] == FolderClause;
    } else {
      var rest := " AND (context.title:" + search + " OR tags:" + search + ")";
      LeadingClause(rest);
    }
  }

  /** The term is not escaped: a term that closes the parenthesis opened
      for it adds a clause of its own, for instance one naming another
      folder, while the leading clause still names the gallery folder. */
  lemma TermAddsClause(x: string, clause: string)
    ensures SearchExpression(x + ") OR (" + clause)
            == FolderClause + (" AND (context.title:" + x + ") OR (" + clause + " OR tags:" + x + ") OR (" + clause + ")")
    ensures LeadingFolder(SearchExpression(x + ") OR (" + clause)) == Some(Folder)
  {
    var a, b, c, k := " AND (context.title:", ") OR (", " OR tags:", clause;
    var t := x + b + k;
    assert t != [];
    ConcatAssoc(a, x + b, k);
    ConcatAssoc(a, x, b);
    var p1 := a + x + b + k;
    assert a + t == p1;
    ConcatAssoc(p1 + c, x + b, k);
    ConcatAssoc(p1 + c, x, b);
    assert p1 + c + t == p1 + c + x + b + k;
    ExpressionLeadingFolder(t);
  }

  /** A context value that is present and not empty. */
  predicate Truthy(ctx: map<string, string>, key: string) {
    key in ctx && ctx[key] != []
  }

  /** The title of a record: the decoded `title`, else the decoded `alt`,
      else the `caption` as it is, else empty; `None` where decoding throws. */
  function ExtractTitle(ctx: map<string, string>): (r: Option<string>)
    ensures Truthy(ctx, "title") ==> r == Dec(ctx["title"])
    ensures !Truthy(ctx, "title") && Truthy(ctx, "alt") ==> r == Dec(ctx["alt"])
    ensures r.None? <==>
      if Truthy(ctx, "title") then Dec(ctx["title"]).None?
      else Truthy(ctx, "alt") && Dec(ctx["alt"]).None?
    ensures r == Some([]) <==> !Truthy(ctx, "title") && !Truthy(ctx, "alt") && !Truthy(ctx, "caption")
    ensures !Truthy(ctx, "title") && !Truthy(ctx, "alt") && Truthy(ctx, "caption")
            ==> r == Some(ctx["caption"])
  {
    if Truthy(ctx, "title") then Dec(ctx["title"])
    else if Truthy(ctx, "alt") then Dec(ctx["alt"])
    else if Truthy(ctx, "caption") then Some(ctx["caption"])
    else Some([])
  }

  /** The record's own tag list, when it is a non-empty list. */
  predicate HasNativeTags(res: Resource) {
    res.tags.TagArray? && |res.tags.items| > 0
  }

  /** The tags of a record: its own non-empty tag list unchanged, else the
      tags of the decoded `tags` context value, else none; `None` where
      decoding throws. */
  function ExtractTags(res: Resource): (r: Option<seq<string>>)
    ensures HasNativeTags(res) ==> r == Some(res.tags.items)
    ensures !HasNativeTags(res) && r.Some? ==> WellFormedTags(r.value)
    ensures !HasNativeTags(res) && Truthy(res.context, "tags") && Dec(res.context["tags"]).Some?
            ==> r == Some(SplitTags(Dec(res.context["tags"]).value))
    ensures r.None? <==> !HasNativeTags(res) && Truthy(res.context, "tags") && Dec(res.context["tags"]).None?
    ensures !HasNativeTags(res) && !Truthy(res.context, "tags") ==> r == Some([])
  {
    if HasNativeTags(res) then Some(res.tags.items)
    else if Truthy(res.context, "tags") then
      var decoded :- Dec(res.context["tags"]);
      Some(SplitTags(decoded))
    else Some([])
  }

  /** Two records that agree on every field but the title and the tags. */
  predicate SameButTitleAndTags(a: Resource, b: Resource) {
    a.(title := None, tags := NoTags) == b.(title := None, tags := NoTags)
  }

  /** One record of the listing: the record with its title and tags
      replaced, or `None` where decoding throws. */
  function Normalise(res: Resource): (r: Option<Resource>)
    ensures r.Some? <==> ExtractTitle(res.context).Some? && ExtractTags(res).Some?
    ensures r.Some? ==> SameButTitleAndTags(r.value, res)
    ensures r.Some? ==> r.value.title == ExtractTitle(res.context)
    ensures r.Some? ==> r.value.tags == TagArray(ExtractTags(res).value)
  {
    var title :- ExtractTitle(res.context);
    var tags :- ExtractTags(res);
    Some(res.(title := Some(title), tags := TagArray(tags)))
  }

  /** `resources.map(normalise)`, which throws if one record does. */
  function NormaliseAll(rs: seq<Resource>): (r: Option<seq<Resource>>)
    ensures r.Some? <==> forall i :: 0 <= i < |rs| ==> Normalise(rs[i]).Some?
    ensures r.Some? ==> |r.value| == |rs|
    ensures r.Some? ==> forall i :: 0 <= i < |rs| ==> Some(r.value[i]) == Normalise(rs[i])
    decreases |rs|
  {
    if rs == [] then Some([])
    else
      var first :- Normalise(rs[0]);
      var rest :- NormaliseAll(rs[1..]);
      Some([first] + rest)
  }

  /** The listing's answer. */
  datatype ListReply =
    | Listed(images: seq<Resource>, nextCursor: Option<string>, totalCount: Option<int>)
    | ListFailed(error: string, details: string)

  function ListStatus(reply: ListReply): int {
    if reply.Listed? then 200 else 500
  }

  /** The message of the error a malformed escape throws. */
  const UriMalformed: string := "URI malformed"

  const FetchError: string := "Error fetching images"

  /** The first half of the GET handler: the parameters of the request and
      the search they ask for. */
  method BuildQuery(url: string) returns (query: SearchQuery)
    ensures var q := QueryOf(url);
      && query.expression == SearchExpression(StringOr(QueryGet(q, "search"), ""))
      && query.maxResults == IntParam(QueryGet(q, "limit"), 12)
      && query.sortField == "created_at" && query.descending
      && query.fields == ["context", "tags"]
    ensures var q := QueryOf(url);
      var cursor := StringOr(QueryGet(q, "next_cursor"), "");
      query.cursor == if IntParam(QueryGet(q, "page"), 1) > 1 && cursor != [] then Some(cursor) else None
  {
    var params := QueryOf(url);
    var page := IntParam(QueryGet(params, "page"), 1);
    var limit := IntParam(QueryGet(params, "limit"), 12);
    var search := StringOr(QueryGet(params, "search"), "");
    var nextCursor := StringOr(QueryGet(params, "next_cursor"), "");

    var searchExpression := FolderClause;
    if search != [] {
      searchExpression := FolderClause + (" AND (context.title:" + search + " OR tags:" + search + ")");
    }

    query := SearchQuery(searchExpression, limit, "created_at", true, ["context", "tags"], None);
    if page > 1 && nextCursor != [] {
      query := query.(cursor := Some(nextCursor));
    }
  }

  /** The GET handler. `execute` is the media service's search. */
  method Get(url: string, execute: SearchQuery -> Result<SearchResult>)
    returns (query: SearchQuery, reply: ListReply)
    ensures var q := QueryOf(url);
      && query.expression == SearchExpression(StringOr(QueryGet(q, "search"), ""))
      && query.maxResults == IntParam(QueryGet(q, "limit"), 12)
    ensures var q := QueryOf(url);
      var cursor := StringOr(QueryGet(q, "next_cursor"), "");
      query.cursor == if IntParam(QueryGet(q, "page"), 1) > 1 && cursor != [] then Some(cursor) else None
    ensures execute(query).Err? ==> reply == ListFailed(FetchError, execute(query).message)
    ensures execute(query).Ok? ==>
      var found := execute(query).value;
      match NormaliseAll(found.resources)
      case Some(images) => reply == Listed(images, found.nextCursor, found.totalCount)
      case None => reply == ListFailed(FetchError, UriMalformed)
  {
    query := BuildQuery(url);
    var result := execute(query);
    if result.Err? {
      reply := ListFailed(FetchError, result.message);
    } else {
      var images := NormaliseAll(result.value.resources);
      if images.None? {
        reply := ListFailed(FetchError, UriMalformed);
      } else {
        reply := Listed(images.value, result.value.nextCursor, result.value.totalCount);
      }
    }
  }

  /** The body of a DELETE request: not JSON at all, or an object whose
      `public_id` may be missing. */
  datatype DeleteRequest = Malformed | DeleteBody(publicId: Option<string>)

  datatype DeleteReply =
    | Deleted
    | DeleteRejected(error: string)
    | DeleteFailed(error: string)

  function DeleteStatus(reply: DeleteReply): int {
    match reply
    case Deleted => 200
    case DeleteRejected(_) => 400
    case DeleteFailed(_) => 500
  }

  /** The DELETE handler. `destroy` is the media service's removal, whose
      result carries the discriminator `result`; `destroyed` is the public id
      it was asked to remove, if it was asked at all. */
  method Delete(request: DeleteRequest, destroy: string -> Result<string>)
    returns (destroyed: Option<string>, reply: DeleteReply)
    ensures destroyed.Some? <==> request.DeleteBody? && StringOr(request.publicId, "") != []
    ensures destroyed.Some? ==> destroyed == request.publicId
    ensures reply.DeleteRejected? <==> request.DeleteBody? && destroyed.None?
    ensures reply.Deleted? <==> destroyed.Some? && destroy(destroyed.value) == Ok("ok")
    ensures DeleteStatus(reply) == 500 <==>
      request.Malformed? || (destroyed.Some? && destroy(destroyed.value) != Ok("ok"))
  {
    destroyed := None;
    if request.Malformed? {
      reply := DeleteFailed("Error deleting image");
      return;
    }
    var publicId := request.publicId;
    if publicId.None? || publicId.value == [] {
      reply := DeleteRejected("Public ID is required");
      return;
    }
    destroyed := publicId;
    var result := destroy(publicId.value);
    if result.Err? {
      reply := DeleteFailed("Error deleting image");
    } else if result.value == "ok" {
      reply := Deleted;
    } else {
      reply := DeleteFailed("Failed to delete image");
    }
  }

  /** A title field with no escapes in it is shown exactly as stored. */
  lemma TitleWithoutEscapes(ctx: map<string, string>)
    requires Truthy(ctx, "title") && '%' !in ctx["title"]
    ensures ExtractTitle(ctx) == Some(ctx["title"])
  {
    DecWithoutPercent(ctx["title"]);
  }

  /** The title field wins over the alt text and the caption, and the alt
      text over the caption, whenever it decodes. */
  lemma TitlePrecedence(ctx: map<string, string>, title: string, alt: string, caption: string)
    requires title != [] && Dec(title).Some?
    ensures ExtractTitle(ctx["title" := title]["alt" := alt]["caption" := caption]) == Dec(title)
    ensures ExtractTitle(ctx - {"title"} + map["alt" := title, "caption" := caption]) == Dec(title)
  {
    var m := ctx - {"title"} + map["alt" := title, "caption" := caption];
    assert "title" !in m;
  }

  /** An empty title or alt text counts as no title or alt text at all: the
      next field in line decides. */
  lemma EmptyFieldsFallThrough(ctx: map<string, string>)
    ensures ExtractTitle(ctx["title" := []]) == ExtractTitle(ctx - {"title"})
    ensures ExtractTitle(ctx["title" := []]["alt" := []]) == ExtractTitle(ctx - {"title", "alt"})
  {
    var a, b := ctx["title" := []], ctx - {"title"};
    assert !Truthy(a, "title") && !Truthy(b, "title");
    assert a - {"title"} == b;
    var c, d := ctx["title" := []]["alt" := []], ctx - {"title", "alt"};
    assert !Truthy(c, "title") && !Truthy(d, "title") && !Truthy(c, "alt") && !Truthy(d, "alt");
    assert "caption" in c <==> "caption" in d;
    assert "caption" in c ==> c["caption"] == d["caption"];
  }
}
