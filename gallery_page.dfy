/** The gallery page: the list of images it shows and the handlers that
    change it, the request it sends for a page of the listing, and the view
    of the list sorted by creation time. */
module GalleryPage {
  import opened Common
  import opened JsString
  import opened JsNumber
  import opened UriComponent
  import opened QueryString
  import opened Media
  import opened ImagesRoute

  const ApiPath: string := "/api/images"

  /** The parameters of the request for page `pageNum`: the page and the page
      size always, the search term when there is one, and the cursor only
      past the first page and when there is one. */
  function ApiParams(pageNum: nat, search: string, cursor: string): (ps: seq<Param>)
    ensures PlainNames(ps)
  {
    [Param("page", NatToString(pageNum)), Param("limit", "12")]
    + (if search != [] then [Param("search", search)] else [])
    + (if pageNum > 1 && cursor != [] then [Param("next_cursor", cursor)] else [])
  }

  /** The page and the page size lead; the search term is sent exactly when
      there is one, and the cursor exactly past the first page when there is
      one. */
  lemma ApiParamsContents(pageNum: nat, search: string, cursor: string)
    ensures var ps := ApiParams(pageNum, search, cursor);
      && |ps| >= 2 && ps[0] == Param("page", NatToString(pageNum)) && ps[1] == Param("limit", "12")
      && (Param("search", search) in ps <==> search != [])
      && (Param("next_cursor", cursor) in ps <==> pageNum > 1 && cursor != [])
  {
  }

  /** The request URL: the listing route's path, then the query. */
  function ApiUrl(pageNum: nat, search: string, cursor: string): (url: string)
    ensures StartsWith(url, ApiPath + "?")
  {
    ApiPath + "?" + RenderQuery(ApiParams(pageNum, search, cursor))
  }

  /** Appending a pair to a non-empty list of pairs appends `&name=value`. */
  lemma {:induction false} RenderQueryAppend(ps: seq<Param>, p: Param)
    requires ps != []
    ensures RenderQuery(ps + [p]) == RenderQuery(ps) + "&" + RenderParam(p)
    decreases |ps|
  {
    var qs := ps + [p];
    var head, last := RenderParam(ps[0]), RenderParam(p);
    assert qs[0] == ps[0];
    if |ps| == 1 {
      assert qs[1..] == [p];
      assert RenderQuery(qs) == head + "&" + last;
    } else {
      assert qs[1..] == ps[1..] + [p];
      RenderQueryAppend(ps[1..], p);
      var mid := RenderQuery(ps[1..]);
      calc {
        RenderQuery(qs);
        head + "&" + RenderQuery(ps[1..] + [p]);
        head + "&" + (mid + "&" + last);
        (head + "&" + mid) + "&" + last;
      }
    }
  }

  /** A value of unreserved characters is written without escapes. */
  lemma RenderPlainValue(name: string, value: string)
    requires forall i :: 0 <= i < |value| ==> Unreserved(value[i])
    ensures RenderParam(Param(name, value)) == name + "=" + value
  {
    EncUnreserved(value);
  }

  /** The first two pairs, the page and the page size, as written. */
  lemma BaseQuery(pageNum: nat)
    ensures RenderQuery([Param("page", NatToString(pageNum)), Param("limit", "12")])
            == "page=" + NatToString(pageNum) + "&limit=12"
  {
    var n := NatToString(pageNum);
    var ps := [Param("page", n), Param("limit", "12")];
    RenderPlainValue("page", n);
    RenderPlainValue("limit", "12");
    var a, b := RenderParam(ps[0]), RenderParam(ps[1]);
    assert ps[1..] == [Param("limit", "12")];
    assert RenderQuery(ps) == a + "&" + b;
    assert a == "page=" + n;
    assert b == "limit=12";
    ConcatAssoc("page=" + n, "&", "limit=12");
  }

  /** Adding `&name=value` to the URL of some pairs gives the URL of one
      more pair. */
  lemma AppendParam(url: string, ps: seq<Param>, name: string, value: string)
    requires ps != [] && url == ApiPath + "?" + RenderQuery(ps)
    ensures url + (("&" + name + "=") + Enc(value)) == ApiPath + "?" + RenderQuery(ps + [Param(name, value)])
  {
    var base, r, tail := ApiPath + "?", RenderQuery(ps), RenderParam(Param(name, value));
    RenderQueryAppend(ps, Param(name, value));
    ConcatAssoc("&", name + "=", Enc(value));
    ConcatAssoc("&", name, "=");
    assert "&" + tail == ("&" + name + "=") + Enc(value);
    ConcatAssoc(base, r, "&" + tail);
    ConcatAssoc(r, "&", tail);
  }

  /** The request URL, built up piece by piece. */
  method BuildApiUrl(pageNum: nat, searchQuery: string, nextCursor: string) returns (url: string)
    ensures url == ApiUrl(pageNum, searchQuery, nextCursor)
  {
    ghost var ps := [Param("page", NatToString(pageNum)), Param("limit", "12")];
    BaseQuery(pageNum);
    url := ApiPath + "?" + "page=" + NatToString(pageNum) + "&limit=12";
    assert url == ApiPath + "?" + RenderQuery(ps);

    if searchQuery != [] {
      AppendParam(url, ps, "search", searchQuery);
      ps := ps + [Param("search", searchQuery)];
      url := url + ("&" + "search" + "=" + Enc(searchQuery));
    }

    if pageNum > 1 && nextCursor != [] {
      AppendParam(url, ps, "next_cursor", nextCursor);
      ps := ps + [Param("next_cursor", nextCursor)];
      url := url + ("&" + "next_cursor" + "=" + Enc(nextCursor));
    }
    assert ps == ApiParams(pageNum, searchQuery, nextCursor);
  }

  /** What the listing reads back from the request for page `pageNum`, sent
      from any origin: the page (when positive), the page size 12, the
      search term, and the cursor exactly when it is past the first page
      and there is one. */
  lemma ListingReadsRequest(origin: string, pageNum: nat, search: string, cursor: string)
    requires '?' !in origin && '#' !in origin
    ensures var q := QueryOf(origin + ApiUrl(pageNum, search, cursor));
      && QueryGet(q, "page") == Some(NatToString(pageNum))
      && QueryGet(q, "limit") == Some("12")
      && StringOr(QueryGet(q, "search"), "") == search
      && StringOr(QueryGet(q, "next_cursor"), "") == if pageNum > 1 then cursor else ""
  {
    var ps := ApiParams(pageNum, search, cursor);
    QueryOfApiUrl(origin, ps);
    QueryGetRender(ps, "page");
    QueryGetRender(ps, "limit");
    QueryGetRender(ps, "search");
    QueryGetRender(ps, "next_cursor");
    FirstValueApiParams(pageNum, search, cursor);
  }

  /** The query the listing reads from the request URL sent from `origin`
      is the query the page wrote. */
  lemma QueryOfApiUrl(origin: string, ps: seq<Param>)
    requires '?' !in origin && '#' !in origin && PlainNames(ps)
    ensures QueryOf(origin + (ApiPath + "?" + RenderQuery(ps))) == RenderQuery(ps)
  {
    RenderQueryNoHash(ps);
    assert '?' !in ApiPath && '#' !in ApiPath;
    QueryOfAfterOrigin(origin, ApiPath, RenderQuery(ps));
  }


  /** Looking a name up in two lists of pairs: the first list, then the
      second. */
  lemma {:induction false} FirstValueConcat(a: seq<Param>, b: seq<Param>, name: string)
    ensures FirstValue(a + b, name) == if FirstValue(a, name).Some? then FirstValue(a, name) else FirstValue(b, name)
    decreases |a|
  {
    if a == [] {
      assert a + b == b;
    } else {
      assert (a + b)[0] == a[0];
      assert (a + b)[1..] == a[1..] + b;
      FirstValueConcat(a[1..], b, name);
    }
  }

  lemma FirstValueApiParams(pageNum: nat, search: string, cursor: string)
    ensures var ps := ApiParams(pageNum, search, cursor);
      && FirstValue(ps, "page") == Some(NatToString(pageNum))
      && FirstValue(ps, "limit") == Some("12")
      && FirstValue(ps, "search") == (if search != [] then Some(search) else None)
      && FirstValue(ps, "next_cursor") == (if pageNum > 1 && cursor != [] then Some(cursor) else None)
  {
    var base := [Param("page", NatToString(pageNum)), Param("limit", "12")];
    var s1 := if search != [] then [Param("search", search)] else [];
    var s2 := if pageNum > 1 && cursor != [] then [Param("next_cursor", cursor)] else [];
    assert base[1..][1..] == [] && (s1 == [] || s1[1..] == []) && (s2 == [] || s2[1..] == []);
    assert FirstValue(base[1..], "search") == None && FirstValue(base[1..], "next_cursor") == None;
    assert FirstValue(base, "search") == None && FirstValue(base, "next_cursor") == None;
    assert FirstValue(s1, "next_cursor") == None;
    FirstValueConcat(base, s1, "page");
    FirstValueConcat(base, s1, "limit");
    FirstValueConcat(base, s1, "search");
    FirstValueConcat(base, s1, "next_cursor");
    FirstValueConcat(base + s1, s2, "page");
    FirstValueConcat(base + s1, s2, "limit");
    FirstValueConcat(base + s1, s2, "search");
    FirstValueConcat(base + s1, s2, "next_cursor");
  }

  lemma PageSizeDigits()
    ensures NatToString(12) == "12"
  {
    assert NatToString(1) == [DecimalDigit(1)] == "1";
    assert DecimalDigit(2) == '2';
  }

  /** The listing asks the media service for exactly the page the gallery
      page requested: the same search term, 12 records, and the stored
      cursor exactly when it is past the first page and there is one. */
  lemma ListingQueryOfRequest(origin: string, pageNum: nat, search: string, cursor: string)
    requires '?' !in origin && '#' !in origin
    requires pageNum > 0
    ensures var q := QueryOf(origin + ApiUrl(pageNum, search, cursor));
      && IntParam(QueryGet(q, "page"), 1) == pageNum
      && IntParam(QueryGet(q, "limit"), 12) == 12
      && StringOr(QueryGet(q, "search"), "") == search
      && (IntParam(QueryGet(q, "page"), 1) > 1 && StringOr(QueryGet(q, "next_cursor"), "") != []
          <==> pageNum > 1 && cursor != [])
  {
    ListingReadsRequest(origin, pageNum, search, cursor);
    var q := QueryOf(origin + ApiUrl(pageNum, search, cursor));
    assert QueryGet(q, "page") == Some(NatToString(pageNum));
    PageSizeDigits();
    assert QueryGet(q, "limit") == Some(NatToString(12));
    IntParamOfRendered(pageNum, 1);
    IntParamOfRendered(12, 12);
  }

  /** `images.filter(image => image.public_id !== publicId)` */
  function Without(images: seq<Resource>, publicId: string): (r: seq<Resource>)
    ensures |r| <= |images|
    ensures forall x :: x in r <==> x in images && x.publicId != publicId
    decreases |images|
  {
    if images == [] then []
    else if images[0].publicId == publicId then Without(images[1..], publicId)
    else [images[0]] + Without(images[1..], publicId)
  }

  /** Removing from a concatenation removes from each part: the images that
      stay keep their relative order. */
  lemma {:induction false} WithoutConcat(a: seq<Resource>, b: seq<Resource>, publicId: string)
    ensures Without(a + b, publicId) == Without(a, publicId) + Without(b, publicId)
    decreases |a|
  {
    if a == [] {
      assert a + b == b;
    } else {
      assert (a + b)[0] == a[0];
      assert (a + b)[1..] == a[1..] + b;
      WithoutConcat(a[1..], b, publicId);
    }
  }

  /** A list with no image of that id is left as it is. */
  lemma {:induction false} WithoutAbsent(images: seq<Resource>, publicId: string)
    requires forall i :: 0 <= i < |images| ==> images[i].publicId != publicId
    ensures Without(images, publicId) == images
    decreases |images|
  {
    if images != [] {
      WithoutAbsent(images[1..], publicId);
      assert [images[0]] + images[1..] == images;
    }
  }

  /** `a` may be shown before `b` in the sorted view. */
  predicate Before(a: Resource, b: Resource, newestFirst: bool) {
    if newestFirst then a.createdAt >= b.createdAt else a.createdAt <= b.createdAt
  }

  predicate Sorted(s: seq<Resource>, newestFirst: bool) {
    forall i, j :: 0 <= i < j < |s| ==> Before(s[i], s[j], newestFirst)
  }

  /** `x` placed before the first element it may precede. */
  function Insert(x: Resource, s: seq<Resource>, newestFirst: bool): (r: seq<Resource>)
    ensures multiset(r) == multiset(s) + multiset{x}
    decreases |s|
  {
    if s == [] then [x]
    else if Before(x, s[0], newestFirst) then [x] + s
    else
      assert s == [s[0]] + s[1..];
      [s[0]] + Insert(x, s[1..], newestFirst)
  }

  /** Every element of the result is `x` or an element of `s`. */
  lemma {:induction false} InsertFrom(x: Resource, s: seq<Resource>, newestFirst: bool)
    ensures forall y :: y in Insert(x, s, newestFirst) ==> y == x || y in s
  {
    var r := Insert(x, s, newestFirst);
    forall y | y in r
      ensures y == x || y in s
    {
      assert y in multiset(r);
    }
  }

  /** `b` may be shown before every element of `s`. */
  predicate FirstBefore(b: Resource, s: seq<Resource>, newestFirst: bool) {
    forall j :: 0 <= j < |s| ==> Before(b, s[j], newestFirst)
  }

  lemma SortedCons(b: Resource, s: seq<Resource>, newestFirst: bool)
    requires FirstBefore(b, s, newestFirst) && Sorted(s, newestFirst)
    ensures Sorted([b] + s, newestFirst)
  {
    var r := [b] + s;
    assert forall j :: 1 <= j < |r| ==> r[j] == s[j - 1];
  }

  /** What may come before `x` and before every element of `s` may come
      before every element of `Insert(x, s)`. */
  lemma InsertFirstBefore(b: Resource, x: Resource, s: seq<Resource>, newestFirst: bool)
    requires Before(b, x, newestFirst) && FirstBefore(b, s, newestFirst)
    ensures FirstBefore(b, Insert(x, s, newestFirst), newestFirst)
  {
    var r := Insert(x, s, newestFirst);
    InsertFrom(x, s, newestFirst);
    forall j | 0 <= j < |r|
      ensures Before(b, r[j], newestFirst)
    {
      assert r[j] in r;
    }
  }

  /** Inserting into a sorted list keeps it sorted. */
  lemma {:induction false} InsertSorted(x: Resource, s: seq<Resource>, newestFirst: bool)
    requires Sorted(s, newestFirst)
    ensures Sorted(Insert(x, s, newestFirst), newestFirst)
    decreases |s|
  {
    if s == [] {
      assert Insert(x, s, newestFirst) == [x];
    } else if Before(x, s[0], newestFirst) {
      SortedCons(x, s, newestFirst);
    } else {
      var rest := s[1..];
      InsertSorted(x, rest, newestFirst);
      InsertFirstBefore(s[0], x, rest, newestFirst);
      SortedCons(s[0], Insert(x, rest, newestFirst), newestFirst);
    }
  }

  /** The sorted view: the list ordered by creation time, newest first or
      oldest first, images created at the same time left in list order. */
  function SortedView(images: seq<Resource>, newestFirst: bool): (r: seq<Resource>)
    ensures Sorted(r, newestFirst)
    ensures multiset(r) == multiset(images)
    decreases |images|
  {
    if images == [] then []
    else
      assert images == [images[0]] + images[1..];
      var rest := SortedView(images[1..], newestFirst);
      InsertSorted(images[0], rest, newestFirst);
      Insert(images[0], rest, newestFirst)
  }

  /** The count the page shows: `total_count || 0`. */
  function CountOr(count: Option<int>): (n: int)
    ensures count.Some? ==> n == count.value
    ensures count.None? ==> n == 0
  {
    if count.Some? then count.value else 0
  }

  /** The state of the page. */
  class Home {
    var images: seq<Resource>
    var loading: bool
    var nextCursor: string
    var hasMore: bool
    var selected: Option<Resource>
    var isModalOpen: bool
    var newestFirst: bool
    var totalCount: int
    /** The `search` parameter of the page's own URL. */
    var searchQuery: string

    constructor (searchQuery: string)
      ensures this.searchQuery == searchQuery
      ensures images == [] && loading && nextCursor == [] && hasMore
      ensures selected.None? && !isModalOpen && newestFirst && totalCount == 0
    {
      images := [];
      loading := true;
      nextCursor := [];
      hasMore := true;
      selected := None;
      isModalOpen := false;
      newestFirst := true;
      totalCount := 0;
      this.searchQuery := searchQuery;
    }

    /** The images in the order they are shown. */
    function Shown(): (r: seq<Resource>)
      reads this
      ensures multiset(r) == multiset(images)
      ensures Sorted(r, newestFirst)
    {
      SortedView(images, newestFirst)
    }

    /** `fetchImages(pageNum, replace)`. `fetch` answers a request URL with
        the listing's reply, or fails (a network error, a body that is not
        JSON). On success the list is replaced or extended and the paging
        state taken from the reply; on any failure the list is emptied. */
    method FetchImages(pageNum: nat, replace: bool, fetch: string -> Result<ListReply>)
      returns (requested: string)
      modifies this
      ensures requested == ApiUrl(pageNum, searchQuery, old(nextCursor))
      ensures searchQuery == old(searchQuery) && selected == old(selected)
      ensures isModalOpen == old(isModalOpen) && newestFirst == old(newestFirst)
      ensures !loading
      ensures fetch(requested).Ok? && fetch(requested).value.Listed? ==>
        var reply := fetch(requested).value;
        && images == (if replace then reply.images else old(images) + reply.images)
        && nextCursor == StringOr(reply.nextCursor, "")
        && totalCount == CountOr(reply.totalCount)
        && hasMore == (nextCursor != [])
      ensures !(fetch(requested).Ok? && fetch(requested).value.Listed?) ==>
        && images == []
        && nextCursor == old(nextCursor) && totalCount == old(totalCount) && hasMore == old(hasMore)
    {
      loading := true;
      requested := BuildApiUrl(pageNum, searchQuery, nextCursor);
      var response := fetch(requested);
      if response.Err? || response.value.ListFailed? {
        loading := false;
        images := [];
        return;
      }
      var data := response.value;
      var newNextCursor := StringOr(data.nextCursor, "");
      var newTotalCount := CountOr(data.totalCount);
      if replace {
        images := data.images;
      } else {
        images := images + data.images;
      }
      nextCursor := newNextCursor;
      totalCount := newTotalCount;
      hasMore := newNextCursor != [];
      loading := false;
    }

    /** The effect run when the page's search parameter changes: the cursor
        is cleared and the first page fetched in place of the list. */
    method SearchChanged(search: string, fetch: string -> Result<ListReply>)
      returns (requested: string)
      modifies this
      ensures searchQuery == search
      ensures requested == ApiUrl(1, search, "")
      ensures selected == old(selected)
      ensures isModalOpen == old(isModalOpen) && newestFirst == old(newestFirst)
      ensures !loading
      ensures fetch(requested).Ok? && fetch(requested).value.Listed? ==>
        var reply := fetch(requested).value;
        && images == reply.images
        && nextCursor == StringOr(reply.nextCursor, "")
        && totalCount == CountOr(reply.totalCount)
        && hasMore == (nextCursor != [])
      ensures !(fetch(requested).Ok? && fetch(requested).value.Listed?) ==>
        && images == []
        && nextCursor == [] && totalCount == old(totalCount) && hasMore == old(hasMore)
    {
      searchQuery := search;
      nextCursor := [];
      requested := FetchImages(1, true, fetch);
    }

    /** `handleImageUpload(newImage)`: the new image goes first. */
    method HandleImageUpload(newImage: Resource)
      modifies this`images
      ensures images == [newImage] + old(images)
      ensures |images| == |old(images)| + 1 && images[0] == newImage && images[1..] == old(images)
    {
      images := [newImage] + images;
    }

    /** `handleLoadMore()`: always the second page, appended, whatever has
        been loaded already. */
    method HandleLoadMore(fetch: string -> Result<ListReply>) returns (requested: string)
      modifies this
      ensures requested == ApiUrl(2, searchQuery, old(nextCursor))
      ensures searchQuery == old(searchQuery) && selected == old(selected)
      ensures isModalOpen == old(isModalOpen) && newestFirst == old(newestFirst)
      ensures !loading
      ensures fetch(requested).Ok? && fetch(requested).value.Listed? ==>
        var reply := fetch(requested).value;
        && images == old(images) + reply.images
        && nextCursor == StringOr(reply.nextCursor, "")
        && totalCount == CountOr(reply.totalCount)
        && hasMore == (nextCursor != [])
      ensures !(fetch(requested).Ok? && fetch(requested).value.Listed?) ==>
        && images == []
        && nextCursor == old(nextCursor) && totalCount == old(totalCount) && hasMore == old(hasMore)
    {
      requested := FetchImages(2, false, fetch);
    }

    method HandleImageClick(image: Resource)
      modifies this`selected, this`isModalOpen
      ensures selected == Some(image) && isModalOpen
    {
      selected := Some(image);
      isModalOpen := true;
    }

    /** The sort button. */
    method ToggleSort()
      modifies this`newestFirst
      ensures newestFirst == !old(newestFirst)
    {
      newestFirst := !newestFirst;
    }

    /** The modal's close button. */
    method CloseModal()
      modifies this`isModalOpen
      ensures !isModalOpen
    {
      isModalOpen := false;
    }

    /** `handleDeleteImage(publicId)`. `send` is the DELETE request, which
        answers with a status or fails. On a 2xx status every image with
        that id is removed and the modal closed if it shows that image;
        otherwise nothing changes. */
    method HandleDeleteImage(publicId: string, send: string -> Result<int>)
      modifies this`images, this`isModalOpen
      ensures var ok := send(publicId).Ok? && 200 <= send(publicId).value < 300;
        && images == (if ok then Without(old(images), publicId) else old(images))
        && isModalOpen == (old(isModalOpen) && !(ok && selected.Some? && selected.value.publicId == publicId))
    {
      var response := send(publicId);
      if response.Ok? && 200 <= response.value < 300 {
        images := Without(images, publicId);
        if isModalOpen && selected.Some? && selected.value.publicId == publicId {
          isModalOpen := false;
        }
      }
    }
  }
}
