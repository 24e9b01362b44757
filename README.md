# Image gallery: a Dafny model of its list, upload and search logic

The gallery is a Next.js application over a hosted media service. It has
two server routes and a page with three components:

- `/api/images` lists one page of the gallery folder, optionally filtered by
  a search term, and normalises each record's title and tags. It also
  deletes an image by its public id.
- `/api/upload` uploads one image with a title and a comma-separated tag
  string. The tags become a list, and the title and the tag string are
  stored percent-encoded in the record's context string.
- The page holds the image list. It fetches pages from the listing,
  prepends uploads, removes deleted images and shows the list sorted by
  creation time.
- The upload form collects files, a title and tags, and uploads the files
  one after another.
- The modal asks for a second press before it deletes an image.
- The grid summarises each image's tags as three badges and a `+N` count.

The model is split into these modules:

| module | file | what it holds |
|---|---|---|
| `Common` | common.dfy | `Option`, `Result`, and `x \|\| fallback` on strings |
| `JsString` | js_string.dfy | `trim`, `split`, `join`, `startsWith` of the JavaScript runtime |
| `JsNumber` | js_number.dfy | `${n}` for naturals and `parseInt` without a radix |
| `UriComponent` | uri_component.dfy | `encodeURIComponent` / `decodeURIComponent`, UTF-8 included, and their round trip |
| `QueryString` | query_string.dfy | how the server reads `searchParams.get(name)` from a URL, and how the page writes a query |
| `TagList` | tag_list.dfy | the `split(",").map(trim).filter(Boolean)` pipeline both routes use |
| `Media` | media.dfy | the records exchanged with the media service, its folder, and how it stores a context string |
| `ImagesRoute` | images_route.dfy | GET and DELETE of `/api/images` |
| `UploadRoute` | upload_route.dfy | POST of `/api/upload`, and the round trip from an upload back to the listing |
| `GalleryPage` | gallery_page.dfy | the page's state (`class Home`), its request URL and its sorted view |
| `UploadPanel` | upload_form.dfy | the upload form's state (`class Form`) and its sequential upload loop |
| `ImageModal` | image_modal.dfy | the modal's confirmation state machine (`class Modal`) and the download name |
| `ImageGrid` | image_grid.dfy | the tag summary and the per-image loaded map (`class Grid`) |

The two routes and the tag and title rules are modelled with functions. The
page, the form, the modal and the grid keep state that their handlers
change, so each is a class. The handlers are methods with `modifies`
clauses, and each method's `ensures` states its whole new state. The
upload loop of `handleSubmit` is a `while` loop with invariants.

Every call to the media service or to the network is a function parameter:
`execute`, `destroy`, `upload`, and the browser's `fetch` for the listing,
the delete and the upload. The clock is a parameter too. Each operation's
contract holds for every answer those calls can give.

The listing reads its page number with `parseInt(page) || 1` and its page
size with `parseInt(limit) || 12`. A negative page or limit is therefore
kept as it is. Only a missing, unparseable or zero value falls back to the
default (`ImagesRoute.IntParam`).

## Model

| member | source | states |
|---|---|---|
| `Common.StringOr` | app/api/images/route.js:10-11 | `v \|\| fallback`: the value when present and non-empty, otherwise the fallback |
| `JsString.TrimStart` | app/api/images/route.js:8 | the leading white space of `parseInt`'s input is dropped: the result is a suffix, everything cut is white space, and it does not start with white space |
| `JsString.TrimEnd` | app/api/images/route.js:99 | the result is a prefix, everything cut is white space, and it does not end with white space |
| `JsString.Trim` | app/api/images/route.js:99 | the result has no white space at either end, has no character not in the input, is empty exactly when the input is all white space, and leaves a trimmed string unchanged |
| `JsString.TrimIsBothEnds` | app/api/images/route.js:99 | `trim` is `trimStart` followed by `trimEnd` |
| `JsString.TrimStartUnchanged` | app/api/images/route.js:8 | a string that does not start with white space is not changed by `trimStart` |
| `JsString.Split` | app/api/images/route.js:97-98 | there is at least one piece, and no piece holds the separator |
| `JsString.JoinSplit` | app/api/images/route.js:97-98 | joining the pieces of a split with the separator gives back the string |
| `JsString.SplitJoin` | app/api/images/route.js:97-98 | splitting a join of pieces free of the separator gives back the pieces |
| `JsString.SplitConcat` | app/api/images/route.js:97-98 | the pieces of `a,b` are the pieces of `a` followed by the pieces of `b` |
| `JsString.SplitWithoutSeparator` | app/api/images/route.js:97-98 | a string without the separator is a single piece |
| `JsString.SplitOnce` | app/api/images/route.js:7 | the text before the first occurrence of a character and the text after it, or the whole string when the character is absent |
| `JsString.SplitOnceAt` | app/api/images/route.js:7 | splitting `a + c + b`, where `a` has no `c`, gives `(a, b)` |
| `JsNumber.NatToString` | app/page.js:36 | `${n}` is a non-empty run of decimal digits, with a leading `0` only for zero |
| `JsNumber.DigitRun` | app/api/images/route.js:8 | the longest prefix of digits of the radix: every character before it is a digit and the next one is not |
| `JsNumber.ParseInt` | app/api/images/route.js:8-9 | a number is read only from input that is not all white space, and a negative number only after a leading minus sign |
| `JsNumber.DigitRunOfDigits` | app/api/images/route.js:8 | a run of digits followed by a non-digit is read to its end |
| `JsNumber.DigitsValueOfNat` | app/page.js:36 | the digits `${n}` writes have the value `n` |
| `JsNumber.ParseMagnitudeOfRendered` | app/api/images/route.js:8 | the unsigned reading of `${n}` followed by anything that does not continue a number is `n` |
| `JsNumber.ParseIntOfRendered` | app/api/images/route.js:8-9 | `parseInt` of `${n}`, signed or not and followed by a non-digit, gives back `n` or `-n` |
| `JsNumber.ParseIntUnsigned` | app/api/images/route.js:8 | a string that starts with a digit is read as its magnitude with no sign |
| `JsNumber.ParseIntNegative` | app/api/images/route.js:8 | a minus sign in front of a digit negates the magnitude |
| `UriComponent.Enc` | app/api/upload/route.js:40-42 | `encodeURIComponent` writes only unreserved characters and `%` |
| `UriComponent.Dec` | app/api/images/route.js:79 | `decodeURIComponent` returns nothing where it throws; otherwise the result is no longer than the input and is empty only for empty input |
| `UriComponent.DecThrows` | app/api/images/route.js:79 | `decodeURIComponent` throws on a lone `%`, on the overlong form `%C0%80`, and on the escaped surrogate half `%ED%A0%80` |
| `UriComponent.Utf8` | app/api/upload/route.js:40-42 | a code point is written as one to four bytes |
| `UriComponent.HexRoundTrip` | app/api/upload/route.js:40-42 | a hexadecimal digit written by the encoder reads back as its value |
| `UriComponent.DecodeTwoBytes` | app/api/images/route.js:79 | the escapes of a two-byte UTF-8 sequence decode to its code point and take six characters |
| `UriComponent.DecodeThreeBytes` | app/api/images/route.js:79 | the escapes of a three-byte UTF-8 sequence decode to its code point and take nine characters |
| `UriComponent.DecodeFourBytes` | app/api/images/route.js:79 | the escapes of a four-byte UTF-8 sequence decode to its code point and take twelve characters |
| `UriComponent.DecodeEscapeOf` | app/api/images/route.js:79 | the escapes of any encoded character decode back to that character |
| `UriComponent.DecEnc` | app/api/upload/route.js:40-42 | decoding undoes encoding for every string: `Dec(Enc(s)) == Some(s)` |
| `UriComponent.DecWithoutPercent` | app/api/images/route.js:79 | a string without `%` decodes to itself |
| `UriComponent.EncUnreserved` | app/page.js:36 | a string of unreserved characters is encoded as itself |
| `UriComponent.EncInjective` | app/api/upload/route.js:40-42 | different strings have different encodings, and only the empty string encodes to the empty string |
| `UriComponent.EncodedHasNoDelimiter` | app/api/upload/route.js:40-42 | an encoded string has none of `&`, `=`, `+`, `#` or `\|` |
| `QueryString.QueryOf` | app/api/images/route.js:7 | the query of a URL has no fragment mark and is no longer than the URL |
| `QueryString.PlusToSpace` | app/api/images/route.js:10 | every `+` of a form-encoded value reads as a space, and every other character as itself |
| `QueryString.QueryOfUrl` | app/api/images/route.js:7 | the query of `path?query#fragment` is `query` |
| `QueryString.PlusToSpaceNoPlus` | app/api/images/route.js:10 | a value without `+` is not changed |
| `QueryString.FormDecode` | app/api/images/route.js:8-11 | a form-encoded name or value is never longer after decoding, and one without `%` only has its `+` signs read as spaces |
| `QueryString.FindIn` | app/api/images/route.js:8-11 | a value is found if and only if some non-empty piece has that decoded name |
| `QueryString.QueryGet` | app/api/images/route.js:8-11 | `searchParams.get(name)` finds a value if and only if some `&`-separated piece of the query has that decoded name |
| `QueryString.FormDecodeEnc` | app/api/images/route.js:10-11 | the server reads back exactly what `encodeURIComponent` wrote |
| `QueryString.FormDecodePlain` | app/api/images/route.js:8-11 | a parameter name of unreserved characters reads as itself |
| `QueryString.RenderParamReads` | app/page.js:40 | a written pair has no `&` and splits at its first `=` into its name and its value |
| `QueryString.SplitRenderQuery` | app/api/images/route.js:7 | the `&`-separated pieces of a written query are its written pairs |
| `QueryString.FindInRendered` | app/api/images/route.js:8-11 | looking a name up among the written pairs finds the value of its first pair |
| `QueryString.QueryGetRender` | app/api/images/route.js:8-11 | `searchParams.get(name)` on a query the page wrote gives the value of the first pair of that name |
| `QueryString.RenderQueryNoHash` | app/page.js:36-46 | a written query has no fragment mark |
| `TagList.Tidy` | app/api/images/route.js:99-100 | the trimmed, non-empty pieces, at most as many as the pieces |
| `TagList.TidyTags` | app/api/images/route.js:97-100 | tidied pieces without commas are well-formed tags: non-empty, trimmed, comma-free |
| `TagList.SplitTags` | app/api/upload/route.js:16-21 | the tags of a comma-separated string are well formed |
| `TagList.TidyConcat` | app/api/images/route.js:99-100 | tidying keeps the order: tidying `a + b` is tidying `a`, then `b` |
| `TagList.TidyWellFormed` | app/api/images/route.js:99-100 | well-formed tags pass through tidying unchanged |
| `TagList.SplitTagsConcat` | app/api/upload/route.js:16-21 | the tags of `a,b` are the tags of `a` followed by the tags of `b` |
| `TagList.SplitTagsOne` | app/api/upload/route.js:16-21 | a string without a comma is one trimmed tag, or none when it is all white space |
| `TagList.SplitTagsJoin` | app/api/upload/route.js:16-21 | well-formed tags joined with commas split back to the same tags |
| `TagList.SplitTagsIdempotent` | app/api/upload/route.js:16-21 | tags written back as a tag string and parsed again are unchanged |
| `Media.Entries` | app/api/upload/route.js:40-42 | the keys kept have no `=`, and entries free of `\|` give keys and values free of `\|` |
| `Media.StoredContext` | app/api/upload/route.js:40-42 | a stored context's keys have no `=` and no `\|`, and its values have no `\|` |
| `Media.SplitThree` | app/api/upload/route.js:40-42 | three entries joined with a separator they do not contain split back into the three |
| `Media.EntriesThree` | app/api/upload/route.js:40-42 | three `key=value` entries give the map of those keys, a later key overriding an earlier one |
| `Media.StoredThree` | app/api/upload/route.js:40-42 | the context kept from `k1=v1\|k2=v2\|k3=v3` is the map of the three entries |
| `ImagesRoute.IntParam` | app/api/images/route.js:8-9 | the parsed integer when it parses to a non-zero value; otherwise the default, for a missing, unparseable or zero parameter |
| `ImagesRoute.IntParamOfRendered` | app/api/images/route.js:8-9 | a positive number written in decimal is taken as it is |
| `ImagesRoute.SearchExpression` | app/api/images/route.js:23-27 | the expression always starts with `folder:image_gallery`, and is exactly that clause if and only if the search term is empty |
| `ImagesRoute.LeadingClause` | app/api/images/route.js:23-26 | the folder clause followed by nothing, or by a space, leads with the gallery folder |
| `ImagesRoute.ExpressionLeadingFolder` | app/api/images/route.js:23-26 | for every search term, the expression's leading clause names the gallery folder |
| `ImagesRoute.TermAddsClause` | app/api/images/route.js:26 | the term is inserted unescaped: a term `x) OR (c` closes the parenthesis opened for it, so the expression gains `c` as a clause of its own (for instance `folder:other`, another folder), while its leading clause still names the gallery folder |
| `ImagesRoute.ExtractTitle` | app/api/images/route.js:75-84 | a non-empty title gives its decoding; otherwise a non-empty alt text gives its decoding; otherwise the caption as stored; otherwise empty; it fails exactly where the decode it attempts throws |
| `ImagesRoute.TitlePrecedence` | app/api/images/route.js:78-84 | a title that decodes wins over the alt text and the caption, and the alt text wins over the caption |
| `ImagesRoute.EmptyFieldsFallThrough` | app/api/images/route.js:78-84 | an empty title, or an empty title and alt text, count as absent: the next field in line decides |
| `ImagesRoute.TitleWithoutEscapes` | app/api/images/route.js:78-79 | a title without `%` is shown exactly as stored |
| `ImagesRoute.ExtractTags` | app/api/images/route.js:87-101 | a non-empty native tag list is kept unchanged; otherwise a non-empty context tag string gives the tags of its decoding, split, trimmed and non-empty; otherwise none; it fails exactly where the decode throws |
| `ImagesRoute.Normalise` | app/api/images/route.js:71-111 | a record keeps every field except its title and tags, which become the extracted title and tags; it fails exactly when one extraction fails |
| `ImagesRoute.NormaliseAll` | app/api/images/route.js:71-112 | the list has the same length and order as the records, each entry being that record normalised; the whole map fails if one record fails |
| `ImagesRoute.BuildQuery` | app/api/images/route.js:7-63 | the search uses the expression for the `search` parameter, the page size from `limit` (default 12), newest first, with context and tags; it carries the cursor if and only if the page is above 1 and the cursor is non-empty |
| `ImagesRoute.Get` | app/api/images/route.js:5-142 | builds the query as above; a failed search gives the error reply with the service's message; otherwise the reply is the normalised records with the cursor and the count, or the error reply "URI malformed" when a record's decode throws |
| `ImagesRoute.Delete` | app/api/images/route.js:146-177 | destroy is called if and only if the body has a non-empty `public_id`, and with that id; a missing id gives 400; success if and only if destroy answers `"ok"`; every other outcome is 500 |
| `UploadRoute.ParseTags` | app/api/upload/route.js:16-21 | the tags of a tag string are well formed, and the empty string has none |
| `UploadRoute.ParseTagsIsSplitTags` | app/api/upload/route.js:16-21 | the guard on the empty string agrees with the pipeline it guards |
| `UploadRoute.ContextString` | app/api/upload/route.js:40-42 | the context string splits at `\|` into exactly the three entries alt, title and tags, each with its value encoded |
| `UploadRoute.Post` | app/api/upload/route.js:4-66 | a missing or empty image is rejected with 400 before any upload; a file is uploaded to `image_gallery` with the parsed tags, the clock as public id and the context string of the title and tags (missing fields read as empty); the answer is the service's record with the title, the tags and the creation time replaced |
| `UploadRoute.PostRequest` | app/api/upload/route.js:4-66 | a body that is not form data answers 500 "Error uploading image" and uploads nothing; form data is answered as `Post` answers it |
| `UploadRoute.ContextTagsRoundTrip` | app/api/upload/route.js:40-42 | the stored tag string, decoded and parsed the way the listing does it, gives the tags the upload parsed |
| `UploadRoute.StoredContextOf` | app/api/upload/route.js:40-42 | the service keeps the context string as the three entries alt, title and tags, each encoded |
| `UploadRoute.ListedTitle` | app/api/upload/route.js:40-42 | the listing shows an uploaded image under the title it was uploaded with |
| `UploadRoute.ListedTags` | app/api/upload/route.js:39-42 | the listing shows an uploaded image with the tags the upload parsed, whether or not the service kept the tag list |
| `UploadRoute.ListedUpload` | app/api/upload/route.js:37-42 | an uploaded record comes back from the listing with its own title and tags and every other field unchanged |
| `UploadRoute.UploadsAreListed` | app/api/upload/route.js:37 | for every search term, the leading clause of the listing's search expression names the folder uploads go to |
| `GalleryPage.ApiParams` | app/page.js:36-46 | every name the page writes is a plain name |
| `GalleryPage.ApiParamsContents` | app/page.js:36-46 | the page number and `limit=12` lead; `search` is sent exactly when the term is non-empty, and `next_cursor` exactly when the page is above 1 and the cursor is non-empty |
| `GalleryPage.ApiUrl` | app/page.js:36 | the request URL is `/api/images?` followed by the query |
| `GalleryPage.RenderQueryAppend` | app/page.js:40-45 | appending `&name=value` to a written query writes one more pair |
| `GalleryPage.RenderPlainValue` | app/page.js:36 | a value of unreserved characters is written without escapes |
| `GalleryPage.BaseQuery` | app/page.js:36 | the page number and `limit=12` written first are the first two pairs |
| `GalleryPage.AppendParam` | app/page.js:39-46 | each `+=` of the URL adds one pair to the request's pairs |
| `GalleryPage.BuildApiUrl` | app/page.js:35-46 | the URL built step by step is the one for the page, the limit 12, the search term when it is non-empty, and the cursor when the page is above 1 and the cursor is non-empty |
| `GalleryPage.QueryOfApiUrl` | app/page.js:48 | the listing reads the query the page wrote, from any origin |
| `GalleryPage.FirstValueConcat` | app/page.js:36-46 | looking a name up in two lists of pairs finds it in the first list, else in the second |
| `GalleryPage.FirstValueApiParams` | app/page.js:36-46 | the request always carries `page` and `limit=12`; `search` is present if and only if the term is non-empty; `next_cursor` is present if and only if the page is above 1 and the cursor is non-empty |
| `GalleryPage.ListingReadsRequest` | app/page.js:36-46 | the listing reads the page number, the limit 12, the search term, and the cursor past the first page, from the page's request |
| `GalleryPage.ListingQueryOfRequest` | app/page.js:36-46 | for a positive page, the listing's search uses that page, limit 12 and the page's search term, and it carries a cursor if and only if the page's request does |
| `GalleryPage.Without` | app/page.js:121-123 | the images kept are exactly those whose id differs |
| `GalleryPage.WithoutConcat` | app/page.js:121-123 | the images kept keep their relative order |
| `GalleryPage.WithoutAbsent` | app/page.js:121-123 | removing an id no image has leaves the list unchanged |
| `GalleryPage.Insert` | app/page.js:87-93 | inserting adds the element: the multiset grows by it |
| `GalleryPage.InsertFrom` | app/page.js:87-93 | every element of an insertion is the inserted one or came from the list |
| `GalleryPage.SortedCons` | app/page.js:87-93 | an element that may precede every element of a sorted list makes a sorted list in front of it |
| `GalleryPage.InsertFirstBefore` | app/page.js:87-93 | what may precede an element and a list may precede their insertion |
| `GalleryPage.InsertSorted` | app/page.js:87-93 | inserting into a sorted list keeps it sorted |
| `GalleryPage.SortedView` | app/page.js:87-93 | the sorted view is a permutation of the list, non-increasing by creation time when newest first and non-decreasing otherwise |
| `GalleryPage.CountOr` | app/page.js:59 | `total_count \|\| 0`: the count when it is present (a count of zero gives zero), else 0 |
| `GalleryPage.Home.constructor` | app/page.js:17-24 | the initial state: no images, loading, no cursor, more to load, nothing selected, the modal closed, newest first, count 0 |
| `GalleryPage.Home.Shown` | app/page.js:87-93 | the images shown are the list, sorted by creation time in the chosen direction |
| `GalleryPage.Home.FetchImages` | app/page.js:31-78 | requests the URL for the page, search and stored cursor; on a listing reply the list is replaced or extended after the old images, the cursor and the count are taken with their defaults, and more is expected if and only if the cursor is non-empty; on any failure the list is emptied and the paging state kept; loading ends either way |
| `GalleryPage.Home.SearchChanged` | app/page.js:80-84 | a new search term requests page 1 for that term; on a listing reply the list is replaced by its images and the cursor, the count and whether more is expected are taken from it; on any failure the list is emptied, the cursor is left cleared and the count and whether more is expected are kept; the selection, the modal and the sort direction are unchanged, and loading ends |
| `GalleryPage.Home.HandleImageUpload` | app/page.js:95-98 | the new image is prepended, and the rest of the list is the previous list |
| `GalleryPage.Home.HandleLoadMore` | app/page.js:100-103 | always requests page 2 with the stored cursor; on a listing reply its images are appended and the cursor, the count and whether more is expected are taken from it; on any failure the list is emptied and the paging state kept; the search term, the selection, the modal and the sort direction are unchanged, and loading ends |
| `GalleryPage.Home.HandleImageClick` | app/page.js:105-108 | the clicked image is selected and the modal opened |
| `GalleryPage.Home.ToggleSort` | app/page.js:204 | the sort direction flips |
| `GalleryPage.Home.CloseModal` | app/page.js:290 | the modal is closed |
| `GalleryPage.Home.HandleDeleteImage` | app/page.js:110-134 | on a 2xx answer the images with that id are removed and the modal closed if it shows that image; on any other answer or a failure nothing changes |
| `UploadPanel.IsImage` | app/components/ImageUpload.js:31-33 | a file passes only if its type is `image/` followed by a subtype, possibly empty |
| `UploadPanel.ImageFiles` | app/components/ImageUpload.js:31-33 | the dropped files kept are exactly those whose type starts with `image/` |
| `UploadPanel.ImageFilesConcat` | app/components/ImageUpload.js:31-33 | the filter keeps the order of the files |
| `UploadPanel.ImageFilesAllImages` | app/components/ImageUpload.js:31-33 | a drop of images only is kept whole |
| `UploadPanel.WithoutIndex` | app/components/ImageUpload.js:51 | removing by position never lengthens the list |
| `UploadPanel.WithoutIndexInRange` | app/components/ImageUpload.js:51 | removing position `i` of the list leaves the elements before and after it, in order |
| `UploadPanel.WithoutIndexOutOfRange` | app/components/ImageUpload.js:51 | a position outside the list removes nothing |
| `UploadPanel.Reversed` | app/components/ImageUpload.js:86 | the list in reverse order, element by element |
| `UploadPanel.ReversedSnoc` | app/components/ImageUpload.js:86 | one more element at the end of a list is one more at the front of its reverse |
| `UploadPanel.Request` | app/components/ImageUpload.js:71-74 | the form data carries the file as `image`, which is never falsy, and the title and the tag string as they are typed |
| `UploadPanel.RequestAccepted` | app/components/ImageUpload.js:71-74 | the upload route never rejects the form's request, and uploads that file to the gallery folder with the form's title and tags |
| `UploadPanel.Form.constructor` | app/components/ImageUpload.js:9-13 | the form starts with no files, an empty title and tags, not uploading and not active |
| `UploadPanel.Form.HandleDrag` | app/components/ImageUpload.js:15-23 | entering or moving over the zone makes it active, leaving makes it inactive |
| `UploadPanel.Form.HandleDrop` | app/components/ImageUpload.js:25-42 | the zone becomes inactive; the dropped images are appended in order; a drop with files but no image appends nothing and reports it |
| `UploadPanel.Form.HandleFileChange` | app/components/ImageUpload.js:44-48 | every chosen file is appended in order, whatever its type |
| `UploadPanel.Form.RemoveFile` | app/components/ImageUpload.js:50-52 | exactly the file at that position is removed, and the list is one shorter when the position is in it |
| `UploadPanel.Form.HandleSubmit` | app/components/ImageUpload.js:54-104 | no files, then an empty title, are reported in that order and upload nothing; otherwise the files are sent in order with the same title and tags, each record received is prepended to the page's list, the first failure stops the loop and keeps the form, full success clears files, title and tags and reports the count; uploading ends either way |
| `UploadPanel.UploadEach` | app/components/ImageUpload.js:70-87 | the records received answer the files in order; the loop fails exactly when it stops early, at a file whose upload failed; the page's list gains the records, newest first |
| `ImageModal.DownloadName` | app/components/ImageModal.js:44 | the name ends in `.jpg` after the title, or after `image` when the title is missing or empty |
| `ImageModal.DownloadNameInjective` | app/components/ImageModal.js:44 | two images download under the same name exactly when their titles give the same stem |
| `ImageModal.Modal.constructor` | app/components/ImageModal.js:7-9 | the modal starts unarmed and loading, with the properties given |
| `ImageModal.Modal.SetProps` | app/components/ImageModal.js:11-17 | when the image or the open flag changes and the modal is open, the confirmation is disarmed and loading restarts; otherwise both are kept |
| `ImageModal.Modal.HandleDelete` | app/components/ImageModal.js:21-29 | unarmed, a press only arms the confirmation; armed, it asks to delete the shown image's id; the confirmation is armed afterwards |
| `ImageModal.Modal.TimerFires` | app/components/ImageModal.js:27 | the timeout disarms the confirmation |
| `ImageModal.Modal.ImageLoaded` | app/components/ImageModal.js:76 | the image stops showing as loading |
| `ImageModal.Modal.View` | app/components/ImageModal.js:19 | a closed modal renders nothing; an open one shows its image and its confirmation state |
| `ImageModal.PressTwice` | app/components/ImageModal.js:21-29 | two presses on an open, unarmed modal delete nothing on the first and ask for the shown image exactly once on the second |
| `ImageGrid.DisplayTitle` | app/components/ImageGrid.js:65 | the title when it is present and non-empty, otherwise `Untitled` |
| `ImageGrid.TrimAll` | app/components/ImageGrid.js:78 | every tag shown is trimmed |
| `ImageGrid.Badges` | app/components/ImageGrid.js:72-85 | at most three tags are shown, the first ones trimmed in order; the overflow badge is present if and only if there are more than three, and the shown count plus the badge count is the number of tags |
| `ImageGrid.TagPieces` | app/components/ImageGrid.js:68-93 | a tag list is taken as it is; a tag string is cut into comma-free pieces that join back to the string |
| `ImageGrid.HasSummary` | app/components/ImageGrid.js:68-89 | whenever the summary is drawn there is at least one piece to draw |
| `ImageGrid.TagSummary` | app/components/ImageGrid.js:68-109 | a summary is drawn exactly for a non-empty tag list or a tag string that is not all white space; its badges are those of the list, or of the comma-split pieces of the string with empty pieces kept |
| `ImageGrid.ListedTagsShown` | app/components/ImageGrid.js:68-86 | the tags the listing returns are shown as they are: the first three, unchanged |
| `ImageGrid.JoinedTagsSameSummary` | app/components/ImageGrid.js:87-107 | the same well-formed tags, as a list or as one comma-separated string, get the same summary |
| `ImageGrid.Grid.constructor` | app/components/ImageGrid.js:8 | no image has loaded yet |
| `ImageGrid.Grid.IsLoaded` | app/components/ImageGrid.js:13-15 | an image counts as loaded only if its id has an entry |
| `ImageGrid.Grid.HandleImageLoad` | app/components/ImageGrid.js:13-15 | the image is marked loaded, and every other entry is kept |

## Left out

- The media service itself is not modelled. Search, upload, destroy, the folder probe and the ping are all left out; the three calls whose answers matter are function parameters. The folder probe and the ping only log.
- How the service stores a context string, `Media.StoredContext`, is an assumption about the service: `|`-separated `key=value` entries, later keys winning. It is used only for the round trip from an upload to the listing.
- All console logging, toasts, rendering, `next/image` and object URLs are left out. They do not change any state the model keeps.
- The base64 data URL built from the file's bytes is not modelled. The file is passed to the upload as it is.
- `Date.now()` for the public id is a parameter. `new Date().toISOString()` for the reply's creation time is also a parameter. Creation times are integers, and date formatting in the modal is not modelled.
- The title and tag inputs' change handlers and the search box are not modelled. They only set one field each.
- `getNextCursor` in app/api/images/route.js is never called, and is left out.
- The 5-second timeout of the modal is an event (`ImageModal.Modal.TimerFires`), not a timer. An armed modal may therefore be disarmed at any later point.
- Overlapping fetches and uploads are not modelled. Every handler runs to completion before the next starts, so a stale listing reply cannot overwrite a newer one.
- `QueryString.FormDecode` falls back to the raw text for a value whose escapes are malformed. `URLSearchParams` instead keeps the malformed escapes and decodes the rest. Values the page itself writes are never malformed.
- `JsNumber.ParseInt` reads an arbitrarily large integer exactly. JavaScript rounds large values to a double.
- Context values are strings. A non-string context value, which the service does not produce for this gallery, is not modelled.
- `ImagesRoute.Get`: any exception from the normaliser is a malformed escape. The model has no other exception that `map` could throw.
- `UploadRoute.Post`: an image field that is text, not a file, fails when its bytes are read. The model states the 500 reply and nothing about the exception's message. A body that is not form data is `UploadRoute.PostRequest`'s `None`.
- `ImagesRoute.SearchExpression` inserts the search term without escaping. The service's query grammar is not modelled, so the model does not state which folders an expression can match; it states only that the leading clause names the gallery folder, and `ImagesRoute.TermAddsClause` shows a term that adds a clause for another folder.
- `GalleryPage.SortedView` is proved a sorted permutation. The order it gives images with equal creation times is not stated, so the stability of `Array.prototype.sort` is not claimed.
- `GalleryPage.Home.HandleLoadMore` always asks for page 2, as the code does. The page number only switches the cursor on; the stored cursor says where the next page starts. The button is shown only while more is expected, and the model does not take that condition as a precondition.
- `ImageModal.Modal.HandleDelete` requires an open modal with an image. The delete button only exists when the modal renders one.
- `ImageModal.Modal.View` requires an image whenever the modal is open. The page renders the modal only when an image is selected (app/page.js:286-292).
- `ImageGrid.DisplayTitle` also stands for the overlay's title at app/components/ImageGrid.js:52, which uses the same rule.
