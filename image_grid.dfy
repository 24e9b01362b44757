/** The image grid: which images have finished loading, the title shown
    under each image, and the summary of its tags (at most three, then a
    `+N` badge for the rest). */
module ImageGrid {
  import opened Common
  import opened JsString
  import opened TagList
  import opened Media

  /** `image.title || "Untitled"` */
  function DisplayTitle(title: Option<string>): (shown: string)
    ensures shown != []
    ensures title.Some? && title.value != [] ==> shown == title.value
    ensures title.None? || title.value == [] ==> shown == "Untitled"
  {
    StringOr(title, "Untitled")
  }

  /** The tag badges of one image: the tags shown, and the number on the
      `+N` badge, 0 when there is none. */
  datatype TagBadges = TagBadges(shown: seq<string>, overflow: nat)

  /** Every piece trimmed. */
  function TrimAll(pieces: seq<string>): (r: seq<string>)
    ensures |r| == |pieces|
    ensures forall i :: 0 <= i < |pieces| ==> r[i] == Trim(pieces[i])
    decreases |pieces|
  {
    if pieces == [] then [] else [Trim(pieces[0])] + TrimAll(pieces[1..])
  }

  /** The first three of the tags, trimmed, and the count of the others. */
  function Badges(pieces: seq<string>): (b: TagBadges)
    ensures |b.shown| <= 3 && |b.shown| + b.overflow == |pieces|
    ensures b.overflow > 0 <==> |pieces| > 3
    ensures forall i :: 0 <= i < |b.shown| ==> b.shown[i] == Trim(pieces[i])
  {
    var k := if |pieces| < 3 then |pieces| else 3;
    TagBadges(TrimAll(pieces[..k]), if |pieces| > 3 then |pieces| - 3 else 0)
  }

  /** The tags the summary is taken from: the list itself, or the pieces of
      the string between commas, empty pieces included. */
  function TagPieces(tags: Tags): (r: seq<string>)
    ensures tags.TagString? ==> Join(r, ',') == tags.text && forall i :: 0 <= i < |r| ==> ',' !in r[i]
    ensures tags.TagArray? ==> r == tags.items
    ensures tags.NoTags? ==> r == []
  {
    match tags
    case NoTags => []
    case TagArray(items) => items
    case TagString(text) => JoinSplit(text, ','); Split(text, ',')
  }

  /** Whether the summary is drawn at all: a non-empty list, or a string
      that is not all white space. */
  predicate HasSummary(tags: Tags): (b: bool)
    ensures b ==> TagPieces(tags) != []
  {
    || (tags.TagArray? && tags.items != [])
    || (tags.TagString? && !AllSpace(tags.text))
  }

  /** The tag summary of one image. */
  function TagSummary(tags: Tags): (r: Option<TagBadges>)
    ensures r.Some? <==> HasSummary(tags)
    ensures r.Some? ==>
      var pieces := TagPieces(tags);
      && |r.value.shown| <= 3
      && |r.value.shown| + r.value.overflow == |pieces|
      && (r.value.overflow > 0 <==> |pieces| > 3)
      && forall i :: 0 <= i < |r.value.shown| ==> r.value.shown[i] == Trim(pieces[i])
  {
    match tags
    case TagArray(items) =>
      if |items| > 0 then Some(Badges(items)) else None
    case TagString(text) =>
      if Trim(text) != [] then Some(Badges(Split(text, ','))) else None
    case NoTags => None
  }

  /** Tags as the listing returns them are shown as they are: the first
      three, untouched. */
  lemma ListedTagsShown(ts: seq<string>)
    requires WellFormedTags(ts) && ts != []
    ensures TagSummary(TagArray(ts)).Some?
    ensures TagSummary(TagArray(ts)).value.shown == ts[..if |ts| < 3 then |ts| else 3]
  {
    var k := if |ts| < 3 then |ts| else 3;
    var first := ts[..k];
    forall i | 0 <= i < |first|
      ensures Trim(first[i]) == first[i]
    {
      assert WellFormedTag(ts[i]);
    }
    var shown := TrimAll(first);
    assert shown == first;
    assert TagSummary(TagArray(ts)) == Some(Badges(ts));
  }

  /** The same well-formed tags, as a list or written as one comma-separated
      string, get the same summary. */
  lemma JoinedTagsSameSummary(ts: seq<string>)
    requires WellFormedTags(ts) && ts != []
    ensures TagSummary(TagString(Join(ts, ','))) == TagSummary(TagArray(ts))
  {
    SplitJoin(ts, ',');
    JoinStartsWith(ts);
    assert !IsSpace(ts[0][0]);
  }

  /** A comma-joined list starts with its first element. */
  lemma JoinStartsWith(ts: seq<string>)
    requires ts != []
    ensures |ts[0]| <= |Join(ts, ',')| && Join(ts, ',')[..|ts[0]|] == ts[0]
  {
    if |ts| > 1 {
      assert Join(ts, ',') == ts[0] + ([','] + Join(ts[1..], ','));
    }
  }

  /** The grid's record of which images have finished loading, by id. */
  class Grid {
    var loaded: map<string, bool>

    constructor ()
      ensures loaded == map[]
    {
      loaded := map[];
    }

    /** Whether the image with this id is shown, rather than a spinner. */
    function IsLoaded(id: string): (b: bool)
      reads this
      ensures b ==> id in loaded
      ensures id !in loaded ==> !b
    {
      id in loaded && loaded[id]
    }

    /** `handleImageLoad(id)` */
    method HandleImageLoad(id: string)
      modifies this
      ensures IsLoaded(id)
      ensures loaded.Keys == old(loaded.Keys) + {id}
      ensures forall k :: k in old(loaded) && k != id ==> loaded[k] == old(loaded[k])
    {
      loaded := loaded[id := true];
    }
  }
}
