/** The comma-separated tag lists of the gallery: the `split(",")`,
    `map(tag => tag.trim())`, `filter(tag => tag)` pipeline that both the
    upload route and the listing's fallback apply to a tag string. */
module TagList {
  import opened JsString

  /** A tag as the pipeline leaves it: non-empty, trimmed, without a comma. */
  predicate WellFormedTag(t: string) {
    t != [] && Trimmed(t) && ',' !in t
  }

  predicate WellFormedTags(ts: seq<string>) {
    forall i :: 0 <= i < |ts| ==> WellFormedTag(ts[i])
  }

  /** `pieces.map(p => p.trim()).filter(p => p)`: the trimmed pieces that
      are not empty, in order. */
  function Tidy(pieces: seq<string>): (tags: seq<string>)
    ensures |tags| <= |pieces|
    decreases |pieces|
  {
    if pieces == [] then []
    else
      var t := Trim(pieces[0]);
      if t == [] then Tidy(pieces[1..]) else [t] + Tidy(pieces[1..])
  }

  /** Trimming adds no character. */
  lemma TrimKeepsOut(s: string, c: char)
    requires c !in s
    ensures c !in Trim(s)
  {
  }

  /** A well-formed tag in front of well-formed tags. */
  lemma WellFormedCons(t: string, ts: seq<string>)
    requires WellFormedTag(t) && WellFormedTags(ts)
    ensures WellFormedTags([t] + ts)
  {
    var r := [t] + ts;
    assert forall i :: 1 <= i < |r| ==> r[i] == ts[i - 1];
  }

  /** Tidy pieces without commas are well-formed tags. */
  lemma {:induction false} TidyTags(pieces: seq<string>)
    requires forall i :: 0 <= i < |pieces| ==> ',' !in pieces[i]
    ensures WellFormedTags(Tidy(pieces))
    decreases |pieces|
  {
    if pieces != [] {
      TidyTags(pieces[1..]);
      if Trim(pieces[0]) != [] {
        TrimKeepsOut(pieces[0], ',');
        WellFormedCons(Trim(pieces[0]), Tidy(pieces[1..]));
      }
    }
  }

  /** The tags of a comma-separated string. */
  function SplitTags(s: string): (tags: seq<string>)
    ensures WellFormedTags(tags)
  {
    TidyTags(Split(s, ','));
    Tidy(Split(s, ','))
  }

  /** Tidying distributes over concatenation. */
  lemma {:induction false} TidyConcat(a: seq<string>, b: seq<string>)
    ensures Tidy(a + b) == Tidy(a) + Tidy(b)
    decreases |a|
  {
    if a == [] {
      assert a + b == b;
    } else {
      var ab := a + b;
      assert ab[0] == a[0];
      assert ab[1..] == a[1..] + b;
      TidyConcat(a[1..], b);
    }
  }

  /** Tags that are already well formed are left alone. */
  lemma {:induction false} TidyWellFormed(ts: seq<string>)
    requires WellFormedTags(ts)
    ensures Tidy(ts) == ts
    decreases |ts|
  {
    if ts != [] {
      assert WellFormedTag(ts[0]);
      assert Trim(ts[0]) == ts[0];
      TidyWellFormed(ts[1..]);
      assert [ts[0]] + ts[1..] == ts;
    }
  }

  /** The tags of `a,b` are the tags of `a` followed by those of `b`. */
  lemma SplitTagsConcat(a: string, b: string)
    ensures SplitTags(a + "," + b) == SplitTags(a) + SplitTags(b)
  {
    SplitConcat(a, b, ',');
    TidyConcat(Split(a, ','), Split(b, ','));
  }

  /** A string without a comma is one tag, its trimmed self, or none at all
      when it is only white space. */
  lemma SplitTagsOne(s: string)
    requires ',' !in s
    ensures SplitTags(s) == if AllSpace(s) then [] else [Trim(s)]
  {
    SplitWithoutSeparator(s, ',');
    assert [s][1..] == [];
  }

  /** Joining well-formed tags with commas and splitting them again gives
      them back. */
  lemma SplitTagsJoin(ts: seq<string>)
    requires WellFormedTags(ts)
    ensures SplitTags(Join(ts, ',')) == ts
  {
    if ts == [] {
      SplitTagsOne("");
    } else {
      SplitJoin(ts, ',');
      TidyWellFormed(ts);
    }
  }

  /** Splitting is idempotent: the tags, written back as a tag string, read
      as the same tags. */
  lemma SplitTagsIdempotent(s: string)
    ensures SplitTags(Join(SplitTags(s), ',')) == SplitTags(s)
  {
    SplitTagsJoin(SplitTags(s));
  }
}
