/** The query part of a URL as the server reads it: `new URL(url).searchParams`
    and `searchParams.get(name)`, after the application/x-www-form-urlencoded
    parser of the WHATWG URL standard; and the query strings the gallery page
    writes, `name=value` pairs joined with `&`. */
module QueryString {
  import opened Common
  import opened JsString
  import opened UriComponent

  /** The query of a URL: what follows the first `?`, up to the fragment. */
  function QueryOf(url: string): (q: string)
    ensures |q| <= |url|
    ensures '#' !in q
  {
    var beforeFragment := SplitOnce(url, '#').0;
    SplitOnce(beforeFragment, '?').1
  }

  /** `+` stands for a space in a form-encoded name or value. */
  function PlusToSpace(s: string): (r: string)
    ensures |r| == |s|
    ensures forall i :: 0 <= i < |s| ==> r[i] == if s[i] == '+' then ' ' else s[i]
  {
    if s == [] then [] else [if s[0] == '+' then ' ' else s[0]] + PlusToSpace(s[1..])
  }

  /** A form-encoded name or value, decoded. */
  function FormDecode(s: string): (r: string)
    ensures |r| <= |s|
    ensures '%' !in s ==> r == PlusToSpace(s)
  {
    var t := PlusToSpace(s);
    assert '%' !in s ==> '%' !in t;
    assert '%' !in t ==> Dec(t) == Some(t) by {
      if '%' !in t { DecWithoutPercent(t); }
    }
    match Dec(t)
    case Some(d) => d
    case None => t
  }

  /** A non-empty `&`-separated piece whose decoded name is `name`. */
  predicate Names(piece: string, name: string) {
    piece != [] && FormDecode(SplitOnce(piece, '=').0) == name
  }

  /** The value of the first non-empty `&`-separated piece whose name is
      `name`; a piece without `=` is a name with the empty value. */
  function FindIn(pieces: seq<string>, name: string): (r: Option<string>)
    ensures r.Some? <==> exists i :: 0 <= i < |pieces| && Names(pieces[i], name)
    decreases |pieces|
  {
    if pieces == [] then None
    else if pieces[0] == [] then FindIn(pieces[1..], name)
    else
      var (k, v) := SplitOnce(pieces[0], '=');
      if FormDecode(k) == name then Some(FormDecode(v)) else FindIn(pieces[1..], name)
  }

  /** `searchParams.get(name)` over the query `query`. */
  function QueryGet(query: string, name: string): (r: Option<string>)
    ensures r.Some? <==> exists piece :: piece in Split(query, '&') && Names(piece, name)
  {
    var pieces := Split(query, '&');
    assert forall piece :: piece in pieces <==> exists i :: 0 <= i < |pieces| && pieces[i] == piece;
    FindIn(pieces, name)
  }

  /** A name=value pair the gallery page writes into a query string. */
  datatype Param = Param(name: string, value: string)

  /** A name the page writes as is: unreserved characters only. */
  predicate PlainName(k: string) {
    forall i :: 0 <= i < |k| ==> Unreserved(k[i])
  }

  predicate PlainNames(ps: seq<Param>) {
    forall i :: 0 <= i < |ps| ==> PlainName(ps[i].name)
  }

  /** `name=encodeURIComponent(value)` */
  function RenderParam(p: Param): string {
    p.name + "=" + Enc(p.value)
  }

  /** The pairs joined with `&`. */
  function RenderQuery(ps: seq<Param>): string
    decreases |ps|
  {
    if ps == [] then ""
    else if |ps| == 1 then RenderParam(ps[0])
    else RenderParam(ps[0]) + "&" + RenderQuery(ps[1..])
  }

  /** The value of the first pair named `name`, read straight off the pairs. */
  function FirstValue(ps: seq<Param>, name: string): Option<string>
    decreases |ps|
  {
    if ps == [] then None
    else if ps[0].name == name then Some(ps[0].value)
    else FirstValue(ps[1..], name)
  }

  /** The query of `path?query#fragment` is `query`. */
  lemma QueryOfUrl(path: string, query: string, fragment: string)
    requires '?' !in path && '#' !in path && '#' !in query
    ensures QueryOf(path + "?" + query) == query
    ensures QueryOf(path + "?" + query + "#" + fragment) == query
  {
    assert '#' !in path + "?" + query;
    SplitOnceAt(path, '?', query);
    SplitOnceAt(path + "?" + query, '#', fragment);
  }

  /** The query of a URL whose path follows an origin. */
  lemma QueryOfAfterOrigin(origin: string, path: string, query: string)
    requires '?' !in origin && '#' !in origin && '?' !in path && '#' !in path && '#' !in query
    ensures QueryOf(origin + (path + "?" + query)) == query
  {
    var whole := origin + path;
    assert '?' !in whole && '#' !in whole;
    assert origin + (path + "?" + query) == whole + "?" + query;
    QueryOfUrl(whole, query, "");
  }

  /** A string without `+` is unchanged by `PlusToSpace`. */
  lemma PlusToSpaceNoPlus(s: string)
    requires '+' !in s
    ensures PlusToSpace(s) == s
  {
    var r := PlusToSpace(s);
    assert forall i :: 0 <= i < |s| ==> r[i] == s[i];
  }

  /** What `encodeURIComponent` writes is read back exactly. */
  lemma FormDecodeEnc(v: string)
    ensures FormDecode(Enc(v)) == v
  {
    var e := Enc(v);
    EncodedHasNoDelimiter(e);
    PlusToSpaceNoPlus(e);
    DecEnc(v);
  }

  /** A plain name reads as itself. */
  lemma FormDecodePlain(k: string)
    requires PlainName(k)
    ensures FormDecode(k) == k
  {
    PlusToSpaceNoPlus(k);
    DecWithoutPercent(k);
  }

  /** A rendered pair has no `&`, and reads back as its name and value. */
  lemma RenderParamReads(p: Param)
    requires PlainName(p.name)
    ensures '&' !in RenderParam(p)
    ensures RenderParam(p) != []
    ensures var (k, v) := SplitOnce(RenderParam(p), '=');
            FormDecode(k) == p.name && FormDecode(v) == p.value
  {
    var e := Enc(p.value);
    EncodedHasNoDelimiter(e);
    assert '=' !in p.name && '&' !in p.name;
    assert RenderParam(p) == p.name + ['='] + e;
    SplitOnceAt(p.name, '=', e);
    FormDecodePlain(p.name);
    FormDecodeEnc(p.value);
  }

  /** The pieces of a rendered query are the rendered pairs. */
  lemma {:induction false} SplitRenderQuery(ps: seq<Param>)
    requires |ps| >= 1 && PlainNames(ps)
    ensures |Split(RenderQuery(ps), '&')| == |ps|
    ensures forall i :: 0 <= i < |ps| ==> Split(RenderQuery(ps), '&')[i] == RenderParam(ps[i])
    decreases |ps|
  {
    RenderParamReads(ps[0]);
    SplitWithoutSeparator(RenderParam(ps[0]), '&');
    if |ps| > 1 {
      SplitRenderQuery(ps[1..]);
      SplitConcat(RenderParam(ps[0]), RenderQuery(ps[1..]), '&');
    }
  }

  lemma {:induction false} FindInRendered(ps: seq<Param>, pieces: seq<string>, name: string)
    requires PlainNames(ps)
    requires |pieces| == |ps|
    requires forall i :: 0 <= i < |ps| ==> pieces[i] == RenderParam(ps[i])
    ensures FindIn(pieces, name) == FirstValue(ps, name)
    decreases |ps|
  {
    if ps != [] {
      RenderParamReads(ps[0]);
      FindInRendered(ps[1..], pieces[1..], name);
    }
  }

  /** Reading a parameter back from a rendered query gives the value of the
      first pair with that name, for pairs with plain names. */
  lemma QueryGetRender(ps: seq<Param>, name: string)
    requires PlainNames(ps)
    ensures QueryGet(RenderQuery(ps), name) == FirstValue(ps, name)
  {
    if ps == [] {
      assert Split("", '&') == [""];
      assert [""][1..] == [];
    } else {
      SplitRenderQuery(ps);
      FindInRendered(ps, Split(RenderQuery(ps), '&'), name);
    }
  }

  /** A rendered query has no fragment mark in it. */
  lemma {:induction false} RenderQueryNoHash(ps: seq<Param>)
    requires PlainNames(ps)
    ensures '#' !in RenderQuery(ps)
    decreases |ps|
  {
    if ps != [] {
      EncodedHasNoDelimiter(Enc(ps[0].value));
      assert '#' !in ps[0].name;
      if |ps| > 1 {
        RenderQueryNoHash(ps[1..]);
      }
    }
  }
}
