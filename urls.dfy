/** The structured URI the request wrapper exposes, and the component split
    of section 3 of RFC 3986 that recovers path, query and fragment from a
    request target such as "/a/b?x=1&y#top". */
module Urls {
  import opened Results
  import opened Ascii

  /** A query parameter: a name and, when the parameter has an '=', a value. */
  datatype QueryParam = QueryParam(name: string, value: Option<string>)

  /** A URI compared field by field. An absent userinfo or fragment is "". */
  datatype Url = Url(
    scheme: string,
    userinfo: string,
    host: string,
    port: int,
    rooted: bool,
    path: seq<string>,
    query: seq<QueryParam>,
    fragment: string)

  /** The path, query and fragment carried by a request target. */
  datatype Target = Target(path: seq<string>, query: seq<QueryParam>, fragment: string)

  /** Splits at the first `sep`: the text before it and, if there is one,
      the text after it. */
  function SplitFirst(s: string, sep: char): (r: (string, Option<string>))
    ensures sep !in r.0
    ensures r.1.None? ==> r.0 == s
    ensures r.1.Some? ==> s == r.0 + [sep] + r.1.value
  {
    if s == [] then ([], None)
    else if s[0] == sep then ([], Some(s[1..]))
    else
      var (head, tail) := SplitFirst(s[1..], sep);
      ([s[0]] + head, tail)
  }

  /** Joins parts with `sep` between them. */
  function Join(parts: seq<string>, sep: char): string {
    if parts == [] then []
    else if |parts| == 1 then parts[0]
    else parts[0] + [sep] + Join(parts[1..], sep)
  }

  /** Splits at every `sep`, as Python's `str.split(sep)`: there is always
      at least one part, no part contains `sep`, and joining the parts
      gives the text back. */
  function Split(s: string, sep: char): (parts: seq<string>)
    ensures |parts| >= 1
    ensures forall i :: 0 <= i < |parts| ==> sep !in parts[i]
    ensures Join(parts, sep) == s
    decreases |s|
  {
    match SplitFirst(s, sep)
    case (head, None) => [head]
    case (head, Some(tail)) => [head] + Split(tail, sep)
  }

  /** The text before the first `sep` is determined by that `sep`. */
  lemma {:induction false} SplitFirstAt(a: string, sep: char, b: Option<string>)
    requires sep !in a
    ensures SplitFirst(a + (if b.Some? then [sep] + b.value else []), sep) == (a, b)
  {
    var s := a + (if b.Some? then [sep] + b.value else []);
    if a != [] {
      assert s[1..] == a[1..] + (if b.Some? then [sep] + b.value else []);
      SplitFirstAt(a[1..], sep, b);
      assert s[0] == a[0] && [a[0]] + a[1..] == a;
    } else if b.Some? {
      assert s[1..] == b.value;
    }
  }

  /** A character that is neither the separator nor in any part is not in
      their join. */
  lemma {:induction false} JoinAvoids(parts: seq<string>, sep: char, c: char)
    requires c != sep
    requires forall i :: 0 <= i < |parts| ==> c !in parts[i]
    ensures c !in Join(parts, sep)
  {
    if |parts| > 1 {
      JoinAvoids(parts[1..], sep, c);
    }
  }

  /** Joining parts of ASCII text gives ASCII text. */
  lemma {:induction false} JoinAscii(parts: seq<string>, sep: char)
    requires sep as int < 128
    requires forall i :: 0 <= i < |parts| ==> IsAsciiText(parts[i])
    ensures IsAsciiText(Join(parts, sep))
  {
    if |parts| > 1 {
      JoinAscii(parts[1..], sep);
    }
  }

  /** Splitting undoes joining when no part contains the separator. */
  lemma {:induction false} SplitJoin(parts: seq<string>, sep: char)
    requires |parts| >= 1
    requires forall i :: 0 <= i < |parts| ==> sep !in parts[i]
    ensures Split(Join(parts, sep), sep) == parts
  {
    if |parts| == 1 {
      SplitFirstAt(parts[0], sep, None);
    } else {
      var rest := Join(parts[1..], sep);
      SplitFirstAt(parts[0], sep, Some(rest));
      SplitJoin(parts[1..], sep);
    }
  }

  function ParseParam(p: string): QueryParam {
    var (name, value) := SplitFirst(p, '=');
    QueryParam(name, value)
  }

  function RenderParam(q: QueryParam): string {
    match q.value
    case None => q.name
    case Some(v) => q.name + "=" + v
  }

  /** Query text split into parameters at '&', each at its first '=';
      empty query text has no parameters. */
  function ParseQuery(q: string): (query: seq<QueryParam>)
    ensures q == "" ==> query == []
  {
    if q == "" then []
    else
      var parts := Split(q, '&');
      seq(|parts|, i requires 0 <= i < |parts| => ParseParam(parts[i]))
  }

  function RenderQuery(query: seq<QueryParam>): string {
    Join(seq(|query|, i requires 0 <= i < |query| => RenderParam(query[i])), '&')
  }

  /** Reads path, query and fragment out of a request target. The fragment
      is everything after the first '#', the query everything between the
      first '?' before it and the fragment (an empty query has no
      parameters), and one leading '/' of the path
      is dropped before the path is split into segments at '/'. */
  function ParseTarget(t: string): (r: Target)
    ensures |r.path| >= 1
    ensures forall i :: 0 <= i < |r.path| ==> '/' !in r.path[i]
  {
    var (beforeFragment, fragment) := SplitFirst(t, '#');
    var (beforeQuery, query) := SplitFirst(beforeFragment, '?');
    var relative := if |beforeQuery| > 0 && beforeQuery[0] == '/' then beforeQuery[1..] else beforeQuery;
    Target(
      Split(relative, '/'),
      match query { case None => [] case Some(q) => ParseQuery(q) },
      fragment.GetOr(""))
  }

  /** The request target a client sends for a URI: its rooted path, then
      "?" and the query when there is one, then "#" and the fragment when
      there is one. */
  function RenderTarget(u: Url): string {
    "/" + Join(u.path, '/')
    + (if u.query == [] then "" else "?" + RenderQuery(u.query))
    + (if u.fragment == "" then "" else "#" + u.fragment)
  }

  predicate ParamWellFormed(q: QueryParam) {
    && IsAsciiText(q.name)
    && '&' !in q.name && '=' !in q.name && '#' !in q.name
    && (q.value.Some? ==> IsAsciiText(q.value.value) && '&' !in q.value.value && '#' !in q.value.value)
  }

  /** The URIs a plain HTTP request can carry: scheme http or https, no
      userinfo, an ASCII host, a rooted path of at least one segment, and
      delimiters appearing only where they delimit (percent-encoding of
      other occurrences is not part of this model). */
  predicate WellFormed(u: Url) {
    && (u.scheme == "http" || u.scheme == "https")
    && u.userinfo == ""
    && u.rooted
    && IsAsciiText(u.host)
    && |u.path| >= 1
    && (forall i :: 0 <= i < |u.path| ==>
          IsAsciiText(u.path[i]) && '/' !in u.path[i] && '?' !in u.path[i] && '#' !in u.path[i])
    && (forall i :: 0 <= i < |u.query| ==> ParamWellFormed(u.query[i]))
    && u.query != [QueryParam("", None)]
    && IsAsciiText(u.fragment)
  }

  lemma ParseRenderParam(q: QueryParam)
    requires '=' !in q.name
    ensures ParseParam(RenderParam(q)) == q
  {
    SplitFirstAt(q.name, '=', q.value);
  }

  /** Parsing a rendered query gives the parameters back. The one query
      that renders as empty text, a single parameter with empty name and no
      value, is excluded: empty query text parses as no parameters. */
  lemma ParseRenderQuery(query: seq<QueryParam>)
    requires |query| >= 1 && query != [QueryParam("", None)]
    requires forall i :: 0 <= i < |query| ==> ParamWellFormed(query[i])
    ensures ParseQuery(RenderQuery(query)) == query
    ensures '#' !in RenderQuery(query)
  {
    var rendered := seq(|query|, i requires 0 <= i < |query| => RenderParam(query[i]));
    forall i | 0 <= i < |query|
      ensures '&' !in rendered[i] && '#' !in rendered[i]
      ensures ParseParam(rendered[i]) == query[i]
    {
      ParseRenderParam(query[i]);
    }
    SplitJoin(rendered, '&');
    JoinAvoids(rendered, '&', '#');
    if |query| == 1 {
      assert RenderQuery(query) == rendered[0];
      assert query[0].name != "" || query[0].value.Some?;
      assert rendered[0] != "";
    } else {
      assert RenderQuery(query) == rendered[0] + ['&'] + Join(rendered[1..], '&');
    }
  }

  lemma RenderQueryAscii(query: seq<QueryParam>)
    requires forall i :: 0 <= i < |query| ==> ParamWellFormed(query[i])
    ensures IsAsciiText(RenderQuery(query))
  {
    var rendered := seq(|query|, i requires 0 <= i < |query| => RenderParam(query[i]));
    JoinAscii(rendered, '&');
  }

  /** A well-formed URI's request target is ASCII text. */
  lemma RenderTargetAscii(u: Url)
    requires WellFormed(u)
    ensures IsAsciiText(RenderTarget(u))
  {
    JoinAscii(u.path, '/');
    RenderQueryAscii(u.query);
  }

  /** Parsing the target rendered from a well-formed URI recovers its path,
      query and fragment exactly. */
  lemma ParseRenderTarget(u: Url)
    requires WellFormed(u)
    ensures ParseTarget(RenderTarget(u)) == Target(u.path, u.query, u.fragment)
  {
    var joined := Join(u.path, '/');
    JoinAvoids(u.path, '/', '?');
    JoinAvoids(u.path, '/', '#');
    var queryPart := if u.query == [] then "" else "?" + RenderQuery(u.query);
    var beforeFragment := "/" + joined + queryPart;
    if u.query != [] {
      ParseRenderQuery(u.query);
    }
    assert '#' !in beforeFragment;
    SplitFirstAt(beforeFragment, '#', if u.fragment == "" then None else Some(u.fragment));
    assert RenderTarget(u) == beforeFragment + (if u.fragment == "" then [] else ['#'] + u.fragment);
    SplitFirstAt("/" + joined, '?', if u.query == [] then None else Some(RenderQuery(u.query)));
    assert beforeFragment == "/" + joined + (if u.query == [] then [] else ['?'] + RenderQuery(u.query));
    assert ("/" + joined)[1..] == joined;
    SplitJoin(u.path, '/');
  }
}
