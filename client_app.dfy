/** The browser script shared by every page (src/public/js/app.js): the
    message shown for a failed API call, the query string of an advanced
    search, and the search box. `encodeURIComponent` is the parameter `enc`. */
module ClientApp {
  import opened Common
  import opened Text

  // ---------------------------------------------------------------------
  // handleApiError
  // ---------------------------------------------------------------------

  /** What the page does about a failed call: leave for the sign-in page, or
      show a 'danger' notification with a message. */
  datatype ClientAction = Redirect(url: string) | Notify(message: string)

  /** Lines 53-93. */
  function HandleApiError(e: Error): (r: ClientAction)
    ensures r.Redirect? <==> e.response.Some? && e.response.value.status == 401
    ensures r.Redirect? ==> r.url == "/auth"
    ensures r.Notify? ==> r.message != ""
    ensures e.response.Some? ==>
              var st := e.response.value.status;
              && (st == 404 ==> r == Notify("The requested resource was not found"))
              && (st == 500 ==> r == Notify("Server error. Please try again later"))
              && (st == 555 ==> r == Notify("The API is temporarily unavailable. Please try again"))
              && (st !in {401, 404, 500, 555} ==> r == Notify(StringOr(e.response.value.message, "Error: " + IntToString(st))))
    ensures e.response.None? && e.requestSent ==>
              r == Notify("No response received from server. Please check your connection")
    ensures e.response.None? && !e.requestSent ==>
              r == Notify(StringOr(e.message, "Request failed. Please try again"))
  {
    match e.response
    case Some(resp) =>
      var fromServer := StringOr(resp.message, "Error: " + IntToString(resp.status));
      if resp.status == 401 then Redirect("/auth")
      else if resp.status == 404 then Notify("The requested resource was not found")
      else if resp.status == 500 then Notify("Server error. Please try again later")
      else if resp.status == 555 then Notify("The API is temporarily unavailable. Please try again")
      else Notify(fromServer)
    case None =>
      if e.requestSent then Notify("No response received from server. Please check your connection")
      else Notify(StringOr(e.message, "Request failed. Please try again"))
  }

  // ---------------------------------------------------------------------
  // searchFiles
  // ---------------------------------------------------------------------

  /** One search parameter, in the key order of the parameter object. */
  datatype Param = Param(key: string, value: string)

  /** `.filter(key => searchParams[key])`: the parameters with a truthy value, in order. */
  function Kept(params: seq<Param>): (r: seq<Param>)
    ensures forall p :: p in r <==> p in params && p.value != ""
    ensures |r| <= |params|
  {
    if params == [] then []
    else if params[0].value != "" then [params[0]] + Kept(params[1..])
    else Kept(params[1..])
  }

  /** The filter keeps the key order and every duplicate: filtering a
      concatenation is concatenating the filtered parts, and a single
      parameter is kept exactly when its value is truthy. */
  lemma {:induction false} KeptConcat(a: seq<Param>, b: seq<Param>)
    ensures Kept(a + b) == Kept(a) + Kept(b)
  {
    if a == [] {
      assert a + b == b;
    } else {
      assert (a + b)[0] == a[0] && (a + b)[1..] == a[1..] + b;
      KeptConcat(a[1..], b);
    }
  }

  lemma KeptSingle(p: Param)
    ensures Kept([p]) == if p.value != "" then [p] else []
  {
    assert [p][1..] == [];
  }

  /** `.map(key => enc(key) + '=' + enc(value))` */
  function Pairs(params: seq<Param>, enc: string -> string): (r: seq<string>)
    ensures |r| == |params|
    ensures forall i :: 0 <= i < |params| ==> r[i] == enc(params[i].key) + "=" + enc(params[i].value)
  {
    if params == [] then [] else [enc(params[0].key) + "=" + enc(params[0].value)] + Pairs(params[1..], enc)
  }

  /** Lines 129-132. */
  function QueryString(params: seq<Param>, enc: string -> string): string
  {
    Join(Pairs(Kept(params), enc), '&')
  }

  /** An encoder that, like `encodeURIComponent`, never lets '&' or '=' through. */
  ghost predicate EscapesDelimiters(enc: string -> string)
  {
    forall s :: '&' !in enc(s) && '=' !in enc(s)
  }

  /** The query string is read back into the kept parameters: split at '&' it
      gives one `key=value` piece per parameter with a truthy value, in order,
      and each piece splits at '=' into the encoded key and value. */
  lemma QueryStringDecodes(params: seq<Param>, enc: string -> string)
    requires EscapesDelimiters(enc)
    ensures Kept(params) == [] ==> QueryString(params, enc) == ""
    ensures Kept(params) != [] ==> Split(QueryString(params, enc), '&') == Pairs(Kept(params), enc)
    ensures forall i :: 0 <= i < |Kept(params)| ==>
              Split(Pairs(Kept(params), enc)[i], '=') == [enc(Kept(params)[i].key), enc(Kept(params)[i].value)]
  {
    var kept := Kept(params);
    var pairs := Pairs(kept, enc);
    if kept != [] {
      assert NoSeparator(pairs, '&') by {
        forall i | 0 <= i < |pairs| ensures '&' !in pairs[i] {
          var a, b := enc(kept[i].key), enc(kept[i].value);
          assert pairs[i] == a + "=" + b;
          assert '&' !in a && '&' !in b;
        }
      }
      SplitJoin(pairs, '&');
    }
    forall i | 0 <= i < |kept| ensures Split(pairs[i], '=') == [enc(kept[i].key), enc(kept[i].value)] {
      var a, b := enc(kept[i].key), enc(kept[i].value);
      var two := [a, b];
      assert two[1..] == [b];
      assert Join(two, '=') == a + "=" + b;
      assert NoSeparator(two, '=');
      SplitJoin(two, '=');
    }
  }

  /** What `fetch('/api/search?' + query)` resolved to: the `ok` flag and the
      outcome of `response.json()`, whose `results` may be missing. */
  datatype SearchResponse = SearchResponse(ok: bool, body: Outcome<Option<Json>>)

  /** `searchFiles`, lines 126-147: the results, or `[]` with a notification. */
  function SearchFiles(response: Outcome<SearchResponse>): (r: (Json, Option<string>))
    ensures r.1.None? <==> response.Ok? && response.value.ok && response.value.body.Ok?
    ensures r.1.None? ==> r.0 == (if PresentJson(response.value.body.value) then response.value.body.value.value else JArr([]))
    ensures r.1.Some? ==> r.0 == JArr([])
    ensures response.Ok? && !response.value.ok ==> r.1 == Some("Search failed: Search failed")
  {
    match response
    case Fail(e) => (JArr([]), Some("Search failed: " + (if e.message.Some? then e.message.value else "undefined")))
    case Ok(resp) =>
      if !resp.ok then (JArr([]), Some("Search failed: Search failed"))
      else
        match resp.body
        case Fail(e) => (JArr([]), Some("Search failed: " + (if e.message.Some? then e.message.value else "undefined")))
        case Ok(results) => (if PresentJson(results) then results.value else JArr([]), None)
  }

  // ---------------------------------------------------------------------
  // handleSearch
  // ---------------------------------------------------------------------

  /** The white space and line terminators `String.prototype.trim` removes
      (sections 12.2 and 12.3 of the ECMAScript Language Specification). */
  predicate IsJsSpace(c: char)
  {
    || c == '\t' || c == '\U{000B}' || c == '\U{000C}' || c == ' ' || c == '\U{00A0}' || c == '\U{FEFF}'
    || c == '\n' || c == '\r' || c == '\U{2028}' || c == '\U{2029}'
    || c == '\U{1680}' || ('\U{2000}' <= c <= '\U{200A}') || c == '\U{202F}' || c == '\U{205F}' || c == '\U{3000}'
  }

  /** `trimStart`: the suffix left after the leading white space. */
  function TrimStart(s: string): (r: string)
    ensures |r| <= |s| && r == s[|s| - |r|..]
    ensures forall i :: 0 <= i < |s| - |r| ==> IsJsSpace(s[i])
    ensures r != [] ==> !IsJsSpace(r[0])
  {
    if s != [] && IsJsSpace(s[0]) then TrimStart(s[1..]) else s
  }

  /** `trimEnd`: the prefix left before the trailing white space. */
  function TrimEnd(s: string): (r: string)
    ensures |r| <= |s| && r == s[..|r|]
    ensures forall i :: |r| <= i < |s| ==> IsJsSpace(s[i])
    ensures r != [] ==> !IsJsSpace(r[|r| - 1])
  {
    if s != [] && IsJsSpace(s[|s| - 1]) then TrimEnd(s[..|s| - 1]) else s
  }

  /** `s.trim()` */
  function Trim(s: string): string
  {
    TrimEnd(TrimStart(s))
  }

  /** Where the trimmed text of `s` starts. */
  function TrimOffset(s: string): (lo: nat)
    ensures lo <= |s|
  {
    |s| - |TrimStart(s)|
  }

  /** A prefix of a suffix of `s` is a slice of `s`. */
  lemma PrefixOfSuffix<T>(s: seq<T>, t: seq<T>, r: seq<T>, lo: nat)
    requires lo <= |s| && t == s[lo..]
    requires |r| <= |t| && r == t[..|r|]
    ensures lo + |r| <= |s| && r == s[lo..lo + |r|]
  {
  }

  /** Index `i` of `s` is index `i - lo` of the suffix `s[lo..]`. */
  lemma SuffixIndex<T>(s: seq<T>, t: seq<T>, lo: nat, i: int)
    requires lo <= i < |s| && t == s[lo..]
    ensures s[i] == t[i - lo]
  {
  }

  /** The trimmed text is the slice of `s` that starts at `TrimOffset(s)`. */
  lemma TrimSlice(s: string)
    ensures TrimOffset(s) + |Trim(s)| <= |s|
    ensures Trim(s) == s[TrimOffset(s)..TrimOffset(s) + |Trim(s)|]
  {
    PrefixOfSuffix(s, TrimStart(s), Trim(s), TrimOffset(s));
  }

  /** After the trimmed text `s` holds only white space. */
  lemma TrimTrailing(s: string)
    requires TrimOffset(s) + |Trim(s)| <= |s|
    ensures forall i :: TrimOffset(s) + |Trim(s)| <= i < |s| ==> IsJsSpace(s[i])
  {
    var t := TrimStart(s);
    var lo := TrimOffset(s);
    forall i | lo + |Trim(s)| <= i < |s| ensures IsJsSpace(s[i]) {
      SuffixIndex(s, t, lo, i);
    }
  }

  /** The trimmed text begins and ends with characters other than white space. */
  lemma TrimEnds(s: string)
    ensures Trim(s) != [] ==> !IsJsSpace(Trim(s)[0]) && !IsJsSpace(Trim(s)[|Trim(s)| - 1])
  {
    var t := TrimStart(s);
    var r := TrimEnd(t);
    if r != [] {
      assert r[0] == t[0];
    }
  }

  /** The trimmed text is the part of `s` between its leading and its
      trailing white space, and begins and ends with other characters. */
  lemma TrimIsMiddle(s: string)
    ensures TrimOffset(s) + |Trim(s)| <= |s|
    ensures Trim(s) == s[TrimOffset(s)..TrimOffset(s) + |Trim(s)|]
    ensures forall i :: 0 <= i < TrimOffset(s) ==> IsJsSpace(s[i])
    ensures forall i :: TrimOffset(s) + |Trim(s)| <= i < |s| ==> IsJsSpace(s[i])
    ensures Trim(s) != [] ==> !IsJsSpace(Trim(s)[0]) && !IsJsSpace(Trim(s)[|Trim(s)| - 1])
  {
    TrimSlice(s);
    TrimTrailing(s);
    TrimEnds(s);
  }

  /** The trimmed text is empty exactly when `s` holds nothing but white space. */
  lemma TrimEmptyIffBlank(s: string)
    ensures Trim(s) != [] <==> exists i :: 0 <= i < |s| && !IsJsSpace(s[i])
  {
    TrimIsMiddle(s);
    var r := Trim(s);
    var lo := TrimOffset(s);
    if r != [] {
      assert s[lo] == r[0];
    } else {
      forall i | 0 <= i < |s| ensures IsJsSpace(s[i]) {
        if i >= lo {
          assert lo + |r| <= i;
        }
      }
    }
  }

  /** `handleSearch`, lines 179-185: the address the page goes to, if any. */
  function HandleSearch(input: string, enc: string -> string): (r: Option<string>)
    ensures r.Some? <==> exists i :: 0 <= i < |input| && !IsJsSpace(input[i])
    ensures r.Some? ==> r.value == "/explorer?search=" + enc(Trim(input))
  {
    TrimEmptyIffBlank(input);
    var query := Trim(input);
    if query != [] then Some("/explorer?search=" + enc(query)) else None
  }
}
