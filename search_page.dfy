/** The search page of `client/src/pages/search.tsx`: the state read from the
    URL's search parameters, the typing/debounce flags, the rule that enables
    the query, the effect that writes the state back to the URL, the tab and
    "No results found" rules, and the API request's query string. */
module SearchPage {
  import opened Wrappers
  import JsString
  import UriEncoding
  import Utils

  /** The URL's search parameters, by name. */
  type Params = map<string, string>

  /** `searchParams.get(key) || ""`. */
  function Param(params: Params, key: string): (r: string)
    ensures r == "" <==> key !in params || params[key] == ""
  {
    if key in params then params[key] else ""
  }

  /** `get("categories") ? get("categories").split(",") : []`. */
  function ParseCategories(params: Params): (r: seq<string>)
    ensures Param(params, "categories") == "" ==> r == []
    ensures Param(params, "categories") != "" ==>
      |r| >= 1 && JsString.FreeOf(r, ',') && JsString.Join(r, ',') == params["categories"]
    ensures Listable(r)
  {
    var raw := Param(params, "categories");
    if raw == "" then [] else JsString.JoinSplit(raw, ','); JsString.Split(raw, ',')
  }

  const MostRelevant := "most_relevant"
  const Newest := "newest"
  const Oldest := "oldest"

  /** `get("type") || "most_relevant"`: any non-empty value is taken as is. */
  function ParseType(params: Params): (r: string)
    ensures r != ""
    ensures Param(params, "type") == "" ==> r == MostRelevant
    ensures Param(params, "type") != "" ==> r == params["type"]
  {
    var raw := Param(params, "type");
    if raw == "" then MostRelevant else raw
  }

  /** A list that a comma-separated parameter can carry: no piece holds a
      comma, and it is not the single empty name (which joins to "" and is
      then dropped). Every list `ParseCategories` gives is one. */
  predicate Listable(categories: seq<string>)
  {
    JsString.FreeOf(categories, ',') && categories != [""]
  }

  /** The object the effect hands to `setSearchParams`. */
  function SyncedParams(q: string, categories: seq<string>, searchType: string): (r: Params)
    ensures ("q" in r <==> q != "") && ("categories" in r <==> |categories| > 0)
    ensures ("type" in r <==> searchType != "") && r.Keys <= {"q", "categories", "type"}
  {
    var withQ: Params := if q != "" then map["q" := q] else map[];
    var withCategories := if |categories| > 0 then withQ["categories" := JsString.Join(categories, ',')] else withQ;
    if searchType != "" then withCategories["type" := searchType] else withCategories
  }

  /** `q` is written only when non-empty, `categories` only when some are
      chosen, and `type` whenever it is set, which it always is. */
  lemma SyncedParamsKeys(q: string, categories: seq<string>, searchType: string)
    requires searchType != ""
    ensures var p := SyncedParams(q, categories, searchType);
      && ("q" in p <==> q != "") && ("categories" in p <==> |categories| > 0)
      && "type" in p && p.Keys <= {"q", "categories", "type"}
  {
  }

  /** The page reloaded from the URL the effect wrote has the same query,
      categories and type, for any categories without commas (all of
      `CATEGORIES` qualify). */
  lemma SyncedParamsRoundTrip(q: string, categories: seq<string>, searchType: string)
    requires searchType != ""
    requires Listable(categories)
    ensures var p := SyncedParams(q, categories, searchType);
      && Param(p, "q") == q && ParseCategories(p) == categories && ParseType(p) == searchType
  {
    var p := SyncedParams(q, categories, searchType);
    if |categories| > 0 {
      JsString.SplitJoin(categories, ',');
      assert JsString.Join(categories, ',') != "" by {
        if |categories| == 1 {
          assert categories == [categories[0]];
        }
      }
      assert p["categories"] == JsString.Join(categories, ',');
    }
  }

  /** `enabled: !!q || categories.length > 0`. */
  predicate QueryEnabled(q: string, categories: seq<string>)
    ensures QueryEnabled(q, categories) <==> SyncedParams(q, categories, MostRelevant).Keys != {"type"}
  {
    q != "" || |categories| > 0
  }

  /** `disabled={!q && categories.length > 1}` on the "Most Relevant" tab. */
  predicate MostRelevantDisabled(q: string, categories: seq<string>)
    ensures MostRelevantDisabled(q, categories) ==> QueryEnabled(q, categories) && "q" !in SyncedParams(q, categories, Newest)
  {
    q == "" && |categories| > 1
  }

  /** The type after the effect: `"newest"` when there is no query but some
      category is chosen. */
  function NextType(q: string, categories: seq<string>, searchType: string): (r: string)
    ensures r == Newest || r == searchType
    ensures q != "" || |categories| == 0 ==> r == searchType
    ensures r != searchType ==> QueryEnabled(q, categories)
  {
    if q == "" && |categories| > 0 then Newest else searchType
  }

  /** The effect reaches a fixed point: once it has run, running it again
      (as React does when `type` changed) changes the type no further, and
      whenever the "Most Relevant" tab is disabled the effect has moved the
      page off that tab, while the query stays enabled. */
  lemma EffectSettles(q: string, categories: seq<string>, searchType: string)
    ensures NextType(q, categories, NextType(q, categories, searchType)) == NextType(q, categories, searchType)
    ensures MostRelevantDisabled(q, categories) ==>
      NextType(q, categories, searchType) == Newest && QueryEnabled(q, categories)
    ensures NextType(q, categories, searchType) != searchType ==> QueryEnabled(q, categories)
  {
  }

  /** `data`: the number of results on each fetched page, if any. */
  predicate FirstPageEmpty(data: Option<seq<nat>>)
  {
    data.None? || |data.value| == 0 || data.value[0] == 0
  }

  /** The condition under which "No results found" is rendered. */
  predicate NoResultsShown(isLoading: bool, data: Option<seq<nat>>, inputValue: string, isTyping: bool, isError: bool)
    ensures NoResultsShown(isLoading, data, inputValue, isTyping, isError) ==>
      inputValue != "" && !(data.Some? && |data.value| > 0 && data.value[0] > 0)
  {
    !isLoading && FirstPageEmpty(data) && inputValue != "" && !isTyping && !isError
  }

  /** Any selection drawn from `CATEGORIES` (such as the category page
      keeps) survives being written to the URL and read back. */
  lemma CategoriesRoundTrip(q: string, chosen: seq<string>, searchType: string)
    requires searchType != ""
    requires forall i :: 0 <= i < |chosen| ==> chosen[i] in Utils.Categories
    ensures ParseCategories(SyncedParams(q, chosen, searchType)) == chosen
  {
    Utils.CategoriesCommaFree();
    forall i | 0 <= i < |chosen| ensures Utils.ListItem(chosen[i]) {
      var j :| 0 <= j < |Utils.Categories| && Utils.Categories[j] == chosen[i];
    }
    assert |chosen| == 1 ==> chosen[0] != "" by {
      if |chosen| == 1 {
        assert Utils.ListItem(chosen[0]);
      }
    }
    SyncedParamsRoundTrip(q, chosen, searchType);
  }

  /** "No results found" needs typed text: a search by categories alone that
      finds nothing shows no message, and neither does a page still typing,
      loading or failed, nor one whose first page has results. */
  lemma NoResultsNeedsInput(isLoading: bool, data: Option<seq<nat>>, inputValue: string, isTyping: bool, isError: bool)
    ensures inputValue == "" ==> !NoResultsShown(isLoading, data, inputValue, isTyping, isError)
    ensures isTyping || isLoading || isError ==> !NoResultsShown(isLoading, data, inputValue, isTyping, isError)
    ensures data.Some? && |data.value| > 0 && data.value[0] > 0 ==>
      !NoResultsShown(isLoading, data, inputValue, isTyping, isError)
    ensures inputValue != "" && !isTyping && !isLoading && !isError && (data.None? || data.value == []) ==>
      NoResultsShown(isLoading, data, inputValue, isTyping, isError)
  {
  }

  /** The three tabs. */
  datatype Tab = MostRelevantTab | NewestTab | OldestTab

  function TabType(t: Tab): string
  {
    match t
    case MostRelevantTab => MostRelevant
    case NewestTab => Newest
    case OldestTab => Oldest
  }

  class SearchPage {
    var inputValue: string
    var isTyping: bool
    var q: string
    var categories: seq<string>
    var searchType: string
    /** The URL's search parameters, as last written by the effect. */
    var params: Params

    /** The type is never empty, so the effect always writes it. */
    predicate Valid()
      reads this
    {
      searchType != ""
    }

    /** The initial state, read from the URL's search parameters. */
    constructor (url: Params)
      ensures Valid()
      ensures inputValue == Param(url, "q") && q == Param(url, "q") && !isTyping
      ensures categories == ParseCategories(url) && searchType == ParseType(url) && params == url
    {
      inputValue := Param(url, "q");
      isTyping := false;
      q := Param(url, "q");
      categories := ParseCategories(url);
      searchType := ParseType(url);
      params := url;
    }

    /** `handleInputChange`: the input shows the text at once and the page is
        typing until the debounced update fires. */
    method HandleInputChange(value: string)
      requires Valid()
      modifies this
      ensures Valid()
      ensures inputValue == value && isTyping
      ensures q == old(q) && categories == old(categories) && searchType == old(searchType) && params == old(params)
    {
      isTyping := true;
      inputValue := value;
    }

    /** The debounced callback when its timer fires: the query catches up with
        the input and typing ends. */
    method DebouncedSetQuery(value: string)
      requires Valid()
      modifies this
      ensures Valid()
      ensures q == value && !isTyping
      ensures inputValue == old(inputValue) && categories == old(categories)
      ensures searchType == old(searchType) && params == old(params)
    {
      q := value;
      isTyping := false;
    }

    /** `setCategories` from the category selector. */
    method SetCategories(chosen: seq<string>)
      requires Valid()
      modifies this
      ensures Valid()
      ensures categories == chosen
      ensures inputValue == old(inputValue) && isTyping == old(isTyping) && q == old(q)
      ensures searchType == old(searchType) && params == old(params)
    {
      categories := chosen;
    }

    /** A click on a tab; a disabled tab ignores it. */
    method ClickTab(t: Tab)
      requires Valid()
      modifies this
      ensures Valid()
      ensures searchType == if t == MostRelevantTab && MostRelevantDisabled(q, categories) then old(searchType) else TabType(t)
      ensures inputValue == old(inputValue) && isTyping == old(isTyping) && q == old(q)
      ensures categories == old(categories) && params == old(params)
    {
      if t == MostRelevantTab && MostRelevantDisabled(q, categories) {
        return;
      }
      searchType := TabType(t);
    }

    /** The `useEffect` on `[q, categories, type]`: write the state to the URL,
        then force "newest" when only categories are searched. */
    method SyncEffect()
      requires Valid()
      modifies this
      ensures Valid()
      ensures params == SyncedParams(q, categories, old(searchType))
      ensures searchType == NextType(q, categories, old(searchType))
      ensures inputValue == old(inputValue) && isTyping == old(isTyping) && q == old(q) && categories == old(categories)
    {
      params := SyncedParams(q, categories, searchType);
      if q == "" && |categories| > 0 {
        searchType := Newest;
      }
    }
  }

  /** After the text typed last has been taken up by the debounced update and
      the effect has run twice, the URL holds exactly the page's query,
      categories and type. */
  method TypeAndSettle(page: SearchPage, text: string)
    requires page.Valid()
    requires Listable(page.categories)
    modifies page
    ensures page.Valid() && page.q == text && page.inputValue == text && !page.isTyping
    ensures Param(page.params, "q") == text
    ensures ParseCategories(page.params) == page.categories && ParseType(page.params) == page.searchType
  {
    page.HandleInputChange(text);
    page.DebouncedSetQuery(text);
    page.SyncEffect();
    page.SyncEffect();
    EffectSettles(page.q, page.categories, old(page.searchType));
    SyncedParamsRoundTrip(page.q, page.categories, page.searchType);
  }

  // ------------------------------------------------------------ API request

  /** `pageParam` written in decimal. */
  function DecimalString(n: nat): (s: string)
    ensures s != [] && forall i :: 0 <= i < |s| ==> '0' <= s[i] <= '9'
  {
    var d := ('0' as int + n % 10) as char;
    if n < 10 then [d] else DecimalString(n / 10) + [d]
  }

  /** The parameters of the request `/api/blogs/search?...`, in order. */
  function RequestParams(q: string, searchType: string, categories: seq<string>, page: nat): seq<(string, string)>
  {
    [("q", q), ("type", searchType), ("categories", JsString.Join(categories, ',')), ("page", DecimalString(page))]
  }

  /** `name=value` for each parameter. */
  function Pieces(params: seq<(string, string)>): (r: seq<string>)
    ensures |r| == |params|
  {
    seq(|params|, i requires 0 <= i < |params| => params[i].0 + "=" + params[i].1)
  }

  /** The pieces joined by `&`. */
  function QueryString(params: seq<(string, string)>): string
  {
    JsString.Join(Pieces(params), '&')
  }

  /** Every value passed through `encodeURIComponent`. */
  function EncodeValues(params: seq<(string, string)>): (r: seq<(string, string)>)
    ensures |r| == |params|
  {
    seq(|params|, i requires 0 <= i < |params| => (params[i].0, UriEncoding.Encode(params[i].1)))
  }

  /** The query string as the page builds it: the values are interpolated
      into the template without encoding. */
  function QueryAsWritten(q: string, searchType: string, categories: seq<string>, page: nat): (r: string)
    ensures JsString.Count(r, '&') >= 3
  {
    var pieces := Pieces(RequestParams(q, searchType, categories, page));
    JsString.CountJoin(pieces, '&', '&', 0);
    QueryString(RequestParams(q, searchType, categories, page))
  }

  /** The query string with every value encoded. */
  function Query(q: string, searchType: string, categories: seq<string>, page: nat): (r: string)
    ensures JsString.Count(r, '&') == 3
  {
    EncodedQueryRoundTrip(RequestParams(q, searchType, categories, page));
    QueryString(EncodeValues(RequestParams(q, searchType, categories, page)))
  }

  /** How a server reads one `name=value` piece: split at the first `=`,
      the value percent-decoded. */
  function QueryParam(piece: string): (string, Option<string>)
  {
    var parts := JsString.Split(piece, '=');
    (parts[0], UriEncoding.Decode(JsString.Join(parts[1..], '=')))
  }

  /** How a server reads a query string: `&`-separated pieces. */
  function ParseQuery(query: string): (r: seq<(string, Option<string>)>)
    ensures |r| == JsString.Count(query, '&') + 1
  {
    var pieces := JsString.Split(query, '&');
    seq(|pieces|, i requires 0 <= i < |pieces| => QueryParam(pieces[i]))
  }

  lemma QueryParamOf(name: string, value: string)
    requires '=' !in name && '=' !in value
    ensures QueryParam(name + "=" + value) == (name, UriEncoding.Decode(value))
  {
    var parts := [name, value];
    JsString.JoinCons(name, [value], '=');
    assert JsString.Join(parts, '=') == name + "=" + value;
    JsString.SplitJoin(parts, '=');
    assert parts[1..] == [value];
  }

  /** Names and values that hold neither `&` nor `=`. */
  predicate Plain(params: seq<(string, string)>)
  {
    forall i :: 0 <= i < |params| ==>
      '&' !in params[i].0 && '=' !in params[i].0 && '&' !in params[i].1 && '=' !in params[i].1
  }

  /** A server reads back every parameter of a query string built from plain
      names and values, decoding each value. */
  lemma ParseQueryString(params: seq<(string, string)>)
    requires |params| >= 1 && Plain(params)
    ensures ParseQuery(QueryString(params)) ==
      seq(|params|, i requires 0 <= i < |params| => (params[i].0, UriEncoding.Decode(params[i].1)))
  {
    var pieces := Pieces(params);
    forall i | 0 <= i < |pieces| ensures '&' !in pieces[i] {
      assert pieces[i] == params[i].0 + "=" + params[i].1;
    }
    JsString.SplitJoin(pieces, '&');
    forall i | 0 <= i < |params| ensures QueryParam(pieces[i]) == (params[i].0, UriEncoding.Decode(params[i].1)) {
      QueryParamOf(params[i].0, params[i].1);
    }
  }

  /** With every value encoded, a server reads back exactly the parameters
      sent, whatever their values, as long as the names are plain. */
  lemma EncodedQueryRoundTrip(params: seq<(string, string)>)
    requires |params| >= 1
    requires forall i :: 0 <= i < |params| ==> '&' !in params[i].0 && '=' !in params[i].0
    ensures ParseQuery(QueryString(EncodeValues(params))) ==
      seq(|params|, i requires 0 <= i < |params| => (params[i].0, Some(params[i].1)))
  {
    var encoded := EncodeValues(params);
    forall i | 0 <= i < |encoded| ensures '&' !in encoded[i].1 && '=' !in encoded[i].1 {
      UriEncoding.EscapedExcludes(encoded[i].1, '&');
      UriEncoding.EscapedExcludes(encoded[i].1, '=');
    }
    ParseQueryString(encoded);
    forall i | 0 <= i < |params| ensures UriEncoding.Decode(encoded[i].1) == Some(params[i].1) {
      UriEncoding.DecodeEncode(params[i].1);
    }
  }

  /** The corrected request: a server reads back the page's query, type,
      comma-joined categories and page number. */
  lemma QueryRoundTrip(q: string, searchType: string, categories: seq<string>, page: nat)
    ensures ParseQuery(Query(q, searchType, categories, page)) == RequestValues(q, searchType, categories, page)
  {
    EncodedQueryRoundTrip(RequestParams(q, searchType, categories, page));
  }

  /** The parameters as a server should read them. */
  function RequestValues(q: string, searchType: string, categories: seq<string>, page: nat): seq<(string, Option<string>)>
  {
    [("q", Some(q)), ("type", Some(searchType)),
     ("categories", Some(JsString.Join(categories, ','))), ("page", Some(DecimalString(page)))]
  }

  /** Text that a URL carries through unchanged: no `&` or `=` to split it,
      no `%` to be decoded, no `#` to start a fragment and no `+` that a
      query-string parser reads as a space. */
  predicate Unremarkable(s: string)
  {
    '&' !in s && '=' !in s && '%' !in s && '#' !in s && '+' !in s
  }

  /** As written, the request reads back correctly as long as no value holds
      `&`, `=`, `%`, `#` or `+`: the page number never does, so only the
      query, the type and the category names matter. */
  lemma QueryAsWrittenPlain(q: string, searchType: string, categories: seq<string>, page: nat)
    requires Unremarkable(q) && Unremarkable(searchType) && Unremarkable(JsString.Join(categories, ','))
    ensures ParseQuery(QueryAsWritten(q, searchType, categories, page)) == RequestValues(q, searchType, categories, page)
  {
    var params := RequestParams(q, searchType, categories, page);
    var digits := DecimalString(page);
    assert '&' !in digits && '=' !in digits && '%' !in digits by {
      forall i | 0 <= i < |digits| ensures '0' <= digits[i] <= '9' { }
    }
    ParseQueryString(params);
    forall i | 0 <= i < |params| ensures UriEncoding.Decode(params[i].1) == Some(params[i].1) {
      UriEncoding.DecodePlain(params[i].1);
    }
  }

  /** As written, a category holding `&` splits the query string: a server
      reads more parameters than the four the page meant to send. */
  lemma QueryAsWrittenSplits(q: string, searchType: string, categories: seq<string>, page: nat, k: nat)
    requires k < |categories| && '&' in categories[k]
    ensures |ParseQuery(QueryAsWritten(q, searchType, categories, page))| > 4
  {
    var params := RequestParams(q, searchType, categories, page);
    var pieces := Pieces(params);
    var joined := JsString.Join(categories, ',');
    JsString.CountPositive(categories[k], '&');
    JsString.CountJoin(categories, ',', '&', k);
    assert pieces[2] == "categories=" + joined;
    JsString.CountConcat("categories=", joined, '&');
    JsString.CountJoin(pieces, '&', '&', 2);
  }

  /** The page's own state after choosing only "Food & Cooking": the request
      the page sends is read as five parameters, not the four it holds. */
  lemma FoodAndCookingCut(page: nat)
    ensures |ParseQuery(QueryAsWritten("", Newest, [Utils.Categories[3]], page))| > 4
  {
    Utils.CategoryWithAmpersand();
    QueryAsWrittenSplits("", Newest, [Utils.Categories[3]], page, 0);
  }

  /** The corrected request carries "Food & Cooking" intact. */
  lemma FoodAndCookingKept(page: nat)
    ensures var params := ParseQuery(Query("", Newest, [Utils.Categories[3]], page));
      |params| == 4 && params[2] == ("categories", Some("Food & Cooking"))
  {
    QueryRoundTrip("", Newest, [Utils.Categories[3]], page);
  }
}
