/** The request dispatcher of the travel-point server: the callback given to
    `http.createServer`. It sets four headers on every response, answers a
    CORS preflight itself, and otherwise walks an if/else chain over the
    request verb and URL that picks exactly one handler or the 404 reply. */
module Dispatcher {
  import opened JsString
  import LikePattern

  const SearchPath := "/searchtravelpoints"
  /** The text whose first occurrence starts the search term. */
  const NameKey := "name="
  /** The message of the fixed 404 body ("route not found"). */
  const NotFoundMessage := "未找到路由"

  /** The outcome of `decodeURIComponent`: a decoded string, or the message
      of the `URIError` it throws on a malformed escape. */
  datatype Decoded = Decoded(text: string) | Malformed(message: string)

  /** Which branch of the chain a request takes. */
  datatype Route =
    | Preflight
    | SearchByName(term: string)
    | ListPoints
    | ListRoutes
    | AddPoint
    | AddRoute
    | DeletePoint
    | DeleteRoute
    | UpdatePoint
    | NotFound
      /** `decodeURIComponent` threw inside the `try` block. */
    | BadTerm(message: string)

  /** The name-search branch: decode the raw term and search for it, or fail
      with the decoder's error. */
  function NameSearch(decode: string -> Decoded, raw: string): Route {
    match decode(raw)
    case Decoded(t) => SearchByName(t)
    case Malformed(m) => BadTerm(m)
  }

  /** The if/else chain. `decode` stands for `decodeURIComponent`. */
  function Dispatch(decode: string -> Decoded, verb: string, url: string): Route {
    if verb == "OPTIONS" then Preflight
    else if verb == "GET" && StartsWith(url, SearchPath) then
      if Includes(url, NameKey) then NameSearch(decode, Split(url, NameKey)[1])
      else ListPoints
    else if url == "/gettravelroutes" then ListRoutes
    else if verb == "POST" && url == "/addtravelpoints" then AddPoint
    else if verb == "POST" && url == "/addtravelroute" then AddRoute
    else if verb == "DELETE" && url == "/deletetravelpoint" then DeletePoint
    else if verb == "DELETE" && url == "/deletetravelroute" then DeleteRoute
    else if verb == "PUT" && url == "/updatetravelpoint" then UpdatePoint
    else NotFound
  }

  /** A response header, as passed to `res.setHeader`. */
  datatype Header = Header(name: string, value: string)

  const AllowedMethodsValue := "GET, POST, OPTIONS,DELETE,PUT"

  /** The headers set before any branch is taken, in the order they are set. */
  const CorsHeaders := [
    Header("Access-Control-Allow-Origin", "*"),
    Header("Access-Control-Allow-Methods", AllowedMethodsValue),
    Header("Access-Control-Allow-Headers", "Content-Type"),
    Header("Content-Type", "application/json")
  ]

  /** A response body the dispatcher writes itself: none, or the
      serialisation of `{ error: message }`. */
  datatype Body = NoBody | ErrorJson(error: string)

  /** Either the dispatcher ends the response with a status and a body, or it
      hands the request to a handler, which writes them. */
  datatype Reply = Ended(status: nat, body: Body) | Handed(route: Route)

  datatype Response = Response(headers: seq<Header>, reply: Reply)

  /** What the callback does with a request: the headers, then the branch.
      The dispatcher answers a preflight, a 404 and a failed decoding itself;
      every other request goes to the handler the chain chose. */
  function Serve(decode: string -> Decoded, verb: string, url: string): (r: Response)
    ensures r.headers == CorsHeaders
    ensures r.reply.Ended? <==> Dispatch(decode, verb, url) in {Preflight, NotFound} || Dispatch(decode, verb, url).BadTerm?
    ensures r.reply.Handed? ==> r.reply.route == Dispatch(decode, verb, url)
    ensures Dispatch(decode, verb, url) == Preflight ==> r.reply == Ended(200, NoBody)
    ensures Dispatch(decode, verb, url) == NotFound ==> r.reply == Ended(404, ErrorJson(NotFoundMessage))
    ensures Dispatch(decode, verb, url).BadTerm? ==> r.reply == Ended(500, ErrorJson(Dispatch(decode, verb, url).message))
  {
    var route := Dispatch(decode, verb, url);
    var reply :=
      match route
      case Preflight => Ended(200, NoBody)
      case NotFound => Ended(404, ErrorJson(NotFoundMessage))
      case BadTerm(m) => Ended(500, ErrorJson(m))
      case _ => Handed(route);
    Response(CorsHeaders, reply)
  }

  /** Every response carries the four headers under distinct names, so no
      `setHeader` call overrides another, each with the value set for it. */
  lemma CorsHeadersOnEveryResponse(decode: string -> Decoded, verb: string, url: string)
    ensures var hs := Serve(decode, verb, url).headers;
      |hs| == 4 &&
      (forall i, j :: 0 <= i < j < |hs| ==> hs[i].name != hs[j].name) &&
      Header("Access-Control-Allow-Origin", "*") in hs &&
      Header("Access-Control-Allow-Methods", "GET, POST, OPTIONS,DELETE,PUT") in hs &&
      Header("Access-Control-Allow-Headers", "Content-Type") in hs &&
      Header("Content-Type", "application/json") in hs
  {
  }

  // ---------------------------------------------------------------------
  // Properties of the chain, one branch at a time

  /** Every OPTIONS request is a preflight, whatever its URL, and only an
      OPTIONS request is. */
  lemma PreflightIff(decode: string -> Decoded, verb: string, url: string)
    ensures Dispatch(decode, verb, url) == Preflight <==> verb == "OPTIONS"
    ensures verb == "OPTIONS" ==> Serve(decode, verb, url) == Response(CorsHeaders, Ended(200, NoBody))
  {
  }

  /** A name search (or its failed decoding) happens exactly for a GET whose
      URL starts with the search path and contains `name=` anywhere. */
  lemma NameSearchIff(decode: string -> Decoded, verb: string, url: string)
    ensures (Dispatch(decode, verb, url).SearchByName? || Dispatch(decode, verb, url).BadTerm?)
        <==> verb == "GET" && StartsWith(url, SearchPath) && Includes(url, NameKey)
  {
  }

  /** The term is the text after the first `name=`, up to the second one. */
  lemma NameSearchTermUpToNext(decode: string -> Decoded, url: string, i: nat, j: nat)
    requires StartsWith(url, SearchPath)
    requires FirstOccurrenceFrom(url, NameKey, 0, i)
    requires FirstOccurrenceFrom(url, NameKey, i + |NameKey|, j)
    ensures Dispatch(decode, "GET", url) == NameSearch(decode, url[i + |NameKey|..j])
  {
    SecondPieceBetweenOccurrences(url, NameKey, i);
    IndexOfFindsFirst(url, NameKey, i + |NameKey|, j);
  }

  /** The term runs to the end of the URL when `name=` occurs only once. */
  lemma NameSearchTermToEnd(decode: string -> Decoded, url: string, i: nat)
    requires StartsWith(url, SearchPath)
    requires FirstOccurrenceFrom(url, NameKey, 0, i)
    requires forall k :: i + |NameKey| <= k ==> !OccursAt(url, NameKey, k)
    ensures Dispatch(decode, "GET", url) == NameSearch(decode, url[i + |NameKey|..])
  {
    SecondPieceBetweenOccurrences(url, NameKey, i);
  }

  /** The test is a substring test, so `nickname=` starts a name search too. */
  lemma NicknameStartsNameSearch(decode: string -> Decoded)
    ensures Dispatch(decode, "GET", "/searchtravelpoints?nickname=bob") == NameSearch(decode, "bob")
  {
    var head := "/searchtravelpoints?nick";
    assert head + NameKey + "bob" == "/searchtravelpoints?nickname=bob";
    OnlyOccurrence(head, NameKey, "bob");
    NameSearchTermToEnd(decode, head + NameKey + "bob", |head|);
  }

  /** A GET under the search path without `name=` lists every point, whatever
      other query text it has. */
  lemma ListPointsIff(decode: string -> Decoded, verb: string, url: string)
    ensures Dispatch(decode, verb, url) == ListPoints
        <==> verb == "GET" && StartsWith(url, SearchPath) && !Includes(url, NameKey)
  {
  }

  /** An owner filter is not recognised: the request lists all points. */
  lemma OwnerQueryListsAllPoints(decode: string -> Decoded)
    ensures Dispatch(decode, "GET", "/searchtravelpoints?owner=x") == ListPoints
  {
    MissingCharExcludes("/searchtravelpoints?owner=x", NameKey, 2);
  }

  /** `/gettravelroutes` lists routes for every verb except OPTIONS: the
      branch checks no verb. */
  lemma ListRoutesIff(decode: string -> Decoded, verb: string, url: string)
    ensures Dispatch(decode, verb, url) == ListRoutes
        <==> verb != "OPTIONS" && url == "/gettravelroutes"
  {
  }

  /** The mutating routes need their verb and the exact URL. */
  lemma MutatingRoutesIff(decode: string -> Decoded, verb: string, url: string)
    ensures Dispatch(decode, verb, url) == AddPoint <==> verb == "POST" && url == "/addtravelpoints"
    ensures Dispatch(decode, verb, url) == AddRoute <==> verb == "POST" && url == "/addtravelroute"
    ensures Dispatch(decode, verb, url) == DeletePoint <==> verb == "DELETE" && url == "/deletetravelpoint"
    ensures Dispatch(decode, verb, url) == DeleteRoute <==> verb == "DELETE" && url == "/deletetravelroute"
    ensures Dispatch(decode, verb, url) == UpdatePoint <==> verb == "PUT" && url == "/updatetravelpoint"
  {
  }

  /** Any request that no branch accepts gets the 404 reply with the fixed
      error body, and only such a request does. */
  lemma NotFoundIff(decode: string -> Decoded, verb: string, url: string)
    ensures Dispatch(decode, verb, url) == NotFound <==>
      verb != "OPTIONS" &&
      !(verb == "GET" && StartsWith(url, SearchPath)) &&
      url != "/gettravelroutes" &&
      !(verb == "POST" && (url == "/addtravelpoints" || url == "/addtravelroute")) &&
      !(verb == "DELETE" && (url == "/deletetravelpoint" || url == "/deletetravelroute")) &&
      !(verb == "PUT" && url == "/updatetravelpoint")
    ensures Dispatch(decode, verb, url) == NotFound ==>
      Serve(decode, verb, url) == Response(CorsHeaders, Ended(404, ErrorJson(NotFoundMessage)))
  {
  }

  /** Query text after an exact route, or the wrong verb, falls through to 404. */
  lemma InexactRequestsAreNotFound(decode: string -> Decoded)
    ensures Dispatch(decode, "POST", "/addtravelpoints?x") == NotFound
    ensures Dispatch(decode, "GET", "/addtravelpoints") == NotFound
  {
  }

  /** A malformed term is caught by the enclosing `try` and answered with 500. */
  lemma MalformedTermIsServerError(decode: string -> Decoded, verb: string, url: string)
    requires Dispatch(decode, verb, url).BadTerm?
    ensures Serve(decode, verb, url).reply == Ended(500, ErrorJson(Dispatch(decode, verb, url).message))
    ensures decode(Split(url, NameKey)[1]) == Malformed(Dispatch(decode, verb, url).message)
  {
  }
  /** A name search binds one value, the pattern built from the decoded term;
      for a term without LIKE wildcards that pattern selects exactly the names
      that contain the term. */
  lemma NameSearchBindsPattern(decode: string -> Decoded, verb: string, url: string, name: string)
    requires Dispatch(decode, verb, url).SearchByName?
    ensures var t := Dispatch(decode, verb, url).term;
      decode(Split(url, NameKey)[1]) == Decoded(t) &&
      |LikePattern.SearchParams(t)| == 1 &&
      (LikePattern.Plain(t) ==> (LikePattern.Like(name, LikePattern.SearchParams(t)[0]) <==> Includes(name, t)))
  {
    var t := Dispatch(decode, verb, url).term;
    if LikePattern.Plain(t) {
      LikePattern.PlainTermPatternIsSubstringSearch(name, t);
    }
  }

  /** A search for `_` (when the decoder leaves it as it is) binds a pattern
      that matches the name "a", which does not contain `_`. */
  lemma UnderscoreSearchMatchesOtherNames(decode: string -> Decoded)
    requires decode("_") == Decoded("_")
    ensures Dispatch(decode, "GET", "/searchtravelpoints?name=_") == SearchByName("_")
    ensures LikePattern.Like("a", LikePattern.SearchParams("_")[0]) && !Includes("a", "_")
  {
    var head := "/searchtravelpoints?";
    assert head + NameKey + "_" == "/searchtravelpoints?name=_";
    OnlyOccurrence(head, NameKey, "_");
    NameSearchTermToEnd(decode, head + NameKey + "_", |head|);
    LikePattern.UnescapedPatternOverMatches();
  }

  // ---------------------------------------------------------------------
  // The verbs the CORS header declares, against the verbs the chain serves

  predicate IsHttpSpace(c: char) { c == ' ' || c == '\t' }

  /** `s` without its leading spaces and tabs. */
  function TrimStart(s: string): string
    decreases |s|
  {
    if s != "" && IsHttpSpace(s[0]) then TrimStart(s[1..]) else s
  }

  /** `s` without its trailing spaces and tabs. */
  function TrimEnd(s: string): string
    decreases |s|
  {
    if s != "" && IsHttpSpace(s[|s| - 1]) then TrimEnd(s[..|s| - 1]) else s
  }

  /** `TrimStart` keeps the suffix that starts at the first character that is
      not a space or tab. */
  lemma {:induction false} TrimStartSuffix(s: string)
    ensures var r := TrimStart(s);
      |r| <= |s| && r == s[|s| - |r|..] &&
      (forall k :: 0 <= k < |s| - |r| ==> IsHttpSpace(s[k])) &&
      (r != "" ==> !IsHttpSpace(r[0]))
    decreases |s|
  {
    if s != "" && IsHttpSpace(s[0]) {
      TrimStartSuffix(s[1..]);
      var r := TrimStart(s[1..]);
      assert s[1..][|s| - 1 - |r|..] == s[|s| - |r|..];
      forall k | 1 <= k < |s| - |r| ensures IsHttpSpace(s[k]) {
        assert s[k] == s[1..][k - 1];
      }
    }
  }

  /** `TrimEnd` keeps the prefix that ends at the last character that is not
      a space or tab. */
  lemma {:induction false} TrimEndPrefix(s: string)
    ensures var r := TrimEnd(s);
      |r| <= |s| && r == s[..|r|] &&
      (forall k :: |r| <= k < |s| ==> IsHttpSpace(s[k])) &&
      (r != "" ==> !IsHttpSpace(r[|r| - 1]))
    decreases |s|
  {
    if s != "" && IsHttpSpace(s[|s| - 1]) {
      TrimEndPrefix(s[..|s| - 1]);
      var r := TrimEnd(s[..|s| - 1]);
      assert s[..|s| - 1][..|r|] == s[..|r|];
      forall k | |r| <= k < |s| - 1 ensures IsHttpSpace(s[k]) {
        assert s[k] == s[..|s| - 1][k];
      }
    }
  }

  /** A header list entry with spaces and tabs removed from both ends, as a
      browser reads each entry of a comma-separated header. */
  function StripSpaces(s: string): string {
    TrimEnd(TrimStart(s))
  }

  /** A prefix `r` of the suffix `t` of `s` from `lo` is a slice of `s`, and
      what follows `r` in `t` is what follows it in `s`. */
  lemma PrefixOfSuffix(s: string, lo: nat, t: string, r: string)
    requires lo <= |s| && t == s[lo..] && |r| <= |t| && r == t[..|r|]
    requires forall k :: |r| <= k < |t| ==> IsHttpSpace(t[k])
    ensures lo + |r| <= |s| && r == s[lo..lo + |r|]
    ensures forall k :: lo + |r| <= k < |s| ==> IsHttpSpace(s[k])
    ensures r != "" ==> r[0] == t[0]
  {
    assert s[lo..][..|r|] == s[lo..lo + |r|];
    forall k | lo + |r| <= k < |s| ensures IsHttpSpace(s[k]) {
      assert s[k] == t[k - lo];
    }
  }

  /** The stripped entry is the slice of `s` from `lo` to `lo + |r|`, with
      only spaces and tabs outside it, and neither of its ends a space or tab. */
  lemma StripSpacesSlice(s: string)
    ensures var r := StripSpaces(s); var lo := |s| - |TrimStart(s)|;
      0 <= lo && lo + |r| <= |s| && r == s[lo..lo + |r|] &&
      (forall k :: 0 <= k < lo ==> IsHttpSpace(s[k])) &&
      (forall k :: lo + |r| <= k < |s| ==> IsHttpSpace(s[k])) &&
      (r != "" ==> !IsHttpSpace(r[0]) && !IsHttpSpace(r[|r| - 1]))
  {
    var t := TrimStart(s);
    TrimStartSuffix(s);
    var r := TrimEnd(t);
    TrimEndPrefix(t);
    PrefixOfSuffix(s, |s| - |t|, t, r);
  }

  /** Each entry of a list with its surrounding spaces removed. */
  function StripAll(entries: seq<string>): (r: seq<string>)
    ensures |r| == |entries|
  {
    if entries == [] then [] else [StripSpaces(entries[0])] + StripAll(entries[1..])
  }

  /** The entries of a comma-separated header value. */
  function ListEntries(value: string): seq<string> {
    StripAll(Split(value, ","))
  }

  /** The raw pieces of the methods header, between its commas. */
  lemma AllowedMethodsPieces()
    ensures Split(AllowedMethodsValue, ",") == ["GET", " POST", " OPTIONS", "DELETE", "PUT"]
  {
    var pieces := ["GET", " POST", " OPTIONS", "DELETE", "PUT"];
    assert Join(pieces, ",") == AllowedMethodsValue;
    SplitJoinedPieces(pieces, ',');
  }

  /** Stripping removes the space after each comma. */
  lemma AllowedMethodsStripped()
    ensures StripAll(["GET", " POST", " OPTIONS", "DELETE", "PUT"]) == ["GET", "POST", "OPTIONS", "DELETE", "PUT"]
  {
    assert " POST"[1..] == "POST";
    assert StripSpaces(" POST") == "POST";
    assert " OPTIONS"[1..] == "OPTIONS";
    assert StripSpaces(" OPTIONS") == "OPTIONS";
  }

  /** The methods header lists exactly GET, POST, OPTIONS, DELETE and PUT. */
  lemma AllowedMethodsListed()
    ensures CorsHeaders[1].name == "Access-Control-Allow-Methods"
    ensures ListEntries(CorsHeaders[1].value) == ["GET", "POST", "OPTIONS", "DELETE", "PUT"]
  {
    AllowedMethodsPieces();
    AllowedMethodsStripped();
  }

  /** Every branch that tests the verb tests for one the header declares. */
  lemma VerbCheckedRoutesAreDeclared(decode: string -> Decoded, verb: string, url: string)
    requires Dispatch(decode, verb, url) !in {ListRoutes, NotFound}
    ensures verb in ListEntries(CorsHeaders[1].value)
  {
    assert verb == "GET" || verb == "POST" || verb == "OPTIONS" || verb == "DELETE" || verb == "PUT";
    AllowedMethodsListed();
  }

  /** The route listing checks no verb, so it also answers a verb the header
      does not declare. */
  lemma RouteListingAnswersUndeclaredVerb(decode: string -> Decoded)
    ensures Dispatch(decode, "PATCH", "/gettravelroutes") == ListRoutes
    ensures "PATCH" !in ListEntries(CorsHeaders[1].value)
  {
    AllowedMethodsListed();
  }

  // ---------------------------------------------------------------------
  // The same chain as an ordered table of rules, first match wins

  datatype VerbTest = AnyVerb | VerbIs(verb: string)
  datatype UrlTest = AnyUrl | UrlIs(url: string) | UrlStartsWith(prefix: string) | UrlStartsWithAndHas(prefix: string, part: string)
  /** A rule leads to a fixed route, or to the name search on the term after `name=`. */
  datatype Target = Fixed(route: Route) | SearchTerm
  datatype Rule = Rule(verb: VerbTest, url: UrlTest, target: Target)

  predicate Accepts(rule: Rule, verb: string, url: string) {
    (match rule.verb
     case AnyVerb => true
     case VerbIs(v) => verb == v) &&
    (match rule.url
     case AnyUrl => true
     case UrlIs(u) => url == u
     case UrlStartsWith(p) => StartsWith(url, p)
     case UrlStartsWithAndHas(p, part) => StartsWith(url, p) && Includes(url, part))
  }

  /** The branches of the chain in the order they are tried. */
  const RouteTable: seq<Rule> := [
    Rule(VerbIs("OPTIONS"), AnyUrl, Fixed(Preflight)),
    Rule(VerbIs("GET"), UrlStartsWithAndHas(SearchPath, NameKey), SearchTerm),
    Rule(VerbIs("GET"), UrlStartsWith(SearchPath), Fixed(ListPoints)),
    Rule(AnyVerb, UrlIs("/gettravelroutes"), Fixed(ListRoutes)),
    Rule(VerbIs("POST"), UrlIs("/addtravelpoints"), Fixed(AddPoint)),
    Rule(VerbIs("POST"), UrlIs("/addtravelroute"), Fixed(AddRoute)),
    Rule(VerbIs("DELETE"), UrlIs("/deletetravelpoint"), Fixed(DeletePoint)),
    Rule(VerbIs("DELETE"), UrlIs("/deletetravelroute"), Fixed(DeleteRoute)),
    Rule(VerbIs("PUT"), UrlIs("/updatetravelpoint"), Fixed(UpdatePoint))
  ]

  /** The index of the first rule at or after `from` that accepts the
      request, or `|rules|` when none does. */
  function FirstAccepting(rules: seq<Rule>, verb: string, url: string, from: nat): (r: nat)
    requires from <= |rules|
    ensures from <= r <= |rules|
    ensures r < |rules| ==> Accepts(rules[r], verb, url)
    ensures forall k :: from <= k < r ==> !Accepts(rules[k], verb, url)
    decreases |rules| - from
  {
    if from == |rules| then from
    else if Accepts(rules[from], verb, url) then from
    else FirstAccepting(rules, verb, url, from + 1)
  }

  /** Dispatch by the table: the target of the first accepting rule, or 404. */
  function ByTable(decode: string -> Decoded, verb: string, url: string): Route {
    var i := FirstAccepting(RouteTable, verb, url, 0);
    if i == |RouteTable| then NotFound
    else match RouteTable[i].target
      case Fixed(route) => route
      case SearchTerm =>
        if Includes(url, NameKey) then NameSearch(decode, Split(url, NameKey)[1]) else NotFound
  }

  /** The first rule that accepts is the one whose index satisfies the contract. */
  lemma FirstAcceptingIs(rules: seq<Rule>, verb: string, url: string, i: nat)
    requires i <= |rules|
    requires i < |rules| ==> Accepts(rules[i], verb, url)
    requires forall k :: 0 <= k < i ==> !Accepts(rules[k], verb, url)
    ensures FirstAccepting(rules, verb, url, 0) == i
  {
  }

  /** The if/else chain is the ordered table: every request gets the target of
      the first rule that accepts it, and 404 when none does. */
  lemma DispatchFollowsTable(decode: string -> Decoded, verb: string, url: string)
    ensures Dispatch(decode, verb, url) == ByTable(decode, verb, url)
  {
    var rt := RouteTable;
    var i: nat :=
      if Accepts(rt[0], verb, url) then 0
      else if Accepts(rt[1], verb, url) then 1
      else if Accepts(rt[2], verb, url) then 2
      else if Accepts(rt[3], verb, url) then 3
      else if Accepts(rt[4], verb, url) then 4
      else if Accepts(rt[5], verb, url) then 5
      else if Accepts(rt[6], verb, url) then 6
      else if Accepts(rt[7], verb, url) then 7
      else if Accepts(rt[8], verb, url) then 8
      else 9;
    FirstAcceptingIs(rt, verb, url, i);
  }
}
