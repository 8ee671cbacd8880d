# Travel-point server: request dispatcher

A model of the core of `backend.js`, a small Node.js HTTP server that stores
travel points and travel routes in a PostGIS database. What it models:

- the request dispatcher, the callback passed to `http.createServer`. It sets
  four CORS/JSON headers on every response. It answers `OPTIONS` with 200 and
  an empty body. Otherwise it walks an if/else chain over `req.method` and
  `req.url` that picks one handler, or it answers 404 with a fixed JSON error;
- the JavaScript string operations that chain uses (`startsWith`, `includes`,
  `split('name=')[1]`), written out over sequences of characters;
- the ILIKE pattern `%term%` that the name search binds, read with
  PostgreSQL's LIKE rules;
- the positional parameter lists that the insert, update and delete
  statements bind. Each list is checked against what its `$n` placeholders
  do in the SQL text.

Files:

- `js_string.dfy` (module `JsString`): `indexOf`, `includes`, `startsWith`,
  `split` with a non-empty separator, and `join`, with their lemmas.
- `dispatch.dfy` (module `Dispatcher`): the outcomes (`Route`), the chain
  (`Dispatch`), the response (`Serve`), and the per-branch lemmas. It also
  holds an explicit ordered rule table (`RouteTable`, `FirstAccepting`,
  `ByTable`) and a proof that the chain is that table with first match wins.
- `parameters.dfy` (module `Parameters`): each statement's placeholder
  template and parameter list.
- `like.dfy` (module `LikePattern`): the LIKE matcher, the search pattern,
  and the escaped pattern.

`decodeURIComponent` is a library call, so it is a parameter
`decode: string -> Decoded`. It either gives the decoded text or the message
of the `URIError` it throws. That error is thrown inside the `try` block, so
its message comes back with status 500.

What the code of this revision does that a reader might not expect:

- `/gettravelroutes` is matched for every method except OPTIONS, not only
  GET (`Dispatcher.ListRoutesIff`);
- the name search fires on `name=` anywhere in the URL, so `nickname=` starts
  it too (`Dispatcher.NicknameStartsNameSearch`);
- the 404 body is `{"error":"未找到路由"}` ("route not found").

## Model

| member | source | states |
|---|---|---|
| `JsString.IndexOf` | backend.js:135 | the result is -1 exactly when `p` does not occur at or after `from`; otherwise it is the first index at or after `from` where `p` occurs |
| `JsString.StartsWith` | backend.js:134 | `startsWith`: the first characters of the string are the prefix; used by `Dispatcher.ListPointsIff` and `Dispatcher.NameSearchIff` |
| `JsString.Includes` | backend.js:135 | `includes`, defined as `indexOf` not being -1; its meaning is `JsString.IncludesIff` |
| `JsString.IncludesIff` | backend.js:135 | `includes` holds iff the text occurs at some index |
| `JsString.Split` | backend.js:136 | `split` gives at least two pieces iff the string includes the separator, so `[1]` is defined on the name-search branch |
| `JsString.SplitJoinRoundTrip` | backend.js:136 | joining the pieces of a split with the separator gives back the string |
| `JsString.SplitPiecesAvoidSeparator` | backend.js:136 | no piece of a split contains the separator |
| `JsString.SecondPieceBetweenOccurrences` | backend.js:136 | `s.split(sep)[1]` is the text from the end of the first occurrence of `sep` to the next one, or to the end of `s` |
| `JsString.SplitJoinedPieces` | backend.js:122 | splitting the join of comma-free pieces on a comma gives back the pieces |
| `Dispatcher.Dispatch` | backend.js:127-175 | the chain itself; what it does is stated by `Dispatcher.DispatchFollowsTable` (first match of an ordered table) and by the per-branch lemmas below |
| `Dispatcher.NameSearch` | backend.js:136-137 | decode the raw term and search for it, or fail with the decoder's message; stated through `Dispatcher.NameSearchTermUpToNext`, `Dispatcher.MalformedTermIsServerError` and `Dispatcher.NameSearchBindsPattern` |
| `Dispatcher.Serve` | backend.js:119-180 | every response carries the four headers set at lines 121-124; preflight ends with 200 and no body, no match ends with 404 and the fixed error, a decoder throw ends with 500 and its message; every other request is handed to exactly the handler `Dispatch` chose |
| `Dispatcher.CorsHeadersOnEveryResponse` | backend.js:121-124 | every response has the four headers under four distinct names, each with the value set for it |
| `Dispatcher.PreflightIff` | backend.js:127-131 | the outcome is preflight iff the method is OPTIONS, whatever the URL; the response is then 200 with no body and the four headers |
| `Dispatcher.NameSearchIff` | backend.js:134-137 | a name search (or its decode failure) happens iff the method is GET, the URL starts with `/searchtravelpoints`, and the URL contains `name=` anywhere |
| `Dispatcher.NameSearchTermUpToNext` | backend.js:134-137 | the decoded term is the text between the first and second `name=` |
| `Dispatcher.NameSearchTermToEnd` | backend.js:134-137 | with a single `name=`, the term runs to the end of the URL |
| `Dispatcher.NicknameStartsNameSearch` | backend.js:135-136 | the test is a substring test, so `?nickname=bob` searches for `bob` |
| `Dispatcher.ListPointsIff` | backend.js:134-140 | the outcome is the full listing iff the method is GET, the URL starts with `/searchtravelpoints`, and the URL has no `name=` |
| `Dispatcher.OwnerQueryListsAllPoints` | backend.js:134-140 | `?owner=x` does not filter: the request lists all points |
| `Dispatcher.ListRoutesIff` | backend.js:142-143 | the outcome is route listing iff the URL is exactly `/gettravelroutes` and the method is not OPTIONS; no method is checked |
| `Dispatcher.MutatingRoutesIff` | backend.js:145-171 | each of add point, add route, delete point, delete route and update point happens iff its method matches and the URL is exactly its path |
| `Dispatcher.NotFoundIff` | backend.js:172-175 | 404 happens iff no earlier branch accepts; the response is then 404 with the fixed error body and the four headers |
| `Dispatcher.InexactRequestsAreNotFound` | backend.js:145-175 | `POST /addtravelpoints?x` and `GET /addtravelpoints` both get 404 |
| `Dispatcher.MalformedTermIsServerError` | backend.js:136-179 | when the decoder throws on the raw term, the enclosing catch answers 500 with the decoder's message |
| `Dispatcher.NameSearchBindsPattern` | backend.js:136-137 | a name search binds one value built from the decoded term, and for a term without LIKE wildcards it selects exactly the names containing the term |
| `Dispatcher.UnderscoreSearchMatchesOtherNames` | backend.js:53 | `GET /searchtravelpoints?name=_` searches for `_` and binds a pattern that matches the name `a`, which does not contain `_` |
| `Dispatcher.StripSpacesSlice` | backend.js:122 | a header entry is read as the slice left when the leading and trailing spaces and tabs are removed, with neither end a space or tab |
| `Dispatcher.AllowedMethodsListed` | backend.js:122 | the allowed-methods header, split on commas and trimmed, lists exactly GET, POST, OPTIONS, DELETE, PUT |
| `Dispatcher.VerbCheckedRoutesAreDeclared` | backend.js:122-171 | every branch except route listing and 404 is reached only with a method the header declares |
| `Dispatcher.RouteListingAnswersUndeclaredVerb` | backend.js:122-143 | `PATCH /gettravelroutes` lists routes, although the header does not declare PATCH |
| `Dispatcher.FirstAccepting` | backend.js:127-175 | the chosen rule accepts the request and no earlier rule does; the result is the table length when no rule accepts |
| `Dispatcher.DispatchFollowsTable` | backend.js:127-175 | the if/else chain equals the ordered rule table with first match wins: every request maps to exactly one outcome, the first rule that accepts it, or 404 |
| `Parameters.InsertPointParams` | backend.js:33-37 | the list has one value per placeholder of the insert, and each placeholder gets the body field its use needs: province, name, info columns, then `ST_MakePoint(lon, lat)` |
| `Parameters.UpdatePointParams` | backend.js:64-73 | the same for the update, with `gid` for `WHERE gid = $6` |
| `Parameters.InsertRouteParams` | backend.js:102-109 | the same for the route insert: start and end columns, then (lon1, lat1) and (lon2, lat2) for the two `ST_MakePoint` calls |
| `Parameters.DeleteParams` | backend.js:155-165 | both deletes bind the single value `gid` for `WHERE gid = $1` |
| `Parameters.Field` | backend.js:32 | destructuring a body field: its value, or undefined (bound as NULL) when the body lacks it; stated through the four list rows above and `Parameters.InsertPointIgnoresOtherFields` |
| `Parameters.InsertPointLonBeforeLat` | backend.js:35-37 | any list that feeds the insert's placeholders as the SQL text uses them has `lon` as `$4` and `lat` as `$5` |
| `Parameters.UpdatePointGidLast` | backend.js:70-73 | any list that feeds the update's placeholders as the SQL text uses them has six values: `lon` as `$4`, `lat` as `$5`, and `gid` last as `$6` |
| `Parameters.InsertRouteOrder` | backend.js:104-109 | the only list that feeds the route insert's placeholders as the SQL text uses them is start, end, lon1, lat1, lon2, lat2 |
| `Parameters.TemplateFixesList` | backend.js:33-37 | the SQL text determines the list: two lists that both feed a statement's placeholders as intended are equal |
| `Parameters.InsertPointIgnoresOtherFields` | backend.js:32-37 | a body field the insert does not destructure, such as `owner`, does not change what is bound |
| `LikePattern.SearchPattern` | backend.js:53 | the term between two `%`; what it matches is stated by the three lemmas below |
| `LikePattern.SearchParams` | backend.js:53 | the search statement's list, the pattern as `$1`; tied to the dispatcher by `Dispatcher.NameSearchBindsPattern` |
| `LikePattern.PlainTermPatternIsSubstringSearch` | backend.js:52-53 | for a term without `%`, `_` or `\`, the pattern `%term%` matches exactly the names that contain the term |
| `LikePattern.UnescapedPatternOverMatches` | backend.js:52-53 | the term `_` gives a pattern that matches the name `a`, which does not contain `_` |
| `LikePattern.EscapedPatternIsSubstringSearch` | backend.js:52-53 | with the term escaped, the pattern matches exactly the names that contain the term, for every term |

## Findings

| source | as written | input that shows it | evidently intended | confidence | as-written member | corrected member |
|---|---|---|---|---|---|---|
| backend.js:53 | the term is put between `%` signs unescaped, so `%`, `_` and `\` in it act as LIKE wildcards and escapes | `GET /searchtravelpoints?name=_` builds `%_%`, which matches every non-empty name, including `a`, which does not contain `_` | a search for the names that contain the term | medium, not executed | `LikePattern.UnescapedPatternOverMatches` | `LikePattern.EscapedPatternIsSubstringSearch` |

## Left out

- The `pg` pool, the SQL statements and their results (backend.js:5-11, 14-23, 44-53, 84-91). These are calls into a database the model cannot see. The two list handlers and the search handler are outcomes of `Dispatch`. What they send back is not modelled.
- PostGIS (`ST_MakePoint`, `ST_SetSRID`, `ST_MakeLine`, `ST_X`, `ST_Y`, `ST_AsGeoJSON`) and floating-point coordinates. Request field values are an abstract type `V`.
- Collecting the body through `req.on('data')` and `req.on('end')`. This is asynchronous event plumbing. The body is taken as already parsed, a map from field names to values.
- `JSON.parse` and `JSON.stringify`, which are library calls. A body the dispatcher writes is kept as structure (`ErrorJson(message)`). A body that fails to parse is not modelled. In the point insert and the two deletes, such a failure throws inside an `'end'` callback that runs after the `try` of backend.js:133-179 has finished. So the failure is not turned into a 500. Only the guarded handlers at backend.js:62-78 and 100-114 answer 500.
- The status and body that a handler writes after `Handed(route)`, including the 500 that the enclosing catch sends when an awaited query fails.
- `decodeURIComponent`, which is a library call. It is the `decode` parameter.
- Case folding in ILIKE. `Like` compares characters exactly.
- `server.listen`, the default port 8082, and shutting the pool on SIGTERM or SIGINT (backend.js:183-190). These are process and I/O scaffolding.
- JavaScript strings are sequences of UTF-16 code units. The model uses sequences of Unicode characters.
- `JsString.SplitFrom`: `split` with an empty separator is not modelled. The source only splits on `name=`.
- `JsString.IndexOf`: requires `from <= |s|`. JavaScript clamps a larger start position, but no caller here passes one.
