# sword server: request decisions in Dafny

sword is a monitoring system. Observers probe targets and post their records
to a server. The server keeps one DataSet per (target, observer) pair. It
answers JSON queries and renders two HTML pages over that data. This project
models the server's decision layer as pure functions:

- **Parameters.** `parseIntParam` reads one form value. It models Go's
  `strconv.ParseInt(s, 10, 64)`, including the order in which that function
  reports syntax and range errors. It returns a value, a default, or an error.
  The optional parameters `r` (time range) and `i` (interval) then fall back
  to their defaults (`StrConv`, `Params`).
- **API handlers.** `checkToken`, `httpConf`, `httpData`, `httpAbbrData`,
  `httpFullData` and `httpStatData` are functions from a request and the
  registry to a response and the registry afterwards (`Handler`). A request is
  reduced to four things:
  - its method;
  - its token header;
  - its parsed form;
  - the outcome of reading and decoding its body.

  A response is either a success with its payload, or a status code with a
  message tag.
- **Registry.** The registry is `map[int64]map[int64]*DataSet`, keyed by
  target id and then observer id. The model builds it as `Start` does, from a
  configuration that loaded or failed to load (`Server`). A DataSet is
  opaque: its target and observer are visible and its history is not. The
  DataSet operations `Put`, `GetAbbrData`, `GetFullData` and `GetStatData`
  are supplied as an `Engine` of functions. The model returns a new registry
  in which `Put` has replaced the one addressed cell.
- **Read results.** A read handler iterates over a Go map, whose order is
  unspecified, and then calls `sort.Slice` by `Observer.Id`. The model visits
  the keys in ascending order and uses a stable insertion sort (`Sorting`).
  The contracts state only "sorted by observer id" and "a permutation of one
  result per DataSet". Those two facts hold for every iteration order Go may
  choose.
- **Pages.** The `dict` template helper is modelled, together with the
  choices `httpIndex` and `httpDetail` make before rendering: redirect or
  render, and which category or target is shown (`Web`).

The main facts proved:

- `ParseInt` succeeds exactly on an optional sign followed by one or more
  decimal digits whose value fits in int64. It returns that value. A
  canonical rendering of any int64 parses back to the same int64.
- `parseIntParam` has three distinct outcomes: missing, malformed and valid.
  The default comes back on every failure path.
- `httpData` runs its checks in a fixed order: method (405), then token
  (403), then `t` and `o` (400), then reading the body (500), then decoding
  it (400). It writes exactly the one cell `dataSets[t][o]`, or changes
  nothing.
- The read handlers never change the registry. Their lists are sorted
  permutations of the target's DataSets.
- `dict` returns nil on an odd number of arguments or on a non-string key.
  Otherwise it maps exactly the given keys, and the last occurrence of a key
  wins. Spelling a list of pairs out as arguments and passing them to `dict`
  gives back the map those pairs describe.
- The registry's keys are exactly the configured target ids. Every
  per-target map starts empty, and duplicate ids collapse into one entry.

## Model

| member | source | states |
|---|---|---|
| StrConv.ParseInt | server/handler.go:173 | `strconv.ParseInt(str, 10, 64)` succeeds exactly when the string is an optional sign and one or more decimal digits with a value in int64 range, and then returns that value. A well-formed literal whose value is outside int64 gives ErrRange, and an empty magnitude gives ErrSyntax. |
| StrConv.ParseIntRangeFirst | server/handler.go:173 | When the first k digits already exceed 2^64-1 and all of them are digits, the error is ErrRange, whatever characters follow. |
| StrConv.ParseIntSyntaxFirst | server/handler.go:173 | When a non-digit appears before the accumulated digits exceed 2^64-1, the error is ErrSyntax, whatever follows. |
| StrConv.Canonical | server/handler.go:173 | Every int64 has a decimal spelling that is a valid literal with that value, and `ParseInt` maps it back to the same int64 (round trip). That spelling has a `-` exactly for negative values, never a `+`, and no leading zero. |
| Params.ParseIntParam | server/handler.go:163-178 | An empty value gives the default, with no error iff `nullable` and with `errMissingParam` iff not. A valid literal gives exactly its value and no error. Any other non-empty value gives the default with exactly the error `ParseInt` reports for it (ErrSyntax or ErrRange). Every error comes with the default. |
| Params.EmptyFirstValueIsMissing | server/handler.go:165-172 | Only the first value of a repeated key is read, and an empty first value counts as missing even when later values exist. |
| Params.TimeRange | server/handler.go:76-79 | The time range `r` is 1 when absent, its value when it is a valid literal, and `rangeDay` when present but invalid. |
| Handler.Interval | server/handler.go:135 | The interval `i` is 10 when absent or unparsable, because the discarded error comes with the default. Otherwise it is the parsed value. |
| Handler.RequiredId | server/handler.go:33-42 | A required id (`t` or `o`) has no error iff the form holds a valid literal for it. A missing id gives `errMissingParam`. A malformed one gives exactly the error `ParseInt` reports for it, which the handler sends to the client. |
| Handler.CheckToken | server/handler.go:62-68 | The request passes iff its token header equals the configured token. Otherwise the response is 403 "token invalid". |
| Handler.EmptyTokenAdmitsMissingHeader | server/handler.go:62-67 | With no token configured, a request without the token header passes the check and `httpConf` answers it. |
| Handler.HttpConf | server/handler.go:13-23 | Token holders get the configured targets, and everyone else gets 403. The registry is unchanged. |
| Handler.HttpData | server/handler.go:25-60 | The first failing check decides the response, in this order: 405 for a non-POST, 403 for a bad token, 400 for `t` then `o`, 500 for a failed body read, 400 for a malformed body. Success holds iff every check passes and both registry levels hold the keys. Success changes only cell (t, o), to `Put` of the old DataSet. Any error leaves the registry unchanged and a decoded body that misses the cell gives 400 "no such target". |
| Handler.Collect | server/handler.go:80-87 | One result per DataSet of the target, sorted by the key. The results are a permutation of the DataSets' images, and every DataSet's result appears. |
| Handler.HttpAbbrData | server/handler.go:70-94 | A bad `t` gives 400. Otherwise the response is a list of summaries sorted by observer id, exactly one per DataSet registered under `t` and computed with the time range `r`. An unknown target gives an empty list, and the registry is unchanged. |
| Handler.HttpFullData | server/handler.go:96-124 | `t` is checked, then `o`. When both registry levels hold the keys, the response is `GetFullData(r)` of that cell. Otherwise it is 400 "no such target". The registry is unchanged. |
| Handler.LastTarget | server/handler.go:137-142 | The reported target is nil iff the target has no DataSets. Otherwise it is the target of one of them. |
| Handler.HttpStatData | server/handler.go:126-159 | The order is token (403), then `t` (400), then an unknown target (400). A known target gives statistics with interval `i`: one entry per DataSet, sorted by observer id, with the target of one of them (nil when there are none). The registry is unchanged. |
| Handler.Serve | server/server.go:33-36 | Of the registered api routes, only /api/data can change the registry. A change means a successful post and touches one existing cell. |
| Server.BuildRegistry | server/server.go:26-29 | The constructed registry's keys are exactly the configured target ids, and each inner map is empty. |
| Server.RegistrySize | server/server.go:26-29 | The registry has at most as many entries as configured targets, and exactly as many iff the target ids are distinct. Duplicates collapse. |
| Server.Start | server/server.go:21-29 | A failed configuration load returns that error before any registry exists. Otherwise the registry holds exactly the target ids, each with an empty observer map. |
| Server.Image | server/handler.go:82-84 | The loop over a target's DataSets yields one result per DataSet: the results are `f` of the DataSets along some enumeration of the target's observer keys that lists each key exactly once. So every DataSet's result appears as often as it occurs, and nothing else does. |
| Handler.TargetData | server/handler.go:80 | Reading an unknown target from the registry gives an empty map, as indexing a Go map does. A known target gives its observer map. |
| Web.DictPairs | server/web.go:20-28 | On an even-length list, the loop fails iff some key position is not a string. Otherwise the map's keys are exactly the key-position strings, each bound to the value after its last occurrence. |
| Web.Dict | server/web.go:16-29 | `dict` gives nil for an odd number of arguments or a non-string key. Otherwise it gives a map of exactly the given keys, where the last occurrence wins, and no arguments give an empty non-nil map. |
| Web.DictOfPairs | server/web.go:16-29 | Round trip: passing a list of pairs as arguments gives a map whose keys are the pairs' keys, each bound to its last pair's value. |
| Web.CategoryId | server/web.go:45-48 | The category id is `c` when it is a valid literal, and `DefaultCid` when it is absent or invalid. |
| Web.HttpIndex | server/web.go:39-67 | Every path except "/" and "/index.html" redirects to /index.html. On those two paths the page renders iff a category with the chosen id exists, and then shows it with the time range `r`. |
| Web.MissingDefaultCategoryLoops | server/web.go:45-57 | When no configured category has `DefaultCid` and `c` is unusable, /index.html redirects to itself. |
| Web.HttpDetail | server/web.go:69-99 | A missing or invalid `t` redirects, and so does a `t` no target has. Otherwise the page shows the first configured target with that id, with the time range `r`. |
| Common.FirstIndex | server/web.go:75-81 | The loop that breaks on its first match finds the first matching position, or reports that none matches. |
| Common.FindTarget | server/web.go:75-85 | The target search of `httpDetail` finds nothing iff no configured target has the id. Otherwise it finds the first configured target with that id. |
| Common.GetCategory | server/web.go:53-57 | `conf.GetCategory(cid)` is nil iff no configured category has the id. Otherwise it is the first configured category with that id (an assumption about package common). |
| Sorting.SortBy | server/handler.go:85-87 | The reordering is sorted by the key and is a permutation of its input. |
| Sorting.Ascending | server/handler.go:82 | An enumeration of a target's observer keys: each key exactly once, strictly ascending. |

## Left out

- The DataSet engine (`Put`, `GetAbbrData`, `GetFullData`, `GetStatData`,
  retention and aggregation) is not part of this model. Its four operations
  are parameters, and a DataSet's history is an opaque type.
- JSON encoding and decoding are library calls. A failing `json.Marshal`
  (the 500 "marshal ... error" responses) is not modelled. A body that fails
  `json.Unmarshal` is the `Malformed` outcome of the request's body.
- Reading the request body (`ioutil.ReadAll`) is I/O. Its failure is the
  `ReadFailed` outcome of the request's body.
- HTTP framework calls (`ParseForm`, `http.Error`, `http.Redirect`, header
  writes) are reduced to a status with a message tag, or a redirect location.
  The 301 status of redirects is implicit in `Redirect`. Whether
  `ParseForm` reads a posted form body before `ReadAll` is not modelled.
- Template parsing and execution, the static assets, and the template
  parameters taken straight from the configuration (`categories`,
  `observers`, and `conf.GetTargets(cid)`) are UI plumbing and are not
  modelled.
- `conf.GetCategory` lives in package common, which is not part of this
  model. It is taken to return the first configured category with the given
  id.
- `loadConf`'s file read and decode, `loadData`, `saveData`,
  `ListenAndServe` and the route table are I/O. `Start` takes the load
  outcome as input and ends once the registry is built.
- `deferKill` (signals, process exit) and the concurrent execution of
  handlers are left out. Each request is modelled as one atomic step on the
  registry.
- The command-line token and the `rangeDay` constant are declared outside
  the shown files. They are fields of the handlers' environment.
- Handler.HttpAbbrData: visits the map's keys in one fixed (ascending)
  order, where Go's order is unspecified. The contract states only
  properties that hold for every order, and it says which DataSet's summary
  is in the list but not at which position among equal observer ids.
- Handler.HttpStatData: the reported target is "one of the DataSets'
  targets", which is weaker than naming the one Go's random iteration visits
  last. `sort.Slice` is not stable, and the model's stable sort is one of the
  results it may produce.
- Handler.HttpStatData: `int(interval)` is passed on as an int64. On a
  64-bit platform `int` is int64, so no truncation is modelled.
- Handler.Serve: `httpStatData` is never registered as a route in `Start`,
  so no request reaches it. It is modelled on its own and is not part of
  `Serve`.
- Web.HttpDetail: `Start` registers no page route except "/", which goes to
  `httpIndex`. So a request for the detail page reaches `httpIndex` and is
  redirected to /index.html, and `httpDetail` is as unreachable as
  `httpStatData`. It is modelled on its own, as the code defines it.
