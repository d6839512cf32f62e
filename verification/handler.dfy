/** server/handler.go: the JSON api handlers as pure functions from a request
    and the registry to a response and the registry afterwards.

    A request is reduced to what the handlers look at: the method, the value
    of the token header, the parsed form and the outcome of reading and
    decoding the body. A response is either a success with its payload or an
    `http.Error` status with a tag naming its message. */
module Handler {
  import opened Wrappers
  import opened StrConv
  import opened Params
  import opened Common
  import opened Server
  import Sorting

  const StatusOK := 200
  const StatusBadRequest := 400
  const StatusForbidden := 403
  const StatusMethodNotAllowed := 405
  const StatusInternalServerError := 500

  const MethodPost := "POST"

  /** The messages `http.Error` is called with. */
  datatype Message =
    | MethodNotAllowed   // "http method not allowed"
    | TokenInvalid       // "token invalid"
    | BadParam(err: ParamError)   // err.Error() of parseIntParam
    | ReadBodyFailed     // "read post data error: ..."
    | UnmarshalFailed    // "unmarshal port data error: ..."
    | NoSuchTarget       // "no such target id or observer id"

  /** What a successful handler writes. */
  datatype Payload =
    | NoContent
    | Targets(targets: seq<Target>)
    | Abbr(summaries: seq<AbbrDataSet>)
    | Full(data: FullData)
    | Stat(target: Option<Target>, stats: seq<StatDataSet>)

  datatype Response = Ok(payload: Payload) | Error(status: int, message: Message) {
    function Status(): int {
      if Ok? then StatusOK else status
    }
  }

  /** The request body after `ioutil.ReadAll` and `json.Unmarshal`. */
  datatype Body = ReadFailed | Malformed | Decoded(record: Record)

  datatype Request = Request(httpMethod: string, token: string, form: Form, body: Body)

  /** What the handlers read besides the request: the configuration, the
      configured token (`Token` of the command-line arguments) and the
      `rangeDay` constant. */
  datatype Env = Env(conf: Conf, token: string, rangeDay: int64)

  /** A response and the registry after the request. */
  datatype Exchange = Exchange(response: Response, registry: Registry)

  /** The key `observer.Id` the read handlers sort their results by. */
  function ObserverKey<S>(x: PerObserver<S>): int {
    x.observer.id as int
  }

  /** `checkToken`: the request passes exactly when its token header equals the
      configured token; otherwise the handler answers 403. */
  function CheckToken(env: Env, req: Request): (r: Option<Response>)
    ensures r.None? <==> req.token == env.token
    ensures r.Some? ==> r.value.Status() == StatusForbidden && r.value == Error(StatusForbidden, TokenInvalid)
  {
    if req.token != env.token then Some(Error(StatusForbidden, TokenInvalid)) else None
  }

  /** With no token configured, a request that sends no token header passes:
      a missing header reads as "", which equals the empty configured token. */
  lemma EmptyTokenAdmitsMissingHeader(env: Env, req: Request)
    requires env.token == "" && req.token == ""
    ensures CheckToken(env, req).None?
    ensures HttpConf(env, map[], req).response == Ok(Targets(env.conf.targets))
  {
  }

  /** A required id parameter (`t` or `o`): `parseIntParam(r, key, false, -1)`. */
  function RequiredId(form: Form, key: string): (p: Param)
    ensures p.err.None? <==> IntField(form, key).Some?
    ensures p.err.None? ==> p.value == IntField(form, key).value
    ensures FormGet(form, key) == "" ==> p.err == Some(MissingParam)
    ensures FormGet(form, key) != "" && IntField(form, key).None? ==>
              p.err == Some(Invalid(ParseInt(FormGet(form, key)).error))
  {
    ParseIntParam(form, key, false, -1)
  }

  /** The statistics interval `i`: 10 when absent and when it does not parse,
      since the error is discarded and the default comes back with it. */
  function Interval(form: Form): (i: int64)
    ensures IntField(form, "i").None? ==> i == 10
    ensures IntField(form, "i").Some? ==> i == IntField(form, "i").value
  {
    ParseIntParam(form, "i", true, 10).value
  }

  /** The DataSets registered under target `t`; a missing target reads as an
      empty map, as indexing a Go map does. */
  function TargetData(reg: Registry, t: int64): (data: map<int64, DataSet>)
    ensures t in reg ==> data == reg[t]
    ensures t !in reg ==> data == map[]
  {
    if t in reg then reg[t] else map[]
  }

  /** The registry differs from `reg` at most in cell `(t, o)`: the same target
      keys, the same observer keys, and the same DataSet everywhere else. */
  ghost predicate OnlyCellChanged(reg: Registry, reg': Registry, t: int64, o: int64) {
    && reg'.Keys == reg.Keys
    && (forall t' :: t' in reg ==> reg'[t'].Keys == reg[t'].Keys)
    && (forall t', o' :: t' in reg && o' in reg[t'] && (t' != t || o' != o) ==> reg'[t'][o'] == reg[t'][o'])
  }

  /** `httpConf`: the configured targets, to token holders only. */
  function HttpConf(env: Env, reg: Registry, req: Request): (x: Exchange)
    ensures x.registry == reg
    ensures req.token != env.token ==> x.response == Error(StatusForbidden, TokenInvalid)
    ensures req.token == env.token ==> x.response == Ok(Targets(env.conf.targets))
  {
    match CheckToken(env, req)
    case Some(denied) => Exchange(denied, reg)
    case None => Exchange(Ok(Targets(env.conf.targets)), reg)
  }

  /** `httpData`: an observer posts one record for cell `(t, o)`. The checks run
      in the source's order (method, token, `t`, `o`, body read, body decode,
      cell lookup) and the first one that fails decides the response; only a
      request that passes all of them reaches `Put`, on exactly that cell. */
  function HttpData(env: Env, eng: Engine, reg: Registry, req: Request): (x: Exchange)
    ensures req.httpMethod != MethodPost ==> x.response == Error(StatusMethodNotAllowed, MethodNotAllowed)
    ensures req.httpMethod == MethodPost && req.token != env.token ==> x.response == Error(StatusForbidden, TokenInvalid)
    ensures req.httpMethod == MethodPost && req.token == env.token && IntField(req.form, "t").None? ==>
              x.response == Error(StatusBadRequest, BadParam(RequiredId(req.form, "t").err.value))
    ensures req.httpMethod == MethodPost && req.token == env.token && IntField(req.form, "t").Some? && IntField(req.form, "o").None? ==>
              x.response == Error(StatusBadRequest, BadParam(RequiredId(req.form, "o").err.value))
    ensures req.httpMethod == MethodPost && req.token == env.token && IntField(req.form, "t").Some? && IntField(req.form, "o").Some? ==>
              && (req.body.ReadFailed? ==> x.response == Error(StatusInternalServerError, ReadBodyFailed))
              && (req.body.Malformed? ==> x.response == Error(StatusBadRequest, UnmarshalFailed))
    ensures x.response.Ok? <==>
              && req.httpMethod == MethodPost && req.token == env.token
              && IntField(req.form, "t").Some? && IntField(req.form, "o").Some? && req.body.Decoded?
              && IntField(req.form, "t").value in reg && IntField(req.form, "o").value in reg[IntField(req.form, "t").value]
    ensures x.response.Ok? ==> x.response.payload == NoContent
    ensures x.response.Ok? ==>
              var t, o := IntField(req.form, "t").value, IntField(req.form, "o").value;
              && OnlyCellChanged(reg, x.registry, t, o)
              && x.registry[t][o] == eng.put(reg[t][o], req.body.record)
    ensures !x.response.Ok? ==> x.registry == reg
    ensures x.response.Error? && req.httpMethod == MethodPost && req.token == env.token
            && IntField(req.form, "t").Some? && IntField(req.form, "o").Some? && req.body.Decoded? ==>
              x.response == Error(StatusBadRequest, NoSuchTarget)
  {
    if req.httpMethod != MethodPost then Exchange(Error(StatusMethodNotAllowed, MethodNotAllowed), reg)
    else match CheckToken(env, req)
    case Some(denied) => Exchange(denied, reg)
    case None =>
      var tp := RequiredId(req.form, "t");
      if tp.err.Some? then Exchange(Error(StatusBadRequest, BadParam(tp.err.value)), reg)
      else
        var op := RequiredId(req.form, "o");
        if op.err.Some? then Exchange(Error(StatusBadRequest, BadParam(op.err.value)), reg)
        else match req.body
        case ReadFailed => Exchange(Error(StatusInternalServerError, ReadBodyFailed), reg)
        case Malformed => Exchange(Error(StatusBadRequest, UnmarshalFailed), reg)
        case Decoded(record) =>
          var t, o := tp.value, op.value;
          if t in reg && o in reg[t] then
            Exchange(Ok(NoContent), reg[t := reg[t][o := eng.put(reg[t][o], record)]])
          else
            Exchange(Error(StatusBadRequest, NoSuchTarget), reg)
  }

  /** `GetAbbrData(tr)`, as a function of the DataSet. */
  function AbbrOf(eng: Engine, tr: int64): DataSet -> AbbrDataSet {
    (d: DataSet) => eng.abbr(d, tr)
  }

  /** `GetStatData(interval)`, as a function of the DataSet. */
  function StatOf(eng: Engine, interval: int64): DataSet -> StatDataSet {
    (d: DataSet) => eng.stat(d, interval)
  }

  /** The loop-then-`sort.Slice` of the read handlers: `f` of every DataSet of
      a target, reordered by ascending `key`. Exactly one result per observer
      entry, and nothing else. */
  function Collect<A(==)>(data: map<int64, DataSet>, f: DataSet -> A, key: A -> int): (r: seq<A>)
    ensures Sorting.SortedBy(r, key)
    ensures multiset(r) == multiset(Image(data, f))
    ensures |r| == |data|
    ensures forall o :: o in data ==> f(data[o]) in r
    ensures forall i :: 0 <= i < |r| ==> ImageOfSome(r[i], data, f)
  {
    var all := Image(data, f);
    var r := Sorting.SortBy(all, key);
    assert forall o :: o in data ==> f(data[o]) in r by {
      forall o | o in data
        ensures f(data[o]) in r
      {
        assert f(data[o]) in multiset(all);
      }
    }
    assert forall i :: 0 <= i < |r| ==> ImageOfSome(r[i], data, f) by {
      forall i | 0 <= i < |r|
        ensures ImageOfSome(r[i], data, f)
      {
        assert r[i] in multiset(all);
        var j :| 0 <= j < |all| && all[j] == r[i];
        assert ImageOfSome(all[j], data, f);
      }
    }
    r
  }

  /** `httpAbbrData`: one summary per DataSet registered under `t`, ordered by
      ascending observer id; an unknown target gives an empty list, not an
      error. Neither the method nor the token is checked. */
  function HttpAbbrData(env: Env, eng: Engine, reg: Registry, req: Request): (x: Exchange)
    ensures x.registry == reg
    ensures IntField(req.form, "t").None? ==>
              x.response == Error(StatusBadRequest, BadParam(RequiredId(req.form, "t").err.value))
    ensures IntField(req.form, "t").Some? ==>
              var data, f := TargetData(reg, IntField(req.form, "t").value), AbbrOf(eng, TimeRange(env.rangeDay, req.form));
              && x.response.Ok? && x.response.payload.Abbr?
              && var items := x.response.payload.summaries;
              && Sorting.SortedBy(items, ObserverKey)
              && multiset(items) == multiset(Image(data, f))
              && |items| == |data|
              && (forall o :: o in data ==> f(data[o]) in items)
              && (forall i :: 0 <= i < |items| ==> ImageOfSome(items[i], data, f))
  {
    var tp := RequiredId(req.form, "t");
    if tp.err.Some? then Exchange(Error(StatusBadRequest, BadParam(tp.err.value)), reg)
    else
      var data := TargetData(reg, tp.value);
      var f := AbbrOf(eng, TimeRange(env.rangeDay, req.form));
      Exchange(Ok(Abbr(Collect(data, f, ObserverKey))), reg)
  }

  /** `httpFullData`: the raw records of cell `(t, o)`, or 400 when either level
      of the registry lacks the key. Neither the method nor the token is
      checked. */
  function HttpFullData(env: Env, eng: Engine, reg: Registry, req: Request): (x: Exchange)
    ensures x.registry == reg
    ensures IntField(req.form, "t").None? ==>
              x.response == Error(StatusBadRequest, BadParam(RequiredId(req.form, "t").err.value))
    ensures IntField(req.form, "t").Some? && IntField(req.form, "o").None? ==>
              x.response == Error(StatusBadRequest, BadParam(RequiredId(req.form, "o").err.value))
    ensures IntField(req.form, "t").Some? && IntField(req.form, "o").Some? ==>
              var t, o := IntField(req.form, "t").value, IntField(req.form, "o").value;
              && (t in reg && o in reg[t] ==> x.response == Ok(Full(eng.full(reg[t][o], TimeRange(env.rangeDay, req.form)))))
              && (!(t in reg && o in reg[t]) ==> x.response == Error(StatusBadRequest, NoSuchTarget))
  {
    var tp := RequiredId(req.form, "t");
    if tp.err.Some? then Exchange(Error(StatusBadRequest, BadParam(tp.err.value)), reg)
    else
      var op := RequiredId(req.form, "o");
      if op.err.Some? then Exchange(Error(StatusBadRequest, BadParam(op.err.value)), reg)
      else
        var tr := TimeRange(env.rangeDay, req.form);
        var t, o := tp.value, op.value;
        if t in reg && o in reg[t] then Exchange(Ok(Full(eng.full(reg[t][o], tr))), reg)
        else Exchange(Error(StatusBadRequest, NoSuchTarget), reg)
  }

  /** The target reported with the statistics: that of the last DataSet the
      loop visits, so nil when the target has no DataSets. */
  function LastTarget(data: map<int64, DataSet>): (t: Option<Target>)
    ensures t.None? <==> data == map[]
    ensures t.Some? ==> exists o :: o in data && data[o].target == t.value
  {
    var ks := ObserverKeys(data);
    assert ks == [] <==> data == map[] by {
      assert |data| == |data.Keys|;
    }
    if ks == [] then None else Some(data[ks[|ks| - 1]].target)
  }

  /** `httpStatData`: token first, then `t`; for a known target, one statistics
      entry per DataSet ordered by ascending observer id together with the
      target of one of them (nil when there is none); an unknown target is a
      400. */
  function HttpStatData(env: Env, eng: Engine, reg: Registry, req: Request): (x: Exchange)
    ensures x.registry == reg
    ensures req.token != env.token ==> x.response == Error(StatusForbidden, TokenInvalid)
    ensures req.token == env.token && IntField(req.form, "t").None? ==>
              x.response == Error(StatusBadRequest, BadParam(RequiredId(req.form, "t").err.value))
    ensures req.token == env.token && IntField(req.form, "t").Some? && IntField(req.form, "t").value !in reg ==>
              x.response == Error(StatusBadRequest, NoSuchTarget)
    ensures req.token == env.token && IntField(req.form, "t").Some? && IntField(req.form, "t").value in reg ==>
              var data, f := reg[IntField(req.form, "t").value], StatOf(eng, Interval(req.form));
              && x.response.Ok? && x.response.payload.Stat?
              && var items := x.response.payload.stats;
              && Sorting.SortedBy(items, ObserverKey)
              && multiset(items) == multiset(Image(data, f))
              && |items| == |data|
              && (forall o :: o in data ==> f(data[o]) in items)
              && (forall i :: 0 <= i < |items| ==> ImageOfSome(items[i], data, f))
              && (x.response.payload.target.None? <==> data == map[])
              && (x.response.payload.target.Some? ==>
                    exists o :: o in data && data[o].target == x.response.payload.target.value)
  {
    match CheckToken(env, req)
    case Some(denied) => Exchange(denied, reg)
    case None =>
      var tp := RequiredId(req.form, "t");
      if tp.err.Some? then Exchange(Error(StatusBadRequest, BadParam(tp.err.value)), reg)
      else
        var f := StatOf(eng, Interval(req.form));
        if tp.value !in reg then Exchange(Error(StatusBadRequest, NoSuchTarget), reg)
        else
          var data := reg[tp.value];
          Exchange(Ok(Stat(LastTarget(data), Collect(data, f, ObserverKey))), reg)
  }

  /** The api routes `Start` registers: /api/conf, /api/data, /api/data/abbr
      and /api/data/full. `httpStatData` is defined but never registered, so
      no request reaches it. */
  datatype Route = ConfRoute | DataRoute | AbbrRoute | FullRoute

  /** One api request on a registered route. Only a successful post to
      /api/data changes the registry, and then in one existing cell. */
  function Serve(route: Route, env: Env, eng: Engine, reg: Registry, req: Request): (x: Exchange)
    ensures route != DataRoute ==> x.registry == reg
    ensures x.registry != reg ==>
              && route == DataRoute && x.response.Ok?
              && exists t, o :: t in reg && o in reg[t] && OnlyCellChanged(reg, x.registry, t, o)
  {
    match route
    case ConfRoute => HttpConf(env, reg, req)
    case DataRoute => HttpData(env, eng, reg, req)
    case AbbrRoute => HttpAbbrData(env, eng, reg, req)
    case FullRoute => HttpFullData(env, eng, reg, req)
  }
}
