/** server/web.go: the `dict` template helper and the choices the two HTML
    pages make before rendering — which path is served, which category or
    target is shown, and when the visitor is sent back to /index.html. */
module Web {
  import opened Wrappers
  import opened StrConv
  import opened Params
  import opened Common

  /** The dynamic (`interface{}`) arguments a template passes to `dict`; only
      a `string` passes the key type assertion. */
  datatype Value = Str(s: string) | Num(n: int) | Flag(b: bool) | Nil

  /** Position `i` is a key position holding the key `k`. */
  ghost predicate KeyAt(values: seq<Value>, i: int, k: string) {
    0 <= i < |values| && i % 2 == 0 && values[i] == Str(k)
  }

  /** Position `i` holds the key `k` and no later key position repeats it. */
  ghost predicate LastKeyAt(values: seq<Value>, i: int, k: string) {
    KeyAt(values, i, k) && forall j :: i < j < |values| && j % 2 == 0 ==> values[j] != Str(k)
  }

  /** Every key position holds a string. */
  predicate StringKeys(values: seq<Value>) {
    forall i :: 0 <= i < |values| && i % 2 == 0 ==> values[i].Str?
  }

  /** The map built from an even-length argument list, each later pair
      overriding an earlier one with the same key. */
  function DictPairs(values: seq<Value>): (r: Option<map<string, Value>>)
    requires |values| % 2 == 0
    ensures r.Some? <==> StringKeys(values)
    ensures r.Some? ==> forall k :: k in r.value <==> exists i :: KeyAt(values, i, k)
    ensures r.Some? ==> forall i, k :: LastKeyAt(values, i, k) ==>
              i + 1 < |values| && k in r.value && r.value[k] == values[i + 1]
    decreases |values|
  {
    if values == [] then Some(map[])
    else
      var pre := values[..|values| - 2];
      var key, val := values[|values| - 2], values[|values| - 1];
      assert forall i :: 0 <= i < |pre| ==> pre[i] == values[i];
      match DictPairs(pre)
      case None => None
      case Some(m) =>
        if !key.Str? then None
        else
          DictPairsSnoc(values, pre, m);
          Some(m[key.s := val])
  }

  /** Adding one key/value pair to the end of the list binds its key in the
      map of the shorter list, and keeps every other key's binding. */
  lemma DictPairsSnoc(values: seq<Value>, pre: seq<Value>, m: map<string, Value>)
    requires |values| >= 2 && |values| % 2 == 0 && values[|values| - 2].Str?
    requires pre == values[..|values| - 2]
    requires forall k :: k in m <==> exists i :: KeyAt(pre, i, k)
    requires forall i, k :: LastKeyAt(pre, i, k) ==>
               i + 1 < |values| - 2 && k in m && m[k] == values[i + 1]
    ensures var r := m[values[|values| - 2].s := values[|values| - 1]];
              forall k :: k in r <==> exists i :: KeyAt(values, i, k)
    ensures var r := m[values[|values| - 2].s := values[|values| - 1]];
              forall i, k :: LastKeyAt(values, i, k) ==> i + 1 < |values| && k in r && r[k] == values[i + 1]
  {
    var key, val := values[|values| - 2], values[|values| - 1];
    var r := m[key.s := val];
    assert forall i :: 0 <= i < |pre| ==> pre[i] == values[i];
    forall k
      ensures k in r <==> exists i :: KeyAt(values, i, k)
    {
      if k in m {
        var i :| KeyAt(pre, i, k);
        assert KeyAt(values, i, k);
      }
      if k == key.s {
        assert KeyAt(values, |values| - 2, k);
      }
      if i :| KeyAt(values, i, k) {
        if i < |pre| {
          assert KeyAt(pre, i, k);
        } else {
          assert i == |values| - 2;
        }
      }
    }
    forall i, k | LastKeyAt(values, i, k)
      ensures i + 1 < |values| && k in r && r[k] == values[i + 1]
    {
      if i < |pre| {
        assert values[|values| - 2] != Str(k);
        assert LastKeyAt(pre, i, k);
      }
    }
  }

  /** The `dict` template function: nil for an odd number of arguments or a
      key that is not a string; otherwise a map from every key to the argument
      after its last occurrence, and nothing else. No arguments give an empty,
      non-nil map. */
  function Dict(values: seq<Value>): (r: Option<map<string, Value>>)
    ensures |values| % 2 != 0 ==> r.None?
    ensures (exists i :: 0 <= i < |values| && i % 2 == 0 && !values[i].Str?) ==> r.None?
    ensures |values| % 2 == 0 && StringKeys(values) ==> r.Some?
    ensures r.Some? ==> forall k :: k in r.value <==> exists i :: KeyAt(values, i, k)
    ensures r.Some? ==> forall i, k :: LastKeyAt(values, i, k) ==>
              i + 1 < |values| && k in r.value && r.value[k] == values[i + 1]
    ensures values == [] ==> r == Some(map[])
  {
    if |values| % 2 != 0 then None else DictPairs(values)
  }

  /** The argument list that spells out `ps` pair by pair. */
  function Flatten(ps: seq<(string, Value)>): (values: seq<Value>)
    ensures |values| == 2 * |ps| && |values| % 2 == 0
  {
    if ps == [] then [] else Flatten(ps[..|ps| - 1]) + [Str(ps[|ps| - 1].0), ps[|ps| - 1].1]
  }

  /** The keys of a list of pairs. */
  function PairKeys(ps: seq<(string, Value)>): set<string> {
    set i | 0 <= i < |ps| :: ps[i].0
  }

  lemma PairKeysSnoc(ps: seq<(string, Value)>)
    requires ps != []
    ensures PairKeys(ps) == PairKeys(ps[..|ps| - 1]) + {ps[|ps| - 1].0}
  {
    var init := ps[..|ps| - 1];
    forall k | k in PairKeys(ps)
      ensures k in PairKeys(init) + {ps[|ps| - 1].0}
    {
      var i :| 0 <= i < |ps| && ps[i].0 == k;
      if i < |init| {
        assert init[i].0 == k;
      }
    }
    forall k | k in PairKeys(init)
      ensures k in PairKeys(ps)
    {
      var i :| 0 <= i < |init| && init[i].0 == k;
      assert ps[i].0 == k;
    }
  }

  /** No later pair repeats the key of pair `i`. */
  ghost predicate LastPair(ps: seq<(string, Value)>, i: int) {
    0 <= i < |ps| && forall j :: i < j < |ps| ==> ps[j].0 != ps[i].0
  }

  /** Appending a pair keeps every earlier last pair's binding, and binds the
      appended key to the appended value. */
  lemma LastPairsSnoc(ps: seq<(string, Value)>, m: map<string, Value>)
    requires ps != []
    requires forall i :: LastPair(ps[..|ps| - 1], i) ==> ps[i].0 in m && m[ps[i].0] == ps[i].1
    ensures forall i :: LastPair(ps, i) ==>
              var r := m[ps[|ps| - 1].0 := ps[|ps| - 1].1]; ps[i].0 in r && r[ps[i].0] == ps[i].1
  {
    var init, last := ps[..|ps| - 1], ps[|ps| - 1];
    forall i | LastPair(ps, i)
      ensures ps[i].0 in m[last.0 := last.1] && m[last.0 := last.1][ps[i].0] == ps[i].1
    {
      if i < |init| {
        assert LastPair(init, i) by {
          assert forall j :: i < j < |init| ==> init[j] == ps[j];
        }
        assert last.0 != ps[i].0;
      }
    }
  }

  /** Round trip: `dict` over a spelled-out list of pairs returns the map with
      exactly those keys, each bound to the value of its last pair. */
  lemma {:induction false} DictOfPairs(ps: seq<(string, Value)>)
    ensures Dict(Flatten(ps)).Some?
    ensures Dict(Flatten(ps)).value.Keys == PairKeys(ps)
    ensures forall i :: LastPair(ps, i) ==> Dict(Flatten(ps)).value[ps[i].0] == ps[i].1
    decreases |ps|
  {
    if ps != [] {
      var init, last := ps[..|ps| - 1], ps[|ps| - 1];
      DictOfPairs(init);
      PairKeysSnoc(ps);
      var values := Flatten(ps);
      assert values[..|values| - 2] == Flatten(init);
      var m := Dict(Flatten(init)).value;
      assert DictPairs(Flatten(init)) == Some(m);
      var r := m[last.0 := last.1];
      assert values[|values| - 2] == Str(last.0) && values[|values| - 1] == last.1;
      assert DictPairs(values) == Some(r);
      assert Dict(values) == Some(r);
      assert forall i :: LastPair(init, i) ==> ps[i] == init[i];
      LastPairsSnoc(ps, m);
    }
  }

  /** Where every redirect of the pages points. */
  const IndexPath := "/index.html"

  /** A page handler either redirects (301) or renders its template with a view. */
  datatype Page<V> = Redirect(location: string) | Render(view: V)

  /** The parameters of the index template that depend on the request. */
  datatype IndexView = IndexView(category: Category, timeRange: int64)

  /** The parameters of the detail template that depend on the request. */
  datatype DetailView = DetailView(target: Target, timeRange: int64)

  /** The category id `c`: `conf.DefaultCid` both when absent and when it does
      not parse. */
  function CategoryId(conf: Conf, form: Form): (cid: int64)
    ensures IntField(form, "c").Some? ==> cid == IntField(form, "c").value
    ensures IntField(form, "c").None? ==> cid == conf.defaultCid
  {
    var p := ParseIntParam(form, "c", true, conf.defaultCid);
    if p.err.Some? then conf.defaultCid else p.value
  }

  /** `httpIndex`: every path but "/" and "/index.html" is redirected to
      /index.html; on those two, the chosen category is shown when one with
      that id is configured, and otherwise the visitor is redirected. */
  function HttpIndex(conf: Conf, rangeDay: int64, path: string, form: Form): (p: Page<IndexView>)
    ensures p.Redirect? ==> p.location == IndexPath
    ensures path != "/" && path != IndexPath ==> p.Redirect?
    ensures path == "/" || path == IndexPath ==>
              (p.Render? <==> exists i :: 0 <= i < |conf.categories| && conf.categories[i].id == CategoryId(conf, form))
    ensures p.Render? ==> && p.view.category.id == CategoryId(conf, form)
                          && p.view.category in conf.categories
                          && p.view.timeRange == TimeRange(rangeDay, form)
  {
    if path != "/" && path != IndexPath then Redirect(IndexPath)
    else
      var cid := CategoryId(conf, form);
      var timeRange := TimeRange(rangeDay, form);
      match GetCategory(conf, cid)
      case None => Redirect(IndexPath)
      case Some(category) => Render(IndexView(category, timeRange))
  }

  /** When the default category is not configured, /index.html without a
      usable `c` redirects to itself, so a browser following it loops. */
  lemma MissingDefaultCategoryLoops(conf: Conf, rangeDay: int64, form: Form)
    requires forall i :: 0 <= i < |conf.categories| ==> conf.categories[i].id != conf.defaultCid
    requires IntField(form, "c").None?
    ensures HttpIndex(conf, rangeDay, IndexPath, form) == Redirect(IndexPath)
  {
  }

  /** `httpDetail`: the first configured target whose id is `t`; a missing or
      unparsable `t`, or one no target has, redirects to /index.html. */
  function HttpDetail(conf: Conf, rangeDay: int64, form: Form): (p: Page<DetailView>)
    ensures p.Redirect? ==> p.location == IndexPath
    ensures IntField(form, "t").None? ==> p.Redirect?
    ensures IntField(form, "t").Some? ==>
              (p.Render? <==> exists i :: 0 <= i < |conf.targets| && conf.targets[i].id == IntField(form, "t").value)
    ensures p.Render? ==>
              && p.view.target.id == IntField(form, "t").value
              && p.view.timeRange == TimeRange(rangeDay, form)
              && exists i :: 0 <= i < |conf.targets| && conf.targets[i] == p.view.target
                   && forall j :: 0 <= j < i ==> conf.targets[j].id != p.view.target.id
  {
    var tp := ParseIntParam(form, "t", false, -1);
    if tp.err.Some? then Redirect(IndexPath)
    else
      match FindTarget(conf, tp.value)
      case None => Redirect(IndexPath)
      case Some(target) => Render(DetailView(target, TimeRange(rangeDay, form)))
  }
}
