/** server/server.go: the registry of DataSets keyed by target id and then
    observer id, and the part of `Start` that builds it.

    The DataSet engine itself is not part of this model. A DataSet is a value
    carrying its target and observer and an opaque history, and the four
    engine operations are supplied as an `Engine` of functions. `Put` mutates
    the `*DataSet` in place in the source; here it returns the DataSet
    that replaces the old one in its registry cell. */
module Server {
  import opened Wrappers
  import opened StrConv
  import opened Common
  import Sorting

  /** The retained record history of one DataSet. */
  type History(==)

  /** One decoded observation, as posted by an observer. */
  type Record

  /** The summary `GetAbbrData` computes. */
  type Summary(==)

  /** The bucketed statistics `GetStatData` computes. */
  type Stats(==)

  /** The raw records `GetFullData` returns. */
  type FullData

  datatype DataSet = DataSet(target: Target, observer: Observer, history: History)

  /** A result computed from one DataSet, labelled with its observer. */
  datatype PerObserver<S> = PerObserver(observer: Observer, result: S)

  type AbbrDataSet = PerObserver<Summary>

  type StatDataSet = PerObserver<Stats>

  /** The DataSet methods the handlers call. */
  datatype Engine = Engine(
    put: (DataSet, Record) -> DataSet,
    abbr: (DataSet, int64) -> AbbrDataSet,
    full: (DataSet, int64) -> FullData,
    stat: (DataSet, int64) -> StatDataSet)

  /** `dataSets map[int64]map[int64]*DataSet`: target id, then observer id. */
  type Registry = map<int64, map<int64, DataSet>>

  /** The ids of the configured targets. */
  function TargetIds(ts: seq<Target>): set<int64> {
    set i | 0 <= i < |ts| :: ts[i].id
  }

  /** The construction loop of `Start`: one empty observer map per configured
      target id, a later duplicate id replacing the earlier entry with another
      empty map. */
  function BuildRegistry(ts: seq<Target>): (reg: Registry)
    ensures reg.Keys == TargetIds(ts)
    ensures forall t :: t in reg ==> reg[t] == map[]
    decreases |ts|
  {
    if ts == [] then map[]
    else
      var init := ts[..|ts| - 1];
      assert TargetIds(ts) == TargetIds(init) + {ts[|ts| - 1].id} by {
        assert forall i :: 0 <= i < |init| ==> init[i] == ts[i];
      }
      BuildRegistry(init)[ts[|ts| - 1].id := map[]]
  }

  predicate DistinctIds(ts: seq<Target>) {
    forall i, j :: 0 <= i < j < |ts| ==> ts[i].id != ts[j].id
  }

  /** Duplicate target ids collapse into one registry entry: the registry has
      at most as many entries as there are configured targets, and exactly as
      many when the ids are distinct. */
  lemma {:induction false} RegistrySize(ts: seq<Target>)
    ensures |BuildRegistry(ts)| <= |ts|
    ensures |BuildRegistry(ts)| == |ts| <==> DistinctIds(ts)
    decreases |ts|
  {
    var reg := BuildRegistry(ts);
    assert |reg| == |reg.Keys|;
    IdCount(ts);
  }

  lemma {:induction false} IdCount(ts: seq<Target>)
    ensures |TargetIds(ts)| <= |ts|
    ensures |TargetIds(ts)| == |ts| <==> DistinctIds(ts)
    decreases |ts|
  {
    if ts != [] {
      var init := ts[..|ts| - 1];
      var last := ts[|ts| - 1];
      IdCount(init);
      assert forall i :: 0 <= i < |init| ==> init[i] == ts[i];
      assert TargetIds(ts) == TargetIds(init) + {last.id};
      if last.id in TargetIds(init) {
        var i :| 0 <= i < |init| && init[i].id == last.id;
        assert ts[i].id == ts[|ts| - 1].id;
        assert !DistinctIds(ts);
      } else {
        assert |TargetIds(ts)| == |TargetIds(init)| + 1;
        if DistinctIds(ts) {
          assert DistinctIds(init);
        } else {
          var i, j :| 0 <= i < j < |ts| && ts[i].id == ts[j].id;
          assert ts[i] == init[i];
          assert j < |ts| - 1;
          assert init[i].id == init[j].id;
        }
      }
    }
  }

  /** Why `loadConf` failed: the file could not be read, or not decoded. */
  datatype ConfError = ReadError | DecodeError

  /** `Start` up to the point where the registry exists: a configuration that
      failed to load ends `Start` before any registry is built; otherwise the
      registry holds exactly the configured target ids, each with no observer
      entries yet (`loadData` adds those later). */
  function Start(loaded: Result<Conf, ConfError>): (r: Result<Registry, ConfError>)
    ensures loaded.Failure? ==> r == Failure(loaded.error)
    ensures loaded.Success? ==> r.Success?
    ensures loaded.Success? ==> r.value.Keys == TargetIds(loaded.value.targets)
    ensures r.Success? ==> forall t :: t in r.value ==> r.value[t] == map[]
  {
    match loaded
    case Failure(e) => Failure(e)
    case Success(conf) => Success(BuildRegistry(conf.targets))
  }

  /** The observer keys of one target in ascending order, one of the orders
      Go's map iteration may visit them in. */
  function ObserverKeys(data: map<int64, DataSet>): (ks: seq<int64>)
    ensures |ks| == |data|
    ensures forall i :: 0 <= i < |ks| ==> ks[i] in data
    ensures forall o :: o in data ==> o in ks
    ensures forall i, j :: 0 <= i < j < |ks| ==> ks[i] != ks[j]
  {
    assert |data| == |data.Keys|;
    Sorting.Ascending(data.Keys)
  }

  /** `x` is what `f` gives for some DataSet of `data`. */
  ghost predicate ImageOfSome<A>(x: A, data: map<int64, DataSet>, f: DataSet -> A) {
    exists o :: o in data && x == f(data[o])
  }

  /** `ks` lists every key of `data` exactly once. */
  ghost predicate KeyEnumeration(ks: seq<int64>, data: map<int64, DataSet>) {
    && |ks| == |data|
    && (forall i :: 0 <= i < |ks| ==> ks[i] in data)
    && (forall i, j :: 0 <= i < j < |ks| ==> ks[i] != ks[j])
  }

  /** `f` applied to every DataSet of one target, in iteration order: one
      result per observer key. */
  function Image<A>(data: map<int64, DataSet>, f: DataSet -> A): (r: seq<A>)
    ensures |r| == |data|
    ensures forall o :: o in data ==> f(data[o]) in r
    ensures forall i :: 0 <= i < |r| ==> ImageOfSome(r[i], data, f)
    ensures exists ks :: KeyEnumeration(ks, data) && |r| == |ks| && forall i :: 0 <= i < |r| ==> r[i] == f(data[ks[i]])
  {
    var ks := ObserverKeys(data);
    var r := ApplyAt(data, f, ks);
    ImageOfKeys(data, f, ks, r);
    assert KeyEnumeration(ks, data);
    r
  }

  /** `f` applied to the DataSets at the keys `ks`, in that order. */
  function ApplyAt<A>(data: map<int64, DataSet>, f: DataSet -> A, ks: seq<int64>): (r: seq<A>)
    requires forall i :: 0 <= i < |ks| ==> ks[i] in data
    ensures |r| == |ks| && forall i :: 0 <= i < |ks| ==> r[i] == f(data[ks[i]])
  {
    if ks == [] then [] else [f(data[ks[0]])] + ApplyAt(data, f, ks[1..])
  }

  /** Mapping `f` over an enumeration of the keys of `data` gives every
      DataSet's result and nothing else. */
  lemma ImageOfKeys<A>(data: map<int64, DataSet>, f: DataSet -> A, ks: seq<int64>, r: seq<A>)
    requires forall i :: 0 <= i < |ks| ==> ks[i] in data
    requires forall o :: o in data ==> o in ks
    requires |r| == |ks| && forall i :: 0 <= i < |ks| ==> r[i] == f(data[ks[i]])
    ensures forall o :: o in data ==> f(data[o]) in r
    ensures forall i :: 0 <= i < |r| ==> ImageOfSome(r[i], data, f)
  {
    forall o | o in data
      ensures f(data[o]) in r
    {
      var i :| 0 <= i < |ks| && ks[i] == o;
      assert r[i] == f(data[o]);
    }
    forall i | 0 <= i < |r|
      ensures ImageOfSome(r[i], data, f)
    {
      assert ks[i] in data && r[i] == f(data[ks[i]]);
    }
  }
}
