/** The configuration entities the server reads: targets (monitored hosts),
    observers (probing agents) and dashboard categories. Only the fields the
    server's decisions look at are kept. */
module Common {
  import opened Wrappers
  import opened StrConv

  datatype Target = Target(id: int64, name: string)

  datatype Observer = Observer(id: int64, name: string)

  datatype Category = Category(id: int64, name: string)

  /** The loaded configuration, `conf`. */
  datatype Conf = Conf(
    targets: seq<Target>,
    observers: seq<Observer>,
    categories: seq<Category>,
    defaultCid: int64)

  /** The position of the first element satisfying `p`, as a `for ... range`
      loop that `break`s on its first match finds it. */
  function FirstIndex<T>(s: seq<T>, p: T -> bool): (r: Option<nat>)
    ensures r.Some? ==> r.value < |s| && p(s[r.value])
    ensures r.Some? ==> forall j :: 0 <= j < r.value ==> !p(s[j])
    ensures r.None? ==> forall j :: 0 <= j < |s| ==> !p(s[j])
  {
    if s == [] then None
    else if p(s[0]) then Some(0)
    else
      match FirstIndex(s[1..], p)
      case None => None
      case Some(k) => Some(k + 1)
  }

  /** The first configured target whose id is `id`: the search loop of
      `httpDetail`. */
  function FindTarget(conf: Conf, id: int64): (r: Option<Target>)
    ensures r.None? <==> forall i :: 0 <= i < |conf.targets| ==> conf.targets[i].id != id
    ensures r.Some? ==> exists i :: 0 <= i < |conf.targets| && conf.targets[i] == r.value && r.value.id == id
                          && forall j :: 0 <= j < i ==> conf.targets[j].id != id
  {
    match FirstIndex(conf.targets, (t: Target) => t.id == id)
    case None => None
    case Some(i) => Some(conf.targets[i])
  }

  /** `conf.GetCategory(cid)`, taken to be the first configured category whose
      id is `cid` (package common is not part of this model). */
  function GetCategory(conf: Conf, cid: int64): (r: Option<Category>)
    ensures r.None? <==> forall i :: 0 <= i < |conf.categories| ==> conf.categories[i].id != cid
    ensures r.Some? ==> exists i :: 0 <= i < |conf.categories| && conf.categories[i] == r.value && r.value.id == cid
                          && forall j :: 0 <= j < i ==> conf.categories[j].id != cid
  {
    match FirstIndex(conf.categories, (c: Category) => c.id == cid)
    case None => None
    case Some(i) => Some(conf.categories[i])
  }
}
