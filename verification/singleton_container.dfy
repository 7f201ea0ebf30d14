/** The container of reference-counted singletons (frameworks/wm/src/singleton_container.cpp): registration,
    dependencies, and the destructor, which is a topological sort in disguise. */
module Singletons {
  import Ordered
  import opened Sequences

  datatype Value = Void | Instance(address: int)

  datatype Singleton = Singleton(value: Value, refCount: int)

  datatype Container = Container(
    strings: map<string, int>,
    singletons: map<int, Singleton>,
    deps: map<int, set<int>>,
    nextId: int)

  // ----- the operations on values -----

  function EmptyContainer(): Container {
    Container(map[], map[], map[], 0)
  }

  /** `operator[]` of a map of singletons: a missing entry reads as a fresh one. */
  function Entry(m: map<int, Singleton>, k: int): Singleton {
    if k in m then m[k] else Singleton(Void, 0)
  }

  function Bump(m: map<int, Singleton>, k: int, delta: int): map<int, Singleton> {
    m[k := Singleton(Entry(m, k).value, Entry(m, k).refCount + delta)]
  }

  /** `operator[]` of the map of names: a missing name is entered with id 0. */
  function Named(strings: map<string, int>, name: string): map<string, int> {
    if name in strings then strings else strings[name := 0]
  }

  function DepsOf(deps: map<int, set<int>>, id: int): set<int> {
    if id in deps then deps[id] else {}
  }

  function Registering(c: Container, name: string, v: Value): Container {
    if name in c.strings then c
    else Container(c.strings[name := c.nextId], c.singletons[c.nextId := Singleton(v, 0)], c.deps, c.nextId + 1)
  }

  function Setting(c: Container, name: string, v: Value): Container {
    if name !in c.strings then Registering(c, name, v)
    else
      var id := c.strings[name];
      c.(singletons := c.singletons[id := Entry(c.singletons, id).(value := v)])
  }

  function Link(c: Container, a: int, b: int): Container {
    if b in DepsOf(c.deps, a) then c.(deps := c.deps[a := DepsOf(c.deps, a)])
    else c.(deps := c.deps[a := DepsOf(c.deps, a) + {b}], singletons := Bump(c.singletons, b, 1))
  }

  function Depending(c: Container, instance: string, name: string): Container {
    var strings := Named(Named(c.strings, instance), name);
    Link(c.(strings := strings), strings[instance], strings[name])
  }

  /** What GetSingleton answers. */
  function Got(c: Container, name: string): Value {
    if name in c.strings then Entry(c.singletons, c.strings[name]).value else Void
  }

  // ----- the dependency graph -----

  ghost predicate Edge(deps: map<int, set<int>>, a: int, b: int) {
    a in deps && b in deps[a]
  }

  ghost function Dependents(deps: map<int, set<int>>, k: int): set<int> {
    set a | a in deps && k in deps[a]
  }

  /** Every edge joins live singletons and every count is the number of live dependents; the count of id 0 may have
      slipped by a fixed amount. */
  ghost predicate Counted(c: Container, slip: int) {
    && (forall a :: a in c.deps ==> a in c.singletons)
    && (forall a, b :: Edge(c.deps, a, b) ==> b in c.singletons)
    && (forall k :: k in c.singletons ==>
          c.singletons[k].refCount == |Dependents(c.deps, k)| - if k == 0 then slip else 0)
  }

  ghost predicate Exact(c: Container) {
    Counted(c, 0)
  }

  /** What registration keeps: names lead to live singletons, ids are handed out in order, and before the first
      registration the only singleton there can be is a nameless one that depends on itself. */
  ghost predicate Registered(c: Container) {
    && 0 <= c.nextId
    && (forall name :: name in c.strings ==> c.strings[name] in c.singletons)
    && (forall k :: k in c.singletons ==> 0 <= k && (k < c.nextId || k == 0))
    && (c.nextId > 0 ==> 0 in c.singletons)
    && (c.nextId == 0 && 0 in c.singletons ==> Edge(c.deps, 0, 0))
  }

  lemma LinkDependents(deps: map<int, set<int>>, a: int, b: int, k: int)
    ensures var deps' := deps[a := DepsOf(deps, a) + {b}];
      Dependents(deps', k) == if k == b then Dependents(deps, k) + {a} else Dependents(deps, k)
  {
    var deps' := deps[a := DepsOf(deps, a) + {b}];
    forall x ensures x in Dependents(deps', k) <==> x in Dependents(deps, k) || (k == b && x == a) {}
  }

  lemma SameDependents(deps: map<int, set<int>>, a: int, k: int)
    ensures Dependents(deps[a := DepsOf(deps, a)], k) == Dependents(deps, k)
  {}

  /** Nothing depends on a singleton that is not there. */
  lemma NoDependents(c: Container, k: int, slip: int)
    requires Counted(c, slip) && k !in c.singletons
    ensures Dependents(c.deps, k) == {}
  {
    forall x ensures x !in Dependents(c.deps, k) {
      if x in Dependents(c.deps, k) {
        assert Edge(c.deps, x, k);
      }
    }
  }

  lemma LinkKeeps(c: Container, a: int, b: int, slip: int)
    requires Counted(c, slip)
    requires a in c.singletons || a == b
    requires b in c.singletons || (b == 0 && slip == 0)
    ensures Counted(Link(c, a, b), slip)
  {
    var c' := Link(c, a, b);
    forall k | k in c'.singletons
      ensures c'.singletons[k].refCount == |Dependents(c'.deps, k)| - if k == 0 then slip else 0
    {
      LinkCount(c, a, b, k, slip);
    }
    hide Dependents;
    forall x, y | Edge(c'.deps, x, y) ensures y in c'.singletons {
      assert Edge(c.deps, x, y) || y == b;
    }
  }

  lemma LinkCount(c: Container, a: int, b: int, k: int, slip: int)
    requires Counted(c, slip) && k in Link(c, a, b).singletons
    requires b in c.singletons || (b == 0 && slip == 0)
    ensures var c' := Link(c, a, b);
      c'.singletons[k].refCount == |Dependents(c'.deps, k)| - if k == 0 then slip else 0
  {
    LinkDependents(c.deps, a, b, k);
    SameDependents(c.deps, a, k);
    assert a in Dependents(c.deps, b) <==> b in DepsOf(c.deps, a);
    if k !in c.singletons {
      NoDependents(c, k, slip);
    }
    hide Dependents;
  }

  lemma LinkRegistered(c: Container, a: int, b: int)
    requires 0 <= c.nextId && (c.nextId > 0 ==> 0 in c.singletons)
    requires forall k :: k in c.singletons ==> 0 <= k && (k < c.nextId || k == 0)
    requires c.nextId == 0 && 0 in c.singletons ==> Edge(c.deps, 0, 0)
    requires forall name :: name in c.strings ==> c.strings[name] in c.singletons || c.strings[name] == b
    requires b in c.singletons || (b == 0 && b !in DepsOf(c.deps, a))
    requires c.nextId == 0 ==> a == 0 && b == 0
    ensures Registered(Link(c, a, b))
  {}

  lemma DependOnKeeps(c: Container, instance: string, name: string, slip: int)
    requires Registered(c) && Counted(c, slip) && (slip != 0 ==> c.nextId > 0)
    ensures Registered(Depending(c, instance, name)) && Counted(Depending(c, instance, name), slip)
  {
    var strings := Named(Named(c.strings, instance), name);
    var c1 := c.(strings := strings);
    LinkKeeps(c1, strings[instance], strings[name], slip);
    assert Edge(c.deps, strings[instance], strings[name]) ==> strings[name] in c.singletons;
    LinkRegistered(c1, strings[instance], strings[name]);
    hide Link, Counted, Registered;
  }

  /** Registering a new name keeps the counts exact unless its id is taken already, which is so for the very first
      registration when a dependency was declared before it. */
  lemma AddExact(c: Container, name: string, v: Value)
    requires Registered(c) && Exact(c) && name !in c.strings
    ensures Registered(Registering(c, name, v))
    ensures Exact(Registering(c, name, v)) <==> !(c.nextId == 0 && 0 in c.singletons)
    ensures c.nextId == 0 && 0 in c.singletons ==> Counted(Registering(c, name, v), 1)
  {
    var c' := Registering(c, name, v);
    if c.nextId in c.singletons {
      assert 0 in Dependents(c.deps, 0);
      assert forall x :: x in Dependents(c.deps, 0) ==> x in c.singletons;
      forall x ensures x in Dependents(c.deps, 0) <==> x in {0} {}
      assert Dependents(c.deps, 0) == {0};
      assert c'.singletons[0].refCount != |Dependents(c'.deps, 0)|;
    } else {
      NoDependents(c, c.nextId, 0);
    }
  }

  lemma AddKeepsSlip(c: Container, name: string, v: Value)
    requires Registered(c) && Counted(c, 1) && c.nextId > 0
    ensures Registered(Registering(c, name, v)) && Counted(Registering(c, name, v), 1)
  {
    if name !in c.strings {
      NoDependents(c, c.nextId, 1);
    }
  }

  /** The value given for a name is found under it, and under every name of the same id; nothing else changes. */
  lemma SettingFound(c: Container, name: string, v: Value)
    ensures var c' := Setting(c, name, v);
      && name in c'.strings && c'.deps == c.deps
      && (forall other :: Got(c', other) ==
            if other in c'.strings && c'.strings[other] == c'.strings[name] then v else Got(c, other))
      && (name in c.strings ==> forall k :: Entry(c'.singletons, k).refCount == Entry(c.singletons, k).refCount)
  {}

  /** Registering a known name changes nothing; a new one gets the next id, the value given, and a count of zero. */
  lemma RegisteringFound(c: Container, name: string, v: Value)
    ensures var c' := Registering(c, name, v);
      if name in c.strings then c' == c
      else
        && c'.strings == c.strings[name := c.nextId] && c'.nextId == c.nextId + 1 && c'.deps == c.deps
        && Got(c', name) == v && c'.singletons[c.nextId].refCount == 0
        && (forall k :: k != c.nextId ==> Entry(c'.singletons, k) == Entry(c.singletons, k))
  {}

  /** A dependency adds its edge and no other, and raises the count of the second singleton exactly when the edge is
      new; unknown names get the id 0, and no value changes. */
  lemma DependingExact(c: Container, instance: string, name: string)
    ensures var c' := Depending(c, instance, name);
      && (forall n :: n in c'.strings <==> n in c.strings || n == instance || n == name)
      && (forall n :: n in c'.strings ==> c'.strings[n] == if n in c.strings then c.strings[n] else 0)
      && var a, b := c'.strings[instance], c'.strings[name];
      && (forall x, y :: Edge(c'.deps, x, y) <==> Edge(c.deps, x, y) || (x == a && y == b))
      && (forall k :: Entry(c'.singletons, k).value == Entry(c.singletons, k).value)
      && (forall k :: Entry(c'.singletons, k).refCount
                      == Entry(c.singletons, k).refCount + if k == b && !Edge(c.deps, a, b) then 1 else 0)
  {}

  // ----- runs -----

  datatype Call =
    | Add(name: string, v: Value)
    | Set(name: string, v: Value)
    | Depend(instance: string, name: string)

  function Apply(c: Container, call: Call): Container {
    match call
    case Add(name, v) => Registering(c, name, v)
    case Set(name, v) => Setting(c, name, v)
    case Depend(instance, name) => Depending(c, instance, name)
  }

  function Run(c: Container, calls: seq<Call>): Container
    decreases |calls|
  {
    if calls == [] then c else Run(Apply(c, calls[0]), calls[1..])
  }

  /** Where a run can be: counts exact and either nothing registered or no slip possible any more, or slipped by one. */
  ghost predicate Status(c: Container, dependFirst: bool) {
    && Registered(c)
    && Counted(c, if dependFirst && c.nextId > 0 then 1 else 0)
    && (c.nextId == 0 ==> (dependFirst <==> 0 in c.singletons))
    && (dependFirst ==> Edge(c.deps, 0, 0))
  }

  lemma ApplyKeeps(c: Container, call: Call, dependFirst: bool)
    requires Status(c, dependFirst)
    requires c.nextId == 0 && !dependFirst ==> !call.Depend?
    ensures Status(Apply(c, call), dependFirst)
    ensures c.nextId == 0 && !dependFirst ==> Apply(c, call).nextId > 0
  {
    match call
    case Add(name, v) => RegisterKeeps(c, name, v, dependFirst);
    case Set(name, v) => RegisterKeeps(c, name, v, dependFirst);
    case Depend(instance, name) =>
      DependOnKeeps(c, instance, name, if dependFirst && c.nextId > 0 then 1 else 0);
  }

  lemma RegisterKeeps(c: Container, name: string, v: Value, dependFirst: bool)
    requires Status(c, dependFirst)
    ensures Status(Registering(c, name, v), dependFirst) && Status(Setting(c, name, v), dependFirst)
    ensures c.nextId == 0 && !dependFirst ==>
      Registering(c, name, v).nextId > 0 && Setting(c, name, v).nextId > 0
  {
    if name !in c.strings {
      if dependFirst && c.nextId > 0 {
        AddKeepsSlip(c, name, v);
      } else {
        AddExact(c, name, v);
      }
    }
  }

  lemma {:induction false} RunStatus(c: Container, calls: seq<Call>, dependFirst: bool)
    requires Status(c, dependFirst)
    requires c.nextId == 0 && !dependFirst && calls != [] ==> !calls[0].Depend?
    ensures Status(Run(c, calls), dependFirst)
    decreases |calls|
  {
    if calls != [] {
      ApplyKeeps(c, calls[0], dependFirst);
      RunStatus(Apply(c, calls[0]), calls[1..], dependFirst);
    }
  }

  /** Over every run of calls, each count is the number of live dependents, unless a dependency was declared before
      the first registration and something has been registered since. */
  lemma CountsExact(calls: seq<Call>)
    ensures Registered(Run(EmptyContainer(), calls))
    ensures Exact(Run(EmptyContainer(), calls))
      <==> !Slipped(calls)
  {
    var empty := EmptyContainer();
    var c := Run(empty, calls);
    if calls != [] && calls[0].Depend? {
      DependOnKeeps(empty, calls[0].instance, calls[0].name, 0);
      RunStatus(Apply(empty, calls[0]), calls[1..], true);
      assert c == Run(Apply(empty, calls[0]), calls[1..]);
      if c.nextId > 0 {
        SlippedIsNotExact(c);
      }
    } else {
      RunStatus(empty, calls, false);
    }
  }

  /** A dependency was declared before the first registration, and something has been registered since. */
  predicate Slipped(calls: seq<Call>) {
    calls != [] && calls[0].Depend? && Run(EmptyContainer(), calls).nextId > 0
  }

  /** The container less the edge from 0 to 0. */
  function Unlooped(c: Container): Container {
    if 0 in c.deps then c.(deps := c.deps[0 := c.deps[0] - {0}]) else c
  }

  /** The dependencies the counts stand for after a run. */
  function Dependencies(calls: seq<Call>): map<int, set<int>> {
    var c := Run(EmptyContainer(), calls);
    if Slipped(calls) then Unlooped(c).deps else c.deps
  }

  /** A slipped count is exact again without the edge from 0 to 0. */
  lemma UnloopedExact(c: Container)
    requires Counted(c, 1) && Edge(c.deps, 0, 0)
    ensures Exact(Unlooped(c))
  {
    var c' := Unlooped(c);
    forall k | k in c'.singletons ensures c'.singletons[k].refCount == |Dependents(c'.deps, k)| {
      if k == 0 {
        assert Dependents(c'.deps, 0) == Dependents(c.deps, 0) - {0};
        assert 0 in Dependents(c.deps, 0);
      } else {
        assert Dependents(c'.deps, k) == Dependents(c.deps, k);
      }
    }
    forall a, b ensures Edge(c'.deps, a, b) ==> Edge(c.deps, a, b) {}
  }

  ghost function Effective(c: Container): Container {
    if Exact(c) then c else Unlooped(c)
  }

  /** After every run the counts are exact for these dependencies. */
  lemma EffectiveExact(calls: seq<Call>)
    ensures var c := Run(EmptyContainer(), calls);
      Exact(Effective(c)) && Effective(c).deps == Dependencies(calls)
  {
    CountsExact(calls);
    var empty := EmptyContainer();
    var c := Run(empty, calls);
    if Slipped(calls) {
      DependOnKeeps(empty, calls[0].instance, calls[0].name, 0);
      RunStatus(Apply(empty, calls[0]), calls[1..], true);
      assert c == Run(Apply(empty, calls[0]), calls[1..]);
      UnloopedExact(c);
    }
  }

  lemma SlippedIsNotExact(c: Container)
    requires Counted(c, 1) && 0 in c.singletons
    ensures !Exact(c)
  {}

  /** A name used in a dependency before it is registered becomes a second name of the first singleton: registering it
      later changes nothing, and setting it overwrites the first singleton. */
  lemma EarlyNameIsAlias(c: Container, instance: string, name: string, v: Value)
    requires Registered(c) && name !in c.strings && instance != name
    ensures var c' := Depending(c, instance, name);
      && c'.strings[name] == 0
      && Registering(c', name, v) == c'
      && Setting(c', name, v).singletons == c'.singletons[0 := Entry(c'.singletons, 0).(value := v)]
  {}

  // ----- the destructor -----

  datatype Torn = Torn(c: Container, removed: seq<int>)

  function Lowered(m: map<int, Singleton>, ids: set<int>): map<int, Singleton> {
    map k | k in m.Keys + ids ::
      if k in ids then Singleton(Entry(m, k).value, Entry(m, k).refCount - 1) else m[k]
  }

  function Erase(c: Container, id: int): Container {
    c.(singletons := Lowered(c.singletons, DepsOf(c.deps, id)) - {id}, deps := c.deps - {id})
  }

  function Visit(t: Torn, id: int): Torn
    requires id in t.c.singletons
  {
    if t.c.singletons[id].refCount > 0 then t else Torn(Erase(t.c, id), t.removed + [id])
  }

  function After(c: Container, id: int): set<int> {
    set k | k in c.singletons.Keys && k > id
  }

  lemma EraseKeys(c: Container, id: int)
    ensures Erase(c, id).singletons.Keys == (c.singletons.Keys + DepsOf(c.deps, id)) - {id}
  {}

  lemma DepsShrink(deps: map<int, set<int>>, id: int)
    ensures id in deps ==> |deps - {id}| < |deps|
    ensures id !in deps ==> deps - {id} == deps
  {
    if id in deps {
      assert deps.Keys == (deps - {id}).Keys + {id};
    }
  }

  lemma EraseShrinks(c: Container, id: int)
    ensures id in c.deps ==> |Erase(c, id).deps| < |c.deps|
    ensures id !in c.deps ==> Erase(c, id).deps == c.deps && After(Erase(c, id), id) == After(c, id)
  {
    EraseKeys(c, id);
    DepsShrink(c.deps, id);
    hide Lowered;
  }

  lemma AfterNext(c: Container, id: int, next: int)
    requires next in After(c, id)
    ensures |After(c, next)| < |After(c, id)|
  {
    assert After(c, next) <= After(c, id) - {next};
    Ordered.SubsetSize(After(c, next), After(c, id) - {next});
  }

  /** The rest of one pass, the iterator standing at `id`. It ends on every container, whatever its counts. */
  ghost function PassFrom(t: Torn, id: int): Torn
    requires id in t.c.singletons
    decreases |t.c.deps|, |After(t.c, id)|
  {
    EraseShrinks(t.c, id);
    var t' := Visit(t, id);
    if After(t'.c, id) == {} then t'
    else
      var next := Ordered.Least(After(t'.c, id));
      AfterNext(t'.c, id, next);
      PassFrom(t', next)
  }

  ghost function Pass(t: Torn): Torn {
    if t.c.singletons.Keys == {} then t else PassFrom(t, Ordered.Least(t.c.singletons.Keys))
  }

  ghost function Passes(t: Torn, n: nat): Torn
    decreases n
  {
    if n == 0 then t else Passes(Pass(t), n - 1)
  }

  // ----- what a visit keeps -----

  /** Everything that depended on a removed singleton was removed before it. */
  ghost predicate DependentsFirst(deps: map<int, set<int>>, removed: seq<int>) {
    forall a, j :: 0 <= j < |removed| && Edge(deps, a, removed[j]) ==> a in removed[..j]
  }

  /** Part of the teardown of `c0` is done. */
  ghost predicate Partial(c0: Container, t: Torn) {
    && Exact(t.c)
    && Distinct(t.removed)
    && (forall k :: k in c0.singletons <==> k in t.c.singletons || k in t.removed)
    && (forall k :: k in t.removed ==> k !in t.c.singletons)
    && (forall a, b :: Edge(t.c.deps, a, b) <==> Edge(c0.deps, a, b) && a in t.c.singletons)
    && DependentsFirst(c0.deps, t.removed)
  }

  lemma EraseDependents(deps: map<int, set<int>>, id: int, k: int)
    ensures Dependents(deps - {id}, k) == Dependents(deps, k) - {id}
  {}

  lemma EraseCount(c: Container, id: int, k: int)
    requires Exact(c) && id in c.singletons && k in c.singletons && k != id
    ensures var c' := Erase(c, id);
      k in c'.singletons && c'.singletons[k].refCount == |Dependents(c'.deps, k)|
  {
    EraseDependents(c.deps, id, k);
    assert id in Dependents(c.deps, k) <==> k in DepsOf(c.deps, id);
    hide Dependents;
  }

  lemma FreeHasNoDependents(c: Container, id: int)
    requires Exact(c) && id in c.singletons && c.singletons[id].refCount <= 0
    ensures forall a :: !Edge(c.deps, a, id)
  {
    assert Dependents(c.deps, id) == {};
    forall a ensures !Edge(c.deps, a, id) {
      assert a !in Dependents(c.deps, id);
    }
  }

  /** Removing a singleton nobody depends on touches live counts only, and leaves every count exact. */
  lemma EraseKeeps(c: Container, id: int)
    requires Exact(c) && id in c.singletons && c.singletons[id].refCount <= 0
    ensures Exact(Erase(c, id)) && Erase(c, id).singletons.Keys == c.singletons.Keys - {id}
    ensures forall k :: k in DepsOf(c.deps, id) ==> k in c.singletons && k != id
    ensures forall a :: !Edge(c.deps, a, id)
    ensures forall a, b :: Edge(Erase(c, id).deps, a, b) <==> Edge(c.deps, a, b) && a != id
  {
    FreeHasNoDependents(c, id);
    EraseKeys(c, id);
    var c' := Erase(c, id);
    forall k | k in DepsOf(c.deps, id) ensures k in c.singletons && k != id {
      assert Edge(c.deps, id, k);
    }
    forall k | k in c'.singletons ensures c'.singletons[k].refCount == |Dependents(c'.deps, k)| {
      EraseCount(c, id, k);
    }
    hide Lowered, Dependents;
    forall a, b | Edge(c'.deps, a, b) ensures b in c'.singletons {
      assert Edge(c.deps, a, b);
    }
  }

  lemma OneMore(deps: map<int, set<int>>, removed: seq<int>, id: int)
    requires Distinct(removed) && DependentsFirst(deps, removed) && id !in removed
    requires forall a :: Edge(deps, a, id) ==> a in removed
    ensures Distinct(removed + [id]) && DependentsFirst(deps, removed + [id])
  {
    DistinctAppend(removed, id);
    var r := removed + [id];
    forall a, j | 0 <= j < |r| && Edge(deps, a, r[j]) ensures a in r[..j] {
      if j < |removed| {
        assert r[..j] == removed[..j];
      } else {
        assert r[..j] == removed;
      }
    }
  }

  lemma RemovalKeeps(c0: Container, t: Torn, id: int, t': Torn)
    requires Partial(c0, t) && id in t.c.singletons && Exact(t'.c)
    requires t'.c.singletons.Keys == t.c.singletons.Keys - {id} && t'.removed == t.removed + [id]
    requires forall a :: !Edge(t.c.deps, a, id)
    requires forall a, b :: Edge(t'.c.deps, a, b) <==> Edge(t.c.deps, a, b) && a != id
    requires forall a, b :: Edge(c0.deps, a, b) ==> a in c0.singletons
    ensures Partial(c0, t')
  {
    hide Counted, Distinct, DependentsFirst, Edge;
    forall a | Edge(c0.deps, a, id) ensures a in t.removed {
      assert !Edge(t.c.deps, a, id);
    }
    OneMore(c0.deps, t.removed, id);
    assert forall k :: k in t'.removed <==> k in t.removed || k == id;
  }

  lemma VisitKeeps(c0: Container, t: Torn, id: int)
    requires Partial(c0, t) && Exact(c0) && id in t.c.singletons
    ensures Partial(c0, Visit(t, id))
  {
    if t.c.singletons[id].refCount <= 0 {
      EraseKeeps(t.c, id);
      assert forall a, b :: Edge(c0.deps, a, b) ==> a in c0.singletons;
      hide Counted, Erase, Edge, Distinct, DependentsFirst;
      RemovalKeeps(c0, t, id, Visit(t, id));
    }
  }

  lemma {:induction false} PassFromKeeps(c0: Container, t: Torn, id: int)
    requires Partial(c0, t) && Exact(c0) && id in t.c.singletons
    ensures Partial(c0, PassFrom(t, id))
    ensures forall k :: k in PassFrom(t, id).c.singletons ==> k in t.c.singletons
    decreases |t.c.deps|, |After(t.c, id)|
  {
    EraseShrinks(t.c, id);
    VisitKeeps(c0, t, id);
    var t' := Visit(t, id);
    VisitKeys(t, id);
    hide Partial, Counted;
    if After(t'.c, id) != {} {
      var next := Ordered.Least(After(t'.c, id));
      AfterNext(t'.c, id, next);
      PassFromKeeps(c0, t', next);
    }
  }

  lemma VisitKeys(t: Torn, id: int)
    requires Exact(t.c) && id in t.c.singletons
    ensures forall k :: k in Visit(t, id).c.singletons ==> k in t.c.singletons
    ensures Exact(Visit(t, id).c)
  {
    if t.c.singletons[id].refCount <= 0 {
      EraseKeeps(t.c, id);
    }
  }

  /** A pass removes every singleton the iterator has still to reach whose count is already zero. */
  lemma {:induction false} PassRemovesFree(t: Torn, id: int, k: int)
    requires Exact(t.c) && id in t.c.singletons
    requires k in t.c.singletons && k >= id && t.c.singletons[k].refCount <= 0
    ensures k !in PassFrom(t, id).c.singletons
    decreases |t.c.deps|, |After(t.c, id)|
  {
    EraseShrinks(t.c, id);
    VisitKeys(t, id);
    var t' := Visit(t, id);
    hide Counted;
    assert k != id ==> k in After(t'.c, id);
    if After(t'.c, id) != {} {
      var next := Ordered.Least(After(t'.c, id));
      AfterNext(t'.c, id, next);
      if k == id {
        PassNeverBringsBack(t', next, k);
      } else {
        PassRemovesFree(t', next, k);
      }
    }
  }

  lemma {:induction false} PassNeverBringsBack(t: Torn, id: int, k: int)
    requires Exact(t.c) && id in t.c.singletons && k !in t.c.singletons
    ensures k !in PassFrom(t, id).c.singletons
    decreases |t.c.deps|, |After(t.c, id)|
  {
    EraseShrinks(t.c, id);
    VisitKeys(t, id);
    var t' := Visit(t, id);
    hide Counted;
    if After(t'.c, id) != {} {
      var next := Ordered.Least(After(t'.c, id));
      AfterNext(t'.c, id, next);
      PassNeverBringsBack(t', next, k);
    }
  }

  // ----- cycles -----

  /** Each element depends on the next one, and the last on the first. */
  ghost predicate Cycle(deps: map<int, set<int>>, p: seq<int>) {
    p != [] && (forall i :: 0 <= i < |p| - 1 ==> Edge(deps, p[i], p[i + 1])) && Edge(deps, p[|p| - 1], p[0])
  }

  ghost predicate Acyclic(deps: map<int, set<int>>) {
    forall p :: !Cycle(deps, p)
  }

  ghost predicate Walk(deps: map<int, set<int>>, p: seq<int>) {
    forall i :: 0 <= i < |p| - 1 ==> Edge(deps, p[i], p[i + 1])
  }

  /** When every live singleton has a dependent, there are walks of any length. */
  lemma {:induction false} LongWalk(c: Container, n: nat) returns (p: seq<int>)
    requires Exact(c) && c.singletons.Keys != {}
    requires forall k :: k in c.singletons ==> Dependents(c.deps, k) != {}
    ensures |p| == n + 1 && Walk(c.deps, p) && forall i :: 0 <= i < |p| ==> p[i] in c.singletons.Keys
  {
    if n == 0 {
      p := [Ordered.Least(c.singletons.Keys)];
    } else {
      var q := LongWalk(c, n - 1);
      var a := Ordered.Element(Dependents(c.deps, q[0]));
      p := [a] + q;
      assert Edge(c.deps, a, q[0]);
      forall i | 0 <= i < |p| - 1 ensures Edge(c.deps, p[i], p[i + 1]) {
        assert i > 0 ==> Edge(c.deps, q[i - 1], q[i]);
      }
    }
  }

  lemma {:induction false} Repeats(p: seq<int>, s: set<int>) returns (i: int, j: int)
    requires |p| > |s| && forall i :: 0 <= i < |p| ==> p[i] in s
    ensures 0 <= i < j < |p| && p[i] == p[j]
    decreases |p|
  {
    var rest := p[1..];
    if p[0] in rest {
      j :| 0 <= j < |rest| && rest[j] == p[0];
      i, j := 0, j + 1;
    } else {
      forall k | 0 <= k < |rest| ensures rest[k] in s - {p[0]} {
        assert rest[k] in rest && rest[k] == p[k + 1];
      }
      assert |s - {p[0]}| == |s| - 1;
      i, j := Repeats(rest, s - {p[0]});
      i, j := i + 1, j + 1;
    }
  }

  /** Without cycles some live singleton has no dependents. */
  lemma FreeExists(c: Container) returns (k: int)
    requires Exact(c) && Acyclic(c.deps) && c.singletons.Keys != {}
    ensures k in c.singletons && c.singletons[k].refCount == 0
  {
    if forall k :: k in c.singletons ==> Dependents(c.deps, k) != {} {
      var p := LongWalk(c, |c.singletons.Keys|);
      var i, j := Repeats(p, c.singletons.Keys);
      var loop := p[i..j];
      forall m | 0 <= m < |loop| - 1 ensures Edge(c.deps, loop[m], loop[m + 1]) {
        assert Edge(c.deps, p[i + m], p[i + m + 1]);
      }
      assert Edge(c.deps, p[j - 1], p[j]);
      assert Cycle(c.deps, loop);
      assert false;
    } else {
      k :| k in c.singletons && Dependents(c.deps, k) == {};
    }
  }

  lemma FewerEdges(deps: map<int, set<int>>, fewer: map<int, set<int>>)
    requires Acyclic(deps) && forall a, b :: Edge(fewer, a, b) ==> Edge(deps, a, b)
    ensures Acyclic(fewer)
  {
    forall p ensures !Cycle(fewer, p) {
      if Cycle(fewer, p) {
        assert Cycle(deps, p);
      }
    }
  }

  /** A singleton on a cycle is never removed. */
  lemma CycleSurvivesVisit(t: Torn, id: int, p: seq<int>)
    requires Exact(t.c) && Cycle(t.c.deps, p) && id in t.c.singletons
    ensures Exact(Visit(t, id).c) && Cycle(Visit(t, id).c.deps, p)
  {
    if t.c.singletons[id].refCount <= 0 {
      EraseKeeps(t.c, id);
      forall i | 0 <= i < |p| ensures p[i] != id {
        assert i > 0 ==> Edge(t.c.deps, p[i - 1], p[i]);
      }
    }
  }

  lemma {:induction false} CycleSurvivesPass(t: Torn, id: int, p: seq<int>)
    requires Exact(t.c) && Cycle(t.c.deps, p) && id in t.c.singletons
    ensures Exact(PassFrom(t, id).c) && Cycle(PassFrom(t, id).c.deps, p)
    decreases |t.c.deps|, |After(t.c, id)|
  {
    EraseShrinks(t.c, id);
    CycleSurvivesVisit(t, id, p);
    var t' := Visit(t, id);
    hide Counted, Cycle;
    if After(t'.c, id) != {} {
      var next := Ordered.Least(After(t'.c, id));
      AfterNext(t'.c, id, next);
      CycleSurvivesPass(t', next, p);
    }
  }

  lemma {:induction false} CycleSurvives(t: Torn, n: nat, p: seq<int>)
    requires Exact(t.c) && Cycle(t.c.deps, p)
    ensures Passes(t, n).c.singletons.Keys != {}
    decreases n
  {
    assert Edge(t.c.deps, p[|p| - 1], p[0]) && p[0] in t.c.singletons.Keys;
    if n > 0 {
      CycleSurvivesPass(t, Ordered.Least(t.c.singletons.Keys), p);
      hide Counted, Cycle;
      CycleSurvives(Pass(t), n - 1, p);
    }
  }

  // ----- the whole teardown -----

  lemma PassRemovesSome(t: Torn)
    requires Exact(t.c) && Acyclic(t.c.deps) && t.c.singletons.Keys != {}
    requires forall k :: k in Pass(t).c.singletons ==> k in t.c.singletons
    ensures |Pass(t).c.singletons.Keys| < |t.c.singletons.Keys|
  {
    var k := FreeExists(t.c);
    PassRemovesFree(t, Ordered.Least(t.c.singletons.Keys), k);
    hide Counted, Acyclic, PassFrom;
    var before, after := t.c.singletons.Keys, Pass(t).c.singletons.Keys;
    assert after <= before - {k};
    Ordered.SubsetSize(after, before - {k});
  }

  /** One pass keeps everything and, when something is left and there is no cycle, removes something. */
  lemma PassProgress(c0: Container, t: Torn)
    requires Exact(c0) && Partial(c0, t)
    ensures Partial(c0, Pass(t))
    ensures t.c.singletons.Keys == {} ==> Pass(t) == t
    ensures Acyclic(c0.deps) && t.c.singletons.Keys != {} ==> |Pass(t).c.singletons.Keys| < |t.c.singletons.Keys|
  {
    if t.c.singletons.Keys != {} {
      var first := Ordered.Least(t.c.singletons.Keys);
      PassFromKeeps(c0, t, first);
      if Acyclic(c0.deps) {
        FewerEdges(c0.deps, t.c.deps);
        hide Partial, Counted, PassFrom, Acyclic, Ordered.IsLeast;
        PassRemovesSome(t);
      }
    }
  }

  lemma {:induction false} PassesKeep(c0: Container, t: Torn, n: nat)
    requires Exact(c0) && Partial(c0, t)
    ensures Partial(c0, Passes(t, n))
    ensures Acyclic(c0.deps) && n >= |t.c.singletons.Keys| ==> Passes(t, n).c.singletons.Keys == {}
    decreases n
  {
    hide Partial, Exact, Pass, Acyclic;
    if n > 0 {
      PassProgress(c0, t);
      PassesKeep(c0, Pass(t), n - 1);
    } else if |t.c.singletons.Keys| == 0 {
      Ordered.NoElements(t.c.singletons.Keys);
    }
  }

  lemma ExactTeardownEnds(c: Container)
    requires Exact(c)
    ensures (exists n: nat :: Passes(Torn(c, []), n).c.singletons.Keys == {}) <==> Acyclic(c.deps)
  {
    var t := Torn(c, []);
    if Acyclic(c.deps) {
      PassesKeep(c, t, |c.singletons.Keys|);
      assert Passes(t, |c.singletons.Keys|).c.singletons.Keys == {};
    } else {
      var p :| Cycle(c.deps, p);
      forall n: nat ensures Passes(t, n).c.singletons.Keys != {} {
        CycleSurvives(t, n, p);
      }
    }
  }

  lemma ExactTeardownOrder(c: Container, n: nat)
    requires Exact(c)
    ensures var t := Passes(Torn(c, []), n);
      && Distinct(t.removed)
      && DependentsFirst(c.deps, t.removed)
      && (forall k :: k in t.removed ==> k in c.singletons)
      && (t.c.singletons.Keys == {} ==> forall k :: k in c.singletons ==> k in t.removed)
  {
    PassesKeep(c, Torn(c, []), n);
  }

  // ----- teardown with a slipped count -----

  function TornUnlooped(t: Torn): Torn {
    Torn(Unlooped(t.c), t.removed)
  }

  /** The destructor does not notice the edge from 0 to 0: it is used only when 0 itself is removed. */
  lemma UnloopedVisit(t: Torn, id: int)
    requires id in t.c.singletons
    ensures Visit(TornUnlooped(t), id) == TornUnlooped(Visit(t, id))
  {
    if t.c.singletons[id].refCount <= 0 {
      hide Lowered;
      var deps := t.c.deps;
      if 0 in deps {
        if id == 0 {
          assert deps[0 := deps[0] - {0}] - {0} == deps - {0};
        } else {
          assert deps[0 := deps[0] - {0}] - {id} == (deps - {id})[0 := deps[0] - {0}];
        }
      }
    }
  }

  lemma {:induction false} UnloopedPassFrom(t: Torn, id: int)
    requires id in t.c.singletons
    ensures PassFrom(TornUnlooped(t), id) == TornUnlooped(PassFrom(t, id))
    decreases |t.c.deps|, |After(t.c, id)|
  {
    EraseShrinks(t.c, id);
    UnloopedVisit(t, id);
    var t' := Visit(t, id);
    assert After(Unlooped(t'.c), id) == After(t'.c, id);
    hide Visit;
    if After(t'.c, id) != {} {
      var next := Ordered.Least(After(t'.c, id));
      AfterNext(t'.c, id, next);
      UnloopedPassFrom(t', next);
    }
  }

  lemma UnloopedPass(t: Torn)
    ensures Pass(TornUnlooped(t)) == TornUnlooped(Pass(t))
  {
    if t.c.singletons.Keys != {} {
      UnloopedPassFrom(t, Ordered.Least(t.c.singletons.Keys));
      hide PassFrom;
    }
  }

  lemma {:induction false} UnloopedPasses(t: Torn, n: nat)
    ensures Passes(TornUnlooped(t), n) == TornUnlooped(Passes(t, n))
    decreases n
  {
    if n > 0 {
      UnloopedPass(t);
      hide Pass, Unlooped;
      UnloopedPasses(Pass(t), n - 1);
    }
  }

  lemma EffectivePasses(c: Container, n: nat)
    ensures var t, t' := Passes(Torn(c, []), n), Passes(Torn(Effective(c), []), n);
      t'.c.singletons == t.c.singletons && t'.removed == t.removed
  {
    UnloopedPasses(Torn(c, []), n);
  }

  /** After every run of calls the destructor ends exactly when no singleton depends on itself, directly or through
      others; where the counts have slipped, the edge from 0 to 0 does not matter. */
  lemma TeardownEndsExact(calls: seq<Call>)
    ensures var c := Run(EmptyContainer(), calls);
      (exists n: nat :: Passes(Torn(c, []), n).c.singletons.Keys == {}) <==> Acyclic(Dependencies(calls))
  {
    var c := Run(EmptyContainer(), calls);
    EffectiveExact(calls);
    ExactTeardownEnds(Effective(c));
    hide Effective, Exact, Acyclic, Run, Passes;
    if Acyclic(Dependencies(calls)) {
      var n: nat :| Passes(Torn(Effective(c), []), n).c.singletons.Keys == {};
      EffectivePasses(c, n);
      assert Passes(Torn(c, []), n).c.singletons.Keys == {};
    } else {
      forall n: nat ensures Passes(Torn(c, []), n).c.singletons.Keys != {} {
        EffectivePasses(c, n);
      }
    }
  }

  /** However many passes have run: nothing was removed twice, nothing before its dependents, and a finished teardown
      has removed every singleton. */
  lemma TeardownOrder(calls: seq<Call>, n: nat)
    ensures var c := Run(EmptyContainer(), calls);
      var t := Passes(Torn(c, []), n);
      && Distinct(t.removed)
      && DependentsFirst(Dependencies(calls), t.removed)
      && (forall k :: k in t.removed ==> k in c.singletons)
      && (t.c.singletons.Keys == {} ==> forall k :: k in c.singletons ==> k in t.removed)
  {
    var c := Run(EmptyContainer(), calls);
    EffectiveExact(calls);
    ExactTeardownOrder(Effective(c), n);
    EffectivePasses(c, n);
    assert Effective(c).singletons == c.singletons;
    hide Exact, DependentsFirst, Run, Passes, Effective;
  }

  /** A dependency of an unknown name on the first singleton makes that singleton depend on itself, and the destructor
      of such a container never ends. */
  lemma UnknownDependentHangs(c: Container, instance: string, name: string, n: nat)
    requires Registered(c) && Exact(c) && instance !in c.strings
    requires name in c.strings && c.strings[name] == 0
    ensures Passes(Torn(Depending(c, instance, name), []), n).c.singletons.Keys != {}
  {
    DependOnKeeps(c, instance, name, 0);
    var c' := Depending(c, instance, name);
    assert Edge(c'.deps, 0, 0);
    assert Cycle(c'.deps, [0]);
    CycleSurvives(Torn(c', []), n, [0]);
  }

  // ----- the container object -----

  class SingletonContainer {
    var stringMap: map<string, int>
    var singletonMap: map<int, Singleton>
    var dependencySetMap: map<int, set<int>>
    var nextId: int

    ghost function State(): Container
      reads this
    {
      Container(stringMap, singletonMap, dependencySetMap, nextId)
    }

    constructor ()
      ensures State() == EmptyContainer()
    {
      stringMap, singletonMap, dependencySetMap, nextId := map[], map[], map[], 0;
    }

    method AddSingleton(name: string, instance: Value)
      modifies this
      ensures State() == Registering(old(State()), name, instance)
    {
      if name !in stringMap {
        singletonMap := singletonMap[nextId := Singleton(instance, Entry(singletonMap, nextId).refCount)];
        singletonMap := singletonMap[nextId := Singleton(singletonMap[nextId].value, 0)];
        stringMap := stringMap[name := nextId];
        nextId := nextId + 1;
      }
    }

    method SetSingleton(name: string, instance: Value)
      modifies this
      ensures State() == Setting(old(State()), name, instance)
    {
      if name !in stringMap {
        AddSingleton(name, instance);
      } else {
        var id := stringMap[name];
        singletonMap := singletonMap[id := Entry(singletonMap, id).(value := instance)];
      }
    }

    method GetSingleton(name: string) returns (value: Value)
      ensures value == Got(State(), name)
    {
      if name !in stringMap {
        return Void;
      }
      value := Entry(singletonMap, stringMap[name]).value;
    }

    method DependOn(instance: string, name: string) returns (value: Value)
      modifies this
      ensures State() == Depending(old(State()), instance, name)
      ensures value == Got(State(), name)
    {
      stringMap := Named(stringMap, instance);
      var a := stringMap[instance];
      var instanceDependencySet := DepsOf(dependencySetMap, a);
      stringMap := Named(stringMap, name);
      var b := stringMap[name];
      if b !in instanceDependencySet {
        instanceDependencySet := instanceDependencySet + {b};
        singletonMap := Bump(singletonMap, b, 1);
      }
      dependencySetMap := dependencySetMap[a := instanceDependencySet];
      value := GetSingleton(name);
    }

    /** The body of the destructor's loop for one entry. */
    method Remove(id: int)
      requires id in singletonMap
      modifies this`singletonMap, this`dependencySetMap
      ensures State() == Erase(old(State()), id)
    {
      var mids := Ordered.KeysInOrder(DepsOf(dependencySetMap, id));
      ElementsOf(mids, DepsOf(dependencySetMap, id));
      ghost var was := singletonMap;
      var i := 0;
      while i < |mids|
        invariant i <= |mids|
        invariant dependencySetMap == old(dependencySetMap)
        invariant singletonMap == Lowered(was, Elements(mids[..i]))
      {
        LoweredOneMore(was, mids, i);
        singletonMap := Bump(singletonMap, mids[i], -1);
        i := i + 1;
      }
      assert mids[..i] == mids;
      dependencySetMap := dependencySetMap - {id};
      singletonMap := singletonMap - {id};
    }

    /** The inner loop of the destructor: one walk over the entries. */
    method Sweep(before: seq<int>) returns (removed: seq<int>)
      requires singletonMap.Keys != {}
      modifies this`singletonMap, this`dependencySetMap
      ensures Torn(State(), removed) == Pass(Torn(old(State()), before))
    {
      hide Erase;
      removed := before;
      ghost var end := Pass(Torn(State(), removed));
      var it := LeastKey(singletonMap.Keys);
      var more := true;
      while more
        invariant more ==> it in singletonMap
        invariant end == if more then PassFrom(Torn(State(), removed), it) else Torn(State(), removed)
        decreases more, |dependencySetMap|, |After(State(), it)|
      {
        EraseShrinks(State(), it);
        if singletonMap[it].refCount <= 0 {
          Remove(it);
          removed := removed + [it];
        }
        var rest := set k | k in singletonMap.Keys && k > it;
        assert rest == After(State(), it);
        more := rest != {};
        if more {
          var next := LeastKey(rest);
          AfterNext(State(), it, next);
          it := next;
        }
      }
    }

    /** The destructor. */
    method Destroy() returns (removed: seq<int>)
      requires Exact(Effective(State())) && Acyclic(Effective(State()).deps)
      modifies this`singletonMap, this`dependencySetMap
      ensures singletonMap.Keys == {}
      ensures Distinct(removed) && DependentsFirst(old(Effective(State()).deps), removed)
      ensures forall k :: k in removed <==> k in old(singletonMap)
    {
      removed := [];
      ghost var slipped, c0 := !Exact(State()), Effective(State());
      assert c0.singletons == singletonMap;
      ghost var t := Torn(State(), []);
      hide Effective, Pass, Counted, Acyclic, Unlooped;
      while singletonMap.Keys != {}
        invariant t == Torn(State(), removed) && Partial(c0, Seen(t, slipped))
        decreases |singletonMap.Keys|
      {
        PassProgress(c0, Seen(t, slipped));
        SeenPass(t, slipped);
        removed := Sweep(removed);
        t := Pass(t);
      }
      SeenPass(t, slipped);
    }
  }

  ghost function Elements(q: seq<int>): set<int> {
    set x | x in q
  }

  /** A state of the destructor as the exact counts see it. */
  ghost function Seen(t: Torn, slipped: bool): Torn {
    if slipped then TornUnlooped(t) else t
  }

  lemma SeenPass(t: Torn, slipped: bool)
    ensures Seen(Pass(t), slipped) == Pass(Seen(t, slipped))
    ensures Seen(t, slipped).c.singletons == t.c.singletons
    ensures Seen(Pass(t), slipped).c.singletons == Pass(t).c.singletons
  {
    UnloopedPass(t);
    hide Pass;
  }

  lemma ElementsOf(q: seq<int>, s: set<int>)
    requires forall x :: x in q <==> x in s
    ensures Elements(q) == s
  {
    forall x ensures x in Elements(q) <==> x in s {}
  }

  lemma LoweredOneMore(m: map<int, Singleton>, mids: seq<int>, i: nat)
    requires i < |mids| && Ordered.Ascending(mids)
    ensures Lowered(m, Elements(mids[..i + 1])) == Bump(Lowered(m, Elements(mids[..i])), mids[i], -1)
  {
    assert mids[i] !in mids[..i];
    assert mids[..i + 1] == mids[..i] + [mids[i]];
    assert Elements(mids[..i + 1]) == Elements(mids[..i]) + {mids[i]};
  }

  method LeastKey(keys: set<int>) returns (k: int)
    requires keys != {}
    ensures k == Ordered.Least(keys)
  {
    Ordered.LeastExists(keys);
    k :| k in keys && forall x :: x in keys ==> k <= x;
  }
}
