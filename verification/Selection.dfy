/**
 Completing a module and layer selection
 (apps/api/app/modules/registry.py and `resolve_selection`, apps/api/app/services/platform_service.py).
 */
module Selection {
  import opened Wrappers

  datatype ModuleSpec = ModuleSpec(
    id: string, moduleType: string, core: bool, dependencies: seq<string>, layerKey: Option<string>)

  datatype SelectionError = DuplicateModule | LayerWithoutKey | UnknownModule(id: string) | UnknownLayer(key: string)

  // ---- queries over the registered modules, in registration order ----

  function Lookup(ms: seq<ModuleSpec>, id: string): (r: Option<ModuleSpec>)
    ensures r.Some? <==> id in Ids(ms)
    ensures r.Some? ==> r.value in ms && r.value.id == id
  {
    if ms == [] then None
    else if ms[0].id == id then
      assert ms[0] in ms;
      Some(ms[0])
    else
      assert forall m <- ms :: m == ms[0] || m in ms[1..];
      Lookup(ms[1..], id)
  }

  function Ids(ms: seq<ModuleSpec>): set<string> {
    set m | m in ms :: m.id
  }

  predicate IsLayer(m: ModuleSpec) {
    m.moduleType == "layer"
  }

  predicate IsLayerWithKey(m: ModuleSpec, key: string) {
    IsLayer(m) && m.layerKey == Some(key)
  }

  function LayerFor(ms: seq<ModuleSpec>, key: string): (r: Option<ModuleSpec>)
    ensures r.Some? ==> r.value in ms && IsLayerWithKey(r.value, key)
    ensures r.None? ==> forall m <- ms :: !IsLayerWithKey(m, key)
    ensures r.Some? ==> exists i: nat :: IsFirstLayer(ms, key, i) && ms[i] == r.value
  {
    if ms == [] then None
    else if IsLayerWithKey(ms[0], key) then
      assert ms[0] in ms;
      assert IsFirstLayer(ms, key, 0);
      Some(ms[0])
    else
      assert forall m <- ms :: m == ms[0] || m in ms[1..];
      var r := LayerFor(ms[1..], key);
      assert forall i: nat :: IsFirstLayer(ms[1..], key, i) ==> IsFirstLayer(ms, key, i + 1);
      r
  }

  /** The first registered layer module with this key. */
  ghost predicate IsFirstLayer(ms: seq<ModuleSpec>, key: string, i: nat) {
    && i < |ms| && ms[i].moduleType == "layer" && ms[i].layerKey == Some(key)
    && forall j :: 0 <= j < i ==> !(ms[j].moduleType == "layer" && ms[j].layerKey == Some(key))
  }

  function CoreIds(ms: seq<ModuleSpec>): set<string> {
    set m | m in ms && m.core :: m.id
  }

  ghost predicate WellFormed(ms: seq<ModuleSpec>) {
    && (forall i, j :: 0 <= i < j < |ms| ==> ms[i].id != ms[j].id)
    && (forall m <- ms :: IsLayer(m) ==> m.layerKey.Some? && m.layerKey.value != "")
  }

  /** No two layer modules share a key. Registration does not enforce this. */
  ghost predicate UniqueLayerKeys(ms: seq<ModuleSpec>) {
    forall m, n | m in ms && n in ms && IsLayer(m) && IsLayer(n) && m.layerKey == n.layerKey :: m == n
  }

  // ---- lists of ids and keys ----

  function Drop(keys: seq<string>, s: set<string>): seq<string> {
    if keys == [] then [] else (if keys[0] in s then [] else [keys[0]]) + Drop(keys[1..], s)
  }

  /** The first occurrences, in order. */
  function Distinct(keys: seq<string>): seq<string> {
    if keys == [] then [] else [keys[0]] + Drop(Distinct(keys[1..]), {keys[0]})
  }

  lemma {:induction false} DropOneMore(keys: seq<string>, k: string, s: set<string>)
    ensures Drop(keys + [k], s) == Drop(keys, s) + if k in s then [] else [k]
  {
    if keys == [] {
      assert keys + [k] == [k] && [k][1..] == [];
    } else {
      DropOneMore(keys[1..], k, s);
      assert (keys + [k])[1..] == keys[1..] + [k];
    }
  }

  lemma {:induction false} DistinctOneMore(keys: seq<string>, k: string)
    ensures Distinct(keys + [k]) == Distinct(keys) + if k in keys then [] else [k]
  {
    if keys == [] {
      assert keys + [k] == [k] && [k][1..] == [];
    } else {
      DistinctOneMore(keys[1..], k);
      assert (keys + [k])[1..] == keys[1..] + [k];
      assert keys == [keys[0]] + keys[1..];
      if k !in keys[1..] {
        DropOneMore(Distinct(keys[1..]), k, {keys[0]});
      } else {
        assert Distinct(keys[1..]) + [] == Distinct(keys[1..]);
      }
    }
  }

  // ---- what a selection means ----

  /** The modules a request names directly, with the core ones and those behind the requested layers. */
  function Seed(ms: seq<ModuleSpec>, modules: seq<string>, layers: seq<string>): set<string> {
    (set id | id in modules) + CoreIds(ms)
    + set key | key in layers && LayerFor(ms, key).Some? :: LayerFor(ms, key).value.id
  }

  /** Closed under the dependencies that are registered. */
  ghost predicate Closed(ms: seq<ModuleSpec>, s: set<string>) {
    forall m <- ms :: m.id in s ==> Satisfied(ms, m, s)
  }

  /** The least closed set of modules that contains the seed. */
  ghost predicate IsClosure(ms: seq<ModuleSpec>, seed: set<string>, s: set<string>) {
    seed <= s && Closed(ms, s) && Needed(ms, seed, s)
  }

  /** There is only one, so the order in which sets are walked cannot matter. */
  lemma {:induction false} ClosureIsUnique(ms: seq<ModuleSpec>, seed: set<string>, s: set<string>, t: set<string>)
    requires IsClosure(ms, seed, s) && IsClosure(ms, seed, t)
    ensures s == t
  {
    assert seed <= t && Closed(ms, t);
    assert s <= t;
    assert seed <= s && Closed(ms, s);
    assert t <= s;
  }

  /** `t` holds what was asked for: the named modules, the core ones, the first module of each named layer, and the
      registered dependencies of all it holds. */
  ghost predicate Meets(ms: seq<ModuleSpec>, modules: seq<string>, layers: seq<string>, t: set<string>) {
    && (forall id <- modules :: id in t)
    && (forall m <- ms :: m.core ==> m.id in t)
    && (forall key <- layers :: forall i: nat :: IsFirstLayer(ms, key, i) ==> ms[i].id in t)
    && (forall m <- ms :: m.id in t ==> forall d <- m.dependencies :: (exists n <- ms :: n.id == d) ==> d in t)
  }

  /** The least such set. */
  ghost predicate IsLeast(ms: seq<ModuleSpec>, modules: seq<string>, layers: seq<string>, s: set<string>) {
    Meets(ms, modules, layers, s) && forall t: set<string> :: Meets(ms, modules, layers, t) ==> s <= t
  }

  lemma {:induction false} OnlyFirstLayer(ms: seq<ModuleSpec>, key: string, i: nat)
    requires IsFirstLayer(ms, key, i)
    ensures LayerFor(ms, key) == Some(ms[i])
  {
    assert IsLayerWithKey(ms[i], key) && ms[i] in ms;
  }

  lemma {:induction false} SeedMeets(ms: seq<ModuleSpec>, modules: seq<string>, layers: seq<string>, t: set<string>)
    ensures Seed(ms, modules, layers) <= t && Closed(ms, t) <==> Meets(ms, modules, layers, t)
  {
    var seed := Seed(ms, modules, layers);
    if seed <= t && Closed(ms, t) {
      forall key, i: nat | key in layers && IsFirstLayer(ms, key, i) ensures ms[i].id in t {
        OnlyFirstLayer(ms, key, i);
        assert ms[i].id in seed;
      }
      forall m | m in ms && m.core ensures m.id in t {
        assert m.id in seed;
      }
      forall id | id in modules ensures id in t {
        assert id in seed;
      }
      forall m | m in ms && m.id in t
        ensures forall d <- m.dependencies :: (exists n <- ms :: n.id == d) ==> d in t
      {
        assert Satisfied(ms, m, t);
      }
    }
    if Meets(ms, modules, layers, t) {
      forall id | id in seed ensures id in t {
        if key :| key in layers && LayerFor(ms, key).Some? && LayerFor(ms, key).value.id == id {
          var i: nat :| IsFirstLayer(ms, key, i) && ms[i] == LayerFor(ms, key).value;
        }
      }
      forall m | m in ms && m.id in t ensures Satisfied(ms, m, t) {
      }
    }
  }

  /** What is computed as a closure of the seed is the least set that meets the request. */
  lemma {:induction false} ClosureIsLeast(
      ms: seq<ModuleSpec>, modules: seq<string>, layers: seq<string>, s: set<string>)
    ensures IsClosure(ms, Seed(ms, modules, layers), s) <==> IsLeast(ms, modules, layers, s)
  {
    forall t: set<string>
      ensures Seed(ms, modules, layers) <= t && Closed(ms, t) <==> Meets(ms, modules, layers, t)
    {
      SeedMeets(ms, modules, layers, t);
    }
  }

  // ---- output order ----

  function SelectedIds(ms: seq<ModuleSpec>, s: set<string>): seq<string> {
    if ms == [] then []
    else
      var n := |ms| - 1;
      SelectedIds(ms[..n], s) + (if ms[n].id in s then [ms[n].id] else [])
  }

  /** The keys of the selected layer modules, in registration order. */
  function SelectedKeys(ms: seq<ModuleSpec>, s: set<string>): seq<string> {
    if ms == [] then []
    else
      var m := ms[0];
      (if IsLayer(m) && m.id in s && m.layerKey.Some? && m.layerKey.value != "" then [m.layerKey.value] else [])
      + SelectedKeys(ms[1..], s)
  }

  /** Where the caller put this layer, or behind all that the caller named. */
  function RankIn(wanted: seq<string>, key: string): nat {
    if wanted == [] || wanted[0] == key then 0 else 1 + RankIn(wanted[1..], key)
  }

  function Insert(key: string, keys: seq<string>, wanted: seq<string>): seq<string> {
    if keys == [] || RankIn(wanted, key) <= RankIn(wanted, keys[0]) then [key] + keys
    else [keys[0]] + Insert(key, keys[1..], wanted)
  }

  /** The stable sort by that rank. */
  function SortedByRequest(keys: seq<string>, wanted: seq<string>): seq<string> {
    if keys == [] then [] else Insert(keys[0], SortedByRequest(keys[1..], wanted), wanted)
  }

  function OrderedKeys(ms: seq<ModuleSpec>, s: set<string>, wanted: seq<string>): seq<string> {
    if wanted == [] then SelectedKeys(ms, s) else SortedByRequest(SelectedKeys(ms, s), wanted)
  }

  /** The answer to a valid request: the closure of what it asks for, in output order. */
  ghost predicate ResolvesTo(
      ms: seq<ModuleSpec>, modules: seq<string>, layers: seq<string>, out: (seq<string>, seq<string>))
  {
    exists s :: IsClosure(ms, Seed(ms, modules, layers), s) && out == (SelectedIds(ms, s), OrderedKeys(ms, s, layers))
  }

  // ---- the registry and the composer ----

  class ModuleRegistry {
    var modules: seq<ModuleSpec>

    ghost predicate Valid()
      reads this
    {
      WellFormed(modules)
    }

    constructor ()
      ensures Valid() && modules == []
    {
      modules := [];
    }

    method Register(spec: ModuleSpec) returns (error: Option<SelectionError>)
      requires Valid()
      modifies this
      ensures Valid()
      ensures error == Some(DuplicateModule) <==> spec.id in Ids(old(modules))
      ensures error == Some(LayerWithoutKey) <==>
        spec.id !in Ids(old(modules)) && IsLayer(spec) && (spec.layerKey.None? || spec.layerKey.value == "")
      ensures error.Some? ==> modules == old(modules)
      ensures error.None? ==> modules == old(modules) + [spec]
    {
      if Lookup(modules, spec.id).Some? {
        return Some(DuplicateModule);
      }
      if IsLayer(spec) && (spec.layerKey.None? || spec.layerKey.value == "") {
        return Some(LayerWithoutKey);
      }
      forall i | 0 <= i < |modules| ensures modules[i].id != spec.id {
        assert modules[i] in modules;
      }
      modules := modules + [spec];
      return None;
    }

    /** Resolve ids in order, without repeats; the first unknown one is an error. */
    method ValidateIds(ids: seq<string>) returns (r: Result<seq<ModuleSpec>, SelectionError>)
      ensures r.Ok? <==> forall id <- ids :: id in Ids(modules)
      ensures r.Ok? ==>
        && |r.value| == |Distinct(ids)|
        && forall i :: 0 <= i < |r.value| ==> r.value[i] in modules && r.value[i].id == Distinct(ids)[i]
      ensures r.Err? ==>
        && r.error.UnknownModule?
        && exists i :: 0 <= i < |ids| && ids[i] == r.error.id && ids[i] !in Ids(modules)
                       && forall j :: 0 <= j < i ==> ids[j] in Ids(modules)
    {
      var out: seq<ModuleSpec> := [];
      var seen: set<string> := {};
      for i := 0 to |ids|
        invariant forall id :: id in seen <==> id in ids[..i]
        invariant forall j :: 0 <= j < i ==> ids[j] in Ids(modules)
        invariant |out| == |Distinct(ids[..i])|
        invariant forall a :: 0 <= a < |out| ==> out[a] in modules && out[a].id == Distinct(ids[..i])[a]
      {
        var id := ids[i];
        assert ids[..i + 1] == ids[..i] + [id];
        DistinctOneMore(ids[..i], id);
        if id in seen {
          continue;
        }
        seen := seen + {id};
        var spec := Lookup(modules, id);
        if spec.None? {
          assert id in ids;
          return Err(UnknownModule(id));
        }
        out := out + [spec.value];
      }
      assert ids[..|ids|] == ids;
      return Ok(out);
    }

    /** `resolve_selection`, given the modules and layers wanted. */
    method ResolveSelection(wantedModules: seq<string>, wantedLayers: seq<string>)
      returns (r: Result<(seq<string>, seq<string>), SelectionError>)
      requires Valid()
      ensures r.Ok? <==>
        && (forall id <- wantedModules :: id in Ids(modules))
        && (forall key <- wantedLayers :: LayerFor(modules, key).Some?)
      ensures r.Ok? <==>
        && (forall id <- wantedModules :: exists m <- modules :: m.id == id)
        && (forall key <- wantedLayers :: exists m <- modules :: m.moduleType == "layer" && m.layerKey == Some(key))
      ensures r.Ok? ==> ResolvesTo(modules, wantedModules, wantedLayers, r.value)
      ensures r.Ok? ==>
        exists s :: IsLeast(modules, wantedModules, wantedLayers, s)
                    && r.value == (SelectedIds(modules, s), OrderedKeys(modules, s, wantedLayers))
      ensures r.Err? ==>
        if exists id <- wantedModules :: id !in Ids(modules) then r.error.UnknownModule? else r.error.UnknownLayer?
    {
      var validated := ValidateIds(wantedModules);
      if validated.Err? {
        return Err(validated.error);
      }
      for i := 0 to |wantedLayers|
        invariant forall j :: 0 <= j < i ==> LayerFor(modules, wantedLayers[j]).Some?
      {
        if LayerFor(modules, wantedLayers[i]).None? {
          assert wantedLayers[i] in wantedLayers;
          return Err(UnknownLayer(wantedLayers[i]));
        }
      }
      var seed := Seed(modules, wantedModules, wantedLayers);
      var closure := CloseOver(seed);
      ClosureIsLeast(modules, wantedModules, wantedLayers, closure);
      r := Ok((SelectedIds(modules, closure), OrderedKeys(modules, closure, wantedLayers)));
    }

    /** Add registered dependencies until a whole pass adds nothing. */
    method CloseOver(seed: set<string>) returns (selected: set<string>)
      requires Valid() && seed <= Ids(modules)
      ensures IsClosure(modules, seed, selected) && selected <= Ids(modules)
    {
      selected := seed;
      var changed := true;
      while changed
        invariant seed <= selected <= Ids(modules)
        invariant !changed ==> Closed(modules, selected)
        invariant Needed(modules, seed, selected)
        decreases Ids(modules) - selected, changed
      {
        var before := selected;
        selected, changed := OnePass(selected);
        if changed {
          assert Ids(modules) - selected < Ids(modules) - before;
        }
      }
    }

    /** One pass over the modules selected so far, in whatever order the set is walked. */
    method OnePass(before: set<string>) returns (selected: set<string>, changed: bool)
      requires Valid() && before <= Ids(modules)
      ensures before <= selected <= Ids(modules)
      ensures changed <==> before < selected
      ensures !changed ==> Closed(modules, selected)
      ensures Needed(modules, before, selected)
    {
      selected, changed := before, false;
      var todo := before;
      while todo != {}
        invariant todo <= before <= selected <= Ids(modules)
        invariant changed <==> before < selected
        invariant forall m <- modules :: m.id in before - todo ==> Satisfied(modules, m, selected)
        invariant Needed(modules, before, selected)
        decreases todo
      {
        var id :| id in todo;
        todo := todo - {id};
        var spec := Lookup(modules, id).value;
        IdIdentifies(modules, spec);
        var grew;
        selected, grew := AddDependencies(spec, before, selected);
        changed := changed || grew;
      }
    }

    method AddDependencies(spec: ModuleSpec, ghost before: set<string>, current: set<string>)
      returns (selected: set<string>, grew: bool)
      requires spec in modules && spec.id in before && before <= current <= Ids(modules)
      requires Needed(modules, before, current)
      ensures current <= selected <= Ids(modules)
      ensures grew <==> current < selected
      ensures Satisfied(modules, spec, selected) && Needed(modules, before, selected)
    {
      selected, grew := current, false;
      for i := 0 to |spec.dependencies|
        invariant current <= selected <= Ids(modules)
        invariant grew <==> current < selected
        invariant forall j :: 0 <= j < i && spec.dependencies[j] in Ids(modules) ==> spec.dependencies[j] in selected
        invariant Needed(modules, before, selected)
      {
        var d := spec.dependencies[i];
        if d !in selected && Lookup(modules, d).Some? {
          selected := selected + {d};
          grew := true;
        }
      }
    }
  }

  /** Every registered dependency of the module is selected. */
  ghost predicate Satisfied(ms: seq<ModuleSpec>, m: ModuleSpec, s: set<string>) {
    forall d <- m.dependencies :: d in Ids(ms) ==> d in s
  }

  /** Every closed set that contains `base` contains `s`. */
  ghost predicate Needed(ms: seq<ModuleSpec>, base: set<string>, s: set<string>) {
    forall t: set<string> :: base <= t && Closed(ms, t) ==> s <= t
  }

  lemma {:induction false} IdIdentifies(ms: seq<ModuleSpec>, spec: ModuleSpec)
    requires WellFormed(ms) && spec in ms
    ensures forall m <- ms :: m.id == spec.id ==> m == spec
  {
    var i :| 0 <= i < |ms| && ms[i] == spec;
    forall m | m in ms && m.id == spec.id ensures m == spec {
      var j :| 0 <= j < |ms| && ms[j] == m;
    }
  }
}
