/** What a completed selection looks like, and what happens when it is completed again. */
module SelectionFacts {
  import opened Wrappers
  import opened Selection

  // ---- the modules ----

  lemma {:induction false} SelectedIdsMembers(ms: seq<ModuleSpec>, s: set<string>)
    ensures forall id :: id in SelectedIds(ms, s) <==> id in s && id in Ids(ms)
  {
    if ms != [] {
      var n := |ms| - 1;
      SelectedIdsMembers(ms[..n], s);
      assert ms == ms[..n] + [ms[n]];
      assert Ids(ms) == Ids(ms[..n]) + {ms[n].id};
    }
  }

  /** `out` are the ids of the modules at these increasing positions. */
  ghost predicate InRegistrationOrder(ms: seq<ModuleSpec>, ks: seq<nat>, out: seq<string>) {
    && |ks| == |out|
    && (forall i :: 0 <= i < |ks| ==> ks[i] < |ms| && ms[ks[i]].id == out[i])
    && (forall i, j :: 0 <= i < j < |ks| ==> ks[i] < ks[j])
  }

  lemma {:induction false} OneMorePosition(ms: seq<ModuleSpec>, m: ModuleSpec, ks: seq<nat>, out: seq<string>)
    requires InRegistrationOrder(ms, ks, out)
    ensures InRegistrationOrder(ms + [m], ks, out)
    ensures InRegistrationOrder(ms + [m], ks + [|ms|], out + [m.id])
  {
  }

  lemma {:induction false} SelectedPositions(ms: seq<ModuleSpec>, s: set<string>) returns (ks: seq<nat>)
    ensures InRegistrationOrder(ms, ks, SelectedIds(ms, s))
  {
    if ms == [] {
      ks := [];
    } else {
      var n := |ms| - 1;
      var out := SelectedIds(ms[..n], s);
      ks := SelectedPositions(ms[..n], s);
      OneMorePosition(ms[..n], ms[n], ks, out);
      assert ms == ms[..n] + [ms[n]];
      if ms[n].id in s {
        ks := ks + [n];
      } else {
        assert out + [] == out;
      }
    }
  }

  /** The selected modules come out once each, in registration order. */
  lemma {:induction false} ModulesInOrder(ms: seq<ModuleSpec>, s: set<string>) returns (ks: seq<nat>)
    ensures InRegistrationOrder(ms, ks, SelectedIds(ms, s))
    ensures forall id :: id in SelectedIds(ms, s) <==> id in s && id in Ids(ms)
    ensures WellFormed(ms) ==> NoRepeats(SelectedIds(ms, s))
  {
    ks := SelectedPositions(ms, s);
    SelectedIdsMembers(ms, s);
    PositionsDiffer(ms, ks, SelectedIds(ms, s));
  }

  lemma {:induction false} PositionsDiffer(ms: seq<ModuleSpec>, ks: seq<nat>, out: seq<string>)
    requires InRegistrationOrder(ms, ks, out)
    ensures WellFormed(ms) ==> NoRepeats(out)
  {
  }

  // ---- filters ----

  function Keep(keys: seq<string>, s: set<string>): seq<string> {
    if keys == [] then [] else (if keys[0] in s then [keys[0]] else []) + Keep(keys[1..], s)
  }

  function SetOf(keys: seq<string>): set<string> {
    set k | k in keys
  }

  ghost predicate NoRepeats(keys: seq<string>) {
    forall i, j :: 0 <= i < j < |keys| ==> keys[i] != keys[j]
  }

  lemma {:induction false} DropMembers(keys: seq<string>, s: set<string>)
    ensures forall k :: k in Drop(keys, s) <==> k in keys && k !in s
    ensures NoRepeats(keys) ==> NoRepeats(Drop(keys, s))
  {
    if keys != [] {
      DropMembers(keys[1..], s);
    }
  }

  lemma {:induction false} DropTwice(keys: seq<string>, s: set<string>, t: set<string>)
    ensures Drop(Drop(keys, s), t) == Drop(keys, s + t)
  {
    if keys != [] {
      DropTwice(keys[1..], s, t);
      var rest := Drop(keys[1..], s);
      assert ([keys[0]] + rest)[1..] == rest && [] + rest == rest;
    }
  }

  lemma {:induction false} DropNothing(keys: seq<string>, s: set<string>)
    requires forall k <- keys :: k !in s
    ensures Drop(keys, s) == keys
  {
    if keys != [] {
      assert forall k <- keys[1..] :: k in keys;
      DropNothing(keys[1..], s);
    }
  }

  lemma {:induction false} DropEverything(keys: seq<string>, s: set<string>)
    requires forall k <- keys :: k in s
    ensures Drop(keys, s) == []
  {
    if keys != [] {
      assert forall k <- keys[1..] :: k in keys;
      DropEverything(keys[1..], s);
    }
  }

  lemma {:induction false} KeepEverything(keys: seq<string>, s: set<string>)
    requires forall k <- keys :: k in s
    ensures Keep(keys, s) == keys
  {
    if keys != [] {
      assert forall k <- keys[1..] :: k in keys;
      KeepEverything(keys[1..], s);
    }
  }

  lemma {:induction false} KeepOne(keys: seq<string>, k: string)
    requires NoRepeats(keys)
    ensures Keep(keys, {k}) == if k in keys then [k] else []
  {
    if keys != [] {
      assert forall i :: 0 <= i < |keys[1..]| ==> keys[1..][i] == keys[i + 1];
      KeepOne(keys[1..], k);
    }
  }

  lemma {:induction false} KeepOfDrop(keys: seq<string>, k: string, s: set<string>)
    ensures Keep(Drop(keys, {k}), s) == Keep(keys, s - {k})
  {
    if keys != [] {
      KeepOfDrop(keys[1..], k, s);
      var rest := Drop(keys[1..], {k});
      assert ([keys[0]] + rest)[1..] == rest && [] + rest == rest;
    }
  }

  lemma {:induction false} DistinctMembers(keys: seq<string>)
    ensures forall k :: k in Distinct(keys) <==> k in keys
    ensures NoRepeats(Distinct(keys))
    decreases |keys|
  {
    if keys != [] {
      DistinctMembers(keys[1..]);
      DropMembers(Distinct(keys[1..]), {keys[0]});
    }
  }

  lemma {:induction false} DistinctAlready(keys: seq<string>)
    requires NoRepeats(keys)
    ensures Distinct(keys) == keys
  {
    if keys != [] {
      assert forall i :: 0 <= i < |keys[1..]| ==> keys[1..][i] == keys[i + 1];
      DistinctAlready(keys[1..]);
      DropNothing(keys[1..], {keys[0]});
    }
  }

  // ---- the stable sort ----

  /** All copies of the first wanted key, then the rest by the remaining wanted keys. */
  function Grouped(keys: seq<string>, wanted: seq<string>): seq<string>
    decreases |wanted|
  {
    if wanted == [] then keys
    else Keep(keys, {wanted[0]}) + Grouped(Drop(keys, {wanted[0]}), wanted[1..])
  }

  lemma {:induction false} GroupedMembers(keys: seq<string>, wanted: seq<string>)
    ensures forall k :: k in Grouped(keys, wanted) ==> k in keys
    decreases |wanted|
  {
    if wanted != [] {
      GroupedMembers(Drop(keys, {wanted[0]}), wanted[1..]);
      DropMembers(keys, {wanted[0]});
      KeepMembers(keys, {wanted[0]});
    }
  }

  lemma {:induction false} KeepMembers(keys: seq<string>, s: set<string>)
    ensures forall k :: k in Keep(keys, s) <==> k in keys && k in s
  {
    if keys != [] {
      KeepMembers(keys[1..], s);
    }
  }

  /** Among keys other than the first wanted one, that one plays no part. */
  lemma {:induction false} InsertAmongOthers(key: string, b: seq<string>, wanted: seq<string>)
    requires wanted != [] && key != wanted[0]
    requires forall k <- b :: k != wanted[0]
    ensures Insert(key, b, wanted) == Insert(key, b, wanted[1..])
  {
    if b != [] {
      assert b[0] in b;
      assert forall k <- b[1..] :: k in b;
      InsertAmongOthers(key, b[1..], wanted);
    }
  }

  lemma {:induction false} InsertPastFirst(key: string, a: seq<string>, b: seq<string>, wanted: seq<string>)
    requires wanted != [] && key != wanted[0]
    requires forall k <- a :: k == wanted[0]
    requires forall k <- b :: k != wanted[0]
    ensures Insert(key, a + b, wanted) == a + Insert(key, b, wanted[1..])
    decreases |a|
  {
    if a == [] {
      assert a + b == b;
      InsertAmongOthers(key, b, wanted);
    } else {
      var rest := a[1..];
      assert a[0] in a && (a + b)[0] == a[0] && (a + b)[1..] == rest + b;
      assert forall k <- rest :: k in a;
      InsertPastFirst(key, rest, b, wanted);
      assert a == [a[0]] + rest;
    }
  }

  lemma {:induction false} KeepsOnly(keys: seq<string>, x: string)
    ensures forall i :: 0 <= i < |Keep(keys, {x})| ==> Keep(keys, {x})[i] == x
  {
    if keys != [] {
      KeepsOnly(keys[1..], x);
    }
  }

  lemma {:induction false} OneMoreKey(key: string, keys: seq<string>, w: string)
    ensures Keep([key] + keys, {w}) == if key == w then [key] + Keep(keys, {w}) else Keep(keys, {w})
    ensures Drop([key] + keys, {w}) == if key == w then Drop(keys, {w}) else [key] + Drop(keys, {w})
  {
    assert ([key] + keys)[1..] == keys;
  }

  lemma {:induction false} InsertInFront(key: string, keys: seq<string>, wanted: seq<string>)
    requires wanted != [] && key == wanted[0]
    ensures Insert(key, keys, wanted) == [key] + keys
  {
    assert RankIn(wanted, key) == 0;
  }

  lemma {:induction false} OneInFront(key: string, a: seq<string>, b: seq<string>)
    ensures [key] + (a + b) == ([key] + a) + b
  {
  }

  lemma {:induction false} GroupedInFront(key: string, keys: seq<string>, wanted: seq<string>)
    requires wanted != [] && key == wanted[0]
    ensures Grouped([key] + keys, wanted) == [key] + Grouped(keys, wanted)
  {
    OneMoreKey(key, keys, key);
    OneInFront(key, Keep(keys, {key}), Grouped(Drop(keys, {key}), wanted[1..]));
  }

  /** A key that is wanted first goes in front of all copies of it. */
  lemma {:induction false} InsertFirst(key: string, keys: seq<string>, wanted: seq<string>)
    requires wanted != [] && key == wanted[0]
    ensures Insert(key, Grouped(keys, wanted), wanted) == Grouped([key] + keys, wanted)
  {
    GroupedInFront(key, keys, wanted);
    InsertInFront(key, Grouped(keys, wanted), wanted);
  }

  lemma {:induction false} InsertGrouped(key: string, keys: seq<string>, wanted: seq<string>)
    ensures Insert(key, Grouped(keys, wanted), wanted) == Grouped([key] + keys, wanted)
    decreases |wanted|
  {
    if wanted != [] && key == wanted[0] {
      InsertFirst(key, keys, wanted);
    } else if wanted != [] {
      var w, later := wanted[0], wanted[1..];
      var front, rest := Keep(keys, {w}), Drop(keys, {w});
      OneMoreKey(key, keys, w);
      KeepsOnly(keys, w);
      DropMembers(keys, {w});
      GroupedMembers(rest, later);
      InsertPastFirst(key, front, Grouped(rest, later), wanted);
      InsertGrouped(key, rest, later);
    }
  }

  lemma {:induction false} NothingGrouped(wanted: seq<string>)
    ensures Grouped([], wanted) == []
  {
    if wanted != [] {
      NothingGrouped(wanted[1..]);
    }
  }

  lemma {:induction false} SortIsGrouping(keys: seq<string>, wanted: seq<string>)
    ensures SortedByRequest(keys, wanted) == Grouped(keys, wanted)
  {
    if keys == [] {
      NothingGrouped(wanted);
    } else {
      SortIsGrouping(keys[1..], wanted);
      InsertGrouped(keys[0], keys[1..], wanted);
      assert [keys[0]] + keys[1..] == keys;
    }
  }

  lemma {:induction false} InsertAdds(key: string, keys: seq<string>, wanted: seq<string>)
    ensures multiset(Insert(key, keys, wanted)) == multiset(keys) + multiset{key}
  {
    if keys != [] {
      InsertAdds(key, keys[1..], wanted);
      assert keys == [keys[0]] + keys[1..];
    }
  }

  /** Whatever was asked for, the result is a permutation of the keys of the selected layers. */
  lemma {:induction false} SortPermutes(keys: seq<string>, wanted: seq<string>)
    ensures multiset(SortedByRequest(keys, wanted)) == multiset(keys)
  {
    if keys != [] {
      SortPermutes(keys[1..], wanted);
      InsertAdds(keys[0], SortedByRequest(keys[1..], wanted), wanted);
      assert keys == [keys[0]] + keys[1..];
    }
  }

  /** What grouping gives when no key is repeated. */
  function ByRequest(keys: seq<string>, wanted: seq<string>): seq<string> {
    Keep(Distinct(wanted), SetOf(keys)) + Drop(keys, SetOf(wanted))
  }

  lemma {:induction false} ByRequestStep(keys: seq<string>, wanted: seq<string>)
    requires wanted != []
    ensures ByRequest(keys, wanted)
         == (if wanted[0] in keys then [wanted[0]] else []) + ByRequest(Drop(keys, {wanted[0]}), wanted[1..])
  {
    var w, later := wanted[0], wanted[1..];
    var rest := Drop(keys, {w});
    var front, chosen, others :=
      if w in keys then [w] else [], Keep(Distinct(later), SetOf(rest)), Drop(rest, SetOf(later));
    DistinctStep(keys, wanted);
    assert Drop(keys, SetOf(wanted)) == others by {
      DropTwice(keys, {w}, SetOf(later));
      assert {w} + SetOf(later) == SetOf(wanted);
    }
    assert (front + chosen) + others == front + (chosen + others);
  }

  /** Without repeated keys, grouping puts the wanted ones first, in the order of the request. */
  lemma {:induction false} GroupedByRequest(keys: seq<string>, wanted: seq<string>)
    requires NoRepeats(keys)
    ensures Grouped(keys, wanted) == ByRequest(keys, wanted)
    decreases |wanted|
  {
    if wanted == [] {
      assert SetOf(wanted) == {};
      DropNothing(keys, {});
      assert [] + keys == keys;
    } else {
      KeepOne(keys, wanted[0]);
      DropMembers(keys, {wanted[0]});
      GroupedByRequest(Drop(keys, {wanted[0]}), wanted[1..]);
      ByRequestStep(keys, wanted);
    }
  }

  lemma {:induction false} DistinctStep(keys: seq<string>, wanted: seq<string>)
    requires wanted != []
    ensures Keep(Distinct(wanted), SetOf(keys))
         == (if wanted[0] in keys then [wanted[0]] else [])
            + Keep(Distinct(wanted[1..]), SetOf(Drop(keys, {wanted[0]})))
  {
    var w, later := wanted[0], wanted[1..];
    DropMembers(keys, {w});
    assert SetOf(Drop(keys, {w})) == SetOf(keys) - {w};
    KeepOfDrop(Distinct(later), w, SetOf(keys));
    assert Distinct(wanted)[1..] == Drop(Distinct(later), {w});
  }

  // ---- the layers ----

  lemma {:induction false} KeysOfSelected(ms: seq<ModuleSpec>, s: set<string>)
    ensures forall k :: k in SelectedKeys(ms, s) <==>
      exists m <- ms :: IsLayer(m) && m.id in s && m.layerKey == Some(k) && k != ""
  {
    if ms != [] {
      KeysOfSelected(ms[1..], s);
      assert ms == [ms[0]] + ms[1..];
    }
  }

  predicate IsSelectedLayer(m: ModuleSpec, s: set<string>) {
    m.moduleType == "layer" && m.id in s && m.layerKey.Some? && m.layerKey.value != ""
  }

  /** `out` are the keys of the selected layer modules, which stand at these increasing positions. */
  ghost predicate LayersAt(ms: seq<ModuleSpec>, s: set<string>, ks: seq<nat>, out: seq<string>) {
    && |ks| == |out|
    && (forall i :: 0 <= i < |ks| ==>
         ks[i] < |ms| && IsSelectedLayer(ms[ks[i]], s) && ms[ks[i]].layerKey == Some(out[i]))
    && (forall i, j :: 0 <= i < j < |ks| ==> ks[i] < ks[j])
    && (forall k: nat :: k < |ms| && IsSelectedLayer(ms[k], s) ==> k in ks)
  }

  lemma {:induction false} LayersWithOneMore(
      ms: seq<ModuleSpec>, m: ModuleSpec, s: set<string>, ks: seq<nat>, out: seq<string>)
    requires LayersAt(ms, s, ks, out)
    ensures !IsSelectedLayer(m, s) ==> LayersAt(ms + [m], s, ks, out)
    ensures IsSelectedLayer(m, s) ==> LayersAt(ms + [m], s, ks + [|ms|], out + [m.layerKey.value])
  {
    assert |ms| in ks + [|ms|];
    assert forall k :: k in ks ==> k in ks + [|ms|];
  }

  lemma {:induction false} KeysWithOneMore(ms: seq<ModuleSpec>, m: ModuleSpec, s: set<string>)
    ensures SelectedKeys(ms + [m], s) == SelectedKeys(ms, s) + if IsSelectedLayer(m, s) then [m.layerKey.value] else []
  {
    if ms == [] {
      assert ms + [m] == [m] && [m][1..] == [];
    } else {
      KeysWithOneMore(ms[1..], m, s);
      assert (ms + [m])[1..] == ms[1..] + [m];
    }
  }

  /** Without a request of the caller the layers come out in registration order, exactly the selected ones. */
  lemma {:induction false} LayersInOrder(ms: seq<ModuleSpec>, s: set<string>) returns (ks: seq<nat>)
    ensures LayersAt(ms, s, ks, SelectedKeys(ms, s)) && OrderedKeys(ms, s, []) == SelectedKeys(ms, s)
  {
    if ms == [] {
      ks := [];
    } else {
      var n := |ms| - 1;
      ks := LayersInOrder(ms[..n], s);
      LayersWithOneMore(ms[..n], ms[n], s, ks, SelectedKeys(ms[..n], s));
      KeysWithOneMore(ms[..n], ms[n], s);
      assert ms == ms[..n] + [ms[n]];
      if IsSelectedLayer(ms[n], s) {
        ks := ks + [n];
      } else {
        assert SelectedKeys(ms[..n], s) + [] == SelectedKeys(ms[..n], s);
      }
    }
  }

  lemma {:induction false} SelectedKeysDistinct(ms: seq<ModuleSpec>, s: set<string>)
    requires WellFormed(ms) && UniqueLayerKeys(ms)
    ensures NoRepeats(SelectedKeys(ms, s))
  {
    if ms != [] {
      TailWellFormed(ms);
      SelectedKeysDistinct(ms[1..], s);
      KeysOfSelected(ms[1..], s);
      assert ms[0] in ms;
      forall n | n in ms[1..] && IsLayer(n) && IsLayer(ms[0]) ensures n.layerKey != ms[0].layerKey {
        var j :| 0 <= j < |ms[1..]| && ms[1..][j] == n;
        assert ms[0].id != ms[j + 1].id && n in ms;
      }
    }
  }

  lemma {:induction false} TailWellFormed(ms: seq<ModuleSpec>)
    requires ms != [] && WellFormed(ms)
    ensures WellFormed(ms[1..]) && (UniqueLayerKeys(ms) ==> UniqueLayerKeys(ms[1..]))
  {
    assert forall m <- ms[1..] :: m in ms;
    forall i, j | 0 <= i < j < |ms[1..]| ensures ms[1..][i].id != ms[1..][j].id {
      assert ms[i + 1].id != ms[j + 1].id;
    }
  }

  lemma {:induction false} WantedAreSelected(
      ms: seq<ModuleSpec>, modules: seq<string>, layers: seq<string>, s: set<string>)
    requires WellFormed(ms)
    requires forall key <- layers :: LayerFor(ms, key).Some?
    requires Seed(ms, modules, layers) <= s
    ensures forall key <- layers :: key in SelectedKeys(ms, s)
  {
    KeysOfSelected(ms, s);
    forall k | k in layers ensures k in SelectedKeys(ms, s) {
      var m := LayerFor(ms, k).value;
      assert m.id in Seed(ms, modules, layers);
    }
  }

  lemma {:induction false} NoRepeatsTogether(a: seq<string>, b: seq<string>)
    requires NoRepeats(a) && NoRepeats(b) && forall k <- a :: k !in b
    ensures NoRepeats(a + b)
  {
    forall i, j | 0 <= i < j < |a + b| ensures (a + b)[i] != (a + b)[j] {
      if i < |a| && j >= |a| {
        assert a[i] in a && b[j - |a|] in b;
      }
    }
  }

  lemma {:induction false} SortedNoRepeats(keys: seq<string>, wanted: seq<string>)
    requires NoRepeats(keys) && forall k <- wanted :: k in keys
    ensures SortedByRequest(keys, wanted) == Distinct(wanted) + Drop(keys, SetOf(wanted))
    ensures NoRepeats(SortedByRequest(keys, wanted))
  {
    SortIsGrouping(keys, wanted);
    GroupedByRequest(keys, wanted);
    DistinctMembers(wanted);
    KeepEverything(Distinct(wanted), SetOf(keys));
    DropMembers(keys, SetOf(wanted));
    NoRepeatsTogether(Distinct(wanted), Drop(keys, SetOf(wanted)));
  }

  /** The layers asked for come first, in the caller's order and without repeats, whether or not the caller
      repeated them; the other selected layers follow in registration order. */
  lemma {:induction false} RequestedLayersComeFirst(
      ms: seq<ModuleSpec>, modules: seq<string>, layers: seq<string>, s: set<string>)
    requires WellFormed(ms) && UniqueLayerKeys(ms)
    requires forall key <- layers :: LayerFor(ms, key).Some?
    requires IsClosure(ms, Seed(ms, modules, layers), s)
    ensures OrderedKeys(ms, s, layers) == Distinct(layers) + Drop(SelectedKeys(ms, s), SetOf(layers))
    ensures multiset(OrderedKeys(ms, s, layers)) == multiset(SelectedKeys(ms, s))
    ensures NoRepeats(OrderedKeys(ms, s, layers))
  {
    var keys := SelectedKeys(ms, s);
    SelectedKeysDistinct(ms, s);
    SortPermutes(keys, layers);
    WantedAreSelected(ms, modules, layers, s);
    SortedNoRepeats(keys, layers);
    if layers == [] {
      assert SetOf(layers) == {};
      DropNothing(keys, {});
    }
  }

  // ---- resolving again ----

  /** For each selected layer, the module that its key leads back to is selected as well. */
  ghost predicate KeysLeadBack(ms: seq<ModuleSpec>, s: set<string>) {
    forall k <- SelectedKeys(ms, s) :: LayerFor(ms, k).Some? && LayerFor(ms, k).value.id in s
  }

  lemma {:induction false} SameKeys(ms: seq<ModuleSpec>, s: set<string>, layers: seq<string>)
    ensures forall k :: k in OrderedKeys(ms, s, layers) <==> k in SelectedKeys(ms, s)
  {
    SortPermutes(SelectedKeys(ms, s), layers);
    forall k ensures k in OrderedKeys(ms, s, layers) <==> k in SelectedKeys(ms, s) {
      assert k in OrderedKeys(ms, s, layers) <==> k in multiset(OrderedKeys(ms, s, layers));
      assert k in SelectedKeys(ms, s) <==> k in multiset(SelectedKeys(ms, s));
    }
  }

  lemma {:induction false} SeedOfResult(
      ms: seq<ModuleSpec>, modules: seq<string>, layers: seq<string>, s: set<string>)
    requires IsClosure(ms, Seed(ms, modules, layers), s) && s <= Ids(ms)
    ensures var seed := Seed(ms, SelectedIds(ms, s), OrderedKeys(ms, s, layers));
      && s <= seed
      && (seed <= s <==> KeysLeadBack(ms, s))
  {
    SelectedIdsMembers(ms, s);
    SameKeys(ms, s, layers);
    var seed := Seed(ms, SelectedIds(ms, s), OrderedKeys(ms, s, layers));
    forall k | k in SelectedKeys(ms, s) ensures LayerFor(ms, k).Some? && LayerFor(ms, k).value.id in seed {
      KeysOfSelected(ms, s);
      var m :| m in ms && IsLayer(m) && m.id in s && m.layerKey == Some(k);
      assert IsLayerWithKey(m, k);
    }
  }

  /** Every module in the answer to a valid request is registered. */
  lemma {:induction false} ClosureIsRegistered(
      ms: seq<ModuleSpec>, modules: seq<string>, layers: seq<string>, s: set<string>)
    requires forall id <- modules :: id in Ids(ms)
    requires IsClosure(ms, Seed(ms, modules, layers), s)
    ensures s <= Ids(ms)
  {
    assert Seed(ms, modules, layers) <= Ids(ms) && Closed(ms, Ids(ms));
  }

  /** A valid request has one answer, whatever order the sets are walked in. */
  lemma {:induction false} AnswerIsUnique(
      ms: seq<ModuleSpec>, modules: seq<string>, layers: seq<string>,
      a: (seq<string>, seq<string>), b: (seq<string>, seq<string>))
    requires ResolvesTo(ms, modules, layers, a) && ResolvesTo(ms, modules, layers, b)
    ensures a == b
  {
    var seed := Seed(ms, modules, layers);
    var s :| IsClosure(ms, seed, s) && a == (SelectedIds(ms, s), OrderedKeys(ms, s, layers));
    var t :| IsClosure(ms, seed, t) && b == (SelectedIds(ms, t), OrderedKeys(ms, t, layers));
    ClosureIsUnique(ms, seed, s, t);
  }

  /** The modules of a completed selection come back unchanged when it is completed again exactly when
      the key of every selected layer leads back to a selected module. */
  lemma {:induction false} AgainSameModules(
      ms: seq<ModuleSpec>, modules: seq<string>, layers: seq<string>, s: set<string>, t: set<string>)
    requires forall id <- modules :: id in Ids(ms)
    requires IsClosure(ms, Seed(ms, modules, layers), s)
    requires IsClosure(ms, Seed(ms, SelectedIds(ms, s), OrderedKeys(ms, s, layers)), t)
    ensures t == s <==> KeysLeadBack(ms, s)
  {
    ClosureIsRegistered(ms, modules, layers, s);
    SeedOfResult(ms, modules, layers, s);
    var seed := Seed(ms, SelectedIds(ms, s), OrderedKeys(ms, s, layers));
    if KeysLeadBack(ms, s) {
      assert seed <= s && Closed(ms, s);
    }
  }

  lemma {:induction false} UniqueKeysLeadBack(ms: seq<ModuleSpec>, s: set<string>)
    requires UniqueLayerKeys(ms)
    ensures KeysLeadBack(ms, s)
  {
    KeysOfSelected(ms, s);
    forall k | k in SelectedKeys(ms, s) ensures LayerFor(ms, k).Some? && LayerFor(ms, k).value.id in s {
      var m :| m in ms && IsLayer(m) && m.id in s && m.layerKey == Some(k);
      assert IsLayerWithKey(m, k);
    }
  }

  /** Equal keys stand together. */
  ghost predicate Contiguous(keys: seq<string>) {
    forall i, j, k :: 0 <= i < j < k < |keys| && keys[i] == keys[k] ==> keys[j] == keys[i]
  }

  lemma {:induction false} KeepNothing(keys: seq<string>, s: set<string>)
    requires forall k <- keys :: k !in s
    ensures Keep(keys, s) == []
  {
    if keys != [] {
      assert forall k <- keys[1..] :: k in keys;
      KeepNothing(keys[1..], s);
    }
  }

  /** Where all copies of `x` stand in front, taking them out and putting them in front changes nothing. */
  lemma {:induction false} FrontBlock(keys: seq<string>, x: string)
    requires forall i, j :: 0 <= i < j < |keys| && keys[j] == x ==> keys[i] == x
    ensures keys == Keep(keys, {x}) + Drop(keys, {x})
  {
    if keys != [] {
      var rest := keys[1..];
      assert keys == [keys[0]] + rest;
      if keys[0] == x {
        assert forall i :: 0 <= i < |rest| ==> rest[i] == keys[i + 1];
        FrontBlock(rest, x);
      } else {
        assert forall i :: 0 < i < |keys| ==> keys[i] != x;
        DropNothing(keys, {x});
        KeepNothing(keys, {x});
      }
    }
  }

  lemma {:induction false} CopiesOf(keys: seq<string>, x: string)
    ensures |Keep(keys, {x})| == multiset(keys)[x]
  {
    if keys != [] {
      var k, rest := keys[0], keys[1..];
      CopiesOf(rest, x);
      assert keys == [k] + rest;
      assert |Keep(keys, {x})| == |Keep(rest, {x})| + if k == x then 1 else 0;
      assert multiset(keys)[x] == multiset(rest)[x] + if k == x then 1 else 0;
    }
  }

  lemma {:induction false} DropCopies(keys: seq<string>, x: string)
    ensures multiset(Drop(keys, {x})) == multiset(keys)[x := 0]
  {
    if keys != [] {
      var k, rest := keys[0], keys[1..];
      DropCopies(rest, x);
      assert keys == [k] + rest;
      if k == x {
        DropFirst(keys);
      }
    }
  }

  lemma {:induction false} AbsentIsIgnored(keys: seq<string>, wanted: seq<string>, x: string)
    requires x !in keys
    ensures Grouped(keys, wanted) == Grouped(keys, Drop(wanted, {x}))
    decreases |wanted|
  {
    if wanted != [] {
      var w := wanted[0];
      DropMembers(keys, {w});
      AbsentIsIgnored(Drop(keys, {w}), wanted[1..], x);
      if w == x {
        DropNothing(keys, {x});
        KeepNothing(keys, {x});
        DropFirst(wanted);
        assert [] + Grouped(keys, wanted[1..]) == Grouped(keys, wanted[1..]);
      } else {
        assert Drop(wanted, {x}) == [w] + Drop(wanted[1..], {x});
      }
    }
  }

  /** Copies of one key are determined by their number. */
  lemma {:induction false} SameCopies(a: seq<string>, b: seq<string>, x: string)
    requires multiset(a) == multiset(b)
    ensures Keep(a, {x}) == Keep(b, {x}) && multiset(Drop(a, {x})) == multiset(Drop(b, {x}))
  {
    KeepsOnly(a, x);
    KeepsOnly(b, x);
    CopiesOf(a, x);
    CopiesOf(b, x);
    DropCopies(a, x);
    DropCopies(b, x);
  }

  /** What is left of a contiguous list without its first key. */
  lemma {:induction false} RestIsContiguous(wanted: seq<string>)
    requires wanted != [] && Contiguous(wanted)
    ensures var w := wanted[0];
      && wanted == Keep(wanted, {w}) + Drop(wanted, {w})
      && Contiguous(Drop(wanted, {w})) && |Drop(wanted, {w})| < |wanted|
  {
    var w := wanted[0];
    var front, rest := Keep(wanted, {w}), Drop(wanted, {w});
    FrontBlock(wanted, w);
    forall i, j, k | 0 <= i < j < k < |rest| && rest[i] == rest[k] ensures rest[j] == rest[i] {
      var n := |front|;
      assert rest[i] == wanted[n + i] && rest[j] == wanted[n + j] && rest[k] == wanted[n + k];
    }
  }

  lemma {:induction false} DropFirst(wanted: seq<string>)
    requires wanted != []
    ensures Drop(wanted, {wanted[0]}) == Drop(wanted[1..], {wanted[0]})
  {
    assert [] + Drop(wanted[1..], {wanted[0]}) == Drop(wanted[1..], {wanted[0]});
  }

  /** Grouping by an order of the same keys gives that order back when equal keys stand together in it. */
  lemma {:induction false} GroupedAlready(keys: seq<string>, wanted: seq<string>)
    requires multiset(keys) == multiset(wanted) && Contiguous(wanted)
    ensures Grouped(keys, wanted) == wanted
    decreases |wanted|
  {
    if wanted == [] {
      assert |multiset(keys)| == 0;
    } else {
      var w := wanted[0];
      RestIsContiguous(wanted);
      SameCopies(keys, wanted, w);
      GroupedAlready(Drop(keys, {w}), Drop(wanted, {w}));
      DropMembers(keys, {w});
      AbsentIsIgnored(Drop(keys, {w}), wanted[1..], w);
      DropFirst(wanted);
    }
  }

  /** Grouping by an order that names every key leaves equal keys together. */
  lemma {:induction false} GroupedIsContiguous(keys: seq<string>, wanted: seq<string>)
    requires forall i :: 0 <= i < |keys| ==> keys[i] in wanted
    ensures Contiguous(Grouped(keys, wanted))
    decreases |wanted|
  {
    if wanted != [] {
      var w := wanted[0];
      var front, rest := Keep(keys, {w}), Drop(keys, {w});
      DropMembers(keys, {w});
      KeepsOnly(keys, w);
      GroupedMembers(rest, wanted[1..]);
      assert wanted == [w] + wanted[1..];
      forall i | 0 <= i < |rest| ensures rest[i] in wanted[1..] {
        assert rest[i] in rest;
      }
      GroupedIsContiguous(rest, wanted[1..]);
      BlockThenContiguous(front, Grouped(rest, wanted[1..]), w);
    }
  }

  lemma {:induction false} BlockThenContiguous(front: seq<string>, rest: seq<string>, w: string)
    requires forall i :: 0 <= i < |front| ==> front[i] == w
    requires w !in rest && Contiguous(rest)
    ensures Contiguous(front + rest)
  {
    var all, n := front + rest, |front|;
    forall i, j, k | 0 <= i < j < k < |all| && all[i] == all[k] ensures all[j] == all[i] {
      assert forall l :: n <= l < |all| ==> all[l] == rest[l - n] && all[l] in rest;
      if n <= i {
        assert all[i] == rest[i - n] && all[j] == rest[j - n] && all[k] == rest[k - n];
      }
    }
  }

  /** Ordering the keys by an order they were once put in changes nothing exactly when equal keys stand
      together in that order. */
  lemma {:induction false} AgainSameOrder(ms: seq<ModuleSpec>, s: set<string>, layers: seq<string>)
    ensures var ordered := OrderedKeys(ms, s, layers);
      OrderedKeys(ms, s, ordered) == ordered <==> Contiguous(ordered)
  {
    var keys, ordered := SelectedKeys(ms, s), OrderedKeys(ms, s, layers);
    SortPermutes(keys, layers);
    SameKeys(ms, s, layers);
    if ordered != [] {
      SortIsGrouping(keys, ordered);
      GroupedIsContiguous(keys, ordered);
      if Contiguous(ordered) {
        GroupedAlready(keys, ordered);
      }
    } else {
      assert |multiset(keys)| == 0;
    }
  }

  /** A completed selection comes back unchanged when it is completed again exactly when the key of every
      selected layer leads back to a selected module and equal layer keys stand together in it. */
  lemma {:induction false} ResolvingAgain(
      ms: seq<ModuleSpec>, modules: seq<string>, layers: seq<string>, s: set<string>, out: (seq<string>, seq<string>))
    requires forall id <- modules :: id in Ids(ms)
    requires IsClosure(ms, Seed(ms, modules, layers), s)
    requires out == (SelectedIds(ms, s), OrderedKeys(ms, s, layers))
    ensures ResolvesTo(ms, out.0, out.1, out) <==> KeysLeadBack(ms, s) && Contiguous(out.1)
  {
    var seed := Seed(ms, out.0, out.1);
    ClosureIsRegistered(ms, modules, layers, s);
    SeedOfResult(ms, modules, layers, s);
    AgainSameOrder(ms, s, layers);
    if ResolvesTo(ms, out.0, out.1, out) {
      var t :| IsClosure(ms, seed, t) && out == (SelectedIds(ms, t), OrderedKeys(ms, t, out.1));
      SameModulesSameSet(ms, out.0, out.1, s, t);
      AgainSameModules(ms, modules, layers, s, t);
    }
    if KeysLeadBack(ms, s) && Contiguous(out.1) {
      assert IsClosure(ms, seed, s);
    }
  }

  lemma {:induction false} SameModulesSameSet(
      ms: seq<ModuleSpec>, modules: seq<string>, layers: seq<string>, s: set<string>, t: set<string>)
    requires s <= Ids(ms) && modules == SelectedIds(ms, s) == SelectedIds(ms, t)
    requires IsClosure(ms, Seed(ms, modules, layers), t)
    ensures s == t
  {
    SelectedIdsMembers(ms, s);
    SelectedIdsMembers(ms, t);
    ClosureIsRegistered(ms, modules, layers, t);
    forall id ensures id in s <==> id in t {
      assert id in modules <==> id in s && id in Ids(ms);
    }
  }

  /** With unique layer keys, completing a completed selection changes neither list. */
  lemma {:induction false} ResolvingAgainChangesNothing(
      ms: seq<ModuleSpec>, modules: seq<string>, layers: seq<string>, out: (seq<string>, seq<string>))
    requires WellFormed(ms) && UniqueLayerKeys(ms)
    requires forall id <- modules :: id in Ids(ms)
    requires forall key <- layers :: LayerFor(ms, key).Some?
    requires ResolvesTo(ms, modules, layers, out)
    ensures ResolvesTo(ms, out.0, out.1, out)
  {
    var s :| IsClosure(ms, Seed(ms, modules, layers), s)
      && out == (SelectedIds(ms, s), OrderedKeys(ms, s, layers));
    UniqueKeysLeadBack(ms, s);
    RequestedLayersComeFirst(ms, modules, layers, s);
    ResolvingAgain(ms, modules, layers, s, out);
  }

  // ---- registries for which completing again does change something ----

  function Layer(id: string, key: string): ModuleSpec {
    ModuleSpec(id, "layer", false, [], Some(key))
  }

  /** Layers without dependencies, selected as they are. */
  lemma {:induction false} LayersAlone(ms: seq<ModuleSpec>, modules: seq<string>, layers: seq<string>, s: set<string>)
    requires forall m <- ms :: m.dependencies == [] && !m.core
    requires s == Seed(ms, modules, layers)
    ensures ResolvesTo(ms, modules, layers, (SelectedIds(ms, s), OrderedKeys(ms, s, layers)))
  {
    assert Closed(ms, s);
    assert IsClosure(ms, s, s);
  }

  lemma {:induction false} OneMoreModule(ms: seq<ModuleSpec>, m: ModuleSpec, s: set<string>)
    ensures SelectedIds(ms + [m], s) == SelectedIds(ms, s) + if m.id in s then [m.id] else []
  {
    assert (ms + [m])[..|ms|] == ms;
  }

  lemma {:induction false} OneLayerBefore(id: string, key: string, ms: seq<ModuleSpec>, s: set<string>)
    requires key != ""
    ensures SelectedKeys([Layer(id, key)] + ms, s) == (if id in s then [key] else []) + SelectedKeys(ms, s)
    ensures forall k :: LayerFor([Layer(id, key)] + ms, k) == if k == key then Some(Layer(id, key)) else LayerFor(ms, k)
  {
    assert ([Layer(id, key)] + ms)[1..] == ms;
  }

  lemma {:induction false} TwoIds(s: set<string>)
    ensures SelectedIds([Layer("a", "k"), Layer("b", "k")], s)
         == (if "a" in s then ["a"] else []) + (if "b" in s then ["b"] else [])
  {
    var a, b := Layer("a", "k"), Layer("b", "k");
    OneMoreModule([], a, s);
    OneMoreModule([a], b, s);
    assert [] + [a] == [a] && [a] + [b] == [a, b];
  }

  /** Layer b alone, or a and b, among two layers that share a key. */
  lemma {:induction false} TwoLayers(s: set<string>)
    ensures var ms := [Layer("a", "k"), Layer("b", "k")];
      && SelectedIds(ms, s) == (if "a" in s then ["a"] else []) + (if "b" in s then ["b"] else [])
      && SelectedKeys(ms, s) == (if "a" in s then ["k"] else []) + (if "b" in s then ["k"] else [])
      && LayerFor(ms, "k") == Some(Layer("a", "k"))
  {
    var a, b := Layer("a", "k"), Layer("b", "k");
    TwoIds(s);
    OneLayerBefore("b", "k", [], s);
    OneLayerBefore("a", "k", [b], s);
    assert [a] + [b] == [a, b] && [b] + [] == [b];
  }

  /** Among layers of their own, a request selects what it names and what its keys lead to. */
  lemma {:induction false} SeedOfLayers(ms: seq<ModuleSpec>, modules: seq<string>, layers: seq<string>, s: set<string>)
    requires forall m <- ms :: !m.core
    requires forall id <- modules :: id in s
    requires forall k <- layers :: LayerFor(ms, k).Some? && LayerFor(ms, k).value.id in s
    requires forall id <- s ::
      id in modules || exists k <- layers :: LayerFor(ms, k).Some? && LayerFor(ms, k).value.id == id
    ensures Seed(ms, modules, layers) == s
  {
  }

  /** Two layers share a key. Asking for the second one only gives it and the key; asking for that again
      selects the first one too. */
  lemma {:induction false} SharedKeyAddsModule()
    ensures var ms := [Layer("a", "k"), Layer("b", "k")];
      && WellFormed(ms)
      && ResolvesTo(ms, ["b"], [], (["b"], ["k"]))
      && ResolvesTo(ms, ["b"], ["k"], (["a", "b"], ["k", "k"]))
  {
    TwoWellFormed();
    SharedKeyOnce();
    SharedKeyAgain();
  }

  lemma {:induction false} TwoWellFormed()
    ensures WellFormed([Layer("a", "k"), Layer("b", "k")])
  {
    assert "a"[0] != "b"[0];
  }

  lemma {:induction false} SharedKeyOnce()
    ensures ResolvesTo([Layer("a", "k"), Layer("b", "k")], ["b"], [], (["b"], ["k"]))
  {
    var ms := [Layer("a", "k"), Layer("b", "k")];
    assert "a"[0] != "b"[0];
    TwoLayers({"b"});
    SeedOfLayers(ms, ["b"], [], {"b"});
    LayersAlone(ms, ["b"], [], {"b"});
    assert [] + ["b"] == ["b"] && [] + ["k"] == ["k"];
  }

  lemma {:induction false} SharedKeyAgain()
    ensures ResolvesTo([Layer("a", "k"), Layer("b", "k")], ["b"], ["k"], (["a", "b"], ["k", "k"]))
  {
    var ms := [Layer("a", "k"), Layer("b", "k")];
    TwoLayers({"a", "b"});
    assert "k" in ["k"];
    SeedOfLayers(ms, ["b"], ["k"], {"a", "b"});
    LayersAlone(ms, ["b"], ["k"], {"a", "b"});
    SortedPair();
    assert ["k"] + ["k"] == ["k", "k"] && ["a"] + ["b"] == ["a", "b"];
  }

  lemma {:induction false} SortedPair()
    ensures SortedByRequest(["k", "k"], ["k"]) == ["k", "k"]
  {
    SortSteps("k", ["k"], ["k"]);
    SortSteps("k", [], ["k"]);
    assert ["k"] + ["k"] == ["k", "k"] && ["k"] + [] == ["k"];
  }

  lemma {:induction false} SortSteps(key: string, keys: seq<string>, wanted: seq<string>)
    ensures SortedByRequest([key] + keys, wanted) == Insert(key, SortedByRequest(keys, wanted), wanted)
  {
    assert ([key] + keys)[1..] == keys;
  }

  lemma {:induction false} ThreeIds()
    ensures SelectedIds([Layer("a", "k"), Layer("x", "x"), Layer("b", "k")], {"a", "x", "b"}) == ["a", "x", "b"]
  {
    var a, x, b, s := Layer("a", "k"), Layer("x", "x"), Layer("b", "k"), {"a", "x", "b"};
    OneMoreModule([], a, s);
    OneMoreModule([a], x, s);
    OneMoreModule([a, x], b, s);
    assert [] + [a] == [a] && [a] + [x] == [a, x] && [a, x] + [b] == [a, x, b];
  }

  lemma {:induction false} ThreeLayers()
    ensures var ms, s := [Layer("a", "k"), Layer("x", "x"), Layer("b", "k")], {"a", "x", "b"};
      && SelectedIds(ms, s) == ["a", "x", "b"]
      && SelectedKeys(ms, s) == ["k", "x", "k"]
      && LayerFor(ms, "k") == Some(Layer("a", "k")) && LayerFor(ms, "x") == Some(Layer("x", "x"))
  {
    var a, x, b, s := Layer("a", "k"), Layer("x", "x"), Layer("b", "k"), {"a", "x", "b"};
    ThreeIds();
    OneLayerBefore("b", "k", [], s);
    OneLayerBefore("x", "x", [b], s);
    OneLayerBefore("a", "k", [x, b], s);
    assert [b] + [] == [b] && [x] + [b] == [x, b] && [a] + [x, b] == [a, x, b];
  }

  lemma {:induction false} SortedAgain()
    ensures SortedByRequest(["k", "x", "k"], ["k", "x", "k"]) == ["k", "k", "x"]
  {
    var wanted := ["k", "x", "k"];
    assert RankIn(wanted, "k") == 0 && RankIn(wanted, "x") == 1 by {
      assert wanted[1..] == ["x", "k"] && RankIn(["x", "k"], "x") == 0;
    }
    SortSteps("k", [], wanted);
    SortSteps("x", ["k"], wanted);
    SortSteps("k", ["x", "k"], wanted);
    assert ["k"] + [] == ["k"] && ["x"] + ["k"] == ["x", "k"] && ["k"] + ["x", "k"] == wanted;
    assert ["k"][1..] == [];
    assert Insert("x", ["k"], wanted) == ["k"] + Insert("x", [], wanted);
    assert ["k"] + ["x"] == ["k", "x"];
  }

  /** A third layer stands between them. All three are asked for, so no module is added; but asking for the
      keys in the order they came out in changes that order. */
  lemma {:induction false} SharedKeyMovesLayer()
    ensures var ms := [Layer("a", "k"), Layer("x", "x"), Layer("b", "k")];
      && WellFormed(ms)
      && ResolvesTo(ms, ["a", "x", "b"], [], (["a", "x", "b"], ["k", "x", "k"]))
      && ResolvesTo(ms, ["a", "x", "b"], ["k", "x", "k"], (["a", "x", "b"], ["k", "k", "x"]))
  {
    ThreeWellFormed();
    LayersFirst();
    LayersMoved();
  }

  lemma {:induction false} ThreeWellFormed()
    ensures WellFormed([Layer("a", "k"), Layer("x", "x"), Layer("b", "k")])
  {
    assert "a"[0] != "b"[0] && "a"[0] != "x"[0] && "b"[0] != "x"[0];
  }

  lemma {:induction false} LayersFirst()
    ensures ResolvesTo([Layer("a", "k"), Layer("x", "x"), Layer("b", "k")],
                       ["a", "x", "b"], [], (["a", "x", "b"], ["k", "x", "k"]))
  {
    var ms, s := [Layer("a", "k"), Layer("x", "x"), Layer("b", "k")], {"a", "x", "b"};
    ThreeLayers();
    SeedOfLayers(ms, ["a", "x", "b"], [], s);
    LayersAlone(ms, ["a", "x", "b"], [], s);
  }

  lemma {:induction false} LayersMoved()
    ensures ResolvesTo([Layer("a", "k"), Layer("x", "x"), Layer("b", "k")],
                       ["a", "x", "b"], ["k", "x", "k"], (["a", "x", "b"], ["k", "k", "x"]))
  {
    var ms, s := [Layer("a", "k"), Layer("x", "x"), Layer("b", "k")], {"a", "x", "b"};
    ThreeLayers();
    SeedOfLayers(ms, ["a", "x", "b"], ["k", "x", "k"], s);
    LayersAlone(ms, ["a", "x", "b"], ["k", "x", "k"], s);
    SortedAgain();
  }
}
