/** Closing a feature selection under hard requirements (packages/create-kumiko-app/src/dep-resolver.ts). */
module DependencyClosure {
  import opened Collections
  import opened Wrappers

  datatype Feature = Feature(name: string, needs: seq<string>)

  type Manifest = seq<Feature>

  /** `byName.get(name)`: of several features of one name the last one counts. */
  function Lookup(m: Manifest, name: string): Option<Feature> {
    if m == [] then None
    else if m[|m| - 1].name == name then Some(m[|m| - 1])
    else Lookup(m[..|m| - 1], name)
  }

  predicate Known(m: Manifest, name: string) {
    Lookup(m, name).Some?
  }

  function Needs(m: Manifest, name: string): seq<string> {
    match Lookup(m, name)
    case Some(f) => f.needs
    case None => []
  }

  ghost predicate Closed(m: Manifest, names: set<string>) {
    forall x, y :: x in names && y in Needs(m, x) ==> y in names
  }

  /** In the least set that holds the selection and is closed under requirements. */
  ghost predicate Required(m: Manifest, selected: seq<string>, name: string) {
    forall c: set<string> :: Closed(m, c) && Within(selected, c) ==> name in c
  }

  ghost predicate Within(names: seq<string>, c: set<string>) {
    forall x :: x in names ==> x in c
  }

  // ---------------------------------------------------------------- the order of the search

  ghost function AllNeeds(m: Manifest): set<string> {
    if m == [] then {}
    else
      var needs := m[|m| - 1].needs;
      AllNeeds(m[..|m| - 1]) + set x | x in needs
  }

  lemma {:induction false} NeedsAreBounded(m: Manifest, name: string)
    ensures forall y :: y in Needs(m, name) ==> y in AllNeeds(m)
  {
    if m != [] && m[|m| - 1].name != name {
      NeedsAreBounded(m[..|m| - 1], name);
    }
  }

  ghost function Room(m: Manifest, names: seq<string>, visited: seq<string>): nat {
    |AllNeeds(m) + (set x | x in names) - set x | x in visited|
  }

  /** Depth-first preorder over the requirements: the visited names once `names` have been visited in
      turn, or the first name that is not in the manifest. */
  ghost function VisitAll(m: Manifest, names: seq<string>, visited: seq<string>): (r: Result<seq<string>, string>)
    ensures r.Ok? ==> visited <= r.value
    decreases Room(m, names, visited), |names|
  {
    if names == [] then Ok(visited)
    else
      var first, rest := names[0], names[1..];
      if first in visited then
        RoomShrinks(m, names, visited, rest, visited);
        VisitAll(m, rest, visited)
      else if !Known(m, first) then Err(first)
      else
        RoomDrops(m, names, visited);
        var inner := VisitAll(m, Needs(m, first), visited + [first]);
        if inner.Err? then inner
        else
          PrefixMembers(visited, [first], inner.value);
          RoomShrinks(m, names, visited, rest, inner.value);
          VisitAll(m, rest, inner.value)
  }

  lemma PrefixMembers(visited: seq<string>, more: seq<string>, after: seq<string>)
    requires visited + more <= after
    ensures visited <= after && forall x :: x in visited ==> x in after
  {
    assert forall i :: 0 <= i < |visited| ==> visited[i] == (visited + more)[i] == after[i];
  }

  lemma RoomShrinks(m: Manifest, names: seq<string>, visited: seq<string>, rest: seq<string>, more: seq<string>)
    requires (forall x :: x in rest ==> x in names) && (forall x :: x in visited ==> x in more)
    ensures Room(m, rest, more) <= Room(m, names, visited)
  {
    SubsetCardinality(AllNeeds(m) + (set x | x in rest) - (set x | x in more),
                AllNeeds(m) + (set x | x in names) - (set x | x in visited));
  }

  lemma RoomDrops(m: Manifest, names: seq<string>, visited: seq<string>)
    requires names != [] && names[0] !in visited
    ensures Room(m, Needs(m, names[0]), visited + [names[0]]) < Room(m, names, visited)
  {
    var first := names[0];
    NeedsAreBounded(m, first);
    var before := AllNeeds(m) + (set x | x in names) - set x | x in visited;
    var after := AllNeeds(m) + (set x | x in Needs(m, first)) - set x | x in visited + [first];
    assert after <= before - {first};
    SubsetCardinality(after, before - {first});
  }

  // ---------------------------------------------------------------- what the search finds

  /** Of the names a search adds: all known, their requirements visited, and each of them in every
      closed set that has what the search started from. */
  ghost predicate Explored(m: Manifest, names: seq<string>, before: seq<string>, after: seq<string>) {
    && before <= after
    && (forall x :: x in names ==> x in after)
    && (forall x :: x in after && x !in before ==> Known(m, x))
    && (forall x, y :: x in after && x !in before && y in Needs(m, x) ==> y in after)
    && (forall c: set<string>, x :: Closed(m, c) && Within(names, c) && x in after && x !in before ==> x in c)
  }

  /** What a search returns: names explored without repetition, or one that is required but unknown. */
  ghost predicate Faithful(m: Manifest, names: seq<string>, visited: seq<string>, r: Result<seq<string>, string>) {
    match r
    case Ok(after) => Distinct(after) && Explored(m, names, visited, after)
    case Err(name) => !Known(m, name) && forall c: set<string> :: Closed(m, c) && Within(names, c) ==> name in c
  }

  /** One turn of the search. */
  lemma SearchTurn(m: Manifest, names: seq<string>, visited: seq<string>)
    ensures names == [] ==> VisitAll(m, names, visited) == Ok(visited)
    ensures names != [] && names[0] in visited ==>
      VisitAll(m, names, visited) == VisitAll(m, names[1..], visited)
    ensures names != [] && names[0] !in visited ==>
      var inner := VisitAll(m, Needs(m, names[0]), visited + [names[0]]);
      VisitAll(m, names, visited)
        == if !Known(m, names[0]) then Err(names[0])
           else if inner.Err? then inner else VisitAll(m, names[1..], inner.value)
    ensures VisitAll(m, names, visited).Ok? ==> visited <= VisitAll(m, names, visited).value
  {
    hide Known, Needs, Room;
  }

  lemma {:induction false} SearchIsFaithful(m: Manifest, names: seq<string>, visited: seq<string>)
    requires Distinct(visited)
    ensures Faithful(m, names, visited, VisitAll(m, names, visited))
    decreases Room(m, names, visited), |names|
  {
    hide *;
    SearchTurn(m, names, visited);
    if names == [] {
      NothingToVisit(m, visited);
    } else {
      var first, rest := names[0], names[1..];
      if first in visited {
        RoomShrinks(m, names, visited, rest, visited);
        SearchIsFaithful(m, rest, visited);
        AlreadyVisited(m, names, visited, VisitAll(m, rest, visited));
      } else if Known(m, first) {
        RoomDrops(m, names, visited);
        StillDistinct(visited, first);
        SearchIsFaithful(m, Needs(m, first), visited + [first]);
        var inner := VisitAll(m, Needs(m, first), visited + [first]);
        if inner.Ok? {
          SearchTurn(m, Needs(m, first), visited + [first]);
          PrefixMembers(visited, [first], inner.value);
          RoomShrinks(m, names, visited, rest, inner.value);
          FaithfulIsDistinct(m, Needs(m, first), visited + [first], inner);
          SearchIsFaithful(m, rest, inner.value);
          InTurn(m, names, visited, inner.value, VisitAll(m, rest, inner.value));
        } else {
          InnerFails(m, names, visited + [first], inner);
        }
      } else {
        UnknownFirst(m, names, visited);
      }
    }
  }

  lemma NothingToVisit(m: Manifest, visited: seq<string>)
    requires Distinct(visited)
    ensures Faithful(m, [], visited, Ok(visited))
  {
  }

  lemma StillDistinct(visited: seq<string>, first: string)
    requires Distinct(visited) && first !in visited
    ensures Distinct(visited + [first])
  {
  }

  lemma FaithfulIsDistinct(m: Manifest, names: seq<string>, visited: seq<string>, r: Result<seq<string>, string>)
    requires Faithful(m, names, visited, r) && r.Ok?
    ensures Distinct(r.value)
  {
  }

  /** A closed set with all of `names` has the requirements of the first of them. */
  lemma NeedsWithin(m: Manifest, names: seq<string>)
    requires names != []
    ensures forall c: set<string> :: Closed(m, c) && Within(names, c) ==>
      names[0] in c && Within(Needs(m, names[0]), c) && Within(names[1..], c)
  {
  }

  lemma AlreadyVisited(m: Manifest, names: seq<string>, visited: seq<string>, r: Result<seq<string>, string>)
    requires names != [] && names[0] in visited && Faithful(m, names[1..], visited, r)
    ensures Faithful(m, names, visited, r)
  {
    hide Needs, Known;
    NeedsWithin(m, names);
    assert forall x :: x in names <==> x == names[0] || x in names[1..];
    hide Closed, Within, Distinct;
    if r.Ok? {
      assert names[0] in r.value by { PrefixMembers(visited, [], r.value) by { assert visited + [] == visited; } }
    }
  }

  lemma UnknownFirst(m: Manifest, names: seq<string>, visited: seq<string>)
    requires names != [] && !Known(m, names[0])
    ensures Faithful(m, names, visited, Err(names[0]))
  {
    NeedsWithin(m, names);
  }

  lemma InnerFails(m: Manifest, names: seq<string>, visited: seq<string>, r: Result<seq<string>, string>)
    requires names != [] && Faithful(m, Needs(m, names[0]), visited, r) && r.Err?
    ensures forall more :: Faithful(m, names, more, r)
  {
    hide Needs, Known;
    NeedsWithin(m, names);
  }

  lemma InTurn(m: Manifest, names: seq<string>, before: seq<string>, middle: seq<string>, r: Result<seq<string>, string>)
    requires names != [] && names[0] !in before && Known(m, names[0])
    requires Faithful(m, Needs(m, names[0]), before + [names[0]], Ok(middle)) && Faithful(m, names[1..], middle, r)
    ensures Faithful(m, names, before, r)
  {
    hide Needs, Known, Distinct;
    var first := names[0];
    NeedsWithin(m, names);
    PrefixMembers(before, [first], middle);
    assert (before + [first])[|before|] == first && first in middle;
    assert forall x :: x in before + [first] <==> x in before || x == first;
    assert forall x :: x in names <==> x == first || x in names[1..];
    hide Closed, Within;
    if r.Ok? {
      PrefixMembers(middle, [], r.value) by { assert middle + [] == middle; }
      assert before <= r.value;
    }
  }

  /** Each name from position `from` on is among `names` or stands behind a name that needs it. */
  ghost predicate InOrder(m: Manifest, names: seq<string>, visited: seq<string>, from: nat) {
    forall k :: from <= k < |visited| ==>
      visited[k] in names || exists j :: 0 <= j < k && visited[k] in Needs(m, visited[j])
  }

  /** The order of the search: a name that was not asked for comes after one that needs it. */
  lemma {:induction false} NeededComesAfter(m: Manifest, names: seq<string>, visited: seq<string>)
    requires VisitAll(m, names, visited).Ok?
    ensures InOrder(m, names, VisitAll(m, names, visited).value, |visited|)
    decreases Room(m, names, visited), |names|
  {
    hide *;
    SearchTurn(m, names, visited);
    if names == [] {
      NothingAdded(m, visited);
    } else {
      var first, rest := names[0], names[1..];
      if first in visited {
        RoomShrinks(m, names, visited, rest, visited);
        NeededComesAfter(m, rest, visited);
        MoreNames(m, names, VisitAll(m, rest, visited).value, |visited|);
      } else {
        RoomDrops(m, names, visited);
        NeededComesAfter(m, Needs(m, first), visited + [first]);
        var inner := VisitAll(m, Needs(m, first), visited + [first]).value;
        SearchTurn(m, Needs(m, first), visited + [first]);
        PrefixMembers(visited, [first], inner);
        RoomShrinks(m, names, visited, rest, inner);
        NeededComesAfter(m, rest, inner);
        SearchTurn(m, rest, inner);
        OrderInTurn(m, names, visited, inner, VisitAll(m, rest, inner).value);
      }
    }
  }

  lemma NothingAdded(m: Manifest, visited: seq<string>)
    ensures InOrder(m, [], visited, |visited|)
  {
  }

  lemma MoreNames(m: Manifest, names: seq<string>, visited: seq<string>, from: nat)
    requires names != [] && InOrder(m, names[1..], visited, from)
    ensures InOrder(m, names, visited, from)
  {
    hide Needs;
    assert forall x :: x in names[1..] ==> x in names;
  }

  lemma OrderInTurn(m: Manifest, names: seq<string>, visited: seq<string>, inner: seq<string>, after: seq<string>)
    requires names != [] && visited + [names[0]] <= inner <= after
    requires InOrder(m, Needs(m, names[0]), inner, |visited| + 1) && InOrder(m, names[1..], after, |inner|)
    ensures InOrder(m, names, after, |visited|)
  {
    hide Needs;
    var first := names[0];
    assert forall x :: x in names <==> x == first || x in names[1..];
    assert inner[|visited|] == (visited + [first])[|visited|] == first;
    forall k | |visited| <= k < |after|
      ensures after[k] in names || exists j :: 0 <= j < k && after[k] in Needs(m, after[j])
    {
      if k < |inner| {
        assert after[k] == inner[k];
        if k > |visited| && after[k] !in Needs(m, first) {
          var j :| 0 <= j < k && inner[k] in Needs(m, inner[j]);
          assert after[j] == inner[j];
        } else if k > |visited| {
          assert after[|visited|] == first;
        }
      }
    }
  }

  /** The search returns the least closed set with the selection, each name once; it fails exactly when
      that set has a name the manifest does not know. Cyclic requirements are no obstacle. */
  lemma ResolutionIsLeastClosedSet(m: Manifest, selected: seq<string>)
    ensures var r := VisitAll(m, selected, []);
      && (r.Ok? ==> Distinct(r.value) && forall x :: x in r.value <==> Required(m, selected, x))
      && (r.Err? ==> Required(m, selected, r.error) && !Known(m, r.error))
      && (r.Err? <==> exists x :: Required(m, selected, x) && !Known(m, x))
  {
    SearchIsFaithful(m, selected, []);
    var r := VisitAll(m, selected, []);
    hide VisitAll, Needs, Known, Distinct;
    if r.Ok? {
      var all := set x | x in r.value;
      assert Closed(m, all) && Within(selected, all);
      assert forall x :: x in r.value ==> Known(m, x);
    }
  }

  // ---------------------------------------------------------------- the code

  function NotSelected(visited: seq<string>, selected: set<string>): seq<string> {
    if visited == [] then []
    else
      NotSelected(visited[..|visited| - 1], selected)
        + (if visited[|visited| - 1] in selected then [] else [visited[|visited| - 1]])
  }

  predicate NotBehind(m: Manifest, i: int, name: string) {
    forall j :: 0 <= j && i < j < |m| ==> m[j].name != name
  }

  /** Of several features of one name the last one counts. */
  lemma {:induction false} LookupIsLast(m: Manifest, name: string)
    ensures Lookup(m, name) == None <==> forall f :: f in m ==> f.name != name
    ensures Lookup(m, name).Some? ==>
      exists i :: 0 <= i < |m| && m[i] == Lookup(m, name).value && m[i].name == name && NotBehind(m, i, name)
  {
    if m != [] {
      var init := m[..|m| - 1];
      LookupIsLast(init, name);
      assert m == init + [m[|m| - 1]];
      if m[|m| - 1].name == name {
        assert m[|m| - 1] == Lookup(m, name).value;
      } else if Lookup(init, name).Some? {
        var i :| 0 <= i < |init| && init[i] == Lookup(init, name).value && init[i].name == name
                 && NotBehind(init, i, name);
        assert m[i] == Lookup(m, name).value;
      }
    }
  }

  /** `added` are the visited names at the positions `at`, those of the names outside the selection. */
  ghost predicate AreOutside(added: seq<string>, visited: seq<string>, selected: set<string>, at: seq<nat>) {
    && |at| == |added|
    && (forall i :: 0 <= i < |at| ==> at[i] < |visited| && added[i] == visited[at[i]] && added[i] !in selected)
    && (forall i, j :: 0 <= i < j < |at| ==> at[i] < at[j])
    && (forall k: nat :: k < |visited| && visited[k] !in selected ==> k in at)
  }

  /** The visited names outside the selection, in the order they were visited. */
  lemma {:induction false} NotSelectedMeans(visited: seq<string>, selected: set<string>) returns (at: seq<nat>)
    ensures AreOutside(NotSelected(visited, selected), visited, selected, at)
  {
    if visited == [] {
      at := [];
    } else {
      var init, last := visited[..|visited| - 1], visited[|visited| - 1];
      at := NotSelectedMeans(init, selected);
      var added := NotSelected(init, selected);
      assert NotSelected(visited, selected) == added + if last in selected then [] else [last];
      hide *;
      assert visited == init + [last] && added + [] == added;
      NextVisited(added, init, selected, at, last);
      at := at + if last in selected then [] else [|init|];
      assert at + [] == at;
    }
  }

  lemma NextVisited(added: seq<string>, visited: seq<string>, selected: set<string>, at: seq<nat>, last: string)
    requires AreOutside(added, visited, selected, at)
    ensures AreOutside(added + (if last in selected then [] else [last]), visited + [last], selected,
      at + (if last in selected then [] else [|visited|]))
  {
    assert forall k :: 0 <= k < |visited| ==> (visited + [last])[k] == visited[k];
    if last in selected {
      assert added + [] == added && at + [] == at;
    } else {
      assert forall k: nat :: k in at + [|visited|] <==> k in at || k == |visited|;
    }
  }

  lemma VisitInTurn(m: Manifest, names: seq<string>, visited: seq<string>)
    requires names != []
    ensures VisitAll(m, names, visited) ==
      match VisitAll(m, [names[0]], visited)
      case Ok(after) => VisitAll(m, names[1..], after)
      case Err(e) => Err(e)
  {
    assert [names[0]][1..] == [];
  }

  class Resolver {
    const manifest: Manifest
    const selectedSet: set<string>
    var visited: seq<string>
    var autoAdded: seq<string>

    ghost predicate Valid()
      reads this
    {
      autoAdded == NotSelected(visited, selectedSet)
    }

    constructor (m: Manifest, selected: seq<string>)
      ensures manifest == m && selectedSet == (set x | x in selected)
      ensures Valid() && visited == []
    {
      manifest, selectedSet := m, set x | x in selected;
      visited, autoAdded := [], [];
    }

    /** The inner function `visit`; a name it returns is the one it throws about. */
    method Visit(name: string) returns (missing: Option<string>)
      requires Valid()
      modifies this`visited, this`autoAdded
      ensures match VisitAll(manifest, [name], old(visited))
              case Ok(after) => missing == None && visited == after && Valid()
              case Err(e) => missing == Some(e)
      decreases Room(manifest, [name], visited)
    {
      assert [name][1..] == [];
      if name in visited { return None; }
      var entry := Lookup(manifest, name);
      if entry.None? {
        visited := visited + [name];
        return Some(name);
      }
      RoomDrops(manifest, [name], visited);
      visited := visited + [name];
      assert visited[..|visited| - 1] == old(visited);
      if name !in selectedSet {
        autoAdded := autoAdded + [name];
      }
      ghost var start := visited;
      var needs := entry.value.needs;
      assert needs == Needs(manifest, name) && needs[0..] == needs;
      hide VisitAll, Room, NotSelected, Lookup;
      for i := 0 to |needs|
        invariant Valid() && start <= visited
        invariant VisitAll(manifest, needs, start) == VisitAll(manifest, needs[i..], visited)
      {
        assert needs[i..][0] == needs[i] && needs[i..][1..] == needs[i + 1..];
        VisitInTurn(manifest, needs[i..], visited);
        PrefixMembers(start, [], visited) by { assert start + [] == start; }
        RoomShrinks(manifest, needs, start, [needs[i]], visited);
        missing := Visit(needs[i]);
        if missing.Some? { return; }
      }
      assert needs[|needs|..] == [];
      VisitNothing(manifest, visited);
      return None;
    }
  }

  lemma VisitNothing(m: Manifest, visited: seq<string>)
    ensures VisitAll(m, [], visited) == Ok(visited)
  {
  }

  datatype Resolution = Resolution(featureNames: seq<string>, autoAdded: seq<string>)

  /** The result lists the visited features in the order of the search, and those of them that were
      not selected in the same order. */
  method ResolveDeps(selected: seq<string>, manifest: Manifest) returns (r: Result<Resolution, string>)
    ensures match VisitAll(manifest, selected, [])
            case Ok(names) => r == Ok(Resolution(names, NotSelected(names, set x | x in selected)))
            case Err(e) => r == Err(e)
    ensures r.Ok? ==> Distinct(r.value.featureNames) && InOrder(manifest, selected, r.value.featureNames, 0)
    ensures r.Ok? ==> forall x :: x in r.value.featureNames <==> Required(manifest, selected, x)
    ensures r.Err? <==> exists x :: Required(manifest, selected, x) && !Known(manifest, x)
  {
    ResolutionIsLeastClosedSet(manifest, selected);
    if VisitAll(manifest, selected, []).Ok? {
      NeededComesAfter(manifest, selected, []);
    }
    var resolver := new Resolver(manifest, selected);
    assert selected[0..] == selected;
    hide VisitAll, Required, Known, Distinct, NotSelected, InOrder;
    for i := 0 to |selected|
      invariant resolver.Valid() && resolver.manifest == manifest && resolver.selectedSet == (set x | x in selected)
      invariant VisitAll(manifest, selected, []) == VisitAll(manifest, selected[i..], resolver.visited)
    {
      assert selected[i..][0] == selected[i] && selected[i..][1..] == selected[i + 1..];
      VisitInTurn(manifest, selected[i..], resolver.visited);
      var missing := resolver.Visit(selected[i]);
      if missing.Some? { return Err(missing.value); }
    }
    assert selected[|selected|..] == [];
    VisitNothing(manifest, resolver.visited);
    return Ok(Resolution(resolver.visited, resolver.autoAdded));
  }
}
