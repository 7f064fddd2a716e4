/** The fail-closed classifier of version-only diffs (scripts/ci-version-only-pr.ts). */
module VersionOnly {
  import opened CanonicalJson
  import opened Strings
  import opened Wrappers

  const DEPENDENCY_SECTIONS := ["dependencies", "devDependencies", "peerDependencies", "optionalDependencies"]
  const MIGRATION_GUIDE := "docs/reference/migration-guide.md"
  const LOCK_FILE := "bun.lock"

  /** The entries of a JSON object. */
  type Object = seq<Entry>

  /** The regular expressions of the script, as predicates. */
  datatype Rules = Rules(
    isPin: string -> bool,
    isLockVersionLine: string -> bool,
    isChangeset: string -> bool,
    isChangelog: string -> bool,
    isFoldedChanges: string -> bool,
    isPackageJson: string -> bool)

  predicate IsPinValue(rules: Rules, v: Json) {
    v.Str? && rules.isPin(v.text)
  }

  // ---------------------------------------------------------------- what agreement means

  /** `typeof value === "object" && value !== null`: arrays count. */
  predicate IsObjectLike(v: Json) {
    v.Obj? || v.Arr?
  }

  /** `{ ...value }`: an array spreads into its indices. */
  function Spread(v: Json): (es: Object)
    requires IsObjectLike(v)
  {
    if v.Obj? then v.entries else seq(|v.items|, i requires 0 <= i < |v.items| => Entry(Decimal(i), v.items[i]))
  }

  /** Same names, and each value either unchanged or a bumped package's new internal pin. */
  ghost predicate DepsAgree(rules: Rules, bumped: set<string>, before: Object, after: Object) {
    && (forall n :: HasKey(before, n) <==> HasKey(after, n))
    && (forall n :: HasKey(before, n) && HasKey(after, n) ==>
          || Same(Get(before, n), Get(after, n))
          || (n in bumped && Get(after, n).Str? && rules.isPin(Get(after, n).text)))
  }

  /** One field of a manifest. An array where the old manifest had an object is read as an object; an
      array in the old manifest matches no object and no array. */
  ghost predicate FieldAgrees(rules: Rules, bumped: set<string>, k: string, before: Json, after: Json) {
    if k in DEPENDENCY_SECTIONS && IsObjectLike(before) && IsObjectLike(after)
    then before.Obj? && DepsAgree(rules, bumped, before.entries, Spread(after))
    else Same(before, after)
  }

  /** Everything but the top-level version agrees. */
  ghost predicate Agree(rules: Rules, bumped: set<string>, before: Object, after: Object) {
    forall k :: k != "version" ==>
      && (HasKey(before, k) <==> HasKey(after, k))
      && (HasKey(before, k) && HasKey(after, k) ==> FieldAgrees(rules, bumped, k, Get(before, k), Get(after, k)))
  }

  /** They agree as far as a text can tell: overflowed numbers are read as `null` on both sides. */
  ghost predicate TextAgree(rules: Rules, bumped: set<string>, before: Object, after: Object) {
    Agree(rules, bumped, FadedEntries(before), FadedEntries(after))
  }

  // ---------------------------------------------------------------- objects as entry lists

  function Without(es: Object, k: string): (r: Object)
    ensures forall i :: 0 <= i < |r| ==> r[i] in es && r[i].key != k
    ensures forall e :: e in es && e.key != k ==> e in r
  {
    if es == [] then [] else (if es[0].key == k then [] else [es[0]]) + Without(es[1..], k)
  }

  lemma {:induction false} WithoutKeeps(es: Object, k: string)
    requires IsValue(Obj(es))
    ensures IsValue(Obj(Without(es, k)))
    ensures forall n :: HasKey(Without(es, k), n) <==> HasKey(es, n) && n != k
    ensures forall n :: HasKey(Without(es, k), n) ==> Get(Without(es, k), n) == Get(es, n)
  {
    WithoutDistinct(es, k);
    var r := Without(es, k);
    forall i | 0 <= i < |r| ensures IsValue(r[i].value) {
      assert r[i] in es;
    }
    forall n ensures HasKey(r, n) <==> HasKey(es, n) && n != k {
      if HasKey(r, n) {
        var i :| 0 <= i < |r| && r[i].key == n;
        var j :| 0 <= j < |es| && es[j] == r[i];
      }
      if HasKey(es, n) && n != k {
        var j :| 0 <= j < |es| && es[j].key == n;
        assert es[j] in r;
      }
    }
    forall n | HasKey(r, n) ensures Get(r, n) == Get(es, n) {
      var i :| 0 <= i < |r| && r[i].key == n;
      var j :| 0 <= j < |es| && es[j] == r[i];
      GetUnique(r, i);
      GetUnique(es, j);
    }
  }

  lemma {:induction false} WithoutDistinct(es: Object, k: string)
    requires DistinctKeys(es)
    ensures DistinctKeys(Without(es, k))
  {
    if es != [] {
      WithoutDistinct(es[1..], k);
      var rest := Without(es[1..], k);
      forall i | 0 <= i < |rest| ensures rest[i].key != es[0].key {
        assert rest[i] in es[1..];
      }
    }
  }

  /** `object[key] = value` for a key the object has. */
  function Put(es: Object, k: string, v: Json): (r: Object)
    ensures |r| == |es|
    ensures forall i :: 0 <= i < |es| ==> r[i] == if es[i].key == k then Entry(k, v) else es[i]
  {
    if es == [] then [] else [if es[0].key == k then Entry(k, v) else es[0]] + Put(es[1..], k, v)
  }

  lemma SameByGet(es: Object, fs: Object)
    requires DistinctKeys(es) && DistinctKeys(fs)
    ensures Same(Obj(es), Obj(fs)) <==>
      && (forall k :: HasKey(es, k) <==> HasKey(fs, k))
      && (forall k :: HasKey(es, k) && HasKey(fs, k) ==> Same(Get(es, k), Get(fs, k)))
  {
    hide Get, DistinctKeys;
    forall i, j | 0 <= i < |es| && 0 <= j < |fs| && es[i].key == fs[j].key
      ensures HasKey(es, es[i].key) && HasKey(fs, es[i].key)
      ensures Same(es[i].value, fs[j].value) <==> Same(Get(es, es[i].key), Get(fs, es[i].key))
    {
      GetUnique(es, i);
      GetUnique(fs, j);
    }
    forall k | HasKey(es, k) && HasKey(fs, k)
      ensures exists i, j :: 0 <= i < |es| && 0 <= j < |fs| && es[i].key == k && fs[j].key == k
    {
      var i :| 0 <= i < |es| && es[i].key == k;
      var j :| 0 <= j < |fs| && fs[j].key == k;
    }
  }

  lemma SpreadIsValue(v: Json)
    requires IsObjectLike(v) && IsValue(v)
    ensures IsValue(Obj(Spread(v)))
  {
    if v.Arr? {
      var es := Spread(v);
      forall i, j | 0 <= i < j < |es| ensures es[i].key != es[j].key {
        if es[i].key == es[j].key {
          DecimalInjective(i, j);
        }
      }
    }
  }

  // ---------------------------------------------------------------- aligning the new manifest

  /** The value of a dependency after alignment: the old one where the new one is a bumped package's pin. */
  function AlignedValue(rules: Rules, bumped: set<string>, before: Object, n: string, v: Json): Json {
    if n in bumped && IsPinValue(rules, v) && HasKey(before, n) then Get(before, n) else v
  }

  ghost predicate IsAlignment(rules: Rules, bumped: set<string>, before: Object, after: Object, aligned: Object) {
    && |aligned| == |after|
    && forall i :: 0 <= i < |after| ==>
         aligned[i] == Entry(after[i].key, AlignedValue(rules, bumped, before, after[i].key, after[i].value))
  }

  /** The inner loop: old values put back entry by entry. */
  method AlignSection(rules: Rules, bumped: set<string>, before: Object, after: Object) returns (aligned: Object)
    requires IsValue(Obj(before)) && IsValue(Obj(after))
    ensures IsAlignment(rules, bumped, before, after, aligned)
  {
    aligned := after;
    for k := 0 to |before|
      invariant IsAlignment(rules, bumped, before[..k], after, aligned)
    {
      hide IsAlignment, IsValue, HasKey, Get, IsPinValue;
      var name, value := before[k].key, before[k].value;
      var found := FindEntry(aligned, name);
      ghost var was := aligned;
      if found.Some? && name in bumped && IsPinValue(rules, found.value) {
        aligned := Put(aligned, name, value);
      }
      AlignNext(rules, bumped, before, k, after, was, aligned);
    }
    assert before[..|before|] == before;
  }

  /** `object[name]`, when the object has it. */
  method FindEntry(es: Object, name: string) returns (r: Option<Json>)
    requires DistinctKeys(es)
    ensures r == if HasKey(es, name) then Some(Get(es, name)) else None
  {
    for i := 0 to |es|
      invariant forall j :: 0 <= j < i ==> es[j].key != name
    {
      if es[i].key == name {
        GetUnique(es, i);
        return Some(es[i].value);
      }
    }
    return None;
  }

  lemma AlignNext(rules: Rules, bumped: set<string>, before: Object, k: nat, after: Object, was: Object, now: Object)
    requires IsValue(Obj(before)) && IsValue(Obj(after)) && k < |before|
    requires IsAlignment(rules, bumped, before[..k], after, was) && DistinctKeys(was)
    requires var name := before[k].key;
      now == if name in bumped && HasKey(was, name) && IsPinValue(rules, Get(was, name))
             then Put(was, name, before[k].value) else was
    ensures IsAlignment(rules, bumped, before[..k + 1], after, now)
  {
    var name := before[k].key;
    var seen, all := before[..k], before[..k + 1];
    DistinctIn(before);
    NewKey(before, k);
    hide Get, DistinctKeys, HasKey, IsValue, IsPinValue, AlignedValue, Put;
    forall i | 0 <= i < |after|
      ensures now[i] == Entry(after[i].key, AlignedValue(rules, bumped, all, after[i].key, after[i].value))
    {
      NextValue(rules, bumped, seen, before[k], after[i].key, after[i].value);
      if after[i].key == name {
        GetUnique(was, i);
      }
    }
  }

  lemma NextValue(rules: Rules, bumped: set<string>, seen: Object, e: Entry, n: string, v: Json)
    requires DistinctKeys(seen + [e]) && !HasKey(seen, e.key)
    requires HasKey(seen + [e], e.key) && Get(seen + [e], e.key) == e.value
    ensures AlignedValue(rules, bumped, seen + [e], n, v) ==
      if n != e.key then AlignedValue(rules, bumped, seen, n, v)
      else if n in bumped && IsPinValue(rules, v) then e.value else v
    ensures n == e.key ==> AlignedValue(rules, bumped, seen, n, v) == v
  {
    hide Get, DistinctKeys, HasKey, IsPinValue;
    if n != e.key {
      OneMore(seen, e, n);
    }
  }

  lemma NewKey(es: Object, k: nat)
    requires DistinctKeys(es) && k < |es|
    ensures var seen, all := es[..k], es[..k + 1];
      && all == seen + [es[k]] && DistinctKeys(all) && !HasKey(seen, es[k].key)
      && HasKey(all, es[k].key) && Get(all, es[k].key) == es[k].value
  {
    var all := es[..k + 1];
    assert DistinctKeys(all) && all[k] == es[k];
    GetUnique(all, k);
  }

  lemma OneMore(es: Object, e: Entry, n: string)
    requires DistinctKeys(es + [e]) && n != e.key
    ensures HasKey(es + [e], n) <==> HasKey(es, n)
    ensures HasKey(es, n) ==> Get(es + [e], n) == Get(es, n)
  {
    if HasKey(es, n) {
      var i :| 0 <= i < |es| && es[i].key == n;
      assert DistinctKeys(es) by {
        assert forall j :: 0 <= j < |es| ==> es[j] == (es + [e])[j];
      }
      GetUnique(es, i);
      GetUnique(es + [e], i);
    }
  }

  function AlignedDeps(rules: Rules, bumped: set<string>, before: Object, after: Object): (r: Object)
    ensures IsAlignment(rules, bumped, before, after, r)
  {
    seq(|after|, i requires 0 <= i < |after| =>
      Entry(after[i].key, AlignedValue(rules, bumped, before, after[i].key, after[i].value)))
  }

  /** A field of the new manifest after alignment, once the given sections are done. */
  function AlignedField(rules: Rules, bumped: set<string>, done: seq<string>, before: Object, k: string, v: Json): Json {
    if k in done && HasKey(before, k) && IsObjectLike(Get(before, k)) && IsObjectLike(v)
    then Obj(AlignedDeps(rules, bumped, Spread(Get(before, k)), Spread(v)))
    else v
  }

  ghost predicate IsAlignedRest(rules: Rules, bumped: set<string>, done: seq<string>, before: Object,
                                after: Object, rest: Object) {
    && |rest| == |after|
    && forall i :: 0 <= i < |after| ==>
         rest[i] == Entry(after[i].key, AlignedField(rules, bumped, done, before, after[i].key, after[i].value))
  }

  /** The section loop of `isVersionOnlyPackageJson`. */
  method AlignRest(rules: Rules, bumped: set<string>, before: Object, after: Object) returns (rest: Object)
    requires IsValue(Obj(before)) && IsValue(Obj(after))
    ensures IsAlignedRest(rules, bumped, DEPENDENCY_SECTIONS, before, after, rest)
  {
    hide *;
    rest := after;
    NothingAligned(rules, bumped, before, after);
    for k := 0 to |DEPENDENCY_SECTIONS|
      invariant IsAlignedRest(rules, bumped, DEPENDENCY_SECTIONS[..k], before, after, rest)
    {
      var section := DEPENDENCY_SECTIONS[k];
      SectionValues(rules, bumped, k, before, after, rest);
      var beforeDeps := FindEntry(before, section);
      var afterDeps := FindEntry(rest, section);
      ghost var was := rest;
      if beforeDeps.Some? && IsObjectLike(beforeDeps.value) && afterDeps.Some? && IsObjectLike(afterDeps.value) {
        SpreadIsValue(beforeDeps.value);
        SpreadIsValue(afterDeps.value);
        var aligned := AlignSection(rules, bumped, Spread(beforeDeps.value), Spread(afterDeps.value));
        AlignmentUnique(rules, bumped, Spread(beforeDeps.value), Spread(afterDeps.value), aligned);
        rest := Put(rest, section, Obj(aligned));
      }
      NextSection(rules, bumped, k, before, after, was, rest);
    }
    assert DEPENDENCY_SECTIONS[..|DEPENDENCY_SECTIONS|] == DEPENDENCY_SECTIONS;
  }

  lemma NothingAligned(rules: Rules, bumped: set<string>, before: Object, after: Object)
    ensures IsAlignedRest(rules, bumped, DEPENDENCY_SECTIONS[..0], before, after, after)
  {
  }

  /** What the next turn of the section loop reads. */
  lemma SectionValues(rules: Rules, bumped: set<string>, k: nat, before: Object, after: Object, rest: Object)
    requires k < |DEPENDENCY_SECTIONS| && IsValue(Obj(before)) && IsValue(Obj(after))
    requires IsAlignedRest(rules, bumped, DEPENDENCY_SECTIONS[..k], before, after, rest)
    ensures DistinctKeys(before) && DistinctKeys(after) && DistinctKeys(rest)
    ensures var section := DEPENDENCY_SECTIONS[k];
      && (HasKey(before, section) ==> IsValue(Get(before, section)))
      && (HasKey(rest, section) ==>
            HasKey(after, section) && Get(rest, section) == Get(after, section) && IsValue(Get(rest, section)))
  {
    hide IsAlignedRest, Get;
    RestDistinct(rules, bumped, DEPENDENCY_SECTIONS[..k], before, after, rest);
    var section := DEPENDENCY_SECTIONS[k];
    ValueOf(before, section);
    ValueOf(after, section);
  }

  lemma ValueOf(es: Object, k: string)
    requires IsValue(Obj(es))
    ensures HasKey(es, k) ==> IsValue(Get(es, k))
  {
    if HasKey(es, k) {
      var i :| 0 <= i < |es| && es[i].key == k;
      GetUnique(es, i);
    }
  }

  lemma RestDistinct(rules: Rules, bumped: set<string>, done: seq<string>, before: Object, after: Object, rest: Object)
    requires IsAlignedRest(rules, bumped, done, before, after, rest) && DistinctKeys(after)
    ensures DistinctKeys(rest)
    ensures forall k :: HasKey(rest, k) <==> HasKey(after, k)
    ensures forall k :: HasKey(after, k) ==>
      Get(rest, k) == AlignedField(rules, bumped, done, before, k, Get(after, k))
  {
    hide AlignedField, Get;
    forall k ensures HasKey(rest, k) <==> HasKey(after, k) {
      if HasKey(rest, k) {
        var i :| 0 <= i < |rest| && rest[i].key == k;
        assert after[i].key == k;
      }
      if HasKey(after, k) {
        var i :| 0 <= i < |after| && after[i].key == k;
        assert rest[i].key == k;
      }
    }
    forall k | HasKey(after, k) ensures Get(rest, k) == AlignedField(rules, bumped, done, before, k, Get(after, k)) {
      var i :| 0 <= i < |after| && after[i].key == k;
      GetUnique(after, i);
      GetUnique(rest, i);
    }
  }

  lemma AlignmentUnique(rules: Rules, bumped: set<string>, before: Object, after: Object, aligned: Object)
    requires IsAlignment(rules, bumped, before, after, aligned)
    ensures aligned == AlignedDeps(rules, bumped, before, after)
  {
    hide AlignedValue;
  }

  lemma NextSection(rules: Rules, bumped: set<string>, k: nat, before: Object, after: Object, was: Object, now: Object)
    requires k < |DEPENDENCY_SECTIONS| && DistinctKeys(after)
    requires IsAlignedRest(rules, bumped, DEPENDENCY_SECTIONS[..k], before, after, was)
    requires var section := DEPENDENCY_SECTIONS[k];
      && (HasKey(was, section) ==> HasKey(after, section) && Get(was, section) == Get(after, section))
      && now == if HasKey(before, section) && IsObjectLike(Get(before, section))
                   && HasKey(was, section) && IsObjectLike(Get(was, section))
                then Put(was, section,
                         Obj(AlignedDeps(rules, bumped, Spread(Get(before, section)), Spread(Get(was, section)))))
                else was
    ensures IsAlignedRest(rules, bumped, DEPENDENCY_SECTIONS[..k + 1], before, after, now)
  {
    var section := DEPENDENCY_SECTIONS[k];
    var done, more := DEPENDENCY_SECTIONS[..k], DEPENDENCY_SECTIONS[..k + 1];
    assert more == done + [section];
    forall i | 0 <= i < |after|
      ensures now[i] == Entry(after[i].key, AlignedField(rules, bumped, more, before, after[i].key, after[i].value))
    {
      hide Get, AlignedDeps, Spread;
      if after[i].key == section {
        GetUnique(after, i);
        assert was[i].key == section && HasKey(was, section);
      }
    }
  }

  // ---------------------------------------------------------------- one manifest

  lemma AlignedGet(rules: Rules, bumped: set<string>, before: Object, after: Object)
    requires DistinctKeys(after)
    ensures var aligned := AlignedDeps(rules, bumped, before, after);
      && DistinctKeys(aligned)
      && (forall n :: HasKey(aligned, n) <==> HasKey(after, n))
      && (forall n :: HasKey(after, n) ==>
            Get(aligned, n) == AlignedValue(rules, bumped, before, n, Get(after, n)))
  {
    hide AlignedValue, Get;
    var aligned := AlignedDeps(rules, bumped, before, after);
    forall n ensures HasKey(aligned, n) <==> HasKey(after, n) {
      if HasKey(aligned, n) {
        var i :| 0 <= i < |aligned| && aligned[i].key == n;
        assert after[i].key == n;
      }
      if HasKey(after, n) {
        var i :| 0 <= i < |after| && after[i].key == n;
        assert aligned[i].key == n;
      }
    }
    forall n | HasKey(after, n) ensures Get(aligned, n) == AlignedValue(rules, bumped, before, n, Get(after, n)) {
      var i :| 0 <= i < |after| && after[i].key == n;
      GetUnique(after, i);
      GetUnique(aligned, i);
    }
  }

  /** After alignment the dependencies are the same exactly when they agree. */
  lemma DepsAgreeIff(rules: Rules, bumped: set<string>, before: Object, after: Object)
    requires IsValue(Obj(before)) && DistinctKeys(after)
    ensures Same(Obj(before), Obj(AlignedDeps(rules, bumped, before, after))) <==> DepsAgree(rules, bumped, before, after)
  {
    var aligned := AlignedDeps(rules, bumped, before, after);
    AlignedGet(rules, bumped, before, after);
    SameByGet(before, aligned);
    forall n | HasKey(before, n) && HasKey(after, n)
      ensures Same(Get(before, n), Get(aligned, n)) <==>
        Same(Get(before, n), Get(after, n)) || (n in bumped && IsPinValue(rules, Get(after, n)))
    {
      SameReflexive(Get(before, n));
    }
    hide Same, Get, AlignedDeps, IsPinValue, HasKey;
  }

  lemma FieldAgreesIff(rules: Rules, bumped: set<string>, before: Object, k: string, v: Json)
    requires IsValue(Obj(before)) && IsValue(v) && HasKey(before, k)
    ensures Same(Get(before, k), AlignedField(rules, bumped, DEPENDENCY_SECTIONS, before, k, v)) <==>
      FieldAgrees(rules, bumped, k, Get(before, k), v)
  {
    var was := Get(before, k);
    if k in DEPENDENCY_SECTIONS && IsObjectLike(was) && IsObjectLike(v) {
      SpreadIsValue(v);
      if was.Obj? {
        DepsAgreeIff(rules, bumped, was.entries, Spread(v));
      }
    }
  }

  /** The aligned rest is the same as the old rest exactly when the manifests agree. */
  lemma AgreeIff(rules: Rules, bumped: set<string>, before: Object, after: Object, rest: Object)
    requires IsValue(Obj(before)) && IsValue(Obj(after))
    requires IsAlignedRest(rules, bumped, DEPENDENCY_SECTIONS, Without(before, "version"), Without(after, "version"), rest)
    ensures Same(Obj(Without(before, "version")), Obj(rest)) <==> Agree(rules, bumped, before, after)
  {
    hide *;
    var b, a := Without(before, "version"), Without(after, "version");
    WithoutKeeps(before, "version");
    WithoutKeeps(after, "version");
    ValuesHaveDistinctKeys(b);
    ValuesHaveDistinctKeys(a);
    RestDistinct(rules, bumped, DEPENDENCY_SECTIONS, b, a, rest);
    SameByGet(b, rest);
    forall k | HasKey(b, k) && HasKey(a, k)
      ensures Same(Get(b, k), Get(rest, k)) <==> FieldAgrees(rules, bumped, k, Get(before, k), Get(after, k))
    {
      FieldAgreesIff(rules, bumped, b, k, Get(a, k));
    }
    AgreeByFields(rules, bumped, before, after, b, a, rest);
  }

  lemma ValuesHaveDistinctKeys(es: Object)
    requires IsValue(Obj(es))
    ensures DistinctKeys(es)
  {
  }

  lemma AgreeByFields(rules: Rules, bumped: set<string>, before: Object, after: Object, b: Object, a: Object,
                      rest: Object)
    requires forall k :: HasKey(b, k) <==> HasKey(before, k) && k != "version"
    requires forall k :: HasKey(a, k) <==> HasKey(after, k) && k != "version"
    requires forall k :: HasKey(rest, k) <==> HasKey(a, k)
    requires forall k :: HasKey(b, k) && HasKey(a, k) ==>
      HasKey(before, k) && HasKey(after, k)
      && (Same(Get(b, k), Get(rest, k)) <==> FieldAgrees(rules, bumped, k, Get(before, k), Get(after, k)))
    ensures Agree(rules, bumped, before, after) <==>
      && (forall k :: HasKey(b, k) <==> HasKey(rest, k))
      && (forall k :: HasKey(b, k) && HasKey(rest, k) ==> Same(Get(b, k), Get(rest, k)))
  {
    hide HasKey, Get, Same, FieldAgrees;
  }

  lemma RestIsValue(rules: Rules, bumped: set<string>, before: Object, after: Object, rest: Object)
    requires IsValue(Obj(before)) && IsValue(Obj(after))
    requires IsAlignedRest(rules, bumped, DEPENDENCY_SECTIONS, before, after, rest)
    ensures IsValue(Obj(rest))
  {
    RestDistinct(rules, bumped, DEPENDENCY_SECTIONS, before, after, rest);
    forall i | 0 <= i < |rest| ensures IsValue(rest[i].value) {
      var k, v := after[i].key, after[i].value;
      if HasKey(before, k) && IsObjectLike(Get(before, k)) && IsObjectLike(v) {
        SpreadIsValue(Get(before, k));
        SpreadIsValue(v);
        AlignedIsValue(rules, bumped, Spread(Get(before, k)), Spread(v));
      }
    }
  }

  lemma AlignedIsValue(rules: Rules, bumped: set<string>, before: Object, after: Object)
    requires IsValue(Obj(before)) && IsValue(Obj(after))
    ensures IsValue(Obj(AlignedDeps(rules, bumped, before, after)))
  {
    var aligned := AlignedDeps(rules, bumped, before, after);
    forall i | 0 <= i < |aligned| ensures IsValue(aligned[i].value) {
    }
  }

  // ---------------------------------------------------------------- what overflowed numbers change

  lemma GetFaded(es: Object, k: string)
    requires DistinctKeys(es)
    ensures HasKey(FadedEntries(es), k) <==> HasKey(es, k)
    ensures HasKey(es, k) ==> Get(FadedEntries(es), k) == Faded(Get(es, k))
  {
    hide Faded;
    FadedKeys(es);
    if HasKey(es, k) {
      var i :| 0 <= i < |es| && es[i].key == k;
      GetUnique(es, i);
      GetUnique(FadedEntries(es), i);
    }
  }

  lemma {:induction false} WithoutFaded(es: Object, k: string)
    ensures Without(FadedEntries(es), k) == FadedEntries(Without(es, k))
  {
    if es != [] {
      hide Faded;
      FadedFirst(es);
      WithoutFaded(es[1..], k);
      if es[0].key != k {
        assert Without(es, k) == [es[0]] + Without(es[1..], k);
        FadedFirst(Without(es, k));
      } else {
        assert Without(es, k) == Without(es[1..], k);
      }
    }
  }

  lemma SpreadFaded(v: Json)
    requires IsObjectLike(v)
    ensures IsObjectLike(Faded(v)) && Spread(Faded(v)) == FadedEntries(Spread(v))
  {
  }

  lemma AlignedDepsFaded(rules: Rules, bumped: set<string>, before: Object, after: Object)
    requires DistinctKeys(before)
    ensures FadedEntries(AlignedDeps(rules, bumped, before, after))
         == AlignedDeps(rules, bumped, FadedEntries(before), FadedEntries(after))
  {
    forall i | 0 <= i < |after|
      ensures Faded(AlignedValue(rules, bumped, before, after[i].key, after[i].value))
           == AlignedValue(rules, bumped, FadedEntries(before), after[i].key, Faded(after[i].value))
    {
      GetFaded(before, after[i].key);
    }
    hide AlignedValue, Faded;
  }

  lemma DistinctIn(es: Object)
    requires IsValue(Obj(es))
    ensures DistinctKeys(es)
  {
  }

  lemma FadedShape(v: Json)
    ensures IsObjectLike(Faded(v)) <==> IsObjectLike(v)
    ensures v.Obj? ==> Faded(v) == Obj(FadedEntries(v.entries))
  {
  }

  lemma AlignedFieldFaded(rules: Rules, bumped: set<string>, before: Object, k: string, v: Json)
    requires IsValue(Obj(before))
    ensures Faded(AlignedField(rules, bumped, DEPENDENCY_SECTIONS, before, k, v))
         == AlignedField(rules, bumped, DEPENDENCY_SECTIONS, FadedEntries(before), k, Faded(v))
  {
    hide AlignedDeps, Get, HasKey, IsValue, Faded, DistinctKeys, Spread, IsObjectLike;
    DistinctIn(before);
    FadedShape(v);
    if HasKey(before, k) {
      FadedShape(Get(before, k));
    }
    GetFaded(before, k);
    if k in DEPENDENCY_SECTIONS && HasKey(before, k) && IsObjectLike(Get(before, k)) && IsObjectLike(v) {
      var was := Get(before, k);
      SpreadFaded(was);
      SpreadFaded(v);
      ValueOf(before, k);
      SpreadIsValue(was);
      DistinctIn(Spread(was));
      AlignedDepsFaded(rules, bumped, Spread(was), Spread(v));
      FadedShape(Obj(AlignedDeps(rules, bumped, Spread(was), Spread(v))));
    }
  }

  lemma RestFaded(rules: Rules, bumped: set<string>, before: Object, after: Object, rest: Object)
    requires IsValue(Obj(before)) && IsAlignedRest(rules, bumped, DEPENDENCY_SECTIONS, before, after, rest)
    ensures IsAlignedRest(rules, bumped, DEPENDENCY_SECTIONS, FadedEntries(before), FadedEntries(after), FadedEntries(rest))
  {
    forall i | 0 <= i < |after|
      ensures Faded(rest[i].value) == AlignedField(rules, bumped, DEPENDENCY_SECTIONS, FadedEntries(before),
                                                   after[i].key, Faded(after[i].value))
    {
      AlignedFieldFaded(rules, bumped, before, after[i].key, after[i].value);
    }
    hide AlignedField, Faded;
  }

  /** The new manifest without its version, with the old values of bumped dependencies put back. */
  ghost function AlignedRest(rules: Rules, bumped: set<string>, before: Object, after: Object): (rest: Object)
    ensures IsAlignedRest(rules, bumped, DEPENDENCY_SECTIONS, before, after, rest)
  {
    seq(|after|, i requires 0 <= i < |after| =>
      Entry(after[i].key, AlignedField(rules, bumped, DEPENDENCY_SECTIONS, before, after[i].key, after[i].value)))
  }

  lemma RestIsUnique(rules: Rules, bumped: set<string>, before: Object, after: Object, rest: Object)
    requires IsAlignedRest(rules, bumped, DEPENDENCY_SECTIONS, before, after, rest)
    ensures rest == AlignedRest(rules, bumped, before, after)
  {
    hide AlignedField;
  }

  /** The aligned rest has the old rest's text up to key order exactly when the manifests agree as far
      as a text can tell. */
  lemma TextAgreeIff(rules: Rules, bumped: set<string>, before: Object, after: Object)
    requires IsValue(Obj(before)) && IsValue(Obj(after))
    ensures var b, a := Without(before, "version"), Without(after, "version");
      Same(Faded(Obj(b)), Faded(Obj(AlignedRest(rules, bumped, b, a)))) <==> TextAgree(rules, bumped, before, after)
  {
    var b, a := Without(before, "version"), Without(after, "version");
    var rest := AlignedRest(rules, bumped, b, a);
    FadedIsValue(Obj(before));
    FadedIsValue(Obj(after));
    hide IsValue, Same, Agree, IsAlignedRest, Without, AlignedRest;
    WithoutKeeps(before, "version");
    WithoutFaded(before, "version");
    WithoutFaded(after, "version");
    RestFaded(rules, bumped, b, a, rest);
    AgreeIff(rules, bumped, FadedEntries(before), FadedEntries(after), FadedEntries(rest));
  }

  /** Manifests that agree also agree as far as a text can tell; without overflowed numbers the two are
      the same. */
  lemma FiniteAgreeIff(rules: Rules, bumped: set<string>, before: Object, after: Object)
    requires IsValue(Obj(before)) && IsValue(Obj(after))
    ensures Agree(rules, bumped, before, after) ==> TextAgree(rules, bumped, before, after)
    ensures Finite(Obj(Without(before, "version"))) && Finite(Obj(Without(after, "version"))) ==>
      (TextAgree(rules, bumped, before, after) <==> Agree(rules, bumped, before, after))
  {
    var b, a := Without(before, "version"), Without(after, "version");
    var rest := AlignedRest(rules, bumped, b, a);
    TextAgreeIff(rules, bumped, before, after);
    AgreeIff(rules, bumped, before, after, rest);
    WithoutKeeps(before, "version");
    hide IsValue, Same, Agree, IsAlignedRest, Without, AlignedRest, TextAgree, Finite;
    if Same(Obj(b), Obj(rest)) {
      SameFaded(Obj(b), Obj(rest));
    }
    if Finite(Obj(b)) && Finite(Obj(a)) {
      FiniteIsFaded(Obj(b));
      FiniteIsFaded(Obj(a));
      RestFaded(rules, bumped, b, a, rest);
      RestIsUnique(rules, bumped, b, a, FadedEntries(rest));
    }
  }

  /** What `isVersionOnlyPackageJson` compares. */
  ghost predicate Accepts(c: Collation, rules: Rules, bumped: set<string>, before: Object, after: Object) {
    var b, a := Without(before, "version"), Without(after, "version");
    Canonical(c, Obj(b)) == Canonical(c, Obj(AlignedRest(rules, bumped, b, a)))
  }

  /** Accepted manifests agree as far as a text can tell, and those that do are accepted unless keys of
      the old one tie. */
  lemma AcceptedMeans(c: Collation, rules: Rules, bumped: set<string>, before: Object, after: Object)
    requires IsCollation(c) && IsValue(Obj(before)) && IsValue(Obj(after))
    ensures Accepts(c, rules, bumped, before, after) ==> TextAgree(rules, bumped, before, after)
    ensures NoTies(c, Obj(Without(before, "version"))) && TextAgree(rules, bumped, before, after) ==>
      Accepts(c, rules, bumped, before, after)
  {
    var b, a := Without(before, "version"), Without(after, "version");
    var rest := AlignedRest(rules, bumped, b, a);
    WithoutKeeps(before, "version");
    WithoutKeeps(after, "version");
    RestIsValue(rules, bumped, b, a, rest);
    TextAgreeIff(rules, bumped, before, after);
    hide Canonical, IsValue, Same, IsAlignedRest, NoTies, IsCollation, Without, AlignedRest, TextAgree, Faded;
    if Canonical(c, Obj(b)) == Canonical(c, Obj(rest)) {
      CanonicalSound(c, Obj(b), Obj(rest));
    }
    if NoTies(c, Obj(b)) && Same(Faded(Obj(b)), Faded(Obj(rest))) {
      CanonicalComplete(c, Obj(b), Obj(rest));
    }
  }

  /** A change from an overflowed number to `null` is accepted although the manifests do not agree. */
  lemma OverflowIsAccepted(c: Collation, rules: Rules)
    ensures var before, after := [Entry("x", Overflow(false))], [Entry("x", Null)];
      && IsValue(Obj(before)) && IsValue(Obj(after))
      && Accepts(c, rules, {}, before, after) && !Agree(rules, {}, before, after)
  {
    hide Canonical, AlignedRest, Without, Normalize, Agree;
    OneField(rules, "x", Overflow(false), Null);
    var before, after := [Entry("x", Overflow(false))], [Entry("x", Null)];
    assert FadedEntries(before) == FadedEntries(after);
    CanonicalMeans(c, Obj(before), Obj(after));
  }

  /** Manifests of one field that is no dependency section. */
  lemma OneField(rules: Rules, k: string, v: Json, w: Json)
    requires k != "version" && k !in DEPENDENCY_SECTIONS
    ensures var before, after := [Entry(k, v)], [Entry(k, w)];
      && Without(before, "version") == before && Without(after, "version") == after
      && AlignedRest(rules, {}, before, after) == after
      && (Agree(rules, {}, before, after) ==> Same(v, w))
  {
    var before, after := [Entry(k, v)], [Entry(k, w)];
    assert before[1..] == [] && after[1..] == [];
    GetUnique(before, 0);
    GetUnique(after, 0);
    assert before[0].key == k && after[0].key == k;
  }

  /** A manifest change is accepted only when both sides are objects that agree, as far as a text can
      tell, on everything but the version and bumped packages' new pins; without overflowed numbers that
      is agreement outright. It is accepted whenever they do, provided no object of the old manifest's
      rest has two keys the collation cannot tell apart. */
  method IsVersionOnlyPackageJson(c: Collation, rules: Rules, before: Option<Object>, after: Option<Object>,
                                  bumped: set<string>) returns (ok: bool)
    requires IsCollation(c)
    requires before.Some? ==> IsValue(Obj(before.value))
    requires after.Some? ==> IsValue(Obj(after.value))
    ensures ok <==> before.Some? && after.Some? && Accepts(c, rules, bumped, before.value, after.value)
    ensures ok ==> TextAgree(rules, bumped, before.value, after.value)
    ensures ok && Finite(Obj(Without(before.value, "version"))) && Finite(Obj(Without(after.value, "version"))) ==>
      Agree(rules, bumped, before.value, after.value)
    ensures before.Some? && after.Some? && NoTies(c, Obj(Without(before.value, "version"))) ==>
      (ok <==> TextAgree(rules, bumped, before.value, after.value))
  {
    if before.None? || after.None? { return false; }
    var beforeRest, afterRest := Without(before.value, "version"), Without(after.value, "version");
    WithoutKeeps(before.value, "version");
    WithoutKeeps(after.value, "version");
    hide Without;
    var rest := AlignRest(rules, bumped, beforeRest, afterRest);
    ok := Canonical(c, Obj(beforeRest)) == Canonical(c, Obj(rest));
    RestIsUnique(rules, bumped, beforeRest, afterRest, rest);
    hide Canonical, Agree, TextAgree, IsValue, Same, IsAlignedRest, NoTies, IsCollation, AlignedRest, Finite;
    AcceptedMeans(c, rules, bumped, before.value, after.value);
    FiniteAgreeIff(rules, bumped, before.value, after.value);
  }

  // ---------------------------------------------------------------- sections that are arrays

  predicate NoArraySection(es: Object) {
    forall k :: k in DEPENDENCY_SECTIONS && HasKey(es, k) ==> !Get(es, k).Arr?
  }

  /** Fail-closed beyond need: an old manifest with an array for a dependency section agrees with none. */
  lemma ArraySectionNeverAgrees(rules: Rules, bumped: set<string>, before: Object, after: Object)
    requires !NoArraySection(before)
    ensures !Agree(rules, bumped, before, after)
  {
    var k :| k in DEPENDENCY_SECTIONS && HasKey(before, k) && Get(before, k).Arr?;
    assert k != "version";
    if HasKey(after, k) {
      assert !FieldAgrees(rules, bumped, k, Get(before, k), Get(after, k));
    }
  }

  lemma FieldAgreesItself(rules: Rules, bumped: set<string>, k: string, v: Json)
    requires IsValue(v) && (k in DEPENDENCY_SECTIONS ==> !v.Arr?)
    ensures FieldAgrees(rules, bumped, k, v, v)
  {
    SameReflexive(v);
    if v.Obj? {
      forall n | HasKey(v.entries, n) ensures Same(Get(v.entries, n), Get(v.entries, n)) {
        ValueOf(v.entries, n);
        SameReflexive(Get(v.entries, n));
      }
    }
  }

  /** A manifest agrees with itself exactly when no dependency section of it is an array. */
  lemma UnchangedAgreesIff(rules: Rules, bumped: set<string>, es: Object)
    requires IsValue(Obj(es))
    ensures Agree(rules, bumped, es, es) <==> NoArraySection(es)
  {
    if NoArraySection(es) {
      forall k | k != "version" && HasKey(es, k) ensures FieldAgrees(rules, bumped, k, Get(es, k), Get(es, k)) {
        ValueOf(es, k);
        FieldAgreesItself(rules, bumped, k, Get(es, k));
      }
    } else {
      ArraySectionNeverAgrees(rules, bumped, es, es);
    }
  }

  /** Sections are compared as objects only when they are objects on both sides. */
  ghost predicate FieldPlainlyAgrees(rules: Rules, bumped: set<string>, k: string, before: Json, after: Json) {
    if k in DEPENDENCY_SECTIONS && before.Obj? && after.Obj?
    then DepsAgree(rules, bumped, before.entries, after.entries)
    else Same(before, after)
  }

  ghost predicate PlainlyAgree(rules: Rules, bumped: set<string>, before: Object, after: Object) {
    forall k :: k != "version" ==>
      && (HasKey(before, k) <==> HasKey(after, k))
      && (HasKey(before, k) && HasKey(after, k) ==>
            FieldPlainlyAgrees(rules, bumped, k, Get(before, k), Get(after, k)))
  }

  predicate IsIndex(n: string, m: nat) {
    exists i: nat :: i < m && Decimal(i) == n
  }

  /** Some dependency section has exactly the keys of an array; the empty object has them. */
  ghost predicate HasIndexedSection(es: Object) {
    exists k, m: nat :: k in DEPENDENCY_SECTIONS && HasKey(es, k) && Get(es, k).Obj? && IsIndexed(Get(es, k).entries, m)
  }

  ghost predicate IsIndexed(deps: Object, m: nat) {
    forall n :: HasKey(deps, n) <==> IsIndex(n, m)
  }

  lemma SpreadIsIndexed(v: Json)
    requires v.Arr?
    ensures IsIndexed(Spread(v), |v.items|)
  {
    var es := Spread(v);
    forall n ensures HasKey(es, n) <==> IsIndex(n, |v.items|) {
      if HasKey(es, n) {
        var i :| 0 <= i < |es| && es[i].key == n;
        assert Decimal(i) == n;
      }
      if IsIndex(n, |v.items|) {
        var i: nat :| i < |v.items| && Decimal(i) == n;
        assert es[i].key == n;
      }
    }
  }

  /** Agreement is plain unless a section turns from an object into an array with the same keys. */
  lemma AgreementIsPlain(rules: Rules, bumped: set<string>, before: Object, after: Object)
    requires Agree(rules, bumped, before, after) && !HasIndexedSection(before)
    ensures PlainlyAgree(rules, bumped, before, after)
  {
    forall k | k != "version" && HasKey(before, k) && HasKey(after, k)
      ensures FieldPlainlyAgrees(rules, bumped, k, Get(before, k), Get(after, k))
    {
      var b, a := Get(before, k), Get(after, k);
      assert FieldAgrees(rules, bumped, k, b, a);
      if k in DEPENDENCY_SECTIONS && IsObjectLike(b) && a.Arr? {
        SpreadIsIndexed(a);
        assert IsIndexed(b.entries, |a.items|);
      }
    }
  }


  /** The array that spreads like an indexed section. */
  lemma ListedAgrees(rules: Rules, bumped: set<string>, deps: Object, m: nat) returns (v: Json)
    requires IsValue(Obj(deps)) && IsIndexed(deps, m)
    ensures v.Arr? && IsValue(v) && DepsAgree(rules, bumped, deps, Spread(v))
  {
    forall i: nat | i < m ensures HasKey(deps, Decimal(i)) && IsValue(Get(deps, Decimal(i))) {
      assert IsIndex(Decimal(i), m);
      ValueOf(deps, Decimal(i));
    }
    v := Arr(seq(m, i requires 0 <= i < m => Get(deps, Decimal(i))));
    SpreadIsIndexed(v);
    SpreadIsValue(v);
    var es := Spread(v);
    forall n | HasKey(deps, n) && HasKey(es, n) ensures Same(Get(deps, n), Get(es, n)) {
      var i :| 0 <= i < |es| && es[i].key == n;
      GetUnique(es, i);
      SameReflexive(Get(deps, n));
    }
  }

  lemma GetPut(es: Object, k: string, v: Json)
    requires IsValue(Obj(es)) && IsValue(v)
    ensures IsValue(Obj(Put(es, k, v)))
    ensures forall n :: HasKey(Put(es, k, v), n) <==> HasKey(es, n)
    ensures forall n :: HasKey(es, n) ==> Get(Put(es, k, v), n) == if n == k then v else Get(es, n)
  {
    PutIsValue(es, k, v);
    DistinctIn(es);
    DistinctIn(Put(es, k, v));
    hide *;
    forall n ensures HasKey(Put(es, k, v), n) <==> HasKey(es, n)
             ensures HasKey(es, n) ==> Get(Put(es, k, v), n) == if n == k then v else Get(es, n)
    {
      GetOfPut(es, k, v, n);
    }
  }

  lemma PutIsValue(es: Object, k: string, v: Json)
    requires IsValue(Obj(es)) && IsValue(v)
    ensures IsValue(Obj(Put(es, k, v)))
  {
    hide Put;
    assert forall i :: 0 <= i < |es| ==> Put(es, k, v)[i].key == es[i].key;
  }

  lemma GetOfPut(es: Object, k: string, v: Json, n: string)
    requires DistinctKeys(es) && DistinctKeys(Put(es, k, v))
    ensures HasKey(Put(es, k, v), n) <==> HasKey(es, n)
    ensures HasKey(es, n) ==> Get(Put(es, k, v), n) == if n == k then v else Get(es, n)
  {
    hide Get, DistinctKeys, Put;
    var fs := Put(es, k, v);
    assert forall i :: 0 <= i < |es| ==> fs[i].key == es[i].key;
    if HasKey(es, n) {
      var i :| 0 <= i < |es| && es[i].key == n;
      GetUnique(es, i);
      GetUnique(fs, i);
    }
  }

  /** An indexed section may become an array unnoticed. */
  lemma IndexedMayBecomeArray(rules: Rules, bumped: set<string>, before: Object) returns (k: string, after: Object)
    requires IsValue(Obj(before)) && NoArraySection(before) && HasIndexedSection(before)
    ensures IsValue(Obj(after)) && Agree(rules, bumped, before, after)
    ensures k in DEPENDENCY_SECTIONS && HasKey(before, k) && HasKey(after, k)
    ensures Get(before, k).Obj? && Get(after, k).Arr?
  {
    var section, m: nat :| section in DEPENDENCY_SECTIONS && HasKey(before, section) && Get(before, section).Obj?
                           && IsIndexed(Get(before, section).entries, m);
    hide *;
    k := section;
    ValueOf(before, k);
    var deps := Get(before, k).entries;
    var v := ListedAgrees(rules, bumped, deps, m);
    after := Put(before, k, v);
    GetPut(before, k, v);
    SectionAgrees(rules, bumped, k, Get(before, k), v);
    forall n | n != "version" && HasKey(before, n)
      ensures FieldAgrees(rules, bumped, n, Get(before, n), Get(after, n))
    {
      if n != k {
        ValueOf(before, n);
        NoArrayAt(before, n);
        FieldAgreesItself(rules, bumped, n, Get(before, n));
      }
    }
    AgreeField(rules, bumped, before, after);
  }

  lemma SectionAgrees(rules: Rules, bumped: set<string>, k: string, before: Json, after: Json)
    requires before.Obj? && IsObjectLike(after) && DepsAgree(rules, bumped, before.entries, Spread(after))
    requires k in DEPENDENCY_SECTIONS
    ensures FieldAgrees(rules, bumped, k, before, after)
  {
    hide DepsAgree, Spread;
  }

  lemma NoArrayAt(es: Object, k: string)
    requires NoArraySection(es) && HasKey(es, k)
    ensures k in DEPENDENCY_SECTIONS ==> !Get(es, k).Arr?
  {
  }

  lemma AgreeField(rules: Rules, bumped: set<string>, before: Object, after: Object)
    requires forall n :: HasKey(after, n) <==> HasKey(before, n)
    requires forall n :: n != "version" && HasKey(before, n) ==>
      FieldAgrees(rules, bumped, n, Get(before, n), Get(after, n))
    ensures Agree(rules, bumped, before, after)
  {
    hide FieldAgrees, HasKey, Get;
  }

  lemma ArrayIsNotPlain(rules: Rules, bumped: set<string>, before: Object, after: Object, k: string)
    requires k in DEPENDENCY_SECTIONS && HasKey(before, k) && HasKey(after, k)
    requires Get(before, k).Obj? && Get(after, k).Arr?
    ensures !PlainlyAgree(rules, bumped, before, after)
  {
    assert k != "version" && !FieldPlainlyAgrees(rules, bumped, k, Get(before, k), Get(after, k));
  }

  /** Whatever agrees with a manifest agrees plainly exactly when the manifest has no indexed section, or
      an array section, so that nothing agrees. */
  lemma AgreementIsPlainIff(rules: Rules, bumped: set<string>, before: Object)
    requires IsValue(Obj(before))
    ensures (forall after :: IsValue(Obj(after)) && Agree(rules, bumped, before, after) ==>
               PlainlyAgree(rules, bumped, before, after))
       <==> (NoArraySection(before) ==> !HasIndexedSection(before))
  {
    hide *;
    forall after | IsValue(Obj(after)) && Agree(rules, bumped, before, after)
                   && (NoArraySection(before) ==> !HasIndexedSection(before))
      ensures PlainlyAgree(rules, bumped, before, after)
    {
      if NoArraySection(before) {
        AgreementIsPlain(rules, bumped, before, after);
      } else {
        ArraySectionNeverAgrees(rules, bumped, before, after);
      }
    }
    if NoArraySection(before) && HasIndexedSection(before) {
      var k, after := IndexedMayBecomeArray(rules, bumped, before);
      ArrayIsNotPlain(rules, bumped, before, after, k);
    }
  }

  // ---------------------------------------------------------------- what is accepted of them

  lemma FadedSections(es: Object)
    requires IsValue(Obj(es))
    ensures IsValue(Obj(FadedEntries(es)))
    ensures NoArraySection(FadedEntries(es)) <==> NoArraySection(es)
    ensures HasIndexedSection(FadedEntries(es)) <==> HasIndexedSection(es)
  {
    FadedIsValue(Obj(es));
    FadedShape(Obj(es));
    DistinctIn(es);
    hide *;
    forall k ensures HasKey(FadedEntries(es), k) <==> HasKey(es, k)
             ensures HasKey(es, k) ==> Get(FadedEntries(es), k) == Faded(Get(es, k))
    {
      GetFaded(es, k);
    }
    forall k | HasKey(es, k)
      ensures Get(FadedEntries(es), k).Arr? <==> Get(es, k).Arr?
      ensures Get(FadedEntries(es), k).Obj? <==> Get(es, k).Obj?
      ensures Get(es, k).Obj? ==>
        forall m :: IsIndexed(Get(FadedEntries(es), k).entries, m) <==> IsIndexed(Get(es, k).entries, m)
    {
      ValueOf(es, k);
      FadedKind(Get(es, k));
    }
    SameSections(es, FadedEntries(es));
  }

  lemma FadedKind(v: Json)
    requires IsValue(v)
    ensures (Faded(v).Arr? <==> v.Arr?) && (Faded(v).Obj? <==> v.Obj?)
    ensures v.Obj? ==> forall m :: IsIndexed(Faded(v).entries, m) <==> IsIndexed(v.entries, m)
  {
    if v.Obj? {
      FadedKeys(v.entries);
    }
  }

  lemma SameSections(es: Object, fs: Object)
    requires forall k :: HasKey(fs, k) <==> HasKey(es, k)
    requires forall k :: HasKey(es, k) ==>
      && (Get(fs, k).Arr? <==> Get(es, k).Arr?)
      && (Get(fs, k).Obj? <==> Get(es, k).Obj?)
      && (Get(es, k).Obj? ==> forall m :: IsIndexed(Get(fs, k).entries, m) <==> IsIndexed(Get(es, k).entries, m))
    ensures NoArraySection(fs) <==> NoArraySection(es)
    ensures HasIndexedSection(fs) <==> HasIndexedSection(es)
  {
    hide HasKey, Get, IsIndexed;
  }

  lemma AlignedItself(rules: Rules, bumped: set<string>, deps: Object)
    requires DistinctKeys(deps)
    ensures AlignedDeps(rules, bumped, deps, deps) == deps
  {
    forall i | 0 <= i < |deps| ensures AlignedValue(rules, bumped, deps, deps[i].key, deps[i].value) == deps[i].value {
      GetUnique(deps, i);
    }
  }

  lemma AlignedFieldItself(rules: Rules, bumped: set<string>, before: Object, i: nat, v: Json)
    requires IsValue(Obj(before)) && i < |before|
    requires before[i].key in DEPENDENCY_SECTIONS ==> !before[i].value.Arr?
    requires v == before[i].value
          || (v.Arr? && before[i].key in DEPENDENCY_SECTIONS && before[i].value == Obj(Spread(v)))
    ensures AlignedField(rules, bumped, DEPENDENCY_SECTIONS, before, before[i].key, v) == before[i].value
  {
    DistinctIn(before);
    GetUnique(before, i);
    if before[i].value.Obj? {
      AlignedItself(rules, bumped, before[i].value.entries);
    }
  }

  /** Manifests whose rest is aligned to the old one are accepted, whatever the collation. */
  lemma AlignedIsAccepted(c: Collation, rules: Rules, bumped: set<string>, before: Object, after: Object)
    requires var b, a := Without(before, "version"), Without(after, "version");
      && IsValue(Obj(b)) && |a| == |b|
      && forall i :: 0 <= i < |b| ==>
           && a[i].key == b[i].key
           && AlignedField(rules, bumped, DEPENDENCY_SECTIONS, b, b[i].key, a[i].value) == b[i].value
    ensures Accepts(c, rules, bumped, before, after)
  {
    var b, a := Without(before, "version"), Without(after, "version");
    hide AlignedField, Without, Canonical;
    RestIsUnique(rules, bumped, b, a, b);
  }

  /** An unchanged manifest is accepted exactly when no dependency section of it is an array. */
  lemma UnchangedIsAcceptedIff(c: Collation, rules: Rules, bumped: set<string>, es: Object)
    requires IsCollation(c) && IsValue(Obj(es))
    ensures Accepts(c, rules, bumped, es, es) <==> NoArraySection(es)
  {
    hide *;
    FadedSections(es);
    UnchangedAgreesIff(rules, bumped, FadedEntries(es));
    AcceptedMeans(c, rules, bumped, es, es);
    TextAgreeMeans(rules, bumped, es, es);
    if NoArraySection(es) {
      var b := Without(es, "version");
      WithoutKeeps(es, "version");
      forall i | 0 <= i < |b|
        ensures AlignedField(rules, bumped, DEPENDENCY_SECTIONS, b, b[i].key, b[i].value) == b[i].value
      {
        DistinctIn(b);
        GetUnique(b, i);
        NoArrayAt(es, b[i].key);
        AlignedFieldItself(rules, bumped, b, i, b[i].value);
      }
      AlignedIsAccepted(c, rules, bumped, es, es);
    }
  }

  lemma TextAgreeMeans(rules: Rules, bumped: set<string>, before: Object, after: Object)
    ensures TextAgree(rules, bumped, before, after) <==> Agree(rules, bumped, FadedEntries(before), FadedEntries(after))
  {
    hide Agree;
  }

  /** A dependency section whose names are the indices of an array may become that array: `{}` may become
      `[]`. */
  lemma SectionMayBecomeArray(c: Collation, rules: Rules, bumped: set<string>, section: string, v: Json)
    requires section in DEPENDENCY_SECTIONS && v.Arr? && IsValue(v)
    ensures var before, after := [Entry(section, Obj(Spread(v)))], [Entry(section, v)];
      && IsValue(Obj(before)) && IsValue(Obj(after))
      && Accepts(c, rules, bumped, before, after) && !PlainlyAgree(rules, bumped, before, after)
    ensures v == Arr([]) ==> Spread(v) == []
  {
    var before, after := [Entry(section, Obj(Spread(v)))], [Entry(section, v)];
    SpreadIsValue(v);
    OneSection(section, Obj(Spread(v)));
    OneSection(section, v);
    AlignedFieldItself(rules, bumped, before, 0, v);
    hide *;
    AlignedIsAccepted(c, rules, bumped, before, after);
    ArrayIsNotPlain(rules, bumped, before, after, section);
  }

  lemma OneSection(section: string, v: Json)
    requires section in DEPENDENCY_SECTIONS && IsValue(v)
    ensures var es := [Entry(section, v)];
      IsValue(Obj(es)) && Without(es, "version") == es && HasKey(es, section) && Get(es, section) == v
  {
    var es := [Entry(section, v)];
    assert section != "version" && es[1..] == [] && es[0].key == section;
    GetUnique(es, 0);
  }

  /** Plain agreement as far as a text can tell. */
  ghost predicate PlainlyTextAgree(rules: Rules, bumped: set<string>, before: Object, after: Object) {
    PlainlyAgree(rules, bumped, FadedEntries(before), FadedEntries(after))
  }

  /** Whatever is accepted for a manifest agrees with it plainly, as far as a text can tell, exactly when
      the manifest has no indexed section, or an array section, so that nothing is accepted. */
  lemma AcceptanceIsPlainIff(c: Collation, rules: Rules, bumped: set<string>, before: Object)
    requires IsCollation(c) && IsValue(Obj(before)) && NoTies(c, Obj(Without(before, "version")))
    ensures (forall after :: IsValue(Obj(after)) && Accepts(c, rules, bumped, before, after) ==>
               PlainlyTextAgree(rules, bumped, before, after))
       <==> (NoArraySection(before) ==> !HasIndexedSection(before))
  {
    hide *;
    FadedSections(before);
    forall after | IsValue(Obj(after)) && Accepts(c, rules, bumped, before, after)
                   && (NoArraySection(before) ==> !HasIndexedSection(before))
      ensures PlainlyTextAgree(rules, bumped, before, after)
    {
      AcceptedMeans(c, rules, bumped, before, after);
      TextAgreeMeans(rules, bumped, before, after);
      if NoArraySection(before) {
        AgreementIsPlain(rules, bumped, FadedEntries(before), FadedEntries(after));
      } else {
        ArraySectionNeverAgrees(rules, bumped, FadedEntries(before), FadedEntries(after));
      }
      PlainlyTextAgreeMeans(rules, bumped, before, after);
    }
    if NoArraySection(before) && HasIndexedSection(before) {
      var k, after := IndexedMayBecomeArray(rules, bumped, before);
      FiniteAgreeIff(rules, bumped, before, after);
      AcceptedMeans(c, rules, bumped, before, after);
      DistinctIn(before);
      DistinctIn(after);
      GetFaded(before, k);
      GetFaded(after, k);
      ValueOf(before, k);
      ValueOf(after, k);
      FadedKind(Get(before, k));
      FadedKind(Get(after, k));
      ArrayIsNotPlain(rules, bumped, FadedEntries(before), FadedEntries(after), k);
      PlainlyTextAgreeMeans(rules, bumped, before, after);
    }
  }

  lemma PlainlyTextAgreeMeans(rules: Rules, bumped: set<string>, before: Object, after: Object)
    ensures PlainlyTextAgree(rules, bumped, before, after)
       <==> PlainlyAgree(rules, bumped, FadedEntries(before), FadedEntries(after))
  {
    hide PlainlyAgree;
  }

  // ---------------------------------------------------------------- a whole diff

  /** A changed file; `before` and `after` are what `parseJsonObject` makes of its texts. */
  datatype FileChange = FileChange(
    status: string, path: string, before: Option<Object>, after: Option<Object>, diffLines: Option<seq<string>>)

  predicate IsParsed(change: FileChange) {
    && (change.before.Some? ==> IsValue(Obj(change.before.value)))
    && (change.after.Some? ==> IsValue(Obj(change.after.value)))
  }

  /** `object?.[key]` */
  function Field(es: Option<Object>, k: string): Option<Json> {
    if es.Some? && HasKey(es.value, k) then Some(Get(es.value, k)) else None
  }

  /** `a === b` for fields of two parsed texts: two objects, or two arrays, are never identical. */
  predicate Identical(a: Option<Json>, b: Option<Json>) {
    a == b && !(a.Some? && IsObjectLike(a.value))
  }

  predicate Bumps(rules: Rules, change: FileChange, name: string) {
    && change.status == "M" && rules.isPackageJson(change.path)
    && Field(change.after, "name") == Some(Str(name))
    && !Identical(Field(change.before, "version"), Field(change.after, "version"))
  }

  ghost function Bumped(rules: Rules, changes: seq<FileChange>): set<string> {
    if changes == [] then {}
    else
      var last := changes[|changes| - 1];
      Bumped(rules, changes[..|changes| - 1])
        + (if Field(last.after, "name").Some? && Field(last.after, "name").value.Str?
              && Bumps(rules, last, Field(last.after, "name").value.text)
           then {Field(last.after, "name").value.text} else {})
  }

  /** One side has a version and the other has not, or they differ. Objects and arrays differ always. */
  ghost predicate HasOtherVersion(before: Option<Object>, after: Object) {
    var had, has := before.Some? && HasKey(before.value, "version"), HasKey(after, "version");
    || had != has
    || (had && has && Get(before.value, "version") != Get(after, "version"))
    || (had && has && (Get(after, "version").Obj? || Get(after, "version").Arr?))
  }

  /** A modified manifest of the package has a version that is not the one before. */
  ghost predicate IsRelease(rules: Rules, change: FileChange, name: string) {
    && change.status == "M" && rules.isPackageJson(change.path)
    && change.after.Some? && HasKey(change.after.value, "name") && Get(change.after.value, "name") == Str(name)
    && HasOtherVersion(change.before, change.after.value)
  }

  ghost predicate IsReleased(rules: Rules, changes: seq<FileChange>, name: string) {
    exists ch :: ch in changes && IsRelease(rules, ch, name)
  }

  lemma BumpsIsRelease(rules: Rules, change: FileChange, name: string)
    ensures Bumps(rules, change, name) <==> IsRelease(rules, change, name)
  {
    hide HasKey, Get;
  }

  /** A name counts as bumped exactly when a modified manifest of this diff has it and another version. */
  lemma {:induction false} BumpedMeans(rules: Rules, changes: seq<FileChange>, name: string)
    ensures name in Bumped(rules, changes) <==> IsReleased(rules, changes, name)
  {
    if changes != [] {
      var init, last := changes[..|changes| - 1], changes[|changes| - 1];
      BumpedMeans(rules, init, name);
      BumpsIsRelease(rules, last, name);
      hide IsRelease, HasKey, Get;
      assert changes == init + [last];
      assert last in changes;
      assert forall ch :: ch in changes <==> ch in init || ch == last;
    }
  }

  method BumpedPackageNames(rules: Rules, changes: seq<FileChange>) returns (names: set<string>)
    ensures names == Bumped(rules, changes)
    ensures forall name :: name in names <==> IsReleased(rules, changes, name)
  {
    forall name ensures name in Bumped(rules, changes) <==> IsReleased(rules, changes, name) {
      BumpedMeans(rules, changes, name);
    }
    hide IsReleased;
    names := {};
    for i := 0 to |changes|
      invariant names == Bumped(rules, changes[..i])
    {
      hide HasKey, Get;
      var change := changes[i];
      assert changes[..i + 1][..i] == changes[..i];
      if change.status != "M" || !rules.isPackageJson(change.path) { continue; }
      var name := Field(change.after, "name");
      if name.Some? && name.value.Str? && !Identical(Field(change.before, "version"), Field(change.after, "version")) {
        names := names + {name.value.text};
      }
    }
    assert changes[..|changes|] == changes;
  }

  predicate IsLockBump(rules: Rules, lines: Option<seq<string>>) {
    && lines.Some? && lines.value != []
    && forall i :: 0 <= i < |lines.value| ==>
         rules.isLockVersionLine(if lines.value[i] == "" then "" else lines.value[i][1..])
  }

  /** `line.slice(1)` is a version line, for every one of at least one changed lines. */
  ghost predicate AreVersionLines(rules: Rules, lines: seq<string>) {
    lines != [] && forall line :: line in lines ==> IsVersionLine(rules, line)
  }

  ghost predicate IsVersionLine(rules: Rules, line: string) {
    if line == "" then rules.isLockVersionLine("")
    else exists text :: line == [line[0]] + text && rules.isLockVersionLine(text)
  }

  lemma LockBumpMeans(rules: Rules, lines: Option<seq<string>>)
    ensures IsLockBump(rules, lines) <==> lines.Some? && AreVersionLines(rules, lines.value)
  {
    if lines.Some? {
      forall i | 0 <= i < |lines.value|
        ensures IsVersionLine(rules, lines.value[i]) <==>
          rules.isLockVersionLine(if lines.value[i] == "" then "" else lines.value[i][1..])
      {
        var line := lines.value[i];
        if line != "" {
          assert line == [line[0]] + line[1..];
          assert forall text: string :: line == [line[0]] + text ==> text == line[1..];
        }
      }
      hide IsVersionLine;
    }
  }

  /** What a generated version bump may do to a file, as far as the texts of manifests can tell. */
  ghost predicate IsGenerated(rules: Rules, bumped: set<string>, change: FileChange) {
    if change.status == "D" then rules.isChangeset(change.path)
    else if change.status != "A" && change.status != "M" then false
    else if rules.isChangelog(change.path) || rules.isFoldedChanges(change.path) then true
    else if change.status != "M" then false
    else if change.path == MIGRATION_GUIDE then true
    else if rules.isPackageJson(change.path) then
      change.before.Some? && change.after.Some? && TextAgree(rules, bumped, change.before.value, change.after.value)
    else change.path == LOCK_FILE && change.diffLines.Some? && AreVersionLines(rules, change.diffLines.value)
  }

  /** Generated, and with no keys that could hide it. */
  ghost predicate IsRecognised(c: Collation, rules: Rules, bumped: set<string>, change: FileChange) {
    && IsGenerated(rules, bumped, change)
    && (change.before.Some? ==> NoTies(c, Obj(Without(change.before.value, "version"))))
  }

  method IsAllowedChange(c: Collation, rules: Rules, change: FileChange, bumped: set<string>) returns (ok: bool)
    requires IsCollation(c) && IsParsed(change)
    ensures ok ==> IsGenerated(rules, bumped, change)
    ensures IsRecognised(c, rules, bumped, change) ==> ok
  {
    hide TextAgree, Agree, IsValue, NoTies, IsCollation, Without, IsLockBump, AreVersionLines;
    if change.status == "D" { return rules.isChangeset(change.path); }
    if change.status != "A" && change.status != "M" { return false; }
    if rules.isChangelog(change.path) || rules.isFoldedChanges(change.path) { return true; }
    if change.status != "M" { return false; }
    if change.path == MIGRATION_GUIDE { return true; }
    if rules.isPackageJson(change.path) {
      ok := IsVersionOnlyPackageJson(c, rules, change.before, change.after, bumped);
      return;
    }
    if change.path == LOCK_FILE {
      LockBumpMeans(rules, change.diffLines);
      return IsLockBump(rules, change.diffLines);
    }
    return false;
  }

  function Label(change: FileChange): string {
    change.status + " " + change.path
  }

  /** The reason names a file of the diff that is not a recognised generated change. */
  ghost predicate IsReason(c: Collation, rules: Rules, bumped: set<string>, changes: seq<FileChange>, reason: string) {
    exists ch :: ch in changes && reason == ch.status + " " + ch.path && !IsRecognised(c, rules, bumped, ch)
  }

  /** A dependency may change only to an internal pin of a package that this diff releases; none may come
      or go. The values are compared as far as a text can tell. */
  ghost predicate PinsAreReleased(rules: Rules, changes: seq<FileChange>, before: Object, after: Object) {
    forall k :: k in DEPENDENCY_SECTIONS && HasKey(before, k) && Get(before, k).Obj? ==>
      && HasKey(after, k)
      && (Get(after, k).Obj? ==> DependenciesKept(rules, changes, Get(before, k).entries, Get(after, k).entries))
  }

  ghost predicate DependenciesKept(rules: Rules, changes: seq<FileChange>, before: Object, after: Object) {
    forall n :: (HasKey(before, n) <==> HasKey(after, n))
      && (HasKey(before, n) && HasKey(after, n) ==>
            || Same(Faded(Get(before, n)), Faded(Get(after, n)))
            || (Get(after, n).Str? && rules.isPin(Get(after, n).text) && IsReleased(rules, changes, n)))
  }

  lemma FadedPin(rules: Rules, v: Json)
    ensures IsPinValue(rules, Faded(v)) <==> v.Str? && rules.isPin(v.text)
  {
  }

  lemma AgreeMeansReleased(rules: Rules, changes: seq<FileChange>, bumped: set<string>, before: Object, after: Object)
    requires IsValue(Obj(before)) && IsValue(Obj(after)) && TextAgree(rules, bumped, before, after)
    requires forall n :: n in bumped <==> IsReleased(rules, changes, n)
    ensures PinsAreReleased(rules, changes, before, after)
  {
    hide *;
    TextAgreeMeans(rules, bumped, before, after);
    DistinctIn(before);
    DistinctIn(after);
    forall k | k in DEPENDENCY_SECTIONS && HasKey(before, k) && Get(before, k).Obj?
      ensures HasKey(after, k)
      ensures Get(after, k).Obj? ==> DependenciesKept(rules, changes, Get(before, k).entries, Get(after, k).entries)
    {
      GetFaded(before, k);
      GetFaded(after, k);
      SectionIsNoVersion(k);
      AgreeAt(rules, bumped, FadedEntries(before), FadedEntries(after), k);
      if Get(after, k).Obj? {
        ValueOf(before, k);
        ValueOf(after, k);
        SectionKept(rules, changes, bumped, k, Get(before, k), Get(after, k));
      }
    }
    PinsByParts(rules, changes, before, after);
  }

  lemma SectionIsNoVersion(k: string)
    requires k in DEPENDENCY_SECTIONS
    ensures k != "version"
  {
  }

  lemma AgreeAt(rules: Rules, bumped: set<string>, before: Object, after: Object, k: string)
    requires Agree(rules, bumped, before, after) && k != "version" && HasKey(before, k)
    ensures HasKey(after, k) && FieldAgrees(rules, bumped, k, Get(before, k), Get(after, k))
  {
    hide FieldAgrees, HasKey, Get;
  }

  lemma PinsByParts(rules: Rules, changes: seq<FileChange>, before: Object, after: Object)
    requires forall k :: k in DEPENDENCY_SECTIONS && HasKey(before, k) && Get(before, k).Obj? ==>
      && HasKey(after, k)
      && (Get(after, k).Obj? ==> DependenciesKept(rules, changes, Get(before, k).entries, Get(after, k).entries))
    ensures PinsAreReleased(rules, changes, before, after)
  {
    hide HasKey, Get, DependenciesKept;
  }

  lemma SectionKept(rules: Rules, changes: seq<FileChange>, bumped: set<string>, k: string, b: Json, a: Json)
    requires k in DEPENDENCY_SECTIONS && b.Obj? && a.Obj? && IsValue(b) && IsValue(a)
    requires FieldAgrees(rules, bumped, k, Faded(b), Faded(a))
    requires forall n :: n in bumped <==> IsReleased(rules, changes, n)
    ensures DependenciesKept(rules, changes, b.entries, a.entries)
  {
    FadedShape(b);
    FadedShape(a);
    DistinctIn(b.entries);
    DistinctIn(a.entries);
    assert DepsAgree(rules, bumped, FadedEntries(b.entries), FadedEntries(a.entries));
    hide Faded, HasKey, Get, IsPinValue, IsReleased, FieldAgrees;
    forall n
      ensures HasKey(b.entries, n) <==> HasKey(a.entries, n)
      ensures HasKey(b.entries, n) && HasKey(a.entries, n) ==>
        || Same(Faded(Get(b.entries, n)), Faded(Get(a.entries, n)))
        || (Get(a.entries, n).Str? && rules.isPin(Get(a.entries, n).text) && IsReleased(rules, changes, n))
    {
      GetFaded(b.entries, n);
      GetFaded(a.entries, n);
      if HasKey(a.entries, n) {
        FadedPin(rules, Get(a.entries, n));
      }
    }
  }

  /** What a version-only verdict says about each change: a changeset was deleted, a changelog written, or
      one of three kinds of file modified, a manifest only in its version and pins, and the lock file only
      in its version lines. */
  ghost predicate IsHarmless(rules: Rules, changes: seq<FileChange>, change: FileChange) {
    || (change.status == "D" && rules.isChangeset(change.path))
    || (change.status in ["A", "M"] && (rules.isChangelog(change.path) || rules.isFoldedChanges(change.path)))
    || (change.status == "M" && change.path == MIGRATION_GUIDE)
    || (change.status == "M" && rules.isPackageJson(change.path) && change.before.Some? && change.after.Some?
        && PinsAreReleased(rules, changes, change.before.value, change.after.value))
    || (change.status == "M" && change.path == LOCK_FILE
        && change.diffLines.Some? && AreVersionLines(rules, change.diffLines.value))
  }

  lemma GeneratedIsHarmless(rules: Rules, changes: seq<FileChange>, bumped: set<string>, change: FileChange)
    requires IsParsed(change) && IsGenerated(rules, bumped, change)
    requires forall n :: n in bumped <==> IsReleased(rules, changes, n)
    ensures IsHarmless(rules, changes, change)
  {
    hide TextAgree, IsReleased, IsValue, PinsAreReleased, AreVersionLines;
    if change.before.Some? && change.after.Some? && TextAgree(rules, bumped, change.before.value, change.after.value) {
      AgreeMeansReleased(rules, changes, bumped, change.before.value, change.after.value);
    }
  }

  /** Version-only means a non-empty diff of generated changes only, for the packages this very diff
      bumps; every such diff is recognised unless some old manifest has keys that tie. The listed
      reasons are the first ten offending files. */
  method IsVersionOnlyChange(c: Collation, rules: Rules, changes: seq<FileChange>)
      returns (versionOnly: bool, reasons: seq<string>)
    requires IsCollation(c) && forall ch :: ch in changes ==> IsParsed(ch)
    ensures versionOnly <==> reasons == []
    ensures |reasons| <= 10
    ensures versionOnly ==>
      changes != [] && forall ch :: ch in changes ==> IsGenerated(rules, Bumped(rules, changes), ch)
    ensures versionOnly ==>
      forall ch :: ch in changes ==> IsHarmless(rules, changes, ch)
    ensures changes != [] && (forall ch :: ch in changes ==> IsRecognised(c, rules, Bumped(rules, changes), ch))
      ==> versionOnly
    ensures changes != [] ==> forall r :: r in reasons ==> IsReason(c, rules, Bumped(rules, changes), changes, r)
  {
    if changes == [] { return false, ["empty diff"]; }
    var bumped := BumpedPackageNames(rules, changes);
    reasons := [];
    for i := 0 to |changes|
      invariant reasons == [] ==> forall j :: 0 <= j < i ==> IsGenerated(rules, bumped, changes[j])
      invariant forall r :: r in reasons ==> IsReason(c, rules, bumped, changes, r)
    {
      hide IsGenerated, IsParsed, Bumped, IsReleased, NoTies, IsCollation;
      assert changes[i] in changes;
      var ok := IsAllowedChange(c, rules, changes[i], bumped);
      if !ok {
        assert IsReason(c, rules, bumped, changes, Label(changes[i]));
        reasons := reasons + [Label(changes[i])];
      }
    }
    versionOnly := reasons == [];
    hide *;
    forall ch | versionOnly && ch in changes ensures IsHarmless(rules, changes, ch) {
      var j :| 0 <= j < |changes| && changes[j] == ch;
      GeneratedIsHarmless(rules, changes, bumped, ch);
    }
    if reasons != [] {
      assert IsReason(c, rules, bumped, changes, reasons[0]);
    }
    if |reasons| > 10 {
      reasons := reasons[..10];
    }
  }
}
