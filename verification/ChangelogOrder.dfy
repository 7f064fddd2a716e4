/** Version comparison and the newest-first guard on changelogs
    (packages/framework/src/engine/feature-changelog.ts, scripts/guard-changes-json.ts). */
module ChangelogOrder {
  import opened Numbers
  import opened Strings

  // ---------------------------------------------------------------- comparing any two versions

  /** `version.split(".")` */
  function Fields(version: string): (r: seq<string>)
    ensures r != []
  {
    if version == "" then [""]
    else
      var rest := Fields(version[1..]);
      if version[0] == '.' then [""] + rest else [[version[0]] + rest[0]] + rest[1..]
  }

  /** `Number` on the fields of a version. */
  type Conversion = string -> Num

  /** `pa[i] ?? 0` */
  function Component(num: Conversion, version: string, i: nat): Num {
    if i < |Fields(version)| then num(Fields(version)[i]) else At(0.0)
  }

  /** No component is NaN. */
  ghost predicate IsNumeric(num: Conversion, version: string) {
    forall i: nat :: Component(num, version, i) != NaN
  }

  /** Up to here every whole number is a double. */
  const MAX_EXACT := 0x20_0000_0000_0000

  /** Digits are read to a number, exactly where doubles are exact and monotonically where they round. */
  ghost predicate ReadsDigits(num: Conversion) {
    && (forall f :: IsDigits(f) ==> num(f) != NaN)
    && (forall f :: IsDigits(f) && DigitsValue(f) <= MAX_EXACT ==> num(f) == At(DigitsValue(f) as real))
    && (forall f, g :: IsDigits(f) && IsDigits(g) && DigitsValue(f) <= DigitsValue(g) ==> !Greater(num(f), num(g)))
  }

  /** The conversion without rounding. */
  const EXACT: Conversion := f => if IsDigits(f) then At(DigitsValue(f) as real) else NaN

  ghost predicate UndecidedBefore(num: Conversion, a: string, b: string, n: nat) {
    forall j: nat :: j < n ==>
      !Greater(Component(num, a, j), Component(num, b, j)) && !Greater(Component(num, b, j), Component(num, a, j))
  }

  ghost predicate Decides(num: Conversion, a: string, b: string, i: nat) {
    UndecidedBefore(num, a, b, i) && Greater(Component(num, a, i), Component(num, b, i))
  }

  /** The first components of which one is greater say that `a` is ahead. */
  ghost predicate IsAhead(num: Conversion, a: string, b: string) {
    exists i: nat :: Decides(num, a, b, i)
  }

  lemma AheadIsStrict(num: Conversion, a: string, b: string)
    ensures !(IsAhead(num, a, b) && IsAhead(num, b, a))
  {
    hide Component;
  }

  method CompareVersions(num: Conversion, a: string, b: string) returns (r: int)
    ensures r in {-1, 0, 1}
    ensures r == 1 <==> IsAhead(num, a, b)
    ensures r == -1 <==> IsAhead(num, b, a)
  {
    AheadIsStrict(num, a, b);
    var pa, pb := Fields(a), Fields(b);
    var count := if |pa| < |pb| then |pb| else |pa|;
    for i := 0 to count
      invariant UndecidedBefore(num, a, b, i)
    {
      hide Greater;
      var na := if i < |pa| then num(pa[i]) else At(0.0);
      var nb := if i < |pb| then num(pb[i]) else At(0.0);
      if Greater(na, nb) {
        assert Decides(num, a, b, i);
        return 1;
      }
      if Greater(nb, na) {
        assert Decides(num, b, a, i);
        return -1;
      }
    }
    assert forall j: nat :: count <= j ==> Component(num, a, j) == At(0.0) == Component(num, b, j);
    return 0;
  }

  // ---------------------------------------------------------------- versions without NaN

  ghost predicate AgreeBefore(num: Conversion, a: string, b: string, n: nat) {
    forall j: nat :: j < n ==> Component(num, a, j) == Component(num, b, j)
  }

  lemma UndecidedMeansEqual(num: Conversion, a: string, b: string, n: nat)
    requires IsNumeric(num, a) && IsNumeric(num, b)
    ensures UndecidedBefore(num, a, b, n) <==> AgreeBefore(num, a, b, n)
  {
    hide Component;
  }

  /** Unless the versions agree up to and including component `n`, one of them is ahead. */
  lemma {:induction false} FirstDifference(num: Conversion, a: string, b: string, n: nat)
    requires IsNumeric(num, a) && IsNumeric(num, b)
    ensures AgreeBefore(num, a, b, n + 1)
         || (exists i: nat :: i <= n && Decides(num, a, b, i)) || (exists i: nat :: i <= n && Decides(num, b, a, i))
  {
    hide Component;
    if n > 0 {
      FirstDifference(num, a, b, n - 1);
    }
    UndecidedMeansEqual(num, a, b, n);
    UndecidedMeansEqual(num, b, a, n);
    if AgreeBefore(num, a, b, n) && Component(num, a, n) != Component(num, b, n) {
      assert Decides(num, a, b, n) || Decides(num, b, a, n);
    }
  }

  lemma NotAheadIsTransitive(num: Conversion, a: string, b: string, c: string)
    requires IsNumeric(num, a) && IsNumeric(num, b) && IsNumeric(num, c)
    requires !IsAhead(num, a, b) && !IsAhead(num, b, c)
    ensures !IsAhead(num, a, c)
  {
    hide Component;
    if IsAhead(num, a, c) {
      var i: nat :| Decides(num, a, c, i);
      UndecidedMeansEqual(num, a, c, i);
      FirstDifference(num, a, b, i);
      FirstDifference(num, b, c, i);
    }
  }

  // ---------------------------------------------------------------- versions with NaN

  ghost predicate NoDots(fields: seq<string>) {
    forall i :: 0 <= i < |fields| ==> '.' !in fields[i]
  }

  lemma {:induction false} FieldsHaveNoDots(version: string)
    ensures NoDots(Fields(version))
  {
    if version != "" {
      FieldsHaveNoDots(version[1..]);
    }
  }

  lemma {:induction false} FieldsOfHead(head: string, tail: string)
    requires '.' !in head
    ensures Fields(head) == [head] && Fields(head + "." + tail) == [head] + Fields(tail)
  {
    if head == "" {
      assert ("" + "." + tail)[1..] == tail;
    } else {
      FieldsOfHead(head[1..], tail);
      assert (head + "." + tail)[1..] == head[1..] + "." + tail;
      assert [head[0]] + head[1..] == head;
    }
  }

  lemma {:induction false} FieldsOfJoin(fields: seq<string>)
    requires fields != [] && NoDots(fields)
    ensures Fields(Join(fields, ".")) == fields
  {
    if |fields| == 1 {
      FieldsOfHead(fields[0], "");
    } else {
      FieldsOfJoin(fields[1..]);
      FieldsOfHead(fields[0], Join(fields[1..], "."));
    }
  }

  /** The version with `digit` in field `i`, and 0 for every other field that is NaN. */
  function Patched(num: Conversion, version: string, i: nat, digit: string): string {
    var fields := Fields(version);
    Join(seq(|fields|, k requires 0 <= k < |fields| =>
      if k == i then digit else if num(fields[k]) == NaN then "0" else fields[k]), ".")
  }

  lemma PatchedComponents(num: Conversion, version: string, i: nat, digit: string)
    requires ReadsDigits(num) && i < |Fields(version)| && digit in ["0", "1"]
    ensures forall k: nat ::
      Component(num, Patched(num, version, i, digit), k) ==
        if k == i then num(digit)
        else if Component(num, version, k) == NaN then At(0.0)
        else Component(num, version, k)
  {
    var fields := Fields(version);
    var patched := seq(|fields|, k requires 0 <= k < |fields| =>
      if k == i then digit else if num(fields[k]) == NaN then "0" else fields[k]);
    FieldsHaveNoDots(version);
    FieldsOfJoin(patched);
    Zero(num);
    hide Fields, IsDigits;
  }

  lemma Zero(num: Conversion)
    requires ReadsDigits(num)
    ensures num("0") == At(0.0) && num("1") == At(1.0)
  {
    assert "0"[..0] == "" && "1"[..0] == "";
  }

  /** A NaN ties with every number. */
  lemma PatchedTies(num: Conversion, version: string, i: nat, digit: string)
    requires ReadsDigits(num) && i < |Fields(version)| && Component(num, version, i) == NaN && digit in ["0", "1"]
    ensures var patched := Patched(num, version, i, digit);
      IsNumeric(num, patched) && !IsAhead(num, patched, version) && !IsAhead(num, version, patched)
  {
    PatchedComponents(num, version, i, digit);
    Zero(num);
    hide Component, Patched;
  }

  lemma PatchedAhead(num: Conversion, version: string, i: nat)
    requires ReadsDigits(num) && i < |Fields(version)|
    ensures IsAhead(num, Patched(num, version, i, "1"), Patched(num, version, i, "0"))
  {
    var a, c := Patched(num, version, i, "1"), Patched(num, version, i, "0");
    hide Component, Patched, IsAhead;
    PatchedComponents(num, version, i, "1");
    PatchedComponents(num, version, i, "0");
    Zero(num);
    assert AgreeBefore(num, a, c, i);
    FirstGreater(num, a, c, i);
  }

  lemma FirstGreater(num: Conversion, a: string, b: string, i: nat)
    requires AgreeBefore(num, a, b, i) && Greater(Component(num, a, i), Component(num, b, i))
    ensures IsAhead(num, a, b)
  {
    hide Component;
    assert Decides(num, a, b, i);
  }

  /** Comparing says that `a` is not ahead of the version and the version not ahead of `c`. */
  ghost predicate Between(num: Conversion, a: string, version: string, c: string) {
    && IsNumeric(num, a) && IsNumeric(num, c)
    && !IsAhead(num, a, version) && !IsAhead(num, version, c)
  }

  /** A version fits into the order of the numeric versions exactly when it has no NaN component. */
  lemma FitsIffNumeric(num: Conversion, version: string)
    requires ReadsDigits(num)
    ensures (forall a, c :: Between(num, a, version, c) ==> !IsAhead(num, a, c)) <==> IsNumeric(num, version)
  {
    if IsNumeric(num, version) {
      forall a, c | Between(num, a, version, c) ensures !IsAhead(num, a, c) {
        NotAheadIsTransitive(num, a, version, c);
      }
    } else {
      var i: nat :| Component(num, version, i) == NaN;
      PatchedTies(num, version, i, "1");
      PatchedTies(num, version, i, "0");
      PatchedAhead(num, version, i);
      hide IsAhead, IsNumeric, Patched;
      assert Between(num, Patched(num, version, i, "1"), version, Patched(num, version, i, "0"));
    }
  }

  // ---------------------------------------------------------------- dotted versions

  /** Numbers between dots, as many as there are. */
  predicate IsDotted(version: string) {
    forall i :: 0 <= i < |Fields(version)| ==> IsDigits(Fields(version)[i])
  }

  /** `SEMVER_RE` */
  predicate IsSemver(version: string) {
    IsDotted(version) && |Fields(version)| == 3
  }

  lemma DottedIsNumeric(num: Conversion, version: string)
    requires ReadsDigits(num) && IsDotted(version)
    ensures IsNumeric(num, version)
  {
    hide IsDigits, DigitsValue;
  }

  /** Missing components count as 0: a version and the version with ".0" behind it tie. */
  lemma MissingIsZero(num: Conversion, fields: seq<string>)
    requires ReadsDigits(num) && fields != [] && NoDots(fields)
    ensures var a, b := Join(fields, "."), Join(fields + ["0"], ".");
      Fields(a) == fields && Fields(b) == fields + ["0"] && !IsAhead(num, a, b) && !IsAhead(num, b, a)
  {
    var a, b := Join(fields, "."), Join(fields + ["0"], ".");
    FieldsOfJoin(fields);
    FieldsOfJoin(fields + ["0"]);
    Zero(num);
    hide Fields, Join, ReadsDigits;
    assert forall k: nat :: Component(num, a, k) == Component(num, b, k);
    EqualIsNotAhead(num, a, b);
  }

  // ---------------------------------------------------------------- rounding

  lemma ExactReadsDigits()
    ensures ReadsDigits(EXACT)
  {
    hide DigitsValue, IsDigits;
  }

  /** No digits of another value are read to the same number. */
  ghost predicate IsIsolated(num: Conversion, field: string) {
    IsDigits(field) && forall g :: IsDigits(g) && num(g) == num(field) ==> DigitsValue(g) == DigitsValue(field)
  }

  ghost predicate AllIsolated(num: Conversion, version: string) {
    forall i :: 0 <= i < |Fields(version)| ==> IsIsolated(num, Fields(version)[i])
  }

  lemma LargeIsNotLess(num: Conversion, field: string)
    requires ReadsDigits(num) && IsDigits(field) && DigitsValue(field) > MAX_EXACT
    ensures !Greater(At(MAX_EXACT as real), num(field))
  {
    DecimalValue(MAX_EXACT);
    var limit := Decimal(MAX_EXACT);
    hide Decimal, DigitsValue, IsDigits, Greater;
    assert num(limit) == At(MAX_EXACT as real);
  }

  lemma SmallIsIsolated(num: Conversion, field: string)
    requires ReadsDigits(num) && IsDigits(field) && DigitsValue(field) < MAX_EXACT
    ensures IsIsolated(num, field)
  {
    hide DigitsValue;
    forall g | IsDigits(g) && num(g) == num(field) ensures DigitsValue(g) == DigitsValue(field) {
      ReadExactly(num, field);
      if DigitsValue(g) > MAX_EXACT {
        LargeIsNotLess(num, g);
      } else {
        ReadExactly(num, g);
      }
    }
  }

  lemma ReadExactly(num: Conversion, field: string)
    requires ReadsDigits(num) && IsDigits(field) && DigitsValue(field) <= MAX_EXACT
    ensures num(field) == At(DigitsValue(field) as real)
  {
    hide IsDigits, DigitsValue, Greater;
  }

  lemma IsolatedComparesExactly(num: Conversion, f: string, g: string)
    requires ReadsDigits(num) && IsIsolated(num, f) && IsDigits(g)
    ensures Greater(num(f), num(g)) <==> DigitsValue(f) > DigitsValue(g)
    ensures Greater(num(g), num(f)) <==> DigitsValue(g) > DigitsValue(f)
  {
    hide DigitsValue, IsDigits;
  }

  ghost predicate ComparesExactly(num: Conversion, a: string, b: string) {
    && (IsAhead(num, a, b) <==> IsAhead(EXACT, a, b))
    && (IsAhead(num, b, a) <==> IsAhead(EXACT, b, a))
  }

  lemma IsolatedVersion(num: Conversion, a: string, b: string)
    requires ReadsDigits(num) && IsSemver(a) && IsSemver(b) && AllIsolated(num, a)
    ensures ComparesExactly(num, a, b)
  {
    hide Greater, ReadsDigits, IsDigits, DigitsValue, Fields;
    forall i: nat
      ensures Greater(Component(num, a, i), Component(num, b, i))
         <==> Greater(Component(EXACT, a, i), Component(EXACT, b, i))
      ensures Greater(Component(num, b, i), Component(num, a, i))
         <==> Greater(Component(EXACT, b, i), Component(EXACT, a, i))
    {
      if i < 3 {
        IsolatedComparesExactly(num, Fields(a)[i], Fields(b)[i]);
        ExactGreater(Fields(a)[i], Fields(b)[i]);
      }
    }
    hide Component;
    assert forall i: nat :: Decides(num, a, b, i) == Decides(EXACT, a, b, i);
    assert forall i: nat :: Decides(num, b, a, i) == Decides(EXACT, b, a, i);
  }

  lemma ExactGreater(f: string, g: string)
    requires IsDigits(f) && IsDigits(g)
    ensures Greater(EXACT(f), EXACT(g)) <==> DigitsValue(f) > DigitsValue(g)
    ensures Greater(EXACT(g), EXACT(f)) <==> DigitsValue(g) > DigitsValue(f)
  {
    hide DigitsValue, IsDigits;
  }

  /** The version with another field at `i`, which is read to the same number. */
  lemma ConfusedVersion(num: Conversion, a: string, i: nat, g: string) returns (b: string)
    requires ReadsDigits(num) && IsSemver(a) && i < 3 && IsDigits(g)
    requires num(g) == num(Fields(a)[i]) && DigitsValue(g) != DigitsValue(Fields(a)[i])
    ensures IsSemver(b) && !ComparesExactly(num, a, b)
  {
    var fields := Fields(a)[i := g];
    b := Join(fields, ".");
    assert forall k :: 0 <= k < 3 ==> IsDigits(fields[k]);
    hide *;
    JoinedIsSemver(fields);
    DifferInField(num, a, b, i);
    if ComparesExactly(num, a, b) {
      ComparesMeans(num, a, b);
    }
  }

  lemma DifferInField(num: Conversion, a: string, b: string, i: nat)
    requires IsSemver(a) && IsSemver(b) && i < 3 && Fields(b) == Fields(a)[i := Fields(b)[i]]
    requires num(Fields(b)[i]) == num(Fields(a)[i]) && DigitsValue(Fields(b)[i]) != DigitsValue(Fields(a)[i])
    ensures !IsAhead(num, a, b) && !IsAhead(num, b, a) && (IsAhead(EXACT, a, b) || IsAhead(EXACT, b, a))
  {
    ExactGreater(Fields(a)[i], Fields(b)[i]);
    hide Fields, DigitsValue, IsDigits, Greater, IsAhead;
    assert forall k: nat :: Component(num, a, k) == Component(num, b, k);
    EqualIsNotAhead(num, a, b);
    assert AgreeBefore(EXACT, a, b, i) && AgreeBefore(EXACT, b, a, i);
    if DigitsValue(Fields(b)[i]) < DigitsValue(Fields(a)[i]) {
      FirstGreater(EXACT, a, b, i);
    } else {
      FirstGreater(EXACT, b, a, i);
    }
  }

  lemma ComparesMeans(num: Conversion, a: string, b: string)
    requires ComparesExactly(num, a, b)
    ensures IsAhead(num, a, b) <==> IsAhead(EXACT, a, b)
    ensures IsAhead(num, b, a) <==> IsAhead(EXACT, b, a)
  {
    hide IsAhead;
  }

  lemma EqualIsNotAhead(num: Conversion, a: string, b: string)
    requires forall k: nat :: Component(num, a, k) == Component(num, b, k)
    ensures !IsAhead(num, a, b) && !IsAhead(num, b, a)
  {
    hide Component;
  }

  /** A version is compared exactly with every other one if and only if no component of it shares its
      number with another value. */
  lemma ExactIffIsolated(num: Conversion, a: string)
    requires ReadsDigits(num) && IsSemver(a)
    ensures (forall b :: IsSemver(b) ==> ComparesExactly(num, a, b)) <==> AllIsolated(num, a)
  {
    hide ReadsDigits, ComparesExactly, Fields, DigitsValue;
    if AllIsolated(num, a) {
      forall b | IsSemver(b) ensures ComparesExactly(num, a, b) {
        IsolatedVersion(num, a, b);
      }
    } else {
      var i :| 0 <= i < |Fields(a)| && !IsIsolated(num, Fields(a)[i]);
      var g :| IsDigits(g) && num(g) == num(Fields(a)[i]) && DigitsValue(g) != DigitsValue(Fields(a)[i]);
      var b := ConfusedVersion(num, a, i, g);
    }
  }

  /** All components are below 2^53. */
  predicate IsSmall(version: string) {
    IsSemver(version) && forall i :: 0 <= i < 3 ==> DigitsValue(Fields(version)[i]) < MAX_EXACT
  }

  lemma SmallComparesExactly(num: Conversion, a: string, b: string)
    requires ReadsDigits(num) && IsSmall(a) && IsSemver(b)
    ensures ComparesExactly(num, a, b)
  {
    hide ReadsDigits, ComparesExactly, Fields, IsDigits, DigitsValue;
    forall i | 0 <= i < |Fields(a)| ensures IsIsolated(num, Fields(a)[i]) {
      SmallIsIsolated(num, Fields(a)[i]);
    }
    IsolatedVersion(num, a, b);
  }

  // ---------------------------------------------------------------- the guard

  predicate AllSemver(versions: seq<string>) {
    forall i :: 0 <= i < |versions| ==> IsSemver(versions[i])
  }

  /** Nowhere in the list does a version stand before a newer one. */
  ghost predicate NewestFirst(num: Conversion, versions: seq<string>)
    requires AllSemver(versions)
  {
    forall i, j :: 0 <= i < j < |versions| ==> !IsAhead(num, versions[j], versions[i])
  }

  ghost predicate IsViolation(num: Conversion, versions: seq<string>, i: int)
    requires AllSemver(versions)
  {
    1 <= i < |versions| && IsAhead(num, versions[i], versions[i - 1])
  }

  predicate Ascending(at: seq<nat>, bound: nat) {
    && (forall k :: 0 <= k < |at| ==> at[k] < bound)
    && (forall k, l :: 0 <= k < l < |at| ==> at[k] < at[l])
  }

  lemma BothDotted(versions: seq<string>, i: nat)
    requires AllSemver(versions) && 1 <= i < |versions|
    ensures IsDotted(versions[i - 1]) && IsDotted(versions[i])
  {
  }

  ghost predicate AreViolations(num: Conversion, versions: seq<string>, at: seq<nat>)
    requires AllSemver(versions)
  {
    && Ascending(at, |versions|)
    && (forall k :: 0 <= k < |at| ==> IsViolation(num, versions, at[k]))
    && (forall i :: IsViolation(num, versions, i) ==> i in at)
  }

  lemma NoViolations(num: Conversion, versions: seq<string>, at: seq<nat>)
    requires ReadsDigits(num) && AllSemver(versions) && AreViolations(num, versions, at)
    ensures at == [] <==> NewestFirst(num, versions)
  {
    hide IsAhead, AllSemver, NewestFirst, Ascending, ReadsDigits;
    AdjacentSuffices(num, versions);
    assert forall k :: 1 <= k < |versions| ==>
      (IsAhead(num, versions[k], versions[k - 1]) <==> IsViolation(num, versions, k));
    assert at != [] ==> IsViolation(num, versions, at[0]);
  }

  /** The positions at which the guard reports an older version before a newer one; below 2^53 no rounding
      shows. */
  method OrderViolations(num: Conversion, versions: seq<string>) returns (at: seq<nat>)
    requires ReadsDigits(num)
    ensures !AllSemver(versions) ==> at == []
    ensures AllSemver(versions) ==> AreViolations(num, versions, at) && (at == [] <==> NewestFirst(num, versions))
    ensures AllSmall(versions) ==> AreViolations(EXACT, versions, at) && (at == [] <==> NewestFirst(EXACT, versions))
  {
    at := [];
    if AllSemver(versions) {
      var i := 1;
      assert FoundBefore(num, versions, at, i);
      while i < |versions|
        invariant FoundBefore(num, versions, at, i)
      {
        hide *;
        BothDotted(versions, i);
        var order := CompareVersions(num, versions[i - 1], versions[i]);
        NextFound(num, versions, at, i);
        if order < 0 {
          at := at + [i];
        }
        i := i + 1;
      }
      AllFound(num, versions, at, i);
      hide *;
      if AllSmall(versions) {
        SmallViolations(num, versions, at);
      }
    }
    SmallIsSemver(versions);
  }

  predicate AllSmall(versions: seq<string>) {
    forall i :: 0 <= i < |versions| ==> IsSmall(versions[i])
  }

  lemma SmallIsSemver(versions: seq<string>)
    ensures AllSmall(versions) ==> AllSemver(versions)
  {
    hide IsSemver;
  }

  lemma SmallViolations(num: Conversion, versions: seq<string>, at: seq<nat>)
    requires ReadsDigits(num) && AllSmall(versions) && AllSemver(versions) && AreViolations(num, versions, at)
    ensures AreViolations(EXACT, versions, at) && (at == [] <==> NewestFirst(EXACT, versions))
  {
    hide IsAhead, IsSemver, IsSmall, Ascending, ReadsDigits, NewestFirst;
    forall i ensures IsViolation(num, versions, i) <==> IsViolation(EXACT, versions, i) {
      if 1 <= i < |versions| {
        SmallComparesExactly(num, versions[i], versions[i - 1]);
      }
    }
    ExactReadsDigits();
    NoViolations(EXACT, versions, at);
  }

  lemma JoinedIsSemver(fields: seq<string>)
    requires |fields| == 3 && forall i :: 0 <= i < 3 ==> IsDigits(fields[i])
    ensures IsSemver(Join(fields, ".")) && Fields(Join(fields, ".")) == fields
  {
    FieldsOfJoin(fields);
    hide Join, Fields;
  }

  /** Where a larger component is read to the same number, as 2^53 + 1 is to 2^53, the guard misses its
      version standing last. */
  lemma RoundingHides(num: Conversion, f: seq<string>, g: seq<string>)
    requires ReadsDigits(num) && |f| == |g| == 3 && f[..2] == g[..2]
    requires forall i :: 0 <= i < 3 ==> IsDigits(f[i]) && IsDigits(g[i])
    requires num(f[2]) == num(g[2]) && DigitsValue(f[2]) < DigitsValue(g[2])
    ensures var versions := [Join(f, "."), Join(g, ".")];
      AllSemver(versions) && NewestFirst(num, versions) && !NewestFirst(EXACT, versions)
  {
    hide *;
    JoinedIsSemver(f);
    JoinedIsSemver(g);
    var older, newer := Join(f, "."), Join(g, ".");
    RoundedTie(num, older, newer);
    OrderOfTwo(num, older, newer);
    OrderOfTwo(EXACT, older, newer);
  }

  lemma RoundedTie(num: Conversion, older: string, newer: string)
    requires IsSemver(older) && IsSemver(newer) && Fields(older)[..2] == Fields(newer)[..2]
    requires num(Fields(older)[2]) == num(Fields(newer)[2])
    requires DigitsValue(Fields(older)[2]) < DigitsValue(Fields(newer)[2])
    ensures !IsAhead(num, newer, older) && IsAhead(EXACT, newer, older)
  {
    ExactGreater(Fields(newer)[2], Fields(older)[2]);
    assert forall k :: 0 <= k < 2 ==> Fields(older)[k] == Fields(older)[..2][k] == Fields(newer)[k];
    hide Fields, DigitsValue, IsDigits, Greater;
    EqualIsNotAhead(num, newer, older);
    FirstGreater(EXACT, newer, older, 2);
  }

  lemma OrderOfTwo(num: Conversion, first: string, second: string)
    requires IsSemver(first) && IsSemver(second)
    ensures AllSemver([first, second]) && (NewestFirst(num, [first, second]) <==> !IsAhead(num, second, first))
  {
    hide IsSemver, IsAhead;
    assert [first, second][0] == first && [first, second][1] == second;
  }

  /** `at` lists the violations among the first `i` versions. */
  ghost predicate FoundBefore(num: Conversion, versions: seq<string>, at: seq<nat>, i: nat)
    requires AllSemver(versions)
  {
    1 <= i && Ascending(at, i) && forall k :: k in at <==> k < i && IsViolation(num, versions, k)
  }

  lemma Pushed(at: seq<nat>, i: nat)
    requires Ascending(at, i)
    ensures Ascending(at, i + 1) && Ascending(at + [i], i + 1)
    ensures forall k :: k in at + [i] <==> k in at || k == i
  {
  }

  lemma NextFound(num: Conversion, versions: seq<string>, at: seq<nat>, i: nat)
    requires AllSemver(versions) && FoundBefore(num, versions, at, i) && i < |versions|
    requires IsDotted(versions[i - 1]) && IsDotted(versions[i])
    ensures FoundBefore(num, versions, if IsAhead(num, versions[i], versions[i - 1]) then at + [i] else at, i + 1)
  {
    assert IsViolation(num, versions, i) <==> IsAhead(num, versions[i], versions[i - 1]) by {
      hide IsAhead, IsDotted, IsSemver;
    }
    hide IsAhead, IsDotted, IsSemver, IsViolation, Ascending;
    Pushed(at, i);
  }

  lemma AllFound(num: Conversion, versions: seq<string>, at: seq<nat>, i: nat)
    requires ReadsDigits(num) && AllSemver(versions) && FoundBefore(num, versions, at, i) && i >= |versions|
    ensures AreViolations(num, versions, at) && (at == [] <==> NewestFirst(num, versions))
  {
    hide IsAhead, IsDotted, IsSemver, NewestFirst;
    assert forall k :: 0 <= k < |at| ==> at[k] in at;
    NoViolations(num, versions, at);
  }

  /** Comparing neighbours is enough. */
  lemma AdjacentSuffices(num: Conversion, versions: seq<string>)
    requires ReadsDigits(num) && AllSemver(versions)
    ensures NewestFirst(num, versions) <==>
      forall k :: 1 <= k < |versions| ==> !IsAhead(num, versions[k], versions[k - 1])
  {
    hide IsAhead, IsDotted;
    if forall k :: 1 <= k < |versions| ==> !IsAhead(num, versions[k], versions[k - 1]) {
      forall i, j | 0 <= i < j < |versions| ensures !IsAhead(num, versions[j], versions[i]) {
        NeverNewerThan(num, versions, i, j);
      }
    }
  }

  lemma {:induction false} NeverNewerThan(num: Conversion, versions: seq<string>, i: nat, j: nat)
    requires ReadsDigits(num) && AllSemver(versions) && i < j < |versions|
    requires forall k :: 1 <= k < |versions| ==> !IsAhead(num, versions[k], versions[k - 1])
    ensures !IsAhead(num, versions[j], versions[i])
    decreases j
  {
    hide IsAhead, IsDotted;
    if i < j - 1 {
      NeverNewerThan(num, versions, i, j - 1);
      DottedIsNumeric(num, versions[i]);
      DottedIsNumeric(num, versions[j - 1]);
      DottedIsNumeric(num, versions[j]);
      NotAheadIsTransitive(num, versions[j], versions[j - 1], versions[i]);
    }
  }

  /** Where two newest-first lists meet, one comparison decides. */
  lemma JoinedNewestFirst(num: Conversion, front: seq<string>, rest: seq<string>)
    requires ReadsDigits(num) && AllSemver(front) && AllSemver(rest)
    ensures AllSemver(front + rest)
    ensures NewestFirst(num, front + rest) <==>
      && NewestFirst(num, front) && NewestFirst(num, rest)
      && (front != [] && rest != [] ==> !IsAhead(num, rest[0], front[|front| - 1]))
  {
    hide *;
    AllJoined(front, rest);
    AdjacentSuffices(num, front);
    AdjacentSuffices(num, rest);
    AdjacentSuffices(num, front + rest);
    Neighbours(num, front, rest);
  }

  lemma AllJoined(front: seq<string>, rest: seq<string>)
    requires AllSemver(front) && AllSemver(rest)
    ensures AllSemver(front + rest)
  {
    hide IsSemver;
  }

  lemma Neighbours(num: Conversion, front: seq<string>, rest: seq<string>)
    ensures var all := front + rest;
      (forall k :: 1 <= k < |all| ==> !IsAhead(num, all[k], all[k - 1])) <==>
        && (forall k :: 1 <= k < |front| ==> !IsAhead(num, front[k], front[k - 1]))
        && (forall k :: 1 <= k < |rest| ==> !IsAhead(num, rest[k], rest[k - 1]))
        && (front != [] && rest != [] ==> !IsAhead(num, rest[0], front[|front| - 1]))
  {
    hide IsAhead;
    var all := front + rest;
    assert forall k :: 0 <= k < |front| ==> front[k] == all[k];
    assert forall k :: 0 <= k < |rest| ==> rest[k] == all[|front| + k];
    assert forall k :: |front| <= k < |all| ==> all[k] == rest[k - |front|];
  }
}
