/** Folding pending changeset entries into the changelogs (bin/commands/changes.ts).
    Files are what they parse to: a changeset is its list of changes or an error, a changelog its list of
    entries or invalid. */
module ChangelogFold {
  import opened ChangelogOrder
  import opened Strings
  import opened Wrappers

  // ---------------------------------------------------------------- entries and their keys

  datatype Kind = Breaking | Improvement | Fix

  datatype Entry = Entry(version: string, kind: Kind, title: string, detail: Option<string>,
                         migration: Option<string>, codemod: Option<string>, manualAfterCodemod: Option<bool>)

  function KindText(kind: Kind): string {
    match kind
    case Breaking => "breaking"
    case Improvement => "improvement"
    case Fix => "fix"
  }

  /** `text ?? ""` */
  function OrEmpty(text: Option<string>): string {
    if text.Some? then text.value else ""
  }

  function KeyFields(e: Entry): seq<string> {
    [e.version, KindText(e.kind), e.title, OrEmpty(e.detail), OrEmpty(e.migration), OrEmpty(e.codemod),
     if e.manualAfterCodemod == Some(true) then "manual" else ""]
  }

  function EntryKey(e: Entry): string {
    Join(KeyFields(e), "\0")
  }

  predicate NoNul(e: Entry) {
    NulFreeFields(KeyFields(e))
  }

  /** Same content, where an absent text counts as an empty one and an absent flag as false. */
  predicate SameContent(a: Entry, b: Entry) {
    && a.version == b.version && a.kind == b.kind && a.title == b.title
    && OrEmpty(a.detail) == OrEmpty(b.detail) && OrEmpty(a.migration) == OrEmpty(b.migration)
    && OrEmpty(a.codemod) == OrEmpty(b.codemod)
    && (a.manualAfterCodemod == Some(true) <==> b.manualAfterCodemod == Some(true))
  }

  lemma {:induction false} NulJoinInjective(a: seq<string>, b: seq<string>)
    requires |a| == |b|
    requires forall i :: 0 <= i < |a| ==> '\0' !in a[i] && '\0' !in b[i]
    requires Join(a, "\0") == Join(b, "\0")
    ensures a == b
  {
    if |a| > 1 {
      var x, y := Join(a[1..], "\0"), Join(b[1..], "\0");
      assert (a[0] + "\0" + x)[|a[0]|] == '\0' && (b[0] + "\0" + y)[|b[0]|] == '\0';
      assert |a[0]| == |b[0]|;
      assert a[0] == (a[0] + "\0" + x)[..|a[0]|] && x == (a[0] + "\0" + x)[|a[0]| + 1..];
      assert b[0] == (b[0] + "\0" + y)[..|b[0]|] && y == (b[0] + "\0" + y)[|b[0]| + 1..];
      NulJoinInjective(a[1..], b[1..]);
      assert a == [a[0]] + a[1..] && b == [b[0]] + b[1..];
    }
  }

  function NulCount(text: string): nat {
    if text == "" then 0 else (if text[0] == '\0' then 1 else 0) + NulCount(text[1..])
  }

  lemma {:induction false} NulCountSplits(a: string, b: string)
    ensures NulCount(a + b) == NulCount(a) + NulCount(b)
  {
    if a == "" {
      assert a + b == b;
    } else {
      assert (a + b)[1..] == a[1..] + b;
      NulCountSplits(a[1..], b);
    }
  }

  lemma {:induction false} NulFree(text: string)
    ensures NulCount(text) == 0 <==> '\0' !in text
  {
    if text != "" {
      NulFree(text[1..]);
      assert text == [text[0]] + text[1..];
    }
  }

  function FieldNuls(fields: seq<string>): nat {
    if fields == [] then 0 else NulCount(fields[0]) + FieldNuls(fields[1..])
  }

  predicate NulFreeFields(fields: seq<string>) {
    forall i :: 0 <= i < |fields| ==> '\0' !in fields[i]
  }

  lemma {:induction false} NulFreeFieldsIff(fields: seq<string>)
    ensures FieldNuls(fields) == 0 <==> NulFreeFields(fields)
  {
    if fields != [] {
      NulFree(fields[0]);
      NulFreeFieldsIff(fields[1..]);
      assert fields == [fields[0]] + fields[1..];
    }
  }

  /** Joining adds one NUL between fields, and keeps those in them. */
  lemma {:induction false} JoinNuls(fields: seq<string>)
    requires fields != []
    ensures NulCount(Join(fields, "\0")) == |fields| - 1 + FieldNuls(fields)
  {
    if |fields| > 1 {
      JoinNuls(fields[1..]);
      NulCountSplits(fields[0] + "\0", Join(fields[1..], "\0"));
      NulCountSplits(fields[0], "\0");
      assert NulCount("\0") == 1 + NulCount("");
    } else {
      assert fields[1..] == [];
    }
  }

  /** The key of an entry without NUL characters stands for its content, whatever the other entry. */
  lemma KeysIdentify(a: Entry, b: Entry)
    requires NoNul(a)
    ensures EntryKey(a) == EntryKey(b) <==> SameContent(a, b)
  {
    var f, g := KeyFields(a), KeyFields(b);
    if EntryKey(a) == EntryKey(b) {
      JoinNuls(f);
      JoinNuls(g);
      NulFreeFieldsIff(f);
      NulFreeFieldsIff(g);
      hide Join, FieldNuls;
      NulJoinInjective(f, g);
      FieldsAreContent(a, b);
    }
  }

  lemma FieldsAreContent(a: Entry, b: Entry)
    requires KeyFields(a) == KeyFields(b)
    ensures SameContent(a, b)
  {
    var f, g := KeyFields(a), KeyFields(b);
    assert f[0] == g[0] && f[1] == g[1] && f[2] == g[2] && f[3] == g[3] && f[4] == g[4] && f[5] == g[5] && f[6] == g[6];
  }

  /** Two neighbouring fields with the same joined text may be exchanged for each other. */
  lemma {:induction false} JoinShift(f: seq<string>, g: seq<string>, i: nat)
    requires |f| == |g| && i + 2 < |f|
    requires f[..i] == g[..i] && f[i + 2..] == g[i + 2..]
    requires f[i] + "\0" + f[i + 1] == g[i] + "\0" + g[i + 1]
    ensures Join(f, "\0") == Join(g, "\0")
    decreases i
  {
    if i == 0 {
      JoinTwo(f);
      JoinTwo(g);
    } else {
      assert f[0] == f[..i][0] == g[..i][0] == g[0];
      assert f[1..][..i - 1] == f[..i][1..] && g[1..][..i - 1] == g[..i][1..];
      assert f[1..][i + 1..] == f[i + 2..] && g[1..][i + 1..] == g[i + 2..];
      JoinShift(f[1..], g[1..], i - 1);
    }
  }

  lemma JoinTwo(f: seq<string>)
    requires |f| > 2
    ensures Join(f, "\0") == (f[0] + "\0" + f[1]) + "\0" + Join(f[2..], "\0")
  {
    var rest := Join(f[2..], "\0");
    assert f[1..][1..] == f[2..];
    assert Join(f[1..], "\0") == f[1] + "\0" + rest;
    AppendAssociates(f[0] + "\0", f[1] + "\0", rest);
    AppendAssociates(f[0] + "\0", f[1], "\0");
  }

  /** The part before the first NUL of a text and the part after it. */
  lemma CutAtNul(text: string) returns (before: string, after: string)
    requires '\0' in text
    ensures text == before + "\0" + after && '\0' in text && |before| < |text|
  {
    var i :| 0 <= i < |text| && text[i] == '\0';
    before, after := text[..i], text[i + 1..];
  }

  /** An entry with a NUL in a text shares its key with another: the text is cut there, and one part
      goes to the neighbouring field. */
  lemma NulHides(a: Entry) returns (b: Entry)
    requires '\0' !in a.version && !NoNul(a)
    ensures b.version == a.version && EntryKey(a) == EntryKey(b) && !SameContent(a, b)
  {
    var detail, migration, codemod := OrEmpty(a.detail), OrEmpty(a.migration), OrEmpty(a.codemod);
    NulInTexts(a);
    if '\0' in a.title {
      var t1, t2 := CutAtNul(a.title);
      b := a.(title := t1, detail := Some(t2 + "\0" + detail));
      ShiftedText(t1, t2, detail);
      JoinShift(KeyFields(a), KeyFields(b), 2);
    } else if '\0' in detail {
      var t1, t2 := CutAtNul(detail);
      b := a.(title := a.title + "\0" + t1, detail := Some(t2));
      ShiftedText(a.title, t1, t2);
      JoinShift(KeyFields(a), KeyFields(b), 2);
    } else if '\0' in migration {
      var t1, t2 := CutAtNul(migration);
      b := a.(detail := Some(detail + "\0" + t1), migration := Some(t2));
      ShiftedText(detail, t1, t2);
      JoinShift(KeyFields(a), KeyFields(b), 3);
    } else {
      var t1, t2 := CutAtNul(codemod);
      b := a.(migration := Some(migration + "\0" + t1), codemod := Some(t2));
      ShiftedText(migration, t1, t2);
      JoinShift(KeyFields(a), KeyFields(b), 4);
    }
  }

  lemma ShiftedText(x: string, y: string, z: string)
    ensures x + "\0" + (y + "\0" + z) == (x + "\0" + y) + "\0" + z
  {
  }

  lemma NulInTexts(a: Entry)
    requires '\0' !in a.version && !NoNul(a)
    ensures '\0' in a.title || '\0' in OrEmpty(a.detail) || '\0' in OrEmpty(a.migration) || '\0' in OrEmpty(a.codemod)
  {
    var f := KeyFields(a);
    assert '\0' !in f[1] && '\0' !in f[6];
    var i :| 0 <= i < |f| && '\0' in f[i];
  }

  /** Among all entries, the key of one with a plain version stands for its content exactly when none of
      its texts has a NUL character. */
  lemma KeysIdentifyIff(a: Entry)
    requires '\0' !in a.version
    ensures (forall b :: EntryKey(a) == EntryKey(b) ==> SameContent(a, b)) <==> NoNul(a)
    ensures (forall b: Entry :: b.version == a.version && EntryKey(a) == EntryKey(b) ==> SameContent(a, b)) <==> NoNul(a)
  {
    hide EntryKey, SameContent, NoNul;
    if NoNul(a) {
      forall b | EntryKey(a) == EntryKey(b) ensures SameContent(a, b) {
        KeysIdentify(a, b);
      }
    } else {
      var b := NulHides(a);
    }
  }

  /** Such a pair. */
  lemma NulKeysCollide()
    ensures var a := Entry("1.0.0", Fix, "a\0b", None, None, None, None);
      var b := Entry("1.0.0", Fix, "a", Some("b\0"), None, None, None);
      !SameContent(a, b) && EntryKey(a) == EntryKey(b)
  {
    var a := Entry("1.0.0", Fix, "a\0b", None, None, None, None);
    var b := Entry("1.0.0", Fix, "a", Some("b\0"), None, None, None);
    assert "a\0b" + "\0" + "" == "a" + "\0" + "b\0";
    JoinShift(KeyFields(a), KeyFields(b), 2);
  }

  function Keys(entries: seq<Entry>): set<string> {
    set e | e in entries :: EntryKey(e)
  }

  // ---------------------------------------------------------------- from changesets to additions

  datatype Change = Change(feature: string, kind: Kind, title: string, detail: Option<string>,
                           migration: Option<string>, codemod: Option<string>, manualAfterCodemod: bool)

  datatype Target = Target(packageName: string, changelogPath: string)

  datatype Release = Release(name: string, newVersion: string, changesets: seq<string>)

  datatype Status = Status(changesets: seq<string>, releases: seq<Release>)

  /** The changeset directory: its listing, and what each file parses to. */
  datatype Directory = Directory(listing: seq<string>, contents: map<string, Option<seq<Change>>>)

  datatype Setting = Setting(status: Status, directory: Directory, targets: map<string, Target>)

  datatype Failure =
    | BadChangeset(file: string)
    | UnknownFeature(file: string, feature: string)
    | NoRelease(file: string, packageName: string)

  datatype Addition = Addition(path: string, entry: Entry)

  /** `status.releases.find(...)` */
  function FindRelease(releases: seq<Release>, packageName: string, id: string): Option<Release> {
    if releases == [] then None
    else if releases[0].name == packageName && id in releases[0].changesets then Some(releases[0])
    else FindRelease(releases[1..], packageName, id)
  }

  /** A truthy text, or none. */
  function NonEmpty(text: Option<string>): Option<string> {
    if text == Some("") then None else text
  }

  function EntryOf(c: Change, version: string): Entry {
    Entry(version, c.kind, c.title, NonEmpty(c.detail), NonEmpty(c.migration), NonEmpty(c.codemod),
          if c.manualAfterCodemod then Some(true) else None)
  }

  /** `file.slice(0, -3)` */
  function IdOf(file: string): string {
    if |file| < 3 then "" else file[..|file| - 3]
  }

  function Resolve(s: Setting, file: string, c: Change): Result<Addition, Failure> {
    if c.feature !in s.targets then Err(UnknownFeature(file, c.feature))
    else
      var target := s.targets[c.feature];
      match FindRelease(s.status.releases, target.packageName, IdOf(file))
      case None => Err(NoRelease(file, target.packageName))
      case Some(release) => Ok(Addition(target.changelogPath, EntryOf(c, release.newVersion)))
  }

  function ResolveAll(s: Setting, file: string, changes: seq<Change>): Result<seq<Addition>, Failure> {
    if changes == [] then Ok([])
    else
      match ResolveAll(s, file, changes[..|changes| - 1])
      case Err(f) => Err(f)
      case Ok(before) =>
        match Resolve(s, file, changes[|changes| - 1])
        case Err(f) => Err(f)
        case Ok(addition) => Ok(before + [addition])
  }

  function ParsedFile(s: Setting, file: string): Option<seq<Change>> {
    if file in s.directory.contents then s.directory.contents[file] else None
  }

  function FileAdditions(s: Setting, file: string): Result<seq<Addition>, Failure> {
    match ParsedFile(s, file)
    case None => Err(BadChangeset(file))
    case Some(changes) => ResolveAll(s, file, changes)
  }

  /** Everything the files add, in order, or the first failure. */
  function Additions(s: Setting, files: seq<string>): Result<seq<Addition>, Failure> {
    if files == [] then Ok([])
    else
      match Additions(s, files[..|files| - 1])
      case Err(f) => Err(f)
      case Ok(before) =>
        match FileAdditions(s, files[|files| - 1])
        case Err(f) => Err(f)
        case Ok(more) => Ok(before + more)
  }

  function FileNames(ids: seq<string>): set<string> {
    set id | id in ids :: id + ".md"
  }

  function Listed(listing: seq<string>, names: set<string>): seq<string> {
    if listing == [] then []
    else (if listing[0] in names then [listing[0]] else []) + Listed(listing[1..], names)
  }

  function FilesOf(s: Setting): seq<string> {
    Sort(Listed(s.directory.listing, FileNames(s.status.changesets)))
  }

  lemma {:induction false} FirstFailureStays(s: Setting, files: seq<string>, i: nat)
    requires i <= |files| && Additions(s, files[..i]).Err?
    ensures Additions(s, files) == Additions(s, files[..i])
    decreases |files|
  {
    if i == |files| {
      assert files[..i] == files;
    } else {
      assert files[..|files| - 1][..i] == files[..i];
      FirstFailureStays(s, files[..|files| - 1], i);
    }
  }

  lemma {:induction false} FirstBadChangeStays(s: Setting, file: string, changes: seq<Change>, i: nat)
    requires i <= |changes| && ResolveAll(s, file, changes[..i]).Err?
    ensures ResolveAll(s, file, changes) == ResolveAll(s, file, changes[..i])
    decreases |changes|
  {
    if i == |changes| {
      assert changes[..i] == changes;
    } else {
      assert changes[..|changes| - 1][..i] == changes[..i];
      FirstBadChangeStays(s, file, changes[..|changes| - 1], i);
    }
  }

  /** A change that cannot be folded: its feature is unknown, or its package has no release with it. */
  ghost predicate IsBadChange(s: Setting, file: string, c: Change) {
    c.feature in s.targets ==>
      forall r :: r in s.status.releases && r.name == s.targets[c.feature].packageName ==> IdOf(file) !in r.changesets
  }

  ghost predicate IsBadFile(s: Setting, file: string) {
    file in s.directory.contents && s.directory.contents[file].Some? ==>
      var changes := s.directory.contents[file].value;
      exists i :: 0 <= i < |changes| && IsBadChange(s, file, changes[i])
  }

  lemma {:induction false} FindReleaseFinds(releases: seq<Release>, packageName: string, id: string)
    ensures var found := FindRelease(releases, packageName, id);
      && (found == None <==> forall r :: r in releases && r.name == packageName ==> id !in r.changesets)
      && (found.Some? ==> found.value in releases && found.value.name == packageName && id in found.value.changesets)
      && (found.Some? ==> IsFirstRelease(releases, packageName, id, found.value))
  {
    if releases != [] {
      FindReleaseFinds(releases[1..], packageName, id);
      assert releases == [releases[0]] + releases[1..];
      if releases[0].name == packageName && id in releases[0].changesets {
        assert releases[0] == FindRelease(releases, packageName, id).value;
      } else if FindRelease(releases, packageName, id).Some? {
        LaterRelease(releases, packageName, id, FindRelease(releases, packageName, id).value);
      }
    }
  }

  /** The first release of the package that contains the changeset. */
  ghost predicate IsFirstRelease(releases: seq<Release>, packageName: string, id: string, r: Release) {
    exists i :: 0 <= i < |releases| && releases[i] == r && r.name == packageName && id in r.changesets
      && forall j :: 0 <= j < i ==> !(releases[j].name == packageName && id in releases[j].changesets)
  }

  lemma LaterRelease(releases: seq<Release>, packageName: string, id: string, r: Release)
    requires releases != [] && !(releases[0].name == packageName && id in releases[0].changesets)
    requires IsFirstRelease(releases[1..], packageName, id, r)
    ensures IsFirstRelease(releases, packageName, id, r)
  {
    var rest := releases[1..];
    var i :| 0 <= i < |rest| && rest[i] == r && r.name == packageName && id in r.changesets
      && forall j :: 0 <= j < i ==> !(rest[j].name == packageName && id in rest[j].changesets);
    assert releases[i + 1] == r;
    assert forall j :: 0 < j < i + 1 ==> releases[j] == rest[j - 1];
  }

  lemma ResolveFails(s: Setting, file: string, c: Change)
    ensures Resolve(s, file, c).Err? <==> IsBadChange(s, file, c)
  {
    if c.feature in s.targets {
      FindReleaseFinds(s.status.releases, s.targets[c.feature].packageName, IdOf(file));
    }
  }

  lemma {:induction false} ResolveAllFails(s: Setting, file: string, changes: seq<Change>)
    ensures ResolveAll(s, file, changes).Err? <==> exists i :: 0 <= i < |changes| && IsBadChange(s, file, changes[i])
  {
    if changes != [] {
      hide IsBadChange, Resolve;
      var before := changes[..|changes| - 1];
      ResolveAllFails(s, file, before);
      ResolveFails(s, file, changes[|changes| - 1]);
      assert forall i :: 0 <= i < |before| ==> before[i] == changes[i];
    }
  }

  /** One bad changeset fails the whole fold. */
  lemma {:induction false} AdditionsFail(s: Setting, files: seq<string>)
    ensures Additions(s, files).Err? <==> exists i :: 0 <= i < |files| && IsBadFile(s, files[i])
  {
    if files != [] {
      var before, file := files[..|files| - 1], files[|files| - 1];
      if ParsedFile(s, file).Some? {
        ResolveAllFails(s, file, ParsedFile(s, file).value);
      }
      assert FileAdditions(s, file).Err? <==> IsBadFile(s, file);
      hide IsBadFile, FileAdditions;
      AdditionsFail(s, before);
      assert forall i :: 0 <= i < |before| ==> before[i] == files[i];
    }
  }

  // ---------------------------------------------------------------- where additions come from

  /** A text that is kept only when it is there and not empty. */
  predicate IsKeptText(was: Option<string>, kept: Option<string>) {
    if was.Some? && was.value != "" then kept == was else kept == None
  }

  /** What a change of a file adds: to the changelog of its feature, with the version of its package's first
      release that contains the changeset, and with its own kind and texts. */
  ghost predicate IsAdditionOf(s: Setting, file: string, c: Change, a: Addition) {
    && c.feature in s.targets && a.path == s.targets[c.feature].changelogPath
    && (exists r :: IsFirstRelease(s.status.releases, s.targets[c.feature].packageName, IdOf(file), r)
          && a.entry.version == r.newVersion)
    && a.entry.kind == c.kind && a.entry.title == c.title
    && IsKeptText(c.detail, a.entry.detail)
    && IsKeptText(c.migration, a.entry.migration)
    && IsKeptText(c.codemod, a.entry.codemod)
    && a.entry.manualAfterCodemod == (if c.manualAfterCodemod then Some(true) else None)
  }

  /** The file of a changeset stands for its id. */
  lemma IdOfFile(id: string)
    ensures IdOf(id + ".md") == id
  {
  }

  lemma ResolvedIsAddition(s: Setting, file: string, c: Change)
    requires Resolve(s, file, c).Ok?
    ensures IsAdditionOf(s, file, c, Resolve(s, file, c).value)
  {
    FindReleaseFinds(s.status.releases, s.targets[c.feature].packageName, IdOf(file));
    hide IsFirstRelease;
  }

  lemma {:induction false} AllResolved(s: Setting, file: string, changes: seq<Change>)
    requires ResolveAll(s, file, changes).Ok?
    ensures var adds := ResolveAll(s, file, changes).value;
      |adds| == |changes| && forall i :: 0 <= i < |adds| ==> IsAdditionOf(s, file, changes[i], adds[i])
  {
    hide IsAdditionOf, Resolve;
    if changes != [] {
      AllResolved(s, file, changes[..|changes| - 1]);
      ResolvedIsAddition(s, file, changes[|changes| - 1]);
    }
  }

  datatype Listing = Listing(file: string, change: Change)

  /** The changes of the files, one after the other. */
  ghost function ChangesIn(s: Setting, files: seq<string>): seq<Listing> {
    if files == [] then []
    else
      var file := files[|files| - 1];
      var contents := s.directory.contents;
      var changes := if file in contents && contents[file].Some? then contents[file].value else [];
      ChangesIn(s, files[..|files| - 1]) + seq(|changes|, i requires 0 <= i < |changes| => Listing(file, changes[i]))
  }

  /** The additions are those of the changes in the files, one each, in their order. */
  lemma {:induction false} AdditionsAreChanges(s: Setting, files: seq<string>)
    requires Additions(s, files).Ok?
    ensures var adds, changes := Additions(s, files).value, ChangesIn(s, files);
      |adds| == |changes| && forall i :: 0 <= i < |adds| ==> IsAdditionOf(s, changes[i].file, changes[i].change, adds[i])
  {
    if files != [] {
      var before, file := files[..|files| - 1], files[|files| - 1];
      AdditionsAreChanges(s, before);
      var changes := ParsedFile(s, file).value;
      AllResolved(s, file, changes);
      assert Additions(s, files).value == Additions(s, before).value + ResolveAll(s, file, changes).value;
      assert ChangesIn(s, files)
          == ChangesIn(s, before) + seq(|changes|, i requires 0 <= i < |changes| => Listing(file, changes[i]));
      hide *;
    }
  }

  /** The selected files: those of the listing that a changeset of the status names. */
  lemma FilesAreSelected(s: Setting, file: string)
    ensures file in FilesOf(s) <==>
      file in s.directory.listing && exists id :: id in s.status.changesets && file == id + ".md"
  {
    var names := FileNames(s.status.changesets);
    ListedOccurrences(s.directory.listing, names, file);
    SortKeeps(Listed(s.directory.listing, names));
    assert file in names <==> exists id :: id in s.status.changesets && file == id + ".md";
    assert file in FilesOf(s) <==> multiset(FilesOf(s))[file] > 0;
    assert file in s.directory.listing <==> multiset(s.directory.listing)[file] > 0;
  }

  lemma {:induction false} ListedOccurrences(listing: seq<string>, names: set<string>, x: string)
    ensures multiset(Listed(listing, names))[x] == if x in names then multiset(listing)[x] else 0
  {
    if listing != [] {
      ListedOccurrences(listing[1..], names, x);
      assert listing == [listing[0]] + listing[1..];
    }
  }

  /** The order in which the directory lists its files has no influence. */
  lemma ListingOrderIsIrrelevant(s: Setting, other: seq<string>)
    requires multiset(other) == multiset(s.directory.listing)
    ensures FilesOf(s.(directory := s.directory.(listing := other))) == FilesOf(s)
  {
    var names := FileNames(s.status.changesets);
    forall x ensures multiset(Listed(other, names))[x] == multiset(Listed(s.directory.listing, names))[x] {
      ListedOccurrences(other, names, x);
      ListedOccurrences(s.directory.listing, names, x);
    }
    assert multiset(Listed(other, names)) == multiset(Listed(s.directory.listing, names));
    SortForgetsOrder(Listed(other, names), Listed(s.directory.listing, names));
  }

  // ---------------------------------------------------------------- what a fold writes

  datatype Changelog = Entries(entries: seq<Entry>) | Invalid

  type Logs = map<string, Changelog>

  /** The entries to put in front of a changelog with the keys `present`: those of the additions to the
      path, each content once. */
  function NewEntries(adds: seq<Addition>, path: string, present: set<string>): seq<Entry> {
    if adds == [] then []
    else
      var before, last := NewEntries(adds[..|adds| - 1], path, present), adds[|adds| - 1];
      if last.path != path || EntryKey(last.entry) in present + Keys(before) then before
      else before + [last.entry]
  }

  /** The changelogs the additions go to, in the order they are first named. */
  function PathsOf(adds: seq<Addition>): seq<string> {
    if adds == [] then []
    else
      var before := PathsOf(adds[..|adds| - 1]);
      if adds[|adds| - 1].path in before then before else before + [adds[|adds| - 1].path]
  }

  /** A changelog that does not exist yet has no entries. */
  function Existing(logs: Logs, path: string): seq<Entry> {
    if path in logs && logs[path].Entries? then logs[path].entries else []
  }

  function Merged(adds: seq<Addition>, path: string, existing: seq<Entry>): seq<Entry> {
    NewEntries(adds, path, Keys(existing)) + existing
  }

  predicate Readable(logs: Logs, path: string) {
    path in logs ==> logs[path].Entries?
  }

  ghost predicate AllReadable(logs: Logs, adds: seq<Addition>) {
    forall i :: 0 <= i < |adds| ==> Readable(logs, adds[i].path)
  }

  ghost function Folded(logs: Logs, adds: seq<Addition>): Logs {
    map p | p in logs.Keys + (set q | q in PathsOf(adds)) ::
      if p in PathsOf(adds) then Entries(Merged(adds, p, Existing(logs, p))) else logs[p]
  }

  lemma {:induction false} PathsAreNamed(adds: seq<Addition>)
    ensures forall p :: p in PathsOf(adds) <==> exists i :: 0 <= i < |adds| && adds[i].path == p
    ensures forall i, j :: 0 <= i < j < |PathsOf(adds)| ==> PathsOf(adds)[i] != PathsOf(adds)[j]
  {
    if adds != [] {
      var before := adds[..|adds| - 1];
      PathsAreNamed(before);
      assert forall i :: 0 <= i < |before| ==> before[i] == adds[i];
    }
  }

  ghost predicate DistinctKeys(entries: seq<Entry>) {
    forall i, j :: 0 <= i < j < |entries| ==> EntryKey(entries[i]) != EntryKey(entries[j])
  }

  /** `added` are entries that the additions bring to the path: each key once and none of the keys
      present; and no addition is missing. */
  ghost predicate AreNew(added: seq<Entry>, adds: seq<Addition>, path: string, present: set<string>) {
    && DistinctKeys(added)
    && (forall i :: 0 <= i < |added| ==> EntryKey(added[i]) !in present)
    && (forall i :: 0 <= i < |added| ==> Addition(path, added[i]) in adds)
    && (forall i :: 0 <= i < |adds| && adds[i].path == path ==> EntryKey(adds[i].entry) in present + Keys(added))
  }

  lemma {:induction false} NewEntriesAreNew(adds: seq<Addition>, path: string, present: set<string>)
    ensures AreNew(NewEntries(adds, path, present), adds, path, present)
  {
    assert AreNew([], [], path, present);
    hide EntryKey, AreNew, Keys;
    if adds != [] {
      var before, last := adds[..|adds| - 1], adds[|adds| - 1];
      NewEntriesAreNew(before, path, present);
      assert adds == before + [last];
      OneMoreAddition(NewEntries(before, path, present), before, last, path, present);
    }
  }

  lemma OneMoreAddition(added: seq<Entry>, adds: seq<Addition>, last: Addition, path: string, present: set<string>)
    requires AreNew(added, adds, path, present)
    ensures AreNew(
      if last.path != path || EntryKey(last.entry) in present + Keys(added) then added else added + [last.entry],
      adds + [last], path, present)
  {
    hide *;
    if last.path != path || EntryKey(last.entry) in present + Keys(added) {
      KnownAddition(added, adds, last, path, present);
    } else {
      NewAddition(added, adds, last, path, present);
    }
  }

  lemma KnownAddition(added: seq<Entry>, adds: seq<Addition>, last: Addition, path: string, present: set<string>)
    requires AreNew(added, adds, path, present)
    requires last.path != path || EntryKey(last.entry) in present + Keys(added)
    ensures AreNew(added, adds + [last], path, present)
  {
    hide EntryKey, Keys, DistinctKeys;
    assert forall a :: a in adds ==> a in adds + [last];
  }

  lemma NewAddition(added: seq<Entry>, adds: seq<Addition>, last: Addition, path: string, present: set<string>)
    requires AreNew(added, adds, path, present)
    requires last.path == path && EntryKey(last.entry) !in present + Keys(added)
    ensures AreNew(added + [last.entry], adds + [last], path, present)
  {
    hide EntryKey, Keys, DistinctKeys;
    assert forall a :: a in adds || a == last ==> a in adds + [last];
    KeysOfMore(added, last.entry);
    StillDistinct(added, last.entry);
    assert last == Addition(path, last.entry);
  }

  lemma StillDistinct(entries: seq<Entry>, e: Entry)
    requires DistinctKeys(entries) && EntryKey(e) !in Keys(entries)
    ensures DistinctKeys(entries + [e])
  {
    hide EntryKey;
    assert forall i :: 0 <= i < |entries| ==> EntryKey(entries[i]) in Keys(entries);
  }

  lemma KeysOfMore(entries: seq<Entry>, e: Entry)
    ensures Keys(entries + [e]) == Keys(entries) + {EntryKey(e)}
    ensures Keys([e] + entries) == Keys(entries) + {EntryKey(e)}
  {
    hide EntryKey;
    assert forall x :: x in entries + [e] <==> x in entries || x == e;
    assert forall x :: x in [e] + entries <==> x in entries || x == e;
  }

  lemma KeysOfBoth(a: seq<Entry>, b: seq<Entry>)
    ensures Keys(a + b) == Keys(a) + Keys(b)
  {
    hide EntryKey;
    assert forall x :: x in a + b <==> x in a || x in b;
  }

  /** The positions of the additions that are written: to this path, with a key that is not present and not
      that of an earlier one. */
  ghost predicate IsFirstOfKey(adds: seq<Addition>, path: string, present: set<string>, k: nat)
    requires k < |adds|
  {
    && adds[k].path == path && EntryKey(adds[k].entry) !in present
    && forall j :: 0 <= j < k && adds[j].path == path ==> EntryKey(adds[j].entry) != EntryKey(adds[k].entry)
  }

  /** The entries put in front are those at these positions, in their order. */
  ghost predicate ArePicked(added: seq<Entry>, adds: seq<Addition>, path: string, present: set<string>, at: seq<nat>) {
    && |at| == |added|
    && (forall i :: 0 <= i < |at| ==>
          at[i] < |adds| && IsFirstOfKey(adds, path, present, at[i]) && added[i] == adds[at[i]].entry)
    && (forall i, j :: 0 <= i < j < |at| ==> at[i] < at[j])
    && (forall k: nat :: k < |adds| && IsFirstOfKey(adds, path, present, k) ==> k in at)
  }

  lemma {:induction false} NewEntriesArePicked(adds: seq<Addition>, path: string, present: set<string>)
      returns (at: seq<nat>)
    ensures ArePicked(NewEntries(adds, path, present), adds, path, present, at)
  {
    hide *;
    EntriesInTurn(adds, path, present);
    if adds == [] {
      at := [];
      NothingPicked(path, present);
    } else {
      var before, last := adds[..|adds| - 1], adds[|adds| - 1];
      assert adds == before + [last];
      at := NewEntriesArePicked(before, path, present);
      NewEntriesAreNew(before, path, present);
      var added := NewEntries(before, path, present);
      PickNext(added, before, last, path, present, at);
      at := if last.path == path && EntryKey(last.entry) !in present + Keys(added) then at + [|before|] else at;
    }
  }

  lemma EntriesInTurn(adds: seq<Addition>, path: string, present: set<string>)
    ensures adds == [] ==> NewEntries(adds, path, present) == []
    ensures adds != [] ==>
      var before, last := NewEntries(adds[..|adds| - 1], path, present), adds[|adds| - 1];
      NewEntries(adds, path, present) ==
        if last.path == path && EntryKey(last.entry) !in present + Keys(before) then before + [last.entry] else before
  {
    hide EntryKey, Keys;
  }

  lemma NothingPicked(path: string, present: set<string>)
    ensures ArePicked([], [], path, present, [])
  {
  }

  lemma PickNext(added: seq<Entry>, adds: seq<Addition>, last: Addition, path: string, present: set<string>, at: seq<nat>)
    requires ArePicked(added, adds, path, present, at) && AreNew(added, adds, path, present)
    ensures if last.path == path && EntryKey(last.entry) !in present + Keys(added)
      then ArePicked(added + [last.entry], adds + [last], path, present, at + [|adds|])
      else ArePicked(added, adds + [last], path, present, at)
  {
    hide EntryKey;
    var all := adds + [last];
    assert forall k :: 0 <= k < |adds| ==> all[k] == adds[k];
    assert forall k: nat :: k < |adds| ==>
      (IsFirstOfKey(all, path, present, k) <==> IsFirstOfKey(adds, path, present, k));
    assert IsFirstOfKey(all, path, present, |adds|) <==>
      last.path == path && EntryKey(last.entry) !in present + Keys(added)
    by {
      LastIsFirst(added, adds, last, path, present, at);
    }
    hide IsFirstOfKey, Keys;
    assert forall k: nat :: k in at + [|adds|] <==> k in at || k == |adds|;
  }

  lemma LastIsFirst(added: seq<Entry>, adds: seq<Addition>, last: Addition, path: string, present: set<string>,
                    at: seq<nat>)
    requires ArePicked(added, adds, path, present, at) && AreNew(added, adds, path, present)
    ensures IsFirstOfKey(adds + [last], path, present, |adds|) <==>
      last.path == path && EntryKey(last.entry) !in present + Keys(added)
  {
    hide EntryKey, DistinctKeys;
    var all := adds + [last];
    assert forall k :: 0 <= k < |adds| ==> all[k] == adds[k];
    if last.path == path && EntryKey(last.entry) in Keys(added) {
      var e :| e in added && EntryKey(e) == EntryKey(last.entry);
      var i :| 0 <= i < |added| && added[i] == e;
      assert adds[at[i]].path == path && EntryKey(adds[at[i]].entry) == EntryKey(last.entry);
    }
  }

  /** The changelogs are named in the order of their first additions. */
  lemma {:induction false} PathsInOrder(adds: seq<Addition>, i: nat, j: nat) returns (k: nat)
    requires i < j < |PathsOf(adds)|
    ensures k < |adds| && adds[k].path == PathsOf(adds)[i]
    ensures forall l :: 0 <= l <= k ==> adds[l].path != PathsOf(adds)[j]
  {
    var before, last := adds[..|adds| - 1], adds[|adds| - 1];
    PathsAreNamed(before);
    if j < |PathsOf(before)| {
      k := PathsInOrder(before, i, j);
    } else {
      var p := PathsOf(before)[i];
      assert p in PathsOf(before);
      k :| 0 <= k < |before| && before[k].path == p;
    }
    assert forall l :: 0 <= l < |before| ==> before[l] == adds[l];
  }

  /** Folding puts new entries in front: the changelog as it was is an untouched suffix, and other
      changelogs are not touched at all. */
  lemma FoldConserves(logs: Logs, adds: seq<Addition>, path: string)
    requires AllReadable(logs, adds)
    ensures var folded := Folded(logs, adds);
      if path !in PathsOf(adds) then
        (path in folded <==> path in logs) && (path in logs ==> folded[path] == logs[path])
      else
        && path in folded && folded[path].Entries?
        && (path in logs ==> logs[path].Entries?)
        && var after, existing := folded[path].entries, if path in logs then logs[path].entries else [];
           var added := after[..|after| - |existing|];
           && |existing| <= |after| && after[|after| - |existing|..] == existing
           && AreNew(added, adds, path, Keys(existing))
  {
    hide EntryKey, NewEntries, Keys, AreNew;
    PathsAreNamed(adds);
    if path in PathsOf(adds) {
      var i :| 0 <= i < |adds| && adds[i].path == path;
      assert Readable(logs, adds[i].path);
      var existing := Existing(logs, path);
      var added := NewEntries(adds, path, Keys(existing));
      NewEntriesAreNew(adds, path, Keys(existing));
      var after := Merged(adds, path, existing);
      assert after[..|after| - |existing|] == added && after[|after| - |existing|..] == existing;
    }
  }

  /** What is put in front of a changelog are changes of the selected files, field by field. */
  lemma AddedEntriesAreChanges(s: Setting, logs: Logs, files: seq<string>, path: string)
    requires Additions(s, files).Ok? && AllReadable(logs, Additions(s, files).value)
    requires path in PathsOf(Additions(s, files).value)
    ensures var adds, existing := Additions(s, files).value, Existing(logs, path);
      var after := Folded(logs, adds)[path].entries;
      forall k :: 0 <= k < |after| - |existing| ==>
        exists l :: l in ChangesIn(s, files) && IsAdditionOf(s, l.file, l.change, Addition(path, after[k]))
  {
    hide Additions, IsAdditionOf, ChangesIn, Keys, EntryKey, NewEntries;
    var adds, existing := Additions(s, files).value, Existing(logs, path);
    var added := NewEntries(adds, path, Keys(existing));
    NewEntriesAreNew(adds, path, Keys(existing));
    AdditionsAreChanges(s, files);
    var after := Folded(logs, adds)[path].entries;
    assert after == added + existing;
    forall k | 0 <= k < |after| - |existing|
      ensures exists l :: l in ChangesIn(s, files) && IsAdditionOf(s, l.file, l.change, Addition(path, after[k]))
    {
      assert Addition(path, added[k]) in adds;
      var i :| 0 <= i < |adds| && adds[i] == Addition(path, added[k]);
      assert ChangesIn(s, files)[i] in ChangesIn(s, files);
    }
  }

  lemma {:induction false} NothingNew(adds: seq<Addition>, path: string, present: set<string>)
    requires forall i :: 0 <= i < |adds| && adds[i].path == path ==> EntryKey(adds[i].entry) in present
    ensures NewEntries(adds, path, present) == []
  {
    hide EntryKey;
    if adds != [] {
      NothingNew(adds[..|adds| - 1], path, present);
    }
  }

  lemma MergedTwice(adds: seq<Addition>, path: string, existing: seq<Entry>)
    ensures Merged(adds, path, Merged(adds, path, existing)) == Merged(adds, path, existing)
  {
    var added := NewEntries(adds, path, Keys(existing));
    var merged := Merged(adds, path, existing);
    NewEntriesAreNew(adds, path, Keys(existing));
    KeysOfBoth(added, existing);
    hide EntryKey, NewEntries, Keys, DistinctKeys;
    NothingNew(adds, path, Keys(merged));
    assert [] + merged == merged;
  }

  /** A second fold of the same changesets changes no file. */
  lemma FoldIsIdempotent(logs: Logs, adds: seq<Addition>)
    requires AllReadable(logs, adds)
    ensures AllReadable(Folded(logs, adds), adds)
    ensures Folded(Folded(logs, adds), adds) == Folded(logs, adds)
  {
    var once := Folded(logs, adds);
    PathsAreNamed(adds);
    hide Merged, PathsOf;
    forall p | p in PathsOf(adds) ensures Entries(Merged(adds, p, Existing(once, p))) == once[p] {
      MergedTwice(adds, p, Existing(logs, p));
    }
    assert Folded(once, adds).Keys == once.Keys;
  }

  // ---------------------------------------------------------------- newest first

  function Versions(entries: seq<Entry>): (r: seq<string>)
    ensures |r| == |entries|
  {
    seq(|entries|, i requires 0 <= i < |entries| => entries[i].version)
  }

  /** What the additions to one changelog have in common when its package has one release. */
  ghost predicate OneVersion(adds: seq<Addition>, path: string, version: string) {
    forall i :: 0 <= i < |adds| && adds[i].path == path ==> adds[i].entry.version == version
  }

  lemma SameVersionsInOrder(num: Conversion, versions: seq<string>, version: string)
    requires IsSemver(version) && forall i :: 0 <= i < |versions| ==> versions[i] == version
    ensures AllSemver(versions) && NewestFirst(num, versions)
  {
    AheadIsStrict(num, version, version);
  }

  /** When all additions to a changelog carry the version of one release, the folded changelog is newest
      first exactly when nothing was added or that version is not older than the newest one before. */
  lemma FoldKeepsOrder(num: Conversion, logs: Logs, adds: seq<Addition>, path: string, version: string)
    requires ReadsDigits(num) && AllReadable(logs, adds) && path in PathsOf(adds)
    requires OneVersion(adds, path, version) && IsSemver(version)
    requires AllSemver(Versions(Existing(logs, path))) && NewestFirst(num, Versions(Existing(logs, path)))
    ensures var existing, after := Existing(logs, path), Folded(logs, adds)[path].entries;
      && AllSemver(Versions(after))
      && (NewestFirst(num, Versions(after)) <==>
            after == existing || existing == [] || !IsAhead(num, Versions(existing)[0], version))
  {
    var existing := Existing(logs, path);
    var added := NewEntries(adds, path, Keys(existing));
    NewEntriesAreNew(adds, path, Keys(existing));
    hide EntryKey, NewEntries, Keys, ReadsDigits, IsAhead, IsSemver, NewestFirst;
    forall i | 0 <= i < |added| ensures added[i].version == version {
      var j :| 0 <= j < |adds| && adds[j] == Addition(path, added[i]);
    }
    SameVersionsInOrder(num, Versions(added), version);
    assert Versions(added + existing) == Versions(added) + Versions(existing);
    JoinedNewestFirst(num, Versions(added), Versions(existing));
    if added == [] {
      assert added + existing == existing;
    }
  }

  /** Release names are unique, and a changelog belongs to one package. */
  ghost predicate OneReleaseEach(s: Setting) {
    && (forall r, q :: r in s.status.releases && q in s.status.releases && r.name == q.name ==>
          r.newVersion == q.newVersion)
    && (forall f, g :: f in s.targets && g in s.targets && s.targets[f].changelogPath == s.targets[g].changelogPath ==>
          s.targets[f].packageName == s.targets[g].packageName)
  }

  /** The version of a release that the path's package has. */
  ghost predicate IsReleaseOf(s: Setting, path: string, version: string) {
    exists f, r :: f in s.targets && s.targets[f].changelogPath == path
      && r in s.status.releases && r.name == s.targets[f].packageName && r.newVersion == version
  }

  lemma {:induction false} AdditionsAreReleased(s: Setting, file: string, changes: seq<Change>)
    requires ResolveAll(s, file, changes).Ok?
    ensures forall a :: a in ResolveAll(s, file, changes).value ==> IsReleaseOf(s, a.path, a.entry.version)
  {
    if changes != [] {
      AdditionsAreReleased(s, file, changes[..|changes| - 1]);
      var c := changes[|changes| - 1];
      FindReleaseFinds(s.status.releases, s.targets[c.feature].packageName, IdOf(file));
    }
  }

  lemma {:induction false} AllAdditionsAreReleased(s: Setting, files: seq<string>)
    requires Additions(s, files).Ok?
    ensures forall a :: a in Additions(s, files).value ==> IsReleaseOf(s, a.path, a.entry.version)
  {
    if files != [] {
      AllAdditionsAreReleased(s, files[..|files| - 1]);
      AdditionsAreReleased(s, files[|files| - 1], ParsedFile(s, files[|files| - 1]).value);
    }
  }

  /** With one release for each package, all additions to a changelog carry that release's version. */
  lemma OneVersionPerChangelog(s: Setting, files: seq<string>, path: string, version: string)
    requires OneReleaseEach(s) && Additions(s, files).Ok? && IsReleaseOf(s, path, version)
    ensures OneVersion(Additions(s, files).value, path, version)
  {
    hide Additions;
    AllAdditionsAreReleased(s, files);
    var adds := Additions(s, files).value;
    forall i | 0 <= i < |adds| && adds[i].path == path ensures adds[i].entry.version == version {
      assert adds[i] in adds;
    }
  }

  // ---------------------------------------------------------------- the code

  datatype Slot = Slot(path: string, entries: seq<Entry>)

  /** The `pending` map, in the order its paths were set. */
  ghost predicate IsPending(pending: seq<Slot>, adds: seq<Addition>) {
    && |pending| == |PathsOf(adds)|
    && forall i :: 0 <= i < |pending| ==>
         pending[i].path == PathsOf(adds)[i] && pending[i].entries == NewEntries(adds, pending[i].path, {})
  }

  function SlotOf(pending: seq<Slot>, path: string): (i: nat)
    ensures i <= |pending|
    ensures i < |pending| ==> pending[i].path == path
    ensures forall j :: 0 <= j < i ==> pending[j].path != path
  {
    if pending == [] || pending[0].path == path then 0 else 1 + SlotOf(pending[1..], path)
  }

  function KeptApart(entries: seq<Entry>, present: set<string>): seq<Entry> {
    if entries == [] then []
    else
      KeptApart(entries[..|entries| - 1], present)
        + if EntryKey(entries[|entries| - 1]) in present then [] else [entries[|entries| - 1]]
  }

  lemma {:induction false} KeysKeptApart(entries: seq<Entry>, present: set<string>)
    ensures Keys(KeptApart(entries, present)) == Keys(entries) - present
  {
    hide EntryKey;
    if entries != [] {
      var before, last := entries[..|entries| - 1], entries[|entries| - 1];
      KeysKeptApart(before, present);
      KeysOfMore(before, last);
      KeysOfMore(KeptApart(before, present), last);
      assert entries == before + [last];
      hide Keys;
      if EntryKey(last) in present {
        assert KeptApart(entries, present) == KeptApart(before, present) + [] == KeptApart(before, present);
      } else {
        assert KeptApart(entries, present) == KeptApart(before, present) + [last];
      }
    }
  }

  /** Removing duplicates first and present entries afterwards gives the new entries. */
  lemma {:induction false} FilteredAreNew(adds: seq<Addition>, path: string, present: set<string>)
    ensures KeptApart(NewEntries(adds, path, {}), present) == NewEntries(adds, path, present)
  {
    hide EntryKey, Keys;
    if adds != [] {
      var before, last := adds[..|adds| - 1], adds[|adds| - 1];
      FilteredAreNew(before, path, present);
      KeysKeptApart(NewEntries(before, path, {}), present);
    }
  }

  lemma MoreAdditions(adds: seq<Addition>, a: Addition)
    ensures PathsOf(adds + [a]) == if a.path in PathsOf(adds) then PathsOf(adds) else PathsOf(adds) + [a.path]
    ensures forall p :: p != a.path ==> NewEntries(adds + [a], p, {}) == NewEntries(adds, p, {})
    ensures var entries := NewEntries(adds, a.path, {});
      NewEntries(adds + [a], a.path, {})
        == if EntryKey(a.entry) in Keys(entries) then entries else entries + [a.entry]
  {
    assert (adds + [a])[..|adds|] == adds;
  }

  lemma {:induction false} NothingUnnamed(adds: seq<Addition>, path: string)
    requires path !in PathsOf(adds)
    ensures NewEntries(adds, path, {}) == []
  {
    if adds != [] {
      NothingUnnamed(adds[..|adds| - 1], path);
    }
  }

  /** `pending.get(path) ?? []`, the push unless the key is there, and `pending.set`. */
  method AddPending(pending: seq<Slot>, a: Addition, ghost adds: seq<Addition>) returns (r: seq<Slot>)
    requires IsPending(pending, adds)
    ensures IsPending(r, adds + [a])
  {
    hide EntryKey;
    MoreAdditions(adds, a);
    PathsAreNamed(adds);
    hide NewEntries, PathsOf;
    var at := SlotOf(pending, a.path);
    var entries := if at < |pending| then pending[at].entries else [];
    if at == |pending| {
      assert a.path !in PathsOf(adds);
      NothingUnnamed(adds, a.path);
    }
    var present := exists i :: 0 <= i < |entries| && EntryKey(entries[i]) == EntryKey(a.entry);
    assert present <==> EntryKey(a.entry) in Keys(entries);
    if !present {
      entries := entries + [a.entry];
    }
    r := if at < |pending| then pending[at := Slot(a.path, entries)] else pending + [Slot(a.path, entries)];
  }

  datatype Update = Update(path: string, contents: seq<Entry>)

  class Repository {
    const directory: Option<Directory>
    const targets: map<string, Target>
    var changelogs: Logs

    constructor (directory: Option<Directory>, targets: map<string, Target>, changelogs: Logs)
      ensures this.directory == directory && this.targets == targets && this.changelogs == changelogs
    {
      this.directory, this.targets, this.changelogs := directory, targets, changelogs;
    }

    /** The two loops over the files and their changes. */
    method CollectPending(status: Status, files: seq<string>) returns (r: Result<seq<Slot>, Failure>)
      requires directory.Some?
      ensures var all := Additions(Setting(status, directory.value, targets), files);
        match r
        case Err(f) => all == Err(f)
        case Ok(pending) => all.Ok? && IsPending(pending, all.value)
    {
      var s := Setting(status, directory.value, targets);
      var pending := [];
      ghost var adds: seq<Addition> := [];
      assert IsPending([], []);
      hide EntryKey, IsPending, Resolve;
      for i := 0 to |files|
        invariant Additions(s, files[..i]) == Ok(adds) && IsPending(pending, adds)
      {
        var file := files[i];
        assert files[..i + 1][..i] == files[..i];
        if ParsedFile(s, file).None? {
          FirstFailureStays(s, files, i + 1);
          return Err(BadChangeset(file));
        }
        var changes := ParsedFile(s, file).value;
        ghost var before, more := adds, [];
        for j := 0 to |changes|
          invariant ResolveAll(s, file, changes[..j]) == Ok(more)
          invariant adds == before + more && IsPending(pending, adds)
        {
          assert changes[..j + 1][..j] == changes[..j];
          var addition := Resolve(s, file, changes[j]);
          if addition.Err? {
            FirstBadChangeStays(s, file, changes, j + 1);
            FirstFailureStays(s, files, i + 1);
            return Err(addition.error);
          }
          pending := AddPending(pending, addition.value, adds);
          AppendAssociates(before, more, [addition.value]);
          adds, more := adds + [addition.value], more + [addition.value];
        }
        assert changes[..|changes|] == changes;
      }
      assert files[..|files|] == files;
      return Ok(pending);
    }

    /** The loop over the pending changelogs; `None` when one of them cannot be read. */
    method ComputeUpdates(pending: seq<Slot>, ghost adds: seq<Addition>) returns (r: Option<seq<Update>>)
      requires IsPending(pending, adds)
      ensures r.Some? <==> AllReadable(changelogs, adds)
      ensures r.Some? ==> AreUpdates(r.value, changelogs, adds)
    {
      hide EntryKey, NewEntries, Keys, PathsOf;
      PathsAreNamed(adds);
      var updates := [];
      for i := 0 to |pending|
        invariant |updates| == i
        invariant forall k :: 0 <= k < i ==> Readable(changelogs, PathsOf(adds)[k])
        invariant forall k :: 0 <= k < i ==> IsUpdate(updates[k], changelogs, adds, PathsOf(adds)[k])
      {
        var slot := pending[i];
        if !Readable(changelogs, slot.path) {
          assert slot.path in PathsOf(adds);
          return None;
        }
        var existing := Existing(changelogs, slot.path);
        FilteredAreNew(adds, slot.path, Keys(existing));
        updates := updates + [Update(slot.path, KeptApart(slot.entries, Keys(existing)) + existing)];
      }
      forall i | 0 <= i < |adds| ensures Readable(changelogs, adds[i].path) {
        assert adds[i].path in PathsOf(adds);
      }
      return Some(updates);
    }

    method WriteUpdates(updates: seq<Update>, ghost adds: seq<Addition>)
      requires AreUpdates(updates, changelogs, adds)
      modifies this`changelogs
      ensures changelogs == Folded(old(changelogs), adds)
    {
      ghost var before := changelogs;
      NothingWritten(before, adds);
      for i := 0 to |updates|
        invariant ArePartlyWritten(changelogs, before, adds, i)
      {
        WriteOne(changelogs, before, adds, i, updates[i]);
        hide *;
        changelogs := changelogs[updates[i].path := Entries(updates[i].contents)];
      }
      AllWritten(changelogs, before, adds);
    }

    /** `fold`. The code is 0, or 1 with nothing written; a dry run reports the same updates. */
    method Fold(status: Option<Status>, dryRun: bool) returns (code: int, updates: seq<Update>)
      modifies this`changelogs
      ensures code in {0, 1}
      ensures code == 1 || dryRun || directory.None? ==> changelogs == old(changelogs)
      ensures status.None? ==> code == 1
      ensures status.Some? && directory.None? ==> code == 0 && updates == []
      ensures status.Some? && directory.Some? ==>
        var s := Setting(status.value, directory.value, targets);
        var adds := Additions(s, FilesOf(s));
        && (code == 0 <==> adds.Ok? && AllReadable(old(changelogs), adds.value))
        && (code == 0 ==> AreUpdates(updates, old(changelogs), adds.value))
        && (code == 0 && !dryRun ==> changelogs == Folded(old(changelogs), adds.value))
    {
      if status.None? { return 1, []; }
      if directory.None? { return 0, []; }
      hide *;
      var s := Setting(status.value, directory.value, targets);
      var pending := CollectPending(status.value, FilesOf(s));
      if pending.Err? { return 1, []; }
      ghost var adds := Additions(s, FilesOf(s)).value;
      var computed := ComputeUpdates(pending.value, adds);
      if computed.None? { return 1, []; }
      if !dryRun {
        WriteUpdates(computed.value, adds);
      }
      return 0, computed.value;
    }
  }

  /** The first `n` of the changelogs that additions go to are folded, the others as before. */
  ghost predicate ArePartlyWritten(logs: Logs, before: Logs, adds: seq<Addition>, n: nat) {
    && n <= |PathsOf(adds)|
    && logs.Keys == before.Keys + (set q | q in PathsOf(adds)[..n])
    && forall p :: p in logs ==>
         logs[p] == if p in PathsOf(adds)[..n] then Entries(Merged(adds, p, Existing(before, p))) else before[p]
  }

  lemma NothingWritten(before: Logs, adds: seq<Addition>)
    ensures ArePartlyWritten(before, before, adds, 0)
  {
  }

  lemma WriteOne(logs: Logs, before: Logs, adds: seq<Addition>, n: nat, u: Update)
    requires ArePartlyWritten(logs, before, adds, n) && n < |PathsOf(adds)|
    requires IsUpdate(u, before, adds, PathsOf(adds)[n])
    ensures ArePartlyWritten(logs[u.path := Entries(u.contents)], before, adds, n + 1)
  {
    hide PathsOf, Merged, Existing;
    var more := logs[u.path := Entries(u.contents)];
    assert PathsOf(adds)[..n + 1] == PathsOf(adds)[..n] + [u.path];
    assert forall p :: p in PathsOf(adds)[..n + 1] <==> p in PathsOf(adds)[..n] || p == u.path;
    assert more.Keys == logs.Keys + {u.path};
  }

  lemma AllWritten(logs: Logs, before: Logs, adds: seq<Addition>)
    requires ArePartlyWritten(logs, before, adds, |PathsOf(adds)|)
    ensures logs == Folded(before, adds)
  {
    hide PathsOf, Merged, Existing;
    assert PathsOf(adds)[..|PathsOf(adds)|] == PathsOf(adds);
    assert logs.Keys == Folded(before, adds).Keys;
  }

  ghost predicate IsUpdate(u: Update, logs: Logs, adds: seq<Addition>, path: string) {
    u == Update(path, Merged(adds, path, Existing(logs, path)))
  }

  /** One update for each changelog that additions go to, in order. */
  ghost predicate AreUpdates(updates: seq<Update>, logs: Logs, adds: seq<Addition>) {
    && |updates| == |PathsOf(adds)|
    && forall i :: 0 <= i < |updates| ==> IsUpdate(updates[i], logs, adds, PathsOf(adds)[i])
  }
}
