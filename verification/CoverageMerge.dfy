/** Merging line coverage of several reports (scripts/coverage-merge.ts).
    A report is given as its records; splitting its text into them is not modelled. */
module CoverageMerge {
  import opened Collections

  type LineCounts = map<nat, nat>

  type LineMap = map<string, LineCounts>

  function Max(a: nat, b: nat): nat {
    if a < b then b else a
  }

  /** `lines.get(line) ?? 0` */
  function CountAt(lines: LineCounts, line: nat): nat {
    if line in lines then lines[line] else 0
  }

  // ---------------------------------------------------------------- reading a report

  /** One record: the file it names, "" for none, and its line counts. */
  datatype Record = Record(file: string, counts: seq<(nat, nat)>)

  /** `sf.replace(/\\/g, "/")` */
  function ForwardSlashes(file: string): (r: string)
    ensures |r| == |file| && forall i :: 0 <= i < |r| ==> r[i] == if file[i] == '\\' then '/' else file[i]
  {
    if file == "" then "" else [if file[0] == '\\' then '/' else file[0]] + ForwardSlashes(file[1..])
  }

  ghost predicate Counts(r: Record, ignored: string -> bool) {
    r.file != "" && !ignored(ForwardSlashes(r.file))
  }

  /** Some record that counts is about the file. */
  ghost predicate NamesFile(records: seq<Record>, ignored: string -> bool, file: string) {
    exists i :: 0 <= i < |records| && Counts(records[i], ignored) && ForwardSlashes(records[i].file) == file
  }

  /** Some record that counts reports this count for the line. */
  ghost predicate Reports(records: seq<Record>, ignored: string -> bool, file: string, line: nat, count: nat) {
    exists i, j :: 0 <= i < |records| && Counts(records[i], ignored) && ForwardSlashes(records[i].file) == file
      && 0 <= j < |records[i].counts| && records[i].counts[j] == (line, count)
  }

  /** The largest of the reported counts, of the lines that are reported. */
  ghost predicate IsLargest(records: seq<Record>, ignored: string -> bool, file: string, lines: LineCounts) {
    && (forall l: nat, c: nat :: Reports(records, ignored, file, l, c) ==> l in lines && c <= lines[l])
    && (forall l :: l in lines ==> Reports(records, ignored, file, l, lines[l]))
  }

  ghost predicate IsReading(records: seq<Record>, ignored: string -> bool, perFile: LineMap) {
    && (forall f :: f in perFile <==> NamesFile(records, ignored, f))
    && (forall f :: f in perFile ==> IsLargest(records, ignored, f, perFile[f]))
  }

  /** The record with its first `n` counts. */
  function Cut(r: Record, n: nat): Record
    requires n <= |r.counts|
  {
    Record(r.file, r.counts[..n])
  }

  lemma MoreReports(records: seq<Record>, ignored: string -> bool, r: Record, file: string, n: nat)
    requires n < |r.counts| && Counts(r, ignored) && ForwardSlashes(r.file) == file
    ensures forall f: string, l: nat, c: nat :: Reports(records + [Cut(r, n + 1)], ignored, f, l, c) <==>
      Reports(records + [Cut(r, n)], ignored, f, l, c) || (f == file && (l, c) == r.counts[n])
  {
    var less, more := records + [Cut(r, n)], records + [Cut(r, n + 1)];
    forall f: string, l: nat, c: nat | Reports(more, ignored, f, l, c)
      ensures Reports(less, ignored, f, l, c) || (f == file && (l, c) == r.counts[n])
    {
      var i, j :| 0 <= i < |more| && Counts(more[i], ignored) && ForwardSlashes(more[i].file) == f
        && 0 <= j < |more[i].counts| && more[i].counts[j] == (l, c);
      if i < |records| || j < n {
        assert less[i].counts[j] == (l, c);
      }
    }
    forall f: string, l: nat, c: nat | Reports(less, ignored, f, l, c) || (f == file && (l, c) == r.counts[n])
      ensures Reports(more, ignored, f, l, c)
    {
      if Reports(less, ignored, f, l, c) {
        var i, j :| 0 <= i < |less| && Counts(less[i], ignored) && ForwardSlashes(less[i].file) == f
          && 0 <= j < |less[i].counts| && less[i].counts[j] == (l, c);
        assert more[i].counts[j] == (l, c);
      } else {
        assert more[|records|].counts[n] == (l, c);
      }
    }
  }

  lemma OneMoreRecord(records: seq<Record>, ignored: string -> bool, r: Record)
    ensures forall f :: NamesFile(records + [r], ignored, f) <==>
      NamesFile(records, ignored, f) || (Counts(r, ignored) && ForwardSlashes(r.file) == f)
    ensures !Counts(r, ignored) || r.counts == [] ==>
      forall f: string, l: nat, c: nat :: Reports(records + [r], ignored, f, l, c) <==> Reports(records, ignored, f, l, c)
    ensures forall f: string, l: nat, c: nat :: !(Counts(r, ignored) && ForwardSlashes(r.file) == f) ==>
      (Reports(records + [r], ignored, f, l, c) <==> Reports(records, ignored, f, l, c))
  {
    var all := records + [r];
    assert all[|records|] == r;
    assert forall i :: 0 <= i < |records| ==> all[i] == records[i];
    forall f: string, l: nat, c: nat | Reports(records, ignored, f, l, c) ensures Reports(all, ignored, f, l, c) {
      var i, j :| 0 <= i < |records| && Counts(records[i], ignored) && ForwardSlashes(records[i].file) == f
        && 0 <= j < |records[i].counts| && records[i].counts[j] == (l, c);
      assert all[i].counts[j] == (l, c);
    }
  }

  method ParseLcovLines(records: seq<Record>, ignored: string -> bool) returns (perFile: LineMap)
    ensures IsReading(records, ignored, perFile)
  {
    perFile := map[];
    for i := 0 to |records|
      invariant IsReading(records[..i], ignored, perFile)
    {
      var r := records[i];
      ghost var before := records[..i];
      assert records[..i + 1] == before + [r];
      OneMoreRecord(before, ignored, r);
      if r.file != "" && !ignored(ForwardSlashes(r.file)) {
        var file := ForwardSlashes(r.file);
        var lines: LineCounts := if file in perFile then perFile[file] else map[];
        OneMoreRecord(before, ignored, Cut(r, 0));
        hide Counts, ForwardSlashes;
        hide IsReading, NamesFile;
        for j := 0 to |r.counts|
          invariant IsLargest(before + [Cut(r, j)], ignored, file, lines)
        {
          var (line, count) := r.counts[j];
          CountRead(before, ignored, r, file, j, lines);
          lines := lines[line := Max(CountAt(lines, line), count)];
        }
        assert Cut(r, |r.counts|) == r;
        Stored(before, ignored, perFile, r, lines);
        perFile := perFile[file := lines];
      } else {
        NotStored(before, ignored, perFile, r);
      }
    }
    assert records[..|records|] == records;
  }

  lemma CountRead(records: seq<Record>, ignored: string -> bool, r: Record, file: string, n: nat, lines: LineCounts)
    requires n < |r.counts| && Counts(r, ignored) && ForwardSlashes(r.file) == file
    requires IsLargest(records + [Cut(r, n)], ignored, file, lines)
    ensures var (line, count) := r.counts[n];
      IsLargest(records + [Cut(r, n + 1)], ignored, file, lines[line := Max(CountAt(lines, line), count)])
  {
    var less, more := records + [Cut(r, n)], records + [Cut(r, n + 1)];
    MoreReports(records, ignored, r, file, n);
    hide Counts, ForwardSlashes, IsLargest;
    var (line, count) := r.counts[n];
    forall l: nat, c: nat
      ensures Reports(more, ignored, file, l, c) <==> Reports(less, ignored, file, l, c) || (l, c) == (line, count)
    {
      hide Reports;
    }
  }

  lemma Stored(records: seq<Record>, ignored: string -> bool, perFile: LineMap, r: Record, lines: LineCounts)
    requires Counts(r, ignored) && IsReading(records, ignored, perFile)
    requires IsLargest(records + [r], ignored, ForwardSlashes(r.file), lines)
    ensures IsReading(records + [r], ignored, perFile[ForwardSlashes(r.file) := lines])
  {
    OneMoreRecord(records, ignored, r);
    hide Counts, ForwardSlashes, Reports, NamesFile;
  }

  lemma NotStored(records: seq<Record>, ignored: string -> bool, perFile: LineMap, r: Record)
    requires !Counts(r, ignored) && IsReading(records, ignored, perFile)
    ensures IsReading(records + [r], ignored, perFile)
  {
    OneMoreRecord(records, ignored, r);
    hide Counts, ForwardSlashes, Reports, NamesFile;
  }

  // ---------------------------------------------------------------- merging

  /** Some source has the line of the file; with a positive count, it is hit. */
  ghost predicate Has(sources: seq<LineMap>, file: string, line: nat) {
    exists i :: 0 <= i < |sources| && file in sources[i] && line in sources[i][file]
  }

  ghost predicate Hits(sources: seq<LineMap>, file: string, line: nat) {
    exists i :: 0 <= i < |sources| && file in sources[i] && CountAt(sources[i][file], line) > 0
  }

  function Files(sources: seq<LineMap>): set<string> {
    set s: LineMap, f: string | s in sources && f in s.Keys :: f
  }

  ghost function LinesIn(sources: seq<LineMap>, file: string): set<nat> {
    set s: LineMap, l: nat | s in sources && file in s && l in s[file].Keys :: l
  }

  ghost function HitsIn(sources: seq<LineMap>, file: string): set<nat> {
    set l | l in LinesIn(sources, file) && Hits(sources, file, l)
  }

  /** The (file, line) pairs of the files. */
  ghost function Pairs(sources: seq<LineMap>, files: set<string>): set<(string, nat)> {
    set f, l | f in files && l in LinesIn(sources, f) :: (f, l)
  }

  ghost function HitPairs(sources: seq<LineMap>, files: set<string>): set<(string, nat)> {
    set f, l | f in files && l in HitsIn(sources, f) :: (f, l)
  }

  lemma LinesAreHad(sources: seq<LineMap>, file: string)
    ensures forall l: nat :: l in LinesIn(sources, file) <==> Has(sources, file, l)
    ensures forall l: nat :: l in HitsIn(sources, file) <==> Hits(sources, file, l)
    ensures forall l: nat :: Has(sources, file, l) ==> file in Files(sources)
  {
    forall l: nat | Has(sources, file, l) ensures l in LinesIn(sources, file) && file in Files(sources) {
      var i :| 0 <= i < |sources| && file in sources[i] && l in sources[i][file];
      assert sources[i] in sources;
    }
    forall l: nat | Hits(sources, file, l) ensures Has(sources, file, l) {
      var i :| 0 <= i < |sources| && file in sources[i] && CountAt(sources[i][file], l) > 0;
    }
  }

  ghost function FilePairs(file: string, lines: set<nat>): set<(string, nat)> {
    set l | l in lines :: (file, l)
  }

  lemma {:induction false} PairsOfOneFile(file: string, lines: set<nat>)
    ensures |FilePairs(file, lines)| == |lines|
  {
    if lines == {} {
      assert FilePairs(file, lines) == {};
    } else {
      var x :| x in lines;
      PairsOfOneFile(file, lines - {x});
      assert FilePairs(file, lines) == FilePairs(file, lines - {x}) + {(file, x)};
    }
  }

  ghost predicate AreTotals(sources: seq<LineMap>, files: set<string>, lines: nat, hit: nat) {
    lines == |Pairs(sources, files)| && hit == |HitPairs(sources, files)|
  }

  predicate AreParts(all: set<string>, done: set<string>, left: set<string>) {
    done + left == all && done !! left
  }

  lemma MoveOver(all: set<string>, done: set<string>, left: set<string>, file: string)
    requires AreParts(all, done, left) && file in left
    ensures AreParts(all, done + {file}, left - {file}) && file !in done && |left - {file}| < |left|
  {
  }

  lemma NoFiles(sources: seq<LineMap>)
    ensures AreParts(Files(sources), {}, Files(sources)) && AreTotals(sources, {}, 0, 0)
  {
    assert Pairs(sources, {}) == {} && HitPairs(sources, {}) == {};
    assert {} + Files(sources) == Files(sources);
  }

  lemma NextFile(sources: seq<LineMap>, files: set<string>, file: string, lines: nat, hit: nat)
    requires file !in files && AreTotals(sources, files, lines, hit)
    ensures AreTotals(sources, files + {file}, lines + |LinesIn(sources, file)|, hit + |HitsIn(sources, file)|)
  {
    hide Pairs, HitPairs, LinesIn, HitsIn;
    OneMoreFile(sources, files, file);
  }

  lemma TotalsMean(sources: seq<LineMap>, files: set<string>, lines: nat, hit: nat)
    requires AreParts(Files(sources), files, {}) && AreTotals(sources, files, lines, hit)
    ensures lines == |Pairs(sources, Files(sources))| && hit == |HitPairs(sources, Files(sources))|
  {
    hide Pairs, HitPairs;
    assert files + {} == files;
  }

  lemma OneMoreFile(sources: seq<LineMap>, files: set<string>, file: string)
    requires file !in files
    ensures |Pairs(sources, files + {file})| == |Pairs(sources, files)| + |LinesIn(sources, file)|
    ensures |HitPairs(sources, files + {file})| == |HitPairs(sources, files)| + |HitsIn(sources, file)|
  {
    hide LinesIn, HitsIn;
    var lines, hits := FilePairs(file, LinesIn(sources, file)), FilePairs(file, HitsIn(sources, file));
    PairsOfOneFile(file, LinesIn(sources, file));
    PairsOfOneFile(file, HitsIn(sources, file));
    assert Pairs(sources, files + {file}) == Pairs(sources, files) + lines && Pairs(sources, files) !! lines;
    assert HitPairs(sources, files + {file}) == HitPairs(sources, files) + hits && HitPairs(sources, files) !! hits;
  }

  /** The merged counts of one file. */
  ghost predicate IsMerged(merged: LineCounts, sources: seq<LineMap>, file: string) {
    && (forall l: nat :: l in merged <==> Has(sources, file, l))
    && (forall l: nat :: l in merged ==> (merged[l] > 0 <==> Hits(sources, file, l)))
  }

  lemma OneMoreSource(sources: seq<LineMap>, next: LineMap, file: string)
    ensures forall l: nat :: Has(sources + [next], file, l) <==>
      Has(sources, file, l) || (file in next && l in next[file])
    ensures forall l: nat :: Hits(sources + [next], file, l) <==>
      Hits(sources, file, l) || (file in next && CountAt(next[file], l) > 0)
  {
    var all := sources + [next];
    assert all[|sources|] == next;
    assert forall i :: 0 <= i < |sources| ==> all[i] == sources[i];
  }

  ghost predicate ArePartlyMerged(r: LineCounts, merged: LineCounts, src: LineCounts, left: set<nat>) {
    && r.Keys == merged.Keys + (src.Keys - left)
    && forall l :: l in r ==> r[l] == Max(CountAt(merged, l), if l in left then 0 else CountAt(src, l))
  }

  lemma OneMoreLine(r: LineCounts, merged: LineCounts, src: LineCounts, left: set<nat>, line: nat)
    requires ArePartlyMerged(r, merged, src, left) && line in left && left <= src.Keys
    ensures ArePartlyMerged(r[line := Max(CountAt(r, line), src[line])], merged, src, left - {line})
  {
    var more := r[line := Max(CountAt(r, line), src[line])];
    assert more.Keys == r.Keys + {line} && src.Keys - (left - {line}) == (src.Keys - left) + {line};
    forall l | l in more
      ensures more[l] == Max(CountAt(merged, l), if l in left - {line} then 0 else CountAt(src, l))
    {
      if l == line {
        assert CountAt(r, l) == CountAt(merged, l);
      } else {
        assert l in r && (l in left <==> l in left - {line});
      }
    }
  }

  lemma NoneMerged(merged: LineCounts, src: LineCounts)
    ensures ArePartlyMerged(merged, merged, src, src.Keys)
  {
  }

  lemma AllMerged(r: LineCounts, merged: LineCounts, src: LineCounts)
    requires ArePartlyMerged(r, merged, src, {})
    ensures r.Keys == merged.Keys + src.Keys
    ensures forall l :: l in r ==> r[l] == Max(CountAt(merged, l), CountAt(src, l))
  {
    hide Max, CountAt;
  }

  /** The loop over the lines of one source. */
  method MergeCounts(merged: LineCounts, src: LineCounts) returns (r: LineCounts)
    ensures r.Keys == merged.Keys + src.Keys
    ensures forall l :: l in r ==> r[l] == Max(CountAt(merged, l), CountAt(src, l))
  {
    r := merged;
    var left := src.Keys;
    hide Max, CountAt, ArePartlyMerged;
    NoneMerged(merged, src);
    while left != {}
      invariant left <= src.Keys
      invariant ArePartlyMerged(r, merged, src, left)
      decreases |left|
    {
      var line :| line in left;
      OneMoreLine(r, merged, src, left, line);
      r := r[line := Max(CountAt(r, line), src[line])];
      left := left - {line};
    }
    AllMerged(r, merged, src);
  }

  function HitLines(lines: LineCounts): set<nat> {
    set l | l in lines && lines[l] > 0
  }

  /** The loop over the sources, for one file. */
  method MergeFile(sources: seq<LineMap>, file: string) returns (merged: LineCounts)
    ensures merged.Keys == LinesIn(sources, file)
    ensures HitLines(merged) == HitsIn(sources, file)
  {
    merged := map[];
    assert IsMerged(merged, sources[..0], file);
    hide *;
    for i := 0 to |sources|
      invariant IsMerged(merged, sources[..i], file)
    {
      assert sources[..i + 1] == sources[..i] + [sources[i]];
      ghost var was := merged;
      if file in sources[i] {
        merged := MergeCounts(merged, sources[i][file]);
      }
      StillMerged(was, merged, sources[..i], sources[i], file);
    }
    assert sources[..|sources|] == sources;
    MergedLines(merged, sources, file);
  }

  lemma StillMerged(was: LineCounts, now: LineCounts, sources: seq<LineMap>, next: LineMap, file: string)
    requires IsMerged(was, sources, file)
    requires file !in next ==> now == was
    requires file in next ==> now.Keys == was.Keys + next[file].Keys
    requires file in next ==> forall l :: l in now ==> now[l] == Max(CountAt(was, l), CountAt(next[file], l))
    ensures IsMerged(now, sources + [next], file)
  {
    OneMoreSource(sources, next, file);
    HitIsHad(sources, file);
    hide Has, Hits;
  }

  lemma HitIsHad(sources: seq<LineMap>, file: string)
    ensures forall l: nat :: Hits(sources, file, l) ==> Has(sources, file, l)
  {
  }

  lemma MergedLines(merged: LineCounts, sources: seq<LineMap>, file: string)
    requires IsMerged(merged, sources, file)
    ensures merged.Keys == LinesIn(sources, file)
    ensures HitLines(merged) == HitsIn(sources, file)
  {
    LinesAreHad(sources, file);
    HitIsHad(sources, file);
    hide LinesIn, HitsIn, Has, Hits;
  }

  method CountFile(sources: seq<LineMap>, file: string) returns (lines: nat, hit: nat)
    ensures lines == |LinesIn(sources, file)| && hit == |HitsIn(sources, file)|
  {
    hide *;
    var merged := MergeFile(sources, file);
    lines, hit := |merged.Keys|, |HitLines(merged)|;
  }

  /** For any order in which files, sources and lines are visited, the totals count each (file, line) of
      the union once, and once more if some source hits it. */
  method MergeLineCoverage(sources: seq<LineMap>) returns (lines: nat, hit: nat)
    ensures lines == |Pairs(sources, Files(sources))|
    ensures hit == |HitPairs(sources, Files(sources))|
  {
    hide *;
    lines, hit := 0, 0;
    NoFiles(sources);
    var left := Files(sources);
    ghost var done: set<string> := {};
    while left != {}
      invariant AreParts(Files(sources), done, left)
      invariant AreTotals(sources, done, lines, hit)
      decreases |left|
    {
      var file :| file in left;
      var fileLines, fileHit := CountFile(sources, file);
      MoveOver(Files(sources), done, left, file);
      NextFile(sources, done, file, lines, hit);
      lines, hit := lines + fileLines, hit + fileHit;
      left, done := left - {file}, done + {file};
    }
    TotalsMean(sources, done, lines, hit);
  }

  // ---------------------------------------------------------------- what the totals depend on

  ghost function Total(sources: seq<LineMap>): (nat, nat) {
    (|Pairs(sources, Files(sources))|, |HitPairs(sources, Files(sources))|)
  }

  /** Two lists of sources with the same lines and the same hits. */
  ghost predicate SameLines(a: seq<LineMap>, b: seq<LineMap>) {
    forall f: string, l: nat :: (Has(a, f, l) <==> Has(b, f, l)) && (Hits(a, f, l) <==> Hits(b, f, l))
  }

  lemma PairsAreHad(sources: seq<LineMap>, f: string, l: nat)
    ensures (f, l) in Pairs(sources, Files(sources)) <==> Has(sources, f, l)
    ensures (f, l) in HitPairs(sources, Files(sources)) <==> Hits(sources, f, l)
  {
    LinesAreHad(sources, f);
    hide LinesIn, HitsIn, Has, Hits, Files;
    assert l in HitsIn(sources, f) ==> l in LinesIn(sources, f) by { HitsAreLines(sources, f); }
  }

  lemma HitsAreLines(sources: seq<LineMap>, f: string)
    ensures HitsIn(sources, f) <= LinesIn(sources, f)
  {
  }

  lemma TotalIsDetermined(a: seq<LineMap>, b: seq<LineMap>)
    requires SameLines(a, b)
    ensures Total(a) == Total(b)
  {
    hide Has, Hits, Files, Pairs, HitPairs;
    forall p: (string, nat)
      ensures p in Pairs(a, Files(a)) <==> p in Pairs(b, Files(b))
      ensures p in HitPairs(a, Files(a)) <==> p in HitPairs(b, Files(b))
    {
      PairsAreHad(a, p.0, p.1);
      PairsAreHad(b, p.0, p.1);
    }
    assert Pairs(a, Files(a)) == Pairs(b, Files(b));
    assert HitPairs(a, Files(a)) == HitPairs(b, Files(b));
  }

  lemma HitIsAtMostLines(sources: seq<LineMap>)
    ensures Total(sources).1 <= Total(sources).0
  {
    forall f ensures HitsIn(sources, f) <= LinesIn(sources, f) {
      HitsAreLines(sources, f);
    }
    hide LinesIn, HitsIn;
    SubsetCardinality(HitPairs(sources, Files(sources)), Pairs(sources, Files(sources)));
  }

  /** Reordering and repeating sources changes nothing. */
  lemma OrderAndRepetitionAreIrrelevant(a: seq<LineMap>, b: seq<LineMap>)
    requires forall s :: s in a <==> s in b
    ensures Total(a) == Total(b)
  {
    forall f: string, l: nat
      ensures (Has(a, f, l) <==> Has(b, f, l)) && (Hits(a, f, l) <==> Hits(b, f, l))
    {
      HasByMember(a, b, f, l);
      HasByMember(b, a, f, l);
    }
    TotalIsDetermined(a, b);
  }

  lemma HasByMember(a: seq<LineMap>, b: seq<LineMap>, f: string, l: nat)
    requires forall s :: s in a ==> s in b
    ensures (Has(a, f, l) ==> Has(b, f, l)) && (Hits(a, f, l) ==> Hits(b, f, l))
  {
    if Has(a, f, l) {
      var i :| 0 <= i < |a| && f in a[i] && l in a[i][f];
      assert a[i] in a;
      var j :| 0 <= j < |b| && b[j] == a[i];
    }
    if Hits(a, f, l) {
      var i :| 0 <= i < |a| && f in a[i] && CountAt(a[i][f], l) > 0;
      assert a[i] in a;
      var j :| 0 <= j < |b| && b[j] == a[i];
    }
  }

  lemma HasOfBoth(a: seq<LineMap>, b: seq<LineMap>, f: string, l: nat)
    ensures Has(a + b, f, l) <==> Has(a, f, l) || Has(b, f, l)
    ensures Hits(a + b, f, l) <==> Hits(a, f, l) || Hits(b, f, l)
  {
    var all := a + b;
    assert forall i :: 0 <= i < |a| ==> all[i] == a[i];
    assert forall i :: 0 <= i < |b| ==> all[|a| + i] == b[i];
  }

  /** Any part of the sources may be replaced by another with the same lines and hits. */
  lemma ReplacedPart(before: seq<LineMap>, part: seq<LineMap>, other: seq<LineMap>, after: seq<LineMap>)
    requires SameLines(part, other)
    ensures Total(before + part + after) == Total(before + other + after)
  {
    hide Has, Hits;
    forall f: string, l: nat
      ensures (Has(before + part + after, f, l) <==> Has(before + other + after, f, l))
           && (Hits(before + part + after, f, l) <==> Hits(before + other + after, f, l))
    {
      HasOfBoth(before, part, f, l);
      HasOfBoth(before + part, after, f, l);
      HasOfBoth(before, other, f, l);
      HasOfBoth(before + other, after, f, l);
    }
    TotalIsDetermined(before + part + after, before + other + after);
  }

  /** Splitting a report into two shards changes nothing, whichever records go where. */
  lemma ShardingIsIrrelevant(before: seq<LineMap>, after: seq<LineMap>, ignored: string -> bool,
                             records: seq<Record>, shard: seq<Record>, rest: seq<Record>,
                             whole: LineMap, one: LineMap, two: LineMap)
    requires forall r :: r in records <==> r in shard || r in rest
    requires IsReading(records, ignored, whole) && IsReading(shard, ignored, one) && IsReading(rest, ignored, two)
    ensures Total(before + [whole] + after) == Total(before + [one, two] + after)
  {
    hide Counts, ForwardSlashes, IsReading;
    forall f: string, l: nat
      ensures Has([whole], f, l) <==> Has([one, two], f, l)
      ensures Hits([whole], f, l) <==> Hits([one, two], f, l)
    {
      ReadingHas(records, ignored, whole, f, l);
      ReadingHas(shard, ignored, one, f, l);
      ReadingHas(rest, ignored, two, f, l);
      assert [one, two] == [one] + [two];
      HasOfBoth([one], [two], f, l);
      forall c: nat ensures Reports(records, ignored, f, l, c) <==>
        Reports(shard, ignored, f, l, c) || Reports(rest, ignored, f, l, c)
      {
        ReportsByMember(records, shard, rest, ignored, f, l, c);
      }
      hide Reports, Has, Hits;
    }
    ReplacedPart(before, [whole], [one, two], after);
  }

  lemma ReportsByMember(records: seq<Record>, shard: seq<Record>, rest: seq<Record>, ignored: string -> bool,
                        f: string, l: nat, c: nat)
    requires forall r :: r in records <==> r in shard || r in rest
    ensures Reports(records, ignored, f, l, c) <==>
      Reports(shard, ignored, f, l, c) || Reports(rest, ignored, f, l, c)
  {
    hide Counts, ForwardSlashes;
    ReportsIn(records, ignored, f, l, c);
    ReportsIn(shard, ignored, f, l, c);
    ReportsIn(rest, ignored, f, l, c);
    hide Reports;
  }

  lemma ReportsIn(records: seq<Record>, ignored: string -> bool, f: string, l: nat, c: nat)
    ensures Reports(records, ignored, f, l, c) <==>
      exists r :: r in records && Counts(r, ignored) && ForwardSlashes(r.file) == f && (l, c) in r.counts
  {
    hide Counts, ForwardSlashes;
    if r :| r in records && Counts(r, ignored) && ForwardSlashes(r.file) == f && (l, c) in r.counts {
      var i :| 0 <= i < |records| && records[i] == r;
      var j :| 0 <= j < |r.counts| && r.counts[j] == (l, c);
    }
  }

  /** A read report has the lines with some count, and hits those with a positive one. */
  lemma ReadingHas(records: seq<Record>, ignored: string -> bool, perFile: LineMap, f: string, l: nat)
    requires IsReading(records, ignored, perFile)
    ensures Has([perFile], f, l) <==> exists c: nat :: Reports(records, ignored, f, l, c)
    ensures Hits([perFile], f, l) <==> exists c: nat :: Reports(records, ignored, f, l, c) && c > 0
  {
    hide Counts, ForwardSlashes;
    assert [perFile][0] == perFile;
    if c: nat :| Reports(records, ignored, f, l, c) {
      assert NamesFile(records, ignored, f);
      assert l in perFile[f];
    }
    hide Reports, NamesFile;
  }
}
