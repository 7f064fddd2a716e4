/** Capping a failed step's output to head, tail and windows around its `(fail)` lines
    (`capLines` and `failWindowStart` of bin/_lib/ci-output.ts). */
module LogCapping {

  const FAIL_WINDOW_MAX_LINES_BEFORE := 80
  const FAIL_WINDOW_LINES_AFTER := 2
  const MAX_FAIL_WINDOWS := 5

  /** The three patterns, each applied to a trimmed line. */
  datatype Patterns = Patterns(isFail: string -> bool, isResult: string -> bool, isHeader: string -> bool)

  /** A line range with both ends included; empty when `end` is `start - 1`. */
  datatype LineRange = LineRange(start: int, end: int)

  /** An output line: one of the input, or a marker for so many omitted ones. */
  datatype Item = Kept(line: string) | Omitted(count: int)

  // ---------------------------------------------------------------- what an output accounts for

  /** The output stands for exactly these lines, in order: a kept line for itself, a marker for a
      non-empty stretch of its stated length. */
  predicate Accounts(items: seq<Item>, lines: seq<string>) {
    if items == [] then lines == []
    else
      var n := |items| - 1;
      match items[n]
      case Kept(line) => lines != [] && lines[|lines| - 1] == line && Accounts(items[..n], lines[..|lines| - 1])
      case Omitted(k) => 1 <= k <= |lines| && Accounts(items[..n], lines[..|lines| - k])
  }

  /** No two markers stand side by side. */
  predicate MarkersApart(items: seq<Item>) {
    forall j :: 0 < j < |items| ==> items[j - 1].Kept? || items[j].Kept?
  }

  /** How many lines the output stands for. */
  function Span(items: seq<Item>): int {
    if items == [] then 0
    else Span(items[..|items| - 1]) + (if items[|items| - 1].Kept? then 1 else items[|items| - 1].count)
  }

  /** The indices of the input lines that are kept. */
  ghost function Positions(items: seq<Item>): set<int> {
    if items == [] then {}
    else
      var init := items[..|items| - 1];
      Positions(init) + (if items[|items| - 1].Kept? then {Span(init)} else {})
  }

  function KeptCount(items: seq<Item>): nat {
    if items == [] then 0
    else KeptCount(items[..|items| - 1]) + (if items[|items| - 1].Kept? then 1 else 0)
  }

  function OmittedCount(items: seq<Item>): int {
    if items == [] then 0
    else OmittedCount(items[..|items| - 1]) + (if items[|items| - 1].Kept? then 0 else items[|items| - 1].count)
  }

  /** Nothing is lost silently: kept and counted lines add up to the input, and the kept items are
      the input lines at their positions. */
  lemma {:induction false} NothingIsLost(items: seq<Item>, lines: seq<string>)
    requires Accounts(items, lines)
    ensures KeptCount(items) + OmittedCount(items) == |lines| == Span(items)
    ensures forall j :: 0 <= j < |items| && items[j].Omitted? ==> items[j].count >= 1
    ensures forall j :: 0 <= j < |items| && items[j].Kept? ==>
      && 0 <= Span(items[..j]) < |lines| && lines[Span(items[..j])] == items[j].line
    ensures forall p :: p in Positions(items) ==> 0 <= p < |lines|
  {
    if items != [] {
      var n := |items| - 1;
      var shorter := if items[n].Kept? then lines[..|lines| - 1] else lines[..|lines| - items[n].count];
      NothingIsLost(items[..n], shorter);
      forall j | 0 <= j < |items| && items[j].Kept?
        ensures 0 <= Span(items[..j]) < |lines| && lines[Span(items[..j])] == items[j].line
      {
        if j < n {
          assert items[..n][..j] == items[..j] && items[..n][j] == items[j];
        }
      }
      forall j | 0 <= j < |items| && items[j].Omitted? ensures items[j].count >= 1 {
        if j < n {
          assert items[..n][j] == items[j];
        }
      }
    }
  }

  // ---------------------------------------------------------------- the window before a fail line

  predicate IsBoundary(p: Patterns, line: string) {
    p.isResult(line) || p.isHeader(line)
  }

  /** `start` follows the nearest test result or is the nearest file header before the fail line, at most
      80 lines back; without one in reach it is the farthest line allowed. */
  ghost predicate IsWindowStart(p: Patterns, lines: seq<string>, failIndex: int, start: int)
  {
    && 0 <= failIndex < |lines|
    && ((exists b :: NearestBoundary(p, lines, failIndex, b) && start == if p.isResult(lines[b]) then b + 1 else b)
        || ((forall k :: 0 <= k < failIndex <= k + FAIL_WINDOW_MAX_LINES_BEFORE ==> !IsBoundary(p, lines[k]))
            && (start == 0 || start == failIndex - FAIL_WINDOW_MAX_LINES_BEFORE)
            && 0 <= start && failIndex <= start + FAIL_WINDOW_MAX_LINES_BEFORE))
  }

  ghost predicate NearestBoundary(p: Patterns, lines: seq<string>, failIndex: int, b: int)
  {
    && 0 <= b < failIndex < |lines| && failIndex <= b + FAIL_WINDOW_MAX_LINES_BEFORE && IsBoundary(p, lines[b])
    && forall k :: b < k < failIndex ==> !IsBoundary(p, lines[k])
  }

  /** A fail line has one window start. */
  lemma WindowStartIsUnique(p: Patterns, lines: seq<string>, failIndex: int, a: int, b: int)
    requires IsWindowStart(p, lines, failIndex, a) && IsWindowStart(p, lines, failIndex, b)
    ensures a == b
  {
  }

  method FailWindowStart(p: Patterns, lines: seq<string>, failIndex: int) returns (start: int)
    requires 0 <= failIndex < |lines|
    ensures 0 <= start <= failIndex <= start + FAIL_WINDOW_MAX_LINES_BEFORE
    ensures IsWindowStart(p, lines, failIndex, start)
  {
    var floor := if failIndex < FAIL_WINDOW_MAX_LINES_BEFORE then 0 else failIndex - FAIL_WINDOW_MAX_LINES_BEFORE;
    var i := failIndex - 1;
    while i >= floor
      invariant floor - 1 <= i < failIndex
      invariant forall k :: i < k < failIndex ==> !IsBoundary(p, lines[k])
    {
      if p.isResult(lines[i]) {
        assert NearestBoundary(p, lines, failIndex, i);
        return i + 1;
      }
      if p.isHeader(lines[i]) {
        assert NearestBoundary(p, lines, failIndex, i);
        return i;
      }
      i := i - 1;
    }
    return floor;
  }

  // ---------------------------------------------------------------- which fail lines get a window

  /** In order, apart by more than a window, at most five; and every fail line of the middle part up to
      the end of the fifth window is inside one of them. */
  ghost predicate IsSelection(p: Patterns, lines: seq<string>, half: int, upto: int, fails: seq<int>) {
    && |fails| <= MAX_FAIL_WINDOWS
    && (forall f :: f in fails ==> 0 <= half <= f < upto && f < |lines| && p.isFail(lines[f]))
    && (forall a, b :: 0 <= a < b < |fails| ==> fails[a] + FAIL_WINDOW_LINES_AFTER < fails[b])
    && (forall k :: half <= k < upto && Selectable(p, lines, fails, k) ==> InSomeWindow(fails, k))
  }

  ghost predicate Selectable(p: Patterns, lines: seq<string>, fails: seq<int>, k: int) {
    && 0 <= k < |lines| && p.isFail(lines[k])
    && (|fails| == MAX_FAIL_WINDOWS ==> k <= fails[MAX_FAIL_WINDOWS - 1] + FAIL_WINDOW_LINES_AFTER)
  }

  ghost predicate InSomeWindow(fails: seq<int>, k: int) {
    exists f :: f in fails && f <= k <= f + FAIL_WINDOW_LINES_AFTER
  }

  method SelectFails(p: Patterns, lines: seq<string>, half: nat) returns (fails: seq<int>)
    requires 2 * half <= |lines|
    ensures IsSelection(p, lines, half, |lines| - half, fails)
  {
    fails := [];
    var i := half;
    while i < |lines| - half && |fails| < MAX_FAIL_WINDOWS
      invariant half <= i <= |lines| - half
      invariant IsSelection(p, lines, half, i, fails)
    {
      ghost var before := fails;
      if p.isFail(lines[i]) && (fails == [] || i > fails[|fails| - 1] + FAIL_WINDOW_LINES_AFTER) {
        fails := fails + [i];
      }
      NextLine(p, lines, half, i, before, fails);
      i := i + 1;
    }
    if i < |lines| - half {
      FullSelection(p, lines, half, i, fails);
    }
  }

  lemma NextLine(p: Patterns, lines: seq<string>, half: int, i: int, before: seq<int>, after: seq<int>)
    requires 0 <= half <= i < |lines| && |before| < MAX_FAIL_WINDOWS && IsSelection(p, lines, half, i, before)
    requires after == if p.isFail(lines[i]) && (before == [] || i > before[|before| - 1] + FAIL_WINDOW_LINES_AFTER)
                      then before + [i] else before
    ensures IsSelection(p, lines, half, i + 1, after)
  {
    forall k | half <= k < i + 1 && Selectable(p, lines, after, k) ensures InSomeWindow(after, k) {
      if k < i {
        assert Selectable(p, lines, before, k);
        var f :| f in before && f <= k <= f + FAIL_WINDOW_LINES_AFTER;
        assert f in after;
      } else if after == before {
        assert before[|before| - 1] in after;
      } else {
        assert i in after;
      }
    }
  }

  lemma FullSelection(p: Patterns, lines: seq<string>, half: int, i: int, fails: seq<int>)
    requires 0 <= half <= i < |lines| - half && |fails| == MAX_FAIL_WINDOWS
    requires IsSelection(p, lines, half, i, fails)
    ensures IsSelection(p, lines, half, |lines| - half, fails)
  {
    forall k | half <= k < |lines| - half && Selectable(p, lines, fails, k) ensures InSomeWindow(fails, k) {
      assert fails[MAX_FAIL_WINDOWS - 1] in fails;
    }
  }

  /** There is only one selection. */
  lemma SelectionIsUnique(p: Patterns, lines: seq<string>, half: int, upto: int, a: seq<int>, b: seq<int>)
    requires 0 <= half && upto <= |lines|
    requires IsSelection(p, lines, half, upto, a) && IsSelection(p, lines, half, upto, b)
    ensures a == b
  {
    var n := if |a| < |b| then |a| else |b|;
    SameSelected(p, lines, half, upto, a, b, n);
    assert a[..|a|] == a && b[..|b|] == b;
    NoMore(p, lines, half, upto, a, b);
    NoMore(p, lines, half, upto, b, a);
  }

  lemma {:induction false} SameSelected(p: Patterns, lines: seq<string>, half: int, upto: int, a: seq<int>, b: seq<int>,
                                        n: nat)
    requires 0 <= half && upto <= |lines| && n <= |a| && n <= |b|
    requires IsSelection(p, lines, half, upto, a) && IsSelection(p, lines, half, upto, b)
    ensures a[..n] == b[..n]
  {
    if n > 0 {
      SameSelected(p, lines, half, upto, a, b, n - 1);
      NotBefore(p, lines, half, upto, a, b, n - 1);
      NotBefore(p, lines, half, upto, b, a, n - 1);
      assert a[..n] == a[..n - 1] + [a[n - 1]] && b[..n] == b[..n - 1] + [b[n - 1]];
    }
  }

  lemma NotBefore(p: Patterns, lines: seq<string>, half: int, upto: int, a: seq<int>, b: seq<int>, i: nat)
    requires 0 <= half && upto <= |lines| && i < |a| && i < |b| && a[..i] == b[..i]
    requires IsSelection(p, lines, half, upto, a) && IsSelection(p, lines, half, upto, b)
    ensures a[i] <= b[i]
  {
    if b[i] < a[i] {
      assert b[i] in b && a[i] in a;
      assert |a| == MAX_FAIL_WINDOWS ==> a[i] <= a[MAX_FAIL_WINDOWS - 1];
      assert Selectable(p, lines, a, b[i]);
      var j := NextWindow(a, b, i);
    }
  }

  /** When the selections agree up to `i`, a window of `a` that has the next line of `b` comes next too. */
  lemma NextWindow(a: seq<int>, b: seq<int>, i: nat) returns (j: nat)
    requires i <= |a| && i < |b| && a[..i] == b[..i] && InSomeWindow(a, b[i])
    requires forall x, y :: 0 <= x < y < |b| ==> b[x] + FAIL_WINDOW_LINES_AFTER < b[y]
    ensures i <= j < |a| && a[j] <= b[i]
  {
    assert forall x :: 0 <= x < i ==> a[x] == a[..i][x] == b[..i][x] == b[x];
    var f :| f in a && f <= b[i] <= f + FAIL_WINDOW_LINES_AFTER;
    j :| 0 <= j < |a| && a[j] == f;
  }

  lemma NoMore(p: Patterns, lines: seq<string>, half: int, upto: int, a: seq<int>, b: seq<int>)
    requires 0 <= half && upto <= |lines| && (|a| < |b| ==> a == b[..|a|])
    requires IsSelection(p, lines, half, upto, a) && IsSelection(p, lines, half, upto, b)
    ensures |b| <= |a|
  {
    if |a| < |b| {
      assert b[|a|] in b;
      assert forall x :: 0 <= x < |a| ==> a[x] == b[..|a|][x] == b[x];
      BeyondWindows(a, b[|a|]);
    }
  }

  lemma BeyondWindows(fails: seq<int>, k: int)
    requires forall x :: 0 <= x < |fails| ==> fails[x] + FAIL_WINDOW_LINES_AFTER < k
    ensures !InSomeWindow(fails, k)
  {
  }

  // ---------------------------------------------------------------- sorting and merging ranges

  predicate SortedByStart(ranges: seq<LineRange>) {
    forall i, j :: 0 <= i < j < |ranges| ==> ranges[i].start <= ranges[j].start
  }

  function Insert(r: LineRange, sorted: seq<LineRange>): seq<LineRange> {
    if sorted == [] || r.start < sorted[0].start then [r] + sorted
    else [sorted[0]] + Insert(r, sorted[1..])
  }

  /** `ranges.sort((a, b) => a.start - b.start)`, a stable sort. */
  function SortByStart(ranges: seq<LineRange>): seq<LineRange> {
    if ranges == [] then [] else Insert(ranges[|ranges| - 1], SortByStart(ranges[..|ranges| - 1]))
  }

  lemma {:induction false} InsertKeeps(r: LineRange, sorted: seq<LineRange>)
    requires SortedByStart(sorted)
    ensures SortedByStart(Insert(r, sorted))
    ensures forall x :: x in Insert(r, sorted) <==> x == r || x in sorted
    ensures Total(Insert(r, sorted)) == Total(sorted) + r.end - r.start + 1
  {
    if sorted != [] && r.start >= sorted[0].start {
      InsertKeeps(r, sorted[1..]);
      var rest := Insert(r, sorted[1..]);
      assert Insert(r, sorted)[1..] == rest;
      forall j | 0 <= j < |rest| ensures sorted[0].start <= rest[j].start {
        assert rest[j] in rest;
      }
    } else {
      assert ([r] + sorted)[1..] == sorted;
    }
  }

  /** The summed lengths. */
  function Total(ranges: seq<LineRange>): int {
    if ranges == [] then 0 else ranges[0].end - ranges[0].start + 1 + Total(ranges[1..])
  }

  lemma {:induction false} TotalAppend(ranges: seq<LineRange>, r: LineRange)
    ensures Total(ranges + [r]) == Total(ranges) + r.end - r.start + 1
  {
    if ranges == [] {
      assert [r][1..] == [];
    } else {
      assert (ranges + [r])[1..] == ranges[1..] + [r];
      TotalAppend(ranges[1..], r);
    }
  }

  lemma {:induction false} SortKeeps(ranges: seq<LineRange>)
    ensures SortedByStart(SortByStart(ranges))
    ensures forall x :: x in SortByStart(ranges) <==> x in ranges
    ensures Total(SortByStart(ranges)) == Total(ranges)
  {
    if ranges != [] {
      var init, last := ranges[..|ranges| - 1], ranges[|ranges| - 1];
      assert ranges == init + [last];
      SortKeeps(init);
      InsertKeeps(last, SortByStart(init));
      TotalAppend(init, last);
    }
  }

  ghost predicate Covers(ranges: seq<LineRange>, x: int) {
    exists r :: r in ranges && r.start <= x <= r.end
  }

  /** Sorted, disjoint and not even adjacent: between two ranges at least one line is omitted. */
  predicate Apart(ranges: seq<LineRange>) {
    forall i, j :: 0 <= i < j < |ranges| ==> ranges[i].end + 1 < ranges[j].start
  }

  ghost predicate SameCover(a: seq<LineRange>, b: seq<LineRange>) {
    forall x :: Covers(a, x) <==> Covers(b, x)
  }

  function MaxEnd(ranges: seq<LineRange>): int
    requires ranges != []
  {
    var last := ranges[|ranges| - 1].end;
    if |ranges| == 1 then last
    else
      var rest := MaxEnd(ranges[..|ranges| - 1]);
      if rest < last then last else rest
  }

  /** What `merged` must be for the ranges seen so far. */
  ghost predicate Merges(merged: seq<LineRange>, ranges: seq<LineRange>) {
    && Apart(merged)
    && (forall i :: 0 <= i < |merged| ==> merged[i].start <= merged[i].end + 1)
    && (forall i :: 0 <= i < |merged| ==> merged[i].start <= merged[i].end || merged[i] in ranges)
    && SameCover(merged, ranges)
    && Total(merged) <= Total(ranges)
    && (merged == [] <==> ranges == [])
    && (ranges != [] ==>
          && merged[0].start == ranges[0].start
          && merged[|merged| - 1].start <= ranges[|ranges| - 1].start
          && merged[|merged| - 1].end == MaxEnd(ranges))
  }

  /** A range that touches the last merged one extends it. */
  lemma MergeGrow(init: seq<LineRange>, last: LineRange, grown: LineRange, ranges: seq<LineRange>, r: LineRange)
    requires Merges(init + [last], ranges) && ranges != [] && ranges[|ranges| - 1].start <= r.start <= r.end + 1
    requires r.start <= last.end + 1
    requires grown == LineRange(last.start, if last.end < r.end then r.end else last.end)
    ensures Merges(init + [grown], ranges + [r])
  {
    var before, after := init + [last], init + [grown];
    assert before[|init|] == last && (ranges + [r])[..|ranges|] == ranges;
    assert forall i :: 0 <= i < |init| ==> before[i] == after[i];
    TotalAppend(init, last);
    TotalAppend(init, grown);
    TotalAppend(ranges, r);
    CoversGrown(init, last, r, grown, ranges);
    hide SameCover, Total;
  }

  /** A range beyond the last merged one is added. */
  lemma MergePush(merged: seq<LineRange>, ranges: seq<LineRange>, r: LineRange)
    requires Merges(merged, ranges) && r.start <= r.end + 1
    requires ranges != [] ==> ranges[|ranges| - 1].start <= r.start && r.start > merged[|merged| - 1].end + 1
    ensures Merges(merged + [r], ranges + [r])
  {
    assert (ranges + [r])[..|ranges|] == ranges;
    TotalAppend(merged, r);
    TotalAppend(ranges, r);
    CoversAppend(merged, r);
    CoversAppend(ranges, r);
    assert SameCover(merged + [r], ranges + [r]);
    hide SameCover, Total;
    if ranges != [] {
      assert Apart(merged + [r]);
    }
  }

  lemma CoversAppend(ranges: seq<LineRange>, r: LineRange)
    ensures forall x :: Covers(ranges + [r], x) <==> Covers(ranges, x) || r.start <= x <= r.end
  {
    forall x ensures Covers(ranges + [r], x) <==> Covers(ranges, x) || r.start <= x <= r.end {
      if Covers(ranges, x) {
        var q :| q in ranges && q.start <= x <= q.end;
        assert q in ranges + [r];
      }
      if r.start <= x <= r.end {
        assert r in ranges + [r];
      }
    }
  }

  lemma CoversGrown(init: seq<LineRange>, last: LineRange, r: LineRange, grown: LineRange, ranges: seq<LineRange>)
    requires last.start <= r.start <= last.end + 1 && r.start <= r.end + 1
    requires grown == LineRange(last.start, if last.end < r.end then r.end else last.end)
    requires SameCover(init + [last], ranges)
    ensures SameCover(init + [grown], ranges + [r])
  {
    hide Covers;
    CoversAppend(init, last);
    CoversAppend(init, grown);
    CoversAppend(ranges, r);
  }

  method MergeRanges(ranges: seq<LineRange>) returns (merged: seq<LineRange>)
    requires SortedByStart(ranges) && forall r :: r in ranges ==> r.start <= r.end + 1
    ensures Merges(merged, ranges)
  {
    merged := [];
    assert Merges(merged, ranges[..0]);
    hide *;
    for i := 0 to |ranges|
      invariant Merges(merged, ranges[..i])
    {
      var range := ranges[i];
      assert ranges[..i + 1] == ranges[..i] + [range];
      Neighbours(merged, ranges, i);
      MergeNext(merged, ranges[..i], range);
      if merged != [] && range.start <= merged[|merged| - 1].end + 1 {
        var last := merged[|merged| - 1];
        merged := merged[..|merged| - 1] + [LineRange(last.start, if last.end < range.end then range.end else last.end)];
      } else {
        merged := merged + [range];
      }
    }
    assert ranges[..|ranges|] == ranges;
  }

  lemma MergeNext(merged: seq<LineRange>, ranges: seq<LineRange>, r: LineRange)
    requires Merges(merged, ranges) && r.start <= r.end + 1 && (merged == [] <==> ranges == [])
    requires ranges != [] ==> ranges[|ranges| - 1].start <= r.start
    ensures
      if merged != [] && r.start <= merged[|merged| - 1].end + 1 then
        var last := merged[|merged| - 1];
        var grown := LineRange(last.start, if last.end < r.end then r.end else last.end);
        Merges(merged[..|merged| - 1] + [grown], ranges + [r])
      else Merges(merged + [r], ranges + [r])
  {
    hide *;
    if merged != [] && r.start <= merged[|merged| - 1].end + 1 {
      var init, last := merged[..|merged| - 1], merged[|merged| - 1];
      assert merged == init + [last];
      MergeGrow(init, last, LineRange(last.start, if last.end < r.end then r.end else last.end), ranges, r);
    } else {
      MergePush(merged, ranges, r);
    }
  }

  lemma Neighbours(merged: seq<LineRange>, ranges: seq<LineRange>, i: nat)
    requires SortedByStart(ranges) && i < |ranges| && Merges(merged, ranges[..i])
    ensures merged == [] <==> ranges[..i] == []
    ensures i > 0 ==> ranges[..i][i - 1].start <= ranges[i].start
  {
    hide Apart, SameCover, Total, MaxEnd;
  }

  lemma {:induction false} MaxEndIs(ranges: seq<LineRange>, m: int)
    requires (forall r :: r in ranges ==> r.end <= m) && exists r :: r in ranges && r.end == m
    ensures ranges != [] && MaxEnd(ranges) == m
  {
    var init, last := ranges[..|ranges| - 1], ranges[|ranges| - 1];
    assert ranges == init + [last] && last in ranges;
    if exists r :: r in init && r.end == m {
      MaxEndIs(init, m);
    } else if init != [] {
      MaxEndAtMost(init, m);
    }
  }

  lemma {:induction false} MaxEndAtMost(ranges: seq<LineRange>, m: int)
    requires ranges != [] && forall r :: r in ranges ==> r.end <= m
    ensures MaxEnd(ranges) <= m
  {
    assert ranges[|ranges| - 1] in ranges;
    if |ranges| > 1 {
      MaxEndAtMost(ranges[..|ranges| - 1], m);
    }
  }

  // ---------------------------------------------------------------- the output

  /** The ranges partition the lines they do not cover into non-empty gaps, from the first line to the last. */
  predicate IsLayout(merged: seq<LineRange>, n: int) {
    && merged != [] && Apart(merged)
    && (forall i :: 0 <= i < |merged| ==> 0 <= merged[i].start <= merged[i].end + 1 <= n)
    && merged[0].start == 0 && merged[|merged| - 1].end == n - 1
    && (forall i :: 0 < i < |merged| - 1 ==> merged[i].start <= merged[i].end)
  }

  lemma AppendKept(items: seq<Item>, lines: seq<string>, k: int)
    requires 0 <= k < |lines| && Accounts(items, lines[..k])
    ensures var after := items + [Kept(lines[k])];
      && Accounts(after, lines[..k + 1])
      && Positions(after) == Positions(items) + {k}
      && KeptCount(after) == KeptCount(items) + 1
  {
    var after := items + [Kept(lines[k])];
    assert after[..|items|] == items && lines[..k + 1][..k] == lines[..k];
    NothingIsLost(items, lines[..k]);
  }

  lemma AppendOmitted(items: seq<Item>, lines: seq<string>, k: int, count: int)
    requires 0 <= k <= |lines| - count && 1 <= count && Accounts(items, lines[..k])
    ensures var after := items + [Omitted(count)];
      && Accounts(after, lines[..k + count])
      && Positions(after) == Positions(items)
      && KeptCount(after) == KeptCount(items)
  {
    var after := items + [Omitted(count)];
    assert after[..|items|] == items && lines[..k + count][..k] == lines[..k];
  }

  method AppendRange(lines: seq<string>, items: seq<Item>, range: LineRange) returns (result: seq<Item>)
    requires 0 <= range.start <= range.end + 1 <= |lines| && Accounts(items, lines[..range.start])
    ensures Accounts(result, lines[..range.end + 1])
    ensures forall x :: x in Positions(result) <==> x in Positions(items) || range.start <= x <= range.end
    ensures KeptCount(result) == KeptCount(items) + range.end - range.start + 1
    ensures MarkersApart(items) ==> MarkersApart(result)
    ensures if range.start > range.end then result == items else result != [] && result[|result| - 1].Kept?
  {
    hide Accounts, Positions, KeptCount;
    result := items;
    for j := range.start to range.end + 1
      invariant Accounts(result, lines[..j])
      invariant forall x :: x in Positions(result) <==> x in Positions(items) || range.start <= x < j
      invariant KeptCount(result) == KeptCount(items) + j - range.start
      invariant MarkersApart(items) ==> MarkersApart(result)
      invariant if j == range.start then result == items else result != [] && result[|result| - 1].Kept?
    {
      AppendKept(result, lines, j);
      result := result + [Kept(lines[j])];
    }
  }

  /** One turn of the result loop: the lines of a range, and the marker before the next one, if any. */
  method AppendSegment(lines: seq<string>, items: seq<Item>, range: LineRange, next: int) returns (result: seq<Item>)
    requires 0 <= range.start <= range.end + 1 <= next <= |lines| && Accounts(items, lines[..range.start])
    requires MarkersApart(items) && (range.start <= range.end || items == [] || next == range.end + 1)
    ensures Accounts(result, lines[..next]) && MarkersApart(result)
    ensures forall x :: x in Positions(result) <==> x in Positions(items) || range.start <= x <= range.end
    ensures KeptCount(result) == KeptCount(items) + range.end - range.start + 1
  {
    hide Accounts, Positions, KeptCount;
    result := AppendRange(lines, items, range);
    if next > range.end + 1 {
      AppendOmitted(result, lines, range.end + 1, next - range.end - 1);
      result := result + [Omitted(next - range.end - 1)];
    }
  }

  method Assemble(lines: seq<string>, merged: seq<LineRange>) returns (result: seq<Item>)
    requires IsLayout(merged, |lines|)
    ensures Accounts(result, lines) && MarkersApart(result)
    ensures forall x :: x in Positions(result) <==> Covers(merged, x)
    ensures KeptCount(result) == Total(merged)
  {
    result := [];
    var at := 0;
    assert forall x :: !Covers([], x);
    assert Accounts([], lines[..0]) && Total([]) == KeptCount([]) == 0;
    hide Covers, Accounts, Positions, KeptCount, Total;
    for i := 0 to |merged|
      invariant at == (if i < |merged| then merged[i].start else |lines|)
      invariant Accounts(result, lines[..at]) && MarkersApart(result) && (i == 0 ==> result == [])
      invariant forall x :: x in Positions(result) <==> Covers(merged[..i], x)
      invariant KeptCount(result) == Total(merged[..i])
    {
      at := if i + 1 < |merged| then merged[i + 1].start else |lines|;
      result := AppendSegment(lines, result, merged[i], at);
      assert merged[..i + 1] == merged[..i] + [merged[i]];
      CoversAppend(merged[..i], merged[i]);
      TotalAppend(merged[..i], merged[i]);
    }
    assert lines[..|lines|] == lines && merged[..|merged|] == merged;
  }

  method KeepAll(lines: seq<string>) returns (result: seq<Item>)
    ensures Accounts(result, lines) && OmittedCount(result) == 0 && MarkersApart(result)
    ensures forall x :: 0 <= x < |lines| ==> x in Positions(result)
  {
    result := [];
    for k := 0 to |lines|
      invariant Accounts(result, lines[..k]) && OmittedCount(result) == 0
      invariant forall j :: 0 <= j < |result| ==> result[j].Kept?
      invariant forall x :: 0 <= x < k ==> x in Positions(result)
    {
      AppendKept(result, lines, k);
      assert (result + [Kept(lines[k])])[..|result|] == result;
      result := result + [Kept(lines[k])];
    }
    assert lines[..|lines|] == lines;
  }

  /** `Math.min(lines.length - 1, idx + FAIL_WINDOW_LINES_AFTER)` */
  function WindowEnd(n: int, fail: int): int {
    if n - 1 < fail + FAIL_WINDOW_LINES_AFTER then n - 1 else fail + FAIL_WINDOW_LINES_AFTER
  }

  /** In the window of a selected fail line. */
  ghost predicate InWindow(p: Patterns, lines: seq<string>, fails: seq<int>, k: int) {
    exists f, start :: f in fails && IsWindowStart(p, lines, f, start) && start <= k <= f + FAIL_WINDOW_LINES_AFTER
  }

  /** A window of a selected fail line. */
  ghost predicate IsWindow(p: Patterns, lines: seq<string>, fails: seq<int>, r: LineRange) {
    exists f :: f in fails && IsWindowStart(p, lines, f, r.start) && r.end == WindowEnd(|lines|, f)
  }

  /** The window of a selected fail line is among the ranges. */
  ghost predicate HasWindow(p: Patterns, lines: seq<string>, ranges: seq<LineRange>, fail: int)
  {
    exists r :: r in ranges && IsWindowStart(p, lines, fail, r.start)
      && r.start <= fail && r.end == WindowEnd(|lines|, fail)
  }

  ghost predicate AreRanges(ranges: seq<LineRange>, half: int, n: int) {
    && LineRange(0, half - 1) in ranges && LineRange(n - half, n - 1) in ranges
    && (forall r :: r in ranges ==> 0 <= r.start <= r.end + 1 <= n)
    && (forall r :: r in ranges && r.start > r.end ==> r in [LineRange(0, half - 1), LineRange(n - half, n - 1)])
  }

  /** Head, tail, and one window for each selected fail line. */
  method Windows(p: Patterns, lines: seq<string>, half: nat, fails: seq<int>) returns (ranges: seq<LineRange>)
    requires 2 * half <= |lines| && forall f :: f in fails ==> 0 <= f < |lines|
    ensures AreRanges(ranges, half, |lines|)
    ensures forall f :: f in fails ==> HasWindow(p, lines, ranges, f)
    ensures forall r :: r in ranges ==>
      r in [LineRange(0, half - 1), LineRange(|lines| - half, |lines| - 1)] || IsWindow(p, lines, fails, r)
    ensures Total(ranges) <= 2 * half + (FAIL_WINDOW_MAX_LINES_BEFORE + FAIL_WINDOW_LINES_AFTER + 1) * |fails|
  {
    var head, tail := LineRange(0, half - 1), LineRange(|lines| - half, |lines| - 1);
    ranges := [head, tail];
    assert ranges[0] == head && ranges[1] == tail;
    assert Total(ranges) == 2 * half by {
      TotalAppend([], head);
      TotalAppend([head], tail);
      assert [] + [head] == [head] && [head] + [tail] == ranges;
    }
    for i := 0 to |fails|
      invariant AreRanges(ranges, half, |lines|)
      invariant forall f :: f in fails[..i] ==> HasWindow(p, lines, ranges, f)
      invariant forall r :: r in ranges ==> r in [head, tail] || IsWindow(p, lines, fails, r)
      invariant Total(ranges) <= 2 * half + (FAIL_WINDOW_MAX_LINES_BEFORE + FAIL_WINDOW_LINES_AFTER + 1) * i
    {
      hide *;
      var f := fails[i];
      assert f in fails;
      assert fails[..i + 1] == fails[..i] + [f];
      var start := FailWindowStart(p, lines, f);
      var window := LineRange(start, WindowEnd(|lines|, f));
      WindowAdded(p, lines, half, fails, f, ranges, window);
      ranges := ranges + [window];
    }
    assert fails[..|fails|] == fails;
  }

  lemma WindowAdded(p: Patterns, lines: seq<string>, half: nat, fails: seq<int>, f: int, ranges: seq<LineRange>,
                    window: LineRange)
    requires AreRanges(ranges, half, |lines|) && f in fails && 0 <= f < |lines|
    requires 0 <= window.start <= f <= window.start + FAIL_WINDOW_MAX_LINES_BEFORE
    requires IsWindowStart(p, lines, f, window.start) && window.end == WindowEnd(|lines|, f)
    ensures AreRanges(ranges + [window], half, |lines|)
    ensures HasWindow(p, lines, ranges + [window], f) && IsWindow(p, lines, fails, window)
    ensures forall g :: HasWindow(p, lines, ranges, g) ==> HasWindow(p, lines, ranges + [window], g)
    ensures Total(ranges + [window])
         <= Total(ranges) + FAIL_WINDOW_MAX_LINES_BEFORE + FAIL_WINDOW_LINES_AFTER + 1
  {
    hide IsWindowStart;
    TotalAppend(ranges, window);
    hide Total;
    assert forall r :: r in ranges + [window] <==> r in ranges || r == window;
  }

  lemma SortedLayout(ranges: seq<LineRange>, half: int, n: int, sorted: seq<LineRange>, merged: seq<LineRange>)
    requires AreRanges(ranges, half, n) && 0 <= half
    requires SortedByStart(sorted) && (forall r :: r in sorted <==> r in ranges) && Merges(merged, sorted)
    ensures IsLayout(merged, n)
  {
    hide Covers, Total, SameCover;
    var head, tail := LineRange(0, half - 1), LineRange(n - half, n - 1);
    assert head in sorted && tail in sorted;
    MaxEndIs(sorted, n - 1);
    assert sorted[0] in sorted;
    var k :| 0 <= k < |sorted| && sorted[k] == head;
    assert sorted[0].start <= sorted[k].start;
    forall i | 0 <= i < |merged| ensures 0 <= merged[i].start && merged[i].end <= n - 1 {
      assert i > 0 ==> merged[0].end + 1 < merged[i].start;
      assert i < |merged| - 1 ==> merged[i].end + 1 < merged[|merged| - 1].start;
    }
  }

  /** Everything between start and end of the window of a fail line is kept. */
  ghost predicate WindowKept(p: Patterns, lines: seq<string>, kept: set<int>, fail: int)
  {
    exists start :: IsWindowStart(p, lines, fail, start) && start <= fail
      && forall k :: start <= k <= WindowEnd(|lines|, fail) ==> k in kept
  }

  lemma WindowSurvives(p: Patterns, lines: seq<string>, ranges: seq<LineRange>, merged: seq<LineRange>,
                       kept: set<int>, fail: int)
    requires 0 <= fail < |lines| && HasWindow(p, lines, ranges, fail)
    requires forall x :: Covers(ranges, x) ==> x in kept
    ensures WindowKept(p, lines, kept, fail)
  {
    hide IsWindowStart;
    var r :| r in ranges && IsWindowStart(p, lines, fail, r.start) && r.start <= fail && r.end == WindowEnd(|lines|, fail);
    forall k | r.start <= k <= WindowEnd(|lines|, fail) ensures k in kept {
      assert Covers(ranges, k);
    }
  }

  /** Nothing is lost silently, at most 415 lines beyond `max` are kept, head and tail are kept, each
      selected fail line keeps its window, and every fail line of the input up to the end of the fifth
      window is kept. Holds for every limit, also below 2. */
  method CapLines(p: Patterns, lines: seq<string>, max: nat) returns (result: seq<Item>, ghost fails: seq<int>)
    ensures Accounts(result, lines) && MarkersApart(result)
    ensures |lines| <= max ==> OmittedCount(result) == 0
    ensures KeptCount(result) <= max + (FAIL_WINDOW_MAX_LINES_BEFORE + FAIL_WINDOW_LINES_AFTER + 1) * MAX_FAIL_WINDOWS
    ensures |lines| > max ==>
      KeptCount(result) <= 2 * (max / 2) + (FAIL_WINDOW_MAX_LINES_BEFORE + FAIL_WINDOW_LINES_AFTER + 1) * |fails|
    ensures |lines| > max ==> forall k :: 0 <= k < |lines| ==>
      (k in Positions(result) <==> k < max / 2 || k >= |lines| - max / 2 || InWindow(p, lines, fails, k))
    ensures forall k :: 0 <= k < |lines| && (k < max / 2 || k >= |lines| - max / 2) ==> k in Positions(result)
    ensures |lines| > max ==> IsSelection(p, lines, max / 2, |lines| - max / 2, fails)
    ensures |lines| > max ==> forall f :: f in fails ==> WindowKept(p, lines, Positions(result), f)
    ensures forall k :: 0 <= k < |lines| && Selectable(p, lines, fails, k) ==> k in Positions(result)
  {
    hide *;
    fails := [];
    if |lines| <= max {
      result := KeepAll(lines);
      NothingIsLost(result, lines);
      WindowsHaveRoom();
      return;
    }
    var half := max / 2;
    var failIndexes := SelectFails(p, lines, half);
    fails := failIndexes;
    SelectedAreFew(p, lines, half, fails);
    var ranges := Windows(p, lines, half, failIndexes);
    SortKeeps(ranges);
    var sorted := SortByStart(ranges);
    RangesArePlain(ranges, sorted, half, |lines|);
    var merged := MergeRanges(sorted);
    MergesMeans(merged, sorted);
    SortedLayout(ranges, half, |lines|, sorted, merged);
    result := Assemble(lines, merged);
    CoveredIsComplete(p, lines, half, fails, ranges, sorted, merged, Positions(result));
  }

  lemma WindowsHaveRoom()
    ensures 0 <= (FAIL_WINDOW_MAX_LINES_BEFORE + FAIL_WINDOW_LINES_AFTER + 1) * MAX_FAIL_WINDOWS
  {
  }

  lemma SelectedAreFew(p: Patterns, lines: seq<string>, half: nat, fails: seq<int>)
    requires IsSelection(p, lines, half, |lines| - half, fails)
    ensures forall f :: f in fails ==> 0 <= f < |lines|
    ensures (FAIL_WINDOW_MAX_LINES_BEFORE + FAIL_WINDOW_LINES_AFTER + 1) * |fails|
         <= (FAIL_WINDOW_MAX_LINES_BEFORE + FAIL_WINDOW_LINES_AFTER + 1) * MAX_FAIL_WINDOWS
  {
    hide Selectable, InSomeWindow;
  }

  lemma RangesArePlain(ranges: seq<LineRange>, sorted: seq<LineRange>, half: nat, n: nat)
    requires AreRanges(ranges, half, n) && forall r :: r in sorted <==> r in ranges
    ensures forall r :: r in sorted ==> r.start <= r.end + 1
  {
  }

  lemma MergesMeans(merged: seq<LineRange>, ranges: seq<LineRange>)
    requires Merges(merged, ranges)
    ensures SameCover(merged, ranges) && Total(merged) <= Total(ranges)
  {
    hide SameCover, Total, Apart, MaxEnd;
  }

  lemma KeptIsCovered(p: Patterns, lines: seq<string>, half: nat, fails: seq<int>, ranges: seq<LineRange>)
    requires 2 * half <= |lines| && AreRanges(ranges, half, |lines|)
    requires forall f :: f in fails ==> HasWindow(p, lines, ranges, f)
    requires forall r :: r in ranges ==>
      r in [LineRange(0, half - 1), LineRange(|lines| - half, |lines| - 1)] || IsWindow(p, lines, fails, r)
    ensures forall k :: 0 <= k < |lines| ==>
      (Covers(ranges, k) <==> k < half || k >= |lines| - half || InWindow(p, lines, fails, k))
  {
    hide IsWindowStart;
    forall k | 0 <= k < |lines|
      ensures Covers(ranges, k) <==> k < half || k >= |lines| - half || InWindow(p, lines, fails, k)
    {
      if Covers(ranges, k) && half <= k < |lines| - half {
        var r :| r in ranges && r.start <= k <= r.end;
        var f :| f in fails && IsWindowStart(p, lines, f, r.start) && r.end == WindowEnd(|lines|, f);
        assert InWindow(p, lines, fails, k);
      }
      if InWindow(p, lines, fails, k) {
        var f, start :| f in fails && IsWindowStart(p, lines, f, start) && start <= k <= f + FAIL_WINDOW_LINES_AFTER;
        WindowIsCovered(p, lines, ranges, f, start, k);
      }
      if k < half {
        assert LineRange(0, half - 1) in ranges;
      }
      if k >= |lines| - half {
        assert LineRange(|lines| - half, |lines| - 1) in ranges;
      }
    }
  }

  lemma WindowIsCovered(p: Patterns, lines: seq<string>, ranges: seq<LineRange>, f: int, start: int, k: int)
    requires HasWindow(p, lines, ranges, f) && IsWindowStart(p, lines, f, start)
    requires start <= k <= f + FAIL_WINDOW_LINES_AFTER && k < |lines|
    ensures Covers(ranges, k)
  {
    var r :| r in ranges && IsWindowStart(p, lines, f, r.start) && r.start <= f && r.end == WindowEnd(|lines|, f);
    WindowStartIsUnique(p, lines, f, start, r.start);
  }

  lemma CoveredIsComplete(p: Patterns, lines: seq<string>, half: nat, fails: seq<int>, ranges: seq<LineRange>,
                          sorted: seq<LineRange>, merged: seq<LineRange>, kept: set<int>)
    requires 2 * half <= |lines| && AreRanges(ranges, half, |lines|)
    requires IsSelection(p, lines, half, |lines| - half, fails)
    requires forall f :: f in fails ==> HasWindow(p, lines, ranges, f)
    requires forall r :: r in ranges ==>
      r in [LineRange(0, half - 1), LineRange(|lines| - half, |lines| - 1)] || IsWindow(p, lines, fails, r)
    requires (forall r :: r in sorted <==> r in ranges) && SameCover(merged, sorted)
    requires forall x :: x in kept <==> Covers(merged, x)
    ensures forall k :: 0 <= k < |lines| ==>
      (k in kept <==> k < half || k >= |lines| - half || InWindow(p, lines, fails, k))
    ensures forall f :: f in fails ==> WindowKept(p, lines, kept, f)
    ensures forall k :: 0 <= k < |lines| && Selectable(p, lines, fails, k) ==> k in kept
  {
    hide IsWindowStart, HasWindow;
    forall f | f in fails ensures WindowKept(p, lines, kept, f) {
      WindowSurvives(p, lines, ranges, merged, kept, f);
    }
    forall k | 0 <= k < |lines| && (k < half || k >= |lines| - half) ensures k in kept {
      assert Covers(ranges, k) by {
        var r := if k < half then LineRange(0, half - 1) else LineRange(|lines| - half, |lines| - 1);
        assert r in ranges && r.start <= k <= r.end;
      }
    }
    KeptIsCovered(p, lines, half, fails, ranges);
    forall k | half <= k < |lines| - half && Selectable(p, lines, fails, k) ensures k in kept {
      assert InSomeWindow(fails, k);
      var f :| f in fails && f <= k <= f + FAIL_WINDOW_LINES_AFTER;
      assert WindowKept(p, lines, kept, f);
    }
  }
}
