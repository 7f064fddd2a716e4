/** The crash window of the development server and the restart policy built on it
    (packages/dev-server/src/crash-tracker.ts, packages/dev-server/bin/kumiko-dev.ts).
    The tracker keeps the recent crashes only; the reference definitions below look at all crashes ever
    recorded. Clock readings are integers. */
module CrashSupervisor {
  import Strings

  // ---------------------------------------------------------------- the tracker, on values

  /** `pruneBefore`: drops heads older than the cutoff and stops at the first that is not. */
  function Pruned(timestamps: seq<int>, cutoff: int): seq<int> {
    if timestamps != [] && timestamps[0] < cutoff then Pruned(timestamps[1..], cutoff) else timestamps
  }

  datatype Call = NoteCrash(now: int) | CountCrashes(now: int)

  datatype Answer = Allowed(yes: bool) | Crashes(count: nat)

  datatype Limits = Limits(maxCrashes: int, windowMs: int)

  function After(limits: Limits, timestamps: seq<int>, call: Call): seq<int> {
    Pruned(timestamps, call.now - limits.windowMs) + if call.NoteCrash? then [call.now] else []
  }

  function AnswerTo(limits: Limits, timestamps: seq<int>, call: Call): Answer {
    var kept := |After(limits, timestamps, call)|;
    if call.NoteCrash? then Allowed(kept <= limits.maxCrashes) else Crashes(kept)
  }

  function Timestamps(limits: Limits, calls: seq<Call>): seq<int> {
    if calls == [] then []
    else After(limits, Timestamps(limits, calls[..|calls| - 1]), calls[|calls| - 1])
  }

  // ---------------------------------------------------------------- the reference

  /** Every crash that was ever recorded. */
  function History(calls: seq<Call>): seq<int> {
    if calls == [] then []
    else
      History(calls[..|calls| - 1])
        + if calls[|calls| - 1].NoteCrash? then [calls[|calls| - 1].now] else []
  }

  function CountWithin(times: seq<int>, from: int, to: int): nat {
    if times == [] then 0
    else CountWithin(times[..|times| - 1], from, to) + if from <= times[|times| - 1] <= to then 1 else 0
  }

  /** What a look at the whole history before the call, and at the call, gives. */
  function ReferenceAnswer(limits: Limits, history: seq<int>, call: Call): Answer {
    var all := history + if call.NoteCrash? then [call.now] else [];
    var inWindow := CountWithin(all, call.now - limits.windowMs, call.now);
    if call.NoteCrash? then Allowed(inWindow <= limits.maxCrashes) else Crashes(inWindow)
  }

  /** Once a crash has been recorded, no reading is earlier than the one before it. */
  predicate ClockHolds(calls: seq<Call>) {
    forall k :: 0 < k < |calls| ==> Follows(calls[..k], calls[k].now)
  }

  predicate Follows(calls: seq<Call>, now: int) {
    calls != [] && History(calls) != [] ==> calls[|calls| - 1].now <= now
  }

  /** After these calls, the window gives the next one the answer of the whole history. */
  predicate IsRight(limits: Limits, calls: seq<Call>, next: Call) {
    AnswerTo(limits, Timestamps(limits, calls), next) == ReferenceAnswer(limits, History(calls), next)
  }

  predicate AlwaysRight(limits: Limits, calls: seq<Call>) {
    forall n :: 0 <= n < |calls| ==> IsRight(limits, calls[..n], calls[n])
  }

  // ---------------------------------------------------------------- the window refines the history

  ghost predicate AllWithin(times: seq<int>, from: int, to: int) {
    forall i :: 0 <= i < |times| ==> from <= times[i] <= to
  }

  ghost predicate NoneWithin(times: seq<int>, from: int, to: int) {
    forall i :: 0 <= i < |times| ==> !(from <= times[i] <= to)
  }

  lemma {:induction false} CountSplits(a: seq<int>, b: seq<int>, from: int, to: int)
    ensures CountWithin(a + b, from, to) == CountWithin(a, from, to) + CountWithin(b, from, to)
  {
    if b == [] {
      assert a + b == a;
    } else {
      assert (a + b)[..|a + b| - 1] == a + b[..|b| - 1];
      CountSplits(a, b[..|b| - 1], from, to);
    }
  }

  lemma {:induction false} CountAllOrNone(times: seq<int>, from: int, to: int)
    ensures AllWithin(times, from, to) ==> CountWithin(times, from, to) == |times|
    ensures NoneWithin(times, from, to) ==> CountWithin(times, from, to) == 0
  {
    if times != [] {
      CountAllOrNone(times[..|times| - 1], from, to);
    }
  }

  predicate Sorted(times: seq<int>) {
    forall i, j :: 0 <= i < j < |times| ==> times[i] <= times[j]
  }

  /** `kept` is the end of the ascending history, what comes before it is older than the cutoff, and
      nothing is later than `now`. */
  ghost predicate IsRecentPart(kept: seq<int>, history: seq<int>, cutoff: int, now: int) {
    && Sorted(history)
    && (forall i :: 0 <= i < |history| ==> history[i] <= now)
    && |kept| <= |history|
    && kept == history[|history| - |kept|..]
    && (forall i :: 0 <= i < |history| - |kept| ==> history[i] < cutoff)
  }

  lemma {:induction false} PruningIsExact(kept: seq<int>, history: seq<int>, cutoff: int, now: int)
    requires IsRecentPart(kept, history, cutoff, now)
    ensures IsRecentPart(Pruned(kept, cutoff), history, cutoff, now)
    ensures AllWithin(Pruned(kept, cutoff), cutoff, now)
  {
    if kept != [] {
      assert kept[0] == history[|history| - |kept|];
      if kept[0] < cutoff {
        PruningIsExact(kept[1..], history, cutoff, now);
      } else {
        assert forall i :: 0 <= i < |kept| ==> kept[i] == history[|history| - |kept| + i];
      }
    }
  }

  lemma NotedIsRecent(kept: seq<int>, history: seq<int>, cutoff: int, now: int)
    requires IsRecentPart(kept, history, cutoff, now) && cutoff <= now && AllWithin(kept, cutoff, now)
    ensures IsRecentPart(kept + [now], history + [now], cutoff, now)
    ensures AllWithin(kept + [now], cutoff, now)
  {
  }

  lemma LaterCutoff(kept: seq<int>, history: seq<int>, cutoff: int, now: int, newCutoff: int, newNow: int)
    requires IsRecentPart(kept, history, cutoff, now) && cutoff <= newCutoff && now <= newNow
    ensures IsRecentPart(kept, history, newCutoff, newNow)
  {
  }

  lemma {:induction false} NothingNoted(limits: Limits, calls: seq<Call>)
    requires History(calls) == []
    ensures Timestamps(limits, calls) == []
  {
    if calls != [] {
      NothingNoted(limits, calls[..|calls| - 1]);
    }
  }

  /** What the last call leaves on the tracker and in the history. */
  lemma LastCall(limits: Limits, calls: seq<Call>)
    requires calls != []
    ensures var before, call := calls[..|calls| - 1], calls[|calls| - 1];
      var kept := Pruned(Timestamps(limits, before), call.now - limits.windowMs);
      && before + [call] == calls
      && Timestamps(limits, calls) == (if call.NoteCrash? then kept + [call.now] else kept)
      && History(calls) == if call.NoteCrash? then History(before) + [call.now] else History(before)
  {
    hide Pruned;
    var before, call := calls[..|calls| - 1], calls[|calls| - 1];
    var kept := Pruned(Timestamps(limits, before), call.now - limits.windowMs);
    assert kept + [] == kept && History(before) + [] == History(before);
  }

  lemma NothingIsRecent(cutoff: int, now: int)
    ensures IsRecentPart([], [], cutoff, now)
  {
  }

  /** Pruning for the next call, and recording it, keeps the recent part of the history. */
  lemma OneMoreCall(kept: seq<int>, history: seq<int>, cutoff: int, now: int)
    requires IsRecentPart(kept, history, cutoff, now) && cutoff <= now
    ensures var left := Pruned(kept, cutoff);
      && IsRecentPart(left, history, cutoff, now) && AllWithin(left, cutoff, now)
      && IsRecentPart(left + [now], history + [now], cutoff, now) && AllWithin(left + [now], cutoff, now)
  {
    hide *;
    PruningIsExact(kept, history, cutoff, now);
    NotedIsRecent(Pruned(kept, cutoff), history, cutoff, now);
  }

  /** Before the next call is noted, the tracker holds the recent part of the history. */
  lemma {:induction false} BeforeNextCall(limits: Limits, calls: seq<Call>, next: Call)
    requires ClockHolds(calls) && Follows(calls, next.now) && limits.windowMs >= 0
    ensures IsRecentPart(Timestamps(limits, calls), History(calls), next.now - limits.windowMs, next.now)
    decreases |calls|, 1
  {
    var history, kept := History(calls), Timestamps(limits, calls);
    NoCallsNoHistory(calls);
    hide IsRecentPart, AllWithin, ClockHolds, History, Timestamps;
    if history == [] {
      NothingNoted(limits, calls);
      NothingIsRecent(next.now - limits.windowMs, next.now);
    } else {
      var last := calls[|calls| - 1].now;
      WindowIsRecentPart(limits, calls);
      LaterCutoff(kept, history, last - limits.windowMs, last, next.now - limits.windowMs, next.now);
    }
  }

  lemma {:induction false} WindowIsRecentPart(limits: Limits, calls: seq<Call>)
    requires calls != [] && ClockHolds(calls) && limits.windowMs >= 0
    ensures var now := calls[|calls| - 1].now;
      && IsRecentPart(Timestamps(limits, calls), History(calls), now - limits.windowMs, now)
      && AllWithin(Timestamps(limits, calls), now - limits.windowMs, now)
    decreases |calls|, 0
  {
    hide *;
    var before, call := calls[..|calls| - 1], calls[|calls| - 1];
    LastCall(limits, calls);
    Appended(before, call);
    BeforeNextCall(limits, before, call);
    OneMoreCall(Timestamps(limits, before), History(before), call.now - limits.windowMs, call.now);
  }

  lemma NoCallsNoHistory(calls: seq<Call>)
    ensures History(calls) != [] ==> calls != []
  {
  }

  lemma RecentPartCounts(kept: seq<int>, history: seq<int>, cutoff: int, now: int)
    requires IsRecentPart(kept, history, cutoff, now) && AllWithin(kept, cutoff, now)
    ensures CountWithin(history, cutoff, now) == |kept|
  {
    var older := history[..|history| - |kept|];
    assert history == older + kept;
    assert NoneWithin(older, cutoff, now);
    CountSplits(older, kept, cutoff, now);
    CountAllOrNone(older, cutoff, now);
    CountAllOrNone(kept, cutoff, now);
  }

  /** Whatever was asked before, the answer is the one the whole history gives. */
  lemma WindowRefinesHistory(limits: Limits, calls: seq<Call>, next: Call)
    requires ClockHolds(calls) && Follows(calls, next.now) && limits.windowMs >= 0
    ensures IsRight(limits, calls, next)
  {
    hide IsRecentPart, AllWithin, CountWithin, ClockHolds, Pruned, Timestamps, History, AnswerTo, ReferenceAnswer;
    BeforeNextCall(limits, calls, next);
    AnswersAgree(limits, Timestamps(limits, calls), History(calls), next);
  }

  lemma AnswersAgree(limits: Limits, kept: seq<int>, history: seq<int>, next: Call)
    requires IsRecentPart(kept, history, next.now - limits.windowMs, next.now) && limits.windowMs >= 0
    ensures AnswerTo(limits, kept, next) == ReferenceAnswer(limits, history, next)
  {
    var cutoff := next.now - limits.windowMs;
    var left := Pruned(kept, cutoff);
    hide IsRecentPart, AllWithin, CountWithin, Pruned;
    OneMoreCall(kept, history, cutoff, next.now);
    RecentPartCounts(left + [next.now], history + [next.now], cutoff, next.now);
    RecentPartCounts(left, history, cutoff, next.now);
    assert left + [] == left && history + [] == history;
  }

  lemma Appended(calls: seq<Call>, next: Call)
    ensures ClockHolds(calls + [next]) <==> ClockHolds(calls) && Follows(calls, next.now)
    ensures History(calls + [next]) == History(calls) + if next.NoteCrash? then [next.now] else []
  {
    hide Follows;
    var all := calls + [next];
    assert all[..|calls|] == calls;
    assert forall k :: 0 < k < |calls| ==> all[..k] == calls[..k] && all[k] == calls[k];
    if ClockHolds(all) && calls != [] {
      assert Follows(all[..|calls|], all[|calls|].now);
    }
    if calls == [] {
      assert Follows([], next.now) by { FollowsNothing(next.now); }
    }
  }

  lemma FollowsNothing(now: int)
    ensures Follows([], now)
  {
  }

  lemma Advanced(limits: Limits, calls: seq<Call>, next: Call)
    ensures Timestamps(limits, calls + [next]) == After(limits, Timestamps(limits, calls), next)
  {
    assert (calls + [next])[..|calls + [next]| - 1] == calls;
  }

  // ---------------------------------------------------------------- exactly when it does

  lemma {:induction false} CountAtMost(times: seq<int>, from: int, to: int)
    ensures CountWithin(times, from, to) <= |times|
    ensures times != [] && times[|times| - 1] > to ==> CountWithin(times, from, to) < |times|
  {
    if times != [] {
      CountAtMost(times[..|times| - 1], from, to);
    }
  }

  /** A first reading that goes back, after a crash. */
  lemma {:induction false} FirstSetBack(calls: seq<Call>) returns (k: nat)
    requires !ClockHolds(calls)
    ensures 0 < k < |calls| && ClockHolds(calls[..k]) && !Follows(calls[..k], calls[k].now)
  {
    SomeCall(calls);
    hide *;
    var before, last := calls[..|calls| - 1], calls[|calls| - 1];
    assert before + [last] == calls;
    Appended(before, last);
    if ClockHolds(before) {
      k := |calls| - 1;
      if k == 0 {
        FollowsNothing(last.now);
      }
    } else {
      k := FirstSetBack(before);
      PartOfPart(calls, k);
    }
  }

  lemma PartOfPart(calls: seq<Call>, k: nat)
    requires k < |calls| - 1
    ensures calls[..|calls| - 1][..k] == calls[..k] && calls[..|calls| - 1][k] == calls[k]
  {
  }

  lemma SomeCall(calls: seq<Call>)
    requires !ClockHolds(calls)
    ensures calls != []
  {
  }

  /** With limits that fit, the first reading that goes back after a crash is answered wrongly: a crash
      later than the reading is counted although it is outside the window, or the first crash is
      forgotten although it is inside. */
  lemma SetBackShows(calls: seq<Call>, next: Call) returns (limits: Limits)
    requires ClockHolds(calls) && !Follows(calls, next.now)
    ensures limits.windowMs >= 0 && !IsRight(limits, calls, next)
  {
    var history, reading := History(calls), calls[|calls| - 1].now;
    limits := ShowingLimits(history, reading, next.now);
    HistoryIsSorted(calls);
    WindowIsRecentPart(limits, calls);
    hide ClockHolds, Timestamps, History, AnswerTo, ReferenceAnswer, Sorted, IsRecentPart, AllWithin, ShowingLimits;
    WrongAnswer(Timestamps(limits, calls), history, reading, next);
  }

  /** A window that reaches back from the reading to the first crash, if a crash is later than the
      clock set back, and from there to the first crash otherwise. */
  function ShowingLimits(history: seq<int>, reading: int, now: int): Limits
    requires history != []
  {
    Limits(|history|, if history[|history| - 1] > now then reading - history[0] else now - history[0])
  }

  lemma WrongAnswer(kept: seq<int>, history: seq<int>, reading: int, next: Call)
    requires history != [] && Sorted(history) && history[0] <= history[|history| - 1] <= reading && next.now < reading
    requires var cutoff := reading - ShowingLimits(history, reading, next.now).windowMs;
      IsRecentPart(kept, history, cutoff, reading) && AllWithin(kept, cutoff, reading)
    ensures var limits := ShowingLimits(history, reading, next.now);
      AnswerTo(limits, kept, next) != ReferenceAnswer(limits, history, next)
  {
    var limits := ShowingLimits(history, reading, next.now);
    hide AnswerTo, ReferenceAnswer, Sorted, IsRecentPart, AllWithin;
    if history[|history| - 1] > next.now {
      NothingPruned(kept, history, reading - limits.windowMs, reading, next.now - limits.windowMs);
      LateCrashCounts(history, reading, next);
    } else {
      FirstIsLost(kept, history, reading - limits.windowMs, reading);
      EarlyCrashIsLost(kept, history, next);
    }
  }

  lemma HistoryIsSorted(calls: seq<Call>)
    requires ClockHolds(calls) && calls != [] && History(calls) != []
    ensures var history, last := History(calls), calls[|calls| - 1].now;
      && Sorted(history) && history[0] <= history[|history| - 1] <= last
  {
    hide *;
    var limits, now := Limits(0, 0), calls[|calls| - 1].now;
    WindowIsRecentPart(limits, calls);
    RecentIsSorted(Timestamps(limits, calls), History(calls), now, now);
  }

  lemma RecentIsSorted(kept: seq<int>, history: seq<int>, cutoff: int, now: int)
    requires IsRecentPart(kept, history, cutoff, now) && history != []
    ensures Sorted(history) && history[0] <= history[|history| - 1] <= now
  {
  }

  lemma LateCrashCounts(history: seq<int>, reading: int, next: Call)
    requires history != [] && next.now < history[|history| - 1] <= reading && history[0] <= reading
    requires var limits := Limits(|history|, reading - history[0]);
      Pruned(history, next.now - limits.windowMs) == history
    ensures var limits := Limits(|history|, reading - history[0]);
      AnswerTo(limits, history, next) != ReferenceAnswer(limits, history, next)
  {
    var from := next.now - (reading - history[0]);
    CountAtMost(history, from, next.now);
    CountedLate(history, next.now, from);
    hide CountWithin, Pruned;
    assert history + [] == history;
  }

  lemma EarlyCrashIsLost(kept: seq<int>, history: seq<int>, next: Call)
    requires |kept| < |history| && Sorted(history) && history[|history| - 1] <= next.now
    ensures var limits := Limits(|history|, next.now - history[0]);
      AnswerTo(limits, kept, next) != ReferenceAnswer(limits, history, next)
  {
    PrunedAtMost(kept, history[0]);
    assert AllWithin(history, history[0], next.now);
    CountAllOrNone(history, history[0], next.now);
    CountedLate(history, next.now, history[0]);
    hide CountWithin, Pruned, Sorted, AllWithin;
    assert next.now - (next.now - history[0]) == history[0];
    assert history + [] == history;
  }

  lemma CountedLate(times: seq<int>, now: int, from: int)
    ensures CountWithin(times + [now], from, now) == CountWithin(times, from, now) + if from <= now then 1 else 0
  {
    assert (times + [now])[..|times|] == times;
  }

  lemma NothingPruned(kept: seq<int>, history: seq<int>, cutoff: int, now: int, newCutoff: int)
    requires IsRecentPart(kept, history, cutoff, now) && history != []
    requires cutoff <= history[0] && newCutoff <= history[0]
    ensures kept == history && Pruned(history, newCutoff) == history
  {
    hide Sorted;
    assert |kept| == |history|;
    assert history[0..] == history;
  }

  lemma FirstIsLost(kept: seq<int>, history: seq<int>, cutoff: int, now: int)
    requires IsRecentPart(kept, history, cutoff, now) && AllWithin(kept, cutoff, now)
    requires history != [] && history[0] < cutoff
    ensures |kept| < |history|
  {
    hide Sorted;
    assert kept != [] ==> kept[0] == history[|history| - |kept|];
  }

  lemma {:induction false} PrunedAtMost(kept: seq<int>, cutoff: int)
    ensures |Pruned(kept, cutoff)| <= |kept|
  {
    if kept != [] && kept[0] < cutoff {
      PrunedAtMost(kept[1..], cutoff);
    }
  }

  lemma HeldSoFar(calls: seq<Call>, n: nat)
    requires ClockHolds(calls) && n < |calls|
    ensures ClockHolds(calls[..n]) && Follows(calls[..n], calls[n].now)
  {
    hide Follows;
    assert forall k :: 0 < k < n ==> calls[..n][..k] == calls[..k];
    if n == 0 {
      FollowsNothing(calls[n].now);
    }
  }

  /** For a sequence of calls the window gives all the right answers, whatever its limits, exactly when
      the clock never goes back from the first crash on. */
  lemma RightIffClockHolds(calls: seq<Call>)
    ensures (forall limits: Limits :: limits.windowMs >= 0 ==> AlwaysRight(limits, calls)) <==> ClockHolds(calls)
  {
    hide ClockHolds, IsRight;
    if ClockHolds(calls) {
      forall limits: Limits, n | limits.windowMs >= 0 && 0 <= n < |calls| ensures IsRight(limits, calls[..n], calls[n]) {
        HeldSoFar(calls, n);
        WindowRefinesHistory(limits, calls[..n], calls[n]);
      }
    } else {
      var k := FirstSetBack(calls);
      var limits := SetBackShows(calls[..k], calls[k]);
      assert !AlwaysRight(limits, calls);
    }
  }

  lemma CountPrunes(limits: Limits)
    requires limits == Limits(1, 10)
    ensures Timestamps(limits, [NoteCrash(5)] + [CountCrashes(100)]) == []
    ensures History([NoteCrash(5)] + [CountCrashes(100)]) == [5]
  {
    var one, count := NoteCrash(5), CountCrashes(100);
    LastCall(limits, [one]);
    LastCall(limits, [one] + [count]);
    assert [one][..0] == [] && ([one] + [count])[..1] == [one];
    hide Timestamps, History;
    assert Timestamps(limits, []) == [] && History([]) == [] by { NothingCalled(limits); }
    assert [] + [5] == [5];
  }

  lemma NothingCalled(limits: Limits)
    ensures Timestamps(limits, []) == [] && History([]) == []
  {
  }

  /** A crash at 5, a look at 100, and a crash at 7 after the clock was set back: the window of 10 has
      forgotten the first crash and allows the second, though both lie in it. */
  lemma ClockSetBackForgets(limits: Limits)
    requires limits == Limits(1, 10)
    ensures var calls := [NoteCrash(5)] + [CountCrashes(100)];
      && AnswerTo(limits, Timestamps(limits, calls), NoteCrash(7)) == Allowed(true)
      && ReferenceAnswer(limits, History(calls), NoteCrash(7)) == Allowed(false)
  {
    CountPrunes(limits);
    hide Timestamps, History;
    assert [5] + [7] == [5, 7] && [5, 7][..1] == [5] && [5][..0] == [];
    assert CountWithin([5], -3, 7) == 1 && CountWithin([5, 7], -3, 7) == 2;
    assert Pruned([], -3) + [7] == [7];
  }

  // ---------------------------------------------------------------- count queries

  function OnlyCrashes(calls: seq<Call>): seq<Call> {
    if calls == [] then []
    else
      OnlyCrashes(calls[..|calls| - 1])
        + if calls[|calls| - 1].NoteCrash? then [calls[|calls| - 1]] else []
  }

  lemma {:induction false} OnlyCrashesKeeps(calls: seq<Call>)
    requires ClockHolds(calls)
    ensures History(OnlyCrashes(calls)) == History(calls) && ClockHolds(OnlyCrashes(calls))
    ensures forall now :: Follows(calls, now) ==> Follows(OnlyCrashes(calls), now)
  {
    if calls != [] {
      var before, call := calls[..|calls| - 1], calls[|calls| - 1];
      assert before + [call] == calls;
      Appended(before, call);
      Appended(OnlyCrashes(before), call);
      NoCallsNoHistory(OnlyCrashes(before));
      NoCallsNoHistory(before);
      hide ClockHolds, History;
      OnlyCrashesKeeps(before);
      if call.NoteCrash? {
        assert OnlyCrashes(calls) == OnlyCrashes(before) + [call];
      } else {
        assert OnlyCrashes(calls) == OnlyCrashes(before);
        assert History(calls) == History(before);
      }
    }
  }

  /** Leaving out the earlier count queries changes no answer. */
  lemma CountQueriesChangeNothing(limits: Limits, calls: seq<Call>, next: Call)
    requires ClockHolds(calls + [next]) && limits.windowMs >= 0
    ensures AnswerTo(limits, Timestamps(limits, calls), next)
         == AnswerTo(limits, Timestamps(limits, OnlyCrashes(calls)), next)
  {
    hide ClockHolds, History, AnswerTo, ReferenceAnswer, OnlyCrashes, Timestamps, Follows;
    Appended(calls, next);
    OnlyCrashesKeeps(calls);
    WindowRefinesHistory(limits, calls, next);
    WindowRefinesHistory(limits, OnlyCrashes(calls), next);
  }

  class CrashTracker {
    const limits: Limits
    var timestamps: seq<int>

    constructor (options: Limits)
      ensures limits == options && timestamps == Timestamps(options, [])
    {
      limits, timestamps := options, [];
    }

    method PruneBefore(cutoff: int)
      modifies this`timestamps
      ensures timestamps == Pruned(old(timestamps), cutoff)
    {
      while timestamps != [] && timestamps[0] < cutoff
        invariant Pruned(timestamps, cutoff) == Pruned(old(timestamps), cutoff)
        decreases |timestamps|
      {
        timestamps := timestamps[1..];
      }
    }

    /** Also for a tracker that has already refused: the crash is recorded in any case. */
    method NoteCrash(now: int) returns (allowed: bool)
      modifies this`timestamps
      ensures timestamps == After(limits, old(timestamps), Call.NoteCrash(now))
      ensures Allowed(allowed) == AnswerTo(limits, old(timestamps), Call.NoteCrash(now))
    {
      PruneBefore(now - limits.windowMs);
      timestamps := timestamps + [now];
      allowed := |timestamps| <= limits.maxCrashes;
    }

    method CrashCountInWindow(now: int) returns (count: nat)
      modifies this`timestamps
      ensures timestamps == After(limits, old(timestamps), CountCrashes(now))
      ensures Crashes(count) == AnswerTo(limits, old(timestamps), CountCrashes(now))
    {
      PruneBefore(now - limits.windowMs);
      assert timestamps + [] == timestamps;
      count := |timestamps|;
    }
  }

  // ---------------------------------------------------------------- the restart policy

  const SCHEMA_RESTART_EXIT_CODE := 75
  const MAX_CRASHES := 5
  const CRASH_WINDOW_MS := 10000

  const LIMITS := Limits(MAX_CRASHES, CRASH_WINDOW_MS)

  /** How the server ended: killed by a signal, or with an exit code. */
  datatype Ending = Signalled | Code(code: int)

  datatype Event = ServerExits(how: Ending, now: int) | BackoffElapses

  datatype Phase = Running | BackingOff | Stopped(code: int)

  datatype Wrapper = Wrapper(timestamps: seq<int>, phase: Phase, spawned: nat)

  const START := Wrapper([], Running, 1)

  predicate IsCrash(event: Event) {
    event.ServerExits? && event.how.Code? && event.how.code !in {0, SCHEMA_RESTART_EXIT_CODE}
  }

  predicate Enabled(w: Wrapper, event: Event) {
    match event
    case ServerExits(_, _) => w.phase.Running?
    case BackoffElapses => w.phase.BackingOff?
  }

  /** After an allowed crash the wrapper also asks for the count, to print it. */
  function Apply(w: Wrapper, event: Event): Wrapper {
    match event
    case BackoffElapses => w.(phase := Running, spawned := w.spawned + 1)
    case ServerExits(Signalled, _) => w.(phase := Stopped(0))
    case ServerExits(Code(code), now) =>
      if code == SCHEMA_RESTART_EXIT_CODE then w.(spawned := w.spawned + 1)
      else if code == 0 then w.(phase := Stopped(0))
      else
        var noted := After(LIMITS, w.timestamps, NoteCrash(now));
        if AnswerTo(LIMITS, w.timestamps, NoteCrash(now)) == Allowed(true) then
          Wrapper(After(LIMITS, noted, CountCrashes(now)), BackingOff, w.spawned)
        else w.(timestamps := noted, phase := Stopped(code))
  }

  function Run(events: seq<Event>): Wrapper {
    if events == [] then START else Apply(Run(events[..|events| - 1]), events[|events| - 1])
  }

  predicate IsRun(events: seq<Event>) {
    events != [] ==> IsRun(events[..|events| - 1]) && Enabled(Run(events[..|events| - 1]), events[|events| - 1])
  }

  /** When the server crashed, the only times at which the wrapper reads the clock: exits by signal, with
      code 0 and with the restart code are no crashes. */
  function CrashTimes(events: seq<Event>): seq<int> {
    if events == [] then []
    else
      CrashTimes(events[..|events| - 1])
        + if IsCrash(events[|events| - 1]) then [events[|events| - 1].now] else []
  }

  /** The calls a run makes on the tracker. */
  ghost function CallsOf(events: seq<Event>): seq<Call> {
    if events == [] then []
    else
      var before, event := events[..|events| - 1], events[|events| - 1];
      CallsOf(before)
        + if !IsCrash(event) then []
          else if Run(events).phase == BackingOff then [NoteCrash(event.now)] + [CountCrashes(event.now)]
          else [NoteCrash(event.now)]
  }

  lemma NotedCalls(calls: seq<Call>, now: int)
    requires ClockHolds(calls) && Follows(calls, now)
    ensures var noted := calls + [NoteCrash(now)];
      && ClockHolds(noted) && History(noted) == History(calls) + [now]
      && Timestamps(LIMITS, noted) == After(LIMITS, Timestamps(LIMITS, calls), NoteCrash(now))
    ensures var counted := calls + ([NoteCrash(now)] + [CountCrashes(now)]);
      && ClockHolds(counted) && History(counted) == History(calls) + [now]
      && Timestamps(LIMITS, counted)
           == After(LIMITS, After(LIMITS, Timestamps(LIMITS, calls), NoteCrash(now)), CountCrashes(now))
  {
    var note, count := NoteCrash(now), CountCrashes(now);
    Appended(calls, note);
    Appended(calls + [note], count);
    Advanced(LIMITS, calls, note);
    Advanced(LIMITS, calls + [note], count);
    assert Follows(calls + [note], now);
    Strings.AppendAssociates(calls, [note], [count]);
    hide *;
    assert History(calls) + [now] + [] == History(calls) + [now];
  }

  /** What the last event adds to the calls, and what it leaves on the tracker. */
  lemma LastCalls(events: seq<Event>)
    requires events != []
    ensures var before, event := events[..|events| - 1], events[|events| - 1];
      var w := Run(before);
      if !IsCrash(event) then
        && CallsOf(events) == CallsOf(before) && CrashTimes(events) == CrashTimes(before)
        && Run(events).timestamps == w.timestamps
      else
        var note, count := NoteCrash(event.now), CountCrashes(event.now);
        && CrashTimes(events) == CrashTimes(before) + [event.now]
        && var noted := After(LIMITS, w.timestamps, note);
           if Run(events).phase == BackingOff && w.phase == Running then
             && CallsOf(events) == CallsOf(before) + ([note] + [count])
             && Run(events).timestamps == After(LIMITS, noted, count)
           else w.phase == Running ==>
             CallsOf(events) == CallsOf(before) + [note] && Run(events).timestamps == noted
  {
    hide After, AnswerTo;
    var before := events[..|events| - 1];
    assert CallsOf(before) + [] == CallsOf(before) && CrashTimes(before) + [] == CrashTimes(before);
  }

  /** The last reading is the last crash. */
  predicate EndTogether(calls: seq<Call>, times: seq<int>) {
    && (calls == [] <==> times == [])
    && (calls != [] && times != [] ==> calls[|calls| - 1].now == times[|times| - 1])
  }

  /** What a run keeps: its calls, and nothing else, led to the timestamps. */
  predicate Driven(calls: seq<Call>, times: seq<int>, timestamps: seq<int>) {
    && Timestamps(LIMITS, calls) == timestamps && History(calls) == times
    && ClockHolds(calls) && EndTogether(calls, times)
  }

  lemma DrivenByCrash(calls: seq<Call>, times: seq<int>, timestamps: seq<int>, now: int)
    requires Driven(calls, times, timestamps) && Sorted(times + [now])
    ensures var noted := After(LIMITS, timestamps, NoteCrash(now));
      && Driven(calls + [NoteCrash(now)], times + [now], noted)
      && Driven(calls + ([NoteCrash(now)] + [CountCrashes(now)]), times + [now], After(LIMITS, noted, CountCrashes(now)))
  {
    hide After, ClockHolds, History, Timestamps, Follows, Sorted;
    SortedInit(times, now);
    LastReading(calls, times, now);
    NotedCalls(calls, now);
  }

  lemma RunBefore(events: seq<Event>)
    requires IsRun(events) && events != []
    ensures var before, event := events[..|events| - 1], events[|events| - 1];
      IsRun(before) && (IsCrash(event) ==> Run(before).phase == Running)
  {
    hide Run;
  }

  lemma {:induction false} CallsDriveTracker(events: seq<Event>)
    requires IsRun(events) && Sorted(CrashTimes(events))
    ensures Driven(CallsOf(events), CrashTimes(events), Run(events).timestamps)
  {
    if events != [] {
      var before, event := events[..|events| - 1], events[|events| - 1];
      RunBefore(events);
      LastCalls(events);
      hide *;
      if IsCrash(event) {
        SortedInit(CrashTimes(before), event.now);
        CallsDriveTracker(before);
        DrivenByCrash(CallsOf(before), CrashTimes(before), Run(before).timestamps, event.now);
      } else {
        CallsDriveTracker(before);
      }
    }
  }

  lemma SortedInit(times: seq<int>, now: int)
    requires Sorted(times + [now])
    ensures Sorted(times) && forall i :: 0 <= i < |times| ==> times[i] <= now
  {
    assert forall i :: 0 <= i < |times| ==> times[i] == (times + [now])[i];
    assert forall i :: 0 <= i < |times| ==> (times + [now])[i] <= (times + [now])[|times|];
  }

  /** An exit by signal or with code 0 ends the wrapper with 0; after an end nothing happens any more. */
  lemma EndsWithZero(events: seq<Event>, now: int)
    requires IsRun(events) && Run(events).phase == Running
    ensures Run(events + [ServerExits(Signalled, now)]).phase == Stopped(0)
    ensures Run(events + [ServerExits(Code(0), now)]).phase == Stopped(0)
    ensures forall e, how: Ending :: how in {Signalled, Code(0)} ==> !IsRun(events + [ServerExits(how, now)] + [e])
  {
    forall how: Ending | how in {Signalled, Code(0)}
      ensures Run(events + [ServerExits(how, now)]).phase == Stopped(0)
      ensures forall e :: !IsRun(events + [ServerExits(how, now)] + [e])
    {
      OneMoreEvent(events, ServerExits(how, now));
      forall e ensures !IsRun(events + [ServerExits(how, now)] + [e]) {
        OneMoreEvent(events + [ServerExits(how, now)], e);
      }
    }
  }

  /** The server is spawned once at the start, once for each restart and once after each backoff. */
  lemma {:induction false} SpawnsAreCounted(events: seq<Event>)
    requires IsRun(events)
    ensures Run(events).spawned == 1 + SpawnCount(events)
  {
    if events != [] {
      SpawnsAreCounted(events[..|events| - 1]);
      hide After, AnswerTo;
    }
  }

  function SpawnCount(events: seq<Event>): nat {
    if events == [] then 0
    else
      var last := events[|events| - 1];
      SpawnCount(events[..|events| - 1])
        + if last.BackoffElapses? || (last.how.Code? && last.how.code == SCHEMA_RESTART_EXIT_CODE) then 1 else 0
  }

  /** A crash is answered by a respawn exactly when at most MAX_CRASHES crashes of the whole run, this
      one included, lie in its window; otherwise the wrapper ends with the server's own exit code. */
  lemma GivesUpExactly(events: seq<Event>, code: int, now: int)
    requires var all := events + [ServerExits(Code(code), now)]; IsRun(all) && Sorted(CrashTimes(all))
    requires IsCrash(ServerExits(Code(code), now))
    ensures var all := events + [ServerExits(Code(code), now)];
      Run(all).phase ==
        if CountWithin(CrashTimes(all), now - CRASH_WINDOW_MS, now) <= MAX_CRASHES then BackingOff else Stopped(code)
  {
    hide *;
    var crash := ServerExits(Code(code), now);
    OneMoreEvent(events, crash);
    var w, calls := Run(events), CallsOf(events);
    SortedInit(CrashTimes(events), now);
    CallsDriveTracker(events);
    DrivenMeans(events);
    LastReading(calls, CrashTimes(events), now);
    WindowRefinesHistory(LIMITS, calls, NoteCrash(now)) by { assert LIMITS.windowMs >= 0 by { LimitsAre(); } }
    RightNote(LIMITS, calls, now);
    LimitsAre();
    CrashApplied(w, code, now);
  }

  lemma DrivenMeans(events: seq<Event>)
    requires Driven(CallsOf(events), CrashTimes(events), Run(events).timestamps)
    ensures Timestamps(LIMITS, CallsOf(events)) == Run(events).timestamps
    ensures History(CallsOf(events)) == CrashTimes(events)
    ensures ClockHolds(CallsOf(events)) && EndTogether(CallsOf(events), CrashTimes(events))
  {
    hide CallsOf, CrashTimes, Run, History, Timestamps, ClockHolds, EndTogether;
  }

  lemma LimitsAre()
    ensures LIMITS == Limits(MAX_CRASHES, CRASH_WINDOW_MS) && CRASH_WINDOW_MS >= 0
  {
  }

  /** One more event of a run. */
  lemma OneMoreEvent(events: seq<Event>, event: Event)
    ensures Run(events + [event]) == Apply(Run(events), event)
    ensures IsRun(events + [event]) <==> IsRun(events) && Enabled(Run(events), event)
    ensures CrashTimes(events + [event])
         == if IsCrash(event) then CrashTimes(events) + [event.now] else CrashTimes(events)
  {
    hide Apply, Enabled, IsCrash;
    var all := events + [event];
    assert all[..|all| - 1] == events;
    assert CrashTimes(events) + [] == CrashTimes(events);
  }

  lemma LastReading(calls: seq<Call>, times: seq<int>, now: int)
    requires EndTogether(calls, times) && forall i :: 0 <= i < |times| ==> times[i] <= now
    ensures Follows(calls, now)
  {
    hide History;
  }

  lemma RightNote(limits: Limits, calls: seq<Call>, now: int)
    requires IsRight(limits, calls, NoteCrash(now))
    ensures AnswerTo(limits, Timestamps(limits, calls), NoteCrash(now))
         == Allowed(CountWithin(History(calls) + [now], now - limits.windowMs, now) <= limits.maxCrashes)
  {
    hide AnswerTo, CountWithin, History, Timestamps;
  }

  lemma CrashApplied(w: Wrapper, code: int, now: int)
    requires IsCrash(ServerExits(Code(code), now))
    ensures Apply(w, ServerExits(Code(code), now)).phase ==
      if AnswerTo(LIMITS, w.timestamps, NoteCrash(now)) == Allowed(true) then BackingOff else Stopped(code)
  {
    hide After, AnswerTo;
  }

  lemma {:induction false} CountIsMonotone(times: seq<int>, from: int, to: int, wideFrom: int, wideTo: int)
    requires wideFrom <= from && to <= wideTo
    ensures CountWithin(times, from, to) <= CountWithin(times, wideFrom, wideTo)
  {
    if times != [] {
      CountIsMonotone(times[..|times| - 1], from, to, wideFrom, wideTo);
    }
  }

  predicate GaveUp(w: Wrapper) {
    w.phase.Stopped? && w.phase.code != 0
  }

  lemma NoneGaveUpBefore(events: seq<Event>)
    requires IsRun(events) && events != []
    ensures var before, event := events[..|events| - 1], events[|events| - 1];
      && IsRun(before) && !GaveUp(Run(before)) && before + [event] == events
      && (GaveUp(Run(events)) ==> IsCrash(event))
      && (IsCrash(event) ==>
            && before + [ServerExits(Code(event.how.code), event.now)] == events
            && event.how.code != 0 && event.how.code != SCHEMA_RESTART_EXIT_CODE)
  {
    hide After, AnswerTo;
  }

  /** Never more than MAX_CRASHES crashes of ten seconds, wherever these begin, are answered by a
      respawn, and the wrapper has given up exactly when the last crash was one too many. */
  lemma {:induction false} RespawnsAreLimited(events: seq<Event>, from: int)
    requires IsRun(events) && Sorted(CrashTimes(events))
    ensures !GaveUp(Run(events)) ==> CountWithin(CrashTimes(events), from, from + CRASH_WINDOW_MS) <= MAX_CRASHES
    ensures GaveUp(Run(events)) ==>
      var last := events[|events| - 1];
      && IsCrash(last) && Run(events).phase == Stopped(last.how.code)
      && CountWithin(CrashTimes(events[..|events| - 1]), from, from + CRASH_WINDOW_MS) <= MAX_CRASHES
      && CountWithin(CrashTimes(events), last.now - CRASH_WINDOW_MS, last.now) > MAX_CRASHES
  {
    if events != [] {
      var before, event := events[..|events| - 1], events[|events| - 1];
      NoneGaveUpBefore(events);
      LastCalls(events);
      hide IsRun, Run, CrashTimes, CountWithin, CallsOf, After, Sorted;
      if IsCrash(event) {
        SortedInit(CrashTimes(before), event.now);
        RespawnsAreLimited(before, from);
        GivesUpExactly(before, event.how.code, event.now);
        if Run(events).phase == BackingOff {
          OneMoreCrash(CrashTimes(before), event.now, from);
        }
      } else {
        RespawnsAreLimited(before, from);
      }
    }
  }

  lemma OneMoreCrash(times: seq<int>, now: int, from: int)
    requires forall i :: 0 <= i < |times| ==> times[i] <= now
    requires CountWithin(times, from, from + CRASH_WINDOW_MS) <= MAX_CRASHES
    requires CountWithin(times + [now], now - CRASH_WINDOW_MS, now) <= MAX_CRASHES
    ensures CountWithin(times + [now], from, from + CRASH_WINDOW_MS) <= MAX_CRASHES
  {
    assert (times + [now])[..|times|] == times;
    if from <= now <= from + CRASH_WINDOW_MS {
      CountsUpTo(times + [now], from, from + CRASH_WINDOW_MS, now);
      CountIsMonotone(times + [now], from, now, now - CRASH_WINDOW_MS, now);
    }
  }

  lemma {:induction false} CountsUpTo(times: seq<int>, from: int, to: int, last: int)
    requires forall i :: 0 <= i < |times| ==> times[i] <= last
    ensures CountWithin(times, from, to) <= CountWithin(times, from, last)
  {
    if times != [] {
      CountsUpTo(times[..|times| - 1], from, to, last);
    }
  }

  /** A schema restart put into a run anywhere the server is running changes no later step and no later
      verdict: afterwards the wrapper has only spawned once more. */
  lemma {:induction false} RestartsChangeNoVerdict(before: seq<Event>, now: int, after: seq<Event>)
    requires Run(before).phase == Running
    ensures var restart := ServerExits(Code(SCHEMA_RESTART_EXIT_CODE), now);
      var plain, restarted := Run(before + after), Run(before + ([restart] + after));
      && restarted == plain.(spawned := plain.spawned + 1)
      && (IsRun(before + ([restart] + after)) <==> IsRun(before + after))
      && CrashTimes(before + ([restart] + after)) == CrashTimes(before + after)
  {
    hide *;
    var restart := ServerExits(Code(SCHEMA_RESTART_EXIT_CODE), now);
    if after == [] {
      assert before + [] == before && [restart] + [] == [restart];
      OneMoreEvent(before, restart);
      RestartApplied(Run(before), now);
    } else {
      var init, last := after[..|after| - 1], after[|after| - 1];
      var short, long := before + init, before + ([restart] + init);
      assert before + after == short + [last] && before + ([restart] + after) == long + [last];
      RestartsChangeNoVerdict(before, now, init);
      OneMoreEvent(short, last);
      OneMoreEvent(long, last);
      SpawnsDoNotMatter(Run(short), last);
    }
  }

  lemma RestartApplied(w: Wrapper, now: int)
    requires w.phase == Running
    ensures var restart := ServerExits(Code(SCHEMA_RESTART_EXIT_CODE), now);
      Enabled(w, restart) && !IsCrash(restart) && Apply(w, restart) == w.(spawned := w.spawned + 1)
  {
  }

  lemma SpawnsDoNotMatter(w: Wrapper, event: Event)
    ensures var v := w.(spawned := w.spawned + 1);
      && (Enabled(v, event) <==> Enabled(w, event))
      && Apply(v, event) == Apply(w, event).(spawned := Apply(w, event).spawned + 1)
  {
    hide After, AnswerTo;
  }

  class DevWrapper {
    const crashTracker: CrashTracker
    var phase: Phase
    var spawned: nat

    ghost predicate Valid()
      reads this
    {
      crashTracker.limits == LIMITS
    }

    ghost function View(): Wrapper
      reads this, crashTracker
    {
      Wrapper(crashTracker.timestamps, phase, spawned)
    }

    constructor ()
      ensures Valid() && fresh(crashTracker) && View() == START
    {
      crashTracker := new CrashTracker(LIMITS);
      phase, spawned := Running, 1;
    }

    /** The `exit` listener of the server process. */
    method OnExit(how: Ending, now: int)
      requires Valid() && phase.Running?
      modifies this, crashTracker
      ensures Valid() && View() == Apply(old(View()), ServerExits(how, now))
    {
      match how
      case Signalled =>
        phase := Stopped(0);
      case Code(code) =>
        if code == SCHEMA_RESTART_EXIT_CODE {
          spawned := spawned + 1;
        } else if code == 0 {
          phase := Stopped(0);
        } else {
          var allowed := crashTracker.NoteCrash(now);
          if !allowed {
            phase := Stopped(code);
          } else {
            var shown := crashTracker.CrashCountInWindow(now);
            phase := BackingOff;
          }
        }
    }

    /** `setTimeout(spawnServer, CRASH_BACKOFF_MS)` */
    method OnBackoff()
      requires Valid() && phase.BackingOff?
      modifies this
      ensures Valid() && View() == Apply(old(View()), BackoffElapses)
    {
      phase, spawned := Running, spawned + 1;
    }
  }
}
