/** Failure state kept for the last day agrees with the whole history of failures. */
module Backoff {
  import opened Registry

  /** A service failed at a time. */
  datatype Mark = Mark(identity: string, now: nat)

  function MarkAll(marks: seq<Mark>): Failures {
    if marks == [] then map[]
    else MarkFailed(MarkAll(marks[..|marks| - 1]), marks[|marks| - 1].identity, marks[|marks| - 1].now)
  }

  /** Every time a service ever failed. */
  function TimesOf(marks: seq<Mark>, identity: string): seq<nat> {
    if marks == [] then []
    else
      TimesOf(marks[..|marks| - 1], identity)
      + (if marks[|marks| - 1].identity == identity then [marks[|marks| - 1].now] else [])
  }

  function Minutes(count: nat): nat {
    if count < 60 then count else 60
  }

  /** The failures that no later failure found more than a day old. */
  function Remembered(times: seq<nat>): seq<nat> {
    if times == [] then []
    else
      var last := times[|times| - 1];
      Since(Remembered(times[..|times| - 1]), WindowStart(last)) + [last]
  }

  /** What a service's state has to be, given when it failed. */
  predicate Faithful(failures: Failures, identity: string, times: seq<nat>) {
    if times == [] then identity !in failures
    else
      && identity in failures
      && failures[identity]
         == FailureState(Remembered(times), times[|times| - 1] + 60 * Minutes(|Remembered(times)|))
  }

  lemma {:induction false} HistoryKept(marks: seq<Mark>, identity: string)
    ensures Faithful(MarkAll(marks), identity, TimesOf(marks, identity))
  {
    hide Remembered;
    if marks != [] {
      var front, mark := marks[..|marks| - 1], marks[|marks| - 1];
      HistoryKept(front, identity);
      var times := TimesOf(front, identity);
      if mark.identity == identity {
        MarkKept(MarkAll(front), identity, times, mark.now);
      } else {
        assert TimesOf(marks, identity) == times;
      }
    }
  }

  lemma MarkKept(failures: Failures, identity: string, times: seq<nat>, now: nat)
    requires Faithful(failures, identity, times)
    ensures Faithful(MarkFailed(failures, identity, now), identity, times + [now])
  {
    hide Since;
    assert (times + [now])[..|times|] == times;
    assert Remembered(times + [now]) == Since(Remembered(times), WindowStart(now)) + [now];
    assert times == [] ==> Remembered(times) == [];
  }

  // ---------------------------------------------------------------- what is remembered

  /** No later failure was more than a day after this one. */
  predicate Kept(times: seq<nat>, i: nat)
    requires i < |times|
  {
    forall j :: i < j < |times| ==> times[j] <= times[i] + 86400
  }

  /** The failures among the first `n` that are kept, in order. */
  function KeptOf(times: seq<nat>, n: nat): seq<nat>
    requires n <= |times|
  {
    if n == 0 then [] else KeptOf(times, n - 1) + (if Kept(times, n - 1) then [times[n - 1]] else [])
  }

  function AllKept(times: seq<nat>): seq<nat> {
    KeptOf(times, |times|)
  }

  lemma SinceSnoc(times: seq<nat>, t: nat, start: nat)
    ensures Since(times + [t], start) == Since(times, start) + (if t >= start then [t] else [])
  {
    assert (times + [t])[..|times|] == times;
  }

  /** One more failure takes out those more than a day before it. */
  lemma {:induction false} KeptStep(times: seq<nat>, last: nat, n: nat)
    requires n <= |times|
    ensures KeptOf(times + [last], n) == Since(KeptOf(times, n), WindowStart(last))
  {
    hide Since;
    if n == 0 {
      assert Since([], WindowStart(last)) == [] by { SinceNothing(WindowStart(last)); }
    } else {
      KeptStep(times, last, n - 1);
      var longer := times + [last];
      assert Kept(longer, n - 1) <==> Kept(times, n - 1) && last <= times[n - 1] + 86400 by {
        assert longer[|times|] == last;
        assert forall j :: n - 1 < j < |times| ==> longer[j] == times[j];
      }
      assert longer[n - 1] == times[n - 1];
      SinceSnoc(KeptOf(times, n - 1), times[n - 1], WindowStart(last));
      assert KeptOf(times, n - 1) + [] == KeptOf(times, n - 1);
      assert Since(KeptOf(times, n - 1), WindowStart(last)) + [] == Since(KeptOf(times, n - 1), WindowStart(last));
    }
  }

  lemma SinceNothing(start: nat)
    ensures Since([], start) == []
  {
  }

  lemma {:induction false} RememberedIsKept(times: seq<nat>)
    ensures Remembered(times) == AllKept(times)
  {
    hide Since;
    if times != [] {
      var front, last := times[..|times| - 1], times[|times| - 1];
      assert times == front + [last];
      RememberedIsKept(front);
      KeptStep(front, last, |front|);
    }
  }

  /** Whatever the clock does, after any run of failures: the times kept for a service are exactly those that no later
      failure of it was more than a day after, and it may be used again as many minutes after its last failure as
      there are of them, at least one and at most sixty. */
  lemma BackoffIsHistory(marks: seq<Mark>, identity: string, now: nat)
    ensures
      var times := TimesOf(marks, identity);
      var n := |AllKept(times)|;
      && (identity in MarkAll(marks) <==> times != [])
      && (times != [] ==>
            && MarkAll(marks)[identity].times == AllKept(times)
            && MarkAll(marks)[identity].reactivateAt == times[|times| - 1] + 60 * (if n < 60 then n else 60)
            && times[|times| - 1] + 60 <= MarkAll(marks)[identity].reactivateAt <= times[|times| - 1] + 3600)
      && (IsFailed(MarkAll(marks), identity, now)
          <==> times != [] && now < times[|times| - 1] + 60 * (if n < 60 then n else 60))
  {
    hide MarkAll, TimesOf, Since;
    HistoryKept(marks, identity);
    RememberedIsKept(TimesOf(marks, identity));
  }

  // ---------------------------------------------------------------- a clock that does not run backwards

  predicate Nondecreasing(times: seq<nat>) {
    forall i, j :: 0 <= i < j < |times| ==> times[i] <= times[j]
  }

  /** Then the failures kept are exactly those of the day before the last one. */
  lemma KeptIsLastDay(times: seq<nat>, i: nat)
    requires Nondecreasing(times) && i < |times|
    ensures Kept(times, i) <==> times[|times| - 1] - times[i] <= 86400
  {
    if i < |times| - 1 {
      assert Kept(times, i) ==> times[|times| - 1] <= times[i] + 86400;
    }
  }
}
