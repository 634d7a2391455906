/** The stabilisation wait of `wait_for_file_stable`: the file's size is
    polled and the wait ends once `stable_duration` consecutive polls read
    the same positive size as the one recorded before them. Sleeping is
    left out; the polls the wait would make are given as a sequence, and
    running out of them means the real wait would still be blocking. */
module Stability {
  import opened Wrappers

  /** One poll: the size read, or None when reading the size raised. */
  type Sample = Option<nat>

  /** The loop's two variables: `previous_size` and `stable_count`. */
  datatype Counter = Counter(previousSize: nat, stableCount: nat)

  const Start := Counter(0, 0)

  /** One loop iteration. A read error clears the count and keeps the
      recorded size; a read equal to the recorded size and positive
      extends the count; any other read clears the count and records it. */
  function Step(c: Counter, s: Sample): Counter {
    match s
    case None => Counter(c.previousSize, 0)
    case Some(size) =>
      if size == c.previousSize && size > 0 then Counter(c.previousSize, c.stableCount + 1)
      else Counter(size, 0)
  }

  /** The counter after the given polls, starting from `Start`. */
  function Run(p: seq<Sample>): Counter {
    if |p| == 0 then Start else Step(Run(p[..|p| - 1]), p[|p| - 1])
  }

  /** The last size that was read successfully, or 0 when none was. */
  function LastSize(p: seq<Sample>): nat {
    if |p| == 0 then 0
    else match p[|p| - 1]
      case Some(size) => size
      case None => LastSize(p[..|p| - 1])
  }

  /** The last `j` polls all read the same positive size, and that size is
      the last one read before them. */
  predicate SettledOver(p: seq<Sample>, j: nat) {
    j == 0 ||
    (j <= |p| && LastSize(p[..|p| - j]) > 0 &&
     forall i :: |p| - j <= i < |p| ==> p[i] == Some(LastSize(p[..|p| - j])))
  }

  /** The exit condition of the loop, in terms of the polls alone: a
      non-positive duration holds at once; otherwise the last
      `duration` polls settled. */
  predicate Stable(p: seq<Sample>, duration: int) {
    duration <= 0 || (duration <= |p| && SettledOver(p, duration))
  }

  /** What the counter means: the recorded size is the last size read, and
      the count reaches `j` exactly when the last `j` polls settled. */
  lemma {:induction false} RunMeaning(p: seq<Sample>, j: nat)
    requires j <= |p|
    ensures Run(p).previousSize == LastSize(p)
    ensures Run(p).stableCount <= |p|
    ensures Run(p).stableCount >= j <==> SettledOver(p, j)
    decreases |p|
  {
    if |p| > 0 {
      var q := p[..|p| - 1];
      var x := p[|p| - 1];
      RunMeaning(q, if j == 0 then 0 else j - 1);
      if j > 0 {
        assert p[..|p| - j] == q[..|q| - (j - 1)];
        if j > 1 && SettledOver(q, j - 1) {
          assert q[|q| - 1] == Some(LastSize(q[..|q| - (j - 1)]));
        }
        if j > 1 && SettledOver(p, j) {
          assert q[|q| - 1] == p[|p| - 2];
          forall i | |q| - (j - 1) <= i < |q|
            ensures q[i] == Some(LastSize(q[..|q| - (j - 1)]))
          {
            assert q[i] == p[i];
          }
        }
      }
    }
  }

  /** The loop's test, `stable_count < stable_duration`, fails exactly when
      the polls so far are `Stable`. */
  lemma CountReachesDuration(p: seq<Sample>, duration: int)
    ensures Run(p).stableCount >= duration <==> Stable(p, duration)
  {
    RunMeaning(p, 0);
    if 0 < duration <= |p| {
      RunMeaning(p, duration);
    }
  }

  /** The first number of polls, from `k` on, after which the wait is
      over. */
  function FirstStableFrom(samples: seq<Sample>, duration: int, k: nat): (r: Option<nat>)
    requires k <= |samples|
    ensures r.Some? ==> k <= r.value <= |samples| && Stable(samples[..r.value], duration)
    ensures r.Some? ==> forall j :: k <= j < r.value ==> !Stable(samples[..j], duration)
    ensures r.None? ==> forall j :: k <= j <= |samples| ==> !Stable(samples[..j], duration)
    decreases |samples| - k
  {
    if Stable(samples[..k], duration) then Some(k)
    else if k == |samples| then None
    else FirstStableFrom(samples, duration, k + 1)
  }

  /** How many polls the wait takes, or None when it outlasts them. */
  function FirstStable(samples: seq<Sample>, duration: int): Option<nat> {
    FirstStableFrom(samples, duration, 0)
  }

  /** `wait_for_file_stable` over the given polls: Some(n) when the loop
      exits after the first `n` polls, None when it would still be waiting
      after all of them. */
  method WaitForFileStable(samples: seq<Sample>, stableDuration: int) returns (consumed: Option<nat>)
    ensures consumed.Some? ==> consumed.value <= |samples|
    ensures consumed.Some? ==> Stable(samples[..consumed.value], stableDuration)
    ensures consumed.Some? ==>
      forall k :: 0 <= k < consumed.value ==> !Stable(samples[..k], stableDuration)
    ensures consumed.None? ==>
      forall k :: 0 <= k <= |samples| ==> !Stable(samples[..k], stableDuration)
    ensures consumed.Some? && stableDuration > 0 ==>
      Run(samples[..consumed.value]).stableCount == stableDuration
    ensures consumed.Some? && stableDuration > 0 ==> consumed.value >= stableDuration + 1
    ensures stableDuration <= 0 ==> consumed == Some(0)
    ensures consumed == FirstStable(samples, stableDuration)
  {
    var previousSize: nat := 0;
    var stableCount: nat := 0;
    var i := 0;
    while stableCount < stableDuration
      invariant i <= |samples|
      invariant Counter(previousSize, stableCount) == Run(samples[..i])
      invariant stableDuration > 0 ==> stableCount <= stableDuration
      invariant stableDuration <= 0 ==> i == 0
      invariant forall k :: 0 <= k < i ==> !Stable(samples[..k], stableDuration)
      decreases |samples| - i
    {
      CountReachesDuration(samples[..i], stableDuration);
      if i == |samples| {
        assert samples[..i] == samples;
        assert FirstStable(samples, stableDuration).None? by {
          assert forall k :: 0 <= k <= |samples| ==> !Stable(samples[..k], stableDuration);
        }
        return None;
      }
      match samples[i] {
        case None =>
          stableCount := 0;
        case Some(currentSize) =>
          if currentSize == previousSize && currentSize > 0 {
            stableCount := stableCount + 1;
          } else {
            stableCount := 0;
            previousSize := currentSize;
          }
      }
      assert samples[..i + 1][..i] == samples[..i];
      i := i + 1;
    }
    CountReachesDuration(samples[..i], stableDuration);
    if stableDuration > 0 {
      NeedsEarlierRead(samples[..i], stableDuration);
    }
    var first := FirstStable(samples, stableDuration);
    assert first.Some? && first.value == i by {
      assert Stable(samples[..i], stableDuration);
    }
    return Some(i);
  }

  /** While the loop runs, and when it exits, the count stays within
      `0..stable_duration`: it grows by at most one per poll and the loop
      stops as soon as it reaches the duration. */
  lemma {:induction false} CountWithinDuration(samples: seq<Sample>, duration: int, k: nat)
    requires duration > 0 && k <= |samples|
    requires forall j :: 0 <= j < k ==> !Stable(samples[..j], duration)
    ensures Run(samples[..k]).stableCount <= duration
  {
    if k > 0 {
      var p := samples[..k];
      assert p[..k - 1] == samples[..k - 1];
      CountReachesDuration(samples[..k - 1], duration);
    }
  }

  /** A positive duration can only be met after a read that precedes the
      settled polls, because the recorded size starts at 0: the file needs
      `duration + 1` equal positive reads after its last change. */
  lemma NeedsEarlierRead(p: seq<Sample>, duration: int)
    requires duration > 0 && Stable(p, duration)
    ensures |p| >= duration + 1
  {
    assert LastSize(p[..|p| - duration]) > 0;
  }

  /** Every read sample of a file that never shows a positive size is 0. */
  lemma {:induction false} NoPositiveReadLastSize(p: seq<Sample>)
    requires forall i :: 0 <= i < |p| ==> p[i] == None || p[i] == Some(0)
    ensures LastSize(p) == 0
    decreases |p|
  {
    if |p| > 0 {
      NoPositiveReadLastSize(p[..|p| - 1]);
    }
  }

  /** A file whose size is never read as positive never stabilises. */
  lemma EmptyFileNeverStable(samples: seq<Sample>, duration: int)
    requires duration > 0
    requires forall i :: 0 <= i < |samples| ==> samples[i] == None || samples[i] == Some(0)
    ensures forall k :: 0 <= k <= |samples| ==> !Stable(samples[..k], duration)
  {
    forall k | 0 <= k <= |samples|
      ensures !Stable(samples[..k], duration)
    {
      if duration <= k {
        NoPositiveReadLastSize(samples[..k][..k - duration]);
      }
    }
  }

  /** A poll that clears the count: a read error, a size different from
      the recorded one, or a size of 0. */
  predicate Resets(p: seq<Sample>, k: nat)
    requires k < |p|
  {
    p[k] == None || p[k].value != LastSize(p[..k]) || p[k].value == 0
  }

  /** Inside the settled window no poll clears the count. */
  lemma SettledWindowHasNoReset(p: seq<Sample>, duration: int, k: nat)
    requires duration > 0 && Stable(p, duration)
    requires k < |p|
    ensures k >= |p| - duration ==> !Resets(p, k)
  {
    var start := |p| - duration;
    var v := LastSize(p[..start]);
    if k > start {
      assert p[..k][..k - 1] == p[..k - 1];
      assert p[..k][k - 1] == p[k - 1];
      assert p[k - 1] == Some(v);
    }
  }

  /** After a poll that clears the count, `duration` further polls are
      needed before the wait can end. */
  lemma ResetDelaysExit(p: seq<Sample>, duration: int, k: nat)
    requires duration > 0 && Stable(p, duration)
    requires k < |p| && Resets(p, k)
    ensures |p| >= k + 1 + duration
  {
    SettledWindowHasNoReset(p, duration, k);
  }
}
