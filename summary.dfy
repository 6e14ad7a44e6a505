/** The session summary: the 3-second focus buckets rendered as labelled
    intervals with a percentage not focused, plus the total unfocused time. */
module Summary {
  import opened Wrappers
  import opened Decimal

  /** `graphUpdateInterval`, in milliseconds. */
  const IntervalMs: nat := 3000
  /** `graphUpdateInterval / 1000`, in seconds. */
  const IntervalSeconds: nat := 3

  /** One interval of the report; times are milliseconds since the epoch
      (their `toLocaleTimeString` rendering is not modelled). */
  datatype Interval = Interval(interval: string, startMs: int, endMs: int, percentNotFocused: nat)

  datatype LectureInfo = LectureInfo(subject: Option<string>, videoId: Option<string>)
  datatype UserInfo = UserInfo(name: Option<string>, profile: Option<string>)

  datatype SessionSummary = SessionSummary(
    subject: string, videoId: string, durationMinutes: int, startMs: int,
    userName: string, userProfile: string,
    intervals: seq<Interval>, totalUnfocusedMs: nat)

  /** `value || 'Unknown'`: a missing or empty string becomes "Unknown". */
  function OrUnknown(value: Option<string>): (r: string)
    ensures r != ""
    ensures value.Some? && value.value != "" ==> r == value.value
    ensures value.None? || value.value == "" ==> r == "Unknown"
  {
    if value.Some? && value.value != "" then value.value else "Unknown"
  }

  /** "{i*3}-{(i+1)*3}s". */
  function IntervalLabel(i: nat): string {
    ToString(i * IntervalSeconds) + "-" + ToString((i + 1) * IntervalSeconds) + "s"
  }

  /** Each bucket becomes one interval: 0% not focused for a 1, 100% for
      anything else. */
  function Intervals(buckets: seq<int>, startMs: int): (r: seq<Interval>)
    ensures |r| == |buckets|
  {
    seq(|buckets|, i requires 0 <= i < |buckets| =>
      Interval(IntervalLabel(i), startMs + i * IntervalMs, startMs + (i + 1) * IntervalMs,
               if buckets[i] == 1 then 0 else 100))
  }

  /** `focusData.filter(focus => focus === 0).length`. */
  function CountZeros(buckets: seq<int>): nat
    decreases |buckets|
  {
    if buckets == [] then 0
    else (if buckets[0] == 0 then 1 else 0) + CountZeros(buckets[1..])
  }

  /** `handleSessionEnd`'s report, at wall-clock time `nowMs`. The duration
      is whole minutes rounded down, as `Math.floor` does. */
  function Summarize(buckets: seq<int>, startMs: int, nowMs: int, lecture: LectureInfo, user: UserInfo): SessionSummary {
    SessionSummary(
      OrUnknown(lecture.subject), OrUnknown(lecture.videoId), (nowMs - startMs) / 60000, startMs,
      OrUnknown(user.name), OrUnknown(user.profile),
      Intervals(buckets, startMs), CountZeros(buckets) * IntervalMs)
  }

  predicate Binary(buckets: seq<int>) {
    forall i :: 0 <= i < |buckets| ==> buckets[i] == 0 || buckets[i] == 1
  }

  /** The intervals tile the session from its start in 3-second steps, one
      per bucket, labelled by their offsets in seconds, with 0% not focused
      exactly for a focused bucket; for 0/1 buckets the percentage is 0 or
      100. */
  lemma IntervalsDescribeBuckets(buckets: seq<int>, startMs: int, nowMs: int, lecture: LectureInfo, user: UserInfo, i: nat)
    requires i < |buckets|
    ensures var s := Summarize(buckets, startMs, nowMs, lecture, user);
      && |s.intervals| == |buckets|
      && s.intervals[i].interval == IntervalLabel(i)
      && s.intervals[i].startMs == startMs + i * IntervalMs
      && s.intervals[i].endMs == s.intervals[i].startMs + IntervalMs
      && (s.intervals[i].percentNotFocused == 0 <==> buckets[i] == 1)
      && (Binary(buckets) ==> (s.intervals[i].percentNotFocused == 100 <==> buckets[i] == 0))
      && (i + 1 < |buckets| ==> s.intervals[i + 1].startMs == s.intervals[i].endMs)
  {
  }

  /** Sum of the intervals' percentages not focused. */
  function PercentSum(intervals: seq<Interval>): nat
    decreases |intervals|
  {
    if intervals == [] then 0 else intervals[0].percentNotFocused + PercentSum(intervals[1..])
  }

  /** For 0/1 buckets the total unfocused time is 3000 ms for every interval
      reported 100% not focused: the total and the intervals agree. */
  lemma TotalMatchesIntervals(buckets: seq<int>, startMs: int, nowMs: int, lecture: LectureInfo, user: UserInfo)
    requires Binary(buckets)
    ensures var s := Summarize(buckets, startMs, nowMs, lecture, user);
      s.totalUnfocusedMs * 100 == PercentSum(s.intervals) * IntervalMs
  {
    PercentSuffix(buckets, startMs, 0);
    assert buckets[0..] == buckets;
    assert Intervals(buckets, startMs)[0..] == Intervals(buckets, startMs);
  }

  lemma {:induction false} PercentSuffix(buckets: seq<int>, startMs: int, k: nat)
    requires Binary(buckets) && k <= |buckets|
    ensures PercentSum(Intervals(buckets, startMs)[k..]) == 100 * CountZeros(buckets[k..])
    decreases |buckets| - k
  {
    var iv := Intervals(buckets, startMs);
    if k < |buckets| {
      PercentSuffix(buckets, startMs, k + 1);
      assert iv[k..][1..] == iv[k + 1..];
      assert buckets[k..][1..] == buckets[k + 1..];
    }
  }

  /** The total unfocused time is 3000 ms per bucket that is not a 1, and
      never more than the bucketed span of the session. */
  lemma {:induction false} TotalIsUnfocusedBuckets(buckets: seq<int>)
    requires Binary(buckets)
    ensures CountZeros(buckets) == |buckets| - CountOnes(buckets)
    ensures CountZeros(buckets) * IntervalMs <= |buckets| * IntervalMs
    decreases |buckets|
  {
    if buckets != [] {
      TotalIsUnfocusedBuckets(buckets[1..]);
    }
  }

  function CountOnes(buckets: seq<int>): nat
    decreases |buckets|
  {
    if buckets == [] then 0
    else (if buckets[0] == 1 then 1 else 0) + CountOnes(buckets[1..])
  }

  /** Index of the first '-' in `s`, or |s| when there is none. */
  function FirstDash(s: string): nat
    decreases |s|
  {
    if s == [] || s[0] == '-' then 0 else 1 + FirstDash(s[1..])
  }

  lemma {:induction false} FirstDashAfterDigits(a: string, x: string)
    requires IsDigits(a)
    ensures FirstDash(a + "-" + x) == |a|
    decreases |a|
  {
    if a != [] {
      assert (a + "-" + x)[1..] == a[1..] + "-" + x;
      FirstDashAfterDigits(a[1..], x);
    }
  }

  /** Two digit strings each followed by '-' agree when the results do. */
  lemma DashPrefix(a: string, b: string, x: string, y: string)
    requires IsDigits(a) && IsDigits(b)
    requires a + "-" + x == b + "-" + y
    ensures a == b
  {
    FirstDashAfterDigits(a, x);
    FirstDashAfterDigits(b, y);
    assert a == (a + "-" + x)[..|a|];
    assert b == (b + "-" + y)[..|b|];
  }

  /** Interval labels are unique: a label names one interval. */
  lemma IntervalLabelsDistinct(i: nat, j: nat)
    requires IntervalLabel(i) == IntervalLabel(j)
    ensures i == j
  {
    var si, sj := ToString(i * IntervalSeconds), ToString(j * IntervalSeconds);
    assert IntervalLabel(i) == si + "-" + (ToString((i + 1) * IntervalSeconds) + "s");
    assert IntervalLabel(j) == sj + "-" + (ToString((j + 1) * IntervalSeconds) + "s");
    DashPrefix(si, sj, ToString((i + 1) * IntervalSeconds) + "s", ToString((j + 1) * IntervalSeconds) + "s");
    ToStringInjective(i * IntervalSeconds, j * IntervalSeconds);
  }
}
