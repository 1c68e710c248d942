/**
 The daily episodes of a practice period (core/src/practiceEpisodes.ts): where each day's window lies as
 a fraction of the run, and how far the actual start may miss the planned one before an episode leaves
 its day. Hours, milliseconds and fractions are exact reals; only `round6` rounds.
 */
module EpisodePlan {
  import opened Basics

  const EDGE_MARGIN_HOURS: real := 1.5
  const MIN_SLICE_HOURS: real := 2.0 * EDGE_MARGIN_HOURS + 1.0
  const HOUR_MS: real := 3600000.0

  /// `Math.round(x * 1e6) / 1e6`.
  function Round6(x: real): real { (x * 1000000.0 + 0.5).Floor as real / 1000000.0 }

  /// What rounding to six places can move.
  const HALF_MICRO: real := 0.0000005

  lemma Round6Bounds(x: real)
    ensures x - HALF_MICRO <= Round6(x) <= x + HALF_MICRO
  {}

  lemma Round6Monotone(x: real, y: real)
    requires x <= y
    ensures Round6(x) <= Round6(y)
    ensures x + 0.000001 < y ==> Round6(x) < Round6(y)
  {
    FloorMonotone(x * 1000000.0 + 0.5, y * 1000000.0 + 0.5);
  }

  lemma FloorMonotone(a: real, b: real)
    requires a <= b
    ensures a.Floor <= b.Floor && (a + 1.0 <= b ==> a.Floor < b.Floor)
  {}

  lemma Round6Fixed()
    ensures Round6(0.0) == 0.0 && Round6(1.0) == 1.0
  {}

  /// One day's slice of the period and the window every episode of it is drawn in.
  datatype DayPlan = DayPlan(day: int, fromHours: real, toHours: real, lo: real, hi: real)

  // ---------------------------------------------------------------- a period from its start

  datatype Planned = Planned(days: seq<DayPlan>) | NoLength | NoRoom

  /// Where day `day` begins on a grid of `segment`.
  function DayStart(segment: real, day: int): real { day as real * segment }

  function SliceEnd(hours: real, segment: real, day: int): real { MinReal(hours, DayStart(segment, day) + segment) }

  function Slice(hours: real, segment: real, day: int): DayPlan
    requires hours > 0.0
  {
    var from, to := DayStart(segment, day), SliceEnd(hours, segment, day);
    DayPlan(day, from, to, Round6((from + EDGE_MARGIN_HOURS) / hours), Round6((to - EDGE_MARGIN_HOURS) / hours))
  }

  ghost predicate Roomy(hours: real, segment: real, day: int) {
    SliceEnd(hours, segment, day) - DayStart(segment, day) >= MIN_SLICE_HOURS
  }

  ghost predicate Begins(hours: real, segment: real, day: int) { DayStart(segment, day) < hours }

  lemma NextDay(segment: real, day: int)
    ensures DayStart(segment, day + 1) == DayStart(segment, day) + segment
  {}

  method DailyEpisodePlan(hours: real, segment: real) returns (r: Planned)
    ensures r == NoLength <==> hours <= 0.0
    ensures r == NoRoom <==> hours > 0.0 && segment <= 2.0 * EDGE_MARGIN_HOURS
    ensures r.Planned? ==>
              var n := |r.days|;
              (forall k :: 0 <= k < n ==>
                 r.days[k] == Slice(hours, segment, k) && Begins(hours, segment, k) && Roomy(hours, segment, k)) &&
              (!Begins(hours, segment, n) || !Roomy(hours, segment, n))
  {
    hide Round6, DayStart;
    if !(hours > 0.0) { return NoLength; }
    if !(segment > 2.0 * EDGE_MARGIN_HOURS) { return NoRoom; }
    var plan: seq<DayPlan> := [];
    var day := 0;
    while DayStart(segment, day) < hours
      invariant day == |plan|
      invariant forall k :: 0 <= k < day ==>
                  plan[k] == Slice(hours, segment, k) && Begins(hours, segment, k) && Roomy(hours, segment, k)
      decreases (hours - DayStart(segment, day)).Floor
    {
      NextDay(segment, day);
      var from := DayStart(segment, day);
      var to := MinReal(hours, from + segment);
      if to - from < MIN_SLICE_HOURS { break; }
      var lo := Round6((from + EDGE_MARGIN_HOURS) / hours);
      var hi := Round6((to - EDGE_MARGIN_HOURS) / hours);
      plan := plan + [DayPlan(day, from, to, lo, hi)];
      day := day + 1;
    }
    r := Planned(plan);
  }

  lemma DaysApart(segment: real, i: int, j: int)
    requires segment > 0.0 && i < j
    ensures DayStart(segment, i) + segment <= DayStart(segment, j)
  {
    assert DayStart(segment, j) - DayStart(segment, i) == (j - i) as real * segment;
    AtLeastOne((j - i) as real, segment);
  }

  lemma AtLeastOne(n: real, k: real)
    requires n >= 1.0 && k > 0.0
    ensures n * k >= k
  {}

  lemma DaysBeginAtZero(segment: real, day: nat)
    requires segment > 0.0
    ensures DayStart(segment, day) >= 0.0
  {
    if day > 0 { DaysApart(segment, 0, day); }
  }

  /// A day gets its episodes exactly when its slice begins within the period and leaves room: the plan
  /// stops at the first that does not, and none after that one does.
  lemma PlanHasEveryRoomyDay(hours: real, segment: real, n: nat, day: nat)
    requires hours > 0.0 && segment > 0.0
    requires forall k :: 0 <= k < n ==> Begins(hours, segment, k) && Roomy(hours, segment, k)
    requires !Begins(hours, segment, n) || !Roomy(hours, segment, n)
    ensures Begins(hours, segment, day) && Roomy(hours, segment, day) <==> day < n
  {
    hide DayStart;
    if day > n { DaysApart(segment, n, day); }
  }

  /// The guard lets in segments of three to four hours, and every slice of theirs is then too short.
  lemma ShortSegmentsGetNoEpisodes(hours: real, segment: real)
    requires segment < MIN_SLICE_HOURS
    ensures forall day: int :: !Roomy(hours, segment, day)
  {}

  // ---------------------------------------------------------------- a misplaced start

  lemma Scale(a: real, b: real, k: real)
    requires k >= 0.0
    ensures a <= b ==> a * k <= b * k
    ensures a < b && k > 0.0 ==> a * k < b * k
  {}

  lemma DivideTimes(a: real, b: real)
    requires b != 0.0
    ensures a / b * b == a
  {}

  /// A rounded fraction of the run, back in hours: off by at most half a millionth of the run.
  lemma RoundedFraction(at: real, hours: real)
    requires hours > 0.0 && 0.0 <= at <= hours
    ensures 0.0 <= Round6(at / hours) <= 1.0
    ensures at - HALF_MICRO * hours <= Round6(at / hours) * hours <= at + HALF_MICRO * hours
  {
    hide Round6;
    var x := at / hours;
    DivideTimes(at, hours);
    WithinOne(at, hours);
    Round6Bounds(x);
    Round6Monotone(0.0, x);
    Round6Monotone(x, 1.0);
    Round6Fixed();
    RoundedBack(at, x, Round6(x), hours);
  }

  lemma RoundedBack(at: real, x: real, rounded: real, hours: real)
    requires hours > 0.0 && x * hours == at && x - HALF_MICRO <= rounded <= x + HALF_MICRO
    ensures at - HALF_MICRO * hours <= rounded * hours <= at + HALF_MICRO * hours
  {
    RoundedTimes(x, rounded, hours, HALF_MICRO);
  }

  lemma WithinOne(at: real, hours: real)
    requires hours > 0.0 && 0.0 <= at <= hours
    ensures 0.0 <= at / hours <= 1.0
  {}

  lemma RoundedTimes(x: real, rounded: real, hours: real, eps: real)
    requires hours > 0.0 && x - eps <= rounded <= x + eps
    ensures x * hours - eps * hours <= rounded * hours <= x * hours + eps * hours
  {
    Scale(x - eps, rounded, hours);
    Scale(rounded, x + eps, hours);
  }

  /// The window's ends, in hours of the planned run: the margins, give or take the rounding.
  lemma WindowEnds(hours: real, segment: real, day: nat)
    requires hours > 0.0 && segment > 0.0 && Begins(hours, segment, day) && Roomy(hours, segment, day)
    ensures var s := Slice(hours, segment, day);
            0.0 <= s.lo <= s.hi <= 1.0 &&
            s.lo * hours >= s.fromHours + EDGE_MARGIN_HOURS - HALF_MICRO * hours &&
            s.hi * hours <= s.toHours - EDGE_MARGIN_HOURS + HALF_MICRO * hours
  {
    hide Round6, DayStart;
    var s := Slice(hours, segment, day);
    var a, b := s.fromHours + EDGE_MARGIN_HOURS, s.toHours - EDGE_MARGIN_HOURS;
    DaysBeginAtZero(segment, day);
    assert 0.0 <= a <= b <= hours;
    RoundedFraction(a, hours);
    RoundedFraction(b, hours);
    Ordered(a, b, hours);
    Round6Monotone(a / hours, b / hours);
  }

  lemma Ordered(a: real, b: real, d: real)
    requires d > 0.0 && a <= b
    ensures a / d <= b / d
  {
    var x, y := a / d, b / d;
    DivideTimes(a, d);
    DivideTimes(b, d);
    Scale(y, x, d);
  }

  /// The plan's window is the day's slice less an hour and a half at either end, to half a millionth of the run; and a
  /// slice has room for one from four hours on.
  lemma WindowIsTheSliceLessMargins(hours: real, segment: real, day: nat)
    requires hours > 0.0 && segment > 0.0
    ensures var s := Slice(hours, segment, day);
            var from := day as real * segment;
            var to := if from + segment <= hours then from + segment else hours;
            s.day == day && s.fromHours == from && s.toHours == to &&
            (Roomy(hours, segment, day) <==> to - from >= 4.0) &&
            Near(s.lo, from + 1.5, hours) && Near(s.hi, to - 1.5, hours)
  {
    hide Round6;
    var from, to := DayStart(segment, day), SliceEnd(hours, segment, day);
    RoundedNear(from + 1.5, hours);
    RoundedNear(to - 1.5, hours);
  }

  /// A fraction of `whole` that is `at` to half a millionth of it.
  ghost predicate Near(fraction: real, at: real, whole: real) {
    at - 0.0000005 * whole <= fraction * whole <= at + 0.0000005 * whole
  }

  lemma RoundedNear(at: real, whole: real)
    requires whole > 0.0
    ensures Near(Round6(at / whole), at, whole)
  {
    DivideTimes(at, whole);
    Round6Bounds(at / whole);
    RoundedTimes(at / whole, Round6(at / whole), whole, 0.0000005);
  }

  /**
   Started `late` hours after (or before) the plan, with the same end, every point of a day's window
   still falls inside that day of the grid that counts from the actual start, as long as the start missed
   by no more than the margin, less what the rounding can take of it.
   */
  lemma WindowsSurviveAMisplacedStart(hours: real, segment: real, day: nat, late: real, f: real)
    requires hours > 0.0 && segment > 0.0 && Begins(hours, segment, day) && Roomy(hours, segment, day)
    requires var slack := EDGE_MARGIN_HOURS - HALF_MICRO * hours; slack > 0.0 && -slack <= late <= slack
    requires var s := Slice(hours, segment, day); s.lo <= f <= s.hi
    ensures DayStart(segment, day) < f * (hours - late) < DayStart(segment, day + 1)
  {
    hide Round6, DayStart;
    var s := Slice(hours, segment, day);
    WindowEnds(hours, segment, day);
    NextDay(segment, day);
    assert s.fromHours == DayStart(segment, day) && s.toHours <= DayStart(segment, day + 1);
    PointStaysInside(s.lo, s.hi, f, hours, late, s.fromHours, s.toHours, EDGE_MARGIN_HOURS - HALF_MICRO * hours);
  }

  lemma PointStaysInside(lo: real, hi: real, f: real, hours: real, late: real, from: real, to: real, slack: real)
    requires 0.0 <= lo <= f <= hi <= 1.0 && hours > 0.0 && slack > 0.0 && to <= hours
    requires lo * hours >= from + slack && hi * hours <= to - slack
    requires -slack <= late <= slack
    ensures from < f * (hours - late) < to
  {
    Scale(lo, f, hours);
    Scale(f, hi, hours);
    Scale(1.0, hi, hours);
    FractionOf(f, late, slack);
    assert f * (hours - late) == f * hours - f * late;
    Between(f * hours, f * late, slack, from, to);
  }

  lemma Between(whole: real, missed: real, slack: real, from: real, to: real)
    requires from + slack <= whole <= to - slack && -slack < missed < slack
    ensures from < whole - missed < to
  {}

  lemma FractionOf(f: real, x: real, bound: real)
    requires 0.0 <= f < 1.0 && bound > 0.0 && -bound <= x <= bound
    ensures -bound < f * x
    ensures f * x < bound
  {
    FractionBelow(f, x, bound);
    FractionBelow(f, -x, bound);
    Negated(f, x);
  }

  lemma Negated(f: real, x: real)
    ensures f * (-x) == -(f * x)
  {}

  lemma FractionBelow(f: real, x: real, bound: real)
    requires 0.0 <= f < 1.0 && bound > 0.0 && x <= bound
    ensures f * x < bound
  {
    var part, most := f * x, f * bound;
    assert part <= most by { ScaleLeft(f, x, bound); }
    assert most < bound by { Scale(f, 1.0, bound); }
  }

  lemma ScaleLeft(k: real, a: real, b: real)
    requires k >= 0.0 && a <= b
    ensures k * a <= k * b
  {
    Scale(a, b, k);
  }

  lemma SliceEndsBy(hours: real, segment: real, day: int)
    ensures SliceEnd(hours, segment, day) <= DayStart(segment, day) + segment
  {}

  /// Two days apart leave three hours between the margins.
  lemma MarginsApart(hours: real, segment: real, i: nat, j: nat)
    requires segment > 0.0 && i < j
    ensures SliceEnd(hours, segment, i) - EDGE_MARGIN_HOURS + 3.0 <= DayStart(segment, j) + EDGE_MARGIN_HOURS
  {
    hide DayStart;
    DaysApart(segment, i, j);
    SliceEndsBy(hours, segment, i);
  }

  /// Days' windows follow one another, apart in any period shorter than three million hours.
  lemma WindowsAreApart(hours: real, segment: real, i: nat, j: nat)
    requires hours > 0.0 && segment > 0.0 && i < j
    ensures Slice(hours, segment, i).hi <= Slice(hours, segment, j).lo
    ensures hours < 3000000.0 ==> Slice(hours, segment, i).hi < Slice(hours, segment, j).lo
  {
    hide Round6, SliceEnd, DayStart;
    MarginsApart(hours, segment, i, j);
    RoundedApart(SliceEnd(hours, segment, i) - EDGE_MARGIN_HOURS, DayStart(segment, j) + EDGE_MARGIN_HOURS, hours);
  }

  lemma RoundedApart(a: real, b: real, hours: real)
    requires hours > 0.0 && a + 3.0 <= b
    ensures Round6(a / hours) <= Round6(b / hours)
    ensures hours < 3000000.0 ==> Round6(a / hours) < Round6(b / hours)
  {
    Ordered(a, b, hours);
    Round6Monotone(a / hours, b / hours);
    if hours < 3000000.0 {
      DivideTimes(a, hours);
      DivideTimes(b, hours);
      GapSurvives(a / hours, b / hours, hours);
    }
  }

  lemma GapSurvives(x: real, y: real, hours: real)
    requires 0.0 < hours < 3000000.0 && x * hours + 3.0 <= y * hours
    ensures x + 0.000001 < y
  {
    Scale(y, x + 0.000001, hours);
  }

  // ---------------------------------------------------------------- an extension

  /// Where a running period is: blocks and times read off its checkpoint.
  datatype Position = Position(
    runStartBlock: int, windowBaseBlocks: int, endBlock: int, atBlock: int, atMs: real, startedAtMs: real,
    blockTimeSec: real)

  ghost predicate ValidPosition(p: Position) { p.blockTimeSec > 0.0 && p.windowBaseBlocks > 0 }

  function BlockAt(p: Position, ms: real): real
    requires p.blockTimeSec > 0.0
  {
    p.atBlock as real + (ms - p.atMs) / 1000.0 / p.blockTimeSec
  }

  function MsAt(p: Position, block: int): real { p.atMs + (block - p.atBlock) as real * p.blockTimeSec * 1000.0 }

  function FromMs(p: Position): real { MaxReal(MsAt(p, p.endBlock), p.atMs) }

  function Frac(p: Position, ms: real): real
    requires p.blockTimeSec > 0.0 && p.windowBaseBlocks > 0
  {
    Round6((BlockAt(p, ms) - p.runStartBlock as real) / p.windowBaseBlocks as real)
  }

  /// The part of day `day` of the grid that the extension covers, and its window.
  function ExtensionSlice(p: Position, endsAtMs: real, sliceMs: real, day: int): DayPlan
    requires p.blockTimeSec > 0.0 && p.windowBaseBlocks > 0
  {
    var from := MaxReal(FromMs(p), p.startedAtMs + DayStart(sliceMs, day));
    var to := MinReal(endsAtMs, p.startedAtMs + DayStart(sliceMs, day + 1));
    DayPlan(day, from, to, Frac(p, from + EDGE_MARGIN_HOURS * HOUR_MS), Frac(p, to - EDGE_MARGIN_HOURS * HOUR_MS))
  }

  ghost predicate ExtensionRoomy(p: Position, endsAtMs: real, sliceMs: real, day: int)
    requires p.blockTimeSec > 0.0 && p.windowBaseBlocks > 0
  {
    var s := ExtensionSlice(p, endsAtMs, sliceMs, day);
    (s.toHours - s.fromHours) / HOUR_MS >= MIN_SLICE_HOURS
  }

  /// The plan holds a window for every roomy day of [first, day), and for nothing else.
  ghost predicate Covers(p: Position, endsAtMs: real, sliceMs: real, plan: seq<DayPlan>, first: int, day: int)
    requires ValidPosition(p)
  {
    (forall k :: 0 <= k < |plan| ==>
      first <= plan[k].day < day && plan[k] == ExtensionSlice(p, endsAtMs, sliceMs, plan[k].day) &&
      ExtensionRoomy(p, endsAtMs, sliceMs, plan[k].day)) &&
    (forall d: int :: first <= d < day && ExtensionRoomy(p, endsAtMs, sliceMs, d) ==>
      ExtensionSlice(p, endsAtMs, sliceMs, d) in plan)
  }

  lemma CoversOneMore(p: Position, endsAtMs: real, sliceMs: real, plan: seq<DayPlan>, first: int, day: int)
    requires ValidPosition(p) && Covers(p, endsAtMs, sliceMs, plan, first, day) && first <= day
    ensures Covers(p, endsAtMs, sliceMs,
                   if ExtensionRoomy(p, endsAtMs, sliceMs, day) then plan + [ExtensionSlice(p, endsAtMs, sliceMs, day)]
                   else plan,
                   first, day + 1)
  {
    hide Frac, FromMs, DayStart;
    var grown := plan + [ExtensionSlice(p, endsAtMs, sliceMs, day)];
    assert forall s <- plan :: s in grown;
    assert grown[|plan|] in grown;
  }

  /// Entries carry their bounds in milliseconds here; the source prints them in rounded hours.
  method ExtensionEpisodePlan(p: Position, endsAtMs: real, segment: real) returns (plan: seq<DayPlan>, ghost last: int)
    requires ValidPosition(p) && segment > 0.0
    ensures endsAtMs <= FromMs(p) ==> plan == []
    ensures endsAtMs > FromMs(p) ==>
              var sliceMs := segment * HOUR_MS;
              Covers(p, endsAtMs, sliceMs, plan, ((FromMs(p) - p.startedAtMs) / sliceMs).Floor, last) &&
              p.startedAtMs + DayStart(sliceMs, last) >= endsAtMs
  {
    hide Frac, FromMs, Covers, DayStart, DaysLeft;
    var fromMs := FromMs(p);
    plan, last := [], 0;
    if !(endsAtMs > fromMs) { return; }
    var sliceMs := segment * HOUR_MS;
    var first := ((fromMs - p.startedAtMs) / sliceMs).Floor;
    var day := first;
    CoversNothing(p, endsAtMs, sliceMs, first);
    while p.startedAtMs + DayStart(sliceMs, day) < endsAtMs
      invariant day >= first && Covers(p, endsAtMs, sliceMs, plan, first, day)
      decreases DaysLeft(p, endsAtMs, sliceMs, day)
    {
      DaysLeftShrinks(p, endsAtMs, sliceMs, day);
      DaysLeftCounts(p, endsAtMs, sliceMs, day);
      CoversOneMore(p, endsAtMs, sliceMs, plan, first, day);
      var from := MaxReal(fromMs, p.startedAtMs + DayStart(sliceMs, day));
      var to := MinReal(endsAtMs, p.startedAtMs + DayStart(sliceMs, day + 1));
      if (to - from) / HOUR_MS >= MIN_SLICE_HOURS {
        var lo := Frac(p, from + EDGE_MARGIN_HOURS * HOUR_MS);
        var hi := Frac(p, to - EDGE_MARGIN_HOURS * HOUR_MS);
        plan := plan + [DayPlan(day, from, to, lo, hi)];
      }
      day := day + 1;
    }
    last := day;
  }

  lemma CoversNothing(p: Position, endsAtMs: real, sliceMs: real, first: int)
    requires ValidPosition(p)
    ensures Covers(p, endsAtMs, sliceMs, [], first, first)
  {}

  ghost function DaysLeft(p: Position, endsAtMs: real, sliceMs: real, day: int): int
    requires sliceMs > 0.0
  {
    ((endsAtMs - p.startedAtMs) / sliceMs).Floor - day + 1
  }

  lemma DaysLeftCounts(p: Position, endsAtMs: real, sliceMs: real, day: int)
    requires sliceMs > 0.0
    ensures DaysLeft(p, endsAtMs, sliceMs, day + 1) == DaysLeft(p, endsAtMs, sliceMs, day) - 1
  {}

  lemma DaysLeftShrinks(p: Position, endsAtMs: real, sliceMs: real, day: int)
    requires sliceMs > 0.0 && p.startedAtMs + DayStart(sliceMs, day) < endsAtMs
    ensures DaysLeft(p, endsAtMs, sliceMs, day) >= 1
  {
    var q := (endsAtMs - p.startedAtMs) / sliceMs;
    DivideTimes(endsAtMs - p.startedAtMs, sliceMs);
    if q < day as real { Scale(q, day as real, sliceMs); }
  }

  /// Projecting the end block to a time and back is exact.
  lemma ProjectionRoundTrip(p: Position, block: int)
    requires p.blockTimeSec > 0.0
    ensures BlockAt(p, MsAt(p, block)) == block as real
  {
    var n := (block - p.atBlock) as real;
    assert n * p.blockTimeSec * 1000.0 / 1000.0 == n * p.blockTimeSec;
    assert n * p.blockTimeSec / p.blockTimeSec == n;
  }

  /// The projection goes through the checkpoint, a block for each block time.
  lemma ProjectionIsLinear(p: Position, ms: real, block: int)
    requires p.blockTimeSec > 0.0
    ensures BlockAt(p, p.atMs) == p.atBlock as real && BlockAt(p, ms + 1000.0 * p.blockTimeSec) == BlockAt(p, ms) + 1.0
    ensures MsAt(p, p.atBlock) == p.atMs && MsAt(p, block + 1) == MsAt(p, block) + 1000.0 * p.blockTimeSec
  {
    var seconds := (ms - p.atMs) / 1000.0;
    assert (ms + 1000.0 * p.blockTimeSec - p.atMs) / 1000.0 == seconds + p.blockTimeSec;
    OneMoreDivisor(seconds, p.blockTimeSec);
    assert (block + 1 - p.atBlock) as real * p.blockTimeSec ==
           (block - p.atBlock) as real * p.blockTimeSec + p.blockTimeSec;
  }

  lemma OneMoreDivisor(a: real, b: real)
    requires b > 0.0
    ensures (a + b) / b == a / b + 1.0
  {
    DivideTimes(a, b);
    DivideTimes(a + b, b);
    OneMoreTimes((a + b) / b, a / b, a, b);
  }

  lemma OneMoreTimes(q: real, n: real, a: real, b: real)
    requires b > 0.0 && n * b == a && q * b == a + b
    ensures q == n + 1.0
  {
    AddOne(n, n + 1.0, b);
    SameProduct(q, n + 1.0, b);
  }

  lemma AddOne(n: real, m: real, b: real)
    requires m == n + 1.0
    ensures m * b == n * b + b
  {}

  lemma SameProduct(q: real, m: real, b: real)
    requires b > 0.0 && q * b == m * b
    ensures q == m
  {
    if q < m { Scale(q, m, b); }
    if q > m { Scale(m, q, b); }
  }

  /**
   The extension's part of a day is what lies in it between the later of the saved end block and now, and the new end;
   its window is that less an hour and a half at either end, in blocks and to half a millionth of the base.
   */
  lemma ExtensionWindowIsTheSliceLessMargins(p: Position, endsAtMs: real, sliceMs: real, day: int)
    requires ValidPosition(p) && sliceMs > 0.0
    ensures var s, base := ExtensionSlice(p, endsAtMs, sliceMs, day), p.windowBaseBlocks as real;
            var opens, closes := p.startedAtMs + day as real * sliceMs, p.startedAtMs + (day + 1) as real * sliceMs;
            var saved := MsAt(p, p.endBlock);
            s.fromHours >= opens && s.fromHours >= saved && s.fromHours >= p.atMs &&
            (s.fromHours == opens || s.fromHours == saved || s.fromHours == p.atMs) &&
            s.toHours <= closes && s.toHours <= endsAtMs && (s.toHours == closes || s.toHours == endsAtMs) &&
            Near(s.lo, BlockAt(p, s.fromHours + 5400000.0) - p.runStartBlock as real, base) &&
            Near(s.hi, BlockAt(p, s.toHours - 5400000.0) - p.runStartBlock as real, base) &&
            (ExtensionRoomy(p, endsAtMs, sliceMs, day) <==> s.toHours - s.fromHours >= 14400000.0)
  {
    hide Round6, BlockAt, MsAt;
    var s, base := ExtensionSlice(p, endsAtMs, sliceMs, day), p.windowBaseBlocks as real;
    RoundedNear(BlockAt(p, s.fromHours + 5400000.0) - p.runStartBlock as real, base);
    RoundedNear(BlockAt(p, s.toHours - 5400000.0) - p.runStartBlock as real, base);
  }

  lemma LaterIsHigher(p: Position, a: real, b: real, hours: real)
    requires p.blockTimeSec > 0.0 && a + hours * HOUR_MS <= b
    ensures BlockAt(p, a) + hours * 3600.0 / p.blockTimeSec <= BlockAt(p, b)
  {
    Ordered((a - p.atMs) / 1000.0 + hours * 3600.0, (b - p.atMs) / 1000.0, p.blockTimeSec);
    assert ((a - p.atMs) / 1000.0 + hours * 3600.0) / p.blockTimeSec ==
           (a - p.atMs) / 1000.0 / p.blockTimeSec + hours * 3600.0 / p.blockTimeSec;
  }

  /**
   The extension's windows open only after the saved episodes end, as long as six decimals of the base
   are finer than the margin: half a millionth of it, in seconds, at most the margin.
   */
  lemma ExtensionOpensAfterTheEnd(p: Position, endsAtMs: real, sliceMs: real, day: int)
    requires ValidPosition(p) && sliceMs > 0.0
    requires HALF_MICRO * p.windowBaseBlocks as real * p.blockTimeSec <= EDGE_MARGIN_HOURS * 3600.0
    ensures p.runStartBlock as real +
            ExtensionSlice(p, endsAtMs, sliceMs, day).lo * p.windowBaseBlocks as real >= p.endBlock as real
  {
    hide Round6, BlockAt;
    var s := ExtensionSlice(p, endsAtMs, sliceMs, day);
    var base := p.windowBaseBlocks as real;
    var open := s.fromHours + EDGE_MARGIN_HOURS * HOUR_MS;
    ProjectionRoundTrip(p, p.endBlock);
    LaterIsHigher(p, MsAt(p, p.endBlock), open, EDGE_MARGIN_HOURS);
    RoundingFits(HALF_MICRO * base, p.blockTimeSec, EDGE_MARGIN_HOURS * 3600.0);
    FracBlocks(p, open);
  }

  /// The length of the base in seconds.
  ghost function Span(base: real, blockTime: real): real { base * blockTime }

  /**
   An extension's windows follow one another too, day by day, and are apart as long as three hours are more
   than a millionth of the base.
   */
  lemma ExtensionWindowsAreApart(p: Position, endsAtMs: real, sliceMs: real, i: int, j: int)
    requires ValidPosition(p) && sliceMs > 0.0 && i < j
    ensures ExtensionSlice(p, endsAtMs, sliceMs, i).hi <= ExtensionSlice(p, endsAtMs, sliceMs, j).lo
    ensures Span(p.windowBaseBlocks as real, p.blockTimeSec) < 10800000000.0 ==>
              ExtensionSlice(p, endsAtMs, sliceMs, i).hi < ExtensionSlice(p, endsAtMs, sliceMs, j).lo
  {
    hide Round6, BlockAt, Frac, DayStart, FromMs;
    var s, t := ExtensionSlice(p, endsAtMs, sliceMs, i), ExtensionSlice(p, endsAtMs, sliceMs, j);
    NextDay(sliceMs, i);
    DaysApart(sliceMs, i, j);
    assert s.toHours <= t.fromHours;
    FracsApart(p, s.toHours - EDGE_MARGIN_HOURS * HOUR_MS, t.fromHours + EDGE_MARGIN_HOURS * HOUR_MS);
  }

  lemma FracsApart(p: Position, a: real, b: real)
    requires ValidPosition(p) && a + 3.0 * HOUR_MS <= b
    ensures Frac(p, a) <= Frac(p, b)
    ensures Span(p.windowBaseBlocks as real, p.blockTimeSec) < 10800000000.0 ==> Frac(p, a) < Frac(p, b)
  {
    hide Round6, BlockAt, Frac, Span;
    var gap := BlocksApart(p, a, b);
    FracIs(p, a);
    FracIs(p, b);
    var x, y := BlockAt(p, a) - p.runStartBlock as real, BlockAt(p, b) - p.runStartBlock as real;
    assert x + gap <= y;
    var base := p.windowBaseBlocks as real;
    assert Frac(p, a) == Round6(x / base) && Frac(p, b) == Round6(y / base);
    RoundedFracs(x, y, base, gap, p.blockTimeSec);
  }

  lemma FracIs(p: Position, ms: real)
    requires ValidPosition(p)
    ensures Frac(p, ms) == Round6((BlockAt(p, ms) - p.runStartBlock as real) / p.windowBaseBlocks as real)
  {}

  /// Three hours in blocks.
  lemma BlocksApart(p: Position, a: real, b: real) returns (gap: real)
    requires ValidPosition(p) && a + 3.0 * HOUR_MS <= b
    ensures gap > 0.0 && gap * p.blockTimeSec == 10800.0 && BlockAt(p, a) + gap <= BlockAt(p, b)
  {
    hide BlockAt;
    LaterIsHigher(p, a, b, 3.0);
    gap := 3.0 * 3600.0 / p.blockTimeSec;
    DivideTimes(3.0 * 3600.0, p.blockTimeSec);
    GapIsPositive(gap, p.blockTimeSec);
  }

  lemma GapIsPositive(gap: real, blockTime: real)
    requires blockTime > 0.0 && gap * blockTime == 10800.0
    ensures gap > 0.0
  {
    if gap <= 0.0 { Scale(gap, 0.0, blockTime); }
  }

  lemma RoundedFracs(x: real, y: real, base: real, gap: real, blockTime: real)
    requires base > 0.0 && blockTime > 0.0 && gap > 0.0 && gap * blockTime == 10800.0 && x + gap <= y
    ensures Round6(x / base) <= Round6(y / base)
    ensures Span(base, blockTime) < 10800000000.0 ==> Round6(x / base) < Round6(y / base)
  {
    hide Round6;
    Ordered(x, y, base);
    DivideTimes(x, base);
    DivideTimes(y, base);
    var u, v := x / base, y / base;
    Round6Monotone(u, v);
    if Span(base, blockTime) < 10800000000.0 {
      MillionthBelow(base, blockTime, gap);
      FractionsApart(u, v, base, gap);
    }
  }

  lemma MillionthBelow(base: real, blockTime: real, gap: real)
    requires blockTime > 0.0 && gap * blockTime == 10800.0 && base * blockTime < 10800000000.0
    ensures 0.000001 * base < gap
  {
    var small, all := 0.000001 * base, base * blockTime;
    var taken, given := small * blockTime, gap * blockTime;
    assert taken == 0.000001 * all by { Regrouped(0.000001, base, blockTime); }
    assert taken < given;
    LowerProduct(small, gap, blockTime);
  }

  lemma LowerProduct(a: real, b: real, k: real)
    requires k > 0.0 && a * k < b * k
    ensures a < b
  {
    if b <= a { Scale(b, a, k); }
  }

  lemma Regrouped(a: real, b: real, c: real)
    ensures a * b * c == a * (b * c)
  {}

  lemma FractionsApart(x: real, y: real, base: real, gap: real)
    requires base > 0.0 && 0.000001 * base < gap && x * base + gap <= y * base
    ensures x + 0.000001 < y
  {
    Scale(y, x + 0.000001, base);
    assert (x + 0.000001) * base == x * base + 0.000001 * base;
  }

  /// A rounded fraction of the base, back in blocks.
  lemma FracBlocks(p: Position, ms: real)
    requires ValidPosition(p)
    ensures var base := p.windowBaseBlocks as real;
            Frac(p, ms) * base >= BlockAt(p, ms) - p.runStartBlock as real - HALF_MICRO * base
  {
    var base := p.windowBaseBlocks as real;
    var x := (BlockAt(p, ms) - p.runStartBlock as real) / base;
    DivideTimes(BlockAt(p, ms) - p.runStartBlock as real, base);
    Round6Bounds(x);
    hide Round6, BlockAt;
    Scale(x - HALF_MICRO, Round6(x), base);
  }

  lemma RoundingFits(blocks: real, blockTime: real, margin: real)
    requires blockTime > 0.0 && blocks * blockTime <= margin
    ensures blocks <= margin / blockTime
  {
    Ordered(blocks * blockTime, margin, blockTime);
    assert blocks * blockTime / blockTime == blocks;
  }
}
