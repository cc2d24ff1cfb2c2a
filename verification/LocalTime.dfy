/** Zone arithmetic of the automation scheduler.

    An instant is a time value in milliseconds (section 21.4.1 of ECMA-262), a calendar date is its
    day number, and a zone is the whole-minute offset it applies at each instant. */
module LocalTime {
  const MINUTE := 60_000
  const DAY_MINUTES := 1_440
  const SEARCH_ROUNDS: nat := 4

  type Zone = int -> int

  datatype Local = Local(day: int, minute: int)

  function Weekday(day: int): int { (day + 4) % 7 }

  /** What the zone's clock and calendar show at an instant, seconds dropped. */
  function ZonedParts(zone: Zone, instant: int): Local {
    var minutes := instant / MINUTE + zone(instant);
    Local(minutes / DAY_MINUTES, minutes % DAY_MINUTES)
  }

  function Utc(value: Local): int { (value.day * DAY_MINUTES + value.minute) * MINUTE }

  function Shown(zone: Zone, instant: int): int { Utc(ZonedParts(zone, instant)) }

  function ShiftLocalDate(day: int, days: int): int { day + days }

  /** Days are counted from the epoch, a Thursday, and weekdays from Sunday; UTC shows the milliseconds since the epoch
      cut into days and minutes. */
  lemma DaysFromEpoch(instant: int)
    ensures ZonedParts((t: int) => 0, instant) == Local(instant / 86_400_000, instant % 86_400_000 / 60_000)
    ensures Weekday(0) == 4 && forall day: int :: Weekday(day + 1) == (Weekday(day) + 1) % 7
    ensures Utc(ZonedParts((t: int) => 0, instant)) <= instant < Utc(ZonedParts((t: int) => 0, instant)) + 60_000
  {
  }

  /** `rounds` corrections of a candidate towards the instant at which the zone shows `target`. */
  function Search(zone: Zone, target: int, candidate: int, rounds: nat): int
    decreases rounds
  {
    if rounds == 0 then candidate else
    var delta := target - Shown(zone, candidate);
    if delta == 0 then candidate else Search(zone, target, candidate + delta, rounds - 1)
  }

  function InstantOf(zone: Zone, value: Local): int {
    Search(zone, Utc(value), Utc(value), SEARCH_ROUNDS)
  }

  method WallTimeToInstant(zone: Zone, value: Local) returns (candidate: int)
    ensures candidate == InstantOf(zone, value)
  {
    var target := Utc(value);
    candidate := target;
    for iteration := 0 to SEARCH_ROUNDS
      invariant InstantOf(zone, value) == Search(zone, target, candidate, SEARCH_ROUNDS - iteration)
    {
      var delta := target - Shown(zone, candidate);
      if delta == 0 { return; }
      candidate := candidate + delta;
    }
  }

  lemma ShownDropsSeconds(zone: Zone, instant: int)
    ensures Shown(zone, instant) == (instant / MINUTE + zone(instant)) * MINUTE
  {
  }

  lemma ShownAtMinute(zone: Zone, minute: int)
    ensures Shown(zone, minute * MINUTE) == (minute + zone(minute * MINUTE)) * MINUTE
  {
    ShownDropsSeconds(zone, minute * MINUTE);
  }

  /** The zone's offset is `a` before minute `change` and `b` from it on, as far as a day around minute
      `target`; no offset anywhere reaches a whole day. */
  ghost predicate OneChange(zone: Zone, a: int, b: int, change: int, target: int) {
    && (forall t :: -DAY_MINUTES < zone(t) < DAY_MINUTES)
    && (forall t | (target - DAY_MINUTES) * MINUTE <= t < (target + DAY_MINUTES) * MINUTE ::
          zone(t) == OffsetAt(a, b, change, t))
  }

  function OffsetAt(a: int, b: int, change: int, t: int): int { if t < change * MINUTE then a else b }

  function Minutes(value: Local): int { value.day * DAY_MINUTES + value.minute }

  lemma InReach(zone: Zone, a: int, b: int, change: int, target: int, minute: int)
    requires OneChange(zone, a, b, change, target) && target - DAY_MINUTES < minute < target + DAY_MINUTES
    ensures zone(minute * MINUTE) == if minute < change then a else b
    ensures target - DAY_MINUTES < target - zone(minute * MINUTE) < target + DAY_MINUTES
  {
    assert zone(minute * MINUTE) == OffsetAt(a, b, change, minute * MINUTE);
  }

  /** The search in whole minutes, over the change alone. */
  function Bounce(a: int, b: int, change: int, target: int, c: int, rounds: nat): int
    decreases rounds
  {
    if rounds == 0 then c else
    var offset := if c < change then a else b;
    if c + offset == target then c else Bounce(a, b, change, target, target - offset, rounds - 1)
  }

  /** The search in whole minutes. */
  function MinuteSearch(zone: Zone, target: int, c: int, rounds: nat): int
    decreases rounds
  {
    if rounds == 0 || c + zone(c * MINUTE) == target then c
    else MinuteSearch(zone, target, target - zone(c * MINUTE), rounds - 1)
  }

  /** From a whole minute, one correction lands on the target minus the offset seen there. */
  lemma SearchStep(zone: Zone, target: int, c: int, rounds: nat)
    requires rounds > 0
    ensures Search(zone, target * MINUTE, c * MINUTE, rounds)
         == if c + zone(c * MINUTE) == target then c * MINUTE
            else Search(zone, target * MINUTE, (target - zone(c * MINUTE)) * MINUTE, rounds - 1)
  {
    var offset := zone(c * MINUTE);
    ShownAtMinute(zone, c);
    assert c * MINUTE + (target * MINUTE - (c + offset) * MINUTE) == (target - offset) * MINUTE;
  }

  lemma {:induction false} SearchInMinutes(zone: Zone, target: int, c: int, rounds: nat)
    ensures Search(zone, target * MINUTE, c * MINUTE, rounds) == MinuteSearch(zone, target, c, rounds) * MINUTE
    decreases rounds
  {
    if rounds > 0 {
      SearchStep(zone, target, c, rounds);
      SearchInMinutes(zone, target, target - zone(c * MINUTE), rounds - 1);
    }
  }

  lemma {:induction false} SearchBounces(zone: Zone, a: int, b: int, change: int, target: int, c: int, rounds: nat)
    requires OneChange(zone, a, b, change, target) && target - DAY_MINUTES < c < target + DAY_MINUTES
    ensures var r := Bounce(a, b, change, target, c, rounds);
            MinuteSearch(zone, target, c, rounds) == r && target - DAY_MINUTES < r < target + DAY_MINUTES
    decreases rounds
  {
    if rounds > 0 {
      InReach(zone, a, b, change, target, c);
      SearchBounces(zone, a, b, change, target, target - zone(c * MINUTE), rounds - 1);
    }
  }

  /** Every candidate after the first is `target` minus an offset; a gap makes the two alternate. */
  lemma BounceEnds(a: int, b: int, change: int, target: int)
    ensures var r := Bounce(a, b, change, target, target, 4);
            var shown := r + if r < change then a else b;
            && (target - a < change || target - b >= change ==> shown == target)
            && (!(target - a < change || target - b >= change) ==>
                a < b && r == target - (if target < change then b else a)
                && shown - target == if target < change then a - b else b - a)
  {
    var first := if target < change then a else b;
    var other := a + b - first;
    assert Bounce(a, b, change, target, target - other, 1) in {target - other, target - first};
    assert Bounce(a, b, change, target, target - first, 2)
        == if target - first + (if target - first < change then a else b) == target then target - first
           else Bounce(a, b, change, target, target - other, 1);
    assert Bounce(a, b, change, target, target - other, 2)
        == if target - other + (if target - other < change then a else b) == target then target - other
           else Bounce(a, b, change, target, target - first, 1);
  }

  lemma SearchEndsAfter(zone: Zone, a: int, b: int, change: int, target: int, rounds: nat) returns (r: int)
    requires OneChange(zone, a, b, change, target)
    ensures r == Bounce(a, b, change, target, target, rounds)
    ensures Search(zone, target * MINUTE, target * MINUTE, rounds) == r * MINUTE
    ensures Shown(zone, r * MINUTE) == (r + if r < change then a else b) * MINUTE
  {
    r := Bounce(a, b, change, target, target, rounds);
    SearchInMinutes(zone, target, target, rounds);
    SearchBounces(zone, a, b, change, target, target, rounds);
    InReach(zone, a, b, change, target, r);
    ShownAtMinute(zone, r);
  }

  /** The minute the search ends on, and the minute the zone shows there. */
  lemma SearchEnds(zone: Zone, a: int, b: int, change: int, value: Local) returns (r: int)
    requires OneChange(zone, a, b, change, Minutes(value))
    ensures r == Bounce(a, b, change, Minutes(value), Minutes(value), 4)
    ensures InstantOf(zone, value) == r * MINUTE
    ensures Shown(zone, r * MINUTE) == (r + if r < change then a else b) * MINUTE
  {
    r := SearchEndsAfter(zone, a, b, change, Minutes(value), SEARCH_ROUNDS);
  }

  /** The wall time is shown somewhere only if it does not fall in the gap the change skips. */
  lemma ShownSomewhere(zone: Zone, a: int, b: int, change: int, value: Local, t: int)
    requires OneChange(zone, a, b, change, Minutes(value)) && Shown(zone, t) == Utc(value)
    ensures Minutes(value) - a < change || Minutes(value) - b >= change
  {
    ShownDropsSeconds(zone, t);
    assert -DAY_MINUTES < zone(t) < DAY_MINUTES;
    assert t / MINUTE + zone(t) == Minutes(value);
    assert zone(t) == OffsetAt(a, b, change, t);
  }

  /** The wall time falls in the gap a forward change skips: read with the offset before the change it comes at or
      after the change, read with the offset after it before the change. */
  predicate InGap(a: int, b: int, change: int, value: Local) {
    Minutes(value) - b < change <= Minutes(value) - a
  }

  /** Around a single change the search returns an instant that shows the requested wall time whenever any
      instant does, and that is so exactly when the wall time is not in the gap. */
  lemma SearchFindsWallTime(zone: Zone, a: int, b: int, change: int, value: Local)
    requires OneChange(zone, a, b, change, Minutes(value))
    ensures (exists t :: Shown(zone, t) == Utc(value)) <==> Shown(zone, InstantOf(zone, value)) == Utc(value)
    ensures Shown(zone, InstantOf(zone, value)) == Utc(value) <==> !InGap(a, b, change, value)
  {
    BounceEnds(a, b, change, Minutes(value));
    var r := SearchEnds(zone, a, b, change, value);
    if t :| Shown(zone, t) == Utc(value) { ShownSomewhere(zone, a, b, change, value, t); }
  }

  /** In the gap the search ends on one of the two candidates it alternates between, and the shown time is wrong
      by exactly the jump. */
  lemma SearchInGap(zone: Zone, a: int, b: int, change: int, value: Local)
    requires OneChange(zone, a, b, change, Minutes(value)) && InGap(a, b, change, value)
    ensures a < b
    ensures InstantOf(zone, value) == Utc(value) - (if Minutes(value) < change then b else a) * MINUTE
    ensures Shown(zone, InstantOf(zone, value)) - Utc(value)
         == (if Minutes(value) < change then a - b else b - a) * MINUTE
  {
    BounceEnds(a, b, change, Minutes(value));
    var r := SearchEnds(zone, a, b, change, value);
  }

  /** The wall time is shown twice, once on either side of a backward change. */
  predicate InOverlap(a: int, b: int, change: int, value: Local) {
    Minutes(value) - a < change <= Minutes(value) - b
  }

  /** Both readings of such a wall time show it. */
  lemma OverlapShowsTwice(zone: Zone, a: int, b: int, change: int, value: Local)
    requires OneChange(zone, a, b, change, Minutes(value)) && InOverlap(a, b, change, value)
    requires -DAY_MINUTES < a < DAY_MINUTES && -DAY_MINUTES < b < DAY_MINUTES
    ensures Shown(zone, Utc(value) - a * MINUTE) == Utc(value)
    ensures Shown(zone, Utc(value) - b * MINUTE) == Utc(value)
  {
    var target := Minutes(value);
    ReadWith(zone, a, b, change, value, target - a);
    ReadWith(zone, a, b, change, value, target - b);
  }

  lemma ReadWith(zone: Zone, a: int, b: int, change: int, value: Local, minute: int)
    requires OneChange(zone, a, b, change, Minutes(value))
    requires Minutes(value) - DAY_MINUTES < minute < Minutes(value) + DAY_MINUTES
    ensures Shown(zone, minute * MINUTE) == (minute + if minute < change then a else b) * MINUTE
  {
    InReach(zone, a, b, change, Minutes(value), minute);
    ShownAtMinute(zone, minute);
  }

  /** A wall time that is shown twice is read with the offset that holds at the instant the search starts from: the
      first reading if that instant is before the change, else the second. */
  lemma SearchInOverlap(zone: Zone, a: int, b: int, change: int, value: Local)
    requires OneChange(zone, a, b, change, Minutes(value)) && InOverlap(a, b, change, value)
    ensures InstantOf(zone, value) == Utc(value) - (if Minutes(value) < change then a else b) * MINUTE
  {
    BounceInOverlap(a, b, change, Minutes(value));
    var r := SearchEnds(zone, a, b, change, value);
  }

  lemma BounceInOverlap(a: int, b: int, change: int, target: int)
    requires target - a < change <= target - b
    ensures Bounce(a, b, change, target, target, 4) == target - if target < change then a else b
  {
    var offset := if target < change then a else b;
    assert Bounce(a, b, change, target, target - offset, 3) == target - offset;
  }
}
