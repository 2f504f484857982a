/** Weekly access windows (access_window.rs): slots with midnight and Sunday wrap, a fixed UTC
    offset, an expiry, and the next instant at which the state flips. */
module AccessWindow {
  import opened Wrappers
  import CivilDate

  const I64_MIN := -0x8000_0000_0000_0000
  const I64_MAX := 0x7fff_ffff_ffff_ffff
  const MINUTE := 60
  const DAY := 86_400
  const WEEK := 604_800
  const MINUTES_PER_DAY := 1_440
  const EPOCH_WEEKDAY := 3

  // ---- Slots ----

  datatype SlotError = BadDay | BadStart | BadEnd | EmptySlot

  datatype Slot = Slot(day: nat, start: nat, end: nat) {
    function Validate(): (r: Result<(), SlotError>)
      ensures r.Ok? <==> day <= 6 && start < MINUTES_PER_DAY && 0 < end <= MINUTES_PER_DAY && end != start
    {
      if day > 6 then Err(BadDay)
      else if start >= MINUTES_PER_DAY then Err(BadStart)
      else if end == 0 || end > MINUTES_PER_DAY then Err(BadEnd)
      else if end == start then Err(EmptySlot)
      else Ok(())
    }

    predicate IsValid() {
      Validate().Ok?
    }

    predicate WrapsMidnight() {
      end <= start
    }

    predicate Contains(weekday: int, minuteOfDay: int) {
      if !IsValid() then false
      else if WrapsMidnight() then
        || (weekday == day && minuteOfDay >= start)
        || (weekday == (day + 1) % 7 && minuteOfDay < end)
      else
        weekday == day && minuteOfDay >= start && minuteOfDay < end
    }

    function WeekStart(): int {
      (day * MINUTES_PER_DAY + start) * MINUTE
    }

    function WeekEnd(): int {
      ((if WrapsMidnight() then day + 1 else day) * MINUTES_PER_DAY + end) * MINUTE
    }

    /** The slot as a half-open interval of the week that may run over its end. */
    predicate Covers(position: int) {
      || WeekStart() <= position < WeekEnd()
      || WeekStart() <= position + WEEK < WeekEnd()
    }
  }

  // ---- Local time ----

  /** Seconds since local Monday 00:00, for a local timestamp. */
  function Position(local: int): (p: int)
    ensures 0 <= p < WEEK
  {
    (local + EPOCH_WEEKDAY * DAY) % WEEK
  }

  function Weekday(local: int): int {
    (local / DAY + EPOCH_WEEKDAY) % 7
  }

  function MinuteOfDay(local: int): int {
    (local % DAY) / MINUTE
  }

  function SaturatingAdd(a: int, b: int): int {
    if a + b < I64_MIN then I64_MIN else if a + b > I64_MAX then I64_MAX else a + b
  }

  datatype WeeklySchedule = WeeklySchedule(tzOffsetMinutes: int, slots: seq<Slot>) {
    function Offset(): int {
      tzOffsetMinutes * MINUTE
    }

    function LocalSecs(now: int): int {
      SaturatingAdd(now, Offset())
    }

    predicate OpenAtLocal(local: int) {
      exists i | 0 <= i < |slots| :: slots[i].Contains(Weekday(local), MinuteOfDay(local))
    }

    predicate IsOpen(now: int) {
      OpenAtLocal(LocalSecs(now))
    }

    /** Where neither `saturating_add` nor the week arithmetic of `next_change` leaves i64. */
    predicate InRange(now: int) {
      && I64_MIN <= now <= I64_MAX - WEEK
      && I64_MIN + 2 * WEEK <= now + Offset() <= I64_MAX - 2 * WEEK
    }
  }

  // ---- `contains` is the week interval ----

  lemma SecondsOfMinute(d: int, s: int)
    ensures (d * DAY + s) % MINUTE == s % MINUTE
  {
    var q, r := s / MINUTE, s % MINUTE;
    assert d * DAY + s == MINUTE * (MINUTES_PER_DAY * d + q) + r;
  }

  lemma PositionOfDay(d: int, s: int)
    requires 0 <= s < DAY
    ensures Position(d * DAY + s) == (d + EPOCH_WEEKDAY) % 7 * DAY + s
  {
    var w, k := (d + EPOCH_WEEKDAY) % 7, (d + EPOCH_WEEKDAY) / 7;
    assert d + EPOCH_WEEKDAY == 7 * k + w;
    RemainderIs(k, w * DAY + s, d * DAY + s + EPOCH_WEEKDAY * DAY);
  }

  lemma PositionOfCivil(local: int)
    ensures Position(local) == Weekday(local) * DAY + MinuteOfDay(local) * MINUTE + local % MINUTE
    ensures 0 <= Weekday(local) < 7 && 0 <= MinuteOfDay(local) < MINUTES_PER_DAY
  {
    var d, s := local / DAY, local % DAY;
    assert local == d * DAY + s;
    PositionOfDay(d, s);
    SecondsOfMinute(d, s);
    assert s == s / MINUTE * MINUTE + s % MINUTE;
  }

  lemma ContainsIsCovers(slot: Slot, local: int)
    requires slot.IsValid()
    ensures slot.Contains(Weekday(local), MinuteOfDay(local)) <==> slot.Covers(Position(local))
  {
    PositionOfCivil(local);
    var w, m, s := Weekday(local), MinuteOfDay(local), local % MINUTE;
    var p := Position(local);
    assert p == w * DAY + m * MINUTE + s && 0 <= s < MINUTE;
    if slot.WrapsMidnight() {
      assert (slot.day + 1) % 7 == if slot.day == 6 then 0 else slot.day + 1;
    }
  }

  /** The state is a function of the position in the week. */
  lemma OpenIsWeekly(s: WeeklySchedule, a: int, b: int)
    requires Position(a) == Position(b)
    ensures s.OpenAtLocal(a) == s.OpenAtLocal(b)
  {
    forall i | 0 <= i < |s.slots|
      ensures s.slots[i].Contains(Weekday(a), MinuteOfDay(a)) == s.slots[i].Contains(Weekday(b), MinuteOfDay(b))
    {
      if s.slots[i].IsValid() {
        ContainsIsCovers(s.slots[i], a);
        ContainsIsCovers(s.slots[i], b);
      }
    }
  }

  // ---- `is_open` in plain numbers ----

  /** Weeks are counted from the Monday three days before the epoch. */
  lemma WeeksStartOnMonday()
    ensures CivilDate.DaysFromCivil(CivilDate.Date(1969, 12, 29)) == -3 && -3 * 86_400 == -259_200
  {
  }

  /** In week `k`, local time `local` lies in the slot: from its start on its day, Monday 0, to before its
      end, on the next day if that is not after the start. */
  predicate InWeek(slot: Slot, k: int, local: int) {
    && slot.day <= 6 && slot.start < 1440 && 0 < slot.end <= 1440 && slot.end != slot.start
    && var monday := -259_200 + 604_800 * k;
       && monday + 60 * (1440 * slot.day + slot.start) <= local
       && local < monday + 60 * (1440 * (if slot.end <= slot.start then slot.day + 1 else slot.day) + slot.end)
  }

  /** The week a local time lies in, and the position in it. */
  lemma WeekOf(local: int) returns (k: int)
    ensures local == -259_200 + 604_800 * k + Position(local)
  {
    k := (local + 259_200) / 604_800;
  }

  lemma PositionInWeek(local: int, k: int, offset: int)
    requires local == -259_200 + 604_800 * k + offset && 0 <= offset < 604_800
    ensures Position(local) == offset
  {
    RemainderIs(k, offset, local + EPOCH_WEEKDAY * DAY);
  }

  lemma SlotIsInWeek(slot: Slot, local: int)
    ensures slot.Contains(Weekday(local), MinuteOfDay(local)) <==> exists k :: InWeek(slot, k, local)
  {
    var k := WeekOf(local);
    var p := Position(local);
    if slot.IsValid() {
      ContainsIsCovers(slot, local);
      WeekOffsetsAreBounded(slot);
      if slot.Covers(p) {
        assert InWeek(slot, k, local) || InWeek(slot, k - 1, local);
      }
      if j :| InWeek(slot, j, local) {
        var offset := local + 259_200 - 604_800 * j;
        assert slot.WeekStart() <= offset < slot.WeekEnd();
        if offset < 604_800 {
          PositionInWeek(local, j, offset);
        } else {
          PositionInWeek(local, j + 1, offset - 604_800);
        }
      }
    }
  }

  ghost predicate SomeSlotCovers(slots: seq<Slot>, local: int) {
    exists i, k | 0 <= i < |slots| :: InWeek(slots[i], k, local)
  }

  /** A schedule is open exactly when some slot covers the local time, `tz` minutes ahead of UTC, in some
      week. */
  lemma OpenInPlainNumbers(s: WeeklySchedule, now: int)
    requires -0x8000_0000_0000_0000 <= now + 60 * s.tzOffsetMinutes <= 0x7fff_ffff_ffff_ffff
    ensures s.IsOpen(now) <==> SomeSlotCovers(s.slots, now + 60 * s.tzOffsetMinutes)
  {
    var local := now + 60 * s.tzOffsetMinutes;
    assert s.LocalSecs(now) == local;
    forall i | 0 <= i < |s.slots|
      ensures s.slots[i].Contains(Weekday(local), MinuteOfDay(local)) <==> exists k :: InWeek(s.slots[i], k, local)
    {
      SlotIsInWeek(s.slots[i], local);
    }
  }

  // ---- Boundaries ----

  /** The first local instant strictly after `local` at which week offset `boundary` recurs. */
  function NextOccurrence(boundary: int, local: int): (at: int)
    ensures local < at <= local + WEEK
  {
    local + 1 + (boundary - Position(local) - 1) % WEEK
  }

  predicate IsBoundary(slot: Slot, boundary: int) {
    slot.IsValid() && (boundary == slot.WeekStart() || boundary == slot.WeekEnd())
  }

  lemma PositionAdvances(local: int)
    ensures Position(local + 1) == if Position(local) == WEEK - 1 then 0 else Position(local) + 1
  {
  }

  /** A slot turns on or off only where one of its two week offsets recurs. */
  lemma SlotFlipsAtItsBoundary(slot: Slot, local: int) returns (boundary: int)
    requires slot.IsValid()
    requires slot.Covers(Position(local)) != slot.Covers(Position(local + 1))
    ensures IsBoundary(slot, boundary) && boundary % WEEK == Position(local + 1)
  {
    var p, q := Position(local), Position(local + 1);
    PositionAdvances(local);
    boundary := if slot.Covers(p) then slot.WeekEnd() else slot.WeekStart();
    WeekOffsetsAreBounded(slot);
    assert boundary == q || boundary == q + WEEK;
  }

  lemma ScheduleFlipsAtABoundary(s: WeeklySchedule, local: int) returns (i: int, boundary: int)
    requires s.OpenAtLocal(local) != s.OpenAtLocal(local + 1)
    ensures 0 <= i < |s.slots| && IsBoundary(s.slots[i], boundary) && boundary % WEEK == Position(local + 1)
  {
    if forall k | 0 <= k < |s.slots| ::
         s.slots[k].Contains(Weekday(local), MinuteOfDay(local))
         == s.slots[k].Contains(Weekday(local + 1), MinuteOfDay(local + 1))
    {
      assert false;
    } else {
      i :| 0 <= i < |s.slots|
        && s.slots[i].Contains(Weekday(local), MinuteOfDay(local))
           != s.slots[i].Contains(Weekday(local + 1), MinuteOfDay(local + 1));
      ContainsIsCovers(s.slots[i], local);
      ContainsIsCovers(s.slots[i], local + 1);
      boundary := SlotFlipsAtItsBoundary(s.slots[i], local);
    }
  }

  lemma OccurrenceIsUnique(boundary: int, local: int, at: int)
    requires local < at <= local + WEEK
    requires boundary % WEEK == Position(at)
    ensures at == NextOccurrence(boundary, local)
  {
    var p, gap := Position(local), at - local - 1;
    var m := (local + EPOCH_WEEKDAY * DAY) / WEEK;
    assert local + EPOCH_WEEKDAY * DAY == m * WEEK + p;
    var m' := (at + EPOCH_WEEKDAY * DAY) / WEEK;
    assert at + EPOCH_WEEKDAY * DAY == m' * WEEK + Position(at);
    var k := boundary / WEEK;
    assert boundary == k * WEEK + boundary % WEEK;
    assert boundary - p - 1 == (k + m - m') * WEEK + gap;
    RemainderIs(k + m - m', gap, boundary - p - 1);
  }

  lemma RemainderIs(k: int, r: int, x: int)
    requires 0 <= r < WEEK && x == k * WEEK + r
    ensures x % WEEK == r
  {
  }

  // ---- First flips ----

  /** `r` is the first instant after `now`, within i64, at which `open` differs from now. */
  ghost predicate IsFirstFlip(open: int -> bool, now: int, r: Option<int>) {
    match r
    case Some(u) =>
      now < u <= I64_MAX && open(u) != open(now) && forall t | now < t < u :: open(t) == open(now)
    case None =>
      forall t | now < t <= I64_MAX :: open(t) == open(now)
  }

  /** If the state ever differs by `limit`, there is a first instant at which it does. */
  lemma {:induction false} FirstDifference(open: int -> bool, now: int, limit: int) returns (r: Option<int>)
    requires now <= limit
    ensures match r
            case Some(u) => now < u <= limit && open(u) != open(now) && forall t | now < t < u :: open(t) == open(now)
            case None => forall t | now < t <= limit :: open(t) == open(now)
    decreases limit - now
  {
    if now == limit {
      return None;
    }
    r := FirstDifference(open, now, limit - 1);
    if r.None? && open(limit) != open(now) {
      r := Some(limit);
    }
  }

  ghost function ScheduleState(s: WeeklySchedule): int -> bool {
    t => s.IsOpen(t)
  }

  /** A state that does not flip for a week never flips, not even where the clock saturates. */
  lemma QuietWeekIsForever(s: WeeklySchedule, now: int)
    requires s.InRange(now)
    requires forall t | now < t <= now + WEEK :: s.IsOpen(t) == s.IsOpen(now)
    ensures forall t | now < t <= I64_MAX :: s.IsOpen(t) == s.IsOpen(now)
  {
    forall t | now < t <= I64_MAX
      ensures s.IsOpen(t) == s.IsOpen(now)
    {
      var at := NextOccurrence(Position(s.LocalSecs(t)), s.LocalSecs(now));
      var twin := at - s.Offset();
      assert Position(at) == Position(s.LocalSecs(t)) by { OccurrenceHasPosition(Position(s.LocalSecs(t)), s.LocalSecs(now)); }
      OpenIsWeekly(s, at, s.LocalSecs(t));
      assert now < twin <= now + WEEK && s.LocalSecs(twin) == at;
      assert s.IsOpen(twin) == s.IsOpen(now);
    }
  }

  lemma OccurrenceHasPosition(boundary: int, local: int)
    ensures Position(NextOccurrence(boundary, local)) == boundary % WEEK
  {
    var p := Position(local);
    var m := (local + EPOCH_WEEKDAY * DAY) / WEEK;
    var q, gap := (boundary - p - 1) / WEEK, (boundary - p - 1) % WEEK;
    assert boundary - p - 1 == q * WEEK + gap;
    assert NextOccurrence(boundary, local) + EPOCH_WEEKDAY * DAY == (m - q) * WEEK + boundary;
    var k := boundary / WEEK;
    assert boundary == k * WEEK + boundary % WEEK;
    RemainderIs(m - q + k, boundary % WEEK, (m - q) * WEEK + boundary);
  }

  /** The instants `next_change` may return: for every valid slot, where its offsets next recur. */
  ghost predicate IsCandidate(s: WeeklySchedule, now: int, t: int) {
    exists i, boundary | 0 <= i < |s.slots| && IsBoundary(s.slots[i], boundary) ::
      t == NextOccurrence(boundary, s.LocalSecs(now)) - s.Offset()
  }

  /** Completeness of the candidates: the first flip of the week is one of them. */
  lemma FirstFlipIsACandidate(s: WeeklySchedule, now: int, u: int)
    requires s.InRange(now) && now < u <= now + WEEK
    requires s.IsOpen(u) != s.IsOpen(now) && forall t | now < t < u :: s.IsOpen(t) == s.IsOpen(now)
    ensures IsCandidate(s, now, u)
  {
    assert s.IsOpen(u - 1) == s.IsOpen(now);
    var at := s.LocalSecs(u);
    var i, boundary := ScheduleFlipsAtABoundary(s, at - 1);
    OccurrenceIsUnique(boundary, s.LocalSecs(now), at);
  }

  // ---- `WeeklySchedule::next_change` ----

  predicate Ascending(xs: seq<int>) {
    forall i, j | 0 <= i < j < |xs| :: xs[i] <= xs[j]
  }

  lemma PrependAscending(x: int, xs: seq<int>)
    requires Ascending(xs) && forall y | y in xs :: x <= y
    ensures Ascending([x] + xs)
  {
    forall i, j | 0 <= i < j < |[x] + xs|
      ensures ([x] + xs)[i] <= ([x] + xs)[j]
    {
      assert ([x] + xs)[j] == xs[j - 1] && xs[j - 1] in xs;
    }
  }

  /** The first element is below all others, and the others ascend. */
  lemma AscendingParts(xs: seq<int>)
    requires Ascending(xs) && xs != []
    ensures Ascending(xs[1..]) && forall y | y in xs :: xs[0] <= y
    ensures forall y :: y in xs <==> y == xs[0] || y in xs[1..]
  {
    assert xs == [xs[0]] + xs[1..];
  }

  function Insert(x: int, xs: seq<int>): (r: seq<int>)
    requires Ascending(xs)
    ensures Ascending(r) && forall y :: y in r <==> y == x || y in xs
  {
    if xs == [] then [x]
    else
      AscendingParts(xs);
      if x <= xs[0] then
        PrependAscending(x, xs);
        [x] + xs
      else
        var rest := Insert(x, xs[1..]);
        PrependAscending(xs[0], rest);
        [xs[0]] + rest
  }

  /** `sort_unstable` on the candidates. */
  function Sorted(xs: seq<int>): (r: seq<int>)
    ensures Ascending(r) && forall y :: y in r <==> y in xs
  {
    if xs == [] then []
    else
      assert xs == [xs[0]] + xs[1..];
      Insert(xs[0], Sorted(xs[1..]))
  }

  predicate FitsI64(x: int) {
    I64_MIN <= x <= I64_MAX
  }

  method OccurrenceAfter(weekStart: int, boundary: int, local: int) returns (at: int)
    requires weekStart == local - Position(local)
    requires 0 <= boundary <= 2 * WEEK
    requires I64_MIN + 2 * WEEK <= local <= I64_MAX - 2 * WEEK
    ensures at == NextOccurrence(boundary, local)
  {
    at := weekStart + boundary;
    ghost var k := 0;
    while at <= local
      invariant at == weekStart + boundary + k * WEEK && FitsI64(at)
      decreases local - at
    {
      at, k := at + WEEK, k + 1;
    }
    while at - WEEK > local
      invariant at == weekStart + boundary + k * WEEK && local < at && FitsI64(at) && FitsI64(at - WEEK)
      decreases at - local
    {
      at, k := at - WEEK, k - 1;
    }
    var gap := at - local - 1;
    assert boundary - Position(local) - 1 == (-k) * WEEK + gap;
    RemainderIs(-k, gap, boundary - Position(local) - 1);
  }

  lemma WeekOffsetsAreBounded(slot: Slot)
    requires slot.IsValid()
    ensures 0 <= slot.WeekStart() < WEEK && slot.WeekStart() < slot.WeekEnd() <= slot.WeekStart() + DAY
  {
  }

  method Candidates(s: WeeklySchedule, now: int) returns (candidates: seq<int>)
    requires s.InRange(now)
    ensures forall t :: t in candidates <==> IsCandidate(s, now, t)
  {
    var local := s.LocalSecs(now);
    PositionOfCivil(local);
    var secsIntoWeek := (Weekday(local) * MINUTES_PER_DAY + MinuteOfDay(local)) * MINUTE + local % MINUTE;
    var weekStart := local - secsIntoWeek;
    candidates := [];
    var i := 0;
    while i < |s.slots|
      invariant 0 <= i <= |s.slots|
      invariant forall t :: t in candidates <==>
        exists k, boundary | 0 <= k < i && IsBoundary(s.slots[k], boundary) :: t == NextOccurrence(boundary, local) - s.Offset()
    {
      var slot := s.slots[i];
      if slot.IsValid() {
        WeekOffsetsAreBounded(slot);
        var first := OccurrenceAfter(weekStart, slot.WeekStart(), local);
        var second := OccurrenceAfter(weekStart, slot.WeekEnd(), local);
        assert IsBoundary(slot, slot.WeekStart()) && IsBoundary(slot, slot.WeekEnd());
        candidates := candidates + [first - s.Offset(), second - s.Offset()];
      }
      i := i + 1;
    }
  }

  /** The first flip is a candidate; without one in the coming week there is none at all. */
  lemma FirstFlip(s: WeeklySchedule, now: int) returns (first: Option<int>)
    requires s.InRange(now)
    ensures IsFirstFlip(ScheduleState(s), now, first) && (first.Some? ==> IsCandidate(s, now, first.value))
  {
    first := FirstDifference(ScheduleState(s), now, now + WEEK);
    assert forall t :: ScheduleState(s)(t) == s.IsOpen(t);
    if first.None? {
      QuietWeekIsForever(s, now);
    } else {
      FirstFlipIsACandidate(s, now, first.value);
    }
  }

  lemma CandidateIsNear(s: WeeklySchedule, now: int, t: int)
    requires s.InRange(now) && IsCandidate(s, now, t)
    ensures now < t <= now + WEEK
  {
  }

  /** Of ascending candidates that include the first flip, the first that differs is that flip. */
  lemma FirstDifferingIsFirstFlip(open: int -> bool, now: int, candidates: seq<int>, i: nat, first: Option<int>)
    requires Ascending(candidates) && forall t | t in candidates :: now < t <= I64_MAX
    requires IsFirstFlip(open, now, first) && (first.Some? ==> first.value in candidates)
    requires i <= |candidates| && forall k | 0 <= k < i :: open(candidates[k]) == open(now)
    requires i < |candidates| ==> open(candidates[i]) != open(now)
    ensures first == if i < |candidates| then Some(candidates[i]) else None
  {
    if first.Some? {
      var k :| 0 <= k < |candidates| && candidates[k] == first.value;
      assert i <= k && candidates[i] <= candidates[k];
    }
    assert i < |candidates| ==> candidates[i] in candidates;
  }

  /** `next_change` is exact: the least later instant at which the state differs, or `None`
      exactly when it never does. */
  method NextChange(s: WeeklySchedule, now: int) returns (r: Option<int>)
    requires s.InRange(now)
    ensures IsFirstFlip(ScheduleState(s), now, r)
  {
    var openNow := s.IsOpen(now);
    var unsorted := Candidates(s, now);
    var candidates := Sorted(unsorted);
    var i := 0;
    while i < |candidates| && s.IsOpen(candidates[i]) == openNow
      invariant 0 <= i <= |candidates|
      invariant forall k | 0 <= k < i :: s.IsOpen(candidates[k]) == openNow
    {
      i := i + 1;
    }
    r := if i < |candidates| then Some(candidates[i]) else None;
    ghost var first := FirstFlip(s, now);
    forall t | t in candidates
      ensures now < t <= I64_MAX
    {
      CandidateIsNear(s, now, t);
    }
    assert forall t :: ScheduleState(s)(t) == s.IsOpen(t);
    FirstDifferingIsFirstFlip(ScheduleState(s), now, candidates, i, first);
  }

  // ---- `AccessPolicy`: expiry and schedule combined ----

  datatype AccessPolicy = AccessPolicy(expiresAt: Option<int>, schedule: Option<WeeklySchedule>) {
    predicate IsExpired(now: int) {
      expiresAt.Some? && now >= expiresAt.value
    }

    predicate IsOpen(now: int) {
      if IsExpired(now) then false
      else if schedule.Some? then schedule.value.IsOpen(now)
      else true
    }

    /** i64 throughout; the schedule's week arithmetic is only reached before the expiry. */
    predicate InRange(now: int) {
      && I64_MIN <= now <= I64_MAX
      && (expiresAt.Some? ==> I64_MIN <= expiresAt.value <= I64_MAX)
      && (!IsExpired(now) && schedule.Some? ==> schedule.value.InRange(now))
    }
  }

  /** A policy is open exactly before its expiry, if it has one, and while its schedule is, if it has one. */
  lemma PolicyInPlainNumbers(p: AccessPolicy, now: int)
    requires p.schedule.Some? ==>
               -0x8000_0000_0000_0000 <= now + 60 * p.schedule.value.tzOffsetMinutes <= 0x7fff_ffff_ffff_ffff
    ensures p.IsOpen(now) <==>
              && (p.expiresAt.Some? ==> now < p.expiresAt.value)
              && (p.schedule.Some? ==>
                    SomeSlotCovers(p.schedule.value.slots, now + 60 * p.schedule.value.tzOffsetMinutes))
  {
    if p.schedule.Some? {
      OpenInPlainNumbers(p.schedule.value, now);
    }
  }

  ghost function PolicyState(p: AccessPolicy): int -> bool {
    t => p.IsOpen(t)
  }

  function Min(a: int, b: int): int {
    if a <= b then a else b
  }

  /** `AccessPolicy::next_change` is exact for every combination of expiry and schedule. */
  method PolicyNextChange(p: AccessPolicy, now: int) returns (r: Option<int>)
    requires p.InRange(now)
    ensures IsFirstFlip(PolicyState(p), now, r)
  {
    if p.IsExpired(now) {
      return None;
    }
    var scheduled: Option<int> := None;
    if p.schedule.Some? {
      scheduled := NextChange(p.schedule.value, now);
      assert forall t :: ScheduleState(p.schedule.value)(t) == p.schedule.value.IsOpen(t);
    }
    match (p.IsOpen(now), scheduled, p.expiresAt) {
      case (true, Some(s), Some(e)) => r := Some(Min(s, e));
      case (true, Some(s), None) => r := Some(s);
      case (true, None, e) => r := e;
      case (false, Some(s), Some(e)) => r := if s < e then Some(s) else None;
      case (false, Some(s), None) => r := Some(s);
      case (false, None, _) => r := None;
    }
  }

  /** `steps` is what iterating `next_change` from `steps[0]` yields. */
  ghost predicate IsIteration(open: int -> bool, steps: seq<int>) {
    |steps| > 0 && forall i | 0 < i < |steps| :: IsFirstFlip(open, steps[i - 1], Some(steps[i]))
  }

  /** Iterating `next_change` lists every transition of the state once and in order; when the
      iteration ends in `None`, there is no transition it did not list. */
  lemma IterationListsEveryTransition(open: int -> bool, steps: seq<int>)
    requires IsIteration(open, steps)
    ensures forall i, j | 0 <= i < j < |steps| :: steps[i] < steps[j]
    ensures forall v | steps[0] < v <= steps[|steps| - 1] :: open(v) != open(v - 1) <==> v in steps
    ensures IsFirstFlip(open, steps[|steps| - 1], None) ==>
              forall v | steps[0] < v <= I64_MAX :: open(v) != open(v - 1) <==> v in steps
  {
    StepsAreTheTransitions(open, steps);
    var last := steps[|steps| - 1];
    if IsFirstFlip(open, last, None) {
      forall v | last < v <= I64_MAX
        ensures open(v) == open(v - 1) && v !in steps
      {
        assert open(v) == open(last) && open(v - 1) == open(last);
      }
    }
  }

  lemma {:induction false} StepsAreTheTransitions(open: int -> bool, steps: seq<int>)
    requires IsIteration(open, steps)
    ensures forall i, j | 0 <= i < j < |steps| :: steps[i] < steps[j]
    ensures forall v | steps[0] < v <= steps[|steps| - 1] :: open(v) != open(v - 1) <==> v in steps
  {
    var n := |steps| - 1;
    if n > 0 {
      var before := steps[..n];
      assert IsIteration(open, before);
      StepsAreTheTransitions(open, before);
      var a, b := steps[n - 1], steps[n];
      assert IsFirstFlip(open, a, Some(b));
      assert steps == before + [b];
      forall v | steps[0] < v <= b
        ensures open(v) != open(v - 1) <==> v in steps
      {
        if v <= a {
          assert v in steps <==> v in before;
        } else if v < b {
          assert open(v) == open(a) && open(v - 1) == open(a);
          assert v !in before;
        } else {
          assert open(v - 1) == open(a);
        }
      }
    }
  }
}
