/** The dose occurrences the reminder engine derives from one prescription: wall-clock slots
    today and tomorrow for a times schedule, the next step of the epoch-aligned grid for an
    interval schedule. */
module Occurrences {
  import opened Wrappers
  import opened JsText
  import opened IsoTime
  import opened Frequency

  /** A prescription as stored; a missing dosage or note is the empty string. */
  datatype Prescription = Prescription(
    id: string, profileId: string, name: string, dosage: string, frequency: string,
    startDate: int, endDate: Option<int>, active: bool, notes: string)

  /** One reminder item; `intervalStepMs` is present for interval schedules only. */
  datatype Occurrence = Occurrence(
    key: string, when: int, title: string, kind: string, profileId: string,
    profileName: string, notes: string, intervalStepMs: Option<int>)

  /** The error `toISOString` throws on an Invalid Date. */
  const InvalidTimeValue: string := "RangeError: Invalid time value"

  /** The end of the reminder window, 24 hours after `now`. */
  function WindowEnd(now: int): int {
    now + DayMs
  }

  /** `ts >= now && ts <= windowEnd`, where an invalid `windowEnd` compares false. */
  predicate InWindow(now: int, ts: int) {
    ValidTime(WindowEnd(now)) && now <= ts <= WindowEnd(now)
  }

  /** `Take <name>`, followed by a space and the dosage when there is one. */
  function Title(rx: Prescription): (r: string)
    ensures rx.dosage == "" ==> r == "Take " + rx.name
    ensures rx.dosage != "" ==> r == "Take " + rx.name + " " + rx.dosage
  {
    "Take " + rx.name + (if rx.dosage != "" then " " + rx.dosage else "")
  }

  /** The name of the owning profile, or an em dash when it is unknown or empty. */
  function ProfileName(names: map<string, string>, profileId: string): (r: string)
    ensures r != ""
    ensures profileId in names && names[profileId] != "" ==> r == names[profileId]
  {
    if profileId in names && names[profileId] != "" then names[profileId] else "—"
  }

  /** `isoKey`: `rxId:ISO`, the prescription id and the ISO text of the instant. */
  function OccurrenceKey(rxId: string, ts: int): string
    requires ValidTime(ts)
  {
    rxId + ":" + IsoString(ts)
  }

  /** The reminder item for `rx` at instant `ts`. */
  function MakeOccurrence(rx: Prescription, names: map<string, string>, ts: int, step: Option<int>): Occurrence
    requires ValidTime(ts)
  {
    Occurrence(OccurrenceKey(rx.id, ts), ts, Title(rx), "medication", rx.profileId,
               ProfileName(names, rx.profileId), rx.notes, step)
  }

  /** An item is one of `rx`'s: its key, title, owner, name and note are those `rx` gives it. */
  predicate OccurrenceOf(rx: Prescription, names: map<string, string>, o: Occurrence) {
    && ValidTime(o.when)
    && o.key == OccurrenceKey(rx.id, o.when)
    && o.title == Title(rx)
    && o.kind == "medication"
    && o.profileId == rx.profileId
    && o.profileName == ProfileName(names, rx.profileId)
    && o.notes == rx.notes
  }

  // ---------------------------------------------------------------------------------------
  // Local wall-clock time (a fixed offset `tz`, in milliseconds east of UTC)

  /** The local calendar day of `t`, counted in days from the epoch. */
  function LocalDay(t: int, tz: int): int {
    (t + tz) / DayMs
  }

  /** The local time of day of `t`, in milliseconds since local midnight. */
  function WallClock(t: int, tz: int): (r: int)
    ensures 0 <= r < DayMs
  {
    (t + tz) % DayMs
  }

  /** The instant of the local midnight that starts the day holding `t`. */
  function LocalMidnight(t: int, tz: int): (r: int)
    ensures r <= t < r + DayMs
    ensures WallClock(r, tz) == 0 && LocalDay(r, tz) == LocalDay(t, tz)
  {
    t - WallClock(t, tz)
  }

  /** `ToIntegerOrInfinity` on a finite number: truncation toward zero. */
  function Trunc(x: real): (r: int)
    ensures x >= 0.0 ==> r == x.Floor
    ensures x < 0.0 ==> r == -((-x).Floor)
  {
    if x >= 0.0 then x.Floor else -((-x).Floor)
  }

  /** `atTime(day, hhmm)` on the day `add` days after `now`: `setDate` moves by whole local days,
      `split(":").map(Number)` reads hour and minute, and `setHours(h, m, 0, 0)` moves to that
      local time of the same day. `None` is an Invalid Date: a day or result out of range, or
      an hour or minute that is NaN (a missing minute is `undefined`, which is NaN too). */
  function AtTime(now: int, tz: int, add: int, hhmm: string): Option<int> {
    var day := now + add * DayMs;
    if !ValidTime(day) then None
    else
      match ClockOffset(hhmm)
      case None => None
      case Some(off) =>
        var t := LocalMidnight(day, tz) + off;
        if ValidTime(t) then Some(t) else None
  }

  /** The hour and minute of "HH:MM", as milliseconds after midnight (`None` when either
      reads as NaN). */
  function ClockOffset(hhmm: string): Option<int> {
    var fields := Split(hhmm, ':');
    var h := IntegerPart(StringToNumber(fields[0]));
    var m := if |fields| >= 2 then IntegerPart(StringToNumber(fields[1])) else None;
    if h.None? || m.None? then None else Some(h.value * HourMs + m.value * MinuteMs)
  }

  /** The whole part of a number as `setHours` takes it; `None` for NaN. */
  function IntegerPart(n: Numeric): Option<int> {
    match n
    case NaN => None
    case Num(x) => Some(Trunc(x))
  }

  /** `Number` then truncation reads a string of digits as its value. */
  lemma DigitsIntegerPart(s: string)
    requires s != [] && AllDigits(s)
    ensures IntegerPart(StringToNumber(s)) == Some(DigitsValue(s))
  {
    DigitsNumber(s);
    TruncWhole(DigitsValue(s));
  }

  /** Reading "HH:MM" with digit fields whose values `h` and `m` are in range: the local day
      is `add` days after today's, and the local time of day is `h` hours and `m` minutes;
      within range there is always a result. */
  lemma AtTimeClock(now: int, tz: int, add: int, hh: string, mm: string, h: int, m: int)
    requires hh != [] && AllDigits(hh) && mm != [] && AllDigits(mm)
    requires h == DigitsValue(hh) && m == DigitsValue(mm) && h < 24 && m < 60
    ensures var r := AtTime(now, tz, add, hh + ":" + mm);
            var off := h * HourMs + m * MinuteMs;
            && (r.Some? <==> ValidTime(now + add * DayMs) && ValidTime(LocalMidnight(now + add * DayMs, tz) + off))
            && (r.Some? ==> LocalDay(r.value, tz) == LocalDay(now, tz) + add && WallClock(r.value, tz) == off)
  {
    ClockDigits(hh, mm, h, m);
    ClockRange(h, m);
    AtTimeOffset(now, tz, add, hh + ":" + mm, h * HourMs + m * MinuteMs);
  }

  /** An hour below 24 and a minute below 60 fall within one day. */
  lemma ClockRange(h: int, m: int)
    requires 0 <= h < 24 && 0 <= m < 60
    ensures 0 <= h * HourMs + m * MinuteMs < DayMs
  {
  }

  /** A clock reading within one day lands on that local time of the day `add` days ahead. */
  lemma AtTimeOffset(now: int, tz: int, add: int, hhmm: string, off: int)
    requires ClockOffset(hhmm) == Some(off) && 0 <= off < DayMs
    ensures var r := AtTime(now, tz, add, hhmm);
            && (r.Some? <==> ValidTime(now + add * DayMs) && ValidTime(LocalMidnight(now + add * DayMs, tz) + off))
            && (r.Some? ==> LocalDay(r.value, tz) == LocalDay(now, tz) + add && WallClock(r.value, tz) == off)
  {
    var day := now + add * DayMs;
    LocalDayShift(now, tz, add);
    LocalDayOffset(LocalMidnight(day, tz), tz, off);
  }

  /** "HH:MM" with digit fields of values `h` and `m` reads as `h` hours and `m` minutes. */
  lemma ClockDigits(hh: string, mm: string, h: int, m: int)
    requires hh != [] && AllDigits(hh) && mm != [] && AllDigits(mm)
    requires h == DigitsValue(hh) && m == DigitsValue(mm)
    ensures ClockOffset(hh + ":" + mm) == Some(h * HourMs + m * MinuteMs)
  {
    SplitClock(hh, mm);
    ClockFields(hh + ":" + mm, hh, mm, h, m);
  }

  lemma ClockFields(text: string, hh: string, mm: string, h: int, m: int)
    requires Split(text, ':') == [hh, mm]
    requires hh != [] && AllDigits(hh) && mm != [] && AllDigits(mm)
    requires h == DigitsValue(hh) && m == DigitsValue(mm)
    ensures ClockOffset(text) == Some(h * HourMs + m * MinuteMs)
  {
    DigitsIntegerPart(hh);
    DigitsIntegerPart(mm);
    ClockParts(text, hh, mm, h, m);
  }

  lemma ClockParts(text: string, hh: string, mm: string, h: int, m: int)
    requires Split(text, ':') == [hh, mm]
    requires IntegerPart(StringToNumber(hh)) == Some(h) && IntegerPart(StringToNumber(mm)) == Some(m)
    ensures ClockOffset(text) == Some(h * HourMs + m * MinuteMs)
  {
  }

  lemma SplitClock(hh: string, mm: string)
    requires AllDigits(hh) && AllDigits(mm)
    ensures Split(hh + ":" + mm, ':') == [hh, mm]
  {
    DigitsColonFree(hh);
    DigitsColonFree(mm);
    SplitAfterField(hh, ':', mm);
    SplitFree(mm, ':');
  }

  lemma TruncWhole(n: nat)
    ensures Trunc(n as real) == n
  {
  }

  lemma LocalDayShift(now: int, tz: int, add: int)
    ensures LocalDay(now + add * DayMs, tz) == LocalDay(now, tz) + add
  {
    var q, m := (now + tz) / DayMs, (now + tz) % DayMs;
    assert now + add * DayMs + tz == (q + add) * DayMs + m;
  }

  lemma LocalDayOffset(mid: int, tz: int, off: int)
    requires WallClock(mid, tz) == 0 && 0 <= off < DayMs
    ensures LocalDay(mid + off, tz) == LocalDay(mid, tz) && WallClock(mid + off, tz) == off
  {
    var q := (mid + tz) / DayMs;
    assert mid + tz == q * DayMs;
    assert mid + off + tz == q * DayMs + off;
  }

  // ---------------------------------------------------------------------------------------
  // Times schedules

  /** The slot for one "HH:MM" on the day `add` days ahead, kept only inside the window. */
  function Slot(rx: Prescription, names: map<string, string>, now: int, tz: int, add: int, hhmm: string): seq<Occurrence> {
    match AtTime(now, tz, add, hhmm)
    case Some(ts) => if InWindow(now, ts) then [MakeOccurrence(rx, names, ts, None)] else []
    case None => []
  }

  /** The slots, in the order of `times`, for one day offset. */
  function DaySlots(rx: Prescription, names: map<string, string>, now: int, tz: int, add: int, times: seq<string>): seq<Occurrence>
    decreases |times|
  {
    if times == [] then []
    else DaySlots(rx, names, now, tz, add, times[..|times| - 1]) + Slot(rx, names, now, tz, add, times[|times| - 1])
  }

  /** Day offsets 0 and 1, each over all the times. */
  function TimesCandidates(rx: Prescription, names: map<string, string>, now: int, tz: int, times: seq<string>): seq<Occurrence> {
    DaySlots(rx, names, now, tz, 0, times) + DaySlots(rx, names, now, tz, 1, times)
  }

  /** A slot is one of `rx`'s items, at the instant `atTime` gives, inside the window. */
  lemma SlotSound(rx: Prescription, names: map<string, string>, now: int, tz: int, add: int, hhmm: string, o: Occurrence)
    requires o in Slot(rx, names, now, tz, add, hhmm)
    ensures OccurrenceOf(rx, names, o) && o.intervalStepMs == None && InWindow(now, o.when)
    ensures AtTime(now, tz, add, hhmm) == Some(o.when)
  {
  }

  /** Every slot of a day is one of `rx`'s items, inside the window, on one of the day's
      wall-clock times; there is at most one per time. */
  lemma {:induction false} DaySlotsSound(rx: Prescription, names: map<string, string>, now: int, tz: int, add: int, times: seq<string>)
    ensures |DaySlots(rx, names, now, tz, add, times)| <= |times|
    ensures forall o | o in DaySlots(rx, names, now, tz, add, times) ::
              && OccurrenceOf(rx, names, o) && o.intervalStepMs == None && InWindow(now, o.when)
              && exists k :: 0 <= k < |times| && AtTime(now, tz, add, times[k]) == Some(o.when)
    decreases |times|
  {
    if times != [] {
      var init, last := times[..|times| - 1], times[|times| - 1];
      DaySlotsSound(rx, names, now, tz, add, init);
      assert DaySlots(rx, names, now, tz, add, times)
          == DaySlots(rx, names, now, tz, add, init) + Slot(rx, names, now, tz, add, last);
      forall o | o in DaySlots(rx, names, now, tz, add, times)
        ensures && OccurrenceOf(rx, names, o) && o.intervalStepMs == None && InWindow(now, o.when)
                && exists k :: 0 <= k < |times| && AtTime(now, tz, add, times[k]) == Some(o.when)
      {
        if o in DaySlots(rx, names, now, tz, add, init) {
          var k :| 0 <= k < |init| && AtTime(now, tz, add, init[k]) == Some(o.when);
          assert times[k] == init[k];
        } else {
          SlotSound(rx, names, now, tz, add, last, o);
          assert AtTime(now, tz, add, times[|times| - 1]) == Some(o.when);
        }
      }
    }
  }

  /** Every slot inside the window is kept: a time whose instant falls in the window yields
      an item at that instant. */
  lemma {:induction false} DaySlotsComplete(rx: Prescription, names: map<string, string>, now: int, tz: int, add: int, times: seq<string>, k: int)
    requires 0 <= k < |times|
    requires AtTime(now, tz, add, times[k]).Some? && InWindow(now, AtTime(now, tz, add, times[k]).value)
    ensures exists o :: o in DaySlots(rx, names, now, tz, add, times) && o.when == AtTime(now, tz, add, times[k]).value
    decreases |times|
  {
    var init, last := times[..|times| - 1], times[|times| - 1];
    var ts := AtTime(now, tz, add, times[k]).value;
    assert DaySlots(rx, names, now, tz, add, times)
        == DaySlots(rx, names, now, tz, add, init) + Slot(rx, names, now, tz, add, last);
    if k < |times| - 1 {
      assert init[k] == times[k];
      DaySlotsComplete(rx, names, now, tz, add, init, k);
      var o :| o in DaySlots(rx, names, now, tz, add, init) && o.when == ts;
      assert o in DaySlots(rx, names, now, tz, add, times);
    } else {
      SlotKept(rx, names, now, tz, add, last, ts);
      assert MakeOccurrence(rx, names, ts, None) in DaySlots(rx, names, now, tz, add, times);
    }
  }

  lemma SlotKept(rx: Prescription, names: map<string, string>, now: int, tz: int, add: int, hhmm: string, ts: int)
    requires AtTime(now, tz, add, hhmm) == Some(ts) && InWindow(now, ts)
    ensures ValidTime(ts) && Slot(rx, names, now, tz, add, hhmm) == [MakeOccurrence(rx, names, ts, None)]
  {
  }

  /** A times schedule yields at most two items per time, all inside the window and all on
      day offset 0 or 1. */
  lemma TimesCandidatesSound(rx: Prescription, names: map<string, string>, now: int, tz: int, times: seq<string>)
    ensures |TimesCandidates(rx, names, now, tz, times)| <= 2 * |times|
    ensures forall o | o in TimesCandidates(rx, names, now, tz, times) ::
              && OccurrenceOf(rx, names, o) && o.intervalStepMs == None && InWindow(now, o.when)
              && exists add, k :: 0 <= add <= 1 && 0 <= k < |times| && AtTime(now, tz, add, times[k]) == Some(o.when)
  {
    DaySlotsSound(rx, names, now, tz, 0, times);
    DaySlotsSound(rx, names, now, tz, 1, times);
  }

  // ---------------------------------------------------------------------------------------
  // Interval schedules

  /** `Math.ceil(now / step) * step`: the first point of the step grid at or after `now`. */
  function NextGridTime(now: int, step: int): (r: int)
    requires step > 0
    ensures r % step == 0 && now <= r < now + step
  {
    var q := now / step;
    if now % step == 0 then now
    else
      assert (q + 1) * step == now - now % step + step;
      MultipleMod(q + 1, step);
      (q + 1) * step
  }

  /** A multiple of `step` leaves no remainder, and only multiples do. */
  lemma MultipleMod(q: int, step: int)
    requires step > 0
    ensures (q * step) % step == 0 && (q * step) / step == q
  {
    var a := q * step;
    var d, m := a / step, a % step;
    assert a == d * step + m;
    assert (q - d) * step == m;
    MulLess(q - d, 1, step);
    MulLess(-1, q - d, step);
  }

  lemma MulLess(a: int, b: int, step: int)
    requires step > 0 && a * step < b * step
    ensures a < b
  {
  }

  lemma MulMonotone(a: int, b: int, step: int)
    requires step > 0 && a <= b
    ensures a * step <= b * step
  {
  }

  /** No point of the grid lies in `[now, NextGridTime(now, step))`. */
  lemma NextGridTimeLeast(now: int, step: int, k: int)
    requires step > 0 && now <= k * step
    ensures NextGridTime(now, step) <= k * step
  {
    var r := NextGridTime(now, step);
    var q := r / step;
    assert r == q * step;
    assert (q - 1) * step == r - step;
    MulLess(q - 1, k, step);
    MulMonotone(q, k, step);
  }

  /** The interval branch: one item at the next grid point; nothing when the prescription
      has ended before it; and a RangeError when that point is no valid Date. */
  function IntervalCandidates(rx: Prescription, names: map<string, string>, now: int, hours: int): Result<seq<Occurrence>, string>
    requires hours >= 1
  {
    var step := hours * HourMs;
    var next := NextGridTime(now, step);
    if rx.endDate.Some? && ValidTime(next) && next > rx.endDate.value then Success([])
    else if !ValidTime(next) then Failure(InvalidTimeValue)
    else Success([MakeOccurrence(rx, names, next, Some(step))])
  }

  /** The interval branch emits exactly one item, at the next multiple of the step at or after
      `now` whatever the window, or none when `endDate` is before it. */
  lemma IntervalCandidatesSpec(rx: Prescription, names: map<string, string>, now: int, hours: int)
    requires hours >= 1
    ensures var step := hours * HourMs;
            var res := IntervalCandidates(rx, names, now, hours);
            && (res.Failure? <==> !ValidTime(NextGridTime(now, step)))
            && (res.Success? ==> |res.value| <= 1)
            && (res.Success? && res.value == [] <==>
                  ValidTime(NextGridTime(now, step)) && rx.endDate.Some? && NextGridTime(now, step) > rx.endDate.value)
            && (res.Success? && |res.value| == 1 ==>
                  var o := res.value[0];
                  && OccurrenceOf(rx, names, o) && o.intervalStepMs == Some(step)
                  && o.when % step == 0 && now <= o.when < now + step)
  {
  }

  // ---------------------------------------------------------------------------------------
  // One prescription

  /** The items of one prescription, or the error that aborts the whole listing. */
  function RxCandidates(rx: Prescription, names: map<string, string>, now: int, tz: int): Result<seq<Occurrence>, string> {
    match ParseFrequency(rx.frequency)
    case Times(times) => Success(TimesCandidates(rx, names, now, tz, times))
    case Interval(hours) => IntervalCandidates(rx, names, now, hours)
  }

  /** Every item of a prescription is one of its own, and the items of a times schedule fall
      inside the window. */
  lemma RxCandidatesSound(rx: Prescription, names: map<string, string>, now: int, tz: int)
    ensures var res := RxCandidates(rx, names, now, tz);
            && (res.Failure? ==> ParseFrequency(rx.frequency).Interval?)
            && (res.Success? ==> forall o | o in res.value :: OccurrenceOf(rx, names, o))
            && (res.Success? && ParseFrequency(rx.frequency).Times? ==>
                  |res.value| <= 2 * |ParseFrequency(rx.frequency).times| <= 4
                  && forall o | o in res.value :: InWindow(now, o.when))
  {
    match ParseFrequency(rx.frequency)
    case Times(times) =>
      TimesCandidatesSound(rx, names, now, tz, times);
    case Interval(hours) =>
      IntervalCandidatesSpec(rx, names, now, hours);
  }

  lemma RxCandidatesOwn(rx: Prescription, names: map<string, string>, now: int, tz: int)
    ensures var res := RxCandidates(rx, names, now, tz);
            res.Success? ==> forall o | o in res.value :: OccurrenceOf(rx, names, o)
  {
    RxCandidatesSound(rx, names, now, tz);
  }

  /** The candidates of all prescriptions, in order; the first error aborts. */
  function AllCandidates(rxs: seq<Prescription>, names: map<string, string>, now: int, tz: int): Result<seq<Occurrence>, string>
    decreases |rxs|
  {
    if rxs == [] then Success([])
    else
      match AllCandidates(rxs[..|rxs| - 1], names, now, tz)
      case Failure(e) => Failure(e)
      case Success(init) =>
        match RxCandidates(rxs[|rxs| - 1], names, now, tz)
        case Failure(e) => Failure(e)
        case Success(last) => Success(init + last)
  }

  /** Every candidate belongs to one of the prescriptions. */
  lemma {:induction false} AllCandidatesSound(rxs: seq<Prescription>, names: map<string, string>, now: int, tz: int)
    ensures var res := AllCandidates(rxs, names, now, tz);
            res.Success? ==> forall o | o in res.value :: exists i :: 0 <= i < |rxs| && OccurrenceOf(rxs[i], names, o)
    decreases |rxs|
  {
    var res := AllCandidates(rxs, names, now, tz);
    if rxs != [] && res.Success? {
      var init, rx := rxs[..|rxs| - 1], rxs[|rxs| - 1];
      var a, b := AllCandidates(init, names, now, tz), RxCandidates(rx, names, now, tz);
      AllCandidatesLast(rxs, names, now, tz);
      AllCandidatesSound(init, names, now, tz);
      RxCandidatesOwn(rx, names, now, tz);
      forall o | o in a.value ensures exists i :: 0 <= i < |rxs| - 1 && OccurrenceOf(rxs[i], names, o) {
        var i :| 0 <= i < |init| && OccurrenceOf(init[i], names, o);
        assert rxs[i] == init[i];
      }
      OwnedAppend(rxs, names, a.value, b.value);
    }
  }

  /** A successful listing is the listing of all but the last prescription, then the last's items. */
  lemma AllCandidatesLast(rxs: seq<Prescription>, names: map<string, string>, now: int, tz: int)
    requires rxs != []
    ensures var res := AllCandidates(rxs, names, now, tz);
            res.Success? ==>
              var a, b := AllCandidates(rxs[..|rxs| - 1], names, now, tz), RxCandidates(rxs[|rxs| - 1], names, now, tz);
              a.Success? && b.Success? && res.value == a.value + b.value
  {
  }

  lemma OwnedAppend(rxs: seq<Prescription>, names: map<string, string>, a: seq<Occurrence>, b: seq<Occurrence>)
    requires rxs != []
    requires forall o | o in a :: exists i :: 0 <= i < |rxs| - 1 && OccurrenceOf(rxs[i], names, o)
    requires forall o | o in b :: OccurrenceOf(rxs[|rxs| - 1], names, o)
    ensures forall o | o in a + b :: exists i :: 0 <= i < |rxs| && OccurrenceOf(rxs[i], names, o)
  {
  }

  /** The listing fails exactly when some prescription's interval grid point is no valid Date. */
  lemma {:induction false} AllCandidatesFailure(rxs: seq<Prescription>, names: map<string, string>, now: int, tz: int)
    ensures AllCandidates(rxs, names, now, tz).Failure? <==>
              exists i :: 0 <= i < |rxs| && RxCandidates(rxs[i], names, now, tz).Failure?
    decreases |rxs|
  {
    if rxs != [] {
      var init := rxs[..|rxs| - 1];
      AllCandidatesFailure(init, names, now, tz);
      AllCandidatesFails(rxs, names, now, tz);
      if AllCandidates(init, names, now, tz).Failure? {
        var i :| 0 <= i < |init| && RxCandidates(init[i], names, now, tz).Failure?;
        assert rxs[i] == init[i];
      }
      forall i | 0 <= i < |rxs| - 1 ensures rxs[i] == init[i] { }
    }
  }

  lemma AllCandidatesFails(rxs: seq<Prescription>, names: map<string, string>, now: int, tz: int)
    requires rxs != []
    ensures AllCandidates(rxs, names, now, tz).Failure? <==>
              AllCandidates(rxs[..|rxs| - 1], names, now, tz).Failure? || RxCandidates(rxs[|rxs| - 1], names, now, tz).Failure?
  {
  }
}
