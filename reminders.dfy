/** `GET /reminders`: the reminders of the next 24 hours for the caller's profiles, without
    the dismissed ones, earliest first, at most `limit` of them. */
module Reminders {
  import opened Wrappers
  import opened JsText
  import opened IsoTime
  import opened Frequency
  import opened Occurrences
  import opened Dismissals

  /** The fields of a profile that the listing reads. */
  datatype Profile = Profile(id: string, userId: string, name: string)

  const DefaultLimit: int := 100
  const MaxLimit: int := 200

  // ---------------------------------------------------------------------------------------
  // The cap

  /** `Math.min(Math.max(parseInt(req.query.limit || 100, 10), 1), 200)`; `None` is NaN, which
      both `Math.max` and `Math.min` pass through. */
  function HardCap(limit: Option<string>): (cap: Option<int>)
    ensures cap.Some? ==> 1 <= cap.value <= MaxLimit
    ensures limit.None? || limit.value == "" ==> cap == Some(DefaultLimit)
    ensures limit.Some? && limit.value != "" && ParseInt(limit.value).Some? ==>
              cap == Some(Clamp(ParseInt(limit.value).value))
    ensures limit.Some? && limit.value != "" ==> (cap.None? <==> ParseInt(limit.value).None?)
  {
    match limit
    case None => Some(Clamp(DefaultLimit))
    case Some(text) =>
      if text == "" then Some(Clamp(DefaultLimit))
      else
        match ParseInt(text)
        case None => None
        case Some(n) => Some(Clamp(n))
  }

  function Clamp(n: int): (r: int)
    ensures 1 <= r <= MaxLimit
    ensures 1 <= n <= MaxLimit ==> r == n
    ensures n < 1 ==> r == 1
    ensures n > MaxLimit ==> r == MaxLimit
  {
    if n < 1 then 1 else if n > MaxLimit then MaxLimit else n
  }

  /** The end index `slice(0, hardCap)` uses: NaN counts as 0. */
  function SliceEnd(cap: Option<int>): (n: nat)
    ensures cap.Some? && cap.value >= 0 ==> n == cap.value
    ensures cap.None? ==> n == 0
  {
    match cap
    case Some(c) => if c < 0 then 0 else c
    case None => 0
  }

  // ---------------------------------------------------------------------------------------
  // The queries

  /** `Profile.find({ userId })`. */
  function OwnedProfiles(profiles: seq<Profile>, userId: string): (r: seq<Profile>)
    ensures forall p :: p in r <==> p in profiles && p.userId == userId
    decreases |profiles|
  {
    if profiles == [] then []
    else
      var last := profiles[|profiles| - 1];
      OwnedProfiles(profiles[..|profiles| - 1], userId) + (if last.userId == userId then [last] else [])
  }

  /** `new Map(profiles.map(p => [String(p._id), p.name]))`: a later profile with the same id wins. */
  function NameById(profiles: seq<Profile>): (names: map<string, string>)
    ensures names.Keys == set p | p in profiles :: p.id
    ensures forall i | 0 <= i < |profiles| && LastWithId(profiles, i) ::
              profiles[i].id in names && names[profiles[i].id] == profiles[i].name
    decreases |profiles|
  {
    if profiles == [] then map[]
    else
      var init, last := profiles[..|profiles| - 1], profiles[|profiles| - 1];
      var names := NameById(init);
      NamesStep(profiles, names);
      names[last.id := last.name]
  }

  /** Adding the last profile keeps the name of every earlier profile whose id it does not
      share. */
  lemma NamesStep(profiles: seq<Profile>, names: map<string, string>)
    requires profiles != []
    requires forall i | 0 <= i < |profiles| - 1 && LastWithId(profiles[..|profiles| - 1], i) ::
               profiles[i].id in names && names[profiles[i].id] == profiles[i].name
    ensures var last := profiles[|profiles| - 1];
            forall i | 0 <= i < |profiles| && LastWithId(profiles, i) ::
              profiles[i].id in names[last.id := last.name] && names[last.id := last.name][profiles[i].id] == profiles[i].name
  {
    var init, last := profiles[..|profiles| - 1], profiles[|profiles| - 1];
    forall i | 0 <= i < |profiles| - 1 && LastWithId(profiles, i)
      ensures LastWithId(init, i) && profiles[i].id != last.id
    {
      assert profiles[|profiles| - 1].id != profiles[i].id;
    }
  }

  /** No profile after the one at `i` has the same id. */
  predicate LastWithId(profiles: seq<Profile>, i: int)
    requires 0 <= i < |profiles|
  {
    forall j | i < j < |profiles| :: profiles[j].id != profiles[i].id
  }

  /** The selection of `Prescription.find`: an owned profile, active, started, not ended. */
  predicate Eligible(rx: Prescription, owned: set<string>, now: int) {
    && rx.profileId in owned
    && rx.active
    && rx.startDate <= now
    && (rx.endDate.None? || rx.endDate.value >= now)
  }

  function EligiblePrescriptions(prescriptions: seq<Prescription>, owned: set<string>, now: int): (r: seq<Prescription>)
    ensures forall rx :: rx in r <==> rx in prescriptions && Eligible(rx, owned, now)
    decreases |prescriptions|
  {
    if prescriptions == [] then []
    else
      var last := prescriptions[|prescriptions| - 1];
      EligiblePrescriptions(prescriptions[..|prescriptions| - 1], owned, now)
        + (if Eligible(last, owned, now) then [last] else [])
  }

  /** `candidates.map(c => c.key)`. */
  function Keys(items: seq<Occurrence>): (r: seq<string>)
    ensures |r| == |items| && forall i :: 0 <= i < |items| ==> r[i] == items[i].key
    decreases |items|
  {
    if items == [] then [] else Keys(items[..|items| - 1]) + [items[|items| - 1].key]
  }

  /** `candidates.filter(c => !dismissed.has(c.key))`. */
  function Undismissed(items: seq<Occurrence>, dismissed: set<string>): (r: seq<Occurrence>)
    ensures |r| <= |items|
    ensures forall o :: o in r <==> o in items && o.key !in dismissed
    decreases |items|
  {
    if items == [] then []
    else
      var last := items[|items| - 1];
      Undismissed(items[..|items| - 1], dismissed) + (if last.key !in dismissed then [last] else [])
  }

  // ---------------------------------------------------------------------------------------
  // `items.sort((a, b) => a.when - b.when)`: ascending by time, and stable

  predicate Sorted(s: seq<Occurrence>) {
    forall i, j :: 0 <= i < j < |s| ==> s[i].when <= s[j].when
  }

  /** Insert `x` into a sorted sequence after every item that is not later than it. */
  function Insert(x: Occurrence, s: seq<Occurrence>): seq<Occurrence>
    decreases |s|
  {
    if s == [] then [x]
    else if s[|s| - 1].when <= x.when then s + [x]
    else Insert(x, s[..|s| - 1]) + [s[|s| - 1]]
  }

  /** The stable sort: insertion of each item in turn. */
  function SortByWhen(s: seq<Occurrence>): seq<Occurrence>
    decreases |s|
  {
    if s == [] then [] else Insert(s[|s| - 1], SortByWhen(s[..|s| - 1]))
  }

  /** The items at instant `t`, in order. */
  function AtInstant(s: seq<Occurrence>, t: int): seq<Occurrence>
    decreases |s|
  {
    if s == [] then []
    else AtInstant(s[..|s| - 1], t) + (if s[|s| - 1].when == t then [s[|s| - 1]] else [])
  }

  lemma {:induction false} InsertMultiset(x: Occurrence, s: seq<Occurrence>)
    ensures multiset(Insert(x, s)) == multiset(s) + multiset{x}
    decreases |s|
  {
    if s != [] && s[|s| - 1].when > x.when {
      var init, last := s[..|s| - 1], s[|s| - 1];
      InsertMultiset(x, init);
      assert s == init + [last];
    }
  }

  lemma {:induction false} InsertSorted(x: Occurrence, s: seq<Occurrence>)
    requires Sorted(s)
    ensures Sorted(Insert(x, s))
    decreases |s|
  {
    if s != [] && s[|s| - 1].when > x.when {
      var init, last := s[..|s| - 1], s[|s| - 1];
      InsertSorted(x, init);
      InsertMultiset(x, init);
      var r := Insert(x, init);
      forall i | 0 <= i < |r| ensures r[i].when <= last.when {
        assert r[i] in multiset(r);
        assert r[i] in multiset(init) || r[i] == x;
      }
    }
  }

  /** Inserting keeps the relative order of the items at every instant. */
  lemma {:induction false} InsertAtInstant(x: Occurrence, s: seq<Occurrence>, t: int)
    ensures AtInstant(Insert(x, s), t) == AtInstant(s, t) + (if x.when == t then [x] else [])
    decreases |s|
  {
    if s == [] {
      assert AtInstant([x], t) == AtInstant([], t) + (if x.when == t then [x] else []);
    } else if s[|s| - 1].when <= x.when {
      assert (s + [x])[..|s|] == s;
    } else {
      var init, last := s[..|s| - 1], s[|s| - 1];
      InsertAtInstant(x, init, t);
      assert (Insert(x, init) + [last])[..|Insert(x, init)|] == Insert(x, init);
    }
  }

  /** `items.sort` yields a sorted permutation of its input. */
  lemma {:induction false} SortByWhenSpec(s: seq<Occurrence>)
    ensures Sorted(SortByWhen(s))
    ensures multiset(SortByWhen(s)) == multiset(s)
    ensures |SortByWhen(s)| == |s|
    decreases |s|
  {
    if s != [] {
      var init := s[..|s| - 1];
      SortByWhenSpec(init);
      InsertSorted(s[|s| - 1], SortByWhen(init));
      InsertMultiset(s[|s| - 1], SortByWhen(init));
      assert s == init + [s[|s| - 1]];
    }
    assert |SortByWhen(s)| == |multiset(SortByWhen(s))|;
  }

  /** The sort is stable: items with the same instant keep their order. */
  lemma {:induction false} SortByWhenStable(s: seq<Occurrence>, t: int)
    ensures AtInstant(SortByWhen(s), t) == AtInstant(s, t)
    decreases |s|
  {
    if s != [] {
      var init := s[..|s| - 1];
      SortByWhenStable(init, t);
      InsertAtInstant(s[|s| - 1], SortByWhen(init), t);
    }
  }

  /** The filter keeps the order of the items at each instant. */
  lemma {:induction false} UndismissedAtInstant(items: seq<Occurrence>, dismissed: set<string>, t: int)
    ensures AtInstant(Undismissed(items, dismissed), t) == Undismissed(AtInstant(items, t), dismissed)
    decreases |items|
  {
    if items != [] {
      var init, last := items[..|items| - 1], items[|items| - 1];
      UndismissedAtInstant(init, dismissed, t);
      var kept := Undismissed(init, dismissed);
      var here := AtInstant(init, t);
      if last.key !in dismissed {
        assert (kept + [last])[..|kept|] == kept;
      } else {
        assert kept + [] == kept;
      }
      if last.when == t {
        assert (here + [last])[..|here|] == here;
      } else {
        assert here + [] == here;
      }
    }
  }

  /** Filter then sort: the reminders due at one instant come out in the order the loop pushed
      them, less the dismissed ones. */
  lemma FilterSortStable(candidates: seq<Occurrence>, dismissed: set<string>, t: int)
    ensures AtInstant(SortByWhen(Undismissed(candidates, dismissed)), t) == Undismissed(AtInstant(candidates, t), dismissed)
  {
    SortByWhenStable(Undismissed(candidates, dismissed), t);
    UndismissedAtInstant(candidates, dismissed, t);
  }

  // ---------------------------------------------------------------------------------------
  // The listing

  /** The whole of `list` as one function of its inputs. */
  function ListResult(userId: string, limit: Option<string>, profiles: seq<Profile>,
                      prescriptions: seq<Prescription>, entries: map<(string, string), int>,
                      now: int, tz: int): Result<seq<Occurrence>, string>
  {
    var owned := OwnedProfiles(profiles, userId);
    var names := NameById(owned);
    var rxs := EligiblePrescriptions(prescriptions, set p | p in owned :: p.id, now);
    match AllCandidates(rxs, names, now, tz)
    case Failure(e) => Failure(e)
    case Success(candidates) => Success(Pipeline(candidates, entries, userId, now, SliceEnd(HardCap(limit))))
  }

  /** The steps after the loop: drop the dismissed keys, sort by time, keep the first `cap`. */
  function Pipeline(candidates: seq<Occurrence>, entries: map<(string, string), int>, userId: string, now: int, cap: nat): seq<Occurrence> {
    var dismissed := ActiveDismissed(entries, userId, Keys(candidates), now);
    Prefix(SortByWhen(Undismissed(candidates, dismissed)), cap)
  }

  /** What `list` promises: at most `hardCap` items, sorted by time, none dismissed until after
      `now`, each an item of one of the caller's eligible prescriptions; when the cap is not
      reached nothing else was left out, and when it is, every item left out is no earlier
      than every item kept. */
  lemma ListResultSpec(userId: string, limit: Option<string>, profiles: seq<Profile>,
                       prescriptions: seq<Prescription>, entries: map<(string, string), int>,
                       now: int, tz: int)
    ensures var res := ListResult(userId, limit, profiles, prescriptions, entries, now, tz);
            var owned := OwnedProfiles(profiles, userId);
            var ids := set p | p in owned :: p.id;
            var all := AllCandidates(EligiblePrescriptions(prescriptions, ids, now), NameById(owned), now, tz);
            && (res.Failure? <==> all.Failure?)
            && (res.Success? ==>
                  && |res.value| <= SliceEnd(HardCap(limit)) <= MaxLimit
                  && Sorted(res.value)
                  && (forall o | o in res.value ::
                        && o in all.value && !Dismissed(entries, userId, o.key, now)
                        && exists rx :: rx in prescriptions && Eligible(rx, ids, now) && OccurrenceOf(rx, NameById(owned), o))
                  && (|res.value| < SliceEnd(HardCap(limit)) ==>
                        forall o | o in all.value && !Dismissed(entries, userId, o.key, now) :: o in res.value)
                  && (forall o, x | o in all.value && !Dismissed(entries, userId, o.key, now) && o !in res.value && x in res.value ::
                        x.when <= o.when))
  {
    var owned := OwnedProfiles(profiles, userId);
    var ids := set p | p in owned :: p.id;
    var names := NameById(owned);
    var rxs := EligiblePrescriptions(prescriptions, ids, now);
    var all := AllCandidates(rxs, names, now, tz);
    if all.Success? {
      var cap := SliceEnd(HardCap(limit));
      PipelineSpec(all.value, entries, userId, now, cap);
      AllCandidatesSound(rxs, names, now, tz);
      var r := Pipeline(all.value, entries, userId, now, cap);
      forall o | o in r
        ensures exists rx :: rx in prescriptions && Eligible(rx, ids, now) && OccurrenceOf(rx, names, o)
      {
        var i :| 0 <= i < |rxs| && OccurrenceOf(rxs[i], names, o);
        assert rxs[i] in rxs;
      }
    }
  }

  /** Whether `userId` has dismissed `key` until after `now`. */
  predicate Dismissed(entries: map<(string, string), int>, userId: string, key: string, now: int) {
    (userId, key) in entries && entries[(userId, key)] > now
  }

  /** Filter, sort and slice: the result is sorted, within the cap, made of undismissed
      candidates, leaves none out unless the cap is reached, and keeps the earliest ones. */
  lemma PipelineSpec(candidates: seq<Occurrence>, entries: map<(string, string), int>, userId: string, now: int, cap: nat)
    ensures var r := Pipeline(candidates, entries, userId, now, cap);
            && |r| <= cap && Sorted(r)
            && (forall o | o in r :: o in candidates && !Dismissed(entries, userId, o.key, now))
            && (|r| < cap ==> forall o | o in candidates && !Dismissed(entries, userId, o.key, now) :: o in r)
            && (forall o, x | o in candidates && !Dismissed(entries, userId, o.key, now) && o !in r && x in r :: x.when <= o.when)
  {
    var dismissed := ActiveDismissed(entries, userId, Keys(candidates), now);
    var items := Undismissed(candidates, dismissed);
    var sorted := SortByWhen(items);
    SortByWhenSpec(items);
    PrefixSpec(sorted, cap);
    KeysHave(candidates);
    PrefixEarliest(sorted, cap);
    forall o | o in candidates && !Dismissed(entries, userId, o.key, now) ensures o in sorted {
      assert o in items;
      assert o in multiset(sorted);
    }
    forall o | o in Prefix(sorted, cap) ensures o in candidates && !Dismissed(entries, userId, o.key, now) {
      assert o in multiset(sorted);
      assert o in items;
    }
    if |Prefix(sorted, cap)| < cap {
      forall o | o in candidates && !Dismissed(entries, userId, o.key, now) ensures o in Prefix(sorted, cap) {
        assert o in items;
        assert o in multiset(sorted);
      }
    }
  }

  lemma PrefixSpec(s: seq<Occurrence>, n: nat)
    requires Sorted(s)
    ensures Sorted(Prefix(s, n))
    ensures forall o | o in Prefix(s, n) :: o in s
    ensures |Prefix(s, n)| < n ==> Prefix(s, n) == s
  {
  }

  /** The first `n` items of a sorted sequence are no later than any item left out. */
  lemma PrefixEarliest(s: seq<Occurrence>, n: nat)
    requires Sorted(s)
    ensures forall o, x | o in s && o !in Prefix(s, n) && x in Prefix(s, n) :: x.when <= o.when
  {
    forall o, x | o in s && o !in Prefix(s, n) && x in Prefix(s, n) ensures x.when <= o.when {
      var j :| 0 <= j < |s| && s[j] == o;
      var i :| 0 <= i < |Prefix(s, n)| && Prefix(s, n)[i] == x;
      assert s[i] == x;
      assert forall k | 0 <= k < |Prefix(s, n)| :: s[k] == Prefix(s, n)[k] && s[k] != o;
      assert i < |Prefix(s, n)| <= j;
    }
  }

  lemma KeysHave(items: seq<Occurrence>)
    ensures forall o | o in items :: o.key in Keys(items)
  {
    forall o | o in items ensures o.key in Keys(items) {
      var i :| 0 <= i < |items| && items[i] == o;
      assert Keys(items)[i] == o.key;
    }
  }

  // ---------------------------------------------------------------------------------------
  // The controller as it runs: loops that push into `candidates`

  /** The slots of day offsets `0 .. add - 1`. */
  function SlotsBefore(rx: Prescription, names: map<string, string>, now: int, tz: int, times: seq<string>, add: nat): seq<Occurrence>
    decreases add
  {
    if add == 0 then [] else SlotsBefore(rx, names, now, tz, times, add - 1) + DaySlots(rx, names, now, tz, add - 1, times)
  }

  /** A prescription's items appended to `base`, or the error. */
  function Extend(base: seq<Occurrence>, r: Result<seq<Occurrence>, string>): Result<seq<Occurrence>, string> {
    match r
    case Failure(e) => Failure(e)
    case Success(c) => Success(base + c)
  }

  /** `list`: the handler's loop over prescriptions, then the filter, the sort and the slice. */
  method List(userId: string, limit: Option<string>, profiles: seq<Profile>,
              prescriptions: seq<Prescription>, store: DismissalStore, now: int, tz: int)
    returns (res: Result<seq<Occurrence>, string>)
    ensures res == ListResult(userId, limit, profiles, prescriptions, store.entries, now, tz)
  {
    var hardCap := HardCap(limit);
    var owned := OwnedProfiles(profiles, userId);
    var names := NameById(owned);
    var rxs := EligiblePrescriptions(prescriptions, set p | p in owned :: p.id, now);
    var all := CollectCandidates(rxs, names, now, tz);
    match all
    case Failure(e) =>
      res := Failure(e);
    case Success(candidates) =>
      var keys := Keys(candidates);
      var dismissed := ActiveDismissed(store.entries, userId, keys, now);
      var items := Undismissed(candidates, dismissed);
      items := SortByWhen(items);
      res := Success(Prefix(items, SliceEnd(hardCap)));
  }

  /** The loop over prescriptions: push each one's items, and stop at the first RangeError. */
  method CollectCandidates(rxs: seq<Prescription>, names: map<string, string>, now: int, tz: int)
    returns (res: Result<seq<Occurrence>, string>)
    ensures res == AllCandidates(rxs, names, now, tz)
  {
    var candidates: seq<Occurrence> := [];
    var i := 0;
    while i < |rxs|
      invariant 0 <= i <= |rxs|
      invariant AllCandidates(rxs[..i], names, now, tz) == Success(candidates)
    {
      var next := PushRx(rxs[i], names, now, tz, candidates);
      AllCandidatesStep(rxs, names, now, tz, i);
      if next.Failure? {
        AllCandidatesStopAt(rxs, names, now, tz, i + 1);
        return Failure(next.error);
      }
      candidates := next.value;
      i := i + 1;
    }
    assert rxs[..|rxs|] == rxs;
    res := Success(candidates);
  }

  /** The body of the loop over prescriptions: push the items of `rx` onto `candidates`, or
      throw the RangeError of `toISOString`. */
  method PushRx(rx: Prescription, names: map<string, string>, now: int, tz: int, candidates: seq<Occurrence>)
    returns (res: Result<seq<Occurrence>, string>)
    ensures res == Extend(candidates, RxCandidates(rx, names, now, tz))
  {
    var schedule := ParseFrequency(rx.frequency);
    match schedule
    case Times(times) =>
      var pushed := PushTimes(rx, names, now, tz, times, candidates);
      res := Success(pushed);
    case Interval(hours) =>
      res := PushInterval(rx, names, now, hours, candidates);
  }

  /** The interval branch: one item at the next multiple of the step, unless past `endDate`. */
  method PushInterval(rx: Prescription, names: map<string, string>, now: int, hours: int, candidates: seq<Occurrence>)
    returns (res: Result<seq<Occurrence>, string>)
    requires hours >= 1
    ensures res == Extend(candidates, IntervalCandidates(rx, names, now, hours))
  {
    var step := hours * HourMs;
    var nextTs := NextGridTime(now, step);
    if rx.endDate.Some? && ValidTime(nextTs) && nextTs > rx.endDate.value {
      assert IntervalCandidates(rx, names, now, hours) == Success([]);
      assert candidates + [] == candidates;
      res := Success(candidates);
    } else if !ValidTime(nextTs) {
      assert IntervalCandidates(rx, names, now, hours) == Failure(InvalidTimeValue);
      res := Failure(InvalidTimeValue);
    } else {
      assert IntervalCandidates(rx, names, now, hours) == Success([MakeOccurrence(rx, names, nextTs, Some(step))]);
      res := Success(candidates + [MakeOccurrence(rx, names, nextTs, Some(step))]);
    }
  }

  /** The loop over the day offsets 0 and 1. */
  method PushTimes(rx: Prescription, names: map<string, string>, now: int, tz: int, times: seq<string>, candidates: seq<Occurrence>)
    returns (pushed: seq<Occurrence>)
    ensures pushed == candidates + TimesCandidates(rx, names, now, tz, times)
  {
    var slots: seq<Occurrence> := [];
    for add := 0 to 2
      invariant slots == SlotsBefore(rx, names, now, tz, times, add)
    {
      SlotsBeforeStep(rx, names, now, tz, times, add);
      slots := PushDay(rx, names, now, tz, add, times, slots);
    }
    SlotsBeforeBoth(rx, names, now, tz, times);
    pushed := candidates + slots;
  }

  /** The loop over the times of one day: each wall-clock time inside the window is pushed. */
  method PushDay(rx: Prescription, names: map<string, string>, now: int, tz: int, add: int, times: seq<string>, base: seq<Occurrence>)
    returns (pushed: seq<Occurrence>)
    ensures pushed == base + DaySlots(rx, names, now, tz, add, times)
  {
    var day: seq<Occurrence> := [];
    for j := 0 to |times|
      invariant day == DaySlots(rx, names, now, tz, add, times[..j])
    {
      DaySlotsStep(rx, names, now, tz, add, times, j);
      var ts := AtTime(now, tz, add, times[j]);
      SlotIs(rx, names, now, tz, add, times[j], ts);
      if ts.Some? && InWindow(now, ts.value) {
        day := day + [MakeOccurrence(rx, names, ts.value, None)];
      }
    }
    assert times[..|times|] == times;
    pushed := base + day;
  }

  lemma SlotsBeforeStep(rx: Prescription, names: map<string, string>, now: int, tz: int, times: seq<string>, add: nat)
    ensures SlotsBefore(rx, names, now, tz, times, add + 1)
         == SlotsBefore(rx, names, now, tz, times, add) + DaySlots(rx, names, now, tz, add, times)
  {
  }

  lemma SlotsBeforeBoth(rx: Prescription, names: map<string, string>, now: int, tz: int, times: seq<string>)
    ensures SlotsBefore(rx, names, now, tz, times, 2) == TimesCandidates(rx, names, now, tz, times)
  {
    assert SlotsBefore(rx, names, now, tz, times, 1) == DaySlots(rx, names, now, tz, 0, times);
  }

  lemma SlotIs(rx: Prescription, names: map<string, string>, now: int, tz: int, add: int, hhmm: string, ts: Option<int>)
    requires ts == AtTime(now, tz, add, hhmm)
    ensures Slot(rx, names, now, tz, add, hhmm)
         == if ts.Some? && InWindow(now, ts.value) then [MakeOccurrence(rx, names, ts.value, None)] else []
  {
  }

  lemma DaySlotsStep(rx: Prescription, names: map<string, string>, now: int, tz: int, add: int, times: seq<string>, j: int)
    requires 0 <= j < |times|
    ensures DaySlots(rx, names, now, tz, add, times[..j + 1])
         == DaySlots(rx, names, now, tz, add, times[..j]) + Slot(rx, names, now, tz, add, times[j])
  {
    assert times[..j + 1][..j] == times[..j];
  }

  lemma AllCandidatesStep(rxs: seq<Prescription>, names: map<string, string>, now: int, tz: int, i: int)
    requires 0 <= i < |rxs| && AllCandidates(rxs[..i], names, now, tz).Success?
    ensures AllCandidates(rxs[..i + 1], names, now, tz)
         == Extend(AllCandidates(rxs[..i], names, now, tz).value, RxCandidates(rxs[i], names, now, tz))
  {
    assert rxs[..i + 1][..i] == rxs[..i];
  }

  /** Once a prefix of the prescriptions fails, the whole listing fails with that error. */
  lemma {:induction false} AllCandidatesStopAt(rxs: seq<Prescription>, names: map<string, string>, now: int, tz: int, k: int)
    requires 0 <= k <= |rxs| && AllCandidates(rxs[..k], names, now, tz).Failure?
    ensures AllCandidates(rxs, names, now, tz) == AllCandidates(rxs[..k], names, now, tz)
    decreases |rxs| - k
  {
    if k < |rxs| {
      var init := rxs[..|rxs| - 1];
      assert init[..k] == rxs[..k];
      AllCandidatesStopAt(init, names, now, tz, k);
    } else {
      assert rxs[..k] == rxs;
    }
  }

  // ---------------------------------------------------------------------------------------
  // Worked examples

  /** "every 8h" at 2024-01-01T10:00:00Z: one item, at the next 8-hour boundary 16:00, whatever
      the time zone. */
  lemma AmoxicillinExample(rx: Prescription, names: map<string, string>, tz: int)
    requires rx.id == "rx1" && rx.name == "Amoxicillin" && rx.dosage == "500mg"
    requires rx.frequency == "every 8h" && rx.endDate.None?
    ensures var r := RxCandidates(rx, names, 1704103200000, tz);
            && r.Success? && |r.value| == 1
            && r.value[0].when == 1704124800000
            && r.value[0].key == "rx1:2024-01-01T16:00:00.000Z"
            && r.value[0].title == "Take Amoxicillin 500mg"
            && r.value[0].intervalStepMs == Some(8 * HourMs)
  {
    IntervalExample(rx.frequency);
    ExampleKey();
    ExampleGrid();
    ExampleTitle(rx);
  }

  lemma ExampleGrid()
    ensures NextGridTime(1704103200000, 8 * HourMs) == 1704124800000
    ensures ValidTime(1704124800000)
  {
    NextGridTimeLeast(1704103200000, 8 * HourMs, 59171);
  }

  lemma ExampleTitle(rx: Prescription)
    requires rx.name == "Amoxicillin" && rx.dosage == "500mg"
    ensures Title(rx) == "Take Amoxicillin 500mg"
  {
  }

  /** "Twice a day" at 2024-01-01T08:00:00Z with a UTC clock: the window ends at 08:00 the
      next day, so today's 09:00 and 21:00 are kept and both of tomorrow's slots fall after it:
      two items, not three. */
  lemma TwiceADayExample(rx: Prescription, names: map<string, string>, now: int)
    requires rx.frequency == "Twice a day" && now == 1704096000000
    ensures RxCandidates(rx, names, now, 0)
         == Success([MakeOccurrence(rx, names, now + HourMs, None), MakeOccurrence(rx, names, now + 13 * HourMs, None)])
  {
    var nine, late := TwiceRx(rx, names, now);
    ExampleDays(rx, names, now, nine, late);
  }

  /** The instant 2024-01-01T08:00:00Z and the two clock readings of "Twice a day". */
  predicate TwiceSetting(now: int, nine: string, late: string) {
    now == 1704096000000 && ClockOffset(nine) == Some(9 * HourMs) && ClockOffset(late) == Some(21 * HourMs)
  }

  /** "Twice a day" gives the slots of two times on day offsets 0 and 1. */
  lemma TwiceRx(rx: Prescription, names: map<string, string>, now: int) returns (nine: string, late: string)
    requires rx.frequency == "Twice a day"
    ensures RxCandidates(rx, names, now, 0)
         == Success(DaySlots(rx, names, now, 0, 0, [nine, late]) + DaySlots(rx, names, now, 0, 1, [nine, late]))
    ensures ClockOffset(nine) == Some(9 * HourMs) && ClockOffset(late) == Some(21 * HourMs)
  {
    nine, late := TwiceFrequency(rx.frequency);
    RxTimes(rx, names, now, 0, [nine, late]);
  }

  /** At 2024-01-01T08:00:00Z with a UTC clock, both of today's times are in the window and neither of
      tomorrow's is. */
  lemma ExampleDays(rx: Prescription, names: map<string, string>, now: int, nine: string, late: string)
    requires TwiceSetting(now, nine, late)
    ensures DaySlots(rx, names, now, 0, 0, [nine, late]) + DaySlots(rx, names, now, 0, 1, [nine, late])
         == [MakeOccurrence(rx, names, now + HourMs, None), MakeOccurrence(rx, names, now + 13 * HourMs, None)]
  {
    ExampleToday(rx, names, now, nine, late);
    ExampleTomorrow(rx, names, now, nine, late);
    AppendNothing(DaySlots(rx, names, now, 0, 0, [nine, late]), DaySlots(rx, names, now, 0, 1, [nine, late]));
  }

  lemma AppendNothing(a: seq<Occurrence>, b: seq<Occurrence>)
    requires b == []
    ensures a + b == a
  {
  }

  lemma RxTimes(rx: Prescription, names: map<string, string>, now: int, tz: int, times: seq<string>)
    requires ParseFrequency(rx.frequency) == Times(times)
    ensures RxCandidates(rx, names, now, tz)
         == Success(DaySlots(rx, names, now, tz, 0, times) + DaySlots(rx, names, now, tz, 1, times))
  {
  }

  /** The two times of "Twice a day", known only by their clock offsets. */
  lemma TwiceFrequency(frequency: string) returns (nine: string, late: string)
    requires frequency == "Twice a day"
    ensures ParseFrequency(frequency) == Times([nine, late])
    ensures ClockOffset(nine) == Some(9 * HourMs) && ClockOffset(late) == Some(21 * HourMs)
  {
    TwiceExample(frequency);
    nine, late := "09:00", "21:00";
    ClockNine(nine);
    ClockTwentyOne(late);
  }

  lemma ExampleToday(rx: Prescription, names: map<string, string>, now: int, nine: string, late: string)
    requires TwiceSetting(now, nine, late)
    ensures DaySlots(rx, names, now, 0, 0, [nine, late])
         == [MakeOccurrence(rx, names, now + HourMs, None), MakeOccurrence(rx, names, now + 13 * HourMs, None)]
  {
    DaySlotsPair(rx, names, now, 0, 0, nine, late);
    assert InWindow(now, now + HourMs) && InWindow(now, now + 13 * HourMs);
    ExampleSlot(rx, names, now, 0, nine, 9 * HourMs, now + HourMs);
    ExampleSlot(rx, names, now, 0, late, 21 * HourMs, now + 13 * HourMs);
    var a, b := MakeOccurrence(rx, names, now + HourMs, None), MakeOccurrence(rx, names, now + 13 * HourMs, None);
    assert [a] + [b] == [a, b];
  }

  lemma ExampleTomorrow(rx: Prescription, names: map<string, string>, now: int, nine: string, late: string)
    requires TwiceSetting(now, nine, late)
    ensures DaySlots(rx, names, now, 0, 1, [nine, late]) == []
  {
    DaySlotsPair(rx, names, now, 0, 1, nine, late);
    ExampleSlot(rx, names, now, 1, nine, 9 * HourMs, now + 25 * HourMs);
    ExampleSlot(rx, names, now, 1, late, 21 * HourMs, now + 37 * HourMs);
  }

  /** A reading `off` after the UTC midnight before 2024-01-01T08:00:00Z, `add` days ahead. */
  lemma ExampleSlot(rx: Prescription, names: map<string, string>, now: int, add: int, hhmm: string, off: int, t: int)
    requires now == 1704096000000 && 0 <= add <= 1 && 0 <= off < DayMs
    requires ClockOffset(hhmm) == Some(off) && t == now - 8 * HourMs + add * DayMs + off
    ensures InWindow(now, t) ==> Slot(rx, names, now, 0, add, hhmm) == [MakeOccurrence(rx, names, t, None)]
    ensures !InWindow(now, t) ==> Slot(rx, names, now, 0, add, hhmm) == []
  {
    var midnight := now - 8 * HourMs + add * DayMs;
    assert LocalMidnight(now + add * DayMs, 0) == midnight;
    AtTimeIs(now, 0, add, hhmm, off, midnight, t);
    if InWindow(now, t) {
      SlotKept(rx, names, now, 0, add, hhmm, t);
    }
  }

  /** A reading after the window's end gives no slot. */
  lemma SlotLate(rx: Prescription, names: map<string, string>, now: int, tz: int, add: int, hhmm: string, ts: int)
    requires AtTime(now, tz, add, hhmm) == Some(ts) && ts > WindowEnd(now)
    ensures Slot(rx, names, now, tz, add, hhmm) == []
  {
  }

  /** `atTime` for a reading `off` after the local midnight `midnight` of the day `add` ahead. */
  lemma AtTimeIs(now: int, tz: int, add: int, hhmm: string, off: int, midnight: int, t: int)
    requires ClockOffset(hhmm) == Some(off)
    requires ValidTime(now + add * DayMs) && midnight == LocalMidnight(now + add * DayMs, tz)
    requires t == midnight + off && ValidTime(t)
    ensures AtTime(now, tz, add, hhmm) == Some(t)
  {
  }

  lemma ClockNine(text: string)
    requires text == "09:00"
    ensures ClockOffset(text) == Some(9 * HourMs)
  {
    TwoDigits("09", 9);
    TwoDigits("00", 0);
    ClockOf("09", "00", text, 9, 0);
  }

  lemma ClockTwentyOne(text: string)
    requires text == "21:00"
    ensures ClockOffset(text) == Some(21 * HourMs)
  {
    TwoDigits("21", 21);
    TwoDigits("00", 0);
    ClockOf("21", "00", text, 21, 0);
  }

  lemma TwoDigits(d: string, v: int)
    requires |d| == 2 && IsDigit(d[0]) && IsDigit(d[1])
    requires v == (d[0] as int - '0' as int) * 10 + (d[1] as int - '0' as int)
    ensures d != [] && AllDigits(d) && DigitsValue(d) == v
  {
    var first := d[..1];
    assert first[..0] == [];
    assert AllDigits(first) && first[0] == d[0];
    assert DigitsValue(first) == d[0] as int - '0' as int;
    assert d[..|d| - 1] == first;
  }

  lemma ClockOf(hh: string, mm: string, text: string, h: int, m: int)
    requires hh != [] && AllDigits(hh) && mm != [] && AllDigits(mm)
    requires DigitsValue(hh) == h && DigitsValue(mm) == m && text == hh + ":" + mm
    ensures ClockOffset(text) == Some(h * HourMs + m * MinuteMs)
  {
    ClockDigits(hh, mm, h, m);
  }

  lemma DaySlotsPair(rx: Prescription, names: map<string, string>, now: int, tz: int, add: int, a: string, b: string)
    ensures DaySlots(rx, names, now, tz, add, [a, b])
         == Slot(rx, names, now, tz, add, a) + Slot(rx, names, now, tz, add, b)
  {
    assert [a, b][..1] == [a] && [a, b][1] == b;
    assert [a][..0] == [] && [a][0] == a;
    assert DaySlots(rx, names, now, tz, add, [a]) == Slot(rx, names, now, tz, add, a);
  }
}
