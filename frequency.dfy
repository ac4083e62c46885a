/** The frequency parser of the reminder engine: free-text dosing frequency to a schedule,
    by a fixed list of regular-expression rules of which the first that matches wins. */
module Frequency {
  import opened Wrappers
  import opened JsText

  /** `{kind: "times", times}` (daily wall-clock times "HH:MM") or `{kind: "interval", hours}`. */
  datatype Schedule = Times(times: seq<string>) | Interval(hours: int)

  const TwiceDailyTimes: seq<string> := ["09:00", "21:00"]
  const OnceDailyTimes: seq<string> := ["09:00"]

  /** `.*(day)` at the front of `s`: "day" occurs with no line terminator before it. */
  predicate DayAhead(s: string)
    decreases |s|
  {
    if |s| < 3 then false
    else s[..3] == "day" || (!IsLineTerminator(s[0]) && DayAhead(s[1..]))
  }

  /** `(2x|twice).*(day)` matching at the very front of `t`. */
  predicate TwiceHere(t: string) {
    || (|t| >= 2 && t[..2] == "2x" && DayAhead(t[2..]))
    || (|t| >= 5 && t[..5] == "twice" && DayAhead(t[5..]))
  }

  /** `/(2x|twice).*(day)/.test(s)`: a match starts somewhere. */
  predicate TwiceADay(s: string)
    decreases |s|
  {
    s != [] && (TwiceHere(s) || TwiceADay(s[1..]))
  }

  /** `/(1x|once|daily)/.test(s)`. */
  predicate OnceADay(s: string) {
    Contains(s, "1x") || Contains(s, "once") || Contains(s, "daily")
  }

  /** A match of `every\s+(\d+)\s*h` at the very front of `s`, as the value of its digits.
      Neither `\s+`, `\d+` nor `\s*` can give back a character and still match, so each takes
      the longest run: `q`, `r` and `t` are where the three runs end. */
  function EveryHoursHere(s: string): Option<nat> {
    if |s| < 5 || s[..5] != "every" then None
    else
      var q := SpacesEnd(s, 5);
      var r := DigitsEnd(s, q);
      var t := SpacesEnd(s, r);
      if q == 5 || r == q || t == |s| || s[t] != 'h' then None
      else
        DigitsEndIs(s, q, r);
        DigitsSlice(s, q, r);
        Some(DigitsValue(s[q..r]))
  }

  /** `s.match(/every\s+(\d+)\s*h/)` with `parseInt(m[1], 10)`: the leftmost match. */
  function EveryHours(s: string): Option<nat>
    decreases |s|
  {
    if s == [] then None
    else
      match EveryHoursHere(s)
      case Some(n) => Some(n)
      case None => EveryHours(s[1..])
  }

  /** `parseFrequency`: total, and the first rule that matches the lower-cased text wins. */
  function ParseFrequency(raw: string): (sched: Schedule)
    ensures sched.Interval? ==> sched.hours >= 1
    ensures sched.Times? ==> sched.times == TwiceDailyTimes || sched.times == OnceDailyTimes
  {
    var f := Lower(raw);
    if TwiceADay(f) then Times(TwiceDailyTimes)
    else if OnceADay(f) then Times(OnceDailyTimes)
    else
      match EveryHours(f)
      case Some(n) => Interval(if n < 1 then 1 else n)
      case None => Times(OnceDailyTimes)
  }

  // ---------------------------------------------------------------------------------------
  // What the rules match, stated over indices of the text

  /** "day" at index `j`, and from index `k` up to it no line terminator. */
  predicate DayAt(s: string, k: int, j: int) {
    0 <= k <= j && OccursAt(s, "day", j) && forall p :: k <= p < j ==> !IsLineTerminator(s[p])
  }

  /** A match of `(2x|twice).*(day)`: the alternative starts at `i` and ends at `k`, the `.*`
      spans `k` up to `j`, and "day" starts at `j`. */
  predicate TwiceMatch(s: string, i: int, k: int, j: int) {
    && ((OccursAt(s, "2x", i) && k == i + 2) || (OccursAt(s, "twice", i) && k == i + 5))
    && DayAt(s, k, j)
  }

  lemma DayAtShift(s: string, k: int, j: int)
    requires 0 <= k <= |s|
    ensures DayAt(s[k..], 0, j) <==> DayAt(s, k, j + k)
  {
    if 0 <= j && j + 3 <= |s| - k {
      assert s[k..][j..j + 3] == s[j + k..j + k + 3];
    }
    if DayAt(s[k..], 0, j) {
      forall p | k <= p < j + k ensures !IsLineTerminator(s[p]) {
        assert s[p] == s[k..][p - k];
      }
    }
    if DayAt(s, k, j + k) {
      forall p | 0 <= p < j ensures !IsLineTerminator(s[k..][p]) {
        assert s[k..][p] == s[p + k];
      }
    }
  }

  lemma {:induction false} DayAheadWitness(s: string)
    requires DayAhead(s)
    ensures exists j :: DayAt(s, 0, j)
    decreases |s|
  {
    if s[..3] == "day" {
      assert DayAt(s, 0, 0);
    } else {
      DayAheadWitness(s[1..]);
      var j :| DayAt(s[1..], 0, j);
      DayAtShift(s, 1, j);
      assert DayAt(s, 0, j + 1);
    }
  }

  lemma {:induction false} DayAtAhead(s: string, j: int)
    requires DayAt(s, 0, j)
    ensures DayAhead(s)
    decreases j
  {
    if j > 0 {
      assert !IsLineTerminator(s[0]);
      DayAtShift(s, 1, j - 1);
      DayAtAhead(s[1..], j - 1);
    } else {
      assert s[..3] == s[0..3];
    }
  }

  /** `.*(day)` matches at the front exactly when "day" occurs with no line terminator before it. */
  lemma DayAheadIff(s: string)
    ensures DayAhead(s) <==> exists j :: DayAt(s, 0, j)
  {
    if DayAhead(s) {
      DayAheadWitness(s);
    }
    forall j | DayAt(s, 0, j) ensures DayAhead(s) {
      DayAtAhead(s, j);
    }
  }

  lemma {:induction false} TwiceADayWitness(s: string)
    requires TwiceADay(s)
    ensures exists i :: 0 <= i < |s| && TwiceHere(s[i..])
    decreases |s|
  {
    if TwiceHere(s) {
      assert s[0..] == s;
    } else {
      TwiceADayWitness(s[1..]);
      var i :| 0 <= i < |s| - 1 && TwiceHere(s[1..][i..]);
      assert s[1..][i..] == s[i + 1..];
    }
  }

  lemma {:induction false} TwiceHereTest(s: string, i: int)
    requires 0 <= i < |s| && TwiceHere(s[i..])
    ensures TwiceADay(s)
    decreases i
  {
    if i == 0 {
      assert s[0..] == s;
    } else {
      assert s[1..][i - 1..] == s[i..];
      TwiceHereTest(s[1..], i - 1);
    }
  }

  /** The rule-1 text test holds exactly when a match starts at some index. */
  lemma TwiceADayScan(s: string)
    ensures TwiceADay(s) <==> exists i :: 0 <= i < |s| && TwiceHere(s[i..])
  {
    if TwiceADay(s) {
      TwiceADayWitness(s);
    }
    forall i | 0 <= i < |s| && TwiceHere(s[i..]) ensures TwiceADay(s) {
      TwiceHereTest(s, i);
    }
  }

  /** After an alternative that ends at `k`, `.*(day)` matches exactly when some `DayAt(s, k, j)`. */
  lemma DayAheadAt(s: string, k: int)
    requires 0 <= k <= |s|
    ensures DayAhead(s[k..]) <==> exists j :: DayAt(s, k, j)
  {
    DayAheadIff(s[k..]);
    if DayAhead(s[k..]) {
      var j :| DayAt(s[k..], 0, j);
      DayAtShift(s, k, j);
    }
    forall j | DayAt(s, k, j) ensures DayAhead(s[k..]) {
      DayAtShift(s, k, j - k);
    }
  }

  lemma TwiceHereMatch(s: string, i: int)
    requires 0 <= i < |s| && TwiceHere(s[i..])
    ensures exists k, j :: TwiceMatch(s, i, k, j)
  {
    var t := s[i..];
    if |t| >= 2 && t[..2] == "2x" && DayAhead(t[2..]) {
      assert s[i..i + 2] == t[..2];
      assert t[2..] == s[i + 2..];
      DayAheadAt(s, i + 2);
      var j :| DayAt(s, i + 2, j);
      assert TwiceMatch(s, i, i + 2, j);
    } else {
      assert s[i..i + 5] == t[..5];
      assert t[5..] == s[i + 5..];
      DayAheadAt(s, i + 5);
      var j :| DayAt(s, i + 5, j);
      assert TwiceMatch(s, i, i + 5, j);
    }
  }

  lemma MatchTwiceHere(s: string, i: int, k: int, j: int)
    requires TwiceMatch(s, i, k, j)
    ensures 0 <= i < |s| && TwiceHere(s[i..])
  {
    var t := s[i..];
    DayAheadAt(s, k);
    assert t[k - i..] == s[k..];
    if OccursAt(s, "2x", i) && k == i + 2 {
      assert t[..2] == s[i..i + 2];
    } else {
      assert t[..5] == s[i..i + 5];
    }
  }

  /** Rule 1 is the regular expression `(2x|twice).*(day)`: some "2x" or "twice" is followed,
      on the same line, by "day". */
  lemma TwiceADayIff(s: string)
    ensures TwiceADay(s) <==> exists i, k, j :: TwiceMatch(s, i, k, j)
  {
    if TwiceADay(s) {
      TwiceADayWitness(s);
      var i :| 0 <= i < |s| && TwiceHere(s[i..]);
      TwiceHereMatch(s, i);
    }
    forall i, k, j | TwiceMatch(s, i, k, j) ensures TwiceADay(s) {
      MatchTwiceHere(s, i, k, j);
      TwiceHereTest(s, i);
    }
  }

  /** Rule 3 takes the leftmost match of `every\s+(\d+)\s*h`: no match anywhere gives `None`,
      and otherwise the value is that of the first index at which a match starts. */
  lemma EveryHoursLeftmost(s: string)
    ensures EveryHours(s).None? <==> forall i :: 0 <= i < |s| ==> EveryHoursHere(s[i..]).None?
    ensures EveryHours(s).Some? ==>
              exists i :: && 0 <= i < |s| && EveryHoursHere(s[i..]) == EveryHours(s)
                          && forall i' :: 0 <= i' < i ==> EveryHoursHere(s[i'..]).None?
  {
    EveryHoursNone(s);
    if EveryHours(s).Some? {
      EveryHoursFirst(s);
    }
  }

  lemma {:induction false} EveryHoursNone(s: string)
    ensures EveryHours(s).None? <==> forall i :: 0 <= i < |s| ==> EveryHoursHere(s[i..]).None?
    decreases |s|
  {
    if s != [] {
      assert s[0..] == s;
      EveryHoursNone(s[1..]);
      forall i | 0 < i < |s| ensures s[1..][i - 1..] == s[i..] { }
    }
  }

  lemma {:induction false} EveryHoursFirst(s: string)
    requires EveryHours(s).Some?
    ensures exists i :: && 0 <= i < |s| && EveryHoursHere(s[i..]) == EveryHours(s)
                        && forall i' :: 0 <= i' < i ==> EveryHoursHere(s[i'..]).None?
    decreases |s|
  {
    assert s[0..] == s;
    if EveryHoursHere(s).None? {
      EveryHoursFirst(s[1..]);
      var i :| && 0 <= i < |s| - 1 && EveryHoursHere(s[1..][i..]) == EveryHours(s[1..])
               && forall i' :: 0 <= i' < i ==> EveryHoursHere(s[1..][i'..]).None?;
      EveryHoursShift(s, i);
    }
  }

  /** A first match at `i` in the tail is a first match at `i + 1` when `s` itself has none. */
  lemma EveryHoursShift(s: string, i: nat)
    requires s != [] && EveryHoursHere(s).None? && i < |s| - 1
    requires EveryHoursHere(s[1..][i..]) == EveryHours(s[1..])
    requires forall i' :: 0 <= i' < i ==> EveryHoursHere(s[1..][i'..]).None?
    ensures EveryHoursHere(s[i + 1..]) == EveryHours(s)
    ensures forall i' :: 0 <= i' < i + 1 ==> EveryHoursHere(s[i'..]).None?
  {
    assert s[0..] == s;
    assert s[1..][i..] == s[i + 1..];
    forall i' | 0 < i' < i + 1 ensures EveryHoursHere(s[i'..]).None? {
      assert s[1..][i' - 1..] == s[i'..];
    }
  }

  /** The end of the white-space run that starts at `p`. */
  function SpacesEnd(s: string, p: nat): (q: nat)
    requires p <= |s|
    ensures p <= q <= |s|
    decreases |s| - p
  {
    if p < |s| && IsSpace(s[p]) then SpacesEnd(s, p + 1) else p
  }

  /** The end of the digit run that starts at `p`. */
  function DigitsEnd(s: string, p: nat): (q: nat)
    requires p <= |s|
    ensures p <= q <= |s|
    decreases |s| - p
  {
    if p < |s| && IsDigit(s[p]) then DigitsEnd(s, p + 1) else p
  }

  /** Positions `p .. q - 1` are all white space. */
  predicate SpacesBetween(s: string, p: nat, q: nat)
    requires p <= q <= |s|
  {
    forall i | p <= i < q :: IsSpace(s[i])
  }

  /** Positions `p .. q - 1` are all digits. */
  predicate DigitsBetween(s: string, p: nat, q: nat)
    requires p <= q <= |s|
  {
    forall i | p <= i < q :: IsDigit(s[i])
  }

  /** The white-space run from `p` ends at `q` exactly when `p .. q - 1` is white space and
      `q` is not. */
  lemma {:induction false} SpacesEndIs(s: string, p: nat, q: nat)
    requires p <= q <= |s|
    ensures SpacesEnd(s, p) == q <==> SpacesBetween(s, p, q) && (q == |s| || !IsSpace(s[q]))
    decreases q - p
  {
    if p < q {
      SpacesEndIs(s, p + 1, q);
    }
  }

  /** The digit run from `p` ends at `q` exactly when `p .. q - 1` are digits and `q` is not. */
  lemma {:induction false} DigitsEndIs(s: string, p: nat, q: nat)
    requires p <= q <= |s|
    ensures DigitsEnd(s, p) == q <==> DigitsBetween(s, p, q) && (q == |s| || !IsDigit(s[q]))
    decreases q - p
  {
    if p < q {
      DigitsEndIs(s, p + 1, q);
    }
  }

  lemma DigitsSlice(s: string, p: nat, q: nat)
    requires p <= q <= |s| && DigitsBetween(s, p, q)
    ensures AllDigits(s[p..q])
  {
    assert forall i | 0 <= i < q - p :: s[p..q][i] == s[p + i];
  }

  /** One way for `every\s+(\d+)\s*h` to match at the front of `s`, backtracking allowed:
      `w` white-space characters, then `n` digits, then `k` white-space characters, then 'h'. */
  predicate EveryMatch(s: string, w: nat, n: nat, k: nat) {
    && 5 + w + n + k < |s| && s[..5] == "every" && w >= 1 && n >= 1
    && SpacesBetween(s, 5, 5 + w)
    && DigitsBetween(s, 5 + w, 5 + w + n)
    && SpacesBetween(s, 5 + w + n, 5 + w + n + k)
    && s[5 + w + n + k] == 'h'
  }

  /** The regular expression matches at the front exactly when `EveryHoursHere` finds a match,
      and every way it can match captures the digits `EveryHoursHere` reads, so the greedy
      reading is the only one. */
  lemma EveryHoursHereIff(s: string)
    ensures EveryHoursHere(s).Some? <==> exists w, n, k :: EveryMatch(s, w, n, k)
    ensures forall w, n, k | EveryMatch(s, w, n, k) :: EveryHoursHere(s) == Some(DigitsValue(s[5 + w..5 + w + n]))
  {
    if EveryHoursHere(s).Some? {
      EveryHoursHereMatch(s);
    }
    forall w, n, k | EveryMatch(s, w, n, k) ensures EveryHoursHere(s) == Some(DigitsValue(s[5 + w..5 + w + n])) {
      MatchEnds(s, w, n, k);
    }
  }

  /** The runs `EveryHoursHere` measures make a match. */
  lemma EveryHoursHereMatch(s: string)
    requires EveryHoursHere(s).Some?
    ensures exists w, n, k :: EveryMatch(s, w, n, k)
  {
    var q := SpacesEnd(s, 5);
    var r := DigitsEnd(s, q);
    var t := SpacesEnd(s, r);
    SpacesEndIs(s, 5, q);
    DigitsEndIs(s, q, r);
    SpacesEndIs(s, r, t);
    assert EveryMatch(s, q - 5, r - q, t - r);
  }

  /** The runs of any match end where `EveryHoursHere`'s runs end. */
  lemma MatchEnds(s: string, w: nat, n: nat, k: nat)
    requires EveryMatch(s, w, n, k)
    ensures EveryHoursHere(s) == Some(DigitsValue(s[5 + w..5 + w + n]))
  {
    DigitNotSpace(s[5 + w]);
    SpacesEndIs(s, 5, 5 + w);
    DigitsEndIs(s, 5 + w, 5 + w + n);
    SpacesEndIs(s, 5 + w + n, 5 + w + n + k);
    DigitsSlice(s, 5 + w, 5 + w + n);
    EndsValue(s, 5 + w, 5 + w + n, 5 + w + n + k);
  }

  lemma DigitNotSpace(c: char)
    requires IsDigit(c)
    ensures !IsSpace(c)
  {
  }

  lemma EndsValue(s: string, q: nat, r: nat, t: nat)
    requires |s| >= 5 && s[..5] == "every" && 5 < q < r <= t < |s| && s[t] == 'h'
    requires SpacesEnd(s, 5) == q && DigitsEnd(s, q) == r && SpacesEnd(s, r) == t && AllDigits(s[q..r])
    ensures EveryHoursHere(s) == Some(DigitsValue(s[q..r]))
  {
  }

  /** The final result, rule by rule: rule 1 wins over everything; rule 2 wins over rule 3;
      rule 3 yields the leftmost number, raised to at least 1; otherwise the default. */
  lemma ParseFrequencyRules(raw: string)
    ensures var f := Lower(raw);
            && ((exists i, k, j :: TwiceMatch(f, i, k, j)) ==> ParseFrequency(raw) == Times(TwiceDailyTimes))
            && (!(exists i, k, j :: TwiceMatch(f, i, k, j)) && OnceADay(f) ==>
                  ParseFrequency(raw) == Times(OnceDailyTimes))
            && (!(exists i, k, j :: TwiceMatch(f, i, k, j)) && !OnceADay(f) && EveryHours(f).Some? ==>
                  ParseFrequency(raw) == Interval(if EveryHours(f).value < 1 then 1 else EveryHours(f).value))
            && (!(exists i, k, j :: TwiceMatch(f, i, k, j)) && !OnceADay(f) && EveryHours(f).None? ==>
                  ParseFrequency(raw) == Times(OnceDailyTimes))
  {
    TwiceADayIff(Lower(raw));
  }

  // ---------------------------------------------------------------------------------------
  // Characters a rule needs, used to rule the rules out on concrete texts

  /** Rule 1 cannot match a text with neither a '2' nor a 'w'. */
  lemma {:induction false} NoTwiceWithout(s: string)
    requires '2' !in s && 'w' !in s
    ensures !TwiceADay(s)
    decreases |s|
  {
    if s != [] {
      assert s[0] != '2';
      if |s| >= 2 { assert s[..2][0] == s[0]; }
      if |s| >= 5 { assert s[..5][1] == s[1] && s[1] != 'w'; }
      assert '2' !in s[1..] && 'w' !in s[1..] by {
        forall c | c in s[1..] ensures c in s { }
      }
      NoTwiceWithout(s[1..]);
    }
  }

  /** Rule 3 cannot match a text without a 'v'. */
  lemma {:induction false} NoEveryWithout(s: string)
    requires 'v' !in s
    ensures EveryHours(s).None?
    decreases |s|
  {
    if s != [] {
      NoEveryHere(s);
      TailWithout(s, 'v');
      NoEveryWithout(s[1..]);
    }
  }

  lemma NoEveryHere(s: string)
    requires 'v' !in s
    ensures EveryHoursHere(s).None?
  {
    if |s| >= 5 { assert s[..5][1] == s[1] && s[1] != 'v'; }
  }

  /** A character missing from a text is missing from its tail. */
  lemma TailWithout(s: string, c: char)
    requires s != [] && c !in s
    ensures c !in s[1..]
  {
    forall d | d in s[1..] ensures d in s { }
  }

  /** Rule 2 cannot match a text with none of '1', 'o' and 'l'. */
  lemma NoOnceWithout(s: string)
    requires '1' !in s && 'o' !in s && 'l' !in s
    ensures !OnceADay(s)
  {
    if Contains(s, "1x") { ContainsHasChar(s, "1x", 0); }
    if Contains(s, "once") { ContainsHasChar(s, "once", 0); }
    if Contains(s, "daily") { ContainsHasChar(s, "daily", 3); }
  }

  // ---------------------------------------------------------------------------------------
  // Worked examples

  lemma IntervalMatch(f: string)
    requires f == "every 8h"
    ensures EveryHours(f) == Some(8)
  {
    assert f[..5] == "every";
    assert SpacesEnd(f, 5) == 6 && DigitsEnd(f, 6) == 7 && SpacesEnd(f, 7) == 7;
    assert f[6..7] == "8" && DigitsValue("8") == 8;
    assert EveryHoursHere(f) == Some(8);
  }

  /** The text as `parseFrequency` scans it: unchanged by lower-casing, and without the
      characters rules 1 and 2 need. */
  lemma NoEarlierRule(f: string)
    requires '2' !in f && 'w' !in f && '1' !in f && 'o' !in f && 'l' !in f
    ensures !TwiceADay(f) && !OnceADay(f)
  {
    NoTwiceWithout(f);
    NoOnceWithout(f);
  }

  /** Rule 3 as it applies once rules 1 and 2 have failed. */
  lemma ParsesAsInterval(raw: string, f: string, n: nat)
    requires f == Lower(raw) && !TwiceADay(f) && !OnceADay(f) && EveryHours(f) == Some(n)
    ensures ParseFrequency(raw) == Interval(if n < 1 then 1 else n)
  {
  }

  /** "every 8h" is an 8-hour interval. */
  lemma IntervalExample(raw: string)
    requires raw == "every 8h"
    ensures ParseFrequency(raw) == Interval(8)
  {
    EveryLower(raw);
    EveryRules(raw);
    IntervalMatch(raw);
    ParsesAsInterval(raw, raw, 8);
  }

  /** The two interval examples are already lower case. */
  lemma EveryLower(raw: string)
    requires raw == "every 8h" || raw == "every 0 h"
    ensures Lower(raw) == raw
  {
    LowerNoUpper(raw);
  }

  /** Neither interval example fires rule 1 or rule 2. */
  lemma EveryRules(raw: string)
    requires raw == "every 8h" || raw == "every 0 h"
    ensures !TwiceADay(raw) && !OnceADay(raw)
  {
    NoEarlierRule(raw);
  }

  lemma OnceMatch(f: string)
    requires f == "every 8h daily"
    ensures !TwiceADay(f) && OnceADay(f)
  {
    EveryDailyNoTwice(f);
    EveryDailyOnce(f);
  }

  lemma EveryDailyNoTwice(f: string)
    requires f == "every 8h daily"
    ensures !TwiceADay(f)
  {
    NoTwiceWithout(f);
  }

  lemma EveryDailyOnce(f: string)
    requires f == "every 8h daily"
    ensures OnceADay(f)
  {
    assert OccursAt(f, "daily", 9) by {
      assert f[9..14] == "daily";
    }
    ContainsIff(f, "daily");
  }

  /** Rule 2 comes before rule 3: "every 8h daily" is one daily dose, not an interval. */
  lemma OnceBeforeIntervalExample(raw: string)
    requires raw == "every 8h daily"
    ensures ParseFrequency(raw) == Times(["09:00"])
  {
    LowerNoUpper(raw);
    OnceMatch(raw);
  }

  lemma TwiceMatchExample(f: string)
    requires f == "twice a day"
    ensures TwiceADay(f)
  {
    assert OccursAt(f, "twice", 0) by { assert f[0..5] == "twice"; }
    assert OccursAt(f, "day", 8) by { assert f[8..11] == "day"; }
    assert forall p :: 5 <= p < 8 ==> !IsLineTerminator(f[p]);
    assert TwiceMatch(f, 0, 5, 8);
    TwiceADayIff(f);
  }

  /** Case does not matter: "Twice a day" is the two-dose schedule. */
  lemma TwiceExample(raw: string)
    requires raw == "Twice a day"
    ensures ParseFrequency(raw) == Times(["09:00", "21:00"])
  {
    LowerAt(raw);
    var f := Lower(raw);
    assert f == "twice a day";
    TwiceMatchExample(f);
  }

  lemma LineBreakNoTwice(f: string)
    requires f == "2x\nday"
    ensures !TwiceADay(f)
  {
    assert !DayAhead("\nday") by {
      assert "\nday"[..3] != "day";
      assert IsLineTerminator("\nday"[0]);
    }
    assert f[2..] == "\nday";
    assert !TwiceHere(f);
    assert f[1..] == "x\nday";
    NoTwiceWithout(f[1..]);
  }

  lemma LineBreakNoRule(f: string)
    requires f == "2x\nday"
    ensures !TwiceADay(f) && !OnceADay(f) && EveryHours(f).None?
  {
    LineBreakNoTwice(f);
    NoOnceWithout(f);
    NoEveryWithout(f);
  }

  /** `.` does not cross a line break: "2x\nday" falls through every rule to the default. */
  lemma LineBreakExample(raw: string)
    requires raw == "2x\nday"
    ensures ParseFrequency(raw) == Times(["09:00"])
  {
    LowerNoUpper(raw);
    LineBreakNoRule(raw);
  }

  lemma ZeroHoursMatch(f: string)
    requires f == "every 0 h"
    ensures EveryHours(f) == Some(0)
  {
    assert f[..5] == "every";
    assert SpacesEnd(f, 5) == 6 && DigitsEnd(f, 6) == 7;
    assert f[7] == ' ' && f[8] == 'h' && SpacesEnd(f, 8) == 8;
    assert SpacesEnd(f, 7) == 8;
    assert f[6..7] == "0" && DigitsValue("0") == 0;
    assert EveryHoursHere(f) == Some(0);
  }

  /** "every 0 h" is raised to a 1-hour interval. */
  lemma ZeroHoursExample(raw: string)
    requires raw == "every 0 h"
    ensures ParseFrequency(raw) == Interval(1)
  {
    EveryLower(raw);
    EveryRules(raw);
    ZeroHoursMatch(raw);
    ParsesAsInterval(raw, raw, 0);
  }
}
