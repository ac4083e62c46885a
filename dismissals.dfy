/** Reminder dismissals: the expiry policy of `dismiss`, the upsert into the dismissal store,
    and the query `list` makes of it. */
module Dismissals {
  import opened Wrappers
  import opened JsText
  import opened IsoTime
  import opened Occurrences

  /** How long a dismissal of a reminder with a readable time lasts after that time. */
  const GraceMs: int := 5 * MinuteMs

  /** How long a dismissal lasts when the key holds no readable time. */
  const FallbackMs: int := 24 * HourMs

  /** The body of the response: `{ key, dismissed: true, until }`. */
  datatype DismissResponse = DismissResponse(key: string, dismissed: bool, until: int)

  /** `const [rxId, iso] = raw.split(":")`: the second field, when there is one. */
  function DismissIso(raw: string): (r: Option<string>)
    ensures r.Some? <==> ':' in raw
  {
    var fields := Split(raw, ':');
    JoinSplit(raw, ':');
    SplitFieldsFree(raw, ':');
    if |fields| >= 2 then Some(fields[1]) else None
  }

  /** `expiresAt`: five minutes after the time read from the key when that text is present,
      non-empty and parses (`parseDate` stands for `new Date(iso)`), otherwise 24 hours after
      `now`. */
  function DismissalExpiry(raw: string, now: int, parseDate: string -> Option<int>): (r: int)
    ensures match DismissIso(raw)
            case Some(iso) => (iso != "" && parseDate(iso).Some? ==> r == parseDate(iso).value + GraceMs)
                              && (iso == "" || parseDate(iso).None? ==> r == now + FallbackMs)
            case None => r == now + FallbackMs
  {
    match DismissIso(raw)
    case Some(iso) =>
      if iso != "" then
        match parseDate(iso)
        case Some(w) => w + GraceMs
        case None => now + FallbackMs
      else now + FallbackMs
    case None => now + FallbackMs
  }

  /** The key of a reminder item gives `iso` = the date and the hour only: `YYYY-MM-DDTHH`,
      the text up to the ISO time's first colon, whenever the prescription id has no colon. */
  lemma DismissIsoOfKey(rxId: string, ts: int)
    requires ':' !in rxId && ValidTime(ts)
    ensures DismissIso(OccurrenceKey(rxId, ts)) == Some(DateHourPrefix(ts))
  {
    IsoFields(ts);
    var fields := [DateHourPrefix(ts), MinuteText(MsOfDay(ts)), SecondsSuffix(MsOfDay(ts))];
    SplitJoin(fields, ':');
    SplitAfterField(rxId, ':', IsoString(ts));
    assert Split(OccurrenceKey(rxId, ts), ':') == [rxId] + fields;
  }

  /** The worked example: the item of `rx1` at 2024-01-01T16:00:00Z leaves `iso` = "2024-01-01T16". */
  lemma DismissIsoExample()
    ensures ValidTime(1704124800000)
    ensures OccurrenceKey("rx1", 1704124800000) == "rx1:2024-01-01T16:00:00.000Z"
    ensures DismissIso("rx1:2024-01-01T16:00:00.000Z") == Some("2024-01-01T16")
  {
    ExampleKey();
    ExampleIso();
  }

  lemma ExampleKey()
    ensures ValidTime(1704124800000)
    ensures OccurrenceKey("rx1", 1704124800000) == "rx1:2024-01-01T16:00:00.000Z"
  {
    ExampleKeyParts();
    IsoExample();
    ExampleKeyText(IsoString(1704124800000));
  }

  lemma ExampleKeyParts()
    ensures ValidTime(1704124800000)
    ensures OccurrenceKey("rx1", 1704124800000) == "rx1" + ":" + IsoString(1704124800000)
  {
  }

  lemma ExampleKeyText(iso: string)
    requires iso == "2024-01-01T16:00:00.000Z"
    ensures "rx1" + ":" + iso == "rx1:2024-01-01T16:00:00.000Z"
  {
  }

  lemma ExampleIso()
    ensures ValidTime(1704124800000)
    ensures DismissIso(OccurrenceKey("rx1", 1704124800000)) == Some("2024-01-01T16")
  {
    IsoExample();
    DismissIsoOfKey("rx1", 1704124800000);
  }

  /** The store of dismissals, one expiry per (user, key). */
  class DismissalStore {
    var entries: map<(string, string), int>

    constructor()
      ensures entries == map[]
    {
      entries := map[];
    }

    /** `updateOne(..., { upsert: true })`: set the expiry of (user, key), creating the entry
        when there is none, and leave every other entry alone. */
    method Upsert(userId: string, key: string, expiresAt: int)
      modifies this
      ensures entries == old(entries)[(userId, key) := expiresAt]
      ensures (userId, key) in entries && entries[(userId, key)] == expiresAt
      ensures forall e | e in old(entries) && e != (userId, key) :: e in entries && entries[e] == old(entries)[e]
      ensures entries.Keys == old(entries).Keys + {(userId, key)}
    {
      entries := entries[(userId, key) := expiresAt];
    }

    /** `dismiss`: the raw key is stored unchanged with its expiry, and the response echoes
        both. */
    method Dismiss(userId: string, raw: string, now: int, parseDate: string -> Option<int>) returns (resp: DismissResponse)
      modifies this
      ensures entries == old(entries)[(userId, raw) := DismissalExpiry(raw, now, parseDate)]
      ensures resp == DismissResponse(raw, true, DismissalExpiry(raw, now, parseDate))
    {
      var expiresAt := DismissalExpiry(raw, now, parseDate);
      Upsert(userId, raw, expiresAt);
      resp := DismissResponse(raw, true, expiresAt);
    }

    /** The TTL index: drop the entries whose expiry has passed. */
    method PurgeExpired(now: int)
      modifies this
      ensures entries == Unexpired(old(entries), now)
    {
      entries := Unexpired(entries, now);
    }
  }

  /** The entries the TTL monitor keeps at time `now`. */
  function Unexpired(entries: map<(string, string), int>, now: int): (r: map<(string, string), int>)
    ensures r.Keys <= entries.Keys
    ensures forall e | e in r :: r[e] == entries[e] && entries[e] >= now
    ensures forall e | e in entries && entries[e] >= now :: e in r
  {
    map e | e in entries && entries[e] >= now :: entries[e]
  }

  /** The query `list` makes: the keys among `keys` that `userId` dismissed until after `now`. */
  function ActiveDismissed(entries: map<(string, string), int>, userId: string, keys: seq<string>, now: int): (r: set<string>)
    ensures forall k :: k in r <==> k in keys && (userId, k) in entries && entries[(userId, k)] > now
  {
    set k | k in keys && (userId, k) in entries && entries[(userId, k)] > now
  }

  /** Upserting the same (user, key) twice leaves one entry, with the later expiry. */
  lemma UpsertTwice(entries: map<(string, string), int>, userId: string, key: string, e1: int, e2: int)
    ensures entries[(userId, key) := e1][(userId, key) := e2] == entries[(userId, key) := e2]
    ensures |entries[(userId, key) := e1][(userId, key) := e2].Keys| == |entries[(userId, key) := e2].Keys|
  {
  }

  /** A dismissal hides its key from the listing until its expiry, and then no longer. */
  lemma DismissHides(entries: map<(string, string), int>, userId: string, raw: string, expiresAt: int, keys: seq<string>, now: int)
    requires raw in keys
    ensures raw in ActiveDismissed(entries[(userId, raw) := expiresAt], userId, keys, now) <==> now < expiresAt
  {
  }

  /** A dismissal by one user hides nothing from another. */
  lemma DismissIsPerUser(entries: map<(string, string), int>, userId: string, other: string, raw: string, expiresAt: int, keys: seq<string>, now: int)
    requires other != userId
    ensures ActiveDismissed(entries[(userId, raw) := expiresAt], other, keys, now) == ActiveDismissed(entries, other, keys, now)
  {
  }

  /** The TTL monitor never changes what the listing sees: the query already ignores expired
      entries. */
  lemma PurgeKeepsActive(entries: map<(string, string), int>, userId: string, keys: seq<string>, now: int, later: int)
    requires now <= later
    ensures ActiveDismissed(Unexpired(entries, now), userId, keys, later) == ActiveDismissed(entries, userId, keys, later)
  {
  }
}
