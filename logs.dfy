/** Health logs of a profile: the validation of `createLog` and `updateLog`, the whitelist of
    editable fields, the pagination arithmetic of `listLogs`, and the store the handlers change. */
module Logs {
  import opened Wrappers
  import opened JsText

  // ---------------------------------------------------------------------------------------
  // Request values

  /** A JSON value of a request body (objects and arrays are not modelled). */
  datatype Value = Null | Bool(b: bool) | Number(n: real) | Text(s: string)

  /** A request body or a stored log: field name to value; a missing field is `undefined`. */
  type Doc = map<string, Value>

  /** `req.body[f]`. */
  function Field(body: Doc, f: string): (r: Option<Value>)
    ensures r.Some? <==> f in body
    ensures r.Some? ==> r.value == body[f]
  {
    if f in body then Some(body[f]) else None
  }

  /** `Number(v)`. */
  function ToNumber(v: Value): (r: Numeric)
    ensures v.Null? ==> r == Num(0.0)
    ensures v.Bool? ==> r == Num(if v.b then 1.0 else 0.0)
    ensures v.Number? ==> r == Num(v.n)
    ensures v.Text? ==> r == StringToNumber(v.s)
  {
    match v
    case Null => Num(0.0)
    case Bool(b) => Num(if b then 1.0 else 0.0)
    case Number(n) => Num(n)
    case Text(s) => StringToNumber(s)
  }

  /** `Number(v) <= 0`: false for NaN. */
  predicate NonPositive(v: Value) {
    match ToNumber(v)
    case Num(x) => x <= 0.0
    case NaN => false
  }

  /** JavaScript truthiness of a JSON value. */
  predicate Truthy(v: Value) {
    match v
    case Null => false
    case Bool(b) => b
    case Number(n) => n != 0.0
    case Text(s) => s != ""
  }

  // ---------------------------------------------------------------------------------------
  // Validation

  const Categories: seq<string> := ["weight", "meal", "water", "feed", "sleep", "growth"]

  /** The fields `createLog` takes from the body. */
  const CreateFields: seq<string> := ["profileId", "category", "value", "date", "startTime", "endTime", "notes"]

  /** The fields `updateLog` may change. */
  const EditableFields: seq<string> := ["category", "value", "date", "startTime", "endTime", "notes"]

  const PositiveMessage: string := "value must be a positive number for weight/water"
  const CategoryMessage: string := "invalid category"

  /** `category === "weight" || category === "water"`. */
  predicate NeedsPositive(category: Option<Value>) {
    category == Some(Text("weight")) || category == Some(Text("water"))
  }

  /** The 422 of `createLog`: a weight or water log whose value is missing or not above zero. */
  predicate CreateValueRejected(body: Doc) {
    NeedsPositive(Field(body, "category"))
    && (Field(body, "value").None? || NonPositive(body["value"]))
  }

  /** The first 422 of `updateLog`: a truthy category that is not one of the six. */
  predicate CategoryRejected(body: Doc) {
    var c := Field(body, "category");
    c.Some? && Truthy(c.value) && !(c.value.Text? && c.value.s in Categories)
  }

  /** The second 422 of `updateLog`: the new or the stored category is weight or water, and a
      value is supplied that is not above zero. */
  predicate UpdateValueRejected(body: Doc, log: Doc) {
    (NeedsPositive(Field(body, "category")) || NeedsPositive(Field(log, "category")))
    && Field(body, "value").Some? && NonPositive(body["value"])
  }

  /** The fields of `fields` that `body` defines, with their values, and nothing else. */
  function Whitelisted(body: Doc, fields: seq<string>): (r: Doc)
    ensures forall f :: f in r <==> f in fields && f in body
    ensures forall f | f in r :: r[f] == body[f]
  {
    map f | f in fields && f in body :: body[f]
  }

  /** The `forEach` over the editable fields that fills `updates`. */
  method BuildUpdates(body: Doc) returns (updates: Doc)
    ensures updates == Whitelisted(body, EditableFields)
  {
    updates := map[];
    for i := 0 to |EditableFields|
      invariant updates == Whitelisted(body, EditableFields[..i])
    {
      var f := EditableFields[i];
      WhitelistedStep(body, EditableFields, i);
      if f in body {
        updates := updates[f := body[f]];
      }
    }
    assert EditableFields[..|EditableFields|] == EditableFields;
  }

  lemma WhitelistedStep(body: Doc, fields: seq<string>, i: int)
    requires 0 <= i < |fields|
    ensures Whitelisted(body, fields[..i + 1])
         == if fields[i] in body then Whitelisted(body, fields[..i])[fields[i] := body[fields[i]]]
            else Whitelisted(body, fields[..i])
  {
    assert fields[..i + 1] == fields[..i] + [fields[i]];
  }

  /** The whitelist never touches the owner of a log. */
  lemma UpdatesKeepOwner(body: Doc)
    ensures "profileId" !in Whitelisted(body, EditableFields)
  {
  }

  // ---------------------------------------------------------------------------------------
  // Pagination

  /** `req.query.x ?? d`, read as a number by the arithmetic that uses it. */
  function QueryNumber(q: Option<string>, d: int): (r: Numeric)
    ensures q.None? ==> r == Num(d as real)
    ensures q.Some? ==> r == StringToNumber(q.value)
  {
    match q
    case None => Num(d as real)
    case Some(t) => StringToNumber(t)
  }

  /** `req.query.x ?? d` as the response echoes it. */
  function QueryEcho(q: Option<string>, d: int): Value {
    match q
    case None => Number(d as real)
    case Some(t) => Text(t)
  }

  /** `(page - 1) * limit`. */
  function Skip(page: Numeric, limit: Numeric): (r: Numeric)
    ensures r.NaN? <==> page.NaN? || limit.NaN?
  {
    if page.NaN? || limit.NaN? then NaN else Num((page.x - 1.0) * limit.x)
  }

  /** `Math.ceil`. */
  function Ceil(x: real): (r: int)
    ensures r as real - 1.0 < x <= r as real
  {
    -((-x).Floor)
  }

  /** `Math.ceil(total / limit)`; `None` when the quotient is infinite or NaN (a zero or NaN
      limit), which the JSON response writes as `null`. */
  function Pages(total: nat, limit: Numeric): (r: Option<int>)
    ensures r.None? <==> limit == NaN || limit == Num(0.0)
    ensures r.Some? ==> (r.value as real - 1.0) * limit.x < total as real <= r.value as real * limit.x
                        || limit.x < 0.0
  {
    match limit
    case NaN => None
    case Num(l) =>
      if l == 0.0 then None
      else
        var p := Ceil(total as real / l);
        if l > 0.0 then
          CeilBounds(total as real, l, p);
          Some(p)
        else Some(p)
  }

  lemma CeilBounds(t: real, l: real, p: int)
    requires l > 0.0 && p as real - 1.0 < t / l <= p as real
    ensures (p as real - 1.0) * l < t <= p as real * l
  {
    var y := t / l;
    assert y * l == t;
    MulRealLess(p as real - 1.0, y, l);
    MulRealLeq(y, p as real, l);
    assert y * l <= p as real * l;
  }

  lemma MulRealLess(a: real, b: real, l: real)
    requires l > 0.0 && a < b
    ensures a * l < b * l
  {
  }

  lemma MulRealLeq(a: real, b: real, l: real)
    requires l > 0.0 && a <= b
    ensures a * l <= b * l
  {
  }

  /** With the defaults, the first page starts at record 0 and there are `ceil(total / 25)`
      pages. */
  lemma DefaultPagination(total: nat)
    ensures Skip(QueryNumber(None, 1), QueryNumber(None, 25)) == Num(0.0)
    ensures Pages(total, QueryNumber(None, 25)) == Some((total + 24) / 25)
  {
    PagesOfPositiveLimit(total, 25);
  }

  /** For a positive whole limit, `pages` is the fewest pages of `limit` records that hold all
      `total` records. */
  lemma PagesOfPositiveLimit(total: nat, limit: int)
    requires limit >= 1
    ensures Pages(total, Num(limit as real)) == Some((total + limit - 1) / limit)
    ensures var p := (total + limit - 1) / limit;
            p >= 0 && p * limit >= total && (p == 0 || (p - 1) * limit < total)
  {
    var p := Pages(total, Num(limit as real)).value;
    var q := (total + limit - 1) / limit;
    DivBounds(total, limit, q);
    WholePages(total, limit, p, q);
  }

  /** `q`, the ceiling of `total / limit` in integers, is bounded by the multiples of `limit`. */
  lemma DivBounds(total: nat, limit: int, q: int)
    requires limit >= 1 && q == (total + limit - 1) / limit
    ensures q >= 0 && q * limit >= total && (q - 1) * limit < total
  {
    var r := (total + limit - 1) % limit;
    assert total + limit - 1 == q * limit + r;
  }

  /** Two integers whose multiples of `limit` bracket `total` in the same way are equal. */
  lemma WholePages(total: nat, limit: int, p: int, q: int)
    requires limit >= 1
    requires (p as real - 1.0) * (limit as real) < total as real <= p as real * (limit as real)
    requires (q - 1) * limit < total <= q * limit
    ensures p == q
  {
    assert ((p - 1) * limit) as real == (p as real - 1.0) * (limit as real);
    assert (p * limit) as real == p as real * (limit as real);
    if p < q {
      MulMonotoneInt(p, q - 1, limit);
    } else if p > q {
      MulMonotoneInt(q, p - 1, limit);
    }
  }

  lemma MulMonotoneInt(a: int, b: int, l: int)
    requires l >= 1 && a <= b
    ensures a * l <= b * l
  {
  }

  /** For whole `page` and `limit` at least 1, page `page` starts after the records of the
      pages before it, and every record position lies on exactly one page. */
  lemma SkipOfPage(page: int, limit: int, i: nat)
    requires page >= 1 && limit >= 1
    ensures Skip(Num(page as real), Num(limit as real)) == Num(((page - 1) * limit) as real)
    ensures (page - 1) * limit <= i < page * limit <==> page == i / limit + 1
  {
    assert ((page - 1) * limit) as real == (page as real - 1.0) * (limit as real);
    var k := i / limit;
    assert i == k * limit + i % limit;
    if page <= k {
      MulMonotoneInt(page, k, limit);
    } else if page > k + 1 {
      MulMonotoneInt(k + 1, page - 1, limit);
    }
  }

  // ---------------------------------------------------------------------------------------
  // The handlers

  /** `ownsProfile`: the profile exists and belongs to `userId`. `owners` maps each profile id
      to its owner's id. */
  predicate Owns(owners: map<string, string>, userId: string, profileId: Value) {
    profileId.Text? && profileId.s in owners && owners[profileId.s] == userId
  }

  /** `findOwnedLogOr404`: the log exists and the caller owns its profile. */
  predicate OwnedLog(logs: map<nat, Doc>, owners: map<string, string>, userId: string, id: nat) {
    id in logs && "profileId" in logs[id] && Owns(owners, userId, logs[id]["profileId"])
  }

  /** The query filter of `listLogs`: the profile, and the category when `type` is truthy. */
  predicate Selected(log: Doc, profileId: string, kind: Option<string>) {
    && Field(log, "profileId") == Some(Text(profileId))
    && (kind.None? || kind.value == "" || Field(log, "category") == Some(Text(kind.value)))
  }

  /** `meta` of the listing: `total`, `page` and `limit` as given, `pages`. */
  datatype PageMeta = PageMeta(total: nat, page: Value, pages: Option<int>, limit: Value)

  datatype Response =
    | NotFound
    | Unprocessable(message: string)
    | Created(id: nat, log: Doc)
    | Updated(log: Doc)
    | Deleted
    | Listing(ids: set<nat>, skip: Numeric, meta: PageMeta)

  /** The log collection. Ids are handed out in increasing order. */
  class LogStore {
    var logs: map<nat, Doc>
    var nextId: nat

    predicate Valid()
      reads this
    {
      forall id | id in logs :: id < nextId
    }

    constructor()
      ensures Valid() && logs == map[]
    {
      logs := map[];
      nextId := 0;
    }

    /** `listLogs`: 404 for a profile the caller does not own, before any query; otherwise the
        ids the filter selects, the skip and the page metadata. */
    function ListLogs(userId: string, profileId: string, owners: map<string, string>,
                      kind: Option<string>, limit: Option<string>, page: Option<string>): (r: Response)
      reads this
      ensures !Owns(owners, userId, Text(profileId)) ==> r == NotFound
      ensures Owns(owners, userId, Text(profileId)) ==>
                && r.Listing?
                && (forall id :: id in r.ids <==> id in logs && Selected(logs[id], profileId, kind))
                && r.meta.total == |r.ids|
                && r.skip == Skip(QueryNumber(page, 1), QueryNumber(limit, 25))
                && r.meta.pages == Pages(|r.ids|, QueryNumber(limit, 25))
    {
      if !Owns(owners, userId, Text(profileId)) then NotFound
      else
        var ids := set id | id in logs && Selected(logs[id], profileId, kind);
        var lim := QueryNumber(limit, 25);
        Listing(ids, Skip(QueryNumber(page, 1), lim),
                PageMeta(|ids|, QueryEcho(page, 1), Pages(|ids|, lim), QueryEcho(limit, 25)))
    }

    /** `createLog`: 404 for a profile the caller does not own, before any validation; 422 for
        a weight or water log without a positive value; otherwise a new log with the body's
        fields. */
    method CreateLog(userId: string, body: Doc, owners: map<string, string>) returns (r: Response)
      requires Valid()
      modifies this
      ensures Valid()
      ensures !("profileId" in body && Owns(owners, userId, body["profileId"])) ==>
                r == NotFound && logs == old(logs) && nextId == old(nextId)
      ensures "profileId" in body && Owns(owners, userId, body["profileId"]) && CreateValueRejected(body) ==>
                r == Unprocessable(PositiveMessage) && logs == old(logs) && nextId == old(nextId)
      ensures "profileId" in body && Owns(owners, userId, body["profileId"]) && !CreateValueRejected(body) ==>
                && r == Created(old(nextId), Whitelisted(body, CreateFields))
                && old(nextId) !in old(logs)
                && logs == old(logs)[old(nextId) := Whitelisted(body, CreateFields)]
    {
      if !("profileId" in body && Owns(owners, userId, body["profileId"])) {
        return NotFound;
      }
      if CreateValueRejected(body) {
        return Unprocessable(PositiveMessage);
      }
      var log := Whitelisted(body, CreateFields);
      var id := nextId;
      logs := logs[id := log];
      nextId := nextId + 1;
      r := Created(id, log);
    }

    /** `updateLog`: 404 unless the caller owns the log; 422 for a bad category, then for a
        value that is not positive on a weight or water log; otherwise the whitelisted fields
        of the body are set and every other field is kept. */
    method UpdateLog(userId: string, id: nat, body: Doc, owners: map<string, string>) returns (r: Response)
      requires Valid()
      modifies this
      ensures Valid() && nextId == old(nextId)
      ensures !OwnedLog(old(logs), owners, userId, id) ==> r == NotFound && logs == old(logs)
      ensures OwnedLog(old(logs), owners, userId, id) && CategoryRejected(body) ==>
                r == Unprocessable(CategoryMessage) && logs == old(logs)
      ensures OwnedLog(old(logs), owners, userId, id) && !CategoryRejected(body) && UpdateValueRejected(body, old(logs)[id]) ==>
                r == Unprocessable(PositiveMessage) && logs == old(logs)
      ensures OwnedLog(old(logs), owners, userId, id) && !CategoryRejected(body) && !UpdateValueRejected(body, old(logs)[id]) ==>
                && logs == old(logs)[id := Merge(old(logs)[id], Whitelisted(body, EditableFields))]
                && r == Updated(logs[id])
    {
      if !OwnedLog(logs, owners, userId, id) {
        return NotFound;
      }
      var log := logs[id];
      if CategoryRejected(body) {
        return Unprocessable(CategoryMessage);
      }
      if UpdateValueRejected(body, log) {
        return Unprocessable(PositiveMessage);
      }
      var updates := BuildUpdates(body);
      var updated := Merge(log, updates);
      logs := logs[id := updated];
      r := Updated(updated);
    }

    /** `deleteLog`: 404 unless the caller owns the log; otherwise it is removed. */
    method DeleteLog(userId: string, id: nat, owners: map<string, string>) returns (r: Response)
      requires Valid()
      modifies this
      ensures Valid() && nextId == old(nextId)
      ensures !OwnedLog(old(logs), owners, userId, id) ==> r == NotFound && logs == old(logs)
      ensures OwnedLog(old(logs), owners, userId, id) ==> r == Deleted && logs == old(logs) - {id}
    {
      if !OwnedLog(logs, owners, userId, id) {
        return NotFound;
      }
      logs := logs - {id};
      r := Deleted;
    }
  }

  /** `$set: updates`: the fields of `updates` replace those of `log`; the rest stay. */
  function Merge(log: Doc, updates: Doc): (r: Doc)
    ensures r.Keys == log.Keys + updates.Keys
    ensures forall f | f in updates :: r[f] == updates[f]
    ensures forall f | f in log && f !in updates :: r[f] == log[f]
  {
    map f | f in log.Keys + updates.Keys :: if f in updates then updates[f] else log[f]
  }

  // ---------------------------------------------------------------------------------------
  // Properties of the handlers

  /** A weight or water log that `createLog` accepts has a value, and it is not zero, negative
      or `null`. */
  lemma CreatedWeightIsPositive(body: Doc)
    requires !CreateValueRejected(body) && NeedsPositive(Field(body, "category"))
    ensures "value" in body && !NonPositive(body["value"]) && body["value"] != Null
  {
  }

  /** Other categories skip the positivity check. */
  lemma OtherCategoriesUnchecked(body: Doc)
    requires !NeedsPositive(Field(body, "category"))
    ensures !CreateValueRejected(body)
  {
  }

  /** An update keeps the log's owner, so the log stays reachable by the same caller. */
  lemma UpdateKeepsOwner(log: Doc, body: Doc)
    ensures Field(Merge(log, Whitelisted(body, EditableFields)), "profileId") == Field(log, "profileId")
  {
    UpdatesKeepOwner(body);
  }

  /** An update without a value is not checked for positivity, even when it turns a log into a
      weight log: a meal log of value -5 becomes a weight log of value -5. */
  lemma UpdateSkipsStoredValue()
    ensures var log := map["profileId" := Text("p1"), "category" := Text("meal"), "value" := Number(-5.0)];
            var body := map["category" := Text("weight")];
            && !CategoryRejected(body) && !UpdateValueRejected(body, log)
            && Merge(log, Whitelisted(body, EditableFields))["category"] == Text("weight")
            && Merge(log, Whitelisted(body, EditableFields))["value"] == Number(-5.0)
  {
    var log := map["profileId" := Text("p1"), "category" := Text("meal"), "value" := Number(-5.0)];
    var body := map["category" := Text("weight")];
    assert body["category"] == Text("weight");
    assert "weight" in Categories;
    assert "value" !in body;
    assert "category" in Whitelisted(body, EditableFields);
    assert "value" !in Whitelisted(body, EditableFields);
  }

  /** A value that does not read as a number passes the positivity check (it is NaN). */
  lemma NaNValuePasses(body: Doc)
    requires "value" in body && ToNumber(body["value"]) == NaN
    ensures !CreateValueRejected(body)
  {
  }
}
