/** `getRecommendations` after the Qloo request: the type check, the clamped
    limit, the choice between payload shapes, truncation and per-item defaults.
    The HTTP exchange is an oracle from the request to its outcome, and the
    random ids `Math.random` would make come from a supply indexed by position. */
module Recommendations {
  import opened Wrappers
  import opened Json
  import opened Placeholder

  /** The entity types the Qloo request accepts. */
  const SupportedTypes: seq<string> :=
    ["movie", "tv_show", "book", "brand", "person", "podcast", "artist", "destination", "place"]

  /** `getDefaultEntityTypes()`: the types the conversation asks for. */
  const DefaultEntityTypes: seq<string> := ["movie", "tv_show", "book", "brand", "person"]

  /** The cap on items per type. */
  const MaxTake := 5

  /** The limit `getRecommendations` uses when none is given. */
  const DefaultLimit := 3

  lemma DefaultTypesSupported()
    ensures |DefaultEntityTypes| == 5
    ensures forall i :: 0 <= i < |DefaultEntityTypes| ==> DefaultEntityTypes[i] in SupportedTypes
    ensures forall i, j :: 0 <= i < j < |DefaultEntityTypes| ==> DefaultEntityTypes[i] != DefaultEntityTypes[j]
  {
  }

  /** The one request the function can make: its entity type and `take`. */
  datatype Request = Request(entityType: string, take: int)

  /** What `fetch` and `response.json()` produce. */
  datatype FetchOutcome =
    | NetworkFailure                          // `fetch` rejects
    | Response(status: int, body: Option<Value>)  // `body` is `None` when `response.json()` rejects

  /** `response.ok`. */
  predicate IsOk(status: int) {
    200 <= status <= 299
  }

  /** The console channel an outcome is reported on. */
  datatype Log = Quiet | Warn | Error

  /** The returned array, the request made (if any) and how the outcome was logged. */
  datatype Recs = Recs(items: seq<Value>, request: Option<Request>, log: Log)

  /** `Math.min(limit, 5)`. */
  function SafeLimit(limit: int): (r: int)
    ensures r <= MaxTake
    ensures r == limit || r == MaxTake
    ensures limit >= MaxTake ==> r == MaxTake
  {
    if limit < MaxTake then limit else MaxTake
  }

  /** The end index `slice(0, end)` stops at: a negative end counts back from the length. */
  function SliceEnd(length: nat, end: int): (r: nat)
    ensures r <= length
    ensures end >= 0 ==> r == if end < length then end else length
    ensures end < 0 ==> r + (if -end < length then -end else length) == length
  {
    if end < 0 then (if length + end < 0 then 0 else length + end)
    else if end < length then end
    else length
  }

  /** `data.results.entities` when `data.success` is truthy and it is an array. */
  function SuccessEntities(data: Value): Option<seq<Value>> {
    if TruthyOpt(Field(data, "success")) && Field(data, "results").Some?
       && IsArrayOpt(Field(Field(data, "results").value, "entities"))
    then Some(Field(Field(data, "results").value, "entities").value.items)
    else None
  }

  /** `data` itself when it is an array. */
  function TopLevelArray(data: Value): Option<seq<Value>> {
    if data.Arr? then Some(data.items) else None
  }

  /** `data.data` when it is an array. */
  function DataArray(data: Value): Option<seq<Value>> {
    if IsArrayOpt(Field(data, "data")) then Some(Field(data, "data").value.items) else None
  }

  /** The first present entry, or `[]` when none is. */
  function FirstPresent(candidates: seq<Option<seq<Value>>>): seq<Value> {
    if |candidates| == 0 then []
    else if candidates[0].Some? then candidates[0].value
    else FirstPresent(candidates[1..])
  }

  /** The items array taken from the parsed body. */
  function SelectPayload(data: Value): (r: seq<Value>)
    ensures r != [] ==> SuccessEntities(data) == Some(r) || TopLevelArray(data) == Some(r) || DataArray(data) == Some(r)
  {
    if SuccessEntities(data).Some? then SuccessEntities(data).value
    else if data.Arr? then data.items
    else if DataArray(data).Some? then DataArray(data).value
    else []
  }

  /** The shapes are tried in priority order: the first one present wins. */
  lemma {:induction false} PayloadPriority(data: Value)
    ensures SelectPayload(data) == FirstPresent([SuccessEntities(data), TopLevelArray(data), DataArray(data)])
  {
    var candidates := [SuccessEntities(data), TopLevelArray(data), DataArray(data)];
    assert candidates[1..] == [TopLevelArray(data), DataArray(data)];
    assert candidates[1..][1..] == [DataArray(data)];
    assert candidates[1..][1..][1..] == [];
    assert FirstPresent(candidates[1..][1..][1..]) == [];
    assert FirstPresent(candidates[1..][1..]) == DataArray(data).GetOr([]);
  }

  /** An array body is never read as one of the object shapes, however it is
      populated: arrays carry no named properties. */
  lemma ArrayBodyTakenWhole(items: seq<Value>)
    ensures SelectPayload(Arr(items)) == items
  {
  }

  /** The `TypeError` for `null.id`. */
  const NullItemMessage := "Cannot read properties of null (reading 'id')"

  /** A property the item holds with a truthy value (`item.key || ...`). */
  function TruthyField(item: Value, key: string): Option<Value> {
    if TruthyOpt(Field(item, key)) then Field(item, key) else None
  }

  /** The computed defaults, before the spread. */
  function Defaults(item: Value, entityType: string, freshId: string): (r: Result<map<string, Value>, string>)
    ensures r.Err? <==> TruthyField(item, "image_url").None? && FallbackImage(entityType, Field(item, "name")).Err?
    ensures r.Ok? ==> r.value.Keys == {"id", "name", "type", "image", "description"}
    ensures r.Ok? ==> r.value["type"] == Str(entityType)
    ensures r.Ok? ==> r.value["id"] == TruthyField(item, "id").GetOr(Str(freshId))
    ensures r.Ok? ==> r.value["name"] == TruthyField(item, "name").GetOr(Str("Untitled " + entityType))
    ensures r.Ok? ==> r.value["description"] == TruthyField(item, "description").GetOr(Str(""))
    ensures r.Ok? && TruthyField(item, "image_url").Some? ==> r.value["image"] == TruthyField(item, "image_url").value
    ensures r.Ok? && TruthyField(item, "image_url").None? ==> r.value["image"] == Str(FallbackImage(entityType, Field(item, "name")).value)
  {
    var image :=
      if TruthyField(item, "image_url").Some? then Ok(TruthyField(item, "image_url").value)
      else match FallbackImage(entityType, Field(item, "name"))
        case Ok(url) => Ok(Str(url))
        case Err(e) => Err(e);
    match image
    case Err(e) => Err(e)
    case Ok(img) =>
      Ok(map[
        "id" := TruthyField(item, "id").GetOr(Str(freshId)),
        "name" := TruthyField(item, "name").GetOr(Str("Untitled " + entityType)),
        "type" := Str(entityType),
        "image" := img,
        "description" := TruthyField(item, "description").GetOr(Str(""))])
  }

  /** The object literal built for one item: the defaults, then `...item`. */
  function NormalizeItem(item: Value, entityType: string, freshId: string): (r: Result<Value, string>)
    ensures item.Null? ==> r == Err(NullItemMessage)
    ensures r.Ok? <==> !item.Null? && Defaults(item, entityType, freshId).Ok?
    ensures r.Ok? ==> r.value.Obj? && (forall k :: k in OwnProps(item) ==> k in r.value.fields && r.value.fields[k] == OwnProps(item)[k])
    ensures r.Ok? ==> forall k :: k in Defaults(item, entityType, freshId).value && k !in OwnProps(item) ==>
                        k in r.value.fields && r.value.fields[k] == Defaults(item, entityType, freshId).value[k]
    ensures r.Ok? ==> r.value.fields.Keys == {"id", "name", "type", "image", "description"} + OwnProps(item).Keys
  {
    if item.Null? then Err(NullItemMessage)
    else
      match Defaults(item, entityType, freshId)
      case Err(e) => Err(e)
      case Ok(d) => Ok(Obj(d + OwnProps(item)))
  }

  /** `items.map(...)`, item `k` drawing `ids[k]` should it need a random id; the
      first throw aborts the whole map. */
  function NormalizeItems(items: seq<Value>, entityType: string, ids: seq<string>): (r: Result<seq<Value>, string>)
    requires |ids| == |items|
    ensures r.Ok? ==> |r.value| == |items|
    ensures r.Ok? ==> forall k :: 0 <= k < |items| ==> NormalizeItem(items[k], entityType, ids[k]) == Ok(r.value[k])
    ensures r.Err? ==> exists k :: 0 <= k < |items| && NormalizeItem(items[k], entityType, ids[k]).Err?
  {
    var f := Normalizer(entityType);
    assert forall k :: 0 <= k < |items| ==> f(items[k], ids[k]) == NormalizeItem(items[k], entityType, ids[k]);
    MapOrThrow(items, ids, f)
  }

  function Normalizer(entityType: string): (Value, string) -> Result<Value, string> {
    (item: Value, id: string) => NormalizeItem(item, entityType, id)
  }

  /** `items.map(f)` where `f` may throw: the first throw ends the map. */
  function MapOrThrow(items: seq<Value>, ids: seq<string>, f: (Value, string) -> Result<Value, string>): (r: Result<seq<Value>, string>)
    requires |ids| == |items|
    ensures r.Ok? ==> |r.value| == |items|
    ensures r.Ok? ==> forall k :: 0 <= k < |items| ==> f(items[k], ids[k]) == Ok(r.value[k])
    ensures r.Err? ==> exists k :: 0 <= k < |items| && f(items[k], ids[k]).Err?
  {
    if |items| == 0 then Ok([])
    else
      var head := f(items[0], ids[0]);
      var tail := MapOrThrow(items[1..], ids[1..], f);
      if head.Err? then Err(head.error)
      else if tail.Err? then
        ghost var k :| 0 <= k < |items[1..]| && f(items[1..][k], ids[1..][k]).Err?;
        assert items[k + 1] == items[1..][k] && ids[k + 1] == ids[1..][k];
        Err(tail.error)
      else
        Ok([head.value] + tail.value)
  }

  /** `getRecommendations(entityType, limit)`, given the outcome of the request it
      would make. */
  function GetRecommendations(entityType: string, limit: int, qloo: Request -> FetchOutcome, freshId: nat -> string): (r: Recs)
    ensures r.request.None? <==> entityType !in SupportedTypes
    ensures r.request.Some? ==> r.request.value == Request(entityType, SafeLimit(limit))
    ensures limit >= 0 ==> |r.items| <= SafeLimit(limit)
    ensures |r.items| > 0 ==> r.log == Quiet
    ensures forall k :: 0 <= k < |r.items| ==> r.items[k].Obj? && r.items[k].fields.Keys >= {"id", "name", "type", "image", "description"}
  {
    if entityType !in SupportedTypes then Recs([], None, Warn)
    else
      var take := SafeLimit(limit);
      var request := Request(entityType, take);
      match qloo(request)
      case NetworkFailure => Recs([], Some(request), Error)
      case Response(status, body) =>
        if !IsOk(status) then Recs([], Some(request), if status == 403 then Warn else Error)
        else
          match body
          case None => Recs([], Some(request), Error)
          case Some(data) =>
            var chosen := SelectPayload(data);
            var kept := chosen[..SliceEnd(|chosen|, take)];
            match NormalizeItems(kept, entityType, seq(|kept|, (k: int) requires 0 <= k => freshId(k)))
            case Err(_) => Recs([], Some(request), Error)
            case Ok(items) => Recs(items, Some(request), Quiet)
  }

  /** An unsupported type is answered with `[]`, without a request. */
  lemma UnsupportedMakesNoRequest(entityType: string, limit: int, qloo: Request -> FetchOutcome, freshId: nat -> string)
    requires entityType !in SupportedTypes
    ensures GetRecommendations(entityType, limit, qloo, freshId) == Recs([], None, Warn)
  {
  }

  /** A non-ok status gives `[]`; 403 is only a warning, every other status an error. */
  lemma NonOkIsEmpty(entityType: string, limit: int, qloo: Request -> FetchOutcome, freshId: nat -> string)
    requires entityType in SupportedTypes
    requires qloo(Request(entityType, SafeLimit(limit))).Response?
    requires !IsOk(qloo(Request(entityType, SafeLimit(limit))).status)
    ensures GetRecommendations(entityType, limit, qloo, freshId).items == []
    ensures GetRecommendations(entityType, limit, qloo, freshId).log == Warn
            <==> qloo(Request(entityType, SafeLimit(limit))).status == 403
  {
  }

  /** Every failure after the request — network, unreadable body, a null item or
      a name the placeholder cannot take — yields `[]` reported as an error. */
  lemma FailuresAreEmpty(entityType: string, limit: int, qloo: Request -> FetchOutcome, freshId: nat -> string)
    requires entityType in SupportedTypes
    ensures GetRecommendations(entityType, limit, qloo, freshId).log == Error ==>
            GetRecommendations(entityType, limit, qloo, freshId).items == []
    ensures qloo(Request(entityType, SafeLimit(limit))) == NetworkFailure ==>
            GetRecommendations(entityType, limit, qloo, freshId) == Recs([], Some(Request(entityType, SafeLimit(limit))), Error)
  {
  }

  /** Limits of five and above all behave as five. */
  lemma LimitClamped(entityType: string, limit: int, qloo: Request -> FetchOutcome, freshId: nat -> string)
    requires limit >= MaxTake
    ensures GetRecommendations(entityType, limit, qloo, freshId) == GetRecommendations(entityType, MaxTake, qloo, freshId)
  {
  }

  /** On success the result is the payload's prefix, item by item, in order:
      item `k` is the normalisation of payload item `k`. */
  lemma OrderKept(entityType: string, limit: int, qloo: Request -> FetchOutcome, freshId: nat -> string)
    requires entityType in SupportedTypes
    requires GetRecommendations(entityType, limit, qloo, freshId).log == Quiet
    ensures var request := Request(entityType, SafeLimit(limit));
            var payload := SelectPayload(qloo(request).body.value);
            var items := GetRecommendations(entityType, limit, qloo, freshId).items;
            && qloo(request).Response? && IsOk(qloo(request).status) && qloo(request).body.Some?
            && |items| == SliceEnd(|payload|, SafeLimit(limit))
            && forall k :: 0 <= k < |items| ==> NormalizeItem(payload[k], entityType, freshId(k)) == Ok(items[k])
  {
  }

  /** A negative limit is not capped: `slice(0, -n)` drops the last n items and
      keeps all the others, however many there are. */
  lemma NegativeLimitKeepsAllButLast(entityType: string, qloo: Request -> FetchOutcome, freshId: nat -> string, items: seq<Value>)
    requires entityType in SupportedTypes
    requires qloo(Request(entityType, -1)) == Response(200, Some(Arr(items)))
    requires forall k :: 0 <= k < |items| ==> items[k].Obj? && "image_url" in items[k].fields && items[k].fields["image_url"] == Str("x")
    ensures |items| > 0 ==> |GetRecommendations(entityType, -1, qloo, freshId).items| == |items| - 1
  {
    var kept := items[..SliceEnd(|items|, -1)];
    forall k | 0 <= k < |kept| ensures NormalizeItem(kept[k], entityType, freshId(k)).Ok? {
      assert kept[k] == items[k];
    }
  }

  /** Keys the source item carries win over the computed ones; keys it lacks
      keep the computed default. */
  lemma SpreadOverrides(item: Value, entityType: string, freshId: string)
    requires NormalizeItem(item, entityType, freshId).Ok?
    ensures var fields := NormalizeItem(item, entityType, freshId).value.fields;
            && (forall k :: k in OwnProps(item) ==> fields[k] == OwnProps(item)[k])
            && (forall k :: k in Defaults(item, entityType, freshId).value && k !in OwnProps(item) ==>
                  fields[k] == Defaults(item, entityType, freshId).value[k])
            && ("type" !in OwnProps(item) ==> fields["type"] == Str(entityType))
            && (item.Obj? && "type" in item.fields ==> fields["type"] == item.fields["type"])
  {
  }

  /** A single null item makes the whole call answer `[]`. */
  lemma NullItemEmptiesResult(entityType: string, qloo: Request -> FetchOutcome, freshId: nat -> string, items: seq<Value>)
    requires entityType in SupportedTypes
    requires qloo(Request(entityType, DefaultLimit)) == Response(200, Some(Arr(items)))
    requires 0 < |items| && items[0] == Null
    ensures GetRecommendations(entityType, DefaultLimit, qloo, freshId).items == []
  {
    var kept := items[..SliceEnd(|items|, DefaultLimit)];
    assert kept[0] == Null;
  }
}
