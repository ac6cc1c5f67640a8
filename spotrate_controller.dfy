/** The two spot-rate handlers: read the caller's spreads with defaults filled in, and
    partially upsert them from the number-typed fields of a body. */
module SpotRateController {
  import opened Wrappers
  import opened JsText
  import opened JsValues
  import opened AuthGate
  import opened SpotRateSettings

  datatype SpotResponse = SpotUnauthorized | Settings(data: Spreads) {
    function Status(): int {
      if SpotUnauthorized? then 401 else 200
    }

    function Message(): string {
      if SpotUnauthorized? then "Unauthorized" else ""
    }
  }

  /** `getSpotRateSettings`: reads the collection and never writes it. */
  function GetSettings(docs: SettingsStore, user: Option<Claims>): SpotResponse {
    match OwnerKey(user)
    case None => SpotUnauthorized
    case Some(key) => Settings(Merged(if key in docs then docs[key] else map[]))
  }

  /** Without a record the caller reads exactly `{0, 0.5, 0, 0.05}`; with one, each field
      is the stored value or, when that field is absent, its own default. */
  lemma GetSettingsFallback(docs: SettingsStore, user: Option<Claims>)
    requires OwnerKey(user).Some?
    ensures OwnerKey(user).value !in docs ==> GetSettings(docs, user) == Settings(DefaultSpreads)
    ensures var key := OwnerKey(user).value;
      key in docs ==>
        forall f :: GetSettings(docs, user).data.Get(f) == if f in docs[key] then docs[key][f] else f.Default()
  {
    MergedEmptyIsDefault();
  }

  /** The `update` record: the fields whose body value is of type number, unchanged. */
  function NumberFields(body: JsObject): SpreadDoc {
    map f | f in SpreadFields && Lookup(body, f.Key()).Num? :: Lookup(body, f.Key()).n
  }

  /** Only number-typed fields enter the update, each with its own value; a string or
      boolean is dropped, not coerced. */
  lemma NumberFieldsOnly(body: JsObject, f: SpreadField)
    ensures f in NumberFields(body) <==> Lookup(body, f.Key()).Num?
    ensures f in NumberFields(body) ==> NumberFields(body)[f] == Lookup(body, f.Key()).n
  {
    SpreadFieldsComplete(f);
  }

  /** The four `if (typeof x === "number")` assignments. */
  method BuildSpreadUpdate(body: JsObject) returns (update: SpreadDoc)
    ensures update == NumberFields(body)
  {
    update := map[];
    var goldBid := Lookup(body, "goldBidSpread");
    var goldAsk := Lookup(body, "goldAskSpread");
    var silverBid := Lookup(body, "silverBidSpread");
    var silverAsk := Lookup(body, "silverAskSpread");
    if goldBid.Num? { update := update[GoldBid := goldBid.n]; }
    if goldAsk.Num? { update := update[GoldAsk := goldAsk.n]; }
    if silverBid.Num? { update := update[SilverBid := silverBid.n]; }
    if silverAsk.Num? { update := update[SilverAsk := silverAsk.n]; }
    forall f ensures (f in update <==> f in NumberFields(body))
      && (f in update ==> update[f] == NumberFields(body)[f])
    {
      NumberFieldsOnly(body, f);
    }
  }

  /** `updateSpotRateSettings`: upsert the caller's record with the number fields and
      answer with the record as it now reads. */
  function UpdateSettingsStep(docs: SettingsStore, user: Option<Claims>, body: JsObject)
    : Step<SpotResponse, SettingsStore>
  {
    match OwnerKey(user)
    case None => Step(SpotUnauthorized, docs)
    case Some(key) =>
      var doc := Upserted(if key in docs then Some(docs[key]) else None, NumberFields(body));
      Step(Settings(Merged(doc)), docs[key := doc])
  }

  /** No id: both handlers answer 401 and nothing changes. */
  lemma UnauthorizedTouchesNothing(docs: SettingsStore, user: Option<Claims>, body: JsObject)
    requires OwnerKey(user).None?
    ensures GetSettings(docs, user) == SpotUnauthorized
    ensures UpdateSettingsStep(docs, user, body) == Step(SpotUnauthorized, docs)
  {
  }

  /** The update writes only the caller's record: the number fields of the body take
      their values, every other field keeps its prior value (or its default for a new
      record), and every other user's record is unchanged. */
  lemma UpdateSettingsOutcome(docs: SettingsStore, user: Option<Claims>, body: JsObject)
    requires OwnerKey(user).Some?
    ensures var s := UpdateSettingsStep(docs, user, body);
      var key := OwnerKey(user).value;
      && key in s.state
      && forall k :: k != key ==> (k in s.state <==> k in docs) && (k in docs ==> s.state[k] == docs[k])
    ensures var s := UpdateSettingsStep(docs, user, body);
      var key := OwnerKey(user).value;
      key in s.state && var doc := s.state[key];
      forall f: SpreadField ::
        && (Lookup(body, f.Key()).Num? ==> f in doc && doc[f] == Lookup(body, f.Key()).n)
        && (!Lookup(body, f.Key()).Num? && key in docs ==>
              (f in doc <==> f in docs[key]) && (f in docs[key] ==> doc[f] == docs[key][f]))
        && (!Lookup(body, f.Key()).Num? && key !in docs ==> f in doc && doc[f] == f.Default())
  {
    var key := OwnerKey(user).value;
    var existing := if key in docs then Some(docs[key]) else None;
    var doc := Upserted(existing, NumberFields(body));
    assert UpdateSettingsStep(docs, user, body).state == docs[key := doc];
    forall f {
      NumberFieldsOnly(body, f);
    }
  }

  /** The update answers with what a read right after it returns. */
  lemma UpdateThenGet(docs: SettingsStore, user: Option<Claims>, body: JsObject)
    ensures var s := UpdateSettingsStep(docs, user, body);
      GetSettings(s.state, user) == s.response
  {
  }

  /** Sending the same update twice leaves the collection as sending it once. */
  lemma UpdateSettingsIdempotent(docs: SettingsStore, user: Option<Claims>, body: JsObject)
    ensures var once := UpdateSettingsStep(docs, user, body);
      UpdateSettingsStep(once.state, user, body) == once
  {
    if OwnerKey(user).Some? {
      var key := OwnerKey(user).value;
      var prior := if key in docs then Some(docs[key]) else None;
      var doc := Upserted(prior, NumberFields(body));
      UpsertIdempotent(prior, NumberFields(body));
      var state := docs[key := doc];
      assert UpdateSettingsStep(docs, user, body) == Step(Settings(Merged(doc)), state);
      assert key in state && state[key] == doc;
      assert state[key := doc] == state;
    }
  }

  /** The update keeps the collection's keys trimmed. */
  lemma UpdateSettingsKeepsInvariant(docs: SettingsStore, user: Option<Claims>, body: JsObject)
    requires StoreInvariant(docs)
    ensures StoreInvariant(UpdateSettingsStep(docs, user, body).state)
  {
  }

  /** The settings collection. Reads go through `GetSettings`. */
  class SpotRateStore {
    var docs: SettingsStore

    ghost predicate Valid()
      reads this
    {
      StoreInvariant(docs)
    }

    constructor ()
      ensures Valid() && docs == map[]
    {
      docs := map[];
    }

    method UpdateSettings(user: Option<Claims>, body: JsObject) returns (resp: SpotResponse)
      requires Valid()
      modifies this
      ensures Valid()
      ensures Step(resp, docs) == UpdateSettingsStep(old(docs), user, body)
    {
      var key := OwnerKey(user);
      if key.None? {
        return SpotUnauthorized;
      }
      var update := BuildSpreadUpdate(body);
      var existing := if key.value in docs then Some(docs[key.value]) else None;
      var doc := Upserted(existing, update);
      docs := docs[key.value := doc];
      resp := Settings(Merged(doc));
    }
  }
}
