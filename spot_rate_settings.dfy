/** The spot-rate settings schema: one record per user holding four spreads, each with
    a fixed default. */
module SpotRateSettings {
  import opened Wrappers
  import opened JsText

  datatype SpreadField = GoldBid | GoldAsk | SilverBid | SilverAsk {
    /** The field's name in a record and in a request body. */
    function Key(): string {
      match this
      case GoldBid => "goldBidSpread"
      case GoldAsk => "goldAskSpread"
      case SilverBid => "silverBidSpread"
      case SilverAsk => "silverAskSpread"
    }

    /** The schema default, which is also the handler's fallback. */
    function Default(): real {
      match this
      case GoldBid => 0.0
      case GoldAsk => 0.5
      case SilverBid => 0.0
      case SilverAsk => 0.05
    }
  }

  const SpreadFields: set<SpreadField> := {GoldBid, GoldAsk, SilverBid, SilverAsk}

  lemma SpreadFieldsComplete(f: SpreadField)
    ensures f in SpreadFields
  {
  }

  /** A stored record's spreads: a field that is absent (or null) has no entry. */
  type SpreadDoc = map<SpreadField, real>

  /** The four spreads as a response shows them. */
  datatype Spreads = Spreads(goldBid: real, goldAsk: real, silverBid: real, silverAsk: real) {
    function Get(f: SpreadField): real {
      match f
      case GoldBid => goldBid
      case GoldAsk => goldAsk
      case SilverBid => silverBid
      case SilverAsk => silverAsk
    }
  }

  /** `{ goldBidSpread: 0, goldAskSpread: 0.5, silverBidSpread: 0, silverAskSpread: 0.05 }` */
  const DefaultSpreads := Spreads(0.0, 0.5, 0.0, 0.05)

  /** The record a new user's upsert starts from: every field at its default. */
  const DefaultDoc: SpreadDoc := map f | f in SpreadFields :: f.Default()

  /** `data.f ?? defaults.f` for each field: a stored value where there is one, and
      otherwise that field's default, independently of the other fields. */
  function Merged(doc: SpreadDoc): (s: Spreads)
    ensures forall f :: s.Get(f) == if f in doc then doc[f] else f.Default()
  {
    Spreads(
      if GoldBid in doc then doc[GoldBid] else GoldBid.Default(),
      if GoldAsk in doc then doc[GoldAsk] else GoldAsk.Default(),
      if SilverBid in doc then doc[SilverBid] else SilverBid.Default(),
      if SilverAsk in doc then doc[SilverAsk] else SilverAsk.Default())
  }

  /** An empty record, like a missing one, reads as exactly the defaults. */
  lemma MergedEmptyIsDefault()
    ensures Merged(map[]) == DefaultSpreads
    ensures Merged(DefaultDoc) == DefaultSpreads
  {
  }

  /** `findOneAndUpdate(.., { $set: patch }, { upsert: true })`: the patched fields take
      the new values; the others keep the record's values, or the defaults when there
      is no record yet. */
  function Upserted(existing: Option<SpreadDoc>, patch: SpreadDoc): (doc: SpreadDoc)
    ensures forall f :: f in patch ==> f in doc && doc[f] == patch[f]
    ensures existing.Some? ==> forall f :: f !in patch ==> (f in doc <==> f in existing.value)
    ensures existing.Some? ==> forall f :: f !in patch && f in existing.value ==> doc[f] == existing.value[f]
    ensures existing.None? ==> forall f :: f in doc && (f !in patch ==> doc[f] == f.Default())
  {
    forall f ensures f in DefaultDoc {
      SpreadFieldsComplete(f);
    }
    match existing
    case None => DefaultDoc + patch
    case Some(d) => d + patch
  }

  /** Applying the same patch twice leaves the record as applying it once. */
  lemma UpsertIdempotent(existing: Option<SpreadDoc>, patch: SpreadDoc)
    ensures Upserted(Some(Upserted(existing, patch)), patch) == Upserted(existing, patch)
  {
    var once := Upserted(existing, patch);
    var twice := Upserted(Some(once), patch);
    assert forall f :: f in twice <==> f in once;
    assert forall f :: f in twice ==> twice[f] == once[f];
  }

  /** The collection: one record per user id (the unique index), keyed by the id after
      the schema's `trim` setter. */
  type SettingsStore = map<string, SpreadDoc>

  predicate StoreInvariant(docs: SettingsStore) {
    forall k :: k in docs ==> IsTrimmed(k)
  }
}
