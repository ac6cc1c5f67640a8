/** The commodity schema: the metal enumeration, the required text fields, the four
    non-negative price adjustments, and the unique index on
    (adminId, metal, purity, unit). */
module CommodityModel {
  import opened Wrappers
  import opened JsText
  import opened JsValues

  /** The values the `metal` enum admits. */
  const Metals: set<string> := {"GOLD", "KILOBAR", "TTBAR", "SILVER"}

  /** The four numeric fields, each defaulting to 0 with a minimum of 0. */
  datatype PricingField = BuyPremium | SellPremium | SellCharges | BuyCharges {
    function Key(): string {
      match this
      case BuyPremium => "buyPremium"
      case SellPremium => "sellPremium"
      case SellCharges => "sellCharges"
      case BuyCharges => "buyCharges"
    }
  }

  /** The numeric fields in the order the update handler visits them. */
  const PricingFields: seq<PricingField> := [BuyPremium, SellPremium, SellCharges, BuyCharges]

  lemma PricingFieldsComplete(f: PricingField)
    ensures f in PricingFields
  {
    match f
    case BuyPremium => assert PricingFields[0] == f;
    case SellPremium => assert PricingFields[1] == f;
    case SellCharges => assert PricingFields[2] == f;
    case BuyCharges => assert PricingFields[3] == f;
  }

  /** Distinct fields have distinct body keys. */
  lemma PricingKeysDistinct(f: PricingField, g: PricingField)
    ensures f.Key() == g.Key() ==> f == g
  {
  }

  /** A partial assignment of the numeric fields, as `$set` carries it. */
  type Patch = map<PricingField, real>

  datatype Pricing = Pricing(
    buyPremium: JsNumber,
    sellPremium: JsNumber,
    sellCharges: JsNumber,
    buyCharges: JsNumber)
  {
    function Get(f: PricingField): JsNumber {
      match f
      case BuyPremium => buyPremium
      case SellPremium => sellPremium
      case SellCharges => sellCharges
      case BuyCharges => buyCharges
    }

    /** The pricing once `$set: patch` has been applied: patched fields take the new
        value, every other field keeps its own. */
    function Patched(patch: Patch): (p: Pricing)
      ensures forall f :: f in patch ==> p.Get(f) == Finite(patch[f])
      ensures forall f :: f !in patch ==> p.Get(f) == Get(f)
    {
      Pricing(
        if BuyPremium in patch then Finite(patch[BuyPremium]) else buyPremium,
        if SellPremium in patch then Finite(patch[SellPremium]) else sellPremium,
        if SellCharges in patch then Finite(patch[SellCharges]) else sellCharges,
        if BuyCharges in patch then Finite(patch[BuyCharges]) else buyCharges)
    }
  }

  /** A stored commodity. `id` stands for the document's `_id` and `createdAt` for its
      creation timestamp; both are drawn from one increasing counter. */
  datatype Commodity = Commodity(
    id: nat,
    adminId: string,
    metal: string,
    purity: string,
    unit: string,
    pricing: Pricing,
    createdAt: nat)

  /** The `min: 0` validator: the number is not below 0 (NaN never reaches the store:
      the handlers coerce it away and casting rejects it). */
  predicate AtLeastZero(n: JsNumber) {
    (n.Finite? && n.r >= 0.0) || n.PosInf?
  }

  /** The schema paths a validation error can name. */
  datatype Path = AdminId | Metal | Purity | Unit | Price(field: PricingField)

  /** The paths whose validators fail on `c`: a required string that is empty, a metal
      outside the enum, a numeric field below 0. */
  function ValidationErrors(c: Commodity): (errors: set<Path>)
    ensures AdminId in errors <==> c.adminId == ""
    ensures Metal in errors <==> c.metal !in Metals
    ensures Purity in errors <==> c.purity == ""
    ensures Unit in errors <==> c.unit == ""
    ensures forall f :: Price(f) in errors <==> !AtLeastZero(c.pricing.Get(f))
  {
    var prices := set f | f in PricingFields && !AtLeastZero(c.pricing.Get(f)) :: Price(f);
    assert forall f :: Price(f) in prices <==> !AtLeastZero(c.pricing.Get(f)) by {
      forall f ensures Price(f) in prices <==> !AtLeastZero(c.pricing.Get(f)) {
        PricingFieldsComplete(f);
      }
    }
    (if c.adminId == "" then {AdminId} else {})
    + (if c.metal !in Metals then {Metal} else {})
    + (if c.purity == "" then {Purity} else {})
    + (if c.unit == "" then {Unit} else {})
    + prices
  }

  /** What every stored record satisfies: the validators pass and the text fields are
      in the normal form their `trim` (and, for metal, `uppercase`) setters give. */
  predicate Conforms(c: Commodity) {
    && c.adminId != "" && IsTrimmed(c.adminId)
    && c.metal in Metals
    && c.purity != "" && IsTrimmed(c.purity)
    && c.unit != "" && IsTrimmed(c.unit)
    && forall f :: AtLeastZero(c.pricing.Get(f))
  }

  /** A record in normal form passes validation exactly when it conforms. */
  lemma ValidExactlyWhenConforming(c: Commodity)
    requires IsTrimmed(c.adminId) && IsTrimmed(c.purity) && IsTrimmed(c.unit)
    ensures ValidationErrors(c) == {} <==> Conforms(c)
  {
    if ValidationErrors(c) == {} {
      forall f ensures AtLeastZero(c.pricing.Get(f)) {
        assert Price(f) !in ValidationErrors(c);
      }
    }
  }

  /** The unique index's key. */
  function Key(c: Commodity): (string, string, string, string) {
    (c.adminId, c.metal, c.purity, c.unit)
  }

  /** The index of the record with key `k`, if there is one. */
  function FindKey(records: seq<Commodity>, k: (string, string, string, string)): (i: Option<nat>)
    ensures i.Some? ==> i.value < |records| && Key(records[i.value]) == k
    ensures i.Some? ==> forall j :: 0 <= j < i.value ==> Key(records[j]) != k
    ensures i.None? <==> forall r :: r in records ==> Key(r) != k
  {
    if records == [] then None
    else if Key(records[0]) == k then Some(0)
    else match FindKey(records[1..], k)
      case None => None
      case Some(j) => Some(j + 1)
  }

  /** The index of the record with `_id == id` and `adminId == owner`, if there is one. */
  function FindOwned(records: seq<Commodity>, owner: string, id: nat): (i: Option<nat>)
    ensures i.Some? ==> i.value < |records| && records[i.value].id == id && records[i.value].adminId == owner
    ensures i.Some? ==> forall j :: 0 <= j < i.value ==> records[j].id != id || records[j].adminId != owner
    ensures i.None? <==> forall r :: r in records ==> r.id != id || r.adminId != owner
  {
    if records == [] then None
    else if records[0].id == id && records[0].adminId == owner then Some(0)
    else match FindOwned(records[1..], owner, id)
      case None => None
      case Some(j) => Some(j + 1)
  }

  /** No two records share the unique index's key. */
  predicate KeysUnique(records: seq<Commodity>) {
    forall i, j :: 0 <= i < j < |records| ==> Key(records[i]) != Key(records[j])
  }

  /** Ids and creation times strictly increase along the sequence and stay below the
      counter the next record takes its id and timestamp from. */
  predicate Chronological(records: seq<Commodity>, clock: nat) {
    && (forall i, j :: 0 <= i < j < |records| ==>
          records[i].id < records[j].id && records[i].createdAt < records[j].createdAt)
    && (forall i :: 0 <= i < |records| ==> records[i].id < clock && records[i].createdAt < clock)
  }

  /** The collection's invariant, for records kept in insertion order: every record
      conforms to the schema, keys are unique, and the records are chronological. */
  predicate StoreInvariant(records: seq<Commodity>, clock: nat) {
    && (forall i :: 0 <= i < |records| ==> Conforms(records[i]))
    && KeysUnique(records)
    && Chronological(records, clock)
  }

  /** A key no conforming record can have (empty text, a metal outside the enum) is
      never found in a store that keeps the invariant. */
  lemma NonconformingKeyAbsent(records: seq<Commodity>, clock: nat, k: (string, string, string, string))
    requires StoreInvariant(records, clock)
    requires k.0 == "" || k.1 !in Metals || k.2 == "" || k.3 == ""
    ensures FindKey(records, k).None?
  {
    forall i | 0 <= i < |records| ensures Key(records[i]) != k {
      assert Conforms(records[i]);
    }
  }

  /** Ids are unique in a store that keeps the invariant. */
  lemma IdsUnique(records: seq<Commodity>, clock: nat, i: nat, j: nat)
    requires Chronological(records, clock)
    requires i < |records| && j < |records| && records[i].id == records[j].id
    ensures i == j
  {
  }

  /** In a valid store a record is found by its key exactly where it sits. */
  lemma FindKeyOfStored(records: seq<Commodity>, i: nat)
    requires KeysUnique(records) && i < |records|
    ensures FindKey(records, Key(records[i])) == Some(i)
  {
    assert records[i] in records;
    assert forall j :: 0 <= j < i ==> Key(records[j]) != Key(records[i]);
  }

  /** Appending a conforming record with a fresh key, stamped with the counter, keeps
      the invariant once the counter advances. */
  lemma AppendKeepsInvariant(records: seq<Commodity>, clock: nat, c: Commodity)
    requires StoreInvariant(records, clock) && Conforms(c)
    requires forall r :: r in records ==> Key(r) != Key(c)
    requires c.id == clock && c.createdAt == clock
    ensures StoreInvariant(records + [c], clock + 1)
  {
    var s := records + [c];
    forall i | 0 <= i < |s| ensures Conforms(s[i]) {
      if i < |records| { assert s[i] == records[i]; }
    }
    AppendKeepsKeysUnique(records, c);
    AppendKeepsChronological(records, clock, c);
  }

  lemma AppendKeepsKeysUnique(records: seq<Commodity>, c: Commodity)
    requires KeysUnique(records)
    requires forall r :: r in records ==> Key(r) != Key(c)
    ensures KeysUnique(records + [c])
  {
    var s := records + [c];
    forall i, j | 0 <= i < j < |s| ensures Key(s[i]) != Key(s[j]) {
      assert s[i] == records[i];
      if j == |records| {
        assert records[i] in records;
      } else {
        assert s[j] == records[j];
      }
    }
  }

  lemma AppendKeepsChronological(records: seq<Commodity>, clock: nat, c: Commodity)
    requires Chronological(records, clock)
    requires c.id == clock && c.createdAt == clock
    ensures Chronological(records + [c], clock + 1)
  {
    var s := records + [c];
    assert forall i :: 0 <= i < |records| ==> s[i] == records[i];
  }

  /** Replacing a record by a conforming one with the same key, id and timestamp keeps
      the invariant. */
  lemma ReplaceKeepsInvariant(records: seq<Commodity>, clock: nat, i: nat, c: Commodity)
    requires StoreInvariant(records, clock) && i < |records| && Conforms(c)
    requires Key(c) == Key(records[i]) && c.id == records[i].id && c.createdAt == records[i].createdAt
    ensures StoreInvariant(records[i := c], clock)
  {
    var s := records[i := c];
    forall j | 0 <= j < |s| ensures Conforms(s[j]) {
      if j != i { assert s[j] == records[j]; }
    }
    forall j, k | 0 <= j < k < |s|
      ensures Key(s[j]) != Key(s[k])
      ensures s[j].id < s[k].id && s[j].createdAt < s[k].createdAt
    {
      assert Key(s[j]) == Key(records[j]) && Key(s[k]) == Key(records[k]);
      assert s[j].id == records[j].id && s[k].id == records[k].id;
      assert s[j].createdAt == records[j].createdAt && s[k].createdAt == records[k].createdAt;
    }
    forall j | 0 <= j < |s| ensures s[j].id < clock && s[j].createdAt < clock {
      assert s[j].id == records[j].id && s[j].createdAt == records[j].createdAt;
    }
  }

  /** Removing a record keeps the invariant. */
  lemma RemoveKeepsInvariant(records: seq<Commodity>, clock: nat, i: nat)
    requires StoreInvariant(records, clock) && i < |records|
    ensures StoreInvariant(records[..i] + records[i + 1..], clock)
  {
    var s := records[..i] + records[i + 1..];
    assert forall j :: 0 <= j < |s| ==> s[j] == records[if j < i then j else j + 1];
  }

  /** Removing the record at `i` leaves exactly the records with a different id. */
  lemma RemoveAtMembers(records: seq<Commodity>, clock: nat, i: nat)
    requires Chronological(records, clock) && i < |records|
    ensures forall r :: r in records[..i] + records[i + 1..] <==> r in records && r.id != records[i].id
  {
    var rest := records[..i] + records[i + 1..];
    assert forall j :: 0 <= j < |rest| ==> rest[j] == records[if j < i then j else j + 1];
    forall r | r in records && r.id != records[i].id ensures r in rest {
      var k :| 0 <= k < |records| && records[k] == r;
      assert rest[if k < i then k else k - 1] == r;
    }
  }

  /** The schema's setters (trim, upper-case) leave already normalised text as it is. */
  lemma SettersKeepNormalised(metal: string, purity: string, unit: string)
    ensures Trim(ToUpper(ToUpper(Trim(metal)))) == ToUpper(Trim(metal))
    ensures Trim(Trim(purity)) == Trim(purity) && Trim(Trim(unit)) == Trim(unit)
  {
    UpperKeepsTrimmed(metal);
    TrimIdempotent(purity);
    TrimIdempotent(unit);
  }
}
