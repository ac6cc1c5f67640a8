/** The commodity handlers, each scoped to the caller: list, create, update (a PATCH of
    the four numeric fields) and delete, over a collection kept in insertion order. */
module CommodityController {
  import opened Wrappers
  import opened JsText
  import opened JsValues
  import opened AuthGate
  import opened CommodityModel

  /** A record as the handlers answer with it: neither owner nor timestamp. */
  datatype View = View(id: nat, metal: string, purity: string, unit: string, pricing: Pricing)

  function ViewOf(c: Commodity): View {
    View(c.id, c.metal, c.purity, c.unit, c.pricing)
  }

  function Views(records: seq<Commodity>): (views: seq<View>)
    ensures |views| == |records|
    ensures forall i :: 0 <= i < |records| ==> views[i] == ViewOf(records[i])
  {
    seq(|records|, i requires 0 <= i < |records| => ViewOf(records[i]))
  }

  /** The collection, and the counter that stamps the next record. */
  datatype Table = Table(records: seq<Commodity>, clock: nat)

  // ---------------------------------------------------------------- list

  /** `find({ adminId: owner }).sort({ createdAt: -1 })` over records kept in insertion
      order: the owner's records, last inserted first. */
  function NewestFirst(records: seq<Commodity>, owner: string): seq<Commodity> {
    if records == [] then []
    else
      var last := records[|records| - 1];
      var earlier := NewestFirst(records[..|records| - 1], owner);
      if last.adminId == owner then [last] + earlier else earlier
  }

  /** The list holds exactly the owner's records. */
  lemma {:induction false} NewestFirstHoldsOwned(records: seq<Commodity>, owner: string)
    ensures forall r :: r in NewestFirst(records, owner) <==> r in records && r.adminId == owner
  {
    if records != [] {
      var init := records[..|records| - 1];
      NewestFirstHoldsOwned(init, owner);
      assert records == init + [records[|records| - 1]];
    }
  }

  /** Strictly decreasing creation times: newest first, and no record twice. */
  predicate NewestFirstOrder(l: seq<Commodity>) {
    forall i, j :: 0 <= i < j < |l| ==> l[i].createdAt > l[j].createdAt
  }

  /** In a chronological collection the list is ordered newest first. */
  lemma {:induction false} NewestFirstOrdered(records: seq<Commodity>, clock: nat, owner: string)
    requires Chronological(records, clock)
    ensures NewestFirstOrder(NewestFirst(records, owner))
  {
    if records != [] {
      var init := records[..|records| - 1];
      var last := records[|records| - 1];
      assert forall i :: 0 <= i < |init| ==> init[i] == records[i];
      assert Chronological(init, clock);
      NewestFirstOrdered(init, clock, owner);
      if last.adminId == owner {
        NewestFirstHoldsOwned(init, owner);
        var earlier := NewestFirst(init, owner);
        var l := [last] + earlier;
        forall j | 0 <= j < |earlier| ensures earlier[j].createdAt < last.createdAt {
          assert earlier[j] in init;
          var k :| 0 <= k < |init| && init[k] == earlier[j];
          assert records[k] == earlier[j];
        }
        forall i, j | 0 <= i < j < |l| ensures l[i].createdAt > l[j].createdAt {
          assert l[j] == earlier[j - 1];
          if i == 0 {
            assert l[i] == last;
          } else {
            assert l[i] == earlier[i - 1];
          }
        }
      }
    }
  }

  datatype ListResponse = ListFailed | Listed(items: seq<View>) {
    function Status(): int {
      if ListFailed? then 500 else 200
    }

    function Message(): string {
      if ListFailed? then "Failed to fetch commodities" else ""
    }
  }

  /** `listCommodities`: reads the collection and changes nothing. */
  function List(records: seq<Commodity>, user: Option<Claims>): ListResponse {
    match OwnerKey(user)
    case None => ListFailed
    case Some(owner) => Listed(Views(NewestFirst(records, owner)))
  }

  /** A caller sees exactly the views of their own records, newest first, and no caller
      without an identity sees anything. */
  lemma ListIsOwnNewestFirst(records: seq<Commodity>, clock: nat, user: Option<Claims>)
    requires Chronological(records, clock)
    ensures List(records, user).ListFailed? <==> OwnerKey(user).None?
    ensures List(records, user).Listed? ==>
      var mine := NewestFirst(records, OwnerKey(user).value);
      && List(records, user).items == Views(mine)
      && (forall r :: r in mine <==> r in records && r.adminId == OwnerKey(user).value)
      && NewestFirstOrder(mine)
  {
    if OwnerKey(user).Some? {
      NewestFirstHoldsOwned(records, OwnerKey(user).value);
      NewestFirstOrdered(records, clock, OwnerKey(user).value);
    }
  }

  // ---------------------------------------------------------------- create

  /** How the database may fail an insert that passed validation: a unique-index
      violation (code 11000, from a concurrent insert) or any other error. */
  datatype StoreFault = NoFault | DuplicateKey | Unavailable

  datatype CreateResponse =
    | CreateFailed
    | FieldsRequired
    | AlreadyExists
    | Rejected(errors: set<Path>)
    | DuplicateConflict
    | Created(view: View)
  {
    function Status(): int {
      match this
      case CreateFailed => 500
      case FieldsRequired => 400
      case AlreadyExists => 409
      case Rejected(_) => 400
      case DuplicateConflict => 409
      case Created(_) => 201
    }

    /** The message each failure carries; a validation failure carries Mongoose's own
        text, which is not modelled. */
    function Message(): string {
      match this
      case CreateFailed => "Failed to create commodity"
      case FieldsRequired => "metal, purity, and unit are required"
      case AlreadyExists => "This commodity already exists"
      case Rejected(_) => ""
      case DuplicateConflict => "This commodity already exists with the same metal, purity and unit."
      case Created(_) => ""
    }
  }

  /** `!metal || !purity || unit === undefined || unit === null` is false. */
  predicate HasRequiredFields(body: JsObject) {
    Truthy(Lookup(body, "metal")) && Truthy(Lookup(body, "purity")) && !IsNullish(Lookup(body, "unit"))
  }

  /** `Number(v) || 0` */
  function OrZero(n: JsNumber): JsNumber {
    if FalsyNumber(n) then Finite(0.0) else n
  }

  function Coerced(body: JsObject): Pricing {
    Pricing(
      OrZero(ToNumber(Lookup(body, "buyPremium"))),
      OrZero(ToNumber(Lookup(body, "sellPremium"))),
      OrZero(ToNumber(Lookup(body, "sellCharges"))),
      OrZero(ToNumber(Lookup(body, "buyCharges"))))
  }

  /** Each numeric field is the body's value under `Number(..) || 0`: a falsy result
      (0 or NaN, as for a missing field) is stored as 0, anything else as itself. */
  lemma CoercedFields(body: JsObject, f: PricingField)
    ensures var n := ToNumber(Lookup(body, f.Key()));
      Coerced(body).Get(f) == (if n == NaN || n == Finite(0.0) then Finite(0.0) else n)
  {
  }

  /** The text fields as the handler normalises them. */
  function NormalMetal(body: JsObject): string { ToUpper(Trim(ToJsString(Lookup(body, "metal")))) }
  function NormalPurity(body: JsObject): string { Trim(ToJsString(Lookup(body, "purity"))) }
  function NormalUnit(body: JsObject): string { Trim(ToJsString(Lookup(body, "unit"))) }

  /** The record `Commodity.create` is given, stamped with the counter. */
  function Candidate(owner: string, body: JsObject, clock: nat): Commodity {
    Commodity(clock, owner, NormalMetal(body), NormalPurity(body), NormalUnit(body), Coerced(body), clock)
  }

  /** `createCommodity`: required fields (400), the normalised key already present for
      this owner (409), schema validation (400), the database's own failure (409 for a
      duplicate key, 500 otherwise), and only then the insert (201). */
  function CreateStep(t: Table, user: Option<Claims>, body: JsObject, fault: StoreFault)
    : Step<CreateResponse, Table>
  {
    match OwnerKey(user)
    case None => Step(CreateFailed, t)
    case Some(owner) =>
      if !HasRequiredFields(body) then Step(FieldsRequired, t)
      else Insert(t, Candidate(owner, body, t.clock), fault)
  }

  /** What follows once the candidate record is built: the lookup of its key (409),
      then `Commodity.create`, which validates (400), may fail in the database (409 for
      a duplicate key, 500 otherwise), and inserts (201). */
  function Insert(t: Table, c: Commodity, fault: StoreFault): Step<CreateResponse, Table> {
    if FindKey(t.records, Key(c)).Some? then Step(AlreadyExists, t)
    else if ValidationErrors(c) != {} then Step(Rejected(ValidationErrors(c)), t)
    else match fault
      case DuplicateKey => Step(DuplicateConflict, t)
      case Unavailable => Step(CreateFailed, t)
      case NoFault => Step(Created(ViewOf(c)), Table(t.records + [c], t.clock + 1))
  }

  /** Once the caller is known and the fields are present, create is the insert of the
      normalised candidate. */
  lemma CreateIsInsert(t: Table, user: Option<Claims>, body: JsObject, fault: StoreFault)
    requires OwnerKey(user).Some? && HasRequiredFields(body)
    ensures CreateStep(t, user, body, fault) == Insert(t, Candidate(OwnerKey(user).value, body, t.clock), fault)
  {
  }

  /** A candidate whose key is free and which passes validation is appended and shown,
      the counter moving on, when the database does not fail. */
  lemma InsertCreates(t: Table, c: Commodity)
    requires FindKey(t.records, Key(c)).None? && ValidationErrors(c) == {}
    ensures Insert(t, c, NoFault) == Step(Created(ViewOf(c)), Table(t.records + [c], t.clock + 1))
  {
  }

  /** An insert of a record in the setters' normal form, stamped with the counter, keeps
      the collection's invariant. */
  lemma InsertKeepsInvariant(t: Table, c: Commodity, fault: StoreFault)
    requires StoreInvariant(t.records, t.clock)
    requires IsTrimmed(c.adminId) && IsTrimmed(c.purity) && IsTrimmed(c.unit)
    requires c.id == t.clock && c.createdAt == t.clock
    ensures StoreInvariant(Insert(t, c, fault).state.records, Insert(t, c, fault).state.clock)
  {
    if Insert(t, c, fault).response.Created? {
      ValidExactlyWhenConforming(c);
      AppendKeepsInvariant(t.records, t.clock, c);
    }
  }

  /** Only a 201 changes the collection, by appending one record: the caller's, with
      trimmed upper-case metal, trimmed purity and unit, coerced prices, and the next
      id and timestamp; the response shows that record. */
  lemma CreateOutcome(t: Table, user: Option<Claims>, body: JsObject, fault: StoreFault)
    ensures var s := CreateStep(t, user, body, fault);
      !s.response.Created? ==> s.state == t
    ensures var s := CreateStep(t, user, body, fault);
      s.response.Created? ==>
        && OwnerKey(user).Some? && HasRequiredFields(body) && fault == NoFault
        && s.state.clock == t.clock + 1
        && |s.state.records| == |t.records| + 1 && s.state.records[..|t.records|] == t.records
        && var c := s.state.records[|t.records|];
           && c.adminId == Trim(user.value.id)
           && c.metal == ToUpper(Trim(ToJsString(Lookup(body, "metal"))))
           && c.purity == Trim(ToJsString(Lookup(body, "purity")))
           && c.unit == Trim(ToJsString(Lookup(body, "unit")))
           && c.pricing == Coerced(body)
           && c.id == t.clock && c.createdAt == t.clock
           && Conforms(c)
           && s.response.view == ViewOf(c)
  {
    var s := CreateStep(t, user, body, fault);
    if s.response.Created? {
      var c := Candidate(OwnerKey(user).value, body, t.clock);
      assert s == Insert(t, c, fault);
      assert s.state.records == t.records + [c];
      assert s.state.records[..|t.records|] == t.records;
      ValidExactlyWhenConforming(c);
    }
  }

  /** Missing metal or purity (falsy) or unit (undefined or null) answers 400 and
      changes nothing. */
  lemma CreateNeedsFields(t: Table, user: Option<Claims>, body: JsObject, fault: StoreFault)
    requires OwnerKey(user).Some? && !HasRequiredFields(body)
    ensures CreateStep(t, user, body, fault) == Step(FieldsRequired, t)
  {
  }

  /** A numeric 0 unit is present, not missing: with metal and purity given, it passes
      the required-field check. */
  lemma ZeroUnitPresent(t: Table, user: Option<Claims>, body: JsObject, fault: StoreFault)
    requires OwnerKey(user).Some? && Truthy(Lookup(body, "metal")) && Truthy(Lookup(body, "purity"))
    requires Lookup(body, "unit") == Num(0.0)
    ensures CreateStep(t, user, body, fault).response != FieldsRequired
  {
    assert HasRequiredFields(body);
    assert CreateStep(t, user, body, fault) == Insert(t, Candidate(OwnerKey(user).value, body, t.clock), fault);
  }

  /** A numeric 0 unit is stored as the text "0". */
  lemma ZeroUnitText(body: JsObject)
    requires Lookup(body, "unit") == Num(0.0)
    ensures NormalUnit(body) == "0"
  {
    NumberTextOfNatural(0);
    DigitsHaveNoSpace("0");
  }

  /** The owner already holding the normalised (metal, purity, unit) answers 409 and
      changes nothing, whatever the prices. */
  lemma CreateExisting(t: Table, user: Option<Claims>, body: JsObject, fault: StoreFault, r: Commodity)
    requires OwnerKey(user).Some? && HasRequiredFields(body) && r in t.records
    requires r.adminId == OwnerKey(user).value && r.metal == NormalMetal(body)
    requires r.purity == NormalPurity(body) && r.unit == NormalUnit(body)
    ensures CreateStep(t, user, body, fault) == Step(AlreadyExists, t)
  {
    assert Key(r) == Key(Candidate(OwnerKey(user).value, body, t.clock));
  }

  /** A unique-index violation reported by the database also answers 409 and changes
      nothing. */
  lemma CreateDuplicateKeyFault(t: Table, user: Option<Claims>, body: JsObject)
    requires OwnerKey(user).Some? && HasRequiredFields(body)
    ensures var s := CreateStep(t, user, body, DuplicateKey);
      s.state == t && (s.response == AlreadyExists || s.response.Rejected? || s.response == DuplicateConflict)
  {
    var c := Candidate(OwnerKey(user).value, body, t.clock);
    assert CreateStep(t, user, body, DuplicateKey) ==
      if FindKey(t.records, Key(c)).Some? then Step(AlreadyExists, t)
      else if ValidationErrors(c) != {} then Step(Rejected(ValidationErrors(c)), t)
      else Step(DuplicateConflict, t);
  }

  /** A metal that is not one of GOLD, KILOBAR, TTBAR, SILVER once normalised fails the
      enum validator: 400 naming `metal`, and nothing changes. */
  lemma MetalOutsideEnumRejected(t: Table, user: Option<Claims>, body: JsObject, fault: StoreFault)
    requires StoreInvariant(t.records, t.clock)
    requires OwnerKey(user).Some? && HasRequiredFields(body) && NormalMetal(body) !in Metals
    ensures var s := CreateStep(t, user, body, fault);
      s.response.Rejected? && Metal in s.response.errors && s.state == t
  {
    var c := Candidate(OwnerKey(user).value, body, t.clock);
    NonconformingKeyAbsent(t.records, t.clock, Key(c));
  }

  /** A purity or unit that is blank once trimmed fails the required validator: 400
      naming it, and nothing changes. */
  lemma BlankTextRejected(t: Table, user: Option<Claims>, body: JsObject, fault: StoreFault)
    requires StoreInvariant(t.records, t.clock)
    requires OwnerKey(user).Some? && HasRequiredFields(body)
    requires NormalPurity(body) == "" || NormalUnit(body) == ""
    ensures var s := CreateStep(t, user, body, fault);
      && s.response.Rejected? && s.state == t
      && (NormalPurity(body) == "" ==> Purity in s.response.errors)
      && (NormalUnit(body) == "" ==> Unit in s.response.errors)
  {
    var c := Candidate(OwnerKey(user).value, body, t.clock);
    NonconformingKeyAbsent(t.records, t.clock, Key(c));
  }

  /** Create keeps the collection's invariant. */
  lemma CreateKeepsInvariant(t: Table, user: Option<Claims>, body: JsObject, fault: StoreFault)
    requires StoreInvariant(t.records, t.clock)
    ensures var s := CreateStep(t, user, body, fault).state;
      StoreInvariant(s.records, s.clock)
  {
    if OwnerKey(user).Some? && HasRequiredFields(body) {
      InsertKeepsInvariant(t, Candidate(OwnerKey(user).value, body, t.clock), fault);
    }
  }

  /** Once a record is created, sending any request with the same normalised metal,
      purity and unit (say "gold" after " GOLD ") answers 409. */
  lemma CreateTwiceConflicts(t: Table, user: Option<Claims>, body: JsObject, again: JsObject, fault: StoreFault)
    requires CreateStep(t, user, body, NoFault).response.Created?
    requires HasRequiredFields(again)
    requires NormalMetal(again) == NormalMetal(body)
    requires NormalPurity(again) == NormalPurity(body) && NormalUnit(again) == NormalUnit(body)
    ensures var s := CreateStep(t, user, body, NoFault).state;
      CreateStep(s, user, again, fault) == Step(AlreadyExists, s)
  {
    CreateOutcome(t, user, body, NoFault);
    var s := CreateStep(t, user, body, NoFault).state;
    var c := s.records[|t.records|];
    assert c in s.records;
    CreateExisting(s, user, again, fault, c);
  }

  // ---------------------------------------------------------------- update

  /** `Number.isFinite(n) ? n : 0` for `n = Number(v)`. */
  function PatchValue(v: JsValue): real {
    match ToNumber(v)
    case Finite(r) => r
    case _ => 0.0
  }

  /** The `update` record the loop has built once it has visited `fields`: each field
      the body defines, coerced. */
  function PatchOver(body: JsObject, fields: seq<PricingField>): Patch {
    if fields == [] then map[]
    else
      var f := fields[|fields| - 1];
      var earlier := PatchOver(body, fields[..|fields| - 1]);
      var v := Lookup(body, f.Key());
      if v != Undefined then earlier[f := PatchValue(v)] else earlier
  }

  /** Visiting one more field adds it to the update when the body defines it. */
  lemma PatchOverSnoc(body: JsObject, fields: seq<PricingField>, f: PricingField)
    ensures PatchOver(body, fields + [f]) ==
      if Lookup(body, f.Key()) != Undefined then PatchOver(body, fields)[f := PatchValue(Lookup(body, f.Key()))]
      else PatchOver(body, fields)
  {
    assert (fields + [f])[..|fields|] == fields;
  }

  /** The `update` record after the whole of `allowed`. */
  function PatchOf(body: JsObject): Patch {
    PatchOver(body, PricingFields)
  }

  lemma {:induction false} PatchOverFields(body: JsObject, fields: seq<PricingField>, f: PricingField)
    ensures f in PatchOver(body, fields) <==> f in fields && Lookup(body, f.Key()) != Undefined
    ensures f in PatchOver(body, fields) ==> PatchOver(body, fields)[f] == PatchValue(Lookup(body, f.Key()))
  {
    if fields != [] {
      var init, last := fields[..|fields| - 1], fields[|fields| - 1];
      PatchOverFields(body, init, f);
      assert fields == init + [last];
      assert f in fields <==> f in init || f == last;
      PatchOverSnoc(body, init, last);
    }
  }

  /** The patch sees the four allowed keys of the body and nothing else: a field is in it
      exactly when the body defines it, and a value `Number` cannot make finite becomes 0. */
  lemma PatchOfFields(body: JsObject, f: PricingField)
    ensures f in PatchOf(body) <==> Lookup(body, f.Key()) != Undefined
    ensures f in PatchOf(body) && !ToNumber(Lookup(body, f.Key())).Finite? ==> PatchOf(body)[f] == 0.0
    ensures f in PatchOf(body) && ToNumber(Lookup(body, f.Key())).Finite? ==>
      PatchOf(body)[f] == ToNumber(Lookup(body, f.Key())).r
  {
    PricingFieldsComplete(f);
    PatchOverFields(body, PricingFields, f);
  }

  /** Two bodies that agree on the four allowed keys give the same patch. */
  lemma PatchIgnoresOtherKeys(a: JsObject, b: JsObject)
    requires forall f: PricingField :: Lookup(a, f.Key()) == Lookup(b, f.Key())
    ensures PatchOf(a) == PatchOf(b)
  {
    forall f ensures (f in PatchOf(a) <==> f in PatchOf(b)) && (f in PatchOf(a) ==> PatchOf(a)[f] == PatchOf(b)[f]) {
      PatchOfFields(a, f);
      PatchOfFields(b, f);
    }
  }

  /** The loop over `allowed` that fills `update`. */
  method BuildPatch(body: JsObject) returns (update: Patch)
    ensures update == PatchOf(body)
  {
    update := map[];
    var k := 0;
    while k < |PricingFields|
      invariant 0 <= k <= |PricingFields|
      invariant update == PatchOver(body, PricingFields[..k])
    {
      var key := PricingFields[k];
      var value := Lookup(body, key.Key());
      PatchOverSnoc(body, PricingFields[..k], key);
      assert PricingFields[..k + 1] == PricingFields[..k] + [key];
      if value != Undefined {
        var n := ToNumber(value);
        update := update[key := if n.Finite? then n.r else 0.0];
      }
      k := k + 1;
    }
    assert PricingFields[..k] == PricingFields;
  }

  /** Every patched value passes the `min: 0` update validator. */
  predicate NonNegative(patch: Patch) {
    forall f :: f in patch ==> patch[f] >= 0.0
  }

  datatype UpdateResponse = UpdateFailed | NothingToUpdate | UpdateNotFound | Updated(view: View) {
    function Status(): int {
      match this
      case UpdateFailed => 500
      case NothingToUpdate => 400
      case UpdateNotFound => 404
      case Updated(_) => 200
    }

    function Message(): string {
      match this
      case UpdateFailed => "Failed to update commodity"
      case NothingToUpdate => "No valid fields to update"
      case UpdateNotFound => "Commodity not found"
      case Updated(_) => ""
    }
  }

  /** `updateCommodity`: no allowed field (400) before any lookup; a negative value
      fails the update validators (500); only the caller's record with that id is
      updated (404 otherwise), and only in the patched fields. */
  function UpdateStep(t: Table, user: Option<Claims>, id: nat, body: JsObject): Step<UpdateResponse, Table> {
    match OwnerKey(user)
    case None => Step(UpdateFailed, t)
    case Some(owner) =>
      var patch := PatchOf(body);
      if |patch| == 0 then Step(NothingToUpdate, t)
      else if !NonNegative(patch) then Step(UpdateFailed, t)
      else match FindOwned(t.records, owner, id)
        case None => Step(UpdateNotFound, t)
        case Some(i) =>
          var c := t.records[i].(pricing := t.records[i].pricing.Patched(patch));
          Step(Updated(ViewOf(c)), Table(t.records[i := c], t.clock))
  }

  /** With no allowed field the answer is 400 and nothing changes, whichever id is named
      and whether or not it exists. */
  lemma EmptyPatchIgnoresId(t: Table, user: Option<Claims>, id: nat, other: nat, body: JsObject)
    requires OwnerKey(user).Some? && PatchOf(body) == map[]
    ensures UpdateStep(t, user, id, body) == UpdateStep(t, user, other, body) == Step(NothingToUpdate, t)
  {
  }

  /** A negative value answers 500 and changes nothing, whichever id is named. */
  lemma NegativePatchFails(t: Table, user: Option<Claims>, id: nat, body: JsObject, f: PricingField)
    requires OwnerKey(user).Some? && f in PatchOf(body) && PatchOf(body)[f] < 0.0
    ensures UpdateStep(t, user, id, body) == Step(UpdateFailed, t)
  {
  }

  /** Only the allowed keys of the body decide the update. */
  lemma UpdateIgnoresOtherKeys(t: Table, user: Option<Claims>, id: nat, a: JsObject, b: JsObject)
    requires forall f: PricingField :: Lookup(a, f.Key()) == Lookup(b, f.Key())
    ensures UpdateStep(t, user, id, a) == UpdateStep(t, user, id, b)
  {
    PatchIgnoresOtherKeys(a, b);
  }

  /** A successful update changes one record, the caller's with that id, and in it only
      the patched prices; every other record, and every other field, is as it was. */
  lemma UpdateFrame(t: Table, user: Option<Claims>, id: nat, body: JsObject)
    requires UpdateStep(t, user, id, body).response.Updated?
    ensures var s := UpdateStep(t, user, id, body);
      && s.state.clock == t.clock
      && |s.state.records| == |t.records|
      && exists i :: 0 <= i < |t.records|
          && t.records[i].id == id && t.records[i].adminId == OwnerKey(user).value
          && (forall j :: 0 <= j < |t.records| && j != i ==> s.state.records[j] == t.records[j])
          && var old_, new_ := t.records[i], s.state.records[i];
             && new_.id == old_.id && new_.adminId == old_.adminId && new_.metal == old_.metal
             && new_.purity == old_.purity && new_.unit == old_.unit && new_.createdAt == old_.createdAt
             && (forall f :: f in PatchOf(body) ==> new_.pricing.Get(f) == Finite(PatchOf(body)[f]))
             && (forall f :: f !in PatchOf(body) ==> new_.pricing.Get(f) == old_.pricing.Get(f))
             && s.response.view == ViewOf(new_)
  {
    var i := FindOwned(t.records, OwnerKey(user).value, id).value;
    assert t.records[i].id == id;
  }

  /** A record owned by someone else is out of reach: with a valid patch the answer is
      404 and nothing changes. */
  lemma UpdateForeignRecord(t: Table, user: Option<Claims>, id: nat, body: JsObject, k: nat)
    requires Chronological(t.records, t.clock)
    requires OwnerKey(user).Some? && |PatchOf(body)| > 0 && NonNegative(PatchOf(body))
    requires k < |t.records| && t.records[k].id == id && t.records[k].adminId != OwnerKey(user).value
    ensures UpdateStep(t, user, id, body) == Step(UpdateNotFound, t)
  {
    var found := FindOwned(t.records, OwnerKey(user).value, id);
    if found.Some? {
      IdsUnique(t.records, t.clock, found.value, k);
    }
  }

  /** Update keeps the collection's invariant. */
  lemma UpdateKeepsInvariant(t: Table, user: Option<Claims>, id: nat, body: JsObject)
    requires StoreInvariant(t.records, t.clock)
    ensures var s := UpdateStep(t, user, id, body).state;
      StoreInvariant(s.records, s.clock)
  {
    if UpdateStep(t, user, id, body).response.Updated? {
      var patch := PatchOf(body);
      var i := FindOwned(t.records, OwnerKey(user).value, id).value;
      var c := t.records[i].(pricing := t.records[i].pricing.Patched(patch));
      assert Conforms(t.records[i]);
      assert Conforms(c);
      ReplaceKeepsInvariant(t.records, t.clock, i, c);
    }
  }

  // ---------------------------------------------------------------- delete

  datatype DeleteResponse = DeleteFailed | DeleteNotFound | Deleted {
    function Status(): int {
      match this
      case DeleteFailed => 500
      case DeleteNotFound => 404
      case Deleted => 200
    }

    function Message(): string {
      match this
      case DeleteFailed => "Failed to delete commodity"
      case DeleteNotFound => "Commodity not found"
      case Deleted => "Commodity deleted"
    }
  }

  /** `deleteCommodity`: removes the caller's record with that id, or answers 404. */
  function DeleteStep(t: Table, user: Option<Claims>, id: nat): Step<DeleteResponse, Table> {
    match OwnerKey(user)
    case None => Step(DeleteFailed, t)
    case Some(owner) =>
      match FindOwned(t.records, owner, id)
      case None => Step(DeleteNotFound, t)
      case Some(i) => Step(Deleted, Table(t.records[..i] + t.records[i + 1..], t.clock))
  }

  /** A delete removes exactly one record, the caller's with that id, and keeps every
      other record in order; anything else answers 404 or 500 and changes nothing. */
  lemma DeleteOutcome(t: Table, user: Option<Claims>, id: nat)
    requires Chronological(t.records, t.clock)
    ensures var s := DeleteStep(t, user, id);
      !s.response.Deleted? ==> s.state == t
    ensures var s := DeleteStep(t, user, id);
      s.response.Deleted? ==>
        && s.state.clock == t.clock
        && (exists i :: && 0 <= i < |t.records|
                        && t.records[i].id == id && t.records[i].adminId == OwnerKey(user).value
                        && s.state.records == t.records[..i] + t.records[i + 1..])
        && (forall r :: r in s.state.records <==> r in t.records && r.id != id)
  {
    var s := DeleteStep(t, user, id);
    if s.response.Deleted? {
      var i := FindOwned(t.records, OwnerKey(user).value, id).value;
      RemoveAtMembers(t.records, t.clock, i);
    }
  }

  /** A record owned by someone else is out of reach: 404, and nothing changes. */
  lemma DeleteForeignRecord(t: Table, user: Option<Claims>, id: nat, k: nat)
    requires Chronological(t.records, t.clock)
    requires OwnerKey(user).Some? && k < |t.records| && t.records[k].id == id
    requires t.records[k].adminId != OwnerKey(user).value
    ensures DeleteStep(t, user, id) == Step(DeleteNotFound, t)
  {
    var found := FindOwned(t.records, OwnerKey(user).value, id);
    if found.Some? {
      IdsUnique(t.records, t.clock, found.value, k);
    }
  }

  /** Delete keeps the collection's invariant. */
  lemma DeleteKeepsInvariant(t: Table, user: Option<Claims>, id: nat)
    requires StoreInvariant(t.records, t.clock)
    ensures var s := DeleteStep(t, user, id).state;
      StoreInvariant(s.records, s.clock)
  {
    if DeleteStep(t, user, id).response.Deleted? {
      RemoveKeepsInvariant(t.records, t.clock, FindOwned(t.records, OwnerKey(user).value, id).value);
    }
  }

  // ---------------------------------------------------------------- the store

  /** The commodity collection, in insertion order, with the counter that stamps ids
      and creation times. */
  class CommodityStore {
    var records: seq<Commodity>
    var clock: nat

    ghost predicate Valid()
      reads this
    {
      StoreInvariant(records, clock)
    }

    constructor ()
      ensures Valid() && records == [] && clock == 0
    {
      records := [];
      clock := 0;
    }

    method Create(user: Option<Claims>, body: JsObject, fault: StoreFault) returns (resp: CreateResponse)
      requires Valid()
      modifies this
      ensures Valid()
      ensures Step(resp, Table(records, clock)) == CreateStep(old(Table(records, clock)), user, body, fault)
    {
      var t := Table(records, clock);
      var owner := OwnerKey(user);
      if owner.None? {
        return CreateFailed;
      }
      if !HasRequiredFields(body) {
        return FieldsRequired;
      }
      var c := Candidate(owner.value, body, t.clock);
      CreateIsInsert(t, user, body, fault);
      if FindKey(t.records, Key(c)).Some? {
        return AlreadyExists;
      }
      var errors := ValidationErrors(c);
      if errors != {} {
        return Rejected(errors);
      }
      if fault == DuplicateKey {
        return DuplicateConflict;
      } else if fault == Unavailable {
        return CreateFailed;
      }
      InsertCreates(t, c);
      InsertKeepsInvariant(t, c, NoFault);
      records, clock := t.records + [c], t.clock + 1;
      resp := Created(ViewOf(c));
    }

    method Update(user: Option<Claims>, id: nat, body: JsObject) returns (resp: UpdateResponse)
      requires Valid()
      modifies this
      ensures Valid()
      ensures Step(resp, Table(records, clock)) == UpdateStep(old(Table(records, clock)), user, id, body)
    {
      UpdateKeepsInvariant(Table(records, clock), user, id, body);
      var owner := OwnerKey(user);
      if owner.None? {
        return UpdateFailed;
      }
      var patch := BuildPatch(body);
      if |patch| == 0 {
        return NothingToUpdate;
      }
      if !NonNegative(patch) {
        return UpdateFailed;
      }
      var found := FindOwned(records, owner.value, id);
      if found.None? {
        return UpdateNotFound;
      }
      var i := found.value;
      var c := records[i].(pricing := records[i].pricing.Patched(patch));
      records := records[i := c];
      resp := Updated(ViewOf(c));
    }

    method Delete(user: Option<Claims>, id: nat) returns (resp: DeleteResponse)
      requires Valid()
      modifies this
      ensures Valid()
      ensures Step(resp, Table(records, clock)) == DeleteStep(old(Table(records, clock)), user, id)
    {
      DeleteKeepsInvariant(Table(records, clock), user, id);
      var owner := OwnerKey(user);
      if owner.None? {
        return DeleteFailed;
      }
      var found := FindOwned(records, owner.value, id);
      if found.None? {
        return DeleteNotFound;
      }
      var i := found.value;
      records := records[..i] + records[i + 1..];
      resp := Deleted;
    }
  }
}
