# Bullion desk backend: a verified model

The backend serves a bullion dealer's desk. Registered companies log in. Each keeps:

- its own catalogue of commodities: a metal, a purity and a unit, with buy/sell premiums and charges;
- its own spot-rate spreads;
- its own display-template configurations.

This project models that core in Dafny:

- the bearer-token gate in front of the handlers;
- registration and login against the account store;
- the commodity collection with its schema validators and unique index;
- the spot-rate settings collection with its defaults;
- the template configuration collection with its built-in default.

Each collection is a value: a `seq` of records kept in insertion order, or a `map` keyed the way the collection's unique index is keyed. Each handler is a pure step function from the collection and the request to a response and the new collection. Lemmas state what the handlers promise:

- which check wins when several fail;
- that a failure changes nothing;
- that a write touches only the caller's record, and in it only the named fields;
- the fallback to defaults;
- that the indexes' uniqueness is kept.

A class per collection holds the mutable state. Its methods perform the writes and are proved equal to the step functions:

- `AccountStore`, `CommodityStore`, `SpotRateStore` and `TemplateConfigStore`;
- `AuthExchange` for the gate, which carries `req.user`, the reply sent, and the number of times `next()` was called.

The building blocks are:

- `Wrappers`: `Option` and `Step`.
- `JsText` and `JsValues`: the JavaScript behaviour the handlers rely on, for JSON request values. It covers:
  - `trim()`, ASCII `toUpperCase()`/`toLowerCase()`, `startsWith` and `split(" ")`;
  - truthiness and `===`;
  - `?.trim()`;
  - `Number(x)` and `String(x)`.
- `UserModel`, `CommodityModel`, `SpotRateSettings` and `TemplateConfig`: the Mongoose schemas. Each has a validity predicate and a collection invariant.

Modelling choices that follow the code:

- **Setters apply to query filters too.** Mongoose runs a schema's `trim`, `lowercase` and `uppercase` setters on the values of a query filter, not only on stored values. So the model keys every lookup the way the schema stores it:
  - a commodity's owner is the trimmed caller id;
  - an account's email is lower-cased and then trimmed;
  - a settings record's user id is trimmed;
  - a template configuration's `(userId, templateId)` is trimmed on both parts.
- **Uncaught exceptions in the auth handlers** go to `next(err)`. The error middleware (`globalErrorHandler`, installed at `src/app.ts:5` and `src/app.ts:23`) is outside this model, so they appear as `RegisterForwarded`, `LoginForwarded` and status 500. This covers:
  - `trim` called on a non-string;
  - `bcrypt` handed a non-string password;
  - a schema validation failure on create.
- **A number as the password.** In register, a truthy non-string password passes `password.length < 8`, because `undefined < 8` is false; bcrypt then throws on hashing, so the answer is 500, not 422. Login has no length check: it answers 401 for an unknown email and 403 for an account that is not active, and only for an active account does the comparison throw, giving 500.
- **`.length` counts UTF-16 code units.** A character outside the Basic Multilingual Plane counts twice (`Utf16Length`), so four emoji make a password of length 8.
- **A numeric `0` unit passes the presence check** of `createCommodity`, because that check is `unit === undefined || unit === null`. It is stored as the text `"0"`.
- **An empty or whitespace-only purity or unit** is caught by the schema's `required` validator once trimmed. So the leniency of the presence check never stores an empty string.
- **Update runs the validators first.** `findOneAndUpdate` runs the `min: 0` validators before matching a document. So a negative value answers 500 whether or not the id names one of the caller's records.
- **The unique-index 409 path is a store fault.** Nothing in one handler call can trigger the unique-index violation, since the pre-check has passed. It is modelled as a `StoreFault` parameter standing for a concurrent insert.
- **Template defaults use the raw id.** The default template configuration carries `templateId` exactly as requested, untrimmed. The lookup uses the trimmed id.
- **Falsy and empty configurations.** A falsy `config` (`undefined`, `null`, `false`, `0`, `""`) is refused. An empty object or array is truthy and is saved.
- **Blank ids on upsert.** Neither upsert runs the `required` validator on the id parts: the settings upsert is not checked for it, and the template upsert has `runValidators: false`. So a caller id made only of whitespace keys the empty string. The collection invariants therefore say only that keys are trimmed.
- **Template routes.** `src/routes/index.ts:12-14` mounts the auth, commodity and spot-rate routes but not the template routes. The template handlers are modelled as written, though no URL reaches them.

## Model

| member | source | states |
|---|---|---|
| JsText.Trim | src/controllers/auth.controller.ts:23-26 | `trim()` leaves no whitespace at either end, is empty exactly when the text is all whitespace, never lengthens, and leaves whitespace-free text alone |
| JsText.TrimIdempotent | src/models/Commodity.ts:22-43 | a `trim` setter that runs again on an already trimmed value changes nothing |
| JsText.LowerIsLowerCase | src/models/User.ts:28 | `toLowerCase()` yields text with no capitals, is the identity on such text, and is idempotent |
| JsText.CaseKeepsSpace | src/models/User.ts:28-30 | case mapping neither creates nor removes whitespace, in both directions |
| JsText.UpperIdempotent | src/models/Commodity.ts:28 | the `uppercase` setter leaves upper-cased text unchanged |
| JsText.TrimOfEdgeless | src/models/Commodity.ts:27 | text with no whitespace at either end is its own trim |
| JsText.UpperKeepsTrimmed | src/controllers/commodity.controller.ts:55 | a metal trimmed and then upper-cased stays trimmed and upper-cased under the schema setters |
| JsText.Split | src/middlewares/auth.middleware.ts:31 | `split(" ")` always yields at least one part |
| JsText.SplitJoin | src/middlewares/auth.middleware.ts:31 | splitting loses nothing: joining the parts with the separator gives the header back, and no part holds the separator |
| JsText.SplitHead | src/middlewares/auth.middleware.ts:31 | the first part is everything before the first separator |
| JsText.SplitAfterWord | src/middlewares/auth.middleware.ts:31 | a separator-free word followed by the separator becomes the first part, and the rest is split on its own |
| JsText.NatToString | src/controllers/commodity.controller.ts:57 | `String(n)` of a natural is a non-empty run of decimal digits |
| JsText.NatToStringValue | src/controllers/commodity.controller.ts:57 | reading the decimal text of a natural back gives the natural |
| JsText.Utf16Length | src/controllers/auth.controller.ts:28 | `.length` of a string counts UTF-16 code units, between its number of characters and twice that |
| JsText.BmpUtf16Length | src/controllers/auth.controller.ts:28 | within the Basic Multilingual Plane, `.length` is the number of characters |
| JsText.AstralPairsCountTwice | src/controllers/auth.controller.ts:28 | each character outside the Basic Multilingual Plane counts twice: four emoji have length 8 |
| JsValues.DigitsToNumber | src/controllers/commodity.controller.ts:80-83 | `Number` of a run of digits is its decimal value |
| JsValues.NaturalTextRoundTrip | src/controllers/commodity.controller.ts:80-83 | `Number(String(n))` gives back every natural `n` |
| JsValues.NumberTextOfNatural | src/controllers/commodity.controller.ts:55-57 | `String` of a natural JSON number is its decimal text, and `Number` of that text is the number again |
| JsValues.ExponentNotation | src/controllers/commodity.controller.ts:80-83 | `Number` of digits, `e` and digits is the mantissa scaled by ten to the exponent |
| JsValues.ExponentThousand | src/controllers/commodity.controller.ts:80-83 | `Number("1e3")` is 1000, so `Number(buyPremium) \|\| 0` stores 1000 for it |
| JsValues.ToJsString | src/controllers/commodity.controller.ts:55-57 | `String(x)`: `undefined`, `null` and booleans by name, numbers in decimal, strings unchanged, arrays comma-joined with nullish elements empty, objects as `[object Object]`; `NumberTextOfNatural` and `ZeroUnitText` state what the handler relies on |
| JsValues.StringToNumber | src/controllers/commodity.controller.ts:134 | `Number(s)` of a string: surrounding whitespace ignored, blank text 0, an optional sign, `Infinity`, or a decimal numeral with an optional exponent, anything else NaN; `DigitsToNumber`, `NaturalTextRoundTrip` and `ExponentNotation` state what it reads |
| JsValues.ToNumber | src/controllers/commodity.controller.ts:80-83 | `Number(v)`: `undefined` is NaN, `null` and `false` 0, `true` 1, a number itself, and strings, arrays and objects through their text; `CoercedFields` and `PatchOfFields` state how the handlers use it |
| JsValues.LengthOf | src/controllers/auth.controller.ts:28 | `password.length`: UTF-16 code units for a string, the element count for an array, the `length` property of an object; `ShortPasswordReported` and `AstralPasswordLongEnough` state the check built on it |
| JsValues.OptionalTrim | src/controllers/auth.controller.ts:23-26 | `v?.trim()` yields trimmed text exactly for a string, nothing exactly for `undefined`/`null`, and throws otherwise |
| UserModel.EmailPatternOfParts | src/models/User.ts:30 | three non-empty whitespace-free parts joined as `a@b.c` match `^\S+@\S+\.\S+$` |
| UserModel.EmailPatternParts | src/models/User.ts:30 | every match of `^\S+@\S+\.\S+$` splits as `a@b.c` with non-empty whitespace-free parts (the converse) |
| UserModel.NormalEmailIdempotent | src/models/User.ts:28-29 | the `lowercase` and `trim` setters applied to a stored email leave it as it is |
| UserModel.NormalEmailKeepsPattern | src/models/User.ts:28-30 | a matching email only changes case under the setters and still matches |
| UserModel.AppendKeepsValid | src/models/User.ts:19-49 | adding a well-formed account with a new id and a new email keeps every account valid, ids distinct and emails unique |
| UserModel.FindBy | src/controllers/auth.controller.ts:38 | `findOne({ email })` here and at line 107, and `findById` at line 169: a found account holds the value in the looked-up field, and nothing is found exactly when no account holds it |
| UserModel.FindByEmailUnique | src/models/User.ts:27 | with unique emails, the lookup by an account's email finds that very account |
| UserModel.FindByEmailAppended | src/models/User.ts:27 | when no stored account has an email, appending an account with it makes the lookup by that email find the new account |
| UserModel.AppendUnfoundKeepsValid | src/models/User.ts:27 | an account whose email the lookup does not find, under a new id, can be appended with the store staying valid |
| AuthGate.BearerSplit | src/middlewares/auth.middleware.ts:23-31 | a header starting with `"Bearer "` splits into `"Bearer"` followed by the split of the rest |
| AuthGate.BearerToken | src/middlewares/auth.middleware.ts:23-31 | a token is extracted exactly when the header is present and starts with `"Bearer "` |
| AuthGate.BearerTokenIsFirstWord | src/middlewares/auth.middleware.ts:31 | the token is the second space-separated segment, that is, the text after the prefix up to the next space |
| AuthGate.ProtectVerdict | src/middlewares/auth.middleware.ts:22-47 | the no-token 401 exactly when the header is absent or not a bearer header; the invalid-token 401 exactly when the token does not verify; and for a bearer header whose token verifies, proceeding with exactly those claims |
| AuthGate.OptionalAuthAgreesWithProtect | src/middlewares/auth.middleware.ts:57-74 | `optionalAuth` attaches a user exactly when `protect` would let the request through, and then the same claims |
| AuthGate.RoleGateAfterProtect | src/middlewares/auth.middleware.ts:81-89 | after `protect`, `requireRole` passes exactly when the verified token's role is listed |
| AuthGate.ClaimedId | src/controllers/commodity.controller.ts:5-9 | an id is available exactly when a user is attached whose id is non-empty (`if (!id)`), and it is that id |
| AuthGate.AuthExchange.Protect | src/middlewares/auth.middleware.ts:16-48 | on rejection it sends the 401 reply and attaches nothing, calling `next` zero times; on success it attaches the verified claims, sends nothing and calls `next` once |
| AuthGate.AuthExchange.OptionalAuth | src/middlewares/auth.middleware.ts:51-75 | it never replies, and calls `next` exactly once on every path; it attaches a user only when verification succeeds |
| AuthGate.AuthExchange.RequireRole | src/middlewares/auth.middleware.ts:78-90 | `next` is called exactly when a user is attached with a listed role; otherwise the 403 reply follows; the user is untouched |
| AuthController.RegistrationErrors | src/controllers/auth.controller.ts:22-30 | the error record of register: every field checked in turn, each failing one named with its message, or an exception from `?.trim()` on a non-string; `Collect`, `CollectEmpty`, `ShortPasswordReported`, `MismatchReported` and `ValidRegistration` state its content |
| AuthController.PasswordCheck | src/controllers/auth.controller.ts:27-28 | a falsy password is required, then one whose `.length` is below 8 is too short; `ShortPasswordReported` and `AstralPasswordLongEnough` state both outcomes |
| AuthController.ConfirmCheck | src/controllers/auth.controller.ts:29-30 | a falsy confirmation is required, then one not `===` the password is a mismatch; `MismatchReported` and `ValidRegistration` state both outcomes |
| AuthController.EmailCheck | src/controllers/auth.controller.ts:24-25 | the email field passes exactly when it is a string that is non-blank once trimmed and matches the pattern |
| AuthController.Collect | src/controllers/auth.controller.ts:22-30 | every field is checked, none short-circuits: the record names exactly the failing fields with their messages, and an exception in any check aborts the whole record |
| AuthController.CollectEmpty | src/controllers/auth.controller.ts:32-35 | the error record is empty exactly when every field passes |
| AuthController.LoginFormAccepted | src/controllers/auth.controller.ts:95-104 | the login form has no errors exactly when the email is a non-blank matching string and the password is truthy |
| AuthController.ShortPasswordReported | src/controllers/auth.controller.ts:27-28 | a non-empty string password shorter than 8 UTF-16 code units gets its own "at least 8 characters" entry |
| AuthController.AstralPasswordLongEnough | src/controllers/auth.controller.ts:28 | four emoji are eight code units, so such a password passes the length check |
| AuthController.MismatchReported | src/controllers/auth.controller.ts:29-30 | a given `confirmPassword` that is not `===` the password gets its own "do not match" entry |
| AuthController.ValidRegistration | src/controllers/auth.controller.ts:22-35 | a form without errors has string company name, email and phone that are non-blank, a matching email, a truthy password, and an equal confirmation |
| AuthController.RegisterCheckPassed | src/controllers/auth.controller.ts:22-35 | when the form collects no errors, every one of the five field checks passes |
| AuthController.Public | src/controllers/auth.controller.ts:72-79 | the response user carries the account's id, company name, email, phone, role and status |
| AuthController.PublicHidesHash | src/controllers/auth.controller.ts:72-79 | the response user does not depend on the password hash |
| AuthController.RegisterStep | src/controllers/auth.controller.ts:13-84 | `register` in order: 422 with the error record, 409 for a taken normal-form email, then the hash, the append and 201 with the token and public view, 500 when an exception is forwarded; `RegisterOutcome`, `RegisterValidationFirst`, `RegisterTakenEmail`, `RegisteredShape` and `RegisterKeepsStoreValid` state its behaviour |
| AuthController.RegisterOutcome | src/controllers/auth.controller.ts:50-80 | register changes the store only on 201, by appending exactly one account: the new id, role `user`, status `active`, the email lower-cased and trimmed; the response shows it without its hash, with a token signed over its claims |
| AuthController.RegisterValidationFirst | src/controllers/auth.controller.ts:32-35 | any validation failure answers 422 with the full error record, before the store is consulted, and the store is unchanged |
| AuthController.RegisterTakenEmail | src/controllers/auth.controller.ts:37-45 | a valid form whose email in normal form is already registered answers 409 and creates no account |
| AuthController.RegisteredShape | src/controllers/auth.controller.ts:37-58 | a 201 means the form was valid, the email was free, and the store grew by the account built from the form and the hashed password |
| AuthController.NewAccountWellFormed | src/controllers/auth.controller.ts:51-58 | the account built from a valid form is in normal form when it passes the schema |
| AuthController.RegisterKeepsStoreValid | src/models/User.ts:24-31 | register keeps every account well formed with distinct ids and unique emails |
| AuthController.Login | src/controllers/auth.controller.ts:87-159 | `login` in order: 422, 401 for an unknown email, 403 for an account that is not active, 401 for a wrong password, then the token and public view; it never writes the store; `UnknownEmailLooksLikeWrongPassword`, `InactiveAccountRefused`, `LoginSucceeds` and `RegisterThenLogin` state its behaviour |
| AuthController.UnknownEmailLooksLikeWrongPassword | src/controllers/auth.controller.ts:106-133 | an unknown email, and a wrong password for an active account, give the identical 401; nothing else does |
| AuthController.InactiveAccountRefused | src/controllers/auth.controller.ts:116-123 | an account that is not active gets 403 before the password is compared |
| AuthController.RegisterThenLogin | src/controllers/auth.controller.ts:87-155 | after a successful register, logging in with the same email and password succeeds and returns the same user |
| AuthController.LoginSucceeds | src/controllers/auth.controller.ts:135-155 | an accepted form whose email finds an active account with a matching password logs in with the token for that account's claims and its public view |
| AuthController.GetMe | src/controllers/auth.controller.ts:167-174 | 404 exactly when no user is attached or no account has the claimed id; otherwise the account with that id, without its hash |
| AuthController.AccountStore.Register | src/controllers/auth.controller.ts:13-84 | performs the register step on the store and keeps it valid |
| CommodityModel.PricingFieldsComplete | src/controllers/commodity.controller.ts:131 | the update's `allowed` list names every numeric field |
| CommodityModel.PricingKeysDistinct | src/controllers/commodity.controller.ts:131 | distinct numeric fields have distinct body keys |
| CommodityModel.Pricing.Patched | src/controllers/commodity.controller.ts:147-151 | `$set` gives the patched fields the new values and leaves the others as they were |
| CommodityModel.ValidationErrors | src/models/Commodity.ts:18-47 | names of the schema's failing paths: an empty owner, a metal outside the enum, an empty purity or unit, each price below 0; each path if and only if its validator fails |
| CommodityModel.ValidExactlyWhenConforming | src/models/Commodity.ts:18-47 | a record in the setters' normal form passes validation exactly when it satisfies the stored-record predicate |
| CommodityModel.FindKey | src/controllers/commodity.controller.ts:60-65 | `findOne` on the normalised key returns the first record with that key, and nothing exactly when none has it |
| CommodityModel.FindOwned | src/controllers/commodity.controller.ts:147-151 | the filter `{ _id: id, adminId: owner }` returns the first record with both, and nothing exactly when none matches |
| CommodityModel.NonconformingKeyAbsent | src/models/Commodity.ts:24-43 | a key no valid record can have (blank text, metal outside the enum) is never found in the collection |
| CommodityModel.IdsUnique | src/models/Commodity.ts:16-50 | in a chronological collection, ids identify records |
| CommodityModel.FindKeyOfStored | src/models/Commodity.ts:56-59 | under the unique index a record is found by its key exactly where it sits |
| CommodityModel.AppendKeepsInvariant | src/models/Commodity.ts:56-59 | appending a valid record with a fresh key, stamped with the counter, keeps the collection invariant |
| CommodityModel.AppendKeepsKeysUnique | src/models/Commodity.ts:56-59 | appending a record with a fresh key keeps keys unique |
| CommodityModel.AppendKeepsChronological | src/models/Commodity.ts:53 | appending a record stamped with the counter keeps ids and creation times increasing |
| CommodityModel.ReplaceKeepsInvariant | src/models/Commodity.ts:44-59 | replacing a record by a valid one with the same key, id and timestamp keeps the invariant |
| CommodityModel.RemoveKeepsInvariant | src/models/Commodity.ts:56-59 | removing a record keeps the invariant |
| CommodityModel.RemoveAtMembers | src/controllers/commodity.controller.ts:188 | removing the record at a position leaves exactly the records with a different id |
| CommodityModel.SettersKeepNormalised | src/models/Commodity.ts:27-42 | the setters leave the handler's normalised metal, purity and unit unchanged |
| AuthGate.OwnerKey | src/controllers/commodity.controller.ts:5-9 | `getUserId`, and the id check at spotrate.controller.ts:14-18, yield a key exactly when a non-empty id is attached, and it is that id after the `trim` setter on the owner field |
| CommodityController.List | src/controllers/commodity.controller.ts:12-39 | `listCommodities`: 500 without an identity, otherwise the caller's records newest first; `ListIsOwnNewestFirst`, `NewestFirstHoldsOwned` and `NewestFirstOrdered` state it |
| CommodityController.Views | src/controllers/commodity.controller.ts:21-30 | the response lists one view per record, in the same order |
| CommodityController.NewestFirstHoldsOwned | src/controllers/commodity.controller.ts:15 | the list holds exactly the owner's records |
| CommodityController.NewestFirstOrdered | src/controllers/commodity.controller.ts:16 | the list has strictly decreasing creation times |
| CommodityController.ListIsOwnNewestFirst | src/controllers/commodity.controller.ts:12-39 | 500 exactly when there is no identity; otherwise the views of exactly the caller's records, newest first |
| CommodityController.CoercedFields | src/controllers/commodity.controller.ts:80-83 | each price is `Number(v)` when that is truthy and 0 when it is 0 or NaN |
| CommodityController.CreateStep | src/controllers/commodity.controller.ts:42-123 | `createCommodity`: 500 without an identity, 400 for a missing field, then the normalised candidate goes to `Insert`; `CreateOutcome`, `CreateNeedsFields`, `ZeroUnitPresent` and `CreateKeepsInvariant` state its behaviour |
| CommodityController.Insert | src/controllers/commodity.controller.ts:60-121 | the checks after the candidate is built: 409 for an existing key, 400 naming the failing schema paths, 409 for a duplicate-key fault, 500 for another fault, else the append and 201; `CreateExisting`, `CreateDuplicateKeyFault`, `MetalOutsideEnumRejected`, `BlankTextRejected` and `InsertKeepsInvariant` state its behaviour |
| CommodityController.CreateIsInsert | src/controllers/commodity.controller.ts:55-84 | once the caller is known and the fields are present, create is the insert of the candidate with the normalised key and coerced prices |
| CommodityController.InsertCreates | src/controllers/commodity.controller.ts:75-98 | a candidate with a free key that passes validation is appended and shown with 201, and the counter moves on |
| CommodityController.CreateOutcome | src/controllers/commodity.controller.ts:55-98 | only a 201 changes the collection. It appends one valid record: the caller's, with the metal trimmed and upper-cased, the purity and unit trimmed, the coerced prices, and the next id and timestamp; the response shows it |
| CommodityController.CreateNeedsFields | src/controllers/commodity.controller.ts:47-53 | a falsy metal or purity, or an undefined or null unit, answers 400 and changes nothing |
| CommodityController.ZeroUnitPresent | src/controllers/commodity.controller.ts:47 | a numeric 0 unit passes the presence check |
| CommodityController.ZeroUnitText | src/controllers/commodity.controller.ts:57 | a numeric 0 unit is normalised to the text `"0"` |
| CommodityController.CreateExisting | src/controllers/commodity.controller.ts:60-73 | the caller already holding the normalised metal, purity and unit answers 409 and changes nothing |
| CommodityController.CreateDuplicateKeyFault | src/controllers/commodity.controller.ts:110-116 | a unique-index violation from the database yields a 409 or a 400, and nothing changes |
| CommodityController.MetalOutsideEnumRejected | src/controllers/commodity.controller.ts:102-108 | a normalised metal outside GOLD, KILOBAR, TTBAR, SILVER answers 400 naming `metal`, and nothing changes |
| CommodityController.BlankTextRejected | src/models/Commodity.ts:34-43 | a purity or unit that is blank once trimmed answers 400 naming it, and nothing changes |
| CommodityController.CreateKeepsInvariant | src/models/Commodity.ts:56-59 | create keeps every record valid, keys unique and the collection chronological |
| CommodityController.InsertKeepsInvariant | src/models/Commodity.ts:56-59 | storing a trimmed candidate stamped with the current clock keeps every record valid, keys unique and the collection chronological |
| CommodityController.CreateTwiceConflicts | src/controllers/commodity.controller.ts:60-73 | after a create, any request with the same normalised metal, purity and unit answers 409 |
| CommodityController.PatchOverFields | src/controllers/commodity.controller.ts:132-137 | after the loop has visited some fields, the update holds exactly those visited fields the body defines, each with its coerced value |
| CommodityController.PatchOverSnoc | src/controllers/commodity.controller.ts:132-137 | visiting one more field adds exactly that field, coerced, when the body defines it, and changes nothing otherwise |
| CommodityController.PatchOf | src/controllers/commodity.controller.ts:130-137 | the update object built over the four allowed keys; `PatchOfFields`, `PatchIgnoresOtherKeys` and the loop of `CommodityStore.Update` (`BuildPatch`) state its content |
| CommodityController.PatchOfFields | src/controllers/commodity.controller.ts:130-137 | a field enters the update exactly when the body defines it; a non-finite value becomes 0 and a finite one is kept |
| CommodityController.PatchIgnoresOtherKeys | src/controllers/commodity.controller.ts:130-137 | bodies agreeing on the four allowed keys give the same update |
| CommodityController.BuildPatch | src/controllers/commodity.controller.ts:130-137 | the loop over `allowed` builds exactly the update record |
| CommodityController.UpdateStep | src/controllers/commodity.controller.ts:126-181 | `updateCommodity`: 500 without an identity, 400 for an empty patch, 500 for a negative value, 404 unless the caller owns the id, else the patched record with 200; `EmptyPatchIgnoresId`, `NegativePatchFails`, `UpdateFrame`, `UpdateForeignRecord` and `UpdateKeepsInvariant` state its behaviour |
| CommodityController.EmptyPatchIgnoresId | src/controllers/commodity.controller.ts:139-145 | with no allowed field the answer is 400 whichever id is named, and nothing changes |
| CommodityController.NegativePatchFails | src/controllers/commodity.controller.ts:147-151 | a negative value fails the update validators: 500, and nothing changes |
| CommodityController.UpdateIgnoresOtherKeys | src/controllers/commodity.controller.ts:130-137 | body keys other than the four allowed ones have no effect on the update |
| CommodityController.UpdateFrame | src/controllers/commodity.controller.ts:147-173 | a 200 changes one record, the caller's with that id: only the patched prices change, every other field and record is as it was, and the response shows the new record |
| CommodityController.UpdateForeignRecord | src/controllers/commodity.controller.ts:153-159 | a record owned by someone else answers 404 and is untouched |
| CommodityController.UpdateKeepsInvariant | src/models/Commodity.ts:44-59 | update keeps the collection invariant |
| CommodityController.DeleteStep | src/controllers/commodity.controller.ts:184-209 | `deleteCommodity`: 500 without an identity, 404 unless the caller owns the id, else the record is removed with 200; `DeleteOutcome`, `DeleteForeignRecord` and `DeleteKeepsInvariant` state its behaviour |
| CommodityController.DeleteOutcome | src/controllers/commodity.controller.ts:184-201 | only a 200 changes the collection: it removes exactly the caller's record with that id, keeping the other records in order |
| CommodityController.DeleteForeignRecord | src/controllers/commodity.controller.ts:188-196 | a record owned by someone else answers 404 and nothing changes |
| CommodityController.DeleteKeepsInvariant | src/models/Commodity.ts:56-59 | delete keeps the collection invariant |
| CommodityController.CommodityStore.Create | src/controllers/commodity.controller.ts:42-123 | performs the create step on the collection and keeps its invariant |
| CommodityController.CommodityStore.Update | src/controllers/commodity.controller.ts:126-181 | builds the update with the loop, performs the update step, and keeps the invariant |
| CommodityController.CommodityStore.Delete | src/controllers/commodity.controller.ts:184-209 | performs the delete step and keeps the invariant |
| SpotRateSettings.SpreadFieldsComplete | src/models/SpotRateSettings.ts:21-24 | the four spreads are every field there is |
| SpotRateSettings.Merged | src/controllers/spotrate.controller.ts:21-28 | each spread is the stored value when there is one and otherwise its own default, independently of the others |
| SpotRateSettings.MergedEmptyIsDefault | src/controllers/spotrate.controller.ts:5-10 | an empty or all-default record reads as exactly `{0, 0.5, 0, 0.05}` |
| SpotRateSettings.Upserted | src/controllers/spotrate.controller.ts:50-54 | the patched fields take the new values; the others keep the record's values, or the schema defaults when the record is new |
| SpotRateSettings.UpsertIdempotent | src/controllers/spotrate.controller.ts:50-54 | upserting the same patch twice gives the record of upserting it once |
| SpotRateController.GetSettings | src/controllers/spotrate.controller.ts:12-34 | `getSpotRateSettings`: 401 without an id, else the caller's record merged over the defaults; `GetSettingsFallback` and `UpdateThenGet` state it |
| SpotRateController.UpdateSettingsStep | src/controllers/spotrate.controller.ts:36-69 | `updateSpotRateSettings`: 401 without an id, else the number fields upserted into the caller's record and the merged record returned; `UpdateSettingsOutcome`, `UpdateSettingsIdempotent`, `UpdateThenGet` and `UpdateSettingsKeepsInvariant` state its behaviour |
| SpotRateController.GetSettingsFallback | src/controllers/spotrate.controller.ts:19-28 | without a record, exactly the defaults; with one, each field stored or defaulted independently |
| SpotRateController.NumberFieldsOnly | src/controllers/spotrate.controller.ts:43-48 | a field enters the update exactly when its body value is a number, unchanged; other types are dropped, not coerced |
| SpotRateController.BuildSpreadUpdate | src/controllers/spotrate.controller.ts:44-48 | the four `typeof` assignments build exactly the number fields |
| SpotRateController.UnauthorizedTouchesNothing | src/controllers/spotrate.controller.ts:14-18 | without an id both handlers answer 401 and nothing changes |
| SpotRateController.UpdateSettingsOutcome | src/controllers/spotrate.controller.ts:36-64 | only the caller's record is written: number fields take their values, other fields keep their prior values or the defaults, and other users' records are unchanged |
| SpotRateController.UpdateThenGet | src/controllers/spotrate.controller.ts:12-64 | the update answers with what a read right after it returns |
| SpotRateController.UpdateSettingsIdempotent | src/controllers/spotrate.controller.ts:50-54 | sending the same update twice leaves the collection and the answer as sending it once |
| SpotRateController.UpdateSettingsKeepsInvariant | src/models/SpotRateSettings.ts:14-20 | the collection's keys stay trimmed |
| SpotRateController.SpotRateStore.UpdateSettings | src/controllers/spotrate.controller.ts:36-69 | performs the update step on the collection and keeps its keys trimmed |
| TemplateConfig.KeyOf | src/models/TemplateConfig.ts:13-24 | both parts of the key are trimmed |
| TemplateConfig.DefaultConfig | src/controllers/templateConfig.controller.ts:24-33 | the default is a truthy object whose `templateId` is the requested id |
| TemplateConfig.DefaultsDifferOnlyInTemplateId | src/controllers/templateConfig.controller.ts:24-33 | all defaults agree on every field except `templateId` |
| TemplateConfigController.GetConfig | src/controllers/templateConfig.controller.ts:5-41 | 401 exactly when no id is attached, and never the 400 of the upsert |
| TemplateConfigController.GetWithoutRecordIsDefault | src/controllers/templateConfig.controller.ts:18-33 | with nothing stored the answer is the fixed default carrying the requested `templateId` |
| TemplateConfigController.UpsertConfigStep | src/controllers/templateConfig.controller.ts:43-81 | `upsertTemplateConfig`: 401 without an id, 400 for a falsy config, else the config replaced under the trimmed key and returned; `UpsertUnauthorizedFirst`, `UpsertNeedsConfig`, `UpsertReplaces`, `GetAfterUpsert` and `UpsertKeepsInvariant` state its behaviour |
| TemplateConfigController.UpsertUnauthorizedFirst | src/controllers/templateConfig.controller.ts:52-63 | without an id both handlers answer 401, even when the config is missing too, and nothing changes |
| TemplateConfigController.UpsertNeedsConfig | src/controllers/templateConfig.controller.ts:57-63 | 400 with nothing changed exactly when `config` is falsy; an empty object is saved |
| TemplateConfigController.UpsertReplaces | src/controllers/templateConfig.controller.ts:65-74 | the whole configuration under the caller's key is replaced and returned; every other key is unchanged |
| TemplateConfigController.GetAfterUpsert | src/controllers/templateConfig.controller.ts:18-23 | a read after a save, for the same user and a template id trimming to the same one, returns exactly what was saved |
| TemplateConfigController.UpsertKeepsInvariant | src/models/TemplateConfig.ts:13-33 | stored configurations stay truthy and keys stay trimmed |
| TemplateConfigController.StoredConfigIsRead | src/controllers/templateConfig.controller.ts:18-23 | in a valid collection a stored configuration is always what a read returns |
| TemplateConfigController.TemplateConfigStore.UpsertConfig | src/controllers/templateConfig.controller.ts:43-81 | performs the upsert step on the collection and keeps its invariant |

## Left out

- Cryptography. Bcrypt hashing and comparison and JWT signing and verification are uninterpreted functions: `Crypto(hash, compare, sign)` and the verifier `string -> Option<Claims>`. Nothing in the model depends on what they compute. The one property assumed, that `compare(p, hash(p))` holds, is the precondition `HashSound` of `RegisterThenLogin`. Token expiry and the configured secret lie inside the verifier.
- Database internals. The following are not modelled:
  - apart from the setters above: query execution, `.lean()` and `.select()`;
  - connection handling: `src/config/db.ts` is not part of this model;
  - ObjectId casting. Commodity ids are natural numbers, so a malformed `:id` that fails with a cast error (500) has no counterpart. Account ids are strings; the one register assigns is the parameter `newId` of `RegisterStep`.
- Store failures other than the unique-index violation on create. The catch-all 500 paths are left out, as are the exceptions forwarded from `findOne`, `findById` and `create` in the auth handlers. These include "Failed to fetch commodities", "Failed to create commodity" for a fault that is neither a duplicate key nor a validation error, "Failed to update commodity", "Failed to delete commodity", "Failed to fetch settings", "Failed to update settings", "Failed to load template config" and "Failed to save template config". They depend on the database, not on the request.
- Concurrency. Each handler is one atomic step. A race between the duplicate pre-check and the insert appears only as the `DuplicateKey` store fault.
- Timestamps. `createdAt` is the collection's counter and strictly increases, so the model does not say how records with equal timestamps are listed. `updatedAt` is not modelled.
- Floating point. Prices and spreads are exact reals, so rounding to the nearest double and the overflow of a large exponent (`"1e400"` is `Infinity` in JavaScript) are not modelled. `String(x)` writes plain decimal notation, so it never produces exponent notation. `Number(x)` reads decimal numerals with an optional exponent (`1e3`, `2.5E-1`) and `Infinity`, but not hex, octal or binary literals. No arithmetic is performed on these values.
- Unicode case mapping. `toUpperCase()` and `toLowerCase()` map the ASCII letters only.
- Request shape. `req.body` is a JSON object, `map<string, JsValue>`; a body that is not an object is not modelled. The response envelope (`success`, the exact JSON layout) is summarised by the status and the response's payload. The registration 409 carries the fixed message `EmailTakenMessage`.
- Validation messages. Mongoose's text for a validation error is summarised by the set of failing schema paths (`ValidationErrors`).
- `getMe`: the 404 "User not found" text is implied by `AccountNotFound`, not carried as a string.
- Logging (`console.error`), the server bootstrap, CORS and the route files, apart from the note on `src/routes/index.ts` above.
- Template `userId` and `templateId` required validators: the upsert has `runValidators: false`, so they never fire there. The only other writer would be a direct insert, which no handler performs.
