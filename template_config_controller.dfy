/** The two template configuration handlers: read a template's configuration, falling
    back to the default, and replace it wholesale. */
module TemplateConfigController {
  import opened Wrappers
  import opened JsText
  import opened JsValues
  import opened AuthGate
  import opened TemplateConfig

  datatype ConfigResponse = ConfigUnauthorized | ConfigRequired | Config(data: JsValue) {
    function Status(): int {
      match this
      case ConfigUnauthorized => 401
      case ConfigRequired => 400
      case Config(_) => 200
    }

    function Message(): string {
      match this
      case ConfigUnauthorized => "Unauthorized"
      case ConfigRequired => "Config payload is required"
      case Config(_) => ""
    }
  }

  /** `getTemplateConfig`: the stored configuration (`doc?.config ?? default`), and the
      default stamped with the template id as requested when there is none. */
  function GetConfig(configs: ConfigStore, user: Option<Claims>, templateId: string): (r: ConfigResponse)
    ensures r == ConfigUnauthorized <==> ClaimedId(user).None?
    ensures r != ConfigRequired
  {
    match ClaimedId(user)
    case None => ConfigUnauthorized
    case Some(uid) =>
      var key := KeyOf(uid, templateId);
      if key in configs && !IsNullish(configs[key]) then Config(configs[key])
      else Config(DefaultConfig(templateId))
  }

  /** Before anything is saved for a template the caller reads the fixed default, with
      `templateId` set to the id requested. */
  lemma GetWithoutRecordIsDefault(configs: ConfigStore, user: Option<Claims>, templateId: string)
    requires ClaimedId(user).Some? && KeyOf(ClaimedId(user).value, templateId) !in configs
    ensures GetConfig(configs, user, templateId) == Config(DefaultConfig(templateId))
    ensures Lookup(GetConfig(configs, user, templateId).data.fields, "templateId") == Str(templateId)
  {
  }

  /** `upsertTemplateConfig`: 401 before anything else, 400 for a falsy `config`, and
      otherwise the whole stored configuration replaced by the body's `config`. */
  function UpsertConfigStep(configs: ConfigStore, user: Option<Claims>, templateId: string, body: JsObject)
    : Step<ConfigResponse, ConfigStore>
  {
    match ClaimedId(user)
    case None => Step(ConfigUnauthorized, configs)
    case Some(uid) =>
      var config := Lookup(body, "config");
      if !Truthy(config) then Step(ConfigRequired, configs)
      else Step(Config(config), configs[KeyOf(uid, templateId) := config])
  }

  /** Without an id the answer is 401, even when the config is missing too, and nothing
      changes. */
  lemma UpsertUnauthorizedFirst(configs: ConfigStore, user: Option<Claims>, templateId: string, body: JsObject)
    requires ClaimedId(user).None?
    ensures UpsertConfigStep(configs, user, templateId, body) == Step(ConfigUnauthorized, configs)
    ensures GetConfig(configs, user, templateId) == ConfigUnauthorized
  {
  }

  /** A falsy config (missing, null, false, 0, "") answers 400 and changes nothing; an
      empty object or array is truthy and is saved. */
  lemma UpsertNeedsConfig(configs: ConfigStore, user: Option<Claims>, templateId: string, body: JsObject)
    requires ClaimedId(user).Some?
    ensures !Truthy(Lookup(body, "config")) <==>
      UpsertConfigStep(configs, user, templateId, body) == Step(ConfigRequired, configs)
    ensures Lookup(body, "config") == Obj(map[]) ==>
      UpsertConfigStep(configs, user, templateId, body).response == Config(Obj(map[]))
  {
  }

  /** A save replaces the whole configuration under the caller's key and answers with it;
      every other key keeps its configuration. */
  lemma UpsertReplaces(configs: ConfigStore, user: Option<Claims>, templateId: string, body: JsObject)
    requires ClaimedId(user).Some? && Truthy(Lookup(body, "config"))
    ensures var s := UpsertConfigStep(configs, user, templateId, body);
      var key := KeyOf(ClaimedId(user).value, templateId);
      && s.response == Config(Lookup(body, "config"))
      && key in s.state && s.state[key] == Lookup(body, "config")
      && (forall k :: k != key ==> (k in s.state <==> k in configs) && (k in configs ==> s.state[k] == configs[k]))
  {
  }

  /** A read after a save, for the same user and a template id that trims to the same
      one, returns exactly the configuration that was saved. */
  lemma GetAfterUpsert(configs: ConfigStore, user: Option<Claims>, templateId: string, again: string, body: JsObject)
    requires UpsertConfigStep(configs, user, templateId, body).response.Config?
    requires Trim(again) == Trim(templateId)
    ensures var s := UpsertConfigStep(configs, user, templateId, body);
      GetConfig(s.state, user, again) == Config(Lookup(body, "config"))
  {
  }

  /** A save keeps every stored configuration truthy and every key trimmed. */
  lemma UpsertKeepsInvariant(configs: ConfigStore, user: Option<Claims>, templateId: string, body: JsObject)
    requires StoreInvariant(configs)
    ensures StoreInvariant(UpsertConfigStep(configs, user, templateId, body).state)
  {
  }

  /** In a valid collection a stored configuration is never nullish, so a read returns
      it whenever it exists. */
  lemma StoredConfigIsRead(configs: ConfigStore, user: Option<Claims>, templateId: string)
    requires StoreInvariant(configs) && ClaimedId(user).Some?
    requires KeyOf(ClaimedId(user).value, templateId) in configs
    ensures GetConfig(configs, user, templateId) == Config(configs[KeyOf(ClaimedId(user).value, templateId)])
  {
  }

  /** The configuration collection. Reads go through `GetConfig`. */
  class TemplateConfigStore {
    var configs: ConfigStore

    ghost predicate Valid()
      reads this
    {
      StoreInvariant(configs)
    }

    constructor ()
      ensures Valid() && configs == map[]
    {
      configs := map[];
    }

    method UpsertConfig(user: Option<Claims>, templateId: string, body: JsObject) returns (resp: ConfigResponse)
      requires Valid()
      modifies this
      ensures Valid()
      ensures Step(resp, configs) == UpsertConfigStep(old(configs), user, templateId, body)
    {
      ghost var before := configs;
      UpsertKeepsInvariant(before, user, templateId, body);
      var uid := ClaimedId(user);
      if uid.None? {
        return ConfigUnauthorized;
      }
      var config := Lookup(body, "config");
      if !Truthy(config) {
        return ConfigRequired;
      }
      configs := configs[KeyOf(uid.value, templateId) := config];
      resp := Config(config);
      assert UpsertConfigStep(before, user, templateId, body) == Step(resp, configs);
    }
  }
}
