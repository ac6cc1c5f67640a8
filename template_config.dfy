/** The template configuration schema: one opaque configuration per (userId,
    templateId), both trimmed, and the default a template reads as before it is
    saved. */
module TemplateConfig {
  import opened JsText
  import opened JsValues

  /** The unique index's key, after the `trim` setters on both parts. */
  type ConfigKey = (string, string)

  function KeyOf(userId: string, templateId: string): (k: ConfigKey)
    ensures IsTrimmed(k.0) && IsTrimmed(k.1)
  {
    (Trim(userId), Trim(templateId))
  }

  /** The collection: at most one configuration per key, since it is a map. `config`
      is required, and the handler stores only truthy values. */
  type ConfigStore = map<ConfigKey, JsValue>

  predicate StoreInvariant(configs: ConfigStore) {
    forall k :: k in configs ==> IsTrimmed(k.0) && IsTrimmed(k.1) && Truthy(configs[k])
  }

  /** `{ key, enabled: true }` */
  function Element(key: string): JsValue {
    Obj(map["key" := Str(key), "enabled" := Bool(true)])
  }

  /** The configuration of a template that has none stored, stamped with the requested
      template id. */
  function DefaultConfig(templateId: string): (c: JsValue)
    ensures c.Obj? && Truthy(c)
    ensures Lookup(c.fields, "templateId") == Str(templateId)
  {
    Obj(map[
      "templateId" := Str(templateId),
      "backgroundColor" := Str("#0b1120"),
      "textColor" := Str("#ffffff"),
      "fontFamily" := Str("Inter"),
      "elements" := Arr([Element("spotRate"), Element("commodities")])])
  }

  /** Every default is the same apart from its template id. */
  lemma DefaultsDifferOnlyInTemplateId(a: string, b: string)
    ensures DefaultConfig(a).fields - {"templateId"} == DefaultConfig(b).fields - {"templateId"}
    ensures DefaultConfig(a).fields.Keys == DefaultConfig(b).fields.Keys
  {
  }
}
