// The interface's message lookup: the language stored in the browser, and
// `t(key)`, which falls back from that language to English to the key.

module I18n {
  import opened Wrappers

  /** The two message tables; a key that is absent is `undefined`. */
  datatype Catalogue = Catalogue(es: map<string, string>, en: map<string, string>)

  /** `getLang()`: the stored language when it is "es" or "en", English for
    * anything else, for nothing stored and for a page without `window`
    * (each of those is `saved == None` here). */
  function GetLang(saved: Option<string>): (lang: string)
    ensures lang == "es" || lang == "en"
    ensures lang == "es" <==> saved == Some("es")
  {
    if saved == Some("es") || saved == Some("en") then saved.value else "en"
  }

  /** The table of a supported language. */
  function Table(cat: Catalogue, lang: string): map<string, string> {
    if lang == "es" then cat.es else cat.en
  }

  /** The members every object literal inherits from `Object.prototype`.
    * Each is truthy: a function, or the prototype itself for `__proto__`. */
  const InheritedMembers: set<string> := {
    "constructor", "hasOwnProperty", "isPrototypeOf", "propertyIsEnumerable",
    "toLocaleString", "toString", "valueOf", "__proto__", "__defineGetter__",
    "__defineSetter__", "__lookupGetter__", "__lookupSetter__"}

  /** What `table[key]` yields: an own message, a member inherited from
    * `Object.prototype`, or `undefined`. */
  datatype Value = Own(text: string) | Inherited(name: string) | Undefined

  /** `table[key]` on a message table written as an object literal. */
  function Lookup(table: map<string, string>, key: string): (v: Value)
    ensures key in table ==> v == Own(table[key])
    ensures key !in table ==> (v.Inherited? <==> key in InheritedMembers)
    ensures v.Inherited? ==> v.name == key
  {
    if key in table then Own(table[key])
    else if key in InheritedMembers then Inherited(key)
    else Undefined
  }

  /** `table[key]` when it is truthy: a non-empty own message or an
    * inherited member. */
  function Message(table: map<string, string>, key: string): (r: Option<Value>)
    ensures r.Some? <==> (key in table && table[key] != "") || (key !in table && key in InheritedMembers)
    ensures r.Some? && key in table ==> r.value == Own(table[key])
    ensures r.Some? && key !in table ==> r.value == Inherited(key)
  {
    match Lookup(table, key)
    case Own(m) => if m != "" then Some(Own(m)) else None
    case Inherited(k) => Some(Inherited(k))
    case Undefined => None
  }

  /** `t(key)`: the first truthy of the current language's entry, the
    * English entry and the key itself. */
  function T(cat: Catalogue, saved: Option<string>, key: string): (r: Value)
    ensures r == Own(key) || (key in cat.en && r == Own(cat.en[key])) ||
            (saved == Some("es") && key in cat.es && r == Own(cat.es[key])) ||
            (key in InheritedMembers && r == Inherited(key))
    ensures r.Inherited? ==> key in InheritedMembers &&
                             (key !in Table(cat, GetLang(saved)) || key !in cat.en)
    ensures r != Own("") || key == ""
    ensures !r.Undefined?
  {
    match Message(Table(cat, GetLang(saved)), key)
    case Some(m) => m
    case None => Message(cat.en, key).GetOr(Own(key))
  }

  /** A present, non-empty message of the current language wins. */
  lemma CurrentLanguageFirst(cat: Catalogue, saved: Option<string>, key: string)
    requires var table := Table(cat, GetLang(saved)); key in table && table[key] != ""
    ensures T(cat, saved, key) == Own(Table(cat, GetLang(saved))[key])
  {
  }

  /** A Spanish message that is missing or empty falls back to English,
    * unless a missing key names an inherited member, which is truthy and
    * shown instead. */
  lemma SpanishFallsBackToEnglish(cat: Catalogue, key: string)
    requires key !in cat.es || cat.es[key] == ""
    ensures T(cat, Some("es"), key) ==
            if key !in cat.es && key in InheritedMembers then Inherited(key) else T(cat, Some("en"), key)
  {
  }

  /** With no usable message in either language the key itself is shown,
    * unless the key names a member inherited from `Object.prototype` and
    * one of the tables lacks it. */
  lemma KeyShownWhenUntranslated(cat: Catalogue, saved: Option<string>, key: string)
    requires key !in cat.en || cat.en[key] == ""
    requires key !in cat.es || cat.es[key] == ""
    ensures T(cat, saved, key) ==
            if key in InheritedMembers && (key !in Table(cat, GetLang(saved)) || key !in cat.en)
            then Inherited(key) else Own(key)
  {
  }

  /** `t("constructor")` without such a message is the inherited `Object`
    * function, not the key. */
  lemma ConstructorIsInherited(cat: Catalogue, saved: Option<string>)
    requires "constructor" !in cat.en && "constructor" !in cat.es
    ensures T(cat, saved, "constructor") == Inherited("constructor")
  {
  }

  /** Every stored value other than "es" behaves like English. */
  lemma UnsupportedIsEnglish(cat: Catalogue, saved: Option<string>, key: string)
    requires saved != Some("es")
    ensures T(cat, saved, key) == T(cat, Some("en"), key)
  {
  }
}
