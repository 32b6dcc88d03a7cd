/** Translation tables of the admin UI (`formatTranslationMessages`).

    A table maps message ids to message texts. Tables are built per locale;
    for a locale other than the default, a message left empty falls back to
    the English table. The default locale is Vietnamese, yet the fallback
    table is built from the English messages.
 */
module Translations {

  /** A message value: a text, or `undefined` when a fallback lookup finds
      no entry for the id. */
  datatype Message = Undefined | Text(text: string)

  type Table = map<string, Message>

  const DefaultLocale: string := "vi"

  /** JavaScript truthiness of a message: a non-empty text. */
  predicate Truthy(m: Message) {
    m.Text? && m.text != ""
  }

  /** `table[key]`, which is `undefined` for a missing id. */
  function Lookup(table: Table, key: string): Message {
    if key in table then table[key] else Undefined
  }

  /** The table used for `locale`, built from `messages`, with `english` the
      English table. For a locale other than the default the fallback table
      is this same function applied to the default locale and the English
      messages. */
  function FormatTranslationMessages(locale: string, messages: Table, english: Table): (r: Table)
    ensures r.Keys == messages.Keys
    ensures locale == DefaultLocale ==> r == messages
    ensures locale != DefaultLocale ==>
              forall k :: k in messages && Truthy(messages[k]) ==> r[k] == messages[k]
    ensures locale != DefaultLocale ==>
              forall k :: k in messages && !Truthy(messages[k]) ==> r[k] == Lookup(english, k)
    decreases if locale == DefaultLocale then 0 else 1
  {
    var defaultFormattedMessages :=
      if locale != DefaultLocale then FormatTranslationMessages(DefaultLocale, english, english) else map[];
    map key | key in messages ::
      if !Truthy(messages[key]) && locale != DefaultLocale then Lookup(defaultFormattedMessages, key)
      else messages[key]
  }

  /** Formatting a table a second time for the same locale changes nothing. */
  lemma FormatIsIdempotent(locale: string, messages: Table, english: Table)
    ensures var once := FormatTranslationMessages(locale, messages, english);
            FormatTranslationMessages(locale, once, english) == once
  {
    var once := FormatTranslationMessages(locale, messages, english);
    var twice := FormatTranslationMessages(locale, once, english);
    if locale != DefaultLocale {
      forall k | k in once
        ensures twice[k] == once[k]
      {
        if !Truthy(messages[k]) && !Truthy(once[k]) {
          assert once[k] == Lookup(english, k);
        }
      }
    }
  }
}
