/**
 * The built-in label table `DEFAULT_DOC_CONFIG` of lib/config.js: two locales,
 * each with the sentence that introduces an object's fields and the labels of
 * the bullet lines of a property block.
 */
module Config {
  import opened JsValues

  const ZhCN: Value := Obj([
    ("objectFieldsDesc", Str("其中，各个字段的含义如下：")),
    ("props", Obj([("type", Str("类型")), ("description", Str("描述")), ("level", Str("级别"))]))
  ])

  const EnUS: Value := Obj([
    ("objectFieldsDesc", Str("The meaning of each field is as follows:")),
    ("props", Obj([("type", Str("Type")), ("description", Str("Description")), ("level", Str("level"))]))
  ])

  const DefaultDocConfig: Value := Obj([("locales", Obj([("zh-CN", ZhCN), ("en-US", EnUS)]))])

  /** The table has one entry, `locales`, listing `zh-CN` and then `en-US`. */
  lemma {:induction false} ExactlyTwoLocales()
    ensures Keys(DefaultDocConfig.fields) == ["locales"]
    ensures var locales := Index(DefaultDocConfig, "locales");
      locales.Obj? && Keys(locales.fields) == ["zh-CN", "en-US"] &&
      Index(locales, "zh-CN") == ZhCN && Index(locales, "en-US") == EnUS
  {
    var locales := Index(DefaultDocConfig, "locales");
    assert locales.fields[0].0 != "en-US";
    assert locales.fields[1..] == [("en-US", EnUS)];
    assert Get(locales.fields, "en-US") == Get([("en-US", EnUS)], "en-US");
  }

  /** Each built-in locale's table is an object with a `props` object. */
  lemma {:induction false} BuiltinLocaleShape(locale: string)
    requires locale == "zh-CN" || locale == "en-US"
    ensures var builtin := Index(Index(DefaultDocConfig, "locales"), locale);
      builtin.Obj? && Index(builtin, "props").Obj?
  {
    ExactlyTwoLocales();
    LocaleShape(Index(Index(DefaultDocConfig, "locales"), locale));
  }

  /** Every locale has the introduction sentence and exactly the labels `type`, `description`, `level`. */
  lemma {:induction false} LocaleShape(locale: Value)
    requires locale == ZhCN || locale == EnUS
    ensures locale.Obj? && Keys(locale.fields) == ["objectFieldsDesc", "props"]
    ensures Index(locale, "objectFieldsDesc").Str?
    ensures var props := Index(locale, "props");
      props.Obj? && Keys(props.fields) == ["type", "description", "level"] &&
      forall i :: 0 <= i < |props.fields| ==> props.fields[i].1.Str?
  {
  }

  /** The Chinese labels. */
  lemma {:induction false} ZhCNLabels()
    ensures Index(Index(ZhCN, "props"), "type") == Str("类型")
    ensures Index(Index(ZhCN, "props"), "description") == Str("描述")
    ensures Index(Index(ZhCN, "props"), "level") == Str("级别")
  {
  }

  /** A key other than the three labels is `undefined` in the Chinese `props` table. */
  lemma {:induction false} ZhCNLacks(k: string)
    requires k != "type" && k != "description" && k != "level"
    ensures Index(Index(ZhCN, "props"), k) == Undef
  {
    var props := Index(ZhCN, "props");
    assert props.fields[1..][1..][1..] == [];
  }

  /** A key other than the three labels is `undefined` in the English `props` table. */
  lemma {:induction false} EnUSLacks(k: string)
    requires k != "type" && k != "description" && k != "level"
    ensures Index(Index(EnUS, "props"), k) == Undef
  {
    var props := Index(EnUS, "props");
    assert props.fields[1..][1..][1..] == [];
  }

  /** The English labels; `level` is the one written in lower case. */
  lemma {:induction false} EnUSLabels()
    ensures Index(Index(EnUS, "props"), "type") == Str("Type")
    ensures Index(Index(EnUS, "props"), "description") == Str("Description")
    ensures Index(Index(EnUS, "props"), "level") == Str("level")
  {
  }
}
