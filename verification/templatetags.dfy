/**
 * lbutils/templatetags/lbutils.py: the `get_setting` template tag, which
 * reads a Django setting (with a default that may itself name a setting) and
 * either returns it or stores it in the template context. The settings
 * module is a mapping from attribute names to values.
 */
module TemplateTags {
  import opened Strings
  import opened Python

  /** The marker that makes a default name another setting. */
  const SettingRefPrefix: string := "$."

  /** The default after the `$.` step: a default whose text starts with `$.`
      is replaced by the setting named by the rest of it, which must exist.
      Slicing is modelled for strings only; any other object whose text starts
      with `$.` cannot be sliced. */
  function ResolveDefault(settings: map<string, Value>, defaultVal: Value): (r: Result<Value>)
    ensures !StartsWith(ToStr(defaultVal), SettingRefPrefix) ==> r == Ok(defaultVal)
    ensures StartsWith(ToStr(defaultVal), SettingRefPrefix) && defaultVal.Str? ==>
              var name := defaultVal.s[|SettingRefPrefix|..];
              && (name in settings ==> r == Ok(settings[name]))
              && (name !in settings ==> r == Raised(AttributeError))
    ensures StartsWith(ToStr(defaultVal), SettingRefPrefix) && !defaultVal.Str? ==> r == Raised(TypeError)
  {
    if !StartsWith(ToStr(defaultVal), SettingRefPrefix) then Ok(defaultVal)
    else if !defaultVal.Str? then Raised(TypeError)
    else
      var name := defaultVal.s[2..];
      if name in settings then Ok(settings[name]) else Raised(AttributeError)
  }

  /** `getattr(settings, key, default_val)` after the `$.` step: the setting
      when it exists, the resolved default otherwise; but the default is
      resolved first, so a failing `$.` reference raises even when `key`
      exists. */
  function SettingValue(settings: map<string, Value>, key: string, defaultVal: Value): (r: Result<Value>)
    ensures ResolveDefault(settings, defaultVal).Raised? ==> r == ResolveDefault(settings, defaultVal)
    ensures ResolveDefault(settings, defaultVal).Ok? && key in settings ==> r == Ok(settings[key])
    ensures ResolveDefault(settings, defaultVal).Ok? && key !in settings ==> r == ResolveDefault(settings, defaultVal)
  {
    match ResolveDefault(settings, defaultVal)
    case Raised(e) => Raised(e)
    case Ok(d) => if key in settings then Ok(settings[key]) else Ok(d)
  }

  /** Only a string or an opaque object can have text starting with `$.`:
      `None`, booleans, numbers and lists never trigger the lookup. */
  lemma SettingRefOnlyFromText(v: Value)
    ensures StartsWith(ToStr(v), SettingRefPrefix) ==> v.Str? || v.Obj?
  {
    match v
    case NoneVal =>
      assert ToStr(v)[0] == 'N';
    case Bool(b) =>
      assert ToStr(v)[0] == if b then 'T' else 'F';
    case Int(i) =>
      if i < 0 {
        assert ToStr(v)[0] == '-';
      } else {
        assert IsDigits(NatToString(i));
        assert ToStr(v)[0] == NatToString(i)[0];
      }
    case List(items) =>
      assert ToStr(v)[0] == '[';
    case Str(_) =>
    case Obj(_) =>
  }

  /** The failure case the eager lookup gives: a `$.` default naming a missing
      setting raises even though the setting `key` itself exists. */
  lemma MissingReferenceRaisesEvenWhenKeyExists(settings: map<string, Value>, key: string, missing: string)
    requires key in settings && missing !in settings
    ensures SettingValue(settings, key, Str(SettingRefPrefix + missing)) == Raised(AttributeError)
  {
    var d := SettingRefPrefix + missing;
    assert StartsWith(d, SettingRefPrefix);
    assert d[2..] == missing;
  }

  /** A default naming an existing setting stands in for a missing `key`. */
  lemma ReferenceStandsIn(settings: map<string, Value>, key: string, name: string)
    requires key !in settings && name in settings
    ensures SettingValue(settings, key, Str(SettingRefPrefix + name)) == Ok(settings[name])
  {
    var d := SettingRefPrefix + name;
    assert StartsWith(d, SettingRefPrefix);
    assert d[2..] == name;
  }

  /** The template context: a mapping the tag may write into. */
  class Context {
    var vars: map<string, Value>

    constructor (vars0: map<string, Value>)
      ensures vars == vars0
    {
      vars := vars0;
    }
  }

  /** `{% get_setting key default_val as_key %}`. A falsy `as_key` (absent or
      empty) returns the value; otherwise the value is stored under `as_key`
      and the tag renders as `''`. A raised lookup leaves the context as it
      was. */
  method GetSetting(context: Context, settings: map<string, Value>, key: string, defaultVal: Value,
                    asKey: Option<string>)
    returns (r: Result<Value>)
    modifies context
    ensures SettingValue(settings, key, defaultVal).Raised? ==>
              r == SettingValue(settings, key, defaultVal) && context.vars == old(context.vars)
    ensures SettingValue(settings, key, defaultVal).Ok? && (asKey.None? || asKey.value == "") ==>
              r == SettingValue(settings, key, defaultVal) && context.vars == old(context.vars)
    ensures SettingValue(settings, key, defaultVal).Ok? && asKey.Some? && asKey.value != "" ==>
              r == Ok(Str("")) && context.vars == old(context.vars)[asKey.value := SettingValue(settings, key, defaultVal).value]
  {
    var d := defaultVal;
    if StartsWith(ToStr(defaultVal), SettingRefPrefix) {
      if !defaultVal.Str? {
        return Raised(TypeError);
      }
      var name := defaultVal.s[2..];
      if name !in settings {
        return Raised(AttributeError);
      }
      d := settings[name];
    }
    var val := if key in settings then settings[key] else d;
    if asKey.None? || asKey.value == "" {
      return Ok(val);
    }
    context.vars := context.vars[asKey.value := val];
    return Ok(Str(""));
  }
}
