/**
 * Layer-key normalisation of layer_settings_util.cpp: the prefix and vendor
 * trimming and the keys under which a setting is looked up in a settings
 * file and in the environment.
 */
module Names {
  import opened Types
  import opened Text
  import Tokenizer

  /** The conventional start of a layer name. */
  const LayerPrefix: string := "VK_LAYER_"

  /** Environment-key prefix on Android, read from system properties. */
  const AndroidPrefix: string := "debug.vulkan."

  /** Environment-key prefix of the other platforms. */
  const EnvPrefix: string := "VK_"

  /** `TrimPrefix`: removes one leading "VK_LAYER_", or nothing when the key does not start with it. */
  function TrimPrefix(layerKey: string): (key: string)
    ensures if LayerPrefix <= layerKey then layerKey == LayerPrefix + key else key == layerKey
  {
    if LayerPrefix <= layerKey then layerKey[|LayerPrefix|..] else layerKey
  }

  /**
   * `TrimVendor`: after `TrimPrefix`, drops everything up to and including
   * the first '_'; without a '_' the prefix-stripped key is returned whole.
   */
  function TrimVendor(layerKey: string): (key: string)
    ensures var ns := TrimPrefix(layerKey);
      if '_' in ns then exists i :: 0 <= i < |ns| && ns == ns[..i] + "_" + key && '_' !in ns[..i]
      else key == ns
  {
    var ns := TrimPrefix(layerKey);
    var i := Tokenizer.Find(ns, '_', 0);
    if i == |ns| then ns
    else
      assert ns == ns[..i] + "_" + ns[i + 1..];
      ns[i + 1..]
  }

  /**
   * The debug-build assertion in `TrimVendor`: some character other than
   * '_' stands at or after the first '_' of the prefix-stripped key.
   */
  ghost predicate VendorAssertionHolds(layerKey: string)
  {
    var ns := TrimPrefix(layerKey);
    var i := Tokenizer.Find(ns, '_', 0);
    i < |ns| ==> exists j :: i <= j < |ns| && ns[j] != '_'
  }

  /** Prefix trimming happens once: a doubled prefix loses only its first copy. */
  lemma {:induction false} TrimPrefixOnce(name: string)
    ensures TrimPrefix(LayerPrefix + name) == name
    ensures TrimPrefix(LayerPrefix + LayerPrefix + name) == LayerPrefix + name
  {
    assert LayerPrefix <= LayerPrefix + name;
    assert LayerPrefix <= LayerPrefix + LayerPrefix + name;
  }

  /** A layer key that does not start with the prefix is left alone. */
  lemma {:induction false} TrimPrefixOther(layerKey: string)
    requires !(LayerPrefix <= layerKey)
    ensures TrimPrefix(layerKey) == layerKey && TrimVendor(layerKey) == TrimVendor(LayerPrefix + layerKey)
  {
    TrimPrefixOnce(layerKey);
  }

  /** Vendor trimming of "VK_LAYER_<vendor>_<rest>" with a '_'-free vendor gives <rest>. */
  lemma {:induction false} TrimVendorSegment(vendor: string, rest: string)
    requires '_' !in vendor
    ensures TrimVendor(LayerPrefix + vendor + "_" + rest) == rest
  {
    var ns := vendor + "_" + rest;
    assert LayerPrefix + vendor + "_" + rest == LayerPrefix + ns;
    TrimPrefixOnce(ns);
    assert ns[|vendor|] == '_';
    assert forall k :: 0 <= k < |vendor| ==> ns[k] == vendor[k];
    assert Tokenizer.Find(ns, '_', 0) == |vendor|;
    assert ns[|vendor| + 1..] == rest;
  }

  /** Without a '_' after the prefix there is no vendor segment and the key is kept whole. */
  lemma {:induction false} TrimVendorNoSeparator(name: string)
    requires '_' !in name
    ensures TrimVendor(LayerPrefix + name) == name
  {
    TrimPrefixOnce(name);
  }

  /**
   * When the prefix-stripped key has a '_', the debug assertion of `TrimVendor`
   * holds exactly when the trimmed key holds a character other than '_'.
   */
  lemma {:induction false} VendorAssertionMeaning(layerKey: string)
    requires '_' in TrimPrefix(layerKey)
    ensures VendorAssertionHolds(layerKey) <==> exists j :: 0 <= j < |TrimVendor(layerKey)| && TrimVendor(layerKey)[j] != '_'
  {
    var ns := TrimPrefix(layerKey);
    var i := Tokenizer.Find(ns, '_', 0);
    var key := TrimVendor(layerKey);
    assert i < |ns| && ns[i] == '_';
    assert key == ns[i + 1..];
    if VendorAssertionHolds(layerKey) {
      var j :| i <= j < |ns| && ns[j] != '_';
      assert key[j - i - 1] == ns[j];
    }
    if exists j :: 0 <= j < |key| && key[j] != '_' {
      var j :| 0 <= j < |key| && key[j] != '_';
      assert ns[i + 1 + j] == key[j];
    }
  }

  /**
   * `GetFileSettingName`: "<lower-cased prefix-stripped layer>.<setting>".
   * The key ends with "." followed by the setting name as given, and the part
   * before it is in lower case.
   */
  function GetFileSettingName(layerName: string, settingName: string): (r: string)
    ensures var n := |r| - |settingName| - 1;
      0 <= n && r[n + 1..] == settingName && r[n] == '.' && LowerCase(r[..n]) == r[..n]
  {
    var low := LowerCase(TrimPrefix(layerName));
    LowerCaseIdempotent(TrimPrefix(layerName));
    var r := low + "." + settingName;
    assert r[..|low|] == low;
    assert r[|low| + 1..] == settingName;
    r
  }

  /** The file key of a prefixed layer name ignores the prefix and the case of the layer name. */
  lemma {:induction false} FileSettingNameOfPrefixed(name: string, settingName: string)
    ensures GetFileSettingName(LayerPrefix + name, settingName) == LowerCase(name) + "." + settingName
    ensures GetFileSettingName(LayerPrefix + UpperCase(name), settingName) == GetFileSettingName(LayerPrefix + name, settingName)
  {
    TrimPrefixOnce(name);
    TrimPrefixOnce(UpperCase(name));
    CaseAbsorbs(name);
  }

  /** `r` starts with `prefix` and ends, past it, with `key`. */
  predicate Framed(prefix: string, r: string, key: string)
  {
    prefix <= r && |key| < |r| && r[|r| - |key|..] == key
  }

  /** Appending a key to a string that starts with a non-empty prefix frames the key. */
  lemma {:induction false} FramedAppend(prefix: string, head: string, key: string)
    requires |prefix| > 0 && prefix <= head
    ensures Framed(prefix, head + key, key)
  {
    var r := head + key;
    assert r[..|prefix|] == head[..|prefix|];
    assert r[|r| - |key|..] == key;
  }

  /**
   * `GetEnvSettingName`: the environment key of a setting, per platform and
   * trim mode. On Android it starts with "debug.vulkan." and ends with the
   * setting key in its own case; elsewhere it starts with "VK_" and ends with
   * the upper-cased setting key.
   */
  function GetEnvSettingName(os: Os, layerKey: string, settingKey: string, trimMode: TrimMode): (r: string)
    ensures os == Android ==> Framed(AndroidPrefix, r, settingKey)
    ensures os != Android ==> Framed(EnvPrefix, r, UpperCase(settingKey))
  {
    if os == Android then
      match trimMode
      case NoTrim =>
        AndroidFileKey(layerKey, settingKey);
        AndroidPrefix + GetFileSettingName(layerKey, settingKey)
      case VendorTrim =>
        AndroidFileKey(TrimVendor(layerKey), settingKey);
        AndroidPrefix + GetFileSettingName(TrimVendor(layerKey), settingKey)
      case NamespaceTrim =>
        FramedAppend(AndroidPrefix, AndroidPrefix, settingKey);
        AndroidPrefix + settingKey
    else
      match trimMode
      case NoTrim =>
        FramedAppend(EnvPrefix, EnvPrefix + UpperCase(TrimPrefix(layerKey)) + "_", UpperCase(settingKey));
        EnvPrefix + UpperCase(TrimPrefix(layerKey)) + "_" + UpperCase(settingKey)
      case VendorTrim =>
        FramedAppend(EnvPrefix, EnvPrefix + UpperCase(TrimVendor(layerKey)) + "_", UpperCase(settingKey));
        EnvPrefix + UpperCase(TrimVendor(layerKey)) + "_" + UpperCase(settingKey)
      case NamespaceTrim =>
        FramedAppend(EnvPrefix, EnvPrefix, UpperCase(settingKey));
        EnvPrefix + UpperCase(settingKey)
  }

  /** Outside Android the environment key starts with "VK_" and is entirely in upper case. */
  lemma {:induction false} EnvSettingNameUpper(os: Os, layerKey: string, settingKey: string, trimMode: TrimMode)
    requires os != Android
    ensures var r := GetEnvSettingName(os, layerKey, settingKey, trimMode);
      EnvPrefix <= r && UpperCase(r) == r
  {
    var r := GetEnvSettingName(os, layerKey, settingKey, trimMode);
    UpperCaseIdempotent(settingKey);
    UpperCaseIdempotent(TrimPrefix(layerKey));
    UpperCaseIdempotent(TrimVendor(layerKey));
    assert UpperCase(EnvPrefix) == EnvPrefix;
    assert UpperCase("_") == "_";
    match trimMode
    case NoTrim =>
      var l := UpperCase(TrimPrefix(layerKey));
      UpperCaseAppend(EnvPrefix, l);
      UpperCaseAppend(EnvPrefix + l, "_");
      UpperCaseAppend(EnvPrefix + l + "_", UpperCase(settingKey));
    case VendorTrim =>
      var l := UpperCase(TrimVendor(layerKey));
      UpperCaseAppend(EnvPrefix, l);
      UpperCaseAppend(EnvPrefix + l, "_");
      UpperCaseAppend(EnvPrefix + l + "_", UpperCase(settingKey));
    case NamespaceTrim =>
      UpperCaseAppend(EnvPrefix, UpperCase(settingKey));
  }

  /** "debug.vulkan." followed by a file key starts with the prefix and ends with the setting key. */
  lemma {:induction false} AndroidFileKey(layerName: string, settingKey: string)
    ensures Framed(AndroidPrefix, AndroidPrefix + GetFileSettingName(layerName, settingKey), settingKey)
  {
    var f := GetFileSettingName(layerName, settingKey);
    var r := AndroidPrefix + f;
    assert r[|r| - |settingKey|..] == f[|f| - |settingKey|..];
  }

  /** Under namespace trimming the environment key does not depend on the layer at all. */
  lemma {:induction false} EnvSettingNameNamespace(os: Os, layerA: string, layerB: string, settingKey: string)
    ensures GetEnvSettingName(os, layerA, settingKey, NamespaceTrim) == GetEnvSettingName(os, layerB, settingKey, NamespaceTrim)
    ensures GetEnvSettingName(os, layerA, settingKey, NamespaceTrim)
      == (if os == Android then AndroidPrefix + settingKey else EnvPrefix + UpperCase(settingKey))
  {
  }
}
