/**
 * The layer-setting registry behind `vlInitLayerSettings`,
 * `vlHasLayerSetting` and `vlGetLayerSettingValues`, as
 * tests/layer/test_setting_api.cpp pins it down: a store of setting entries
 * by name answering presence queries and the two-call "query the size, then
 * fill" value query. The store is generic over the element type, so one
 * query serves booleans, integers, framesets and strings alike.
 */
module Registry {
  import opened Types

  /** `VkLayerSettingTypeEXT`. */
  datatype SettingType = BoolType | Int32Type | Int64Type | Uint32Type | Uint64Type
                       | FloatType | DoubleType | FramesetType | StringType

  /** `VkLayerSettingEXT`: one named setting of one layer and its values. */
  datatype LayerSetting<T> = LayerSetting(layerName: string, settingName: string, settingType: SettingType, values: seq<T>)

  /** `VkLayerSettingsCreateInfoEXT`: the entries the host hands to the layer. */
  datatype CreateInfo<T> = CreateInfo(settings: seq<LayerSetting<T>>)

  /** The `VkResult` codes of a value query. */
  datatype QueryResult = Success | Incomplete | NotFound

  /** The entries indexed by setting name; of several entries with one name the later one is kept. */
  function Ingest<T>(settings: seq<LayerSetting<T>>): (m: map<string, LayerSetting<T>>)
    ensures forall name :: name in m <==> exists i :: 0 <= i < |settings| && settings[i].settingName == name
    ensures forall name :: name in m ==> m[name].settingName == name
    decreases |settings|
  {
    if settings == [] then map[]
    else
      var last := settings[|settings| - 1];
      var m := Ingest(settings[..|settings| - 1])[last.settingName := last];
      assert forall i :: 0 <= i < |settings| - 1 ==> settings[..|settings| - 1][i] == settings[i];
      m
  }

  /** The entry kept for a name is the last entry with that name. */
  lemma {:induction false} IngestLastWins<T>(settings: seq<LayerSetting<T>>, j: nat)
    requires j < |settings|
    requires forall k :: j < k < |settings| ==> settings[k].settingName != settings[j].settingName
    ensures settings[j].settingName in Ingest(settings)
    ensures Ingest(settings)[settings[j].settingName] == settings[j]
    decreases |settings|
  {
    if j < |settings| - 1 {
      var init := settings[..|settings| - 1];
      assert init[j] == settings[j];
      assert forall k :: j < k < |init| ==> init[k] == settings[k];
      IngestLastWins(init, j);
    }
  }

  /** Every entry kept is one of the entries given, with its values untouched. */
  lemma {:induction false} IngestKeepsEntries<T>(settings: seq<LayerSetting<T>>, name: string)
    requires name in Ingest(settings)
    ensures exists i :: 0 <= i < |settings| && Ingest(settings)[name] == settings[i]
    decreases |settings|
  {
    var last := settings[|settings| - 1];
    var init := settings[..|settings| - 1];
    if name != last.settingName {
      IngestKeepsEntries(init, name);
      var i :| 0 <= i < |init| && Ingest(init)[name] == init[i];
      assert init[i] == settings[i];
    } else {
      assert Ingest(settings)[name] == settings[|settings| - 1];
    }
  }

  /** Every name some entry carries is stored. */
  lemma {:induction false} IngestNames<T>(settings: seq<LayerSetting<T>>, names: seq<string>)
    requires |settings| == |names|
    requires forall k :: 0 <= k < |names| ==> settings[k].settingName == names[k]
    ensures forall k :: 0 <= k < |names| ==> names[k] in Ingest(settings)
  {
    forall k | 0 <= k < |names| ensures names[k] in Ingest(settings) {
      assert settings[k].settingName == names[k];
    }
  }

  /** A name no entry carries is not stored. */
  lemma {:induction false} IngestLacks<T>(settings: seq<LayerSetting<T>>, name: string)
    requires forall k :: 0 <= k < |settings| ==> settings[k].settingName != name
    ensures name !in Ingest(settings)
  {
  }

  /** The registry of one layer: the layer name and the entries it was initialised with. */
  class SettingRegistry<T> {
    var layerName: string
    var settings: map<string, LayerSetting<T>>

    /** An uninitialised registry holds no setting. */
    constructor ()
      ensures layerName == [] && settings == map[]
    {
      layerName := [];
      settings := map[];
    }

    /**
     * `vlInitLayerSettings`: replaces the registry's contents with the
     * entries of the create info, or with nothing when there is none.
     */
    method Init(name: string, createInfo: Option<CreateInfo<T>>)
      modifies this
      ensures layerName == name
      ensures settings == match createInfo case None => map[] case Some(info) => Ingest(info.settings)
    {
      layerName := name;
      match createInfo
      case None => settings := map[];
      case Some(info) => settings := Ingest(info.settings);
    }

    /** `vlHasLayerSetting`: whether an entry of that name was supplied. */
    method HasSetting(name: string) returns (found: bool)
      ensures found <==> name in settings
    {
      found := name in settings;
    }

    /**
     * `vlGetLayerSettingValues`: without a buffer, reports the stored count;
     * with one, copies the stored values that fit into its prefix, reports
     * how many were copied and whether that was all of them. The declared
     * type is not checked against the stored one.
     */
    method GetValues(name: string, settingType: SettingType, valueCount: nat, values: array?<T>)
      returns (result: QueryResult, count: nat)
      requires values != null ==> valueCount <= values.Length
      modifies values
      ensures name !in settings ==> result == NotFound && count == valueCount
      ensures name !in settings && values != null ==> values[..] == old(values[..])
      ensures name in settings && values == null ==> result == Success && count == |settings[name].values|
      ensures name in settings && values != null ==>
        var stored := settings[name].values;
        count == (if valueCount < |stored| then valueCount else |stored|)
        && values[..count] == stored[..count]
        && values[count..] == old(values[count..])
        && (result == Incomplete <==> valueCount < |stored|)
        && (result == Success <==> |stored| <= valueCount)
    {
      if name !in settings {
        return NotFound, valueCount;
      }
      var stored := settings[name].values;
      if values == null {
        return Success, |stored|;
      }
      count := if valueCount < |stored| then valueCount else |stored|;
      forall i | 0 <= i < count {
        values[i] := stored[i];
      }
      result := if valueCount < |stored| then Incomplete else Success;
    }
  }

  /** After initialisation without a create info no setting is present (test lines 26-30). */
  method NotFoundAfterEmptyInit(name: string) returns (found: bool)
    ensures !found
  {
    var registry := new SettingRegistry<int>();
    registry.Init("VK_LAYER_LUNARG_test", None);
    found := registry.HasSetting(name);
  }

  /** The eight entries of the presence test are stored under their names, and `"setting0"` is not. */
  lemma {:induction false} PresenceStored<T>(entries: seq<LayerSetting<T>>, names: seq<string>)
    requires |entries| == |names| == 8
    requires forall k :: 0 <= k < 8 ==> entries[k].settingName == names[k] && |names[k]| >= 10
    ensures forall k :: 0 <= k < 8 ==> names[k] in Ingest(entries)
    ensures "setting0" !in Ingest(entries)
  {
    IngestNames(entries, names);
    IngestLacks(entries, "setting0");
  }

  /**
   * Every supplied name is present and `"setting0"`, not supplied, is not
   * (test lines 56-149). The registry holds one element type, so the float,
   * double and frameset entries carry a placeholder integer; presence does not
   * depend on the values.
   */
  method PresenceAfterInit() returns (absent: bool, present: seq<bool>)
    ensures !absent && present == [true, true, true, true, true, true, true, true]
  {
    var layer := "VK_LAYER_LUNARG_test";
    var names := ["bool_value", "int32_value", "int64_value", "uint32_value",
                  "uint64_value", "float_value", "double_value", "frameset_value"];
    var entries := [
      LayerSetting(layer, names[0], BoolType, [1]),
      LayerSetting(layer, names[1], Int32Type, [76]),
      LayerSetting(layer, names[2], Int64Type, [0x100_0000_0000]),
      LayerSetting(layer, names[3], Uint32Type, [76]),
      LayerSetting(layer, names[4], Uint64Type, [0x100_0000_0000]),
      LayerSetting(layer, names[5], FloatType, [0]),
      LayerSetting(layer, names[6], DoubleType, [0]),
      LayerSetting(layer, names[7], FramesetType, [0])];
    var registry := new SettingRegistry<int>();
    registry.Init(layer, Some(CreateInfo(entries)));
    PresenceStored(entries, names);
    absent := registry.HasSetting("setting0");
    var p0 := registry.HasSetting(names[0]);
    var p1 := registry.HasSetting(names[1]);
    var p2 := registry.HasSetting(names[2]);
    var p3 := registry.HasSetting(names[3]);
    var p4 := registry.HasSetting(names[4]);
    var p5 := registry.HasSetting(names[5]);
    var p6 := registry.HasSetting(names[6]);
    var p7 := registry.HasSetting(names[7]);
    assert p0 && p1 && p2 && p3 && p4 && p5 && p6 && p7;
    present := [p0, p1, p2, p3, p4, p5, p6, p7];
  }

  /**
   * The size query, the truncated fill and the full fill of the Int32 test
   * (test lines 224-243): 2 values, then 76 with the second slot still 0,
   * then 76 and -82.
   */
  method Int32Queries()
    returns (sizeResult: QueryResult, size: nat, partResult: QueryResult, part: seq<int>, partCount: nat,
             fullResult: QueryResult, full: seq<int>, fullCount: nat)
    ensures sizeResult == Success && size == 2
    ensures partResult == Incomplete && partCount == 1 && part == [76, 0]
    ensures fullResult == Success && fullCount == 2 && full == [76, -82]
  {
    var entry := LayerSetting("VK_LAYER_LUNARG_test", "my_setting", Int32Type, [76, -82]);
    var registry := new SettingRegistry<int>();
    registry.Init("VK_LAYER_LUNARG_test", Some(CreateInfo([entry])));
    assert [entry][0].settingName == "my_setting";
    sizeResult, size := registry.GetValues("my_setting", Int32Type, 0, null);
    var buffer := new int[size];
    buffer[0], buffer[1] := 0, 0;
    partResult, partCount := registry.GetValues("my_setting", Int32Type, 1, buffer);
    part := buffer[..];
    assert part[..1] == [76] && part[1..] == [0];
    fullResult, fullCount := registry.GetValues("my_setting", Int32Type, 2, buffer);
    full := buffer[..];
    assert full[..2] == [76, -82];
  }

  /**
   * The boolean test (test lines 177-196): a size query, then a fill of one
   * value into a zeroed buffer, then of both.
   */
  method BoolQueries() returns (size: nat, partResult: QueryResult, part: seq<bool>, fullResult: QueryResult, full: seq<bool>)
    ensures size == 2
    ensures partResult == Incomplete && part == [true, false]
    ensures fullResult == Success && full == [true, false]
  {
    var stored := [true, false];
    var entry := LayerSetting("VK_LAYER_LUNARG_test", "my_setting", BoolType, stored);
    var registry := new SettingRegistry<bool>();
    registry.Init("VK_LAYER_LUNARG_test", Some(CreateInfo([entry])));
    assert [entry][0].settingName == "my_setting";
    var sizeResult;
    sizeResult, size := registry.GetValues("my_setting", BoolType, 0, null);
    var buffer := new bool[2](_ => false);
    var count;
    partResult, count := registry.GetValues("my_setting", BoolType, 1, buffer);
    part := buffer[..];
    assert part[..1] == stored[..1] && part[1..] == [false];
    fullResult, count := registry.GetValues("my_setting", BoolType, 2, buffer);
    full := buffer[..];
    assert full[..2] == stored[..2];
  }

  /** The frameset test (test lines 505-528): both framesets come back with all three fields. */
  method FramesetQueries() returns (partResult: QueryResult, part: Frameset, fullResult: QueryResult, full: seq<Frameset>)
    ensures partResult == Incomplete && part == Frameset(76, 100, 10)
    ensures fullResult == Success && full == [Frameset(76, 100, 10), Frameset(1, 100, 1)]
  {
    var stored := [Frameset(76, 100, 10), Frameset(1, 100, 1)];
    var entry := LayerSetting("VK_LAYER_LUNARG_test", "my_setting", FramesetType, stored);
    var registry := new SettingRegistry<Frameset>();
    registry.Init("VK_LAYER_LUNARG_test", Some(CreateInfo([entry])));
    assert [entry][0].settingName == "my_setting";
    var buffer := new Frameset[2](_ => Frameset(0, 0, 0));
    var count;
    partResult, count := registry.GetValues("my_setting", FramesetType, 1, buffer);
    assert buffer[..1] == stored[..1];
    part := buffer[0];
    fullResult, count := registry.GetValues("my_setting", FramesetType, 2, buffer);
    full := buffer[..];
    assert full[..2] == stored[..2];
  }

  /**
   * The string test (test lines 552-575), with `None` for a null `const char*`:
   * the truncated fill leaves the second slot null, the full fill gives both strings in order.
   */
  method StringQueries() returns (partResult: QueryResult, part: seq<Option<string>>, fullResult: QueryResult, full: seq<Option<string>>)
    ensures partResult == Incomplete && part == [Some("VALUE_A"), None]
    ensures fullResult == Success && full == [Some("VALUE_A"), Some("VALUE_B")]
  {
    var stored := [Some("VALUE_A"), Some("VALUE_B")];
    var entry := LayerSetting("VK_LAYER_LUNARG_test", "my_setting", StringType, stored);
    var registry := new SettingRegistry<Option<string>>();
    registry.Init("VK_LAYER_LUNARG_test", Some(CreateInfo([entry])));
    assert [entry][0].settingName == "my_setting";
    var buffer := new Option<string>[2](_ => None);
    var count;
    partResult, count := registry.GetValues("my_setting", StringType, 1, buffer);
    part := buffer[..];
    assert part[..1] == stored[..1] && part[1..] == [None];
    fullResult, count := registry.GetValues("my_setting", StringType, 2, buffer);
    full := buffer[..];
    assert full[..2] == stored[..2];
  }

  /**
   * The query ignores the declared type (test lines 373-377): a 64-bit
   * unsigned setting queried as 32-bit still yields its first value.
   */
  method MismatchedTypeQuery() returns (result: QueryResult, first: int)
    ensures result == Incomplete && first == 76
  {
    var entry := LayerSetting("VK_LAYER_LUNARG_test", "my_setting", Uint64Type, [76, 82]);
    var registry := new SettingRegistry<int>();
    registry.Init("VK_LAYER_LUNARG_test", Some(CreateInfo([entry])));
    assert [entry][0].settingName == "my_setting";
    var buffer := new int[2](_ => 0);
    var count;
    result, count := registry.GetValues("my_setting", Uint32Type, 1, buffer);
    assert buffer[..1] == [76];
    first := buffer[0];
  }
}
