/**
 * The structure-chain walker `FindSettingsInChain` of layer_settings_util.cpp.
 * A chain of `pNext`-linked structures is a finite sequence of nodes, the
 * head first; a pointer into it is an index.
 */
module Chain {
  import opened Types

  /** The `sType` tag of a structure: the layer-settings tag, or any other tag by its number. */
  datatype StructureType = LayerSettingsExt | OtherStructure(code: nat)

  /** The part of a structure the walker reads: its tag. */
  datatype BaseStructure = BaseStructure(sType: StructureType)

  predicate IsLayerSettings(node: BaseStructure)
  {
    node.sType == LayerSettingsExt
  }

  /** The index of the first layer-settings node at or after `from`, or `None`. */
  function FirstSettingsFrom(chain: seq<BaseStructure>, from: nat): (r: Option<nat>)
    requires from <= |chain|
    ensures r.Some? ==> (from <= r.value < |chain| && IsLayerSettings(chain[r.value])
      && forall k :: from <= k < r.value ==> !IsLayerSettings(chain[k]))
    ensures r.None? <==> forall k :: from <= k < |chain| ==> !IsLayerSettings(chain[k])
    decreases |chain| - from
  {
    if from == |chain| then None
    else if IsLayerSettings(chain[from]) then Some(from)
    else FirstSettingsFrom(chain, from + 1)
  }

  /** The index of the first layer-settings node of the chain, head included. */
  function FirstSettings(chain: seq<BaseStructure>): Option<nat>
  {
    FirstSettingsFrom(chain, 0)
  }

  /**
   * `FindSettingsInChain`: walks the chain from the head and stops at the
   * first layer-settings node by clearing the cursor.
   */
  method FindSettingsInChain(chain: seq<BaseStructure>) returns (found: Option<nat>)
    ensures found == FirstSettings(chain)
  {
    var current: Option<nat> := if |chain| > 0 then Some(0) else None;
    found := None;
    while current.Some?
      invariant current.Some? ==> current.value < |chain| && found.None?
      invariant current.Some? ==> FirstSettingsFrom(chain, current.value) == FirstSettings(chain)
      invariant current.None? ==> found == FirstSettings(chain)
      decreases if current.Some? then |chain| - current.value else 0
    {
      var i := current.value;
      if IsLayerSettings(chain[i]) {
        found := Some(i);
        current := None;
      } else {
        current := if i + 1 < |chain| then Some(i + 1) else None;
      }
    }
  }

  /** Whatever follows the first layer-settings node has no influence on the result. */
  lemma {:induction false} FirstSettingsIgnoresRest(chain: seq<BaseStructure>, rest: seq<BaseStructure>)
    requires FirstSettings(chain).Some?
    ensures FirstSettings(chain + rest) == FirstSettings(chain)
  {
    var i := FirstSettings(chain).value;
    var c := chain + rest;
    assert forall k :: 0 <= k <= i ==> c[k] == chain[k];
    FirstSettingsAt(c, i);
  }

  /** A layer-settings node preceded only by other nodes is the one found. */
  lemma {:induction false} FirstSettingsAt(chain: seq<BaseStructure>, i: nat)
    requires i < |chain| && IsLayerSettings(chain[i])
    requires forall k :: 0 <= k < i ==> !IsLayerSettings(chain[k])
    ensures FirstSettings(chain) == Some(i)
  {
  }

  /** Nodes before the search position are skipped: prepending other nodes shifts the found index. */
  lemma {:induction false} FirstSettingsAfterOther(node: BaseStructure, chain: seq<BaseStructure>)
    requires !IsLayerSettings(node)
    ensures FirstSettings([node] + chain) == match FirstSettings(chain) case None => None case Some(i) => Some(i + 1)
  {
    var c := [node] + chain;
    assert forall k :: 0 <= k < |chain| ==> c[k + 1] == chain[k];
    match FirstSettings(chain)
    case None =>
      assert forall k :: 0 <= k < |c| ==> !IsLayerSettings(c[k]) by {
        forall k | 0 <= k < |c| ensures !IsLayerSettings(c[k]) {
          if k > 0 { assert c[k] == chain[k - 1]; }
        }
      }
    case Some(i) =>
      forall k | 0 <= k < i + 1 ensures !IsLayerSettings(c[k]) {
        if k > 0 { assert c[k] == chain[k - 1]; }
      }
      FirstSettingsAt(c, i + 1);
  }
}
