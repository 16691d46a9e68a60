/**
 * The hot-reload state registry (`dev/StateRegistry.ts`): values kept per
 * owner object and development id across a module reload.
 *
 * The weak map becomes a map from the owner's identity to a plain object,
 * seen as the map of its own properties. Assigning `__proto__` on a plain
 * object goes to the prototype setter and never makes an own property, so
 * a value preserved under that id is never restored.
 */
module StateRegistry {
  import opened Wrappers
  import opened Js

  const ProtoKey: string := "__proto__"

  /** Owner identity -> the own properties of its state object. */
  datatype Registry = Registry(state: map<nat, map<string, Value>>)

  /** No state object has an own `__proto__` property. */
  predicate Valid(reg: Registry) {
    forall h :: h in reg.state ==> ProtoKey !in reg.state[h]
  }

  const Empty: Registry := Registry(map[])

  /** Both calls return at once for a missing owner or a missing or empty id. */
  predicate Skips(handle: Option<nat>, devId: Option<string>) {
    handle.None? || devId.None? || devId.value == ""
  }

  /**
   * `preserve`: creates the owner's state object on first use, then assigns
   * the value under the id.
   */
  function Preserve(reg: Registry, handle: Option<nat>, devId: Option<string>, value: Value): (r: Registry)
    ensures Skips(handle, devId) ==> r == reg
    ensures !Skips(handle, devId) ==> handle.value in r.state && r.state.Keys == reg.state.Keys + {handle.value}
    ensures !Skips(handle, devId) && devId.value != ProtoKey ==>
              devId.value in r.state[handle.value] && r.state[handle.value][devId.value] == value
    ensures forall h :: h in reg.state && (handle.None? || h != handle.value) ==> h in r.state && r.state[h] == reg.state[h]
    ensures Valid(reg) ==> Valid(r)
  {
    if Skips(handle, devId) then reg
    else
      var h, id := handle.value, devId.value;
      var m := if h in reg.state then reg.state[h] else map[];
      var m' := if id == ProtoKey then m else m[id := value];
      Registry(reg.state[h := m'])
  }

  /** `restore`: the value the block is called with, or `None` when it is not called. */
  function Restore(reg: Registry, handle: Option<nat>, devId: Option<string>): (r: Option<Value>)
    ensures r.Some? ==> !Skips(handle, devId) && handle.value in reg.state && devId.value in reg.state[handle.value]
    ensures r.Some? ==> r.value == reg.state[handle.value][devId.value]
    ensures !Skips(handle, devId) && handle.value in reg.state && devId.value in reg.state[handle.value] ==> r.Some?
  {
    if Skips(handle, devId) then None
    else if handle.value !in reg.state then None
    else if devId.value in reg.state[handle.value] then Some(reg.state[handle.value][devId.value])
    else None
  }

  /**
   * Round trip: what was preserved is restored, `undefined` included, unless
   * the id is `__proto__`.
   */
  lemma RestorePreserve(reg: Registry, handle: Option<nat>, devId: Option<string>, value: Value)
    requires !Skips(handle, devId)
    ensures devId.value != ProtoKey ==> Restore(Preserve(reg, handle, devId, value), handle, devId) == Some(value)
    ensures devId.value == ProtoKey && Valid(reg) ==> Restore(Preserve(reg, handle, devId, value), handle, devId).None?
  {
  }

  /** Preserving under one owner and id leaves what every other pair restores. */
  lemma RestoreOther(reg: Registry, handle: Option<nat>, devId: Option<string>, value: Value,
                     handle': Option<nat>, devId': Option<string>)
    requires handle' != handle || devId' != devId
    ensures Restore(Preserve(reg, handle, devId, value), handle', devId') == Restore(reg, handle', devId')
  {
    var r := Preserve(reg, handle, devId, value);
    if !Skips(handle, devId) && !Skips(handle', devId') && handle'.value == handle.value {
      assert devId'.value != devId.value;
      var m := if handle.value in reg.state then reg.state[handle.value] else map[];
      assert r.state[handle.value] == (if devId.value == ProtoKey then m else m[devId.value := value]);
    }
  }

  /** A later preserve under the same pair replaces the earlier value. */
  lemma PreserveTwice(reg: Registry, handle: Option<nat>, devId: Option<string>, v1: Value, v2: Value)
    requires !Skips(handle, devId) && devId.value != ProtoKey
    ensures Restore(Preserve(Preserve(reg, handle, devId, v1), handle, devId, v2), handle, devId) == Some(v2)
  {
  }

  /** Nothing is restored from a fresh registry, and a skipped call restores nothing either. */
  lemma RestoreNothing(handle: Option<nat>, devId: Option<string>, reg: Registry)
    ensures Restore(Empty, handle, devId).None?
    ensures Skips(handle, devId) ==> Restore(reg, handle, devId).None?
  {
  }
}
