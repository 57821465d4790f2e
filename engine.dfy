/**
 * The engine's registries and its mutation API, as one sequential state
 * machine: three in-place lists (modules, cables, parameter handles), two id
 * counters and a single parameter-smoothing slot.  Concurrency is left out:
 * every method runs with the engine to itself.  The registry operations get
 * that from the priority-yield mutex and the registry lock; the parameter
 * accessors and the handle lookup take no lock, and their interleaving with
 * a running step is not modelled.
 *
 * The invariant comes in five groups, one per concern, so that each method
 * restates only the groups its writes can touch; `Valid` is all of them.
 */
module RackEngine {
  import opened Entities
  import opened Graph

  class Engine {
    var modules: seq<Module>
    var cables: seq<Cable>
    var paramHandles: seq<ParamHandle>
    var nextModuleId: int
    var nextCableId: int
    // The parameter being smoothed: `smoothModule` is null when none is.
    var smoothModule: Module?
    var smoothParamId: int
    var smoothValue: ParamValue
    /** The calls made into modules and cables, oldest first. */
    var calls: seq<Call>

    // ------------------------------------------------------------- frames

    ghost function Registered(): set<Module>
      reads this`modules
    {
      set m | m in modules
    }

    /** The port buffers of the registered modules. */
    ghost function Ports(): set<array<Port>>
      reads this`modules
    {
      (set m | m in modules :: m.inputs) + (set m | m in modules :: m.outputs)
    }

    ghost function HandleSet(): set<ParamHandle>
      reads this`paramHandles
    {
      set h | h in paramHandles
    }

    /** The parameter buffer of the module being smoothed, if any. */
    ghost function SmoothParams(): set<array<ParamValue>>
      reads this`smoothModule
    {
      if smoothModule == null then {} else {smoothModule.params}
    }

    // ---------------------------------------------------------- invariant

    /** Modules are registered once each under distinct ids below the
        counter, and own their port buffers. */
    ghost predicate ModulesValid()
      reads this`modules, this`nextModuleId, Registered()`id
    {
      ModulesOk(modules, nextModuleId) && PortsOwned(modules)
    }

    /** No expander slot of a registered module dangles. */
    ghost predicate ExpandersValid()
      reads this`modules, Registered()`leftExpander, Registered()`rightExpander
    {
      ExpandersOk(modules)
    }

    /** Cables are registered once each under distinct ids below the counter,
        are plugged into existing ports, one per input, of registered
        modules. */
    ghost predicate CablesValid()
      reads this`modules, this`cables, this`nextCableId, (set c | c in cables)`id
    {
      CablesOk(cables, nextCableId) && Attached(cables, modules)
    }

    /** Handles are registered once each, at most one per parameter. */
    ghost predicate HandlesValid()
      reads this`paramHandles, HandleSet()`moduleId, HandleSet()`paramId
    {
      HandlesOk(paramHandles)
    }

    /** The smoothing slot, when occupied, names an existing parameter. */
    ghost predicate SmoothValid()
      reads this`smoothModule, this`smoothParamId
    {
      smoothModule != null ==> 0 <= smoothParamId < smoothModule.params.Length
    }

    /** The engine's invariant. */
    ghost predicate Valid()
      reads this`modules, this`cables, this`paramHandles, this`nextModuleId, this`nextCableId
      reads this`smoothModule, this`smoothParamId, Registered()`id
      reads Registered()`leftExpander, Registered()`rightExpander, (set c | c in cables)`id
      reads HandleSet()`moduleId, HandleSet()`paramId
    {
      ModulesValid() && ExpandersValid() && CablesValid() && HandlesValid() && SmoothValid()
    }

    /** The invariant survives any change that keeps the smoothing slot valid
        and leaves the registries, the id counters and every registered
        module, cable and handle as they were (a change to port or parameter
        buffers, say). */
    twostate lemma ValidKept()
      requires old(Valid()) && SmoothValid()
      requires unchanged(this`modules, this`cables, this`paramHandles, this`nextModuleId, this`nextCableId)
      requires forall m :: m in modules ==> unchanged(m)
      requires forall c :: c in cables ==> unchanged(c)
      requires forall h :: h in paramHandles ==> unchanged(h)
      ensures Valid()
    {
    }

    /** Every port of every registered module is active exactly when a
        registered cable is plugged into it. */
    ghost predicate FlagsMatch()
      reads this`modules, this`cables, Ports()
    {
      && (forall m, k :: m in modules && 0 <= k < m.inputs.Length ==>
            m.inputs[k].active == InputLinked(cables, m, k))
      && (forall m, k :: m in modules && 0 <= k < m.outputs.Length ==>
            m.outputs[k].active == OutputLinked(cables, m, k))
    }

    constructor ()
      ensures Valid()
      ensures modules == [] && cables == [] && paramHandles == []
      ensures nextModuleId == 0 && nextCableId == 0
      ensures smoothModule == null && calls == []
    {
      modules, cables, paramHandles := [], [], [];
      nextModuleId, nextCableId := 0, 0;
      smoothModule, smoothParamId, smoothValue := null, 0, 0.0;
      calls := [];
    }

    // ------------------------------------------------------------ modules

    /** Points every registered handle that targets module id `id` at
        `target`; no other handle changes. */
    method PointHandles(id: int, target: Module?)
      requires Valid()
      modifies HandleSet()`resolved
      ensures Valid()
      ensures forall h :: h in paramHandles ==>
        h.resolved == if h.moduleId == id then target else old(h.resolved)
    {
      var i := 0;
      while i < |paramHandles|
        invariant 0 <= i <= |paramHandles|
        invariant forall h :: h in paramHandles ==>
          h.resolved == if h.moduleId == id && h in paramHandles[..i] then target else old(h.resolved)
        modifies HandleSet()`resolved
      {
        if paramHandles[i].moduleId == id {
          paramHandles[i].resolved := target;
        }
        assert paramHandles[..i + 1] == paramHandles[..i] + [paramHandles[i]];
        i := i + 1;
      }
      assert paramHandles[..i] == paramHandles;
    }

    /** Gives `m` an id: a negative id asks for the counter, which then
        advances; a manual id is kept and the counter moves past it.  The id
        is new, and the counter stays above every id. */
    method AssignModuleId(m: Module)
      requires Valid() && m !in modules
      requires m.id >= 0 ==> forall i :: 0 <= i < |modules| ==> modules[i].id != m.id
      modifies this`nextModuleId, m`id
      ensures Valid()
      ensures m.id == AssignId(old(m.id), old(nextModuleId)).id
      ensures nextModuleId == AssignId(old(m.id), old(nextModuleId)).next
      ensures 0 <= m.id < nextModuleId
      ensures forall i :: 0 <= i < |modules| ==> modules[i].id != m.id
    {
      var a := AssignId(m.id, nextModuleId);
      RaiseModulesOk(modules, nextModuleId, a.next);
      m.id, nextModuleId := a.id, a.next;
    }

    /** Appends `m`, which already has a new id below the counter, to the
        registry and tells it it was added. */
    method AppendModule(m: Module)
      requires Valid() && m !in modules
      requires 0 <= m.id < nextModuleId
      requires forall i :: 0 <= i < |modules| ==> modules[i].id != m.id
      requires OwnsPorts(modules, m)
      requires m.leftExpander.resolved == null && m.rightExpander.resolved == null
      modifies this`modules, this`calls
      ensures Valid()
      ensures modules == old(modules) + [m]
      ensures calls == old(calls) + [OnAdd(m)]
    {
      AppendModuleOk(modules, m, nextModuleId, nextModuleId);
      AppendPortsOwned(modules, m);
      AppendExpandersOk(modules, m);
      AppendAttached(cables, modules, m);
      modules, calls := modules + [m], calls + [OnAdd(m)];
    }

    /** Registers `m`, giving it an id by the shared id rule, and points
        every handle that already targets that id at it. */
    method AddModule(m: Module)
      requires Valid()
      requires m !in modules
      requires m.id >= 0 ==> forall i :: 0 <= i < |modules| ==> modules[i].id != m.id
      requires OwnsPorts(modules, m)
      requires m.leftExpander.resolved == null && m.rightExpander.resolved == null
      modifies this`modules, this`nextModuleId, this`calls, m`id, HandleSet()`resolved
      ensures Valid()
      ensures modules == old(modules) + [m]
      ensures m.id == AssignId(old(m.id), old(nextModuleId)).id
      ensures nextModuleId == AssignId(old(m.id), old(nextModuleId)).next
      ensures calls == old(calls) + [OnAdd(m)]
      ensures forall h :: h in paramHandles ==>
        h.resolved == if h.moduleId == m.id then m else old(h.resolved)
    {
      AssignModuleId(m);
      AppendModule(m);
      PointHandles(m.id, m);
    }

    /** Clears every expander slot of a registered module that points at
        `gone`; every other slot is untouched, so no slot points at `gone`
        any more. */
    method DetachExpanders(gone: Module)
      requires Valid()
      modifies Registered()`leftExpander, Registered()`rightExpander
      ensures forall other :: other in modules ==>
        other.leftExpander == Detached(old(other.leftExpander), gone) &&
        other.rightExpander == Detached(old(other.rightExpander), gone)
      ensures Valid()
      ensures forall i :: 0 <= i < |modules| ==>
        modules[i].leftExpander.resolved != gone && modules[i].rightExpander.resolved != gone
    {
      var i := 0;
      while i < |modules|
        invariant 0 <= i <= |modules|
        invariant forall j :: 0 <= j < |modules| ==>
          && modules[j].leftExpander ==
               (if j < i then Detached(old(modules[j].leftExpander), gone) else old(modules[j].leftExpander))
          && modules[j].rightExpander ==
               (if j < i then Detached(old(modules[j].rightExpander), gone) else old(modules[j].rightExpander))
        modifies Registered()`leftExpander, Registered()`rightExpander
      {
        var other := modules[i];
        if other.leftExpander.resolved == gone {
          other.leftExpander := other.leftExpander.(moduleId := -1, resolved := null);
        }
        if other.rightExpander.resolved == gone {
          other.rightExpander := other.rightExpander.(moduleId := -1, resolved := null);
        }
        i := i + 1;
      }
    }

    /** Tells `m`, which no cable and no expander slot uses any more, that it
        is being removed, then erases it from the registry. */
    method UnregisterModule(m: Module)
      requires Valid() && m in modules
      requires forall i :: 0 <= i < |cables| ==>
        cables[i].outputModule != m && cables[i].inputModule != m
      requires forall i :: 0 <= i < |modules| ==>
        modules[i].leftExpander.resolved != m && modules[i].rightExpander.resolved != m
      modifies this`modules, this`calls
      ensures Valid()
      ensures modules == RemoveAt(old(modules), IndexOf(old(modules), m))
      ensures m !in modules
      ensures calls == old(calls) + [OnRemove(m)]
    {
      var index := IndexOf(modules, m);
      RemoveModuleOk(modules, index, nextModuleId);
      RemovePortsOwned(modules, index);
      RemoveAttached(cables, modules, index);
      RemoveExpandersOk(modules, index);
      RemoveAtDistinct(modules, index);
      calls, modules := calls + [OnRemove(m)], RemoveAt(modules, index);
    }

    /** Drops every reference the engine holds to `m` apart from its
        registry entry: smoothing on it stops, handles that resolved to it
        are cleared, and expander slots pointing at it are cleared. */
    method ReleaseModule(m: Module)
      requires Valid()
      modifies this`smoothModule, HandleSet()`resolved
      modifies Registered()`leftExpander, Registered()`rightExpander
      ensures Valid()
      ensures smoothModule == if old(smoothModule) == m then null else old(smoothModule)
      ensures forall h :: h in paramHandles ==>
        h.resolved == if h.moduleId == m.id then null else old(h.resolved)
      ensures forall other :: other in modules ==>
        other.leftExpander == Detached(old(other.leftExpander), m) &&
        other.rightExpander == Detached(old(other.rightExpander), m)
      ensures forall i :: 0 <= i < |modules| ==>
        modules[i].leftExpander.resolved != m && modules[i].rightExpander.resolved != m
    {
      if m == smoothModule {
        smoothModule := null;
      }
      PointHandles(m.id, null);
      DetachExpanders(m);
    }

    /** Unregisters `m`, which no cable may still use.  Smoothing on it
        stops, and handles and expanders that resolved to it are cleared. */
    method RemoveModule(m: Module)
      requires Valid()
      requires m in modules
      requires forall i :: 0 <= i < |cables| ==>
        cables[i].outputModule != m && cables[i].inputModule != m
      modifies this`modules, this`smoothModule, this`calls, HandleSet()`resolved
      modifies Registered()`leftExpander, Registered()`rightExpander
      ensures Valid()
      ensures modules == RemoveAt(old(modules), IndexOf(old(modules), m))
      ensures m !in modules
      ensures smoothModule == if old(smoothModule) == m then null else old(smoothModule)
      ensures calls == old(calls) + [OnRemove(m)]
      ensures forall h :: h in paramHandles ==>
        h.resolved == if h.moduleId == m.id then null else old(h.resolved)
      ensures forall other :: other in old(modules) ==>
        other.leftExpander == Detached(old(other.leftExpander), m) &&
        other.rightExpander == Detached(old(other.rightExpander), m)
    {
      ReleaseModule(m);
      UnregisterModule(m);
    }

    /** The registered module with id `moduleId`, or null. */
    method GetModule(moduleId: int) returns (r: Module?)
      ensures r == FindModule(modules, moduleId)
    {
      var i := 0;
      while i < |modules|
        invariant 0 <= i <= |modules|
        invariant FindModule(modules[i..], moduleId) == FindModule(modules, moduleId)
      {
        if modules[i].id == moduleId {
          return modules[i];
        }
        assert modules[i..][1..] == modules[i + 1..];
        i := i + 1;
      }
      return null;
    }

    method ResetModule(m: Module)
      modifies this`calls
      ensures calls == old(calls) + [OnReset(m)]
    {
      calls := calls + [OnReset(m)];
    }

    method RandomizeModule(m: Module)
      modifies this`calls
      ensures calls == old(calls) + [OnRandomize(m)]
    {
      calls := calls + [OnRandomize(m)];
    }

    /** Sets every port of `ps` to `channels` channels. */
    static method SetChannels(ps: array<Port>, channels: int)
      modifies ps
      ensures ps[..] == WithChannels(old(ps[..]), channels)
    {
      var k := 0;
      while k < ps.Length
        invariant 0 <= k <= ps.Length
        invariant forall j :: 0 <= j < ps.Length ==>
          ps[j] == if j < k then old(ps[j]).(channels := channels) else old(ps[j])
      {
        ps[k] := ps[k].(channels := channels);
        k := k + 1;
      }
    }

    /** Bypassing silences every output and zeroes the CPU estimate;
        un-bypassing gives every output one channel back. */
    method BypassModule(m: Module, bypass: bool)
      modifies m.outputs, m`cpuTime, m`bypass
      ensures m.outputs[..] == WithChannels(old(m.outputs[..]), if bypass then 0 else 1)
      ensures m.cpuTime == if bypass then 0.0 else old(m.cpuTime)
      ensures m.bypass == bypass
    {
      if bypass {
        SetChannels(m.outputs, 0);
        m.cpuTime := 0.0;
      } else {
        SetChannels(m.outputs, 1);
      }
      m.bypass := bypass;
    }

    // ------------------------------------------------------------- cables

    /** Marks every port of `ps` inactive. */
    static method Deactivate(ps: array<Port>)
      modifies ps
      ensures ps[..] == Deactivated(old(ps[..]))
    {
      var k := 0;
      while k < ps.Length
        invariant 0 <= k <= ps.Length
        invariant forall j :: 0 <= j < ps.Length ==>
          ps[j] == if j < k then old(ps[j]).(active := false) else old(ps[j])
      {
        ps[k] := ps[k].(active := false);
        k := k + 1;
      }
    }

    /** The first loop of recomputing connectivity: every port of every
        registered module is marked inactive. */
    method ClearFlags()
      requires PortsOwned(modules)
      modifies Ports()
      ensures forall other :: other in modules ==>
        other.inputs[..] == Deactivated(old(other.inputs[..])) &&
        other.outputs[..] == Deactivated(old(other.outputs[..]))
    {
      var i := 0;
      while i < |modules|
        invariant 0 <= i <= |modules|
        invariant forall j :: 0 <= j < |modules| ==>
          && modules[j].inputs[..] == (if j < i then Deactivated(old(modules[j].inputs[..])) else old(modules[j].inputs[..]))
          && modules[j].outputs[..] == (if j < i then Deactivated(old(modules[j].outputs[..])) else old(modules[j].outputs[..]))
        modifies Ports()
      {
        Deactivate(modules[i].inputs);
        Deactivate(modules[i].outputs);
        i := i + 1;
      }
    }

    /** The second loop of recomputing connectivity: both ports of every
        registered cable are marked active, cable by cable. */
    method MarkCables()
      requires PortsOwned(modules) && CablesValid()
      modifies Ports()
      ensures forall other :: other in modules ==>
        other.inputs[..] == PlugInputs(old(other.inputs[..]), cables, other) &&
        other.outputs[..] == PlugOutputs(old(other.outputs[..]), cables, other)
    {
      var j := 0;
      while j < |cables|
        invariant 0 <= j <= |cables|
        invariant forall other :: other in modules ==>
          other.inputs[..] == PlugInputs(old(other.inputs[..]), cables[..j], other) &&
          other.outputs[..] == PlugOutputs(old(other.outputs[..]), cables[..j], other)
        modifies Ports()
      {
        var cable := cables[j];
        assert cables[..j + 1][..j] == cables[..j];
        var out := cable.outputModule.outputs;
        out[cable.outputId] := out[cable.outputId].(active := true);
        var inp := cable.inputModule.inputs;
        inp[cable.inputId] := inp[cable.inputId].(active := true);
        j := j + 1;
      }
      assert cables[..j] == cables;
    }

    /** Recomputes every port's `active` flag from the cable list: afterwards
        a port of a registered module is active exactly when a registered
        cable is plugged into it, and no channel count has changed. */
    method UpdateConnected()
      requires PortsOwned(modules) && CablesValid()
      modifies Ports()
      ensures FlagsMatch()
      ensures forall other, k :: other in modules && 0 <= k < other.inputs.Length ==>
        other.inputs[k].channels == old(other.inputs[k].channels)
      ensures forall other, k :: other in modules && 0 <= k < other.outputs.Length ==>
        other.outputs[k].channels == old(other.outputs[k].channels)
    {
      ClearFlags();
      label Cleared:
      MarkCables();
      forall other, k | other in modules && 0 <= k < other.inputs.Length
        ensures other.inputs[k].active == InputLinked(cables, other, k)
      {
        PlugInputsLinked(old@Cleared(other.inputs[..]), cables, other, k);
      }
      forall other, k | other in modules && 0 <= k < other.outputs.Length
        ensures other.outputs[k].active == OutputLinked(cables, other, k)
      {
        PlugOutputsLinked(old@Cleared(other.outputs[..]), cables, other, k);
      }
    }

    /** Gives cable `c` an id by the same rule as modules. */
    method AssignCableId(c: Cable)
      requires Valid() && c !in cables
      requires c.id >= 0 ==> forall i :: 0 <= i < |cables| ==> cables[i].id != c.id
      modifies this`nextCableId, c`id
      ensures Valid()
      ensures c.id == AssignId(old(c.id), old(nextCableId)).id
      ensures nextCableId == AssignId(old(c.id), old(nextCableId)).next
      ensures 0 <= c.id < nextCableId
      ensures forall i :: 0 <= i < |cables| ==> cables[i].id != c.id
    {
      var a := AssignId(c.id, nextCableId);
      RaiseCablesOk(cables, nextCableId, a.next);
      c.id, nextCableId := a.id, a.next;
    }

    /** Appends `c`, which already has a new id below the counter and an
        input port to itself, to the registry. */
    method AppendCable(c: Cable)
      requires Valid() && c !in cables && Plugged(c)
      requires c.outputModule in modules && c.inputModule in modules
      requires 0 <= c.id < nextCableId
      requires forall i :: 0 <= i < |cables| ==> cables[i].id != c.id
      requires forall i :: 0 <= i < |cables| ==>
        !(cables[i].inputModule == c.inputModule && cables[i].inputId == c.inputId)
      modifies this`cables
      ensures Valid()
      ensures cables == old(cables) + [c]
    {
      AppendCableOk(cables, c, nextCableId);
      AppendCableAttached(cables, modules, c);
      cables := cables + [c];
    }

    /** Gives cable `c` an id and appends it to the registry. */
    method RegisterCable(c: Cable)
      requires Valid() && c !in cables && Plugged(c)
      requires c.outputModule in modules && c.inputModule in modules
      requires c.id >= 0 ==> forall i :: 0 <= i < |cables| ==> cables[i].id != c.id
      requires forall i :: 0 <= i < |cables| ==>
        !(cables[i].inputModule == c.inputModule && cables[i].inputId == c.inputId)
      modifies this`cables, this`nextCableId, c`id
      ensures Valid()
      ensures cables == old(cables) + [c]
      ensures c.id == AssignId(old(c.id), old(nextCableId)).id
      ensures nextCableId == AssignId(old(c.id), old(nextCableId)).next
    {
      AssignCableId(c);
      AppendCable(c);
    }

    /** Registers cable `c`, giving it an id by the shared id rule, and
        recomputes connectivity.  No second cable may enter the same input. */
    method AddCable(c: Cable)
      requires Valid()
      requires c !in cables
      requires c.outputModule != null && c.inputModule != null
      requires c.outputModule in modules && c.inputModule in modules
      requires 0 <= c.outputId < c.outputModule.outputs.Length && 0 <= c.inputId < c.inputModule.inputs.Length
      requires forall i :: 0 <= i < |cables| ==>
        !(cables[i].inputModule == c.inputModule && cables[i].inputId == c.inputId)
      requires c.id >= 0 ==> forall i :: 0 <= i < |cables| ==> cables[i].id != c.id
      modifies this`cables, this`nextCableId, c`id, Ports()
      ensures Valid()
      ensures cables == old(cables) + [c]
      ensures c.id == AssignId(old(c.id), old(nextCableId)).id
      ensures nextCableId == AssignId(old(c.id), old(nextCableId)).next
      ensures FlagsMatch()
      ensures forall other, k :: other in modules && 0 <= k < other.inputs.Length ==>
        other.inputs[k].channels == old(other.inputs[k].channels)
      ensures forall other, k :: other in modules && 0 <= k < other.outputs.Length ==>
        other.outputs[k].channels == old(other.outputs[k].channels)
    {
      RegisterCable(c);
      label Registered:
      UpdateConnected();
      ValidKept@Registered();
    }

    /** Erases position `index` of the cable registry. */
    method UnregisterCable(index: nat)
      requires Valid() && index < |cables|
      modifies this`cables
      ensures Valid()
      ensures cables == RemoveAt(old(cables), index)
    {
      RemoveCableOk(cables, index, nextCableId);
      RemoveCableAttached(cables, modules, index);
      cables := RemoveAt(cables, index);
    }

    /** Sets the input port cable `c` enters to zero channels. */
    method SilenceInput(c: Cable)
      requires Valid() && c in cables
      modifies Ports()
      ensures Valid()
      ensures c.inputModule != null && c.inputModule.inputs[c.inputId].channels == 0
      ensures c.inputModule.inputs[c.inputId].active == old(c.inputModule.inputs[c.inputId].active)
      ensures forall other, k ::
        other in modules && 0 <= k < other.inputs.Length && !(other == c.inputModule && k == c.inputId) ==>
        other.inputs[k] == old(other.inputs[k])
      ensures forall other, k :: other in modules && 0 <= k < other.outputs.Length ==>
        other.outputs[k] == old(other.outputs[k])
    {
      var input := c.inputModule.inputs;
      input[c.inputId] := input[c.inputId].(channels := 0);
    }

    /** Unregisters cable `c`: its input is silenced to zero channels, the
        cable is erased, and connectivity is recomputed. */
    method RemoveCable(c: Cable)
      requires Valid()
      requires c in cables
      modifies this`cables, Ports()
      ensures Valid()
      ensures cables == RemoveAt(old(cables), IndexOf(old(cables), c))
      ensures c !in cables
      ensures FlagsMatch()
      ensures c.inputModule != null && c.inputModule.inputs[c.inputId].channels == 0
      ensures forall other, k ::
        other in modules && 0 <= k < other.inputs.Length && !(other == c.inputModule && k == c.inputId) ==>
        other.inputs[k].channels == old(other.inputs[k].channels)
      ensures forall other, k :: other in modules && 0 <= k < other.outputs.Length ==>
        other.outputs[k].channels == old(other.outputs[k].channels)
    {
      var index := IndexOf(cables, c);
      SilenceInput(c);
      UnregisterCable(index);
      RemoveAtDistinct(old(cables), index);
      label Unregistered:
      UpdateConnected();
      ValidKept@Unregistered();
    }

    // ------------------------------------------------------------- params

    /** The value of parameter `paramId` of `m`. */
    function GetParam(m: Module, paramId: int): (v: ParamValue)
      requires 0 <= paramId < m.params.Length
      reads m.params
      ensures v == m.params[paramId]
    {
      m.params[paramId]
    }

    /** The value the parameter is heading to: the smoothing target when it
        is the one being smoothed, its value otherwise. */
    function GetSmoothParam(m: Module, paramId: int): (v: ParamValue)
      requires 0 <= paramId < m.params.Length
      reads this`smoothModule, this`smoothParamId, this`smoothValue, m.params
      ensures smoothModule == m && smoothParamId == paramId ==> v == smoothValue
      ensures !(smoothModule == m && smoothParamId == paramId) ==> v == m.params[paramId]
    {
      if smoothModule == m && smoothParamId == paramId then smoothValue else GetParam(m, paramId)
    }

    /** Sets a parameter at once; smoothing towards it, if any, is
        cancelled. */
    method SetParam(m: Module, paramId: int, value: ParamValue)
      requires SmoothValid() && 0 <= paramId < m.params.Length
      modifies this`smoothModule, this`smoothParamId, m.params
      ensures SmoothValid()
      ensures GetSmoothParam(m, paramId) == value && GetParam(m, paramId) == value
      ensures forall k :: 0 <= k < m.params.Length && k != paramId ==> m.params[k] == old(m.params[k])
      ensures old(smoothModule) == m && old(smoothParamId) == paramId ==>
        smoothModule == null && smoothParamId == 0
      ensures !(old(smoothModule) == m && old(smoothParamId) == paramId) ==>
        smoothModule == old(smoothModule) && smoothParamId == old(smoothParamId)
    {
      if smoothModule == m && smoothParamId == paramId {
        smoothModule := null;
        smoothParamId := 0;
      }
      m.params[paramId] := value;
    }

    /** Starts smoothing a parameter towards `value`.  A different parameter
        that was being smoothed jumps to its target first, so it keeps the
        value it was heading to. */
    method SetSmoothParam(m: Module, paramId: int, value: ParamValue)
      requires SmoothValid() && 0 <= paramId < m.params.Length
      modifies this`smoothModule, this`smoothParamId, this`smoothValue, SmoothParams()
      ensures SmoothValid()
      ensures smoothModule == m && smoothParamId == paramId && smoothValue == value
      ensures GetSmoothParam(m, paramId) == value
      ensures old(smoothModule) != null && !(old(smoothModule) == m && old(smoothParamId) == paramId) ==>
        var prev, p := old(smoothModule), old(smoothParamId);
        && prev.params[p] == old(smoothValue)
        && forall k :: 0 <= k < prev.params.Length && k != p ==> prev.params[k] == old(prev.params[k])
      ensures old(smoothModule) == null || (old(smoothModule) == m && old(smoothParamId) == paramId) ==>
        unchanged(SmoothParams())
    {
      if smoothModule != null && !(smoothModule == m && smoothParamId == paramId) {
        smoothModule.params[smoothParamId] := smoothValue;
      }
      smoothParamId := paramId;
      smoothValue := value;
      smoothModule := m;
    }

    /** The smoothing part of one engine step.  The float arithmetic that
        moves the parameter towards its target is left out: `next` is the
        value it computes.  When that is no change the parameter snaps to the
        target and the slot is cleared; otherwise it takes `next`.  Either
        way the value the parameter is heading to stays the same. */
    method SmoothStep(next: ParamValue)
      requires Valid()
      modifies this`smoothModule, this`smoothParamId, SmoothParams()
      ensures Valid()
      ensures old(smoothModule) == null ==> smoothModule == null && unchanged(SmoothParams())
      ensures old(smoothModule) != null ==>
        var m, p := old(smoothModule), old(smoothParamId);
        && GetSmoothParam(m, p) == old(GetSmoothParam(m, p))
        && (old(m.params[p]) == next ==> smoothModule == null && smoothParamId == 0 && m.params[p] == smoothValue)
        && (old(m.params[p]) != next ==> smoothModule == m && smoothParamId == p && m.params[p] == next)
        && forall k :: 0 <= k < m.params.Length && k != p ==> m.params[k] == old(m.params[k])
    {
      if smoothModule != null {
        var param := smoothModule.params;
        if param[smoothParamId] == next {
          param[smoothParamId], smoothModule, smoothParamId := smoothValue, null, 0;
        } else {
          param[smoothParamId] := next;
        }
      }
      ValidKept();
    }

    // ------------------------------------------------------------ handles

    /** Registers a blank handle. */
    method AddParamHandle(h: ParamHandle)
      requires HandlesValid() && h !in paramHandles && h.moduleId < 0
      modifies this`paramHandles
      ensures HandlesValid()
      ensures paramHandles == old(paramHandles) + [h]
    {
      AppendHandleOk(paramHandles, h);
      paramHandles := paramHandles + [h];
    }

    /** Unregisters a handle, dropping its module reference. */
    method RemoveParamHandle(h: ParamHandle)
      requires HandlesValid() && h in paramHandles
      modifies h`resolved, this`paramHandles
      ensures HandlesValid()
      ensures h.resolved == null && h !in paramHandles
      ensures paramHandles == RemoveAt(old(paramHandles), IndexOf(old(paramHandles), h))
    {
      h.resolved := null;
      var index := IndexOf(paramHandles, h);
      RemoveHandleOk(paramHandles, index);
      RemoveAtDistinct(paramHandles, index);
      paramHandles := RemoveAt(paramHandles, index);
    }

    /** The first registered handle resolved to `m` on parameter `paramId`,
        or null. */
    method GetParamHandle(m: Module?, paramId: int) returns (r: ParamHandle?)
      ensures r == FindHandle(paramHandles, m, paramId)
    {
      var i := 0;
      while i < |paramHandles|
        invariant 0 <= i <= |paramHandles|
        invariant FindHandle(paramHandles[i..], m, paramId) == FindHandle(paramHandles, m, paramId)
      {
        if paramHandles[i].resolved == m && paramHandles[i].paramId == paramId {
          return paramHandles[i];
        }
        assert paramHandles[i..][1..] == paramHandles[i + 1..];
        i := i + 1;
      }
      return null;
    }

    /** The conflict pass of retargeting registered handle `h` with
        `overwrite` set: every other handle on the same parameter is
        blanked. */
    method BlankOthers(h: ParamHandle, moduleId: int, paramId: int)
      requires h in paramHandles && Distinct(paramHandles) && ExclusiveExcept(paramHandles, h)
      requires moduleId >= 0 && h.moduleId == moduleId && h.paramId == paramId
      modifies (HandleSet() - {h})`moduleId, (HandleSet() - {h})`paramId, (HandleSet() - {h})`resolved
      ensures HandlesValid()
      ensures forall p :: p in paramHandles && p != h ==>
        if old(p.moduleId) == moduleId && old(p.paramId) == paramId
        then p.moduleId == -1 && p.paramId == 0 && p.resolved == null
        else p.moduleId == old(p.moduleId) && p.paramId == old(p.paramId) && p.resolved == old(p.resolved)
    {
      var i := 0;
      while i < |paramHandles|
        invariant 0 <= i <= |paramHandles|
        invariant ExclusiveExcept(paramHandles, h)
        invariant forall j :: 0 <= j < |paramHandles| && paramHandles[j] != h ==>
          var p := paramHandles[j];
          if j < i && old(p.moduleId) == moduleId && old(p.paramId) == paramId
          then p.moduleId == -1 && p.paramId == 0 && p.resolved == null
          else p.moduleId == old(p.moduleId) && p.paramId == old(p.paramId) && p.resolved == old(p.resolved)
      {
        var p := paramHandles[i];
        if p != h && p.moduleId == moduleId && p.paramId == paramId {
          p.Reset();
        }
        i := i + 1;
      }
      ExclusiveJoin(paramHandles, h);
    }

    /** The conflict pass of retargeting registered handle `h` with
        `overwrite` clear: `h` is blanked if another handle is already on the
        parameter. */
    method YieldIfClaimed(h: ParamHandle, moduleId: int, paramId: int)
      requires h in paramHandles && Distinct(paramHandles) && ExclusiveExcept(paramHandles, h)
      requires moduleId >= 0 && h.moduleId == moduleId && h.paramId == paramId
      modifies h`moduleId, h`paramId, h`resolved
      ensures HandlesValid()
      ensures Claimed(paramHandles, h, moduleId, paramId) ==>
        h.moduleId == -1 && h.paramId == 0 && h.resolved == null
      ensures !Claimed(paramHandles, h, moduleId, paramId) ==>
        h.moduleId == moduleId && h.paramId == paramId && h.resolved == old(h.resolved)
    {
      var i := 0;
      while i < |paramHandles|
        invariant 0 <= i <= |paramHandles|
        invariant Claimed(paramHandles[..i], h, moduleId, paramId) ==>
          h.moduleId == -1 && h.paramId == 0 && h.resolved == null
        invariant !Claimed(paramHandles[..i], h, moduleId, paramId) ==>
          h.moduleId == moduleId && h.paramId == paramId && h.resolved == old(h.resolved)
      {
        var p := paramHandles[i];
        if p != h && p.moduleId == moduleId && p.paramId == paramId {
          h.Reset();
        }
        assert paramHandles[..i + 1] == paramHandles[..i] + [p];
        i := i + 1;
      }
      assert paramHandles[..i] == paramHandles;
      ExclusiveJoin(paramHandles, h);
    }

    /** Points `h` at the registered module with its target id, if any (a
        blanked handle's id is negative and names none). */
    method ResolveHandle(h: ParamHandle)
      requires ModulesOk(modules, nextModuleId) && h.resolved == null
      modifies h`resolved
      ensures h.resolved == FindModule(modules, h.moduleId)
    {
      var i := 0;
      while i < |modules|
        invariant 0 <= i <= |modules|
        invariant h.resolved != null ==> h.resolved in modules && h.resolved.id == h.moduleId
        invariant h.resolved == null ==> forall j :: 0 <= j < i ==> modules[j].id != h.moduleId
      {
        if modules[i].id == h.moduleId {
          h.resolved := modules[i];
        }
        i := i + 1;
      }
      if h.resolved != null {
        FindRegistered(modules, h.resolved);
      }
    }

    /** Retargets handle `h` to parameter `paramId` of module id `moduleId`.
        A registered handle with a target then settles conflicts by
        `overwrite` and, unless it was blanked, resolves to its module. */
    method UpdateParamHandle(h: ParamHandle, moduleId: int, paramId: int, overwrite: bool)
      requires ModulesValid() && HandlesValid()
      modifies HandleSet()`moduleId, HandleSet()`paramId, HandleSet()`resolved
      modifies h`moduleId, h`paramId, h`resolved
      ensures HandlesValid()
      ensures h !in paramHandles || moduleId < 0 ==>
        && h.moduleId == moduleId && h.paramId == paramId && h.resolved == null
        && forall p :: p in paramHandles && p != h ==>
             p.moduleId == old(p.moduleId) && p.paramId == old(p.paramId) && p.resolved == old(p.resolved)
      ensures h in paramHandles && moduleId >= 0 ==>
        && (overwrite || !old(Claimed(paramHandles, h, moduleId, paramId)) ==>
              h.moduleId == moduleId && h.paramId == paramId && h.resolved == FindModule(modules, moduleId))
        && (!overwrite && old(Claimed(paramHandles, h, moduleId, paramId)) ==>
              h.moduleId == -1 && h.paramId == 0 && h.resolved == null)
        && forall p :: p in paramHandles && p != h ==>
             if overwrite && old(p.moduleId) == moduleId && old(p.paramId) == paramId
             then p.moduleId == -1 && p.paramId == 0 && p.resolved == null
             else p.moduleId == old(p.moduleId) && p.paramId == old(p.paramId) && p.resolved == old(p.resolved)
    {
      assert ExclusiveExcept(paramHandles, h);
      h.moduleId, h.paramId, h.resolved := moduleId, paramId, null;
      if h in paramHandles && h.moduleId >= 0 {
        if overwrite {
          BlankOthers(h, moduleId, paramId);
        } else {
          YieldIfClaimed(h, moduleId, paramId);
        }
        ResolveHandle(h);
      }
    }

    // ---------------------------------------------------------- expanders

    /** Re-resolves one expander slot: the pointer is kept while it still
        names the module with the target id, and looked up again otherwise.
        Because slots never dangle and ids are distinct, the result is always
        the module with the target id. */
    method UpdateExpander(e: Expander) returns (r: Expander)
      requires ModuleIdsDistinct(modules)
      requires e.resolved == null || e.resolved in modules
      ensures r == e.(resolved := Resolve(e, modules))
    {
      r := e;
      if e.moduleId >= 0 {
        if e.resolved == null || e.resolved.id != e.moduleId {
          var found := GetModule(e.moduleId);
          r := e.(resolved := found);
        } else {
          FindRegistered(modules, e.resolved);
        }
      } else {
        if e.resolved != null {
          r := e.(resolved := null);
        }
      }
    }

    /** Re-resolves both expander slots of registered module `m`. */
    method ResolveExpanders(m: Module)
      requires ModuleIdsDistinct(modules)
      requires m.leftExpander.resolved == null || m.leftExpander.resolved in modules
      requires m.rightExpander.resolved == null || m.rightExpander.resolved in modules
      modifies m`leftExpander, m`rightExpander
      ensures m.leftExpander == old(m.leftExpander).(resolved := Resolve(old(m.leftExpander), modules))
      ensures m.rightExpander == old(m.rightExpander).(resolved := Resolve(old(m.rightExpander), modules))
    {
      var left := UpdateExpander(m.leftExpander);
      var right := UpdateExpander(m.rightExpander);
      m.leftExpander, m.rightExpander := left, right;
    }

    /** Re-resolves both expander slots of every registered module, as the
        engine does before each block of steps. */
    method UpdateExpanders()
      requires ModulesValid() && ExpandersValid()
      modifies Registered()`leftExpander, Registered()`rightExpander
      ensures ExpandersValid()
      ensures forall m :: m in modules ==>
        m.leftExpander == old(m.leftExpander).(resolved := Resolve(old(m.leftExpander), modules)) &&
        m.rightExpander == old(m.rightExpander).(resolved := Resolve(old(m.rightExpander), modules))
    {
      var i := 0;
      while i < |modules|
        invariant 0 <= i <= |modules|
        invariant forall j :: 0 <= j < |modules| ==>
          && modules[j].leftExpander ==
               (if j < i then old(modules[j].leftExpander).(resolved := Resolve(old(modules[j].leftExpander), modules))
                else old(modules[j].leftExpander))
          && modules[j].rightExpander ==
               (if j < i then old(modules[j].rightExpander).(resolved := Resolve(old(modules[j].rightExpander), modules))
                else old(modules[j].rightExpander))
        modifies Registered()`leftExpander, Registered()`rightExpander
      {
        ResolveExpanders(modules[i]);
        i := i + 1;
      }
    }

    // -------------------------------------------------------------- step

    /** The sequential dispatch loop: each registered module in turn is
        processed, unless bypassed, and has its ports stepped.  The calls it
        makes are returned in the order it makes them. */
    method StepModules() returns (made: seq<Call>)
      requires Valid()
      ensures Valid()
      ensures made == DispatchCalls(modules)
    {
      made := [];
      var i := 0;
      while i < |modules|
        invariant 0 <= i <= |modules|
        invariant made == DispatchCalls(modules[..i])
      {
        var m := modules[i];
        assert modules[..i + 1][..i] == modules[..i];
        if !m.bypass {
          made := made + [Process(m)];
        }
        made := made + [StepPorts(m)];
        i := i + 1;
      }
      assert modules[..i] == modules;
    }

    /** Steps every registered cable, in registry order, returning the calls
        made. */
    method StepCables() returns (made: seq<Call>)
      requires Valid()
      ensures Valid()
      ensures made == CableCalls(cables)
    {
      made := [];
      var i := 0;
      while i < |cables|
        invariant 0 <= i <= |cables|
        invariant made == CableCalls(cables[..i])
      {
        assert cables[..i + 1][..i] == cables[..i];
        made := made + [StepCable(cables[i])];
        i := i + 1;
      }
      assert cables[..i] == cables;
    }

    /** Appends calls made into foreign code to the log. */
    method Record(made: seq<Call>)
      requires Valid()
      modifies this`calls
      ensures Valid()
      ensures calls == old(calls) + made
    {
      calls := calls + made;
    }

    /** Hands over expander messages: every slot with a pending flip swaps
        its two buffers and clears the request. */
    method FlipMessages()
      requires Valid()
      modifies Registered()`leftExpander, Registered()`rightExpander
      ensures Valid()
      ensures forall m :: m in modules ==>
        m.leftExpander == Flipped(old(m.leftExpander)) && m.rightExpander == Flipped(old(m.rightExpander))
    {
      var i := 0;
      while i < |modules|
        invariant 0 <= i <= |modules|
        invariant forall j :: 0 <= j < |modules| ==>
          && modules[j].leftExpander == (if j < i then Flipped(old(modules[j].leftExpander)) else old(modules[j].leftExpander))
          && modules[j].rightExpander == (if j < i then Flipped(old(modules[j].rightExpander)) else old(modules[j].rightExpander))
        modifies Registered()`leftExpander, Registered()`rightExpander
      {
        var m := modules[i];
        if m.leftExpander.messageFlipRequested {
          m.leftExpander := m.leftExpander.(
            producerMessage := m.leftExpander.consumerMessage,
            consumerMessage := m.leftExpander.producerMessage,
            messageFlipRequested := false);
        }
        if m.rightExpander.messageFlipRequested {
          m.rightExpander := m.rightExpander.(
            producerMessage := m.rightExpander.consumerMessage,
            consumerMessage := m.rightExpander.producerMessage,
            messageFlipRequested := false);
        }
        i := i + 1;
      }
    }

    /** Module dispatch followed by cable propagation, the part of one
        engine step that calls into foreign code. */
    method StepGraph()
      requires Valid()
      modifies this`calls
      ensures Valid()
      ensures calls == old(calls + DispatchCalls(modules)) + CableCalls(cables)
    {
      var dispatched := StepModules();
      var propagated := StepCables();
      Record(dispatched + propagated);
    }

    /** One engine step: smoothing, module dispatch, cable propagation and
        the expander message flip, in that order.  `next` is the smoothing
        arithmetic's result (see `SmoothStep`). */
    method Step(next: ParamValue)
      requires Valid()
      modifies this`smoothModule, this`smoothParamId, SmoothParams(), this`calls
      modifies Registered()`leftExpander, Registered()`rightExpander
      ensures Valid()
    {
      SmoothStep(next);
      StepGraph();
      FlipMessages();
    }
  }
}
