# Rack engine registry, in Dafny

A model of the core of VCV Rack's audio engine (`src/engine/Engine.cpp`): the
registry of modules, cables and parameter handles, the API that mutates it,
and the sequential bookkeeping inside each engine step.

The engine is one sequential state machine (`RackEngine.Engine`):

- three in-place lists: `modules`, `cables` and `paramHandles`;
- two id counters: `nextModuleId` and `nextCableId`;
- a single parameter-smoothing slot: `smoothModule`, `smoothParamId` and `smoothValue`.

Modules, cables and handles are classes (`Entities`), so identity is
reference identity, as with the engine's raw pointers. Calls the engine makes
into code outside this model are appended to a log `calls` of `Call` values:

- the `onAdd`, `onRemove`, `onReset` and `onRandomize` hooks;
- `process`;
- port stepping;
- `Cable::step`.

`Graph` holds the specification functions the methods are proved against. It
also holds the registry invariants and the lemmas that show each mutation
preserves them.

The engine's invariant `Valid()` is kept by every mutation. It says:

- modules, cables and handles are each registered at most once;
- module ids are pairwise distinct, non-negative and below `nextModuleId`;
- the same holds for cable ids and `nextCableId`;
- every cable is plugged into existing ports of registered modules;
- no input port has two cables;
- no two handles target the same parameter;
- no expander slot points outside the registry;
- the smoothing slot names an existing parameter.

The files:

- `entities.dfy`: modules, cables, handles, ports, expanders and the call log entries.
- `graph.dfy`: sequence helpers, lookups, connectivity, handle exclusivity, registry invariants, expander resolution and flip, and dispatch.
- `engine.dfy`: the engine class and its API.

## Model

| member | source | states |
|---|---|---|
| Graph.IndexOf | src/engine/Engine.cpp:507-509 | the position `std::find` yields for a registered entity: it holds the entity, and no earlier position does |
| Graph.RemoveAt | src/engine/Engine.cpp:536-538 | erasing a position shortens the list by one; elements before it keep their positions, and later ones move down by one, so relative order is preserved |
| Graph.RemoveAtDistinct | src/engine/Engine.cpp:536-538 | erasing a position of a duplicate-free registry removes exactly that entity and keeps the registry duplicate-free |
| Graph.RemoveAtModuleIds | src/engine/Engine.cpp:536-538 | erasing a module keeps the remaining module ids pairwise distinct |
| Graph.RemoveAtCableIds | src/engine/Engine.cpp:647-648 | erasing a cable keeps the remaining cable ids pairwise distinct |
| Graph.AssignId | src/engine/Engine.cpp:477-491 | the id rule: a negative id takes the counter, which advances by one; a manual id is kept, and the counter ends above it; the counter never decreases |
| Graph.AssignIdFresh | src/engine/Engine.cpp:477-491 | when all ids in use lie below the counter and a manual id is unused, the assigned id is new and non-negative, and every old id stays below the new counter |
| Graph.FindModule | src/engine/Engine.cpp:541-550 | the lookup returns a registered module with the requested id, and returns null exactly when no registered module has that id |
| Graph.FindRegistered | src/engine/Engine.cpp:319-323 | with distinct ids, looking up a registered module's id yields that very module |
| Graph.PlugInputs | src/engine/Engine.cpp:599-602 | plugging the cables in, in order, changes no channel count of the input ports |
| Graph.PlugOutputs | src/engine/Engine.cpp:599-602 | plugging the cables in, in order, changes no channel count of the output ports |
| Graph.PlugInputsLinked | src/engine/Engine.cpp:599-602 | after the cable loop, an input port is active exactly when it was before, or when some cable enters it |
| Graph.PlugOutputsLinked | src/engine/Engine.cpp:599-602 | after the cable loop, an output port is active exactly when it was before, or when some cable leaves it |
| Graph.InputLinkedSnoc | src/engine/Engine.cpp:599-602 | a cable list enters an input port exactly when its prefix or its last cable does |
| Graph.OutputLinkedSnoc | src/engine/Engine.cpp:599-602 | a cable list leaves an output port exactly when its prefix or its last cable does |
| Graph.RemoveAtInputsExclusive | src/engine/Engine.cpp:647-648 | erasing a cable keeps every input port with at most one cable |
| Graph.InputTargetUnique | src/engine/Engine.cpp:612-616 | with the add-time check in force, two registered cables on the same input port are the same cable |
| Graph.Deactivated | src/engine/Engine.cpp:589-597 | every port is marked inactive and keeps its channel count |
| Graph.WithChannels | src/engine/Engine.cpp:572-584 | every port gets the given channel count and keeps its active flag |
| Graph.AuthoritativeHandleUnique | src/engine/Engine.cpp:729-738 | when handles are exclusive, two registered handles targeting the same parameter are the same handle |
| Graph.RemoveAtHandlesExclusive | src/engine/Engine.cpp:702-704 | erasing a handle keeps the rest exclusive |
| Graph.ExclusiveJoin | src/engine/Engine.cpp:729-738 | the registry is exclusive once the others are exclusive among themselves and the retargeted handle is blank or alone on its parameter |
| Graph.FindHandle | src/engine/Engine.cpp:707-716 | the lookup returns a registered handle resolved to the module on that parameter, and returns null exactly when no registered handle is |
| Graph.RaiseModulesOk | src/engine/Engine.cpp:488-490 | raising the module counter keeps the module registry valid |
| Graph.AppendModuleOk | src/engine/Engine.cpp:474-493 | appending an unregistered module with a new id below the counter keeps ids distinct and below the counter |
| Graph.AppendPortsOwned | src/engine/Engine.cpp:493 | appending a module that owns its port buffers keeps every buffer owned by one module |
| Graph.AppendExpandersOk | src/engine/Engine.cpp:493 | appending a module with empty expander slots leaves no slot pointing outside the registry |
| Graph.AppendAttached | src/engine/Engine.cpp:493 | appending a module keeps every cable between registered modules |
| Graph.RemoveModuleOk | src/engine/Engine.cpp:536-538 | erasing a module keeps the module registry valid |
| Graph.RemovePortsOwned | src/engine/Engine.cpp:536-538 | erasing a module keeps the remaining buffers owned |
| Graph.RemoveAttached | src/engine/Engine.cpp:514-538 | erasing a module that no cable uses keeps every cable between registered modules |
| Graph.RemoveExpandersOk | src/engine/Engine.cpp:524-538 | erasing a module that no slot points at keeps every slot inside the registry |
| Graph.RaiseCablesOk | src/engine/Engine.cpp:628-630 | raising the cable counter keeps the cable registry valid |
| Graph.AppendCableOk | src/engine/Engine.cpp:610-633 | appending a plugged, unregistered cable with a new id, on a free input, keeps the cable registry valid |
| Graph.AppendCableAttached | src/engine/Engine.cpp:633 | a cable between registered modules keeps all cables attached |
| Graph.RemoveCableOk | src/engine/Engine.cpp:647-648 | erasing a cable keeps the cable registry valid |
| Graph.RemoveCableAttached | src/engine/Engine.cpp:647-648 | erasing a cable keeps the rest attached |
| Graph.AppendHandleOk | src/engine/Engine.cpp:687-693 | appending an unregistered blank handle keeps the handle registry valid |
| Graph.RemoveHandleOk | src/engine/Engine.cpp:701-704 | erasing a handle keeps the handle registry valid |
| Graph.Detached | src/engine/Engine.cpp:524-534 | a slot that pointed at the removed module now targets nothing (`-1`, null); any other slot is unchanged; the message buffers are untouched |
| Graph.Resolve | src/engine/Engine.cpp:319-330 | the module a slot should point at: a registered module with the slot's id; null exactly when the id is negative or no registered module has it |
| Graph.Flipped | src/engine/Engine.cpp:306-316 | a requested flip swaps the producer and consumer buffers; without a request, the slot is unchanged; no flip is pending afterwards |
| Graph.FlipSettles | src/engine/Engine.cpp:306-316 | flipping twice with no new request is the same as flipping once |
| Graph.DispatchOnce | src/engine/Engine.cpp:236-268 | dispatch over a duplicate-free registry steps each registered module's ports exactly once; it calls `process` once on each module that is not bypassed, never on a bypassed one, and never on an unregistered one |
| Graph.ModuleCalls | src/engine/Engine.cpp:242-267 | dispatching one module makes two calls, `process` then the port step, or only the port step when it is bypassed |
| Graph.ModuleCallsCount | src/engine/Engine.cpp:242-267 | dispatching one module steps only that module's ports and runs only its `process`, and only when it is not bypassed |
| Graph.DispatchCalls | src/engine/Engine.cpp:236-268 | the sequential dispatch over all modules makes at least one call per module (the exact counts per module are `Graph.DispatchOnce`) |
| Graph.CableCalls | src/engine/Engine.cpp:301-304 | propagation makes one step per cable, in registry order |
| Entities.Module.constructor | src/engine/Engine.cpp:477-481 | a new module has no id yet (-1, so registration assigns one), is not bypassed, has empty expander slots, and has its own fresh parameter and port buffers, with inputs and outputs distinct |
| Entities.Cable.constructor | src/engine/Engine.cpp:617-621 | a new cable has no id yet (-1, so registration assigns one) and the given ends |
| Entities.ParamHandle.constructor | src/engine/Engine.cpp:691-692 | a new handle is blank (module id -1, param id 0, no module), as registration demands |
| Entities.ParamHandle.Reset | src/engine/Engine.cpp:733-736 | the handle is blanked: module id -1, param id 0, no module |
| RackEngine.Engine.constructor | src/engine/Engine.cpp:170-186 | a new engine has empty registries, counters at 0 and no smoothing, and is valid |
| RackEngine.Engine.PointHandles | src/engine/Engine.cpp:496-500 | every registered handle with the given module id is pointed at the target; no other handle changes |
| RackEngine.Engine.AssignModuleId | src/engine/Engine.cpp:477-491 | the module gets its id by the id rule; the id is new and below the counter |
| RackEngine.Engine.AppendModule | src/engine/Engine.cpp:492-495 | exactly one module is appended at the end, and `onAdd` is recorded |
| RackEngine.Engine.AddModule | src/engine/Engine.cpp:470-500 | an unregistered module with an unused manual id, or none, is appended with its id by the id rule; handles with that id resolve to it, and no other handle changes; ids stay distinct and below the counter |
| RackEngine.Engine.DetachExpanders | src/engine/Engine.cpp:524-534 | every slot that pointed at the removed module is cleared; all other slots are unchanged; none points at it afterwards |
| RackEngine.Engine.UnregisterModule | src/engine/Engine.cpp:535-538 | `onRemove` is recorded; the module is erased from its position, and the order of the rest is kept |
| RackEngine.Engine.ReleaseModule | src/engine/Engine.cpp:510-534 | smoothing on the module stops, handles with its id are cleared, and slots pointing at it are cleared |
| RackEngine.Engine.RemoveModule | src/engine/Engine.cpp:503-539 | a registered module that no cable uses is erased, and the order of the rest is kept; smoothing on it stops; handles with its id and slots pointing at it are cleared; `onRemove` is recorded; the invariant holds |
| RackEngine.Engine.GetModule | src/engine/Engine.cpp:541-550 | returns the registered module with the id, or null when there is none (via `Graph.FindModule`) |
| RackEngine.Engine.ResetModule | src/engine/Engine.cpp:552-558 | records the `onReset` call |
| RackEngine.Engine.RandomizeModule | src/engine/Engine.cpp:560-566 | records the `onRandomize` call |
| RackEngine.Engine.SetChannels | src/engine/Engine.cpp:573-583 | every output gets the channel count, and its active flag is kept |
| RackEngine.Engine.BypassModule | src/engine/Engine.cpp:568-586 | bypassing sets every output to 0 channels and sets the CPU time to 0; un-bypassing sets every output to 1 channel; the flag is set either way |
| RackEngine.Engine.Deactivate | src/engine/Engine.cpp:591-596 | every port of a module is marked inactive |
| RackEngine.Engine.ClearFlags | src/engine/Engine.cpp:589-597 | every port of every registered module is marked inactive, and channels are kept |
| RackEngine.Engine.MarkCables | src/engine/Engine.cpp:598-602 | the ports are the result of plugging every registered cable in, in order |
| RackEngine.Engine.UpdateConnected | src/engine/Engine.cpp:588-603 | afterwards a port is active exactly when a registered cable names it; no channel count changes |
| RackEngine.Engine.AssignCableId | src/engine/Engine.cpp:617-631 | the cable gets its id by the id rule; the id is new and below the counter |
| RackEngine.Engine.AppendCable | src/engine/Engine.cpp:632-633 | exactly one cable is appended at the end |
| RackEngine.Engine.RegisterCable | src/engine/Engine.cpp:617-633 | the cable gets its id by the id rule and is appended |
| RackEngine.Engine.AddCable | src/engine/Engine.cpp:605-635 | an unregistered cable with both ends set, on a free input, with an unused manual id or none, is appended with its id by the id rule; connectivity then matches the cable list; channels are unchanged |
| RackEngine.Engine.UnregisterCable | src/engine/Engine.cpp:647-648 | exactly that position is erased, and the invariant holds |
| RackEngine.Engine.SilenceInput | src/engine/Engine.cpp:644-646 | the cable's input gets 0 channels; every other port is unchanged |
| RackEngine.Engine.RemoveCable | src/engine/Engine.cpp:637-650 | a registered cable is erased, and the order of the rest is kept; its input has 0 channels; connectivity matches the remaining cables; no other channel count changes |
| RackEngine.Engine.GetParam | src/engine/Engine.cpp:662-664 | the stored value of the parameter; `SetParam` makes it the value written |
| RackEngine.Engine.GetSmoothParam | src/engine/Engine.cpp:677-681 | the smoothing target when that parameter is the one being smoothed, and its stored value otherwise; `SetParam`, `SetSmoothParam` and `SmoothStep` state what it is after each change |
| RackEngine.Engine.SetParam | src/engine/Engine.cpp:652-660 | the value is written; smoothing of that same parameter is cancelled (the slot is cleared); otherwise the slot is kept; other parameters are unchanged |
| RackEngine.Engine.SetSmoothParam | src/engine/Engine.cpp:666-675 | a different parameter being smoothed jumps to its target first; the new pair becomes the only slot, and `GetSmoothParam` then returns the new target |
| RackEngine.Engine.SmoothStep | src/engine/Engine.cpp:274-293 | with the arithmetic's result `next`: a value that would not change snaps to the target and clears the slot; otherwise it takes `next`; the target a parameter heads to is kept; nothing else changes |
| RackEngine.Engine.AddParamHandle | src/engine/Engine.cpp:683-694 | an unregistered blank handle is appended, and handles stay exclusive |
| RackEngine.Engine.RemoveParamHandle | src/engine/Engine.cpp:696-705 | the handle's module is nulled and exactly its position is erased |
| RackEngine.Engine.GetParamHandle | src/engine/Engine.cpp:707-716 | returns the first handle resolved to the module on that parameter, or null (via `Graph.FindHandle`) |
| RackEngine.Engine.BlankOthers | src/engine/Engine.cpp:730-738 | with `overwrite`, every other handle on the same parameter is reset; the rest are unchanged; handles become exclusive |
| RackEngine.Engine.YieldIfClaimed | src/engine/Engine.cpp:730-738 | without `overwrite`, the retargeted handle is reset exactly when another handle already targets the parameter |
| RackEngine.Engine.ResolveHandle | src/engine/Engine.cpp:739-744 | the handle points at the registered module with its id, or at null when there is none |
| RackEngine.Engine.UpdateParamHandle | src/engine/Engine.cpp:718-746 | the handle takes the new target and is unresolved; if it is registered with a non-negative id: either the others on that parameter are blanked (overwrite), or it is blanked itself when claimed (no overwrite); if it survives, it resolves to the module with that id; handles stay exclusive |
| RackEngine.Engine.UpdateExpander | src/engine/Engine.cpp:319-330 | the slot points at the registered module with its target id, or at null when the id is negative or unknown; buffers and id are unchanged |
| RackEngine.Engine.ResolveExpanders | src/engine/Engine.cpp:402-405 | both slots of one module are re-resolved |
| RackEngine.Engine.UpdateExpanders | src/engine/Engine.cpp:401-405 | every slot of every registered module is re-resolved; no slot dangles |
| RackEngine.Engine.StepModules | src/engine/Engine.cpp:236-268 | the calls dispatch makes, index 0 upwards: `process` unless bypassed, then the port step (counted by `Graph.DispatchOnce`) |
| RackEngine.Engine.StepCables | src/engine/Engine.cpp:301-304 | one step per registered cable, in order |
| RackEngine.Engine.FlipMessages | src/engine/Engine.cpp:306-316 | every slot of every registered module is flipped exactly when a flip was requested, and no flip is left pending |
| RackEngine.Engine.StepGraph | src/engine/Engine.cpp:295-304 | dispatch's calls, then propagation's calls, are appended to the log |
| RackEngine.Engine.Step | src/engine/Engine.cpp:271-317 | one step (smoothing, dispatch, propagation, flip) keeps the invariant |

## Left out

- Threads and synchronization are not modelled. This covers the priority-yield mutex, the barriers, the worker threads, start and stop, and the atomic module index. Dispatch is modelled as a sequential loop over the indices. Every method of the model runs with the engine to itself. The registry operations get this from their locks; the methods in the next line do not.
- RackEngine.Engine.SetParam, RackEngine.Engine.GetParam, RackEngine.Engine.SetSmoothParam, RackEngine.Engine.GetSmoothParam and RackEngine.Engine.GetParamHandle: the source runs these without taking the engine's locks (`getParamHandle` has them commented out). The model does not capture their interleaving with a running step. Nor does it capture the write order in `setSmoothParam`, which sets the module last so that a concurrent step sees the id and target first.
- The run loop and its pacing are not modelled (wall-clock time, sleeping, settings polls). Only its expander pass is modelled, as `UpdateExpanders`.
- The float arithmetic of smoothing is not modelled: `SmoothStep` takes the computed value `next` as a parameter. The CPU-time moving average is not modelled either; only `BypassModule`'s reset of it to 0 is. Parameter values are opaque `real`s.
- Denormal control and the CPU pause instruction are not modelled.
- Calls into code outside this model are recorded in `calls` rather than modelled (`process`, the lifecycle hooks, port and cable stepping).
- `src/engine/ParamHandle.hpp` is not part of this model. `reset` (`Entities.ParamHandle.Reset`) is taken to blank the handle to module id -1, param id 0 and no module, and a new handle (`Entities.ParamHandle.constructor`) is taken to start blank in the same way.
- The headers declaring `Module` and `Cable` are not part of this model. Their constructors here state only what the engine relies on: no id yet, and, for a module, separate buffers for its parameters, inputs and outputs.
- `src/engine/Port.hpp` is not part of this model. `setChannels` is taken to set the channel count only (zeroing voltages is not modelled).
- `Param::setValue` in the smoothing snap is modelled as a plain write.
- All of `src/system.cpp` is not modelled: it is filesystem, process and OS plumbing.
- Several contract errors the source catches with `assert` are `requires` here. Beyond those, the model also requires:
  - cable ends to name existing ports of registered modules;
  - a new module to own its port buffers and to have empty expander slots;
  - a smoothed parameter id to be in range.

  The source leaves these to its callers.
- A cable's ends are `const`: the engine never re-plugs a cable. A module's parameters are a fixed-size array.
- RackEngine.Engine.BypassModule: the invariant is not restated, because bypassing touches only the module's outputs and flags.
- Graph.AssignId: ids and id counters are unbounded integers here, but in the source they are 32-bit `int`. A manual id of 2147483647, or an automatic id taken when the counter is at that value, overflows `nextModuleId` or `nextCableId` in the source. That is signed overflow: in practice the counter wraps to a negative value. The model does not include this overflow.
- RackEngine.Engine.AssignModuleId, RackEngine.Engine.AddModule: `0 <= m.id < nextModuleId` and the invariant that module ids stay below the counter hold only because of the unbounded integers in the `Graph.AssignId` line. The source breaks them after the overflow at 2147483647.
- RackEngine.Engine.AssignCableId, RackEngine.Engine.RegisterCable, RackEngine.Engine.AddCable: the same for cable ids and `nextCableId`.
- RackEngine.Engine.UpdateParamHandle: the conflict loop is written as two loops, `BlankOthers` and `YieldIfClaimed`, one per value of `overwrite`. Both visit the handles in the same order and make the same resets as the single loop.
- RackEngine.Engine.UpdateParamHandle: the module loop has no `break`, so it picks the last module with the id. With distinct ids this is the only one, which is what `FindModule` returns.
- RackEngine.Engine.Step: states only that the invariant is kept. The step's behaviour is stated phase by phase by `SmoothStep`, `StepGraph` and `FlipMessages`.
- RackEngine.Engine.StepModules and RackEngine.Engine.StepCables return the calls they make, and `StepGraph` appends both to the log at once. The log's order is the order of the calls.
- RackEngine.Engine.UpdateExpander requires distinct module ids, which the engine's invariant gives. Under that requirement, keeping a still-matching pointer equals looking it up again.
- RackEngine.Engine.RemoveModule: `onRemove` is recorded together with the erase, after the references are released, which is the source's order.
