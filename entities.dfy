/**
 * The entities the engine keeps in its registries: modules, cables and
 * parameter handles.  Identity is reference identity, as in the engine,
 * which compares raw pointers; so each entity is a class.
 *
 * Only the fields the engine itself reads or writes are modelled.  What the
 * entities do on their own (DSP in `process`, plug-light aging in the ports,
 * voltage propagation in a cable) is foreign code: the engine's calls into
 * it are recorded as `Call` values instead.
 */
module Entities {

  /** A parameter value.  The engine stores and copies these; the model does
      no arithmetic on them (the smoothing arithmetic is left out). */
  type ParamValue = real

  /** The address of one of an expander's two message buffers.  The engine
      only swaps the two; it never looks inside. */
  type MessageBuffer = nat

  /** The part of an input or output port that the engine touches: whether a
      cable is plugged into it, and its polyphonic channel count. */
  datatype Port = Port(active: bool, channels: int)

  /** One of a module's two expander slots (left or right): the id of the
      neighbour it targets (-1 for none), the resolved neighbour, and the
      double-buffered message pair with its flip request. */
  datatype Expander = Expander(
    moduleId: int,
    resolved: Module?,
    producerMessage: MessageBuffer,
    consumerMessage: MessageBuffer,
    messageFlipRequested: bool)

  /** A processing unit. `id` is -1 until the engine assigns one.  Its
      parameter values and its port lists are fixed-size buffers the engine
      updates in place. */
  class Module {
    var id: int
    var bypass: bool
    var cpuTime: real
    const params: array<ParamValue>
    const inputs: array<Port>
    const outputs: array<Port>
    var leftExpander: Expander
    var rightExpander: Expander

    /** A module not yet registered: no id, not bypassed, expanders empty. */
    constructor (paramCount: nat, inputCount: nat, outputCount: nat)
      ensures id == -1 && !bypass && cpuTime == 0.0
      ensures params.Length == paramCount && inputs.Length == inputCount && outputs.Length == outputCount
      ensures fresh(params) && fresh(inputs) && fresh(outputs)
      ensures inputs != outputs
      ensures leftExpander.resolved == null && rightExpander.resolved == null
    {
      id := -1;
      bypass := false;
      cpuTime := 0.0;
      params := new ParamValue[paramCount](_ => 0.0);
      inputs := new Port[inputCount](_ => Port(false, 0));
      outputs := new Port[outputCount](_ => Port(false, 0));
      leftExpander := Expander(-1, null, 0, 0, false);
      rightExpander := Expander(-1, null, 0, 0, false);
    }
  }

  /** A cable from output port `outputId` of `outputModule` to input port
      `inputId` of `inputModule`.  The engine never re-plugs a cable, so its
      ends are fixed when it is made; only its id is assigned later. */
  class Cable {
    var id: int
    const outputModule: Module?
    const outputId: int
    const inputModule: Module?
    const inputId: int

    /** A cable not yet registered: no id. */
    constructor (outputModule: Module?, outputId: int, inputModule: Module?, inputId: int)
      ensures id == -1
      ensures this.outputModule == outputModule && this.outputId == outputId
      ensures this.inputModule == inputModule && this.inputId == inputId
    {
      id := -1;
      this.outputModule := outputModule;
      this.outputId := outputId;
      this.inputModule := inputModule;
      this.inputId := inputId;
    }
  }

  /** A UI-owned weak reference to parameter `paramId` of the module with id
      `moduleId` (blank when `moduleId` is negative), together with the
      module the engine last resolved that id to. */
  class ParamHandle {
    var moduleId: int
    var paramId: int
    var resolved: Module?

    /** A handle as the UI makes it: blank, targeting nothing. */
    constructor ()
      ensures Blank() && moduleId == -1 && paramId == 0 && resolved == null
    {
      moduleId := -1;
      paramId := 0;
      resolved := null;
    }

    /** True when the handle targets no parameter. */
    predicate Blank()
      reads this
    {
      moduleId < 0
    }

    /** Clears the handle back to its default, untargeted state. */
    method Reset()
      modifies this`moduleId, this`paramId, this`resolved
      ensures Blank() && moduleId == -1 && paramId == 0 && resolved == null
    {
      moduleId := -1;
      paramId := 0;
      resolved := null;
    }
  }

  /** A call the engine makes into code outside this model, in the order the
      engine makes it.  Lifecycle hooks, `process`, port aging and cable
      propagation are recorded rather than modelled. */
  datatype Call =
    | OnAdd(m: Module)
    | OnRemove(m: Module)
    | OnReset(m: Module)
    | OnRandomize(m: Module)
    | Process(m: Module)
    | StepPorts(m: Module)
    | StepCable(c: Cable)
}
