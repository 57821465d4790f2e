/**
 * Specification functions over the engine's registries (sequences of
 * modules, cables and handles) and the properties proved about them.  The
 * engine's methods are proved against these.
 */
module Graph {
  import opened Entities

  /** No element occurs twice: the registries hold each entity at most once. */
  predicate Distinct<T(==)>(s: seq<T>) {
    forall i, j :: 0 <= i < j < |s| ==> s[i] != s[j]
  }

  /** The first position of `x` in `s` (what `std::find` yields). */
  function IndexOf<T(==)>(s: seq<T>, x: T): (k: nat)
    requires x in s
    ensures k < |s| && s[k] == x
    ensures forall i :: 0 <= i < k ==> s[i] != x
  {
    if s[0] == x then 0 else 1 + IndexOf(s[1..], x)
  }

  /** `s` with position `k` erased (what `vector::erase` leaves). */
  function RemoveAt<T>(s: seq<T>, k: nat): (r: seq<T>)
    requires k < |s|
    ensures |r| == |s| - 1
    ensures forall i :: 0 <= i < k ==> r[i] == s[i]
    ensures forall i :: k <= i < |r| ==> r[i] == s[i + 1]
  {
    s[..k] + s[k + 1..]
  }

  /** Erasing one position of a duplicate-free sequence removes exactly that
      element, and leaves the sequence duplicate-free. */
  lemma RemoveAtDistinct<T>(s: seq<T>, k: nat)
    requires k < |s| && Distinct(s)
    ensures Distinct(RemoveAt(s, k))
    ensures forall x :: x in RemoveAt(s, k) <==> x in s && x != s[k]
  {
    var r := RemoveAt(s, k);
    forall x | x in s && x != s[k]
      ensures x in r
    {
      var i :| 0 <= i < |s| && s[i] == x;
      if i < k { assert r[i] == x; } else { assert r[i - 1] == x; }
    }
  }

  /** Erasing a position keeps every pair of remaining elements in order:
      whatever holds of all ordered pairs of `s` holds of `RemoveAt(s, k)`. */
  lemma RemoveAtPairs<T>(s: seq<T>, k: nat, i: nat, j: nat)
    requires k < |s| && i < j < |s| - 1
    ensures var i', j' := (if i < k then i else i + 1), (if j < k then j else j + 1);
      i' < j' < |s| && RemoveAt(s, k)[i] == s[i'] && RemoveAt(s, k)[j] == s[j']
  {
  }

  // ---------------------------------------------------------------- ids

  /** Registered module ids are pairwise distinct. */
  predicate ModuleIdsDistinct(ms: seq<Module>)
    reads (set m | m in ms)`id
  {
    forall i, j :: 0 <= i < j < |ms| ==> ms[i].id != ms[j].id
  }

  /** Registered cable ids are pairwise distinct. */
  predicate CableIdsDistinct(cs: seq<Cable>)
    reads (set c | c in cs)`id
  {
    forall i, j :: 0 <= i < j < |cs| ==> cs[i].id != cs[j].id
  }

  /** Erasing a module keeps the remaining ids distinct. */
  lemma RemoveAtModuleIds(ms: seq<Module>, k: nat)
    requires k < |ms| && ModuleIdsDistinct(ms)
    ensures ModuleIdsDistinct(RemoveAt(ms, k))
  {
    forall i, j | 0 <= i < j < |ms| - 1
      ensures RemoveAt(ms, k)[i].id != RemoveAt(ms, k)[j].id
    {
      RemoveAtPairs(ms, k, i, j);
    }
  }

  /** Erasing a cable keeps the remaining ids distinct. */
  lemma RemoveAtCableIds(cs: seq<Cable>, k: nat)
    requires k < |cs| && CableIdsDistinct(cs)
    ensures CableIdsDistinct(RemoveAt(cs, k))
  {
    forall i, j | 0 <= i < j < |cs| - 1
      ensures RemoveAt(cs, k)[i].id != RemoveAt(cs, k)[j].id
    {
      RemoveAtPairs(cs, k, i, j);
    }
  }

  /** The outcome of giving an entity an id: the id it ends up with and the
      new value of the id counter. */
  datatype IdAssignment = IdAssignment(id: int, next: int)

  /** The id rule shared by modules and cables: a negative requested id means
      "assign the counter and advance it"; a non-negative one is kept, and
      the counter is moved past it. */
  function AssignId(requested: int, next: int): (a: IdAssignment)
    ensures requested >= 0 ==> a.id == requested
    ensures requested < 0 ==> a.id == next && a.next == next + 1
    ensures next <= a.next && a.id < a.next
    ensures requested >= 0 && requested < next ==> a.next == next
  {
    if requested < 0 then IdAssignment(next, next + 1)
    else IdAssignment(requested, if requested >= next then requested + 1 else next)
  }

  /** When every id in use lies in `[0, next)`, the assigned id is new (an
      automatic one because it is the counter, a manual one because the
      caller checked it), non-negative, and below the new counter, as all the
      old ids still are. */
  lemma AssignIdFresh(ids: seq<int>, requested: int, next: int)
    requires 0 <= next
    requires forall i :: 0 <= i < |ids| ==> 0 <= ids[i] < next
    requires requested >= 0 ==> requested !in ids
    ensures AssignId(requested, next).id !in ids
    ensures 0 <= AssignId(requested, next).id
    ensures forall i :: 0 <= i < |ids| ==> ids[i] < AssignId(requested, next).next
  {
  }

  /** The first registered module with id `id`, or null (what `getModule`
      returns). */
  function FindModule(ms: seq<Module>, id: int): (r: Module?)
    reads (set m | m in ms)`id
    ensures r != null ==> r in ms && r.id == id
    ensures r == null <==> forall i :: 0 <= i < |ms| ==> ms[i].id != id
  {
    if |ms| == 0 then null
    else if ms[0].id == id then ms[0]
    else FindModule(ms[1..], id)
  }

  /** With distinct ids, looking up a registered module's id finds that very
      module: ids identify modules. */
  lemma {:induction false} FindRegistered(ms: seq<Module>, m: Module)
    requires ModuleIdsDistinct(ms) && m in ms
    ensures FindModule(ms, m.id) == m
  {
    if ms[0] != m {
      assert ms[0].id != m.id by {
        var j :| 0 <= j < |ms| && ms[j] == m;
        assert j != 0;
      }
      assert ModuleIdsDistinct(ms[1..]) by {
        forall i, j | 0 <= i < j < |ms[1..]|
          ensures ms[1..][i].id != ms[1..][j].id
        {
          assert ms[1..][i] == ms[i + 1] && ms[1..][j] == ms[j + 1];
        }
      }
      FindRegistered(ms[1..], m);
    }
  }

  // ---------------------------------------------------------- connectivity

  /** Some cable in `cs` leaves output port `k` of `m`. */
  predicate OutputLinked(cs: seq<Cable>, m: Module, k: int)
  {
    exists i :: 0 <= i < |cs| && cs[i].outputModule == m && cs[i].outputId == k
  }

  /** Some cable in `cs` enters input port `k` of `m`. */
  predicate InputLinked(cs: seq<Cable>, m: Module, k: int)
  {
    exists i :: 0 <= i < |cs| && cs[i].inputModule == m && cs[i].inputId == k
  }

  /** Some cable of `cs` enters input port `k` of `m` exactly when one before
      the last does, or the last one does. */
  lemma {:induction false} InputLinkedSnoc(cs: seq<Cable>, m: Module, k: int)
    requires cs != []
    ensures InputLinked(cs, m, k) <==>
      InputLinked(cs[..|cs| - 1], m, k) || (cs[|cs| - 1].inputModule == m && cs[|cs| - 1].inputId == k)
  {
    var init := cs[..|cs| - 1];
    if InputLinked(cs, m, k) {
      var i :| 0 <= i < |cs| && cs[i].inputModule == m && cs[i].inputId == k;
      if i < |init| { assert init[i] == cs[i]; }
    }
    if InputLinked(init, m, k) {
      var i :| 0 <= i < |init| && init[i].inputModule == m && init[i].inputId == k;
      assert cs[i] == init[i];
    }
  }

  /** The same for output ports. */
  lemma {:induction false} OutputLinkedSnoc(cs: seq<Cable>, m: Module, k: int)
    requires cs != []
    ensures OutputLinked(cs, m, k) <==>
      OutputLinked(cs[..|cs| - 1], m, k) || (cs[|cs| - 1].outputModule == m && cs[|cs| - 1].outputId == k)
  {
    var init := cs[..|cs| - 1];
    if OutputLinked(cs, m, k) {
      var i :| 0 <= i < |cs| && cs[i].outputModule == m && cs[i].outputId == k;
      if i < |init| { assert init[i] == cs[i]; }
    }
    if OutputLinked(init, m, k) {
      var i :| 0 <= i < |init| && init[i].outputModule == m && init[i].outputId == k;
      assert cs[i] == init[i];
    }
  }

  /** The input ports `ps` of `m` after the cables of `cs` are plugged in
      one by one, in order: a cable entering `m` switches its port on. */
  function PlugInputs(ps: seq<Port>, cs: seq<Cable>, m: Module): (r: seq<Port>)
    ensures SameChannels(ps, r)
  {
    if cs == [] then ps
    else
      var p := PlugInputs(ps, cs[..|cs| - 1], m);
      var c := cs[|cs| - 1];
      if c.inputModule == m && 0 <= c.inputId < |p| then p[c.inputId := p[c.inputId].(active := true)] else p
  }

  /** The output ports `ps` of `m` after the cables of `cs` are plugged in
      one by one, in order: a cable leaving `m` switches its port on. */
  function PlugOutputs(ps: seq<Port>, cs: seq<Cable>, m: Module): (r: seq<Port>)
    ensures SameChannels(ps, r)
  {
    if cs == [] then ps
    else
      var p := PlugOutputs(ps, cs[..|cs| - 1], m);
      var c := cs[|cs| - 1];
      if c.outputModule == m && 0 <= c.outputId < |p| then p[c.outputId := p[c.outputId].(active := true)] else p
  }

  /** Plugging in the cables switches on exactly the input ports some cable
      enters, and no other: afterwards port `k` is on when it was on before
      or a cable of `cs` enters it. */
  lemma {:induction false} PlugInputsLinked(ps: seq<Port>, cs: seq<Cable>, m: Module, k: int)
    requires 0 <= k < |ps|
    ensures PlugInputs(ps, cs, m)[k].active == (ps[k].active || InputLinked(cs, m, k))
  {
    if cs != [] {
      PlugInputsLinked(ps, cs[..|cs| - 1], m, k);
      InputLinkedSnoc(cs, m, k);
    }
  }

  /** The same for output ports. */
  lemma {:induction false} PlugOutputsLinked(ps: seq<Port>, cs: seq<Cable>, m: Module, k: int)
    requires 0 <= k < |ps|
    ensures PlugOutputs(ps, cs, m)[k].active == (ps[k].active || OutputLinked(cs, m, k))
  {
    if cs != [] {
      PlugOutputsLinked(ps, cs[..|cs| - 1], m, k);
      OutputLinkedSnoc(cs, m, k);
    }
  }

  /** Two port lists of the same length and the same channel counts. */
  predicate SameChannels(before: seq<Port>, after: seq<Port>) {
    |after| == |before| && forall k :: 0 <= k < |after| ==> after[k].channels == before[k].channels
  }

  /** No two cables in `cs` enter the same input port. */
  predicate InputsExclusive(cs: seq<Cable>)
  {
    forall i, j :: 0 <= i < j < |cs| ==>
      !(cs[i].inputModule == cs[j].inputModule && cs[i].inputId == cs[j].inputId)
  }

  /** Erasing a cable keeps the remaining input ports exclusive. */
  lemma RemoveAtInputsExclusive(cs: seq<Cable>, k: nat)
    requires k < |cs| && InputsExclusive(cs)
    ensures InputsExclusive(RemoveAt(cs, k))
  {
    var r := RemoveAt(cs, k);
    forall i, j | 0 <= i < j < |r|
      ensures !(r[i].inputModule == r[j].inputModule && r[i].inputId == r[j].inputId)
    {
      RemoveAtPairs(cs, k, i, j);
    }
  }

  /** Under `InputsExclusive`, an input port is the target of at most one
      registered cable. */
  lemma {:induction false} InputTargetUnique(cs: seq<Cable>, a: Cable, b: Cable)
    requires InputsExclusive(cs) && a in cs && b in cs
    requires a.inputModule == b.inputModule && a.inputId == b.inputId
    ensures a == b
  {
    var i :| 0 <= i < |cs| && cs[i] == a;
    var j :| 0 <= j < |cs| && cs[j] == b;
  }

  /** Every port of `ps` marked inactive, channel counts kept. */
  function Deactivated(ps: seq<Port>): (r: seq<Port>)
    ensures |r| == |ps|
    ensures forall k :: 0 <= k < |r| ==> !r[k].active && r[k].channels == ps[k].channels
  {
    seq(|ps|, k requires 0 <= k < |ps| => ps[k].(active := false))
  }

  /** Every port of `ps` set to `n` channels, activity kept. */
  function WithChannels(ps: seq<Port>, n: int): (r: seq<Port>)
    ensures |r| == |ps|
    ensures forall k :: 0 <= k < |r| ==> r[k].channels == n && r[k].active == ps[k].active
  {
    seq(|ps|, k requires 0 <= k < |ps| => ps[k].(channels := n))
  }

  // ------------------------------------------------------------- handles

  /** Among registered handles, at most one targets any given (module id,
      param id) pair. */
  predicate HandlesExclusive(hs: seq<ParamHandle>)
    reads (set h | h in hs)`moduleId, (set h | h in hs)`paramId
  {
    forall i, j :: 0 <= i < j < |hs| && hs[i].moduleId >= 0 ==>
      !(hs[i].moduleId == hs[j].moduleId && hs[i].paramId == hs[j].paramId)
  }

  /** Under `HandlesExclusive`, the handle targeting a parameter is unique. */
  lemma {:induction false} AuthoritativeHandleUnique(hs: seq<ParamHandle>, a: ParamHandle, b: ParamHandle)
    requires HandlesExclusive(hs) && a in hs && b in hs
    requires a.moduleId >= 0 && a.moduleId == b.moduleId && a.paramId == b.paramId
    ensures a == b
  {
    var i :| 0 <= i < |hs| && hs[i] == a;
    var j :| 0 <= j < |hs| && hs[j] == b;
  }

  /** Erasing a handle keeps the remaining handles exclusive. */
  lemma RemoveAtHandlesExclusive(hs: seq<ParamHandle>, k: nat)
    requires k < |hs| && HandlesExclusive(hs)
    ensures HandlesExclusive(RemoveAt(hs, k))
  {
    var r := RemoveAt(hs, k);
    forall i, j | 0 <= i < j < |r| && r[i].moduleId >= 0
      ensures !(r[i].moduleId == r[j].moduleId && r[i].paramId == r[j].paramId)
    {
      RemoveAtPairs(hs, k, i, j);
    }
  }

  /** Some handle of `hs` other than `h` targets parameter `paramId` of the
      module with id `moduleId`. */
  predicate Claimed(hs: seq<ParamHandle>, h: ParamHandle, moduleId: int, paramId: int)
    reads (set p | p in hs && p != h)`moduleId, (set p | p in hs && p != h)`paramId
  {
    exists i :: 0 <= i < |hs| && hs[i] != h && hs[i].moduleId == moduleId && hs[i].paramId == paramId
  }

  /** No two handles of `hs` other than `h` target the same parameter. */
  predicate ExclusiveExcept(hs: seq<ParamHandle>, h: ParamHandle)
    reads (set p | p in hs && p != h)`moduleId, (set p | p in hs && p != h)`paramId
  {
    forall i, j :: 0 <= i < j < |hs| && hs[i] != h && hs[j] != h && hs[i].moduleId >= 0 ==>
      !(hs[i].moduleId == hs[j].moduleId && hs[i].paramId == hs[j].paramId)
  }

  /** Exclusivity is exclusivity apart from `h`, plus `h` being blank or
      alone on its parameter. */
  lemma {:induction false} ExclusiveJoin(hs: seq<ParamHandle>, h: ParamHandle)
    requires Distinct(hs) && ExclusiveExcept(hs, h)
    requires h.moduleId >= 0 ==> !Claimed(hs, h, h.moduleId, h.paramId)
    ensures HandlesExclusive(hs)
  {
    forall i, j | 0 <= i < j < |hs| && hs[i].moduleId >= 0
      ensures !(hs[i].moduleId == hs[j].moduleId && hs[i].paramId == hs[j].paramId)
    {
      if hs[i] == h {
        assert hs[j] != h;
      }
    }
  }

  /** The first handle of `hs` resolved to `m` on parameter `paramId`, or
      null (what `getParamHandle` returns). */
  function FindHandle(hs: seq<ParamHandle>, m: Module?, paramId: int): (r: ParamHandle?)
    reads (set h | h in hs)`resolved, (set h | h in hs)`paramId
    ensures r != null ==> r in hs && r.resolved == m && r.paramId == paramId
    ensures r == null <==> forall i :: 0 <= i < |hs| ==> !(hs[i].resolved == m && hs[i].paramId == paramId)
  {
    if |hs| == 0 then null
    else if hs[0].resolved == m && hs[0].paramId == paramId then hs[0]
    else FindHandle(hs[1..], m, paramId)
  }

  // ------------------------------------------------------ registry invariants

  /** Modules are registered once each, under distinct non-negative ids, all
      below the id counter `next`. */
  predicate ModulesOk(ms: seq<Module>, next: int)
    reads (set m | m in ms)`id
  {
    && 0 <= next
    && Distinct(ms)
    && ModuleIdsDistinct(ms)
    && (forall i :: 0 <= i < |ms| ==> 0 <= ms[i].id < next)
  }

  /** Each module of `ms` owns its port buffers: no two modules share one, and
      no module uses one buffer for both directions. */
  predicate PortsOwned(ms: seq<Module>) {
    forall i, j :: 0 <= i < |ms| && 0 <= j < |ms| ==>
      && ms[i].inputs != ms[j].outputs
      && (i != j ==> ms[i].inputs != ms[j].inputs && ms[i].outputs != ms[j].outputs)
  }

  /** Port buffers of `m` shared with no module of `ms`, and distinct from
      each other. */
  predicate OwnsPorts(ms: seq<Module>, m: Module) {
    && m.inputs != m.outputs
    && forall i :: 0 <= i < |ms| ==>
         && m.inputs != ms[i].inputs && m.inputs != ms[i].outputs
         && m.outputs != ms[i].inputs && m.outputs != ms[i].outputs
  }

  /** Cables are registered once each, under distinct non-negative ids below
      the counter `next`; both ends are set and name existing ports; and no
      input port has two cables. */
  predicate CablesOk(cs: seq<Cable>, next: int)
    reads (set c | c in cs)`id
  {
    && 0 <= next
    && Distinct(cs)
    && CableIdsDistinct(cs)
    && (forall i :: 0 <= i < |cs| ==> 0 <= cs[i].id < next)
    && (forall i :: 0 <= i < |cs| ==> Plugged(cs[i]))
    && InputsExclusive(cs)
  }

  /** Both ends of `c` are set and name existing ports. */
  predicate Plugged(c: Cable)
  {
    && c.outputModule != null && c.inputModule != null
    && 0 <= c.outputId < c.outputModule.outputs.Length
    && 0 <= c.inputId < c.inputModule.inputs.Length
  }

  /** Every cable of `cs` runs between modules of `ms`. */
  predicate Attached(cs: seq<Cable>, ms: seq<Module>)
  {
    forall i :: 0 <= i < |cs| ==> cs[i].outputModule in ms && cs[i].inputModule in ms
  }

  /** Handles are registered once each, and at most one targets any
      parameter. */
  predicate HandlesOk(hs: seq<ParamHandle>)
    reads (set h | h in hs)`moduleId, (set h | h in hs)`paramId
  {
    Distinct(hs) && HandlesExclusive(hs)
  }

  /** Every expander slot of a module of `ms` is empty or points at a module
      of `ms`. */
  predicate ExpandersOk(ms: seq<Module>)
    reads (set m | m in ms)`leftExpander, (set m | m in ms)`rightExpander
  {
    forall i :: 0 <= i < |ms| ==>
      && (ms[i].leftExpander.resolved == null || ms[i].leftExpander.resolved in ms)
      && (ms[i].rightExpander.resolved == null || ms[i].rightExpander.resolved in ms)
  }

  /** Raising the counter keeps the module registry valid. */
  lemma RaiseModulesOk(ms: seq<Module>, next: int, next': int)
    requires ModulesOk(ms, next) && next <= next'
    ensures ModulesOk(ms, next')
  {
  }

  /** Appending a module with a new id below the (possibly advanced) counter
      keeps the module registry valid. */
  lemma AppendModuleOk(ms: seq<Module>, m: Module, next: int, next': int)
    requires ModulesOk(ms, next) && m !in ms
    requires next <= next' && 0 <= m.id < next'
    requires forall i :: 0 <= i < |ms| ==> ms[i].id != m.id
    ensures ModulesOk(ms + [m], next')
  {
  }

  /** Appending a module that owns its ports keeps every buffer owned. */
  lemma AppendPortsOwned(ms: seq<Module>, m: Module)
    requires PortsOwned(ms) && OwnsPorts(ms, m)
    ensures PortsOwned(ms + [m])
  {
  }

  /** Appending a module with empty expander slots keeps every slot inside
      the registry. */
  lemma AppendExpandersOk(ms: seq<Module>, m: Module)
    requires ExpandersOk(ms)
    requires m.leftExpander.resolved == null && m.rightExpander.resolved == null
    ensures ExpandersOk(ms + [m])
  {
  }

  /** Cables attached to `ms` stay attached when a module is appended. */
  lemma AppendAttached(cs: seq<Cable>, ms: seq<Module>, m: Module)
    requires Attached(cs, ms)
    ensures Attached(cs, ms + [m])
  {
  }

  /** Erasing a module keeps the module registry valid. */
  lemma RemoveModuleOk(ms: seq<Module>, k: nat, next: int)
    requires k < |ms| && ModulesOk(ms, next)
    ensures ModulesOk(RemoveAt(ms, k), next)
  {
    RemoveAtDistinct(ms, k);
    RemoveAtModuleIds(ms, k);
  }

  /** Erasing a module keeps the remaining buffers owned. */
  lemma RemovePortsOwned(ms: seq<Module>, k: nat)
    requires k < |ms| && PortsOwned(ms)
    ensures PortsOwned(RemoveAt(ms, k))
  {
    var r := RemoveAt(ms, k);
    forall i, j | 0 <= i < |r| && 0 <= j < |r|
      ensures r[i].inputs != r[j].outputs
      ensures i != j ==> r[i].inputs != r[j].inputs && r[i].outputs != r[j].outputs
    {
      var i', j' := (if i < k then i else i + 1), (if j < k then j else j + 1);
      assert r[i] == ms[i'] && r[j] == ms[j'];
    }
  }

  /** Erasing a module no cable uses keeps every cable attached. */
  lemma RemoveAttached(cs: seq<Cable>, ms: seq<Module>, k: nat)
    requires k < |ms| && Distinct(ms) && Attached(cs, ms)
    requires forall i :: 0 <= i < |cs| ==> cs[i].outputModule != ms[k] && cs[i].inputModule != ms[k]
    ensures Attached(cs, RemoveAt(ms, k))
  {
    RemoveAtDistinct(ms, k);
  }

  /** Erasing a module no expander slot points at keeps every remaining slot
      inside the registry. */
  lemma RemoveExpandersOk(ms: seq<Module>, k: nat)
    requires k < |ms| && Distinct(ms) && ExpandersOk(ms)
    requires forall i :: 0 <= i < |ms| ==>
      ms[i].leftExpander.resolved != ms[k] && ms[i].rightExpander.resolved != ms[k]
    ensures ExpandersOk(RemoveAt(ms, k))
  {
    RemoveAtDistinct(ms, k);
    var r := RemoveAt(ms, k);
    forall i | 0 <= i < |r|
      ensures r[i].leftExpander.resolved == null || r[i].leftExpander.resolved in r
      ensures r[i].rightExpander.resolved == null || r[i].rightExpander.resolved in r
    {
      var i' := if i < k then i else i + 1;
      assert r[i] == ms[i'];
    }
  }

  /** Raising the counter keeps the cable registry valid. */
  lemma RaiseCablesOk(cs: seq<Cable>, next: int, next': int)
    requires CablesOk(cs, next) && next <= next'
    ensures CablesOk(cs, next')
  {
  }

  /** Appending a plugged cable with a new id below the counter, on an input
      port no other cable uses, keeps the cable registry valid. */
  lemma AppendCableOk(cs: seq<Cable>, c: Cable, next: int)
    requires CablesOk(cs, next) && c !in cs && Plugged(c)
    requires 0 <= c.id < next
    requires forall i :: 0 <= i < |cs| ==> cs[i].id != c.id
    requires forall i :: 0 <= i < |cs| ==> !(cs[i].inputModule == c.inputModule && cs[i].inputId == c.inputId)
    ensures CablesOk(cs + [c], next)
  {
  }

  /** A cable between modules of `ms` keeps the cables attached. */
  lemma AppendCableAttached(cs: seq<Cable>, ms: seq<Module>, c: Cable)
    requires Attached(cs, ms) && c.outputModule in ms && c.inputModule in ms
    ensures Attached(cs + [c], ms)
  {
  }

  /** Erasing a cable keeps the cable registry valid. */
  lemma RemoveCableOk(cs: seq<Cable>, k: nat, next: int)
    requires k < |cs| && CablesOk(cs, next)
    ensures CablesOk(RemoveAt(cs, k), next)
  {
    RemoveAtDistinct(cs, k);
    RemoveAtCableIds(cs, k);
    RemoveAtInputsExclusive(cs, k);
  }

  /** Erasing a cable keeps the rest attached. */
  lemma RemoveCableAttached(cs: seq<Cable>, ms: seq<Module>, k: nat)
    requires k < |cs| && Attached(cs, ms)
    ensures Attached(RemoveAt(cs, k), ms)
  {
  }

  /** Appending a blank handle keeps the handle registry valid. */
  lemma AppendHandleOk(hs: seq<ParamHandle>, h: ParamHandle)
    requires HandlesOk(hs) && h !in hs && h.moduleId < 0
    ensures HandlesOk(hs + [h])
  {
  }

  /** Erasing a handle keeps the handle registry valid. */
  lemma RemoveHandleOk(hs: seq<ParamHandle>, k: nat)
    requires k < |hs| && HandlesOk(hs)
    ensures HandlesOk(RemoveAt(hs, k))
  {
    RemoveAtDistinct(hs, k);
    RemoveAtHandlesExclusive(hs, k);
  }

  // ----------------------------------------------------------- expanders

  /** The expander slot after the module it points at was removed: a slot
      that pointed there targets nothing; any other slot is untouched. */
  function Detached(e: Expander, gone: Module): (r: Expander)
    ensures r.resolved != gone
    ensures r.producerMessage == e.producerMessage && r.consumerMessage == e.consumerMessage
    ensures r.messageFlipRequested == e.messageFlipRequested
    ensures e.resolved != gone ==> r == e
    ensures e.resolved == gone ==> r.moduleId == -1 && r.resolved == null
  {
    if e.resolved == gone then e.(moduleId := -1, resolved := null) else e
  }

  /** The module an expander slot should point at: the module of `ms` with
      the slot's target id, or none when the slot targets nothing or no such
      module is registered. */
  function Resolve(e: Expander, ms: seq<Module>): (r: Module?)
    reads ms`id
    ensures r != null ==> r in ms && e.moduleId >= 0 && r.id == e.moduleId
    ensures r == null <==> e.moduleId < 0 || forall i :: 0 <= i < |ms| ==> ms[i].id != e.moduleId
  {
    if e.moduleId >= 0 then FindModule(ms, e.moduleId) else null
  }

  /** The expander slot at the end of a block: a requested flip hands the
      buffer the producer wrote to the consumer, and no flip stays pending. */
  function Flipped(e: Expander): (r: Expander)
    ensures !r.messageFlipRequested
    ensures r.moduleId == e.moduleId && r.resolved == e.resolved
    ensures e.messageFlipRequested ==>
      r.consumerMessage == e.producerMessage && r.producerMessage == e.consumerMessage
    ensures !e.messageFlipRequested ==> r == e
  {
    if e.messageFlipRequested
    then e.(producerMessage := e.consumerMessage, consumerMessage := e.producerMessage,
            messageFlipRequested := false)
    else e
  }

  /** A flip hands over each buffer exactly once: flipping again at the end of
      the next block, when nothing new was requested, hands nothing back. */
  lemma FlipSettles(e: Expander)
    ensures Flipped(Flipped(e)) == Flipped(e)
  {
  }

  // ------------------------------------------------------------ dispatch

  /** The calls dispatching one module makes: `process` unless the module is
      bypassed, then the aging step of its ports in any case. */
  function ModuleCalls(m: Module): (r: seq<Call>)
    reads m`bypass
    ensures |r| == if m.bypass then 1 else 2
    ensures r[|r| - 1] == StepPorts(m)
    ensures !m.bypass ==> r[0] == Process(m)
  {
    (if m.bypass then [] else [Process(m)]) + [StepPorts(m)]
  }

  /** The calls a sequential dispatch of `ms`, index 0 upwards, makes. */
  function DispatchCalls(ms: seq<Module>): (r: seq<Call>)
    reads (set m | m in ms)`bypass
    ensures |r| >= |ms|
  {
    if ms == [] then [] else DispatchCalls(ms[..|ms| - 1]) + ModuleCalls(ms[|ms| - 1])
  }

  /** Sequential dispatch claims every module exactly once: each registered
      module's ports are stepped once, `process` runs once on each module that
      is not bypassed and never on a bypassed one, and nothing outside the
      registry is touched. */
  lemma {:induction false} DispatchOnce(ms: seq<Module>, m: Module)
    requires Distinct(ms)
    ensures multiset(DispatchCalls(ms))[StepPorts(m)] == if m in ms then 1 else 0
    ensures multiset(DispatchCalls(ms))[Process(m)] == if m in ms && !m.bypass then 1 else 0
  {
    if ms != [] {
      var init, last := ms[..|ms| - 1], ms[|ms| - 1];
      assert ms == init + [last];
      assert Distinct(init) by {
        forall i, j | 0 <= i < j < |init| ensures init[i] != init[j] {
          assert init[i] == ms[i] && init[j] == ms[j];
        }
      }
      assert last !in init by {
        forall i | 0 <= i < |init| ensures init[i] != last {
          assert init[i] == ms[i];
        }
      }
      DispatchOnce(init, m);
      ModuleCallsCount(last, m);
      assert multiset(DispatchCalls(ms)) == multiset(DispatchCalls(init)) + multiset(ModuleCalls(last));
    }
  }

  /** Dispatching one module steps only its own ports, and runs only its own
      `process`, and that only when it is not bypassed. */
  lemma ModuleCallsCount(last: Module, m: Module)
    ensures multiset(ModuleCalls(last))[StepPorts(m)] == if last == m then 1 else 0
    ensures multiset(ModuleCalls(last))[Process(m)] == if last == m && !m.bypass then 1 else 0
  {
  }

  /** The calls propagation makes: one step per cable, in registry order. */
  function CableCalls(cs: seq<Cable>): (r: seq<Call>)
    ensures |r| == |cs|
    ensures forall i :: 0 <= i < |cs| ==> r[i] == StepCable(cs[i])
  {
    if cs == [] then [] else CableCalls(cs[..|cs| - 1]) + [StepCable(cs[|cs| - 1])]
  }
}
