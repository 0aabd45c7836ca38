/**
  The validated physical load plan, the transaction that owns loaded buffers, and the
  logical traversal that runs after a load has succeeded.
*/
module LoadPlan {
  import opened Loader
  import opened Staging

  /** A declared or stored tensor shape; tags and partitions belong to the model, not to the file. */
  datatype Shape = Shape(dtype: string, dimensions: seq<int>, layout: seq<int>, axisTags: seq<int>,
    partitions: seq<int>)

  datatype Component = Component(artifact: string, storage: Shape)

  datatype Parameter = Parameter(name: string, representation: string, components: seq<Component>)

  datatype Error =
    | InconsistentParameterDefinition(name: string)
    | InvalidSharding(name: string)
    | InconsistentArtifactStorage(artifact: string)
    | ShapeMismatch(artifact: string)
    | MissingTensor(artifact: string)

  datatype Check = Valid | Invalid(error: Error)

  type Registry = map<string, Shape>
  type Records = map<string, Shape>

  predicate StorageCompatible(stored: Shape, declared: Shape) {
    stored.dtype == declared.dtype && stored.dimensions == declared.dimensions && stored.layout == declared.layout
  }

  /** Storage is compatible exactly if the stored shape is the declared one with tags and partitions of its own. */
  lemma CompatibleExactly(stored: Shape, declared: Shape)
    ensures StorageCompatible(stored, declared)
            <==> exists tags: seq<int>, partitions: seq<int> ::
                   stored == declared.(axisTags := tags, partitions := partitions)
  {
    if StorageCompatible(stored, declared) {
      assert stored == declared.(axisTags := stored.axisTags, partitions := stored.partitions);
    }
  }

  // ----- when a model can be planned -----

  ghost predicate Stored(registry: Registry, component: Component) {
    component.artifact in registry && StorageCompatible(registry[component.artifact], component.storage)
  }

  /** Two components of the same artifact declare the same storage. */
  predicate Agree(a: Component, b: Component) {
    a.artifact == b.artifact ==> a.storage == b.storage
  }

  /** The components of all visited parameters, in visiting order. */
  function Components(visited: seq<Parameter>): seq<Component> {
    if visited == [] then [] else Components(visited[..|visited| - 1]) + visited[|visited| - 1].components
  }

  ghost predicate Storable(registry: Registry, list: seq<Component>) {
    && (forall i, j :: 0 <= i < j < |list| ==> Agree(list[i], list[j]))
    && (forall i :: 0 <= i < |list| ==> Stored(registry, list[i]))
  }

  ghost predicate Named(visited: seq<Parameter>) {
    forall p, q :: 0 <= p < q < |visited| && visited[p].name == visited[q].name ==> visited[p] == visited[q]
  }

  ghost predicate Loadable(registry: Registry, shards: Parameter -> bool, visited: seq<Parameter>) {
    && Named(visited)
    && (forall p :: 0 <= p < |visited| ==> shards(visited[p]))
    && Storable(registry, Components(visited))
  }

  /** `records` holds exactly the artifacts of the listed components, each with its declared storage. */
  ghost predicate Exact(records: Records, list: seq<Component>) {
    && (forall i :: 0 <= i < |list| ==> list[i].artifact in records && records[list[i].artifact] == list[i].storage)
    && (forall artifact :: artifact in records ==> Lists(list, artifact))
  }

  ghost predicate Lists(list: seq<Component>, artifact: string) {
    exists i :: 0 <= i < |list| && list[i].artifact == artifact
  }

  lemma ListsMore(list: seq<Component>, more: seq<Component>)
    ensures forall artifact :: Lists(list, artifact) ==> Lists(list + more, artifact)
  {
    forall artifact | Lists(list, artifact) ensures Lists(list + more, artifact) {
      var i :| 0 <= i < |list| && list[i].artifact == artifact;
      assert (list + more)[i] == list[i];
    }
  }

  // ----- what a refusal names -----

  /** The error a component earns after the components before it were planned. */
  ghost predicate ComponentFault(registry: Registry, before: seq<Component>, component: Component, error: Error) {
    match error
    case InconsistentArtifactStorage(artifact) =>
      artifact == component.artifact
      && exists i :: 0 <= i < |before| && before[i].artifact == artifact && before[i].storage != component.storage
    case MissingTensor(artifact) =>
      artifact == component.artifact && !Lists(before, artifact) && artifact !in registry
    case ShapeMismatch(artifact) =>
      artifact == component.artifact && !Lists(before, artifact) && artifact in registry
      && !StorageCompatible(registry[artifact], component.storage)
    case _ => false
  }

  /** The same for the component at `c`, those before it being storable. */
  ghost predicate FaultyComponent(
      registry: Registry, before: seq<Component>, list: seq<Component>, c: nat, error: Error)
  {
    && c < |list| && Storable(registry, before + list[..c])
    && ComponentFault(registry, before + list[..c], list[c], error)
  }

  ghost predicate Redefines(done: seq<Parameter>, parameter: Parameter) {
    exists q :: 0 <= q < |done| && done[q].name == parameter.name && done[q] != parameter
  }

  /** The error a parameter earns after those before it: its definition first, its sharding, then its components. */
  ghost predicate ParameterFault(
      registry: Registry, shards: Parameter -> bool, done: seq<Parameter>, parameter: Parameter, error: Error)
  {
    match error
    case InconsistentParameterDefinition(name) => name == parameter.name && Redefines(done, parameter)
    case InvalidSharding(name) => name == parameter.name && !Redefines(done, parameter) && !shards(parameter)
    case _ =>
      && !Redefines(done, parameter) && shards(parameter)
      && exists c: nat :: FaultyComponent(registry, Components(done), parameter.components, c, error)
  }

  /** The visit stops at parameter `p`: everything before it can be loaded. */
  ghost predicate StopsAt(
      registry: Registry, shards: Parameter -> bool, visited: seq<Parameter>, p: nat, error: Error)
  {
    && p < |visited| && Loadable(registry, shards, visited[..p])
    && ParameterFault(registry, shards, visited[..p], visited[p], error)
  }

  // ----- building the plan -----

  /** One component: shared artifacts are planned once, disagreements and missing tensors are rejected. */
  method PlanComponent(registry: Registry, component: Component, before: Records, ghost list: seq<Component>)
    returns (check: Check, records: Records)
    requires Exact(before, list) && Storable(registry, list)
    ensures check.Valid? <==> Storable(registry, list + [component])
    ensures check.Valid? ==> Exact(records, list + [component])
    ensures check.Invalid? ==> ComponentFault(registry, list, component, check.error)
  {
    records := before;
    ListsMore(list, [component]);
    if component.artifact in records {
      ghost var i :| 0 <= i < |list| && list[i].artifact == component.artifact;
      assert (list + [component])[i] == list[i];
      if records[component.artifact] != component.storage {
        assert !Agree((list + [component])[i], (list + [component])[|list|]);
        return Invalid(InconsistentArtifactStorage(component.artifact)), records;
      }
      return Valid, records;
    }
    assert (list + [component])[|list|] == component;
    if component.artifact !in registry {
      return Invalid(MissingTensor(component.artifact)), records;
    }
    if !StorageCompatible(registry[component.artifact], component.storage) {
      return Invalid(ShapeMismatch(component.artifact)), records;
    }
    return Valid, records[component.artifact := component.storage];
  }

  lemma StorablePrefix(registry: Registry, list: seq<Component>, more: seq<Component>)
    requires Storable(registry, list + more)
    ensures Storable(registry, list)
  {
    forall i | 0 <= i < |list| ensures (list + more)[i] == list[i] {
    }
  }

  lemma NotStorable(registry: Registry, list: seq<Component>, all: seq<Component>, i: nat)
    requires i <= |all| && !Storable(registry, list + all[..i])
    ensures !Storable(registry, list + all)
  {
    if Storable(registry, list + all) {
      assert list + all == (list + all[..i]) + all[i..];
      StorablePrefix(registry, list + all[..i], all[i..]);
    }
  }

  method PlanParameter(registry: Registry, parameter: Parameter, before: Records, ghost list: seq<Component>)
    returns (check: Check, records: Records)
    requires Exact(before, list) && Storable(registry, list)
    ensures check.Valid? <==> Storable(registry, list + parameter.components)
    ensures check.Valid? ==> Exact(records, list + parameter.components)
    ensures check.Invalid? ==> exists c: nat :: FaultyComponent(registry, list, parameter.components, c, check.error)
  {
    records := before;
    ghost var all := parameter.components;
    assert list + all[..0] == list;
    for i := 0 to |parameter.components|
      invariant Exact(records, list + all[..i]) && Storable(registry, list + all[..i])
    {
      check, records := PlanComponent(registry, parameter.components[i], records, list + all[..i]);
      assert list + all[..i] + [all[i]] == list + all[..i + 1];
      if check.Invalid? {
        assert FaultyComponent(registry, list, all, i, check.error);
        NotStorable(registry, list, all, i + 1);
        return check, records;
      }
    }
    assert all[..|all|] == all;
    check := Valid;
  }

  /** Planning one more parameter: a fresh or identical name, a valid sharding, agreeing components. */
  lemma LoadableStep(registry: Registry, shards: Parameter -> bool, done: seq<Parameter>, parameter: Parameter)
    ensures Components(done + [parameter]) == Components(done) + parameter.components
    ensures Loadable(registry, shards, done + [parameter]) <==>
      && Loadable(registry, shards, done)
      && (forall q :: 0 <= q < |done| && done[q].name == parameter.name ==> done[q] == parameter)
      && shards(parameter) && Storable(registry, Components(done) + parameter.components)
  {
    ComponentsStep(done, parameter);
    NamedStep(done, parameter);
    ShardsStep(shards, done, parameter);
    if Storable(registry, Components(done) + parameter.components) {
      StorablePrefix(registry, Components(done), parameter.components);
    }
  }

  lemma ComponentsStep(done: seq<Parameter>, parameter: Parameter)
    ensures Components(done + [parameter]) == Components(done) + parameter.components
  {
    assert (done + [parameter])[..|done|] == done;
  }

  lemma NamedStep(done: seq<Parameter>, parameter: Parameter)
    ensures Named(done + [parameter]) <==>
      Named(done) && (forall q :: 0 <= q < |done| && done[q].name == parameter.name ==> done[q] == parameter)
  {
    var all := done + [parameter];
    assert all[|done|] == parameter;
    assert forall q :: 0 <= q < |done| ==> all[q] == done[q];
  }

  lemma ShardsStep(shards: Parameter -> bool, done: seq<Parameter>, parameter: Parameter)
    ensures (forall p :: 0 <= p < |done + [parameter]| ==> shards((done + [parameter])[p]))
      <==> (forall p :: 0 <= p < |done| ==> shards(done[p])) && shards(parameter)
  {
    var all := done + [parameter];
    assert all[|done|] == parameter;
    assert forall q :: 0 <= q < |done| ==> all[q] == done[q];
  }

  lemma {:induction false} LoadablePrefix(
      registry: Registry, shards: Parameter -> bool, visited: seq<Parameter>, p: nat)
    requires p <= |visited| && Loadable(registry, shards, visited)
    ensures Loadable(registry, shards, visited[..p])
  {
    if p == |visited| {
      assert visited[..p] == visited;
    } else {
      var init := visited[..|visited| - 1];
      assert visited == init + [visited[|visited| - 1]];
      LoadableStep(registry, shards, init, visited[|visited| - 1]);
      LoadablePrefix(registry, shards, init, p);
      assert init[..p] == visited[..p];
    }
  }

  /** The names seen so far, each with its one definition. */
  ghost predicate Logical(logical: map<string, Parameter>, done: seq<Parameter>) {
    && (forall q :: 0 <= q < |done| ==> done[q].name in logical && logical[done[q].name] == done[q])
    && (forall name :: name in logical ==> logical[name].name == name && logical[name] in done)
  }

  /** The visit of one parameter. */
  method VisitParameter(
      registry: Registry, shards: Parameter -> bool, parameter: Parameter, logical: map<string, Parameter>,
      before: Records, ghost done: seq<Parameter>)
    returns (check: Check, records: Records, names: map<string, Parameter>)
    requires Loadable(registry, shards, done) && Exact(before, Components(done)) && Logical(logical, done)
    ensures check.Valid? <==> Loadable(registry, shards, done + [parameter])
    ensures check.Valid? ==> Exact(records, Components(done + [parameter])) && Logical(names, done + [parameter])
    ensures check.Invalid? ==> ParameterFault(registry, shards, done, parameter, check.error)
  {
    names := logical[parameter.name := parameter];
    LoadableStep(registry, shards, done, parameter);
    if parameter.name in logical && logical[parameter.name] != parameter {
      return Invalid(InconsistentParameterDefinition(parameter.name)), before, logical;
    }
    if !shards(parameter) {
      return Invalid(InvalidSharding(parameter.name)), before, logical;
    }
    check, records := PlanParameter(registry, parameter, before, Components(done));
    LogicalNext(logical, done, parameter);
  }

  lemma LogicalNext(logical: map<string, Parameter>, done: seq<Parameter>, parameter: Parameter)
    requires Logical(logical, done) && (parameter.name in logical ==> logical[parameter.name] == parameter)
    ensures Logical(logical[parameter.name := parameter], done + [parameter])
  {
  }

  lemma VisitedNext(registry: Registry, shards: Parameter -> bool, visited: seq<Parameter>, p: nat)
    requires p < |visited|
    ensures visited[..p + 1] == visited[..p] + [visited[p]]
    ensures Loadable(registry, shards, visited) ==> Loadable(registry, shards, visited[..p + 1])
  {
    if Loadable(registry, shards, visited) {
      LoadablePrefix(registry, shards, visited, p + 1);
    }
  }

  /** The validating visit of every parameter of the model. */
  method BuildPlan(
      registry: Registry, shards: Parameter -> bool, visited: seq<Parameter>) returns (check: Check, records: Records)
    ensures check.Valid? <==> Loadable(registry, shards, visited)
    ensures check.Valid? ==> Exact(records, Components(visited))
    ensures check.Invalid? ==> exists p: nat :: StopsAt(registry, shards, visited, p, check.error)
  {
    records := map[];
    var logical: map<string, Parameter> := map[];
    for p := 0 to |visited|
      invariant Loadable(registry, shards, visited[..p]) && Exact(records, Components(visited[..p]))
      invariant Logical(logical, visited[..p])
    {
      check, records, logical := VisitParameter(registry, shards, visited[p], logical, records, visited[..p]);
      VisitedNext(registry, shards, visited, p);
      if check.Invalid? {
        assert StopsAt(registry, shards, visited, p, check.error);
        return check, records;
      }
    }
    assert visited[..|visited|] == visited;
    check := Valid;
  }

  // ----- the transaction -----

  /** Owns every device buffer until the logical model is complete; buffers are represented by their byte counts. */
  class LoadTransaction {
    var components: map<string, nat>

    constructor ()
      ensures components == map[]
    {
      components := map[];
    }

    method Insert(artifact: string, buffer: nat)
      requires artifact !in components
      modifies this
      ensures components == old(components)[artifact := buffer]
    {
      components := components[artifact := buffer];
    }
  }

  ghost predicate Different(names: seq<string>) {
    forall i, j :: 0 <= i < j < |names| ==> names[i] != names[j]
  }

  /** Names of the planned records in key order, each once. */
  ghost predicate KeyOrder(names: seq<string>, records: Records) {
    && Different(names)
    && (forall i :: 0 <= i < |names| ==> names[i] in records)
    && (forall artifact :: artifact in records ==> artifact in names)
  }

  /** What a transaction holds after the records of `loaded` have been inserted. */
  function Owned(names: seq<string>, resident: seq<nat>, loaded: seq<nat>): map<string, nat>
    requires |resident| == |names| && Below(loaded, |names|)
  {
    if loaded == [] then map[]
    else
      var last := loaded[|loaded| - 1];
      Owned(names, resident, loaded[..|loaded| - 1])[names[last] := resident[last]]
  }

  lemma {:induction false} OwnedKeys(names: seq<string>, resident: seq<nat>, loaded: seq<nat>)
    requires |resident| == |names| && Below(loaded, |names|) && Different(names)
    ensures forall i: nat :: i < |names| ==> (names[i] in Owned(names, resident, loaded) <==> i in loaded)
    ensures forall i: nat :: i < |names| && i in loaded ==> Owned(names, resident, loaded)[names[i]] == resident[i]
    ensures forall artifact :: artifact in Owned(names, resident, loaded) ==> artifact in names
  {
    if loaded != [] {
      var init, last := loaded[..|loaded| - 1], loaded[|loaded| - 1];
      OwnedKeys(names, resident, init);
      assert loaded == init + [last];
    }
  }

  /** The records in plan order. */
  function InOrder(n: nat): (r: seq<nat>)
    ensures |r| == n && forall i :: 0 <= i < n ==> r[i] == i
  {
    if n == 0 then [] else InOrder(n - 1) + [n - 1]
  }

  lemma OwnedNext(names: seq<string>, resident: seq<nat>, i: nat)
    requires |resident| == |names| && i < |names| && Different(names)
    ensures names[i] !in Owned(names, resident, InOrder(i))
    ensures Owned(names, resident, InOrder(i + 1)) == Owned(names, resident, InOrder(i))[names[i] := resident[i]]
  {
    NotYetOwned(names, resident, i);
    assert InOrder(i + 1)[..i] == InOrder(i);
  }

  lemma NotYetOwned(names: seq<string>, resident: seq<nat>, i: nat)
    requires |resident| == |names| && i < |names| && Different(names)
    ensures names[i] !in Owned(names, resident, InOrder(i))
  {
    OwnedKeys(names, resident, InOrder(i));
    assert i !in InOrder(i);
  }

  lemma TotalNext(resident: seq<nat>, i: nat)
    requires i < |resident|
    ensures Total(resident[..i + 1]) == Total(resident[..i]) + resident[i]
  {
    assert resident[..i + 1][..i] == resident[..i];
  }

  /** The direct path: read, upload and insert one record after the other. */
  method LoadDirectly(
      names: seq<string>, resident: seq<nat>, uploads: nat -> bool)
    returns (ok: bool, transaction: LoadTransaction, accounting: Accounting)
    requires |resident| == |names| && Different(names)
    ensures fresh(transaction)
    ensures ok <==> forall i: nat :: i < |names| ==> uploads(i)
    ensures ok ==> transaction.components == Owned(names, resident, InOrder(|names|))
    ensures ok ==> accounting == Accounting(|names|, |names|, |names|, Total(resident))
    ensures !ok ==> exists i: nat ::
      i < |names| && !uploads(i) && LoadedTo(names, resident, uploads, i, transaction.components, accounting)
  {
    transaction := new LoadTransaction();
    accounting := Accounting(0, 0, 0, 0);
    for i := 0 to |names|
      invariant fresh(transaction)
      invariant LoadedTo(names, resident, uploads, i, transaction.components, accounting)
    {
      if !uploads(i) {
        return false, transaction, accounting;
      }
      accounting := LoadRecord(names, resident, uploads, i, transaction, accounting);
    }
    assert resident[..|names|] == resident;
    ok := true;
  }

  /** The first `i` records were uploaded, are owned and are accounted for. */
  ghost predicate LoadedTo(
      names: seq<string>, resident: seq<nat>, uploads: nat -> bool, i: nat, components: map<string, nat>,
      accounting: Accounting)
    requires |resident| == |names| && i <= |names|
  {
    && components == Owned(names, resident, InOrder(i)) && accounting == Accounting(i, i, i, Total(resident[..i]))
    && forall j: nat :: j < i ==> uploads(j)
  }

  method LoadRecord(
      names: seq<string>, resident: seq<nat>, ghost uploads: nat -> bool, i: nat, transaction: LoadTransaction,
      before: Accounting)
    returns (accounting: Accounting)
    requires |resident| == |names| && Different(names) && i < |names| && uploads(i)
    requires LoadedTo(names, resident, uploads, i, transaction.components, before)
    modifies transaction
    ensures LoadedTo(names, resident, uploads, i + 1, transaction.components, accounting)
  {
    OwnedNext(names, resident, i);
    TotalNext(resident, i);
    accounting := Accounting(before.readCount + 1, before.allocationCount + 1, before.uploadCount + 1,
                             before.residentBytes + resident[i]);
    transaction.Insert(names[i], resident[i]);
  }

  // ----- after a successful load -----

  /** Insertion order does not matter once every record is in. */
  lemma OwnedInAnyOrder(names: seq<string>, resident: seq<nat>, left: seq<nat>, right: seq<nat>)
    requires |resident| == |names| && Below(left, |names|) && Below(right, |names|)
    requires Different(names)
    requires forall i: nat :: i < |names| ==> i in left && i in right
    ensures Owned(names, resident, left) == Owned(names, resident, right)
  {
    OwnedKeys(names, resident, left);
    OwnedKeys(names, resident, right);
    var l, r := Owned(names, resident, left), Owned(names, resident, right);
    forall artifact ensures artifact in l <==> artifact in r {
      if artifact in names {
        var i :| 0 <= i < |names| && names[i] == artifact;
      }
    }
    forall artifact | artifact in l && artifact in r ensures l[artifact] == r[artifact] {
      var i :| 0 <= i < |names| && names[i] == artifact;
    }
  }

  /** Any successful interleaving leaves the same buffers and the same accounting as the direct path. */
  lemma ConcurrentEqualsDirect(c: Config, events: seq<Event>, names: seq<string>)
    requires ValidConfig(c) && |names| == |c.bytes| && Different(names)
    requires Run(c, events).At? && Run(c, events).state.main.Succeeded?
    ensures var s := Run(c, events).state;
            && Below(s.loaded, |names|)
            && Owned(names, c.resident, s.loaded) == Owned(names, c.resident, InOrder(|names|))
            && s.accounting == Accounting(|names|, |names|, |names|, Total(c.resident))
  {
    SuccessIsExact(c, events);
    AlwaysInvariant(c, events);
    var order := InOrder(|names|);
    forall i: nat | i < |names| ensures i in order {
      assert order[i] == i;
    }
    OwnedInAnyOrder(names, c.resident, Run(c, events).state.loaded, order);
  }

  /** The final traversal finds a buffer for every component of every visited parameter. */
  lemma TraversalFindsEverything(
      registry: Registry, visited: seq<Parameter>, records: Records, names: seq<string>, c: Config, events: seq<Event>,
      p: nat, component: Component)
    requires Exact(records, Components(visited)) && KeyOrder(names, records)
    requires ValidConfig(c) && |names| == |c.bytes| && Run(c, events).At? && Run(c, events).state.main.Succeeded?
    requires p < |visited| && component in visited[p].components
    ensures Below(Run(c, events).state.loaded, |names|)
    ensures component.artifact in Owned(names, c.resident, Run(c, events).state.loaded)
  {
    ComponentIsListed(visited, p, component);
    var i :| 0 <= i < |Components(visited)| && Components(visited)[i] == component;
    SuccessIsExact(c, events);
    AlwaysInvariant(c, events);
    OwnedKeys(names, c.resident, Run(c, events).state.loaded);
    var k :| 0 <= k < |names| && names[k] == component.artifact;
    assert k as nat in Run(c, events).state.loaded;
  }

  lemma {:induction false} ComponentIsListed(visited: seq<Parameter>, p: nat, component: Component)
    requires p < |visited| && component in visited[p].components
    ensures component in Components(visited)
  {
    if p < |visited| - 1 {
      ComponentIsListed(visited[..|visited| - 1], p, component);
    }
  }
}
