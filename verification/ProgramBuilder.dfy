/**
  The graph builder: values numbered in creation order, operations over them, random states that
  may be consumed once and storage aliases from outputs to inputs. Its invariants are what makes
  lowering find every operand.
*/
module ProgramBuilder {
  import opened Wrappers

  datatype DType = U32 | U64 | OtherType(id: nat)
  datatype Shape = Shape(dtype: DType, dimensions: seq<int>, rowMajor: bool)
  datatype Value = Value(name: string, shape: Shape)
  datatype Binding = Activation | Component(definition: nat)

  /** A handle: which builder issued it, the value it names, the shape it was issued with. */
  datatype Tensor = Tensor(program: nat, value: nat, shape: Shape)

  datatype Operation = Operation(operands: seq<nat>, results: seq<nat>, randomState: Option<nat>)

  datatype State = State(
    program: nat,
    values: seq<Value>,
    inputs: seq<nat>,
    bindings: seq<Binding>,
    components: map<string, (nat, nat)>,
    operations: seq<Operation>,
    aliases: map<nat, nat>,
    consumed: set<nat>)

  function New(program: nat): State { State(program, [], [], [], map[], [], map[], {}) }

  datatype Call =
    | Input(name: string, shape: Shape)
    | Parameter(name: string, definition: nat, shape: Shape)
    | Operate(arguments: seq<Tensor>, shapes: seq<Shape>)
    | RandomBits(state: Tensor, shape: Shape)
    | ReuseBuffer(output: Tensor, input: Tensor)

  // ----- the calls -----

  predicate IsLocal(s: State, t: Tensor) {
    t.program == s.program && t.value < |s.values| && t.shape.rowMajor
  }

  function AddInput(s: State, name: string, shape: Shape, binding: Binding): State {
    s.(values := s.values + [Value(name, shape)], inputs := s.inputs + [|s.values|], bindings := s.bindings + [binding])
  }

  /** A parameter component becomes an input once; a second request must agree with the first. */
  function AddParameter(s: State, name: string, definition: nat, shape: Shape): (State, bool) {
    if name in s.components then
      var (value, declared) := s.components[name];
      (s, declared == definition && value < |s.values| && s.values[value].shape == shape)
    else
      var registered := s.components[name := (|s.values|, definition)];
      (AddInput(s, name, shape, Component(definition)).(components := registered), true)
  }

  function Fresh(from: nat, count: nat): (r: seq<nat>)
    ensures |r| == count
  {
    seq(count, i requires 0 <= i < count => from + i)
  }

  function Named(shapes: seq<Shape>): (r: seq<Value>)
    ensures |r| == |shapes|
  {
    seq(|shapes|, i requires 0 <= i < |shapes| => Value("", shapes[i]))
  }

  function Push(s: State, operands: seq<nat>, shapes: seq<Shape>, randomState: Option<nat>): State {
    s.(values := s.values + Named(shapes),
       operations := s.operations + [Operation(operands, Fresh(|s.values|, |shapes|), randomState)])
  }

  /** Handles of consecutive values. */
  function Handles(program: nat, from: nat, shapes: seq<Shape>): (r: seq<Tensor>)
    ensures |r| == |shapes| && forall i | 0 <= i < |shapes| :: r[i] == Tensor(program, from + i, shapes[i])
  {
    seq(|shapes|, i requires 0 <= i < |shapes| => Tensor(program, from + i, shapes[i]))
  }

  function ValuesOf(arguments: seq<Tensor>): (r: seq<nat>)
    ensures |r| == |arguments|
  {
    seq(|arguments|, i requires 0 <= i < |arguments| => arguments[i].value)
  }

  function AddOperation(s: State, arguments: seq<Tensor>, shapes: seq<Shape>): (State, bool) {
    if forall t | t in arguments :: IsLocal(s, t)
    then (Push(s, ValuesOf(arguments), shapes, None), true)
    else (s, false)
  }

  /** The state operand is looked up among consumed states only; nothing asks which builder issued it. */
  function AddRandomBits(s: State, state: Tensor, shape: Shape): (State, bool) {
    if !shape.rowMajor || (shape.dtype != U32 && shape.dtype != U64) || state.value in s.consumed then (s, false)
    else (Push(s, [state.value], [state.shape, shape], Some(state.value)).(consumed := s.consumed + {state.value}),
      true)
  }

  function PositionOf(inputs: seq<nat>, value: nat): (position: nat)
    ensures position < |inputs| ==> inputs[position] == value
    ensures position >= |inputs| ==> value !in inputs
  {
    if inputs == [] then 0 else if inputs[0] == value then 0 else 1 + PositionOf(inputs[1..], value)
  }

  function AddAlias(s: State, output: Tensor, input: Tensor): (State, bool) {
    var position := PositionOf(s.inputs, input.value);
    if IsLocal(s, output) && IsLocal(s, input) && output.shape == input.shape
      && position < |s.inputs| && position < |s.bindings| && s.bindings[position].Activation?
      && output.value !in s.aliases && position !in s.aliases.Values
    then (s.(aliases := s.aliases[output.value := position]), true)
    else (s, false)
  }

  /** One call: the new state, and whether it succeeded. */
  function Step(s: State, call: Call): (State, bool) {
    match call
    case Input(name, shape) => (AddInput(s, name, shape, Activation), true)
    case Parameter(name, definition, shape) => AddParameter(s, name, definition, shape)
    case Operate(arguments, shapes) => AddOperation(s, arguments, shapes)
    case RandomBits(state, shape) => AddRandomBits(s, state, shape)
    case ReuseBuffer(output, input) => AddAlias(s, output, input)
  }

  // ----- invariants -----

  function Members(s: seq<nat>): set<nat> { set v | v in s }

  /** The values defined by the inputs and the given operations. */
  function DefinedBy(inputs: seq<nat>, operations: seq<Operation>): set<nat> {
    if operations == [] then Members(inputs)
    else DefinedBy(inputs, operations[..|operations| - 1]) + Members(operations[|operations| - 1].results)
  }

  /** Every operand is an input or the result of an earlier operation. */
  ghost predicate Ordered(inputs: seq<nat>, operations: seq<Operation>) {
    operations == [] ||
    (Ordered(inputs, operations[..|operations| - 1])
      && AllIn(operations[|operations| - 1].operands, DefinedBy(inputs, operations[..|operations| - 1])))
  }

  predicate AllIn(operands: seq<nat>, defined: set<nat>) {
    forall v | v in operands :: v in defined
  }

  ghost predicate Defined(s: State) {
    && Ordered(s.inputs, s.operations)
    && (forall v: nat :: v in DefinedBy(s.inputs, s.operations) <==> v < |s.values|)
  }

  /** The states consumed by random operations, in order. */
  function StateOperands(operations: seq<Operation>): seq<nat> {
    if operations == [] then []
    else
      var last := operations[|operations| - 1].randomState;
      StateOperands(operations[..|operations| - 1]) + if last.Some? then [last.value] else []
  }

  ghost predicate Distinct(s: seq<nat>) {
    forall i, j | 0 <= i < j < |s| :: s[i] != s[j]
  }

  ghost predicate ConsumedOnce(s: State) {
    && Distinct(StateOperands(s.operations))
    && (forall v :: v in s.consumed <==> v in StateOperands(s.operations))
  }

  ghost predicate InputsInRange(s: State) {
    && |s.bindings| == |s.inputs| && Distinct(s.inputs)
    && (forall i | 0 <= i < |s.inputs| :: s.inputs[i] < |s.values|)
    && (forall name | name in s.components :: s.components[name].0 in s.inputs)
  }

  /** Aliases are an injective map from values to activation inputs of the same shape. */
  ghost predicate AliasesSound(s: State) {
    && (forall v | v in s.aliases :: v < |s.values| && SoundAlias(s, v, s.aliases[v]))
    && (forall v, w | v in s.aliases && w in s.aliases && v != w :: s.aliases[v] != s.aliases[w])
  }

  predicate SoundAlias(s: State, v: nat, position: nat)
    requires v < |s.values|
  {
    && position < |s.inputs| == |s.bindings| && s.bindings[position].Activation?
    && s.inputs[position] < |s.values| && s.values[s.inputs[position]].shape == s.values[v].shape
  }

  ghost predicate Invariant(s: State) {
    Defined(s) && ConsumedOnce(s) && InputsInRange(s) && AliasesSound(s)
  }

  /** Handles are only made by builders: one that names this builder names one of its values. */
  ghost predicate Issued(s: State, t: Tensor) {
    t.program == s.program ==> t.value < |s.values| && t.shape == s.values[t.value].shape
  }

  ghost predicate IssuedCall(s: State, call: Call) {
    match call
    case Input(_, _) => true
    case Parameter(_, _, _) => true
    case Operate(arguments, _) => forall t | t in arguments :: Issued(s, t)
    case RandomBits(state, _) => Issued(s, state)
    case ReuseBuffer(output, input) => Issued(s, output) && Issued(s, input)
  }

  /** A random state that this builder issued. */
  predicate OwnState(s: State, call: Call) {
    call.RandomBits? ==> call.state.program == s.program
  }

  // ----- keeping them -----

  lemma {:induction false} MoreInputs(inputs: seq<nat>, value: nat, operations: seq<Operation>)
    ensures DefinedBy(inputs + [value], operations) == DefinedBy(inputs, operations) + {value}
    ensures Ordered(inputs, operations) ==> Ordered(inputs + [value], operations)
  {
    if operations != [] {
      MoreInputs(inputs, value, operations[..|operations| - 1]);
    }
  }

  lemma AddInputKeeps(s: State, name: string, shape: Shape, binding: Binding)
    requires Invariant(s)
    ensures Invariant(AddInput(s, name, shape, binding))
  {
    MoreInputs(s.inputs, |s.values|, s.operations);
  }

  lemma FreshMembers(from: nat, count: nat, v: nat)
    ensures v in Members(Fresh(from, count)) <==> from <= v < from + count
  {
    if from <= v < from + count {
      assert Fresh(from, count)[v - from] == v;
    }
  }

  /** After one more operation the order holds exactly if its operands were already defined. */
  lemma PushOrdered(s: State, operands: seq<nat>, shapes: seq<Shape>, randomState: Option<nat>)
    requires Defined(s)
    ensures Ordered(s.inputs, Push(s, operands, shapes, randomState).operations) <==>
      forall v | v in operands :: v < |s.values|
    ensures var after := Push(s, operands, shapes, randomState);
      forall v: nat :: v in DefinedBy(s.inputs, after.operations) <==> v < |after.values|
  {
    var after := Push(s, operands, shapes, randomState);
    assert after.operations[..|after.operations| - 1] == s.operations;
    forall v: nat ensures v in DefinedBy(s.inputs, after.operations) <==> v < |after.values| {
      FreshMembers(|s.values|, |shapes|, v);
    }
  }

  lemma PushKeepsStates(s: State, operands: seq<nat>, shapes: seq<Shape>, randomState: Option<nat>)
    ensures StateOperands(Push(s, operands, shapes, randomState).operations)
      == StateOperands(s.operations) + if randomState.Some? then [randomState.value] else []
  {
    var after := Push(s, operands, shapes, randomState);
    assert after.operations[..|after.operations| - 1] == s.operations;
  }

  lemma PushKeepsRest(s: State, operands: seq<nat>, shapes: seq<Shape>, randomState: Option<nat>)
    requires InputsInRange(s) && AliasesSound(s)
    ensures var after := Push(s, operands, shapes, randomState); InputsInRange(after) && AliasesSound(after)
  {
  }

  lemma LocalValues(s: State, arguments: seq<Tensor>)
    requires forall t | t in arguments :: IsLocal(s, t)
    ensures forall v | v in ValuesOf(arguments) :: v < |s.values|
  {
    forall v | v in ValuesOf(arguments) ensures v < |s.values| {
      var k :| 0 <= k < |arguments| && ValuesOf(arguments)[k] == v;
      assert IsLocal(s, arguments[k]);
    }
  }

  lemma AddOperationKeeps(s: State, arguments: seq<Tensor>, shapes: seq<Shape>)
    requires Invariant(s)
    ensures Invariant(AddOperation(s, arguments, shapes).0)
  {
    if AddOperation(s, arguments, shapes).1 {
      LocalValues(s, arguments);
    }
    PushOrdered(s, ValuesOf(arguments), shapes, None);
    PushKeepsStates(s, ValuesOf(arguments), shapes, None);
    PushKeepsRest(s, ValuesOf(arguments), shapes, None);
  }

  lemma ConsumeKeeps(s: State, state: Tensor, shape: Shape)
    requires Invariant(s) && AddRandomBits(s, state, shape).1
    ensures
      var after := AddRandomBits(s, state, shape).0;
      ConsumedOnce(after) && InputsInRange(after) && AliasesSound(after)
  {
    PushKeepsStates(s, [state.value], [state.shape, shape], Some(state.value));
    PushKeepsRest(s, [state.value], [state.shape, shape], Some(state.value));
  }

  /**
    An accepted random operation keeps every operand defined exactly if its state names a value
    of this builder; a state from a builder with more values does not.
  */
  lemma RandomBitsExactly(s: State, state: Tensor, shape: Shape)
    requires Invariant(s) && AddRandomBits(s, state, shape).1
    ensures Invariant(AddRandomBits(s, state, shape).0) <==> state.value < |s.values|
  {
    ConsumeKeeps(s, state, shape);
    RandomBitsDefined(s, state, shape);
  }

  lemma RandomBitsDefined(s: State, state: Tensor, shape: Shape)
    requires Defined(s) && AddRandomBits(s, state, shape).1
    ensures Defined(AddRandomBits(s, state, shape).0) <==> state.value < |s.values|
  {
    var pushed := Push(s, [state.value], [state.shape, shape], Some(state.value));
    PushOrdered(s, [state.value], [state.shape, shape], Some(state.value));
    assert Ordered(s.inputs, pushed.operations) <==> state.value < |s.values| by {
      assert state.value in [state.value];
    }
  }

  lemma AddAliasKeeps(s: State, output: Tensor, input: Tensor)
    requires Invariant(s) && Issued(s, output) && Issued(s, input)
    ensures Invariant(AddAlias(s, output, input).0)
  {
    var position := PositionOf(s.inputs, input.value);
    var after := AddAlias(s, output, input).0;
    if AddAlias(s, output, input).1 {
      assert SoundAlias(after, output.value, position);
      forall v | v in after.aliases ensures v < |after.values| && SoundAlias(after, v, after.aliases[v]) {
        assert v != output.value ==> SoundAlias(s, v, s.aliases[v]);
      }
    }
  }

  /** Every call, failing or not, keeps the invariant, given that random states are its own. */
  lemma StepKeeps(s: State, call: Call)
    requires Invariant(s) && IssuedCall(s, call) && OwnState(s, call)
    ensures Invariant(Step(s, call).0)
  {
    match call
    case Input(name, shape) => AddInputKeeps(s, name, shape, Activation);
    case Parameter(name, definition, shape) => AddInputKeeps(s, name, shape, Component(definition));
    case Operate(arguments, shapes) => AddOperationKeeps(s, arguments, shapes);
    case RandomBits(state, shape) =>
      if AddRandomBits(s, state, shape).1 {
        RandomBitsExactly(s, state, shape);
      }
    case ReuseBuffer(output, input) => AddAliasKeeps(s, output, input);
  }

  function Run(s: State, calls: seq<Call>): State {
    if calls == [] then s else Step(Run(s, calls[..|calls| - 1]), calls[|calls| - 1]).0
  }

  ghost predicate IssuedRun(s: State, calls: seq<Call>) {
    calls == [] ||
    (IssuedRun(s, calls[..|calls| - 1])
      && IssuedCall(Run(s, calls[..|calls| - 1]), calls[|calls| - 1]) && OwnState(s, calls[|calls| - 1]))
  }

  /** Over any run of calls from a new builder, failing ones included, the invariant holds. */
  lemma {:induction false} RunKeeps(program: nat, calls: seq<Call>)
    requires IssuedRun(New(program), calls)
    ensures Invariant(Run(New(program), calls)) && Run(New(program), calls).program == program
  {
    if calls != [] {
      RunKeeps(program, calls[..|calls| - 1]);
      StepKeeps(Run(New(program), calls[..|calls| - 1]), calls[|calls| - 1]);
    }
  }

  // ----- what the calls and the invariant say -----

  /** An input is always accepted, as the next value under its name and shape. */
  lemma InputAccepted(s: State, name: string, shape: Shape)
    ensures IssuedCall(s, Input(name, shape)) && Step(s, Input(name, shape)).1
    ensures
      var after := Step(s, Input(name, shape)).0;
      && after.values == s.values + [Value(name, shape)] && after.inputs == s.inputs + [|s.values|]
      && after.bindings == s.bindings + [Activation] && after.operations == s.operations
  {
  }

  /** An operation is refused exactly if some argument is foreign, was never issued, or is not in row-major layout. */
  lemma OperateExactly(s: State, arguments: seq<Tensor>, shapes: seq<Shape>)
    ensures Step(s, Operate(arguments, shapes)).1 <==>
      forall i | 0 <= i < |arguments| ::
        && arguments[i].program == s.program && arguments[i].value < |s.values| && arguments[i].shape.rowMajor
    ensures !Step(s, Operate(arguments, shapes)).1 ==> Step(s, Operate(arguments, shapes)).0 == s
  {
    var accepted := forall i | 0 <= i < |arguments| ::
      && arguments[i].program == s.program && arguments[i].value < |s.values| && arguments[i].shape.rowMajor;
    if accepted {
      forall t | t in arguments ensures IsLocal(s, t) {
        var i :| 0 <= i < |arguments| && arguments[i] == t;
      }
    } else {
      var i :| 0 <= i < |arguments| && !IsLocal(s, arguments[i]);
      assert arguments[i] in arguments;
    }
  }

  lemma {:induction false} StateOperandAt(operations: seq<Operation>, i: nat)
    requires i < |operations| && operations[i].randomState.Some?
    ensures operations[i].randomState.value in StateOperands(operations)
  {
    var last := |operations| - 1;
    var earlier, state := StateOperands(operations[..last]), operations[last].randomState;
    var added := if state.Some? then [state.value] else [];
    if i < last {
      StateOperandAt(operations[..last], i);
      assert operations[i].randomState.value in earlier;
    } else {
      assert operations[i].randomState.value in added;
    }
    assert StateOperands(operations) == earlier + added;
  }

  lemma {:induction false} StatesDiffer(operations: seq<Operation>, i: nat, j: nat)
    requires i < j < |operations| && Distinct(StateOperands(operations))
    requires operations[i].randomState.Some? && operations[j].randomState.Some?
    ensures operations[i].randomState != operations[j].randomState
  {
    var last := |operations| - 1;
    var earlier := StateOperands(operations[..last]);
    if j < last {
      forall a, b | 0 <= a < b < |earlier| ensures earlier[a] != earlier[b] {
        assert StateOperands(operations)[a] == earlier[a] && StateOperands(operations)[b] == earlier[b];
      }
      StatesDiffer(operations[..last], i, j);
    } else {
      StateOperandAt(operations[..last], i);
      assert operations[..last][i] == operations[i];
      var a :| 0 <= a < |earlier| && earlier[a] == operations[i].randomState.value;
      var all := StateOperands(operations);
      assert all == earlier + [operations[j].randomState.value];
      assert all[a] == earlier[a] && all[|earlier|] == operations[j].randomState.value;
    }
  }

  /** In any run no two random operations consume the same state. */
  lemma RunConsumesOnce(program: nat, calls: seq<Call>, i: nat, j: nat)
    requires IssuedRun(New(program), calls)
    requires var operations := Run(New(program), calls).operations;
      && i < j < |operations| && operations[i].randomState.Some? && operations[j].randomState.Some?
    ensures var operations := Run(New(program), calls).operations;
      operations[i].randomState != operations[j].randomState
  {
    RunKeeps(program, calls);
    StatesDiffer(Run(New(program), calls).operations, i, j);
  }

  /** In any run an alias leads to an activation input of the same shape, and no other alias leads there. */
  lemma RunAliases(program: nat, calls: seq<Call>, v: nat, w: nat)
    requires IssuedRun(New(program), calls) && v in Run(New(program), calls).aliases
    ensures
      var s := Run(New(program), calls);
      var position := s.aliases[v];
      && v < |s.values| && position < |s.inputs| == |s.bindings| && s.bindings[position] == Activation
      && s.inputs[position] < |s.values| && s.values[s.inputs[position]].shape == s.values[v].shape
      && (w in s.aliases && w != v ==> s.aliases[w] != position)
  {
    RunKeeps(program, calls);
  }

  // ----- finishing and lowering -----

  datatype Program = Program(values: nat, inputs: seq<nat>, operations: seq<Operation>, outputs: seq<nat>,
    outputAliases: seq<Option<nat>>)

  ghost predicate UniqueNames(names: seq<string>) {
    forall i, j | 0 <= i < j < |names| :: names[i] != names[j]
  }

  function InputNames(s: State): seq<string>
    requires forall i | 0 <= i < |s.inputs| :: s.inputs[i] < |s.values|
  {
    seq(|s.inputs|, i requires 0 <= i < |s.inputs| => s.values[s.inputs[i]].name)
  }

  function AliasOf(s: State, value: nat): Option<nat> {
    if value in s.aliases then Some(s.aliases[value]) else None
  }

  function Finished(s: State, outputs: seq<Tensor>): Program {
    Program(|s.values|, s.inputs, s.operations, ValuesOf(outputs),
      seq(|outputs|, k requires 0 <= k < |outputs| => AliasOf(s, outputs[k].value)))
  }

  /** Output slot `k` names the value of `outputs[k]` and the input position its storage was lent, if any. */
  lemma FinishedNames(s: State, outputs: seq<Tensor>, k: nat)
    requires k < |outputs|
    ensures |Finished(s, outputs).outputs| == |Finished(s, outputs).outputAliases| == |outputs|
    ensures Finished(s, outputs).outputs[k] == outputs[k].value
    ensures var alias := Finished(s, outputs).outputAliases[k];
      if outputs[k].value in s.aliases then alias == Some(s.aliases[outputs[k].value]) else alias == None
  {
  }

  /** A recorded operation names its arguments in order and numbers its results on from the values there were. */
  lemma OperationRecorded(s: State, arguments: seq<Tensor>, shapes: seq<Shape>, a: nat, r: nat)
    requires AddOperation(s, arguments, shapes).1 && a < |arguments| && r < |shapes|
    ensures
      var after := AddOperation(s, arguments, shapes).0;
      && |after.operations| == |s.operations| + 1 && |after.values| == |s.values| + |shapes|
      && (var added := after.operations[|s.operations|];
          && |added.operands| == |arguments| && |added.results| == |shapes| && added.randomState == None
          && IsLocal(s, arguments[a]) && added.operands[a] == arguments[a].value
          && added.results[r] == |s.values| + r && after.values[added.results[r]] == Value("", shapes[r]))
  {
    assert arguments[a] in arguments;
  }

  /** What a program must satisfy to be finished. */
  ghost predicate Finishable(s: State, names: seq<string>, outputs: seq<Tensor>)
    requires forall i | 0 <= i < |s.inputs| :: s.inputs[i] < |s.values|
  {
    && outputs != [] && (forall t | t in outputs :: IsLocal(s, t))
    && UniqueNames(InputNames(s)) && UniqueNames(names)
    && forall v | v in s.values :: v.shape.rowMajor
  }

  /** Lowering succeeds when every operand and output it looks up has been produced. */
  method Lower(p: Program) returns (ok: bool)
    requires forall v | v in p.inputs :: v < p.values
    requires forall o | o in p.operations :: forall v | v in o.results :: v < p.values
    ensures ok <==>
      Ordered(p.inputs, p.operations) && forall v | v in p.outputs :: v in DefinedBy(p.inputs, p.operations)
  {
    var produced := Members(p.inputs);
    for k := 0 to |p.operations|
      invariant produced == DefinedBy(p.inputs, p.operations[..k]) && Ordered(p.inputs, p.operations[..k])
    {
      assert p.operations[..k + 1][..k] == p.operations[..k];
      if !AllIn(p.operations[k].operands, produced) {
        OrderedPrefix(p.inputs, p.operations, k + 1);
        return false;
      }
      produced := produced + Members(p.operations[k].results);
    }
    assert p.operations[..|p.operations|] == p.operations;
    return forall v | v in p.outputs :: v in produced;
  }

  lemma {:induction false} OrderedPrefix(inputs: seq<nat>, operations: seq<Operation>, k: nat)
    requires k <= |operations|
    ensures Ordered(inputs, operations) ==> Ordered(inputs, operations[..k])
  {
    if k < |operations| {
      OrderedPrefix(inputs, operations[..|operations| - 1], k);
      assert operations[..|operations| - 1][..k] == operations[..k];
    } else {
      assert operations[..k] == operations;
    }
  }

  /** A program finished after any run of calls lowers without an undefined operand or output. */
  lemma FinishedLowers(program: nat, calls: seq<Call>, outputs: seq<Tensor>)
    requires IssuedRun(New(program), calls) && forall t | t in outputs :: IsLocal(Run(New(program), calls), t)
    ensures
      var p := Finished(Run(New(program), calls), outputs);
      Ordered(p.inputs, p.operations) && forall v | v in p.outputs :: v in DefinedBy(p.inputs, p.operations)
  {
    RunKeeps(program, calls);
    var s := Run(New(program), calls);
    LocalValues(s, outputs);
  }

  /** A new builder handed another builder's state accepts it and can no longer be lowered. */
  lemma ForeignState(mine: nat, state: Tensor, shape: Shape)
    requires state.program != mine && shape.rowMajor && shape.dtype == U32
    ensures
      var calls := [RandomBits(state, shape)];
      IssuedCall(New(mine), calls[0]) && Step(New(mine), calls[0]).1
      && !Ordered(Run(New(mine), calls).inputs, Run(New(mine), calls).operations)
  {
    var s := New(mine);
    var calls := [RandomBits(state, shape)];
    assert calls[..0] == [] && Run(s, []) == s;
    PushOrdered(s, [state.value], [state.shape, shape], Some(state.value));
    assert state.value in [state.value];
  }

  // ----- input aliases of the emitted program -----

  /** Inverts the output aliases; a later output overwrites an earlier one. */
  method InputAliases(outputAliases: seq<Option<nat>>, inputs: nat) returns (inverse: seq<Option<nat>>)
    requires forall a | a in outputAliases :: a.Some? ==> a.value < inputs
    ensures |inverse| == inputs
    ensures forall p | 0 <= p < inputs :: inverse[p] == LastOutput(outputAliases, p)
  {
    inverse := seq(inputs, _ => None);
    for k := 0 to |outputAliases|
      invariant |inverse| == inputs
      invariant forall p | 0 <= p < inputs :: inverse[p] == LastOutput(outputAliases[..k], p)
    {
      assert outputAliases[..k + 1][..k] == outputAliases[..k];
      var alias := outputAliases[k];
      if alias.Some? {
        inverse := inverse[alias.value := Some(k)];
      }
    }
    assert outputAliases[..|outputAliases|] == outputAliases;
  }

  /** The last output aliased to an input position. */
  function LastOutput(outputAliases: seq<Option<nat>>, position: nat): Option<nat> {
    if outputAliases == [] then None
    else if outputAliases[|outputAliases| - 1] == Some(position) then Some(|outputAliases| - 1)
    else LastOutput(outputAliases[..|outputAliases| - 1], position)
  }

  /** Every aliased output is the one its input points back to. */
  ghost predicate Inverts(outputAliases: seq<Option<nat>>) {
    forall k | 0 <= k < |outputAliases| && outputAliases[k].Some? ::
      LastOutput(outputAliases, outputAliases[k].value) == Some(k)
  }

  lemma {:induction false} LastOutputIsLast(outputAliases: seq<Option<nat>>, position: nat)
    ensures
      var last := LastOutput(outputAliases, position);
      if last.Some? then
        && last.value < |outputAliases| && outputAliases[last.value] == Some(position)
        && forall k | last.value < k < |outputAliases| :: outputAliases[k] != Some(position)
      else forall k | 0 <= k < |outputAliases| :: outputAliases[k] != Some(position)
  {
    if outputAliases != [] && outputAliases[|outputAliases| - 1] != Some(position) {
      LastOutputIsLast(outputAliases[..|outputAliases| - 1], position);
    }
  }

  /** The emitted input aliases invert the output aliases exactly if no aliased tensor is listed twice. */
  lemma AliasesInvertExactly(s: State, outputs: seq<Tensor>)
    requires AliasesSound(s)
    ensures Inverts(Finished(s, outputs).outputAliases) <==>
      forall j, k | 0 <= j < k < |outputs| && outputs[j].value in s.aliases :: outputs[j].value != outputs[k].value
  {
    var aliases := Finished(s, outputs).outputAliases;
    if Inverts(aliases) {
      forall j, k | 0 <= j < k < |outputs| && outputs[j].value in s.aliases
        ensures outputs[j].value != outputs[k].value
      {
        LastOutputIsLast(aliases, s.aliases[outputs[j].value]);
        assert aliases[j] == Some(s.aliases[outputs[j].value]);
        assert aliases[k] != aliases[j];
      }
    }
    if forall j, k | 0 <= j < k < |outputs| && outputs[j].value in s.aliases :: outputs[j].value != outputs[k].value {
      forall k | 0 <= k < |aliases| && aliases[k].Some? ensures LastOutput(aliases, aliases[k].value) == Some(k) {
        LastOutputIsLast(aliases, aliases[k].value);
      }
    }
  }

  // ----- the builder itself -----

  class Builder {
    const program: nat
    var values: seq<Value>
    var inputs: seq<nat>
    var bindings: seq<Binding>
    var components: map<string, (nat, nat)>
    var operations: seq<Operation>
    var aliases: map<nat, nat>
    var consumed: set<nat>

    function Current(): State
      reads this
    {
      State(program, values, inputs, bindings, components, operations, aliases, consumed)
    }

    constructor (program: nat)
      ensures Current() == New(program) && Invariant(Current())
    {
      this.program := program;
      values, inputs, bindings, components := [], [], [], map[];
      operations, aliases, consumed := [], map[], {};
    }

    method PushValue(name: string, shape: Shape) returns (t: Tensor)
      modifies this`values
      ensures values == old(values) + [Value(name, shape)] && t == Tensor(program, |old(values)|, shape)
    {
      t := Tensor(program, |values|, shape);
      values := values + [Value(name, shape)];
    }

    method NamedInput(name: string, shape: Shape, binding: Binding) returns (t: Tensor)
      requires Invariant(Current())
      modifies this
      ensures Current() == AddInput(old(Current()), name, shape, binding) && Invariant(Current())
      ensures t == Tensor(program, |old(values)|, shape) && Issued(Current(), t)
    {
      AddInputKeeps(Current(), name, shape, binding);
      inputs := inputs + [|values|];
      bindings := bindings + [binding];
      t := PushValue(name, shape);
    }

    method ParameterValue(name: string, definition: nat, shape: Shape) returns (t: Option<Tensor>)
      requires Invariant(Current())
      modifies this
      ensures Current() == Step(old(Current()), Parameter(name, definition, shape)).0 && Invariant(Current())
      ensures t.Some? <==> Step(old(Current()), Parameter(name, definition, shape)).1
      ensures t.Some? ==> Issued(Current(), t.value) && t.value.value in inputs
      ensures t.Some? ==> name in components && t.value == Tensor(program, components[name].0, shape)
    {
      StepKeeps(Current(), Parameter(name, definition, shape));
      if name in components {
        var (value, declared) := components[name];
        if declared != definition || value >= |values| || values[value].shape != shape {
          return None;
        }
        return Some(Tensor(program, value, shape));
      }
      components := components[name := (|values|, definition)];
      inputs := inputs + [|values|];
      bindings := bindings + [Component(definition)];
      var issued := PushValue(name, shape);
      return Some(issued);
    }

    /** Any operation: its arguments are checked first, then its results are numbered. */
    method Operate(arguments: seq<Tensor>, shapes: seq<Shape>) returns (results: Option<seq<Tensor>>)
      requires Invariant(Current())
      modifies this
      ensures (Current(), results.Some?) == Step(old(Current()), Call.Operate(arguments, shapes))
      ensures Invariant(Current())
      ensures results.Some? ==> |results.value| == |shapes|
      ensures results.Some? ==> forall i | 0 <= i < |shapes| ::
        results.value[i] == Tensor(program, |old(values)| + i, shapes[i])
    {
      AddOperationKeeps(Current(), arguments, shapes);
      var local := AreLocal(arguments);
      if !local {
        return None;
      }
      var handles := Record(arguments, shapes);
      return Some(handles);
    }

    method Record(arguments: seq<Tensor>, shapes: seq<Shape>) returns (handles: seq<Tensor>)
      modifies this`operations, this`values
      ensures Current() == Push(old(Current()), ValuesOf(arguments), shapes, None)
      ensures handles == Handles(program, |old(values)|, shapes)
    {
      handles := Handles(program, |values|, shapes);
      operations := operations + [Operation(ValuesOf(arguments), Fresh(|values|, |shapes|), None)];
      values := values + Named(shapes);
    }

    method AreLocal(arguments: seq<Tensor>) returns (local: bool)
      ensures local <==> forall t | t in arguments :: IsLocal(Current(), t)
    {
      for i := 0 to |arguments|
        invariant forall j | 0 <= j < i :: IsLocal(Current(), arguments[j])
      {
        if !IsLocal(Current(), arguments[i]) {
          assert arguments[i] in arguments;
          return false;
        }
      }
      return true;
    }

    /** The next state and the bits. */
    method RandomBits(state: Tensor, shape: Shape) returns (results: Option<(Tensor, Tensor)>)
      requires Invariant(Current())
      modifies this
      ensures (Current(), results.Some?) == Step(old(Current()), Call.RandomBits(state, shape))
      ensures results.Some? ==> (Invariant(Current()) <==> state.value < |old(values)|)
      ensures results.Some? ==>
        results.value == (Tensor(program, |old(values)|, state.shape), Tensor(program, |old(values)| + 1, shape))
      ensures results.None? ==> Current() == old(Current())
    {
      if !shape.rowMajor || (shape.dtype != U32 && shape.dtype != U64) || state.value in consumed {
        return None;
      }
      RandomBitsExactly(Current(), state, shape);
      consumed := consumed + {state.value};
      operations := operations + [Operation([state.value], Fresh(|values|, 2), Some(state.value))];
      var next := Tensor(program, |values|, state.shape);
      var bits := Tensor(program, |values| + 1, shape);
      values := values + Named([state.shape, shape]);
      return Some((next, bits));
    }

    method ReuseBuffer(output: Tensor, input: Tensor) returns (ok: bool)
      requires Invariant(Current()) && Issued(Current(), output) && Issued(Current(), input)
      modifies this`aliases
      ensures (Current(), ok) == Step(old(Current()), Call.ReuseBuffer(output, input)) && Invariant(Current())
    {
      AddAliasKeeps(Current(), output, input);
      if !IsLocal(Current(), output) || !IsLocal(Current(), input) || output.shape != input.shape {
        return false;
      }
      var position := PositionOf(inputs, input.value);
      if position >= |inputs| || !bindings[position].Activation? {
        return false;
      }
      if output.value in aliases || position in aliases.Values {
        return false;
      }
      aliases := aliases[output.value := position];
      return true;
    }

    /** Checks names, layouts and outputs, and yields the immutable program. */
    method FinishNamed(names: seq<string>, outputs: seq<Tensor>) returns (program: Option<Program>)
      requires Invariant(Current())
      ensures program.Some? <==> Finishable(Current(), names, outputs)
      ensures program.Some? ==> program.value == Finished(Current(), outputs)
      ensures program.Some? ==> forall k | 0 <= k < |outputs| :: program.value.outputs[k] == outputs[k].value
      ensures program.Some? ==>
        Ordered(inputs, operations) && AllIn(program.value.outputs, DefinedBy(inputs, operations))
    {
      if outputs == [] || exists t | t in outputs :: !IsLocal(Current(), t) {
        return None;
      }
      if exists i, j | 0 <= i < j < |inputs| :: InputNames(Current())[i] == InputNames(Current())[j] {
        return None;
      }
      if exists i, j | 0 <= i < j < |names| :: names[i] == names[j] {
        return None;
      }
      if exists v | v in values :: !v.shape.rowMajor {
        return None;
      }
      LocalValues(Current(), outputs);
      return Some(Finished(Current(), outputs));
    }
  }
}
