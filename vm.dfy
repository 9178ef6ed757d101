/**
 * The stack machine of vm.c: a value stack of STACK_MAX slots, an instruction
 * pointer into a chunk, and the `_run` loop that dispatches one opcode at a
 * time until OP_RETURN or a runtime error.
 *
 * What C leaves undefined (reading past the end of the code, popping an empty
 * stack, pushing onto a full one, a constant operand past the end of the
 * pool) is made explicit as the outcome `Fault`, after which nothing is
 * promised about the machine.
 */
module VirtualMachine {
  import opened Values
  import opened Chunks
  import opened Compiler

  /** FRAMES_MAX * UINT8_COUNT slots (vm.h). */
  const STACK_MAX: nat := 64 * 256

  /** How a run ends: OP_RETURN with the value it prints, a runtime error, or undefined behaviour. */
  datatype Outcome = Returned(value: Value) | RuntimeError | Fault

  datatype Status = Running | Halted(outcome: Outcome)

  /** The part of vm_t that `_run` changes: the instruction pointer and the live stack. */
  datatype VmState = VmState(ip: nat, stack: seq<Value>)

  datatype StepResult = StepResult(status: Status, state: VmState)

  /** InterpretResult, with one more value standing for undefined behaviour. */
  datatype InterpretResult =
    | InterpretOk | InterpretCompileError | InterpretRuntimeError | InterpretFault

  // ---------------------------------------------------------------------
  // One pass of the dispatch loop, as a function of the state.
  // ---------------------------------------------------------------------

  /** The opcodes handled by the BINARY_OP macro. */
  predicate IsBinaryOp(op: OpCode) {
    op in {OpGreater, OpLess, OpAdd, OpSubtract, OpMultiply, OpDivide}
  }

  /** `a op b` for the operator of a BINARY_OP opcode, a being the deeper operand. */
  function Arith(ops: NumberOps, op: OpCode, a: Number, b: Number): Value
    requires IsBinaryOp(op)
  {
    if op == OpGreater then Bool(ops.greater(a, b))
    else if op == OpLess then Bool(ops.less(a, b))
    else if op == OpAdd then Num(ops.add(a, b))
    else if op == OpSubtract then Num(ops.subtract(a, b))
    else if op == OpMultiply then Num(ops.multiply(a, b))
    else Num(ops.divide(a, b))
  }

  /** Undefined behaviour: the run stops and nothing is promised about the state. */
  function Fail(st: VmState): StepResult {
    StepResult(Halted(Fault), st)
  }

  /** _push: store at the top; a push onto a full stack overflows the array. */
  function PushValue(st: VmState, v: Value): (r: StepResult)
    ensures r.status.Running? <==> |st.stack| < STACK_MAX
    ensures r.status.Running? ==> r.state == VmState(st.ip, st.stack + [v])
  {
    if |st.stack| >= STACK_MAX then Fail(st) else StepResult(Running, VmState(st.ip, st.stack + [v]))
  }

  /**
   * _runtime_error: report the line of the instruction just read and reset
   * the stack. Looking up that line is itself out of bounds when the chunk
   * has fewer lines than bytes.
   */
  function RaiseError(c: Chunk, st: VmState): (r: StepResult)
    requires st.ip >= 1
    ensures r.status == Halted(RuntimeError) <==> st.ip - 1 < |c.lines|
    ensures r.status == Halted(RuntimeError) ==> r.state == VmState(st.ip, [])
  {
    if st.ip - 1 < |c.lines| then StepResult(Halted(RuntimeError), VmState(st.ip, [])) else Fail(st)
  }

  /**
   * BINARY_OP: both operands must be numbers (the top one is checked first,
   * so a non-number on top is an error even on a one-element stack); b is
   * popped, then a, and `a op b` pushed.
   */
  function BinaryStep(ops: NumberOps, c: Chunk, op: OpCode, st: VmState): StepResult
    requires IsBinaryOp(op) && st.ip >= 1
  {
    var s := st.stack;
    if |s| < 1 then Fail(st)
    else if !s[|s| - 1].Num? then RaiseError(c, st)
    else if |s| < 2 then Fail(st)
    else if !s[|s| - 2].Num? then RaiseError(c, st)
    else PushValue(VmState(st.ip, s[..|s| - 2]), Arith(ops, op, s[|s| - 2].number, s[|s| - 1].number))
  }

  /** OP_CONSTANT: read the operand byte and push the pool entry it names. */
  function ConstantOp(c: Chunk, st: VmState): StepResult {
    if st.ip >= |c.code| || c.code[st.ip] >= |c.constants| then Fail(st)
    else PushValue(VmState(st.ip + 1, st.stack), c.constants[c.code[st.ip]])
  }

  /** OP_EQUAL: pop b, then a, and push whether they are equal. */
  function EqualOp(ops: NumberOps, st: VmState): StepResult {
    var s := st.stack;
    if |s| < 2 then Fail(st)
    else PushValue(VmState(st.ip, s[..|s| - 2]), Bool(ValuesEqual(ops, s[|s| - 2], s[|s| - 1])))
  }

  /** OP_NOT: replace the top with whether it is falsey. */
  function NotOp(st: VmState): StepResult {
    var s := st.stack;
    if |s| < 1 then Fail(st)
    else PushValue(VmState(st.ip, s[..|s| - 1]), Bool(IsFalsey(s[|s| - 1])))
  }

  /** OP_NEGATE: the top must be a number, and is replaced by its negation. */
  function NegateOp(ops: NumberOps, c: Chunk, st: VmState): StepResult
    requires st.ip >= 1
  {
    var s := st.stack;
    if |s| < 1 then Fail(st)
    else if !s[|s| - 1].Num? then RaiseError(c, st)
    else PushValue(VmState(st.ip, s[..|s| - 1]), Num(ops.negate(s[|s| - 1].number)))
  }

  /** OP_RETURN: pop the top, which is the value the run returns. */
  function ReturnOp(st: VmState): StepResult {
    var s := st.stack;
    if |s| < 1 then Fail(st)
    else StepResult(Halted(Returned(s[|s| - 1])), VmState(st.ip, s[..|s| - 1]))
  }

  /** The body of one `case` of the switch, entered with the opcode byte already read. */
  function Execute(ops: NumberOps, c: Chunk, op: OpCode, st: VmState): (r: StepResult)
    requires 1 <= st.ip <= |c.code|
    ensures r.status.Running? ==> st.ip <= r.state.ip <= |c.code|
    ensures r.status == Halted(RuntimeError) ==> r.state.stack == []
  {
    match op
    case OpConstant => ConstantOp(c, st)
    case OpNil => PushValue(st, Nil)
    case OpTrue => PushValue(st, Bool(true))
    case OpFalse => PushValue(st, Bool(false))
    case OpEqual => EqualOp(ops, st)
    case OpNot => NotOp(st)
    case OpNegate => NegateOp(ops, c, st)
    case OpReturn => ReturnOp(st)
    case _ => BinaryStep(ops, c, op, st)
  }

  /**
   * One pass of the `for (;;)` loop: READ_BYTE, then the switch. A byte that
   * names no opcode matches no case and the loop goes on with the next byte.
   */
  function Step(ops: NumberOps, c: Chunk, st: VmState): (r: StepResult)
    ensures r.status.Running? ==> st.ip < r.state.ip <= |c.code|
    ensures r.status == Halted(RuntimeError) ==> r.state.stack == []
  {
    if st.ip >= |c.code| then Fail(st)
    else
      var next := VmState(st.ip + 1, st.stack);
      match Decode(c.code[st.ip])
      case None => StepResult(Running, next)
      case Some(op) => Execute(ops, c, op, next)
  }

  /**
   * _run: steps until the machine halts. Every pass moves the instruction
   * pointer forward, so a run always ends, if only by running off the code.
   * RunFrom, RunOn and StepThenRun are one definition in three links, so
   * that mentioning a run does not expand its first step; RunStep is where
   * a proof takes that step.
   */
  function RunFrom(ops: NumberOps, c: Chunk, st: VmState): (r: StepResult)
    ensures r.status.Halted?
    decreases |c.code| - st.ip, 2
  {
    RunOn(ops, c, st)
  }

  /** The second link of RunFrom. */
  function RunOn(ops: NumberOps, c: Chunk, st: VmState): (r: StepResult)
    ensures r.status.Halted?
    decreases |c.code| - st.ip, 1
  {
    StepThenRun(ops, c, st)
  }

  /** One pass of the loop from st, then the rest of the run if the machine did not halt. */
  function StepThenRun(ops: NumberOps, c: Chunk, st: VmState): (r: StepResult)
    ensures r.status.Halted?
    decreases |c.code| - st.ip, 0
  {
    var r := Step(ops, c, st);
    if r.status.Running? then RunFrom(ops, c, r.state) else r
  }

  // ---------------------------------------------------------------------
  // What each opcode does to the stack.
  // ---------------------------------------------------------------------

  /** The net change in stack depth of an opcode that lets the loop go on. */
  function StackEffect(op: OpCode): int {
    match op
    case OpConstant => 1
    case OpNil => 1
    case OpTrue => 1
    case OpFalse => 1
    case OpNot => 0
    case OpNegate => 0
    case OpReturn => -1
    case _ => -1
  }

  /** Every opcode that does not halt changes the depth by its fixed effect; other bytes change nothing. */
  lemma StepDepth(ops: NumberOps, c: Chunk, st: VmState)
    requires st.ip < |c.code|
    requires Step(ops, c, st).status.Running?
    ensures Decode(c.code[st.ip]).Some? ==>
      |Step(ops, c, st).state.stack| == |st.stack| + StackEffect(Decode(c.code[st.ip]).value)
    ensures Decode(c.code[st.ip]).None? ==> Step(ops, c, st) == StepResult(Running, VmState(st.ip + 1, st.stack))
  {
  }

  /**
   * Operand order: on two numbers, an arithmetic or comparison opcode pops b
   * (the top) and then a, and pushes `a op b` in their place.
   */
  lemma BinaryOperandOrder(ops: NumberOps, c: Chunk, ip: nat, s: seq<Value>, a: Number, b: Number)
    requires ip < |c.code| && Decode(c.code[ip]).Some? && IsBinaryOp(Decode(c.code[ip]).value)
    requires |s| + 2 <= STACK_MAX
    ensures Step(ops, c, VmState(ip, s + [Num(a), Num(b)]))
      == StepResult(Running, VmState(ip + 1, s + [Arith(ops, Decode(c.code[ip]).value, a, b)]))
  {
    var s2 := s + [Num(a), Num(b)];
    assert s2[..|s2| - 2] == s;
  }

  /**
   * Type errors: when either of the top two values is not a number, a binary
   * opcode reports a runtime error and leaves the stack empty.
   */
  lemma BinaryTypeError(ops: NumberOps, c: Chunk, ip: nat, s: seq<Value>, a: Value, b: Value)
    requires ip < |c.code| && ip < |c.lines| && Decode(c.code[ip]).Some? && IsBinaryOp(Decode(c.code[ip]).value)
    requires !a.Num? || !b.Num?
    ensures Step(ops, c, VmState(ip, s + [a, b])) == StepResult(Halted(RuntimeError), VmState(ip + 1, []))
  {
  }

  /** OP_NEGATE on a non-number is a runtime error that empties the stack; on a number it replaces the top. */
  lemma NegateStep(ops: NumberOps, c: Chunk, ip: nat, s: seq<Value>, v: Value)
    requires ip < |c.code| && ip < |c.lines| && c.code[ip] == Encode(OpNegate)
    requires |s| + 1 <= STACK_MAX
    ensures !v.Num? ==> Step(ops, c, VmState(ip, s + [v])) == StepResult(Halted(RuntimeError), VmState(ip + 1, []))
    ensures v.Num? ==>
      Step(ops, c, VmState(ip, s + [v])) == StepResult(Running, VmState(ip + 1, s + [Num(ops.negate(v.number))]))
  {
    assert (s + [v])[..|s|] == s;
  }

  /** OP_CONSTANT pushes the pool entry its operand names and skips the operand. */
  lemma ConstantStep(ops: NumberOps, c: Chunk, ip: nat, s: seq<Value>)
    requires ip + 1 < |c.code| && c.code[ip] == Encode(OpConstant)
    requires c.code[ip + 1] < |c.constants| && |s| < STACK_MAX
    ensures Step(ops, c, VmState(ip, s))
      == StepResult(Running, VmState(ip + 2, s + [c.constants[c.code[ip + 1]]]))
  {
  }

  // ---------------------------------------------------------------------
  // The machine of vm.c.
  // ---------------------------------------------------------------------

  class Vm {
    /** `stack`, with `stackTop` the number of live slots (stack_top - stack). */
    const stack: array<Value>
    var stackTop: nat
    /** The instruction pointer, as an offset into the chunk's code. */
    var ip: nat
    var chunk: Chunk

    ghost predicate Valid()
      reads this
    {
      stack.Length == STACK_MAX && stackTop <= STACK_MAX
    }

    /** The live values, bottom first. */
    ghost function Stack(): seq<Value>
      reads this, stack
      requires Valid()
    {
      stack[..stackTop]
    }

    ghost function State(): VmState
      reads this, stack
      requires Valid()
    {
      VmState(ip, Stack())
    }

    /** l_init_vm: an empty stack. */
    constructor ()
      ensures Valid() && Stack() == [] && ip == 0 && chunk == Chunk([], [], [])
    {
      stack := new Value[STACK_MAX](_ => Nil);
      stackTop := 0;
      ip := 0;
      chunk := Chunk([], [], []);
    }

    /** _reset_stack */
    method ResetStack()
      requires Valid()
      modifies this
      ensures Valid() && Stack() == []
      ensures ip == old(ip) && chunk == old(chunk)
    {
      stackTop := 0;
    }

    /** _push: the stack grows by the value and nothing below it changes. */
    method Push(value: Value)
      requires Valid() && stackTop < STACK_MAX
      modifies this, stack
      ensures Valid() && Stack() == old(Stack()) + [value]
      ensures ip == old(ip) && chunk == old(chunk)
    {
      stack[stackTop] := value;
      stackTop := stackTop + 1;
    }

    /** _pop: removes and returns the top value; pushing it back restores the stack. */
    method Pop() returns (value: Value)
      requires Valid() && stackTop > 0
      modifies this
      ensures Valid() && Stack() + [value] == old(Stack())
      ensures ip == old(ip) && chunk == old(chunk)
    {
      stackTop := stackTop - 1;
      value := stack[stackTop];
      assert old(Stack()) == Stack() + [value];
    }

    /** _peek: the value `distance` slots below the top, leaving the stack alone. */
    method Peek(distance: nat) returns (value: Value)
      requires Valid() && distance < stackTop
      ensures value == Stack()[|Stack()| - 1 - distance]
    {
      value := stack[stackTop - 1 - distance];
    }

    /** READ_BYTE */
    method ReadByte() returns (b: Byte)
      requires ip < |chunk.code|
      modifies this
      ensures chunk == old(chunk) && stackTop == old(stackTop)
      ensures b == chunk.code[old(ip)] && ip == old(ip) + 1
    {
      b := chunk.code[ip];
      ip := ip + 1;
    }

    /** _runtime_error: the diagnostic is not modelled; the stack is reset. */
    method RaiseRuntimeError()
      requires Valid() && 1 <= ip && ip - 1 < |chunk.lines|
      modifies this
      ensures Valid() && StepResult(Halted(RuntimeError), State()) == RaiseError(chunk, old(State()))
      ensures chunk == old(chunk)
    {
      ResetStack();
    }

    /**
     * The machine's new status is r's, and so is its new state unless the
     * step was undefined behaviour.
     */
    ghost predicate Follows(status: Status, r: StepResult)
      reads this, stack
      requires Valid()
    {
      status == r.status && (status != Halted(Fault) ==> State() == r.state)
    }

    /** OP_CONSTANT */
    method Constant() returns (status: Status)
      requires Valid()
      modifies this, stack
      ensures Valid() && chunk == old(chunk)
      ensures Follows(status, ConstantOp(chunk, old(State())))
    {
      if ip >= |chunk.code| || chunk.code[ip] >= |chunk.constants| || stackTop >= STACK_MAX {
        status := Halted(Fault);
      } else {
        var index := ReadByte();
        Push(chunk.constants[index]);
        status := Running;
      }
    }

    /** OP_NIL, OP_TRUE and OP_FALSE: push the literal. */
    method Literal(v: Value) returns (status: Status)
      requires Valid()
      modifies this, stack
      ensures Valid() && chunk == old(chunk)
      ensures Follows(status, PushValue(old(State()), v))
    {
      if stackTop >= STACK_MAX {
        status := Halted(Fault);
      } else {
        Push(v);
        status := Running;
      }
    }

    /** OP_EQUAL */
    method Equal(ops: NumberOps) returns (status: Status)
      requires Valid()
      modifies this, stack
      ensures Valid() && chunk == old(chunk)
      ensures Follows(status, EqualOp(ops, old(State())))
    {
      if stackTop < 2 {
        status := Halted(Fault);
      } else {
        ghost var s := Stack();
        var b := Pop();
        var a := Pop();
        assert Stack() == s[..|s| - 2] && a == s[|s| - 2] && b == s[|s| - 1];
        Push(Bool(ValuesEqual(ops, a, b)));
        status := Running;
      }
    }

    /** OP_NOT */
    method Not() returns (status: Status)
      requires Valid()
      modifies this, stack
      ensures Valid() && chunk == old(chunk)
      ensures Follows(status, NotOp(old(State())))
    {
      if stackTop < 1 {
        status := Halted(Fault);
      } else {
        ghost var s := Stack();
        var v := Pop();
        assert Stack() == s[..|s| - 1];
        Push(Bool(IsFalsey(v)));
        status := Running;
      }
    }

    /** OP_NEGATE */
    method Negate(ops: NumberOps) returns (status: Status)
      requires Valid() && ip >= 1
      modifies this, stack
      ensures Valid() && chunk == old(chunk)
      ensures Follows(status, NegateOp(ops, chunk, old(State())))
    {
      if stackTop < 1 {
        status := Halted(Fault);
      } else {
        var top := Peek(0);
        if top.Num? {
          ghost var s := Stack();
          var v := Pop();
          assert Stack() == s[..|s| - 1];
          Push(Num(ops.negate(v.number)));
          status := Running;
        } else {
          status := TypeError();
        }
      }
    }

    /** OP_RETURN */
    method Return() returns (status: Status)
      requires Valid()
      modifies this, stack
      ensures Valid() && chunk == old(chunk)
      ensures Follows(status, ReturnOp(old(State())))
    {
      if stackTop < 1 {
        status := Halted(Fault);
      } else {
        ghost var s := Stack();
        var v := Pop();
        assert Stack() == s[..|s| - 1];
        status := Halted(Returned(v));
      }
    }

    /** The BINARY_OP macro. */
    method BinaryOp(ops: NumberOps, op: OpCode) returns (status: Status)
      requires Valid() && IsBinaryOp(op) && ip >= 1
      modifies this, stack
      ensures Valid() && chunk == old(chunk)
      ensures Follows(status, BinaryStep(ops, chunk, op, old(State())))
    {
      var defined, numbers := CheckOperands();
      if !defined {
        status := Halted(Fault);
      } else if numbers {
        status := Arithmetic(ops, op);
      } else {
        status := TypeError();
      }
    }

    /** The end of BINARY_OP on two numbers: pop b, then a, and push `a op b`. */
    method Arithmetic(ops: NumberOps, op: OpCode) returns (status: Status)
      requires Valid() && IsBinaryOp(op) && ip >= 1
      requires |Stack()| >= 2 && Stack()[|Stack()| - 1].Num? && Stack()[|Stack()| - 2].Num?
      modifies this, stack
      ensures Valid() && chunk == old(chunk)
      ensures Follows(status, BinaryStep(ops, chunk, op, old(State())))
    {
      ghost var s := Stack();
      var b := Pop();
      var a := Pop();
      assert Stack() == s[..|s| - 2] && a == s[|s| - 2] && b == s[|s| - 1];
      Push(Arith(ops, op, a.number, b.number));
      status := Running;
    }

    /** An operand of the wrong type: _runtime_error, whose line lookup may itself be out of bounds. */
    method TypeError() returns (status: Status)
      requires Valid() && ip >= 1
      modifies this
      ensures Valid() && chunk == old(chunk)
      ensures Follows(status, RaiseError(chunk, old(State())))
    {
      if ip - 1 < |chunk.lines| {
        RaiseRuntimeError();
        status := Halted(RuntimeError);
      } else {
        status := Halted(Fault);
      }
    }

    /**
     * The test at the head of BINARY_OP. The top is checked first, so
     * peeking at the second slot is undefined only once the top is a number.
     */
    method CheckOperands() returns (defined: bool, numbers: bool)
      requires Valid()
      ensures defined <==> |Stack()| >= 1 && (Stack()[|Stack()| - 1].Num? ==> |Stack()| >= 2)
      ensures defined ==> (numbers <==> Stack()[|Stack()| - 1].Num? && Stack()[|Stack()| - 2].Num?)
    {
      defined := stackTop >= 1;
      numbers := false;
      if defined {
        var top := Peek(0);
        numbers := top.Num?;
        if numbers {
          defined := stackTop >= 2;
          if defined {
            var second := Peek(1);
            numbers := second.Num?;
          }
        }
      }
    }

    /** One `case` of the switch in _run, the opcode byte having been read. */
    method ExecuteOp(ops: NumberOps, op: OpCode) returns (status: Status)
      requires Valid() && 1 <= ip <= |chunk.code|
      modifies this, stack
      ensures Valid() && chunk == old(chunk)
      ensures Follows(status, Execute(ops, chunk, op, old(State())))
    {
      match op
      case OpConstant => status := Constant();
      case OpNil => status := Literal(Nil);
      case OpTrue => status := Literal(Bool(true));
      case OpFalse => status := Literal(Bool(false));
      case OpEqual => status := Equal(ops);
      case OpNot => status := Not();
      case OpNegate => status := Negate(ops);
      case OpReturn => status := Return();
      case _ => status := BinaryOp(ops, op);
    }

    /** One pass of the dispatch loop. */
    method Dispatch(ops: NumberOps) returns (status: Status)
      requires Valid()
      modifies this, stack
      ensures Valid() && chunk == old(chunk)
      ensures Follows(status, Step(ops, chunk, old(State())))
    {
      if ip >= |chunk.code| {
        status := Halted(Fault);
      } else {
        var instruction := ReadByte();
        match Decode(instruction)
        case None =>
          status := Running;
        case Some(op) =>
          status := ExecuteOp(ops, op);
      }
    }

    /** _run: dispatch until the machine halts. */
    method Run(ops: NumberOps) returns (outcome: Outcome)
      requires Valid()
      modifies this, stack
      ensures Valid() && chunk == old(chunk)
      ensures outcome == RunFrom(ops, chunk, old(State())).status.outcome
      ensures outcome != Fault ==> State() == RunFrom(ops, chunk, old(State())).state
    {
      while true
        invariant Valid() && chunk == old(chunk)
        invariant RunFrom(ops, chunk, State()) == RunFrom(ops, chunk, old(State()))
        decreases |chunk.code| - ip
      {
        ghost var before := State();
        var status := Dispatch(ops);
        RunStep(ops, chunk, before);
        if status.Halted? {
          return status.outcome;
        }
      }
    }

    /**
     * l_interpret: compile, and run the chunk only when compilation
     * succeeded. On the tokens of a well-formed expression whose evaluation
     * fits the stack, the run returns the expression's value, or reports a
     * runtime error exactly when evaluating it fails.
     */
    method Interpret(tokens: seq<Token>, ops: NumberOps, ghost source: Expr)
      returns (result: InterpretResult, printed: Option<Value>)
      requires Valid()
      modifies this, stack
      ensures Valid()
      ensures result == InterpretCompileError <==> Compiled(tokens, ops).hadError
      ensures result == InterpretCompileError ==> Stack() == old(Stack()) && ip == old(ip)
      ensures printed.Some? <==> result == InterpretOk
      ensures CompilesFrom(tokens, source) && |old(Stack())| + Depth(source) <= STACK_MAX ==>
        if Eval(ops, source).Some? then result == InterpretOk && printed == Eval(ops, source)
        else result == InterpretRuntimeError
    {
      var ok, compiled, _ := Compile(tokens, ops, source);
      if !ok {
        return InterpretCompileError, None;
      }
      ghost var s := Stack();
      chunk := compiled;
      ip := 0;
      if CompilesFrom(tokens, source) && |s| + Depth(source) <= STACK_MAX {
        CompiledRun(ops, chunk, source, s);
      }
      var outcome := Run(ops);
      match outcome
      case Returned(v) =>
        result, printed := InterpretOk, Some(v);
      case RuntimeError =>
        result, printed := InterpretRuntimeError, None;
      case Fault =>
        result, printed := InterpretFault, None;
    }
  }

  // ---------------------------------------------------------------------
  // Compiled code computes the value of the expression.
  // ---------------------------------------------------------------------

  /** The value of a literal token. */
  function LiteralValue(ops: NumberOps, t: Token): (r: Option<Value>)
    ensures r.Some? <==> t.kind in {TokenNumber, TokenFalse, TokenNil, TokenTrue}
  {
    if t.kind == TokenNumber then Some(Num(ops.parse(t.lexeme)))
    else if t.kind == TokenFalse then Some(Bool(false))
    else if t.kind == TokenNil then Some(Nil)
    else if t.kind == TokenTrue then Some(Bool(true))
    else None
  }

  /** A prefix operator applied to a value; None is a runtime error. */
  function ApplyUnary(ops: NumberOps, kind: TokenType, v: Value): Option<Value> {
    if kind == TokenBang then Some(Bool(IsFalsey(v)))
    else if kind == TokenMinus && v.Num? then Some(Num(ops.negate(v.number)))
    else None
  }

  /**
   * An infix operator applied to its operands; None is a runtime error.
   * Equality applies to every value; the others want two numbers, and
   * `>=` and `<=` mean "not less" and "not greater".
   */
  function ApplyBinary(ops: NumberOps, kind: TokenType, a: Value, b: Value): Option<Value> {
    if kind == TokenBangEqual then Some(Bool(!ValuesEqual(ops, a, b)))
    else if kind == TokenEqualEqual then Some(Bool(ValuesEqual(ops, a, b)))
    else if !a.Num? || !b.Num? then None
    else if kind == TokenGreater then Some(Bool(ops.greater(a.number, b.number)))
    else if kind == TokenGreaterEqual then Some(Bool(!ops.less(a.number, b.number)))
    else if kind == TokenLess then Some(Bool(ops.less(a.number, b.number)))
    else if kind == TokenLessEqual then Some(Bool(!ops.greater(a.number, b.number)))
    else if kind == TokenPlus then Some(Num(ops.add(a.number, b.number)))
    else if kind == TokenMinus then Some(Num(ops.subtract(a.number, b.number)))
    else if kind == TokenStar then Some(Num(ops.multiply(a.number, b.number)))
    else if kind == TokenSlash then Some(Num(ops.divide(a.number, b.number)))
    else None
  }

  /**
   * A tree whose every node has an opcode: number and keyword literals, the
   * two prefix operators and the ten infix ones. Precedence plays no part in
   * how code runs.
   */
  ghost predicate Executable(e: Expr) {
    match e
    case LiteralExpr(t) => t.kind in {TokenNumber, TokenFalse, TokenNil, TokenTrue}
    case GroupingExpr(_, g, _) => Executable(g)
    case UnaryExpr(op, u) => op.kind in {TokenBang, TokenMinus} && Executable(u)
    case BinaryExpr(op, l, r) => IsInfixOperator(op.kind) && Executable(l) && Executable(r)
  }

  lemma {:induction false} WellFormedIsExecutable(e: Expr)
    requires WellFormed(e)
    ensures Executable(e)
  {
    match e
    case LiteralExpr(_) =>
    case GroupingExpr(_, g, _) => WellFormedIsExecutable(g);
    case UnaryExpr(_, u) => WellFormedIsExecutable(u);
    case BinaryExpr(_, l, r) => WellFormedIsExecutable(l); WellFormedIsExecutable(r);
  }

  /** The value of an expression, operands left to right; None is a runtime error. */
  function Eval(ops: NumberOps, e: Expr): Option<Value> {
    match e
    case LiteralExpr(t) => LiteralValue(ops, t)
    case GroupingExpr(_, g, _) => Eval(ops, g)
    case UnaryExpr(op, u) =>
      (match Eval(ops, u)
       case None => None
       case Some(v) => ApplyUnary(ops, op.kind, v))
    case BinaryExpr(op, l, r) =>
      (match Eval(ops, l)
       case None => None
       case Some(a) =>
         match Eval(ops, r)
         case None => None
         case Some(b) => ApplyBinary(ops, op.kind, a, b))
  }

  /** The most stack slots evaluating the expression occupies at once. */
  function Depth(e: Expr): (d: nat)
    ensures d >= 1
  {
    match e
    case LiteralExpr(_) => 1
    case GroupingExpr(_, g, _) => Depth(g)
    case UnaryExpr(_, u) => Depth(u)
    case BinaryExpr(_, l, r) => if Depth(l) >= 1 + Depth(r) then Depth(l) else 1 + Depth(r)
  }

  /** The slice of a starting at i spells x. */
  ghost predicate Spells<T>(a: seq<T>, i: nat, x: seq<T>) {
    i + |x| <= |a| && a[i..i + |x|] == x
  }

  /** The code of e sits at ip and its constants at pool index k, all operands fitting a byte. */
  ghost predicate Placed(ops: NumberOps, c: Chunk, e: Expr, ip: nat, k: nat) {
    Spells(c.code, ip, Code(e, k)) && Spells(c.constants, k, Constants(e, ops))
    && k + NumCount(e) <= UINT8_MAX + 1
  }

  /** A slice that spells x + y spells x and then y. */
  lemma SliceParts<T>(a: seq<T>, i: nat, x: seq<T>, y: seq<T>)
    requires Spells(a, i, x + y)
    ensures Spells(a, i, x) && Spells(a, i + |x|, y)
  {
    assert a[i..i + |x|] == a[i..i + |x| + |y|][..|x|];
    assert a[i + |x|..i + |x| + |y|] == a[i..i + |x| + |y|][|x|..];
  }

  /** A running step is passed over by the run; a halting one ends it. */
  lemma RunStep(ops: NumberOps, c: Chunk, st: VmState)
    ensures Step(ops, c, st).status.Running? ==> RunFrom(ops, c, st) == RunFrom(ops, c, Step(ops, c, st).state)
    ensures Step(ops, c, st).status.Halted? ==> RunFrom(ops, c, st) == Step(ops, c, st)
  {
    assert RunFrom(ops, c, st) == RunOn(ops, c, st);
    assert RunOn(ops, c, st) == StepThenRun(ops, c, st);
  }

  /** The bytes _unary emits apply the operator to the top of the stack. */
  lemma UnaryTail(ops: NumberOps, c: Chunk, kind: TokenType, ip: nat, s: seq<Value>, v: Value)
    requires kind in {TokenBang, TokenMinus}
    requires Spells(c.code, ip, UnaryBytes(kind)) && |c.lines| == |c.code|
    requires |s| < STACK_MAX
    ensures ApplyUnary(ops, kind, v).Some? ==>
      RunFrom(ops, c, VmState(ip, s + [v])) == RunFrom(ops, c, VmState(ip + 1, s + [ApplyUnary(ops, kind, v).value]))
    ensures ApplyUnary(ops, kind, v).None? ==>
      RunFrom(ops, c, VmState(ip, s + [v])) == StepResult(Halted(RuntimeError), VmState(ip + 1, []))
  {
    assert c.code[ip] == UnaryBytes(kind)[0];
    if kind == TokenBang {
      NotTail(ops, c, ip, s, v);
    } else {
      NegateStep(ops, c, ip, s, v);
    }
    RunStep(ops, c, VmState(ip, s + [v]));
  }

  /** What the first opcode of an infix operator's code makes of the two operands; None is a runtime error. */
  function OpResult(ops: NumberOps, op: OpCode, a: Value, b: Value): Option<Value>
    requires IsBinaryOp(op) || op == OpEqual
  {
    if op == OpEqual then Some(Bool(ValuesEqual(ops, a, b)))
    else if a.Num? && b.Num? then Some(Arith(ops, op, a.number, b.number))
    else None
  }

  /** OP_NOT applied to a result. */
  function NotResult(r: Option<Value>): Option<Value> {
    match r
    case None => None
    case Some(v) => Some(Bool(IsFalsey(v)))
  }

  /** The token types with an infix rule in the rules table, all of them _binary. */
  predicate IsInfixOperator(kind: TokenType) {
    kind in {TokenMinus, TokenPlus, TokenSlash, TokenStar, TokenBangEqual, TokenEqualEqual,
             TokenGreater, TokenGreaterEqual, TokenLess, TokenLessEqual}
  }

  /**
   * The code of every infix operator is one opcode, possibly followed by
   * OP_NOT, and together they compute the operator's meaning.
   */
  lemma BinaryBytesMeaning(ops: NumberOps, kind: TokenType, a: Value, b: Value) returns (op: OpCode)
    requires IsInfixOperator(kind)
    ensures IsBinaryOp(op) || op == OpEqual
    ensures 1 <= |BinaryBytes(kind)| <= 2 && BinaryBytes(kind)[0] == Encode(op)
    ensures |BinaryBytes(kind)| == 2 ==> BinaryBytes(kind)[1] == Encode(OpNot)
    ensures ApplyBinary(ops, kind, a, b)
      == if |BinaryBytes(kind)| == 1 then OpResult(ops, op, a, b) else NotResult(OpResult(ops, op, a, b))
  {
    if kind in {TokenBangEqual, TokenGreaterEqual, TokenLessEqual} {
      op := NegatedMeaning(ops, kind, a, b);
    } else {
      op := DirectMeaning(ops, kind, a, b);
    }
  }

  /** `!=`, `>=` and `<=` are compiled as the opposite comparison followed by OP_NOT. */
  lemma NegatedMeaning(ops: NumberOps, kind: TokenType, a: Value, b: Value) returns (op: OpCode)
    requires kind in {TokenBangEqual, TokenGreaterEqual, TokenLessEqual}
    ensures IsBinaryOp(op) || op == OpEqual
    ensures BinaryBytes(kind) == [Encode(op), Encode(OpNot)]
    ensures ApplyBinary(ops, kind, a, b) == NotResult(OpResult(ops, op, a, b))
  {
    op := if kind == TokenBangEqual then OpEqual else if kind == TokenGreaterEqual then OpLess else OpGreater;
  }

  /** The other infix operators are compiled as the one opcode that computes them. */
  lemma DirectMeaning(ops: NumberOps, kind: TokenType, a: Value, b: Value) returns (op: OpCode)
    requires IsInfixOperator(kind) && kind !in {TokenBangEqual, TokenGreaterEqual, TokenLessEqual}
    ensures IsBinaryOp(op) || op == OpEqual
    ensures BinaryBytes(kind) == [Encode(op)]
    ensures ApplyBinary(ops, kind, a, b) == OpResult(ops, op, a, b)
  {
    op :=
      if kind == TokenEqualEqual then OpEqual
      else if kind == TokenGreater then OpGreater
      else if kind == TokenLess then OpLess
      else if kind == TokenPlus then OpAdd
      else if kind == TokenMinus then OpSubtract
      else if kind == TokenStar then OpMultiply
      else OpDivide;
  }

  /** The first opcode of an infix operator's code consumes the two operands. */
  lemma OpTail(ops: NumberOps, c: Chunk, op: OpCode, ip: nat, s: seq<Value>, a: Value, b: Value)
    requires IsBinaryOp(op) || op == OpEqual
    requires ip < |c.code| && c.code[ip] == Encode(op) && |c.lines| == |c.code|
    requires |s| + 2 <= STACK_MAX
    ensures OpResult(ops, op, a, b).Some? ==>
      Step(ops, c, VmState(ip, s + [a, b])) == StepResult(Running, VmState(ip + 1, s + [OpResult(ops, op, a, b).value]))
    ensures OpResult(ops, op, a, b).None? ==>
      Step(ops, c, VmState(ip, s + [a, b])) == StepResult(Halted(RuntimeError), VmState(ip + 1, []))
  {
    var s2 := s + [a, b];
    assert s2[..|s2| - 2] == s;
  }

  /** OP_NOT replaces the top value by its falsiness. */
  lemma NotTail(ops: NumberOps, c: Chunk, ip: nat, s: seq<Value>, v: Value)
    requires ip < |c.code| && c.code[ip] == Encode(OpNot) && |s| < STACK_MAX
    ensures Step(ops, c, VmState(ip, s + [v])) == StepResult(Running, VmState(ip + 1, s + [Bool(IsFalsey(v))]))
  {
    assert (s + [v])[..|s|] == s;
  }

  /** The bytes _binary emits apply the operator to the two top values. */
  lemma BinaryTail(ops: NumberOps, c: Chunk, kind: TokenType, ip: nat, s: seq<Value>, a: Value, b: Value)
    requires IsInfixOperator(kind)
    requires Spells(c.code, ip, BinaryBytes(kind))
    requires |c.lines| == |c.code| && |s| + 2 <= STACK_MAX
    ensures ApplyBinary(ops, kind, a, b).Some? ==>
      RunFrom(ops, c, VmState(ip, s + [a, b]))
        == RunFrom(ops, c, VmState(ip + |BinaryBytes(kind)|, s + [ApplyBinary(ops, kind, a, b).value]))
    ensures ApplyBinary(ops, kind, a, b).None? ==>
      RunFrom(ops, c, VmState(ip, s + [a, b])) == StepResult(Halted(RuntimeError), VmState(ip + 1, []))
  {
    var bytes := BinaryBytes(kind);
    var op := BinaryBytesMeaning(ops, kind, a, b);
    assert c.code[ip] == bytes[0];
    OpTail(ops, c, op, ip, s, a, b);
    RunStep(ops, c, VmState(ip, s + [a, b]));
    var r := OpResult(ops, op, a, b);
    if r.Some? && |bytes| == 2 {
      assert c.code[ip + 1] == bytes[1];
      NotTail(ops, c, ip + 1, s, r.value);
      RunStep(ops, c, VmState(ip + 1, s + [r.value]));
    }
  }

  /**
   * Running from ip on stack s does what the result r says: with a value v,
   * it goes on as from n bytes further with v pushed on s; with a runtime
   * error, the run stops with an empty stack.
   */
  ghost predicate RunsTo(ops: NumberOps, c: Chunk, ip: nat, s: seq<Value>, n: nat, r: Option<Value>) {
    match r
    case Some(v) => RunFrom(ops, c, VmState(ip, s)) == RunFrom(ops, c, VmState(ip + n, s + [v]))
    case None =>
      RunFrom(ops, c, VmState(ip, s)).status == Halted(RuntimeError) && RunFrom(ops, c, VmState(ip, s)).state.stack == []
  }

  /** Running the code of e placed at ip does what evaluating e says. */
  ghost predicate Computes(ops: NumberOps, c: Chunk, e: Expr, k: nat, ip: nat, s: seq<Value>) {
    RunsTo(ops, c, ip, s, |Code(e, k)|, Eval(ops, e))
  }

  /** A prefix operator applied to the result of its operand. */
  function UnaryResult(ops: NumberOps, kind: TokenType, r: Option<Value>): Option<Value> {
    match r
    case None => None
    case Some(v) => ApplyUnary(ops, kind, v)
  }

  /** An infix operator applied to the results of its operands, left first. */
  function BinaryResult(ops: NumberOps, kind: TokenType, ra: Option<Value>, rb: Option<Value>): Option<Value> {
    match ra
    case None => None
    case Some(a) =>
      match rb
      case None => None
      case Some(b) => ApplyBinary(ops, kind, a, b)
  }

  /** The code of an operand followed by the code of a prefix operator. */
  lemma UnaryRun(ops: NumberOps, c: Chunk, kind: TokenType, ip: nat, s: seq<Value>, n: nat, r: Option<Value>)
    requires kind in {TokenBang, TokenMinus} && Spells(c.code, ip + n, UnaryBytes(kind))
    requires |c.lines| == |c.code| && |s| < STACK_MAX
    requires RunsTo(ops, c, ip, s, n, r)
    ensures RunsTo(ops, c, ip, s, n + 1, UnaryResult(ops, kind, r))
  {
    if r.Some? {
      UnaryTail(ops, c, kind, ip + n, s, r.value);
    }
  }

  /** The code of two operands followed by the code of an infix operator. */
  lemma BinaryRun(ops: NumberOps, c: Chunk, kind: TokenType, ip: nat, s: seq<Value>,
                  n1: nat, n2: nat, ra: Option<Value>, rb: Option<Value>)
    requires IsInfixOperator(kind) && Spells(c.code, ip + n1 + n2, BinaryBytes(kind))
    requires |c.lines| == |c.code| && |s| + 2 <= STACK_MAX
    requires RunsTo(ops, c, ip, s, n1, ra)
    requires ra.Some? ==> RunsTo(ops, c, ip + n1, s + [ra.value], n2, rb)
    ensures RunsTo(ops, c, ip, s, n1 + n2 + |BinaryBytes(kind)|, BinaryResult(ops, kind, ra, rb))
  {
    if ra.Some? && rb.Some? {
      var a, b := ra.value, rb.value;
      assert s + [a] + [b] == s + [a, b];
      BinaryTail(ops, c, kind, ip + n1 + n2, s, a, b);
      assert BinaryResult(ops, kind, ra, rb) == ApplyBinary(ops, kind, a, b);
    }
  }

  /**
   * The code of a well-formed expression, run from any stack with room for
   * it, leaves the expression's value on top of that stack, or stops with a
   * runtime error and an empty stack exactly when evaluation fails.
   */
  lemma {:induction false} ExecCorrect(ops: NumberOps, c: Chunk, e: Expr, ip: nat, k: nat, s: seq<Value>)
    requires Executable(e) && Placed(ops, c, e, ip, k)
    requires |c.lines| == |c.code| && |s| + Depth(e) <= STACK_MAX
    ensures Computes(ops, c, e, k, ip, s)
    decreases e, 1
  {
    match e
    case LiteralExpr(t) => ExecLiteral(ops, c, t, ip, k, s);
    case GroupingExpr(_, g, _) => ExecCorrect(ops, c, g, ip, k, s);
    case UnaryExpr(op, u) =>
      ExecUnary(ops, c, op, u, ip, k, s);
    case BinaryExpr(op, l, r) =>
      ExecBinary(ops, c, op, l, r, ip, k, s);
  }

  /** A literal pushes its value: OP_CONSTANT with its pool entry, or the keyword's opcode. */
  lemma ExecLiteral(ops: NumberOps, c: Chunk, t: Token, ip: nat, k: nat, s: seq<Value>)
    requires t.kind in {TokenNumber, TokenFalse, TokenNil, TokenTrue} && Placed(ops, c, LiteralExpr(t), ip, k)
    requires |c.lines| == |c.code| && |s| < STACK_MAX
    ensures Computes(ops, c, LiteralExpr(t), k, ip, s)
  {
    var code := Code(LiteralExpr(t), k);
    if t.kind == TokenNumber {
      assert c.constants[k] == c.constants[k..k + 1][0];
      assert c.code[ip] == code[0] && c.code[ip + 1] == code[1];
      ConstantStep(ops, c, ip, s);
    } else {
      assert c.code[ip] == code[0];
    }
    RunStep(ops, c, VmState(ip, s));
  }

  lemma {:induction false} ExecUnary(ops: NumberOps, c: Chunk, op: Token, u: Expr, ip: nat, k: nat, s: seq<Value>)
    requires op.kind in {TokenBang, TokenMinus} && Executable(u) && Placed(ops, c, UnaryExpr(op, u), ip, k)
    requires |c.lines| == |c.code| && |s| + Depth(u) <= STACK_MAX
    ensures Computes(ops, c, UnaryExpr(op, u), k, ip, s)
    decreases UnaryExpr(op, u), 0
  {
    var cu := Code(u, k);
    SliceParts(c.code, ip, cu, UnaryBytes(op.kind));
    ExecCorrect(ops, c, u, ip, k, s);
    UnaryRun(ops, c, op.kind, ip, s, |cu|, Eval(ops, u));
    assert |Code(UnaryExpr(op, u), k)| == |cu| + 1;
    assert Eval(ops, UnaryExpr(op, u)) == UnaryResult(ops, op.kind, Eval(ops, u));
  }

  /** Where the code and the constants of each operand of a binary expression lie. */
  lemma PlacedOperands(ops: NumberOps, c: Chunk, op: Token, l: Expr, r: Expr, ip: nat, k: nat)
    requires Placed(ops, c, BinaryExpr(op, l, r), ip, k)
    ensures Placed(ops, c, l, ip, k)
    ensures Placed(ops, c, r, ip + |Code(l, k)|, k + NumCount(l))
    ensures Spells(c.code, ip + |Code(l, k)| + |Code(r, k + NumCount(l))|, BinaryBytes(op.kind))
  {
    OperandCode(c.code, op, l, r, ip, k);
    OperandConstants(ops, c.constants, op, l, r, k);
  }

  /** The code of a binary expression is the code of its left operand, then its right one, then the operator's. */
  lemma OperandCode(code: seq<Byte>, op: Token, l: Expr, r: Expr, ip: nat, k: nat)
    requires Spells(code, ip, Code(BinaryExpr(op, l, r), k))
    ensures Spells(code, ip, Code(l, k))
    ensures Spells(code, ip + |Code(l, k)|, Code(r, k + NumCount(l)))
    ensures Spells(code, ip + |Code(l, k)| + |Code(r, k + NumCount(l))|, BinaryBytes(op.kind))
  {
    var cl, cr := Code(l, k), Code(r, k + NumCount(l));
    SliceParts(code, ip, cl + cr, BinaryBytes(op.kind));
    SliceParts(code, ip, cl, cr);
  }

  /** The constants of a binary expression are those of its left operand followed by those of its right one. */
  lemma OperandConstants(ops: NumberOps, pool: seq<Value>, op: Token, l: Expr, r: Expr, k: nat)
    requires Spells(pool, k, Constants(BinaryExpr(op, l, r), ops))
    ensures Spells(pool, k, Constants(l, ops))
    ensures Spells(pool, k + NumCount(l), Constants(r, ops))
  {
    ConstantsCount(l, ops);
    SliceParts(pool, k, Constants(l, ops), Constants(r, ops));
  }

  lemma {:induction false} ExecBinary(ops: NumberOps, c: Chunk, op: Token, l: Expr, r: Expr, ip: nat, k: nat, s: seq<Value>)
    requires IsInfixOperator(op.kind) && Executable(l) && Executable(r)
    requires Placed(ops, c, BinaryExpr(op, l, r), ip, k)
    requires |c.lines| == |c.code| && |s| + Depth(BinaryExpr(op, l, r)) <= STACK_MAX
    ensures Computes(ops, c, BinaryExpr(op, l, r), k, ip, s)
    decreases BinaryExpr(op, l, r), 0
  {
    PlacedOperands(ops, c, op, l, r, ip, k);
    ExecCorrect(ops, c, l, ip, k, s);
    if Eval(ops, l).Some? {
      ExecCorrect(ops, c, r, ip + |Code(l, k)|, k + NumCount(l), s + [Eval(ops, l).value]);
    }
    BinaryCompose(ops, c, op, l, r, ip, k, s);
  }

  /** The runs of the two operands' code and of the operator's code make up the run of the whole. */
  lemma BinaryCompose(ops: NumberOps, c: Chunk, op: Token, l: Expr, r: Expr, ip: nat, k: nat, s: seq<Value>)
    requires IsInfixOperator(op.kind)
    requires Spells(c.code, ip + |Code(l, k)| + |Code(r, k + NumCount(l))|, BinaryBytes(op.kind))
    requires |c.lines| == |c.code| && |s| + 2 <= STACK_MAX
    requires Computes(ops, c, l, k, ip, s)
    requires Eval(ops, l).Some? ==> Computes(ops, c, r, k + NumCount(l), ip + |Code(l, k)|, s + [Eval(ops, l).value])
    ensures Computes(ops, c, BinaryExpr(op, l, r), k, ip, s)
  {
    var cl, cr := Code(l, k), Code(r, k + NumCount(l));
    BinaryRun(ops, c, op.kind, ip, s, |cl|, |cr|, Eval(ops, l), Eval(ops, r));
    assert |Code(BinaryExpr(op, l, r), k)| == |cl| + |cr| + |BinaryBytes(op.kind)|;
    assert Eval(ops, BinaryExpr(op, l, r)) == BinaryResult(ops, op.kind, Eval(ops, l), Eval(ops, r));
  }

  /**
   * The chunk l_compile produces for a well-formed expression, run from any
   * stack with room for it, returns the expression's value and leaves the
   * stack as it found it, or reports a runtime error exactly when
   * evaluating the expression fails.
   */
  lemma CompiledRun(ops: NumberOps, c: Chunk, e: Expr, s: seq<Value>)
    requires WellFormed(e) && NumCount(e) <= UINT8_MAX + 1
    requires c.code == Code(e, 0) + [Encode(OpReturn)] && c.constants == Constants(e, ops)
    requires |c.lines| == |c.code| && |s| + Depth(e) <= STACK_MAX
    ensures Eval(ops, e).Some? ==>
      RunFrom(ops, c, VmState(0, s)) == StepResult(Halted(Returned(Eval(ops, e).value)), VmState(|c.code|, s))
    ensures Eval(ops, e).None? ==> RunFrom(ops, c, VmState(0, s)).status == Halted(RuntimeError)
  {
    ConstantsCount(e, ops);
    WellFormedIsExecutable(e);
    assert c.code[0..|Code(e, 0)|] == Code(e, 0);
    assert c.constants[0..NumCount(e)] == Constants(e, ops);
    ExecCorrect(ops, c, e, 0, 0, s);
    if Eval(ops, e).Some? {
      var n := |Code(e, 0)|;
      var s2 := s + [Eval(ops, e).value];
      assert c.code[n] == Encode(OpReturn);
      assert s2[..|s2| - 1] == s;
      RunStep(ops, c, VmState(n, s2));
    }
  }
}
