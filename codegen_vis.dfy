/**
 * The visitor code generator, with the LLVM builder abstracted into a trace:
 * the basic blocks created (numbered in creation order, by name), the order
 * in which they are laid out in `main`, the block the builder inserts into,
 * and every instruction emitted, tagged with its block. Values flow between
 * visits through the stack `vals`, front at index 0. A visit that crashes
 * or stops the program returns `ok == false`.
 */
module CodeGenVis {
  import opened Wrappers
  import opened Ast
  import opened Ir
  import opened Scopes
  import opened TypeRules

  /** An emitted instruction and the block it was emitted into. */
  datatype Placed = Placed(block: nat, inst: Value)

  /** Every binding in the scope holds the alloca of its variable's slot. */
  ghost predicate Allocated(env: Env)
  {
    forall k, x :: 0 <= k < |env| && x in env[k].locals ==>
      env[k].locals[x].value.Some? && env[k].locals[x].value.value.Alloca?
  }

  /** In an allocated scope a visible name always finds a slot. */
  lemma AllocatedLookup(env: Env, x: string)
    requires Allocated(env) && Lookup(env, x).Some?
    ensures Lookup(env, x).value.value.Some? && Lookup(env, x).value.value.value.Alloca?
  {
    LookupFound(env, x);
  }

  /** Opening a table keeps a scope allocated. */
  lemma AllocatedOpen(env: Env, name: string, sec: string)
    requires Allocated(env)
    ensures Allocated(Open(env, name, sec))
  {
    var grown := Open(env, name, sec);
    forall k, y | 0 <= k < |grown| && y in grown[k].locals
      ensures grown[k].locals[y].value.Some? && grown[k].locals[y].value.value.Alloca?
    {
      if k > 0 {
        assert grown[k] == env[k - 1];
      }
    }
  }

  /** Closing a table keeps a scope allocated. */
  lemma AllocatedClose(env: Env)
    requires env != [] && Allocated(env)
    ensures Allocated(Close(env))
  {
    var closed := Close(env);
    forall k, y | 0 <= k < |closed| && y in closed[k].locals
      ensures closed[k].locals[y].value.Some? && closed[k].locals[y].value.value.Alloca?
    {
      assert closed[k] == env[k + 1];
    }
  }

  /** Binding a name to an alloca keeps a scope allocated. */
  lemma AllocatedDeclare(env: Env, x: string, slot: Value)
    requires env != [] && Allocated(env) && slot.Alloca?
    ensures Allocated(Declare(env, x, Symbol(Some(slot), SType(None, ""))))
  {
    var declared := Declare(env, x, Symbol(Some(slot), SType(None, "")));
    forall k, y | 0 <= k < |declared| && y in declared[k].locals
      ensures declared[k].locals[y].value.Some? && declared[k].locals[y].value.value.Alloca?
    {
      if k > 0 {
        assert declared[k] == env[k];
      }
    }
  }

  /**
   * The single value a binary operator should lower to: add, sub, mul or
   * sdiv for arithmetic; for a comparison an fcmp with an unordered
   * predicate when the first operand `l` (the top value popped) is a
   * double, an icmp with a signed predicate otherwise.
   */
  function LowerBinary(op: Op, l: Value, r: Value): (v: Value)
    ensures op.IsArithmetic() ==> v.BinOp? && OpOfOpcode(v.opcode) == Some(op) && v.lhs == l && v.rhs == r
    ensures op.IsComparison() ==> v.Cmp? && OpOfPredicate(v.pred) == op && v.lhs == l && v.rhs == r &&
                                  (v.kind == FCmp <==> ValueType(l) == Some(Double)) &&
                                  (v.pred.IsFloat() <==> ValueType(l) == Some(Double))
  {
    if op.IsArithmetic() then BinOp(ArithOpcode(op), l, r)
    else
      var isDouble := ValueType(l) == Some(Double);
      Cmp(CompareKind(isDouble), ComparePredicate(op, isDouble), l, r)
  }

  /**
   * As written: the values the binary-operator visit pushes, top first. A
   * comparison pushes its compare and then falls through into the
   * arithmetic push, whose opcode variable was never set.
   */
  function BinaryPushes(op: Op, l: Value, r: Value): (pushed: seq<Value>)
    ensures pushed != [] && pushed[|pushed| - 1] == LowerBinary(op, l, r)
    ensures |pushed| == 1 <==> op.IsArithmetic()
  {
    if op.IsArithmetic() then [LowerBinary(op, l, r)]
    else [BinOp(UndefinedOpcode, l, r), LowerBinary(op, l, r)]
  }

  /** `1 < 2` leaves two values where one is meant, the top one with no opcode. */
  lemma ComparisonCounterexample()
    ensures BinaryPushes(TClt, ConstInt(64, 1), ConstInt(64, 2)) ==
              [BinOp(UndefinedOpcode, ConstInt(64, 1), ConstInt(64, 2)), Cmp(ICmp, IcmpSlt, ConstInt(64, 1), ConstInt(64, 2))]
    ensures OpOfOpcode(UndefinedOpcode).None?
  {
  }

  /**
   * The lowered instruction computes the operator it was given, and it has
   * the type the checker gives the expression: the operand type for
   * arithmetic, i1 for a comparison.
   */
  lemma LowerBinaryTyped(op: Op, l: Value, r: Value, t: IrType)
    requires ValueType(l) == Some(t) && ValueType(r) == Some(t)
    requires OperatorType(op, Some(t), Some(t)).Some?
    ensures var v := LowerBinary(op, l, r);
            ValueType(v) == OperatorType(op, Some(t), Some(t)) &&
            (op.IsArithmetic() ==> v.BinOp? && OpOfOpcode(v.opcode) == Some(op)) &&
            (op.IsComparison() ==> v.Cmp? && OpOfPredicate(v.pred) == op &&
                                   (v.kind == FCmp <==> t == Double) && (v.pred.IsFloat() <==> t == Double))
  {
  }

  /** The constant a boolean literal should lower to; any other spelling has none. */
  function BoolConstant(text: string): (v: Option<Value>)
    ensures v.Some? <==> text == "true" || text == "false"
    ensures v.Some? ==> v.value == ConstBool(text == "true") && ValueType(v.value) == Some(Int1)
  {
    if text == "true" then Some(ConstBool(true))
    else if text == "false" then Some(ConstBool(false))
    else None
  }

  /**
   * As written: the values the boolean-literal visit pushes and whether it
   * gets past its check that the literal is "false".
   */
  function BoolVisit(text: string): (outcome: (seq<Value>, bool))
    ensures outcome.1 <==> text == "false"
    ensures outcome.0 == if text == "true" || text == "false" then [BoolConstant(text).value] else []
  {
    if text == "true" then ([ConstBool(true)], false)
    else if text == "false" then ([ConstBool(false)], true)
    else ([], false)
  }

  /** The literal `true` is pushed correctly and then stops the program. */
  lemma BoolTrueCounterexample()
    ensures BoolConstant("true") == Some(ConstBool(true))
    ensures BoolVisit("true") == ([ConstBool(true)], false)
  {
  }

  /** Each literal lowers to a constant of the type the checker gives it. */
  lemma LiteralTypesAgree(v: int, text: string, env: Env)
    requires env != [] && (text == "true" || text == "false")
    ensures Some(ValueType(ConstInt(64, v)).value) == Check(NInteger(v), env).st.value.ty
    ensures Some(ValueType(ConstDouble).value) == Check(NDouble, env).st.value.ty
    ensures Some(ValueType(BoolConstant(text).value).value) == Check(NBool(text), env).st.value.ty
  {
  }

  class CodeGenVisitor {
    const scope: Scope
    /** Toggled by every block visit: whether the next one leaves a block. */
    var inBlock: bool
    /** The value stack, front first. */
    var vals: seq<Value>
    /** Every basic block created so far, by name, in creation order. */
    var blockNames: seq<string>
    /** The blocks laid out in `main`, in order. */
    var fnBlocks: seq<nat>
    /** The block the builder inserts into. */
    var insertBlock: nat
    /** Every instruction emitted so far, in order. */
    var insts: seq<Placed>

    ghost predicate Valid()
      reads this, scope, scope.tables
    {
      scope.Valid() && Allocated(scope.Contents()) &&
      insertBlock < |blockNames| && forall k :: 0 <= k < |fnBlocks| ==> fnBlocks[k] < |blockNames|
    }

    /** Sets up one global table and a `main` whose only block, "entry", is the insertion point. */
    constructor ()
      ensures Valid() && fresh(scope)
      ensures scope.Contents() == GlobalScope
      ensures !inBlock && vals == [] && insts == []
      ensures blockNames == ["entry"] && fnBlocks == [0] && insertBlock == 0
      ensures |scope.tables| == 1 && fresh(scope.tables[0])
    {
      var s := new Scope();
      s.InitializeScope("global", "");
      assert s.Contents() == GlobalScope;
      scope := s;
      inBlock := false;
      vals := [];
      blockNames := ["entry"];
      fnBlocks := [0];
      insertBlock := 0;
      insts := [];
    }

    /** Emits `ret i32 0`; then only the global table may be left, and it is closed. */
    method GenerateCode() returns (ok: bool)
      requires Valid()
      modifies this, scope
      ensures insts == old(insts) + [Placed(old(insertBlock), Ret(ConstInt(32, 0)))]
      ensures ok <==> old(scope.Depth()) == 1
      ensures ok ==> scope.tables == [] && scope.Contents() == []
      ensures !ok ==> scope.tables == old(scope.tables)
      ensures vals == old(vals) && insertBlock == old(insertBlock) && blockNames == old(blockNames)
      ensures fnBlocks == old(fnBlocks) && inBlock == old(inBlock)
    {
      Emit(Ret(ConstInt(32, 0)));
      if scope.Depth() != 1 {
        return false;
      }
      scope.FinalizeScope();
      return true;
    }

    /** Appends one instruction to the insertion block. */
    method Emit(v: Value)
      requires Valid()
      modifies this
      ensures Valid()
      ensures insts == old(insts) + [Placed(insertBlock, v)]
      ensures vals == old(vals) && inBlock == old(inBlock) && insertBlock == old(insertBlock)
      ensures blockNames == old(blockNames) && fnBlocks == old(fnBlocks)
    {
      insts := insts + [Placed(insertBlock, v)];
    }

    method VisitInteger(v: int)
      requires Valid()
      modifies this
      ensures Valid()
      ensures vals == [ConstInt(64, v)] + old(vals)
      ensures insts == old(insts) && inBlock == old(inBlock) && insertBlock == old(insertBlock)
      ensures blockNames == old(blockNames) && fnBlocks == old(fnBlocks)
    {
      vals := [ConstInt(64, v)] + vals;
    }

    method VisitDouble()
      requires Valid()
      modifies this
      ensures Valid()
      ensures vals == [ConstDouble] + old(vals)
      ensures insts == old(insts) && inBlock == old(inBlock) && insertBlock == old(insertBlock)
      ensures blockNames == old(blockNames) && fnBlocks == old(fnBlocks)
    {
      vals := [ConstDouble] + vals;
    }

    /**
     * As written: "true" pushes true and then fails the check that the
     * literal is "false"; "false" pushes false; any other spelling fails the
     * check before pushing anything.
     */
    method VisitBool(text: string) returns (ok: bool)
      requires Valid()
      modifies this
      ensures Valid()
      ensures ok == BoolVisit(text).1 && vals == BoolVisit(text).0 + old(vals)
      ensures insts == old(insts) && inBlock == old(inBlock) && insertBlock == old(insertBlock)
      ensures blockNames == old(blockNames) && fnBlocks == old(fnBlocks)
    {
      if text == "true" {
        vals := [ConstBool(true)] + vals;
      }
      if text != "false" {
        return false;
      }
      vals := [ConstBool(false)] + vals;
      return true;
    }

    /** Type and security annotations generate nothing. */
    method VisitType(name: string)
      ensures vals == old(vals) && insts == old(insts)
    {
    }

    method VisitSecurity(name: string)
      ensures vals == old(vals) && insts == old(insts)
    {
    }

    /** An expression statement generates nothing of its own. */
    method VisitExpressionStatement()
      ensures vals == old(vals) && insts == old(insts)
    {
    }

    /** Loads the variable's slot and pushes the load; an undeclared name crashes the visit. */
    method VisitIdentifier(x: string) returns (ok: bool)
      requires Valid()
      modifies this
      ensures Valid()
      ensures var sym := Lookup(scope.Contents(), x);
              (ok <==> sym.Some?) &&
              (ok ==> sym.value.value.Some? &&
                      vals == [Load(sym.value.value.value)] + old(vals) &&
                      insts == old(insts) + [Placed(insertBlock, Load(sym.value.value.value))]) &&
              (!ok ==> vals == old(vals) && insts == old(insts))
      ensures inBlock == old(inBlock) && insertBlock == old(insertBlock)
      ensures blockNames == old(blockNames) && fnBlocks == old(fnBlocks)
    {
      var sym := scope.LookUp(x);
      if sym.None? {
        return false;
      }
      AllocatedLookup(scope.Contents(), x);
      var load := Load(sym.value.value.value);
      Emit(load);
      vals := [load] + vals;
      return true;
    }

    /**
     * Pops the right-hand side and pushes a store of it into the target's
     * slot, so the stack keeps its depth; an undeclared target crashes the
     * visit after the pop.
     */
    method VisitAssignment(x: string) returns (ok: bool)
      requires Valid() && vals != []
      modifies this
      ensures Valid()
      ensures var sym := Lookup(scope.Contents(), x);
              (ok <==> sym.Some?) &&
              (ok ==> sym.value.value.Some? &&
                      var st := Store(old(vals[0]), sym.value.value.value);
                      vals == [st] + old(vals[1..]) && insts == old(insts) + [Placed(insertBlock, st)]) &&
              (!ok ==> vals == old(vals[1..]) && insts == old(insts))
      ensures inBlock == old(inBlock) && insertBlock == old(insertBlock)
      ensures blockNames == old(blockNames) && fnBlocks == old(fnBlocks)
    {
      var sym := scope.LookUp(x);
      var rhs := vals[0];
      vals := vals[1..];
      if sym.None? {
        return false;
      }
      AllocatedLookup(scope.Contents(), x);
      var st := Store(rhs, sym.value.value.value);
      Emit(st);
      vals := [st] + vals;
      return true;
    }

    /**
     * Emits an alloca of the declared type, named after the variable, in
     * the insertion block and binds the variable to it in the innermost
     * table, with an empty SType; the stack is untouched.
     */
    method VisitVariableDeclaration(ty: string, id: string)
      requires Valid() && scope.tables != []
      modifies this, scope.tables[0]
      ensures Valid() && scope.tables == old(scope.tables)
      ensures var slot := Alloca(|old(insts)|, TypeOf(ty), id);
              insts == old(insts) + [Placed(insertBlock, slot)] &&
              scope.Contents() == Declare(old(scope.Contents()), id, Symbol(Some(slot), SType(None, "")))
      ensures vals == old(vals) && inBlock == old(inBlock) && insertBlock == old(insertBlock)
      ensures blockNames == old(blockNames) && fnBlocks == old(fnBlocks)
    {
      var slot := Alloca(|insts|, TypeOf(ty), id);
      Emit(slot);
      AllocatedDeclare(scope.Contents(), id, slot);
      scope.Insert(id, Symbol(Some(slot), SType(None, "")));
    }

    /**
     * Pops the top value (the operand the source calls `lhsv`) and then the
     * next. Arithmetic pushes one add, sub, mul or sdiv. As written, a
     * comparison pushes its compare and then falls through into the
     * arithmetic case, pushing a second binary instruction whose opcode was
     * never set.
     */
    method VisitBinaryOperator(op: Op)
      requires Valid() && |vals| >= 2
      modifies this
      ensures Valid()
      ensures var pushed := BinaryPushes(op, old(vals[0]), old(vals[1]));
              vals == pushed + old(vals[2..]) &&
              insts == old(insts) + if |pushed| == 1 then [Placed(insertBlock, pushed[0])]
                                    else [Placed(insertBlock, pushed[1]), Placed(insertBlock, pushed[0])]
      ensures inBlock == old(inBlock) && insertBlock == old(insertBlock)
      ensures blockNames == old(blockNames) && fnBlocks == old(fnBlocks)
    {
      var lhs := vals[0];
      vals := vals[1..];
      var rhs := vals[0];
      vals := vals[1..];
      var opcode := UndefinedOpcode;
      if op.IsArithmetic() {
        opcode := ArithOpcode(op);
      } else {
        var isDouble := ValueType(lhs) == Some(Double);
        var cmp := Cmp(CompareKind(isDouble), ComparePredicate(op, isDouble), lhs, rhs);
        Emit(cmp);
        vals := [cmp] + vals;
      }
      var bin := BinOp(opcode, lhs, rhs);
      Emit(bin);
      vals := [bin] + vals;
    }

    /**
     * Pops the guard, then the then-value and the else-value, and lays out
     * the branch: a conditional branch from the insertion block to a new
     * "if.then" block and a new "if.else" block, each of which branches to a
     * new "if.end" block, where insertion continues.
     */
    method VisitIfExpression()
      requires Valid() && |vals| >= 3
      modifies this
      ensures Valid()
      ensures var thenB, elseB, endB := |old(blockNames)|, |old(blockNames)| + 1, |old(blockNames)| + 2;
              vals == old(vals[3..]) &&
              blockNames == old(blockNames) + ["if.then", "if.else", "if.end"] &&
              fnBlocks == old(fnBlocks) + [thenB, elseB, endB] &&
              insts == old(insts) + [Placed(old(insertBlock), CondBr(old(vals[0]), thenB, elseB)),
                                     Placed(thenB, Br(endB)), Placed(elseB, Br(endB))] &&
              insertBlock == endB
      ensures inBlock == old(inBlock)
    {
      var cond := vals[0];
      vals := vals[1..];
      var thenB := |blockNames|;
      blockNames := blockNames + ["if.then"];
      fnBlocks := fnBlocks + [thenB];
      var elseB := |blockNames|;
      blockNames := blockNames + ["if.else"];
      var endB := |blockNames|;
      blockNames := blockNames + ["if.end"];

      insts := insts + [Placed(insertBlock, CondBr(cond, thenB, elseB))];

      insertBlock := thenB;
      vals := vals[1..];
      insts := insts + [Placed(insertBlock, Br(endB))];

      fnBlocks := fnBlocks + [elseB];
      insertBlock := elseB;
      vals := vals[1..];
      insts := insts + [Placed(insertBlock, Br(endB))];

      fnBlocks := fnBlocks + [endB];
      insertBlock := endB;
    }

    /** Block visits alternate: the first opens a table, the next closes one, and so on. */
    method VisitBlock()
      requires Valid()
      requires inBlock ==> scope.tables != []
      modifies this, scope
      ensures Valid()
      ensures inBlock == !old(inBlock)
      ensures !old(inBlock) ==> scope.Contents() == Open(old(scope.Contents()), "", "") && scope.tables[1..] == old(scope.tables) &&
                                fresh(scope.tables[0])
      ensures old(inBlock) ==> scope.Contents() == Close(old(scope.Contents())) && scope.tables == old(scope.tables[1..])
      ensures vals == old(vals) && insts == old(insts) && insertBlock == old(insertBlock)
      ensures blockNames == old(blockNames) && fnBlocks == old(fnBlocks)
    {
      if inBlock {
        AllocatedClose(scope.Contents());
        scope.FinalizeScope();
        inBlock := false;
      } else {
        AllocatedOpen(scope.Contents(), "", "");
        scope.InitializeScope("", "");
        inBlock := true;
      }
    }
  }
}
