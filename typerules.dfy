/**
 * The information-flow type rules of the recursive checker, as pure
 * functions over the contents of the scope stack. `Check` threads the scope
 * contents through the walk exactly as the checker threads its one shared
 * `Scope` object, and collects the diagnostics it prints.
 */
module TypeRules {
  import opened Wrappers
  import opened Ast
  import opened Ir
  import opened Scopes

  /** The diagnostics the checker prints, one per failed rule. */
  datatype Diag =
    | UndeclaredVariable(name: string)
    | VariableRedeclaration(name: string)
    | ImplicitFlow
    | AssignmentTypeMismatch
    | ExplicitFlow
    | OperatorTypeMismatch
    | GuardNotBool
    | ThenNotVoid
    | ElseNotVoid
    | StatementNotVoid

  /**
   * The outcome of checking one node: its SType (None for NULL), the scope
   * contents afterwards and the diagnostics printed on the way.
   */
  datatype Checked = Checked(st: Option<SType>, env: Env, diags: seq<Diag>)

  /** The SType of statements, and of literals of type `t`: no security label. */
  function Unlabelled(t: IrType): SType
  {
    SType(Some(t), "")
  }

  const VoidType: SType := Unlabelled(Void)

  /** The scope the whole-program check starts from: one global table. */
  const GlobalScope: Env := [Frame("global", "", map[])]

  /** A security annotation's label; an empty one means "low". */
  function SecurityLabel(name: string): (sec: string)
    ensures sec != ""
    ensures name == "" ==> sec == LowLabel
    ensures name != "" ==> sec == name
  {
    if name == "" then LowLabel else name
  }

  /** The label of a binary operation: "high" when either operand is, otherwise none. */
  function JoinLabel(a: string, b: string): (sec: string)
    ensures sec == HighLabel <==> a == HighLabel || b == HighLabel
    ensures sec != HighLabel ==> sec == ""
  {
    if a == HighLabel || b == HighLabel then HighLabel else ""
  }

  /**
   * The result type of a binary operator, if its operands are acceptable.
   * A failed arithmetic case falls through into the comparison case, whose
   * tests then fail too.
   */
  function OperatorType(op: Op, a: Option<IrType>, b: Option<IrType>): (t: Option<IrType>)
    ensures t.Some? <==> a == b && (a == Some(Int64) || a == Some(Double))
    ensures t.Some? && op.IsArithmetic() ==> t == a
    ensures t.Some? && op.IsComparison() ==> t == Some(Int1)
  {
    if op.IsArithmetic() && a == b && a == Some(Int64) then Some(Int64)
    else if op.IsArithmetic() && a == b && a == Some(Double) then Some(Double)
    else if a == b && a == Some(Int64) then Some(Int1)
    else if a == b && a == Some(Double) then Some(Int1)
    else None
  }

  /**
   * The assignment rule, in the checker's order: a low target under a high
   * context is an implicit flow whatever the right-hand side; then the types
   * must agree; then a high right-hand side into a low target is an explicit
   * flow.
   */
  function AssignmentRule(dtype: SType, atype: SType, ctx: string): (d: Option<Diag>)
    ensures d.None? <==> !(dtype.sec == LowLabel && ctx == HighLabel) && dtype.ty == atype.ty &&
                         !(dtype.sec == LowLabel && atype.sec == HighLabel)
    ensures d == Some(ImplicitFlow) <==> dtype.sec == LowLabel && ctx == HighLabel
    ensures !(dtype.sec == LowLabel && ctx == HighLabel) && dtype.ty != atype.ty ==> d == Some(AssignmentTypeMismatch)
    ensures d == Some(ExplicitFlow) <==> !(dtype.sec == LowLabel && ctx == HighLabel) && dtype.ty == atype.ty &&
                                         dtype.sec == LowLabel && atype.sec == HighLabel
  {
    if dtype.sec == LowLabel && ctx == HighLabel then Some(ImplicitFlow)
    else if dtype.ty != atype.ty then Some(AssignmentTypeMismatch)
    else if dtype.sec == LowLabel && atype.sec == HighLabel then Some(ExplicitFlow)
    else None
  }

  /** The context of a branch: "high" inside a high context, otherwise the guard's label. */
  function BranchContext(env: Env, guardLabel: string): (sec: string)
    requires env != []
    ensures Context(env) == HighLabel ==> sec == HighLabel
    ensures Context(env) != HighLabel ==> sec == guardLabel
    ensures sec == HighLabel <==> Context(env) == HighLabel || guardLabel == HighLabel
  {
    if Context(env) == HighLabel then HighLabel else guardLabel
  }

  /**
   * Only the bindings of the innermost table may differ: the depth, the
   * outer tables, and the innermost table's name and label are kept.
   */
  ghost predicate InnermostOnly(env: Env, env': Env)
  {
    env != [] && |env'| == |env| && env'[1..] == env[1..] &&
    env'[0].name == env[0].name && env'[0].sec == env[0].sec
  }

  /** Type-checks one node under the scope contents `env`. */
  function Check(n: Node, env: Env): (c: Checked)
    requires env != []
    ensures InnermostOnly(env, c.env)
    decreases n, 1, 0
  {
    match n
    case NSkip => Checked(Some(VoidType), env, [])
    case NInteger(_) => Checked(Some(Unlabelled(Int64)), env, [])
    case NDouble => Checked(Some(Unlabelled(Double)), env, [])
    case NBool(_) => Checked(Some(Unlabelled(Int1)), env, [])
    case NSecurity(name) => Checked(Some(SType(None, SecurityLabel(name))), env, [])
    case NType(name) => Checked(Some(Unlabelled(TypeOf(name))), env, [])
    case NIdentifier(x) =>
      (match Lookup(env, x)
       case None => Checked(None, env, [UndeclaredVariable(x)])
       case Some(sym) => Checked(Some(sym.stype), env, []))
    case NAssignment(x, e) => CheckAssignment(x, e, env)
    case NVariableDeclaration(ty, sec, id, init) =>
      if Lookup(env, id).Some? then Checked(None, env, [VariableRedeclaration(id)])
      else
        var env1 := Declare(env, id, Symbol(None, SType(Some(TypeOf(ty)), SecurityLabel(sec))));
        if init.None? then Checked(Some(VoidType), env1, [])
        else
          var c := CheckAssignment(id, init.value, env1);
          if c.st.None? then c else Checked(Some(VoidType), c.env, c.diags)
    case NBinaryOperator(op, l, r) =>
      var cl := Check(l, env);
      var cr := Check(r, cl.env);
      if cl.st.None? || cr.st.None? then Checked(None, cr.env, cl.diags + cr.diags)
      else
        (match OperatorType(op, cl.st.value.ty, cr.st.value.ty)
         case None => Checked(None, cr.env, cl.diags + cr.diags + [OperatorTypeMismatch])
         case Some(t) =>
           Checked(Some(SType(Some(t), JoinLabel(cl.st.value.sec, cr.st.value.sec))), cr.env, cl.diags + cr.diags))
    case NIfExpression(g, t, e) =>
      var cg := Check(g, env);
      if cg.st.None? then cg
      else if cg.st.value.ty != Some(Int1) then Checked(None, cg.env, cg.diags + [GuardNotBool])
      else
        var ct := Check(t, Open(cg.env, "branch", BranchContext(cg.env, cg.st.value.sec)));
        var env1 := Close(ct.env);
        if ct.st.None? then Checked(None, env1, cg.diags + ct.diags)
        else if ct.st.value.ty != Some(Void) then Checked(None, env1, cg.diags + ct.diags + [ThenNotVoid])
        else
          var ce := Check(e, Open(env1, "branch", BranchContext(env1, cg.st.value.sec)));
          var env2 := Close(ce.env);
          if ce.st.None? then Checked(None, env2, cg.diags + ct.diags + ce.diags)
          else if ce.st.value.ty != Some(Void) then Checked(None, env2, cg.diags + ct.diags + ce.diags + [ElseNotVoid])
          else Checked(Some(VoidType), env2, cg.diags + ct.diags + ce.diags)
    case NExpressionStatement(e) => Check(e, env)
    case NBlock(ss) => CheckBlock(ss, 0, env)
  }

  /** Type-checks the assignment of `e` to the variable `x`. */
  function CheckAssignment(x: string, e: Node, env: Env): (c: Checked)
    requires env != []
    ensures InnermostOnly(env, c.env)
    decreases e, 2, 0
  {
    match Lookup(env, x)
    case None => Checked(None, env, [UndeclaredVariable(x)])
    case Some(sym) =>
      var ce := Check(e, env);
      if ce.st.None? then Checked(None, ce.env, ce.diags)
      else
        match AssignmentRule(sym.stype, ce.st.value, Context(ce.env))
        case Some(d) => Checked(None, ce.env, ce.diags + [d])
        case None => Checked(Some(VoidType), ce.env, ce.diags)
  }

  /** Type-checks the statements `ss[i..]` of a block in order, stopping at the first that is not void. */
  function CheckBlock(ss: seq<Node>, i: nat, env: Env): (c: Checked)
    requires i <= |ss| && env != []
    ensures InnermostOnly(env, c.env)
    decreases NBlock(ss), 0, |ss| - i
  {
    if i == |ss| then Checked(Some(VoidType), env, [])
    else
      var c := Check(ss[i], env);
      if c.st.None? then c
      else if c.st.value.ty != Some(Void) then Checked(None, c.env, c.diags + [StatementNotVoid])
      else
        var rest := CheckBlock(ss, i + 1, c.env);
        Checked(rest.st, rest.env, c.diags + rest.diags)
  }

  /** The whole-program check: the root block under one global table; it passes iff the root is void. */
  function CheckProgram(root: Node): (c: Checked)
    requires root.NBlock?
    ensures |c.env| == 1
  {
    Check(root, GlobalScope)
  }

  predicate Passes(c: Checked)
  {
    c.st.Some? && c.st.value.ty == Some(Void)
  }

  /** The leaf rules: literals, annotations and identifiers, none of which changes the scope. */
  lemma LeafRules(env: Env, v: int, text: string, name: string, x: string)
    requires env != []
    ensures Check(NInteger(v), env) == Checked(Some(Unlabelled(Int64)), env, [])
    ensures Check(NDouble, env) == Checked(Some(Unlabelled(Double)), env, [])
    ensures Check(NBool(text), env) == Checked(Some(Unlabelled(Int1)), env, [])
    ensures Check(NType(name), env) == Checked(Some(Unlabelled(TypeOf(name))), env, [])
    ensures Check(NSecurity(name), env).st == Some(SType(None, if name == "" then LowLabel else name))
    ensures Check(NIdentifier(x), env).st.Some? <==> Lookup(env, x).Some?
    ensures Lookup(env, x).Some? ==> Check(NIdentifier(x), env).st == Some(Lookup(env, x).value.stype)
  {
  }

  /** Every failure prints at least one diagnostic, and a success prints none. */
  lemma {:induction false} CheckDiagnosed(n: Node, env: Env)
    requires env != []
    ensures Check(n, env).st.None? <==> Check(n, env).diags != []
    decreases n, 1, 0
  {
    match n
    case NAssignment(x, e) => AssignmentDiagnosed(x, e, env);
    case NVariableDeclaration(ty, sec, id, init) =>
      if Lookup(env, id).None? && init.Some? {
        AssignmentDiagnosed(id, init.value, Declare(env, id, Symbol(None, SType(Some(TypeOf(ty)), SecurityLabel(sec)))));
      }
    case NBinaryOperator(op, l, r) =>
      CheckDiagnosed(l, env);
      CheckDiagnosed(r, Check(l, env).env);
    case NIfExpression(g, t, e) =>
      CheckDiagnosed(g, env);
      var cg := Check(g, env);
      if cg.st.Some? && cg.st.value.ty == Some(Int1) {
        var env0 := Open(cg.env, "branch", BranchContext(cg.env, cg.st.value.sec));
        CheckDiagnosed(t, env0);
        var env1 := Close(Check(t, env0).env);
        CheckDiagnosed(e, Open(env1, "branch", BranchContext(env1, cg.st.value.sec)));
      }
    case NExpressionStatement(e) => CheckDiagnosed(e, env);
    case NBlock(ss) => BlockDiagnosed(ss, 0, env);
    case _ =>
  }

  lemma {:induction false} AssignmentDiagnosed(x: string, e: Node, env: Env)
    requires env != []
    ensures CheckAssignment(x, e, env).st.None? <==> CheckAssignment(x, e, env).diags != []
    decreases e, 2, 0
  {
    if Lookup(env, x).Some? {
      CheckDiagnosed(e, env);
    }
  }

  lemma {:induction false} BlockDiagnosed(ss: seq<Node>, i: nat, env: Env)
    requires i <= |ss| && env != []
    ensures CheckBlock(ss, i, env).st.None? <==> CheckBlock(ss, i, env).diags != []
    decreases NBlock(ss), 0, |ss| - i
  {
    if i < |ss| {
      CheckDiagnosed(ss[i], env);
      var c := Check(ss[i], env);
      if c.st.Some? && c.st.value.ty == Some(Void) {
        BlockDiagnosed(ss, i + 1, c.env);
      }
    }
  }

  /** A name visible before a node is checked keeps its binding: declarations never shadow or overwrite it. */
  lemma {:induction false} CheckKeepsVisible(n: Node, env: Env, x: string)
    requires env != [] && Lookup(env, x).Some?
    ensures Lookup(Check(n, env).env, x) == Lookup(env, x)
    decreases n, 1, 0
  {
    match n
    case NAssignment(y, e) => AssignmentKeepsVisible(y, e, env, x);
    case NVariableDeclaration(ty, sec, id, init) =>
      if Lookup(env, id).None? {
        var s := Symbol(None, SType(Some(TypeOf(ty)), SecurityLabel(sec)));
        DeclareLookup(env, id, s, x);
        if init.Some? {
          AssignmentKeepsVisible(id, init.value, Declare(env, id, s), x);
        }
      }
    case NBinaryOperator(op, l, r) =>
      CheckKeepsVisible(l, env, x);
      CheckKeepsVisible(r, Check(l, env).env, x);
    case NIfExpression(g, t, e) =>
      CheckKeepsVisible(g, env, x);
    case NExpressionStatement(e) => CheckKeepsVisible(e, env, x);
    case NBlock(ss) => BlockKeepsVisible(ss, 0, env, x);
    case _ =>
  }

  lemma {:induction false} AssignmentKeepsVisible(y: string, e: Node, env: Env, x: string)
    requires env != [] && Lookup(env, x).Some?
    ensures Lookup(CheckAssignment(y, e, env).env, x) == Lookup(env, x)
    decreases e, 2, 0
  {
    if Lookup(env, y).Some? {
      CheckKeepsVisible(e, env, x);
    }
  }

  lemma {:induction false} BlockKeepsVisible(ss: seq<Node>, i: nat, env: Env, x: string)
    requires i <= |ss| && env != [] && Lookup(env, x).Some?
    ensures Lookup(CheckBlock(ss, i, env).env, x) == Lookup(env, x)
    decreases NBlock(ss), 0, |ss| - i
  {
    if i < |ss| {
      CheckKeepsVisible(ss[i], env, x);
      var c := Check(ss[i], env);
      if c.st.Some? && c.st.value.ty == Some(Void) {
        BlockKeepsVisible(ss, i + 1, c.env, x);
      }
    }
  }

  /** The names a node assigns to, counting a declaration with an initializer. */
  function Assigned(n: Node): set<string>
    decreases n, 1, 0
  {
    match n
    case NAssignment(x, e) => {x} + Assigned(e)
    case NVariableDeclaration(_, _, id, init) => if init.Some? then {id} + Assigned(init.value) else {}
    case NBinaryOperator(_, l, r) => Assigned(l) + Assigned(r)
    case NIfExpression(g, t, e) => Assigned(g) + Assigned(t) + Assigned(e)
    case NExpressionStatement(e) => Assigned(e)
    case NBlock(ss) => AssignedInBlock(ss, 0)
    case _ => {}
  }

  function AssignedInBlock(ss: seq<Node>, i: nat): set<string>
    requires i <= |ss|
    decreases NBlock(ss), 0, |ss| - i
  {
    if i == |ss| then {} else Assigned(ss[i]) + AssignedInBlock(ss, i + 1)
  }

  /**
   * Implicit-flow soundness: a node accepted under a high context assigns
   * to no variable that was visible on entry and is labelled low.
   */
  lemma {:induction false} HighContextConfinement(n: Node, env: Env, x: string)
    requires env != [] && Context(env) == HighLabel
    requires Check(n, env).st.Some?
    requires x in Assigned(n) && Lookup(env, x).Some?
    ensures Lookup(env, x).value.stype.sec != LowLabel
    decreases n, 1, 0
  {
    match n
    case NAssignment(y, e) => AssignmentConfinement(y, e, env, x);
    case NVariableDeclaration(ty, sec, id, init) =>
      var s := Symbol(None, SType(Some(TypeOf(ty)), SecurityLabel(sec)));
      DeclareLookup(env, id, s, x);
      AssignmentConfinement(id, init.value, Declare(env, id, s), x);
    case NBinaryOperator(op, l, r) =>
      if x in Assigned(l) {
        HighContextConfinement(l, env, x);
      } else {
        CheckKeepsVisible(l, env, x);
        HighContextConfinement(r, Check(l, env).env, x);
      }
    case NIfExpression(g, t, e) =>
      if x in Assigned(g) {
        HighContextConfinement(g, env, x);
      } else {
        var cg := Check(g, env);
        CheckKeepsVisible(g, env, x);
        var branch := Open(cg.env, "branch", HighLabel);
        OpenLookup(cg.env, "branch", HighLabel, x);
        if x in Assigned(t) {
          HighContextConfinement(t, branch, x);
        } else {
          assert Close(Check(t, branch).env) == cg.env;
          HighContextConfinement(e, branch, x);
        }
      }
    case NExpressionStatement(e) => HighContextConfinement(e, env, x);
    case NBlock(ss) => BlockConfinement(ss, 0, env, x);
  }

  lemma {:induction false} AssignmentConfinement(y: string, e: Node, env: Env, x: string)
    requires env != [] && Context(env) == HighLabel
    requires CheckAssignment(y, e, env).st.Some?
    requires (x == y || x in Assigned(e)) && Lookup(env, x).Some?
    ensures Lookup(env, x).value.stype.sec != LowLabel
    decreases e, 2, 0
  {
    if x in Assigned(e) {
      HighContextConfinement(e, env, x);
    }
  }

  lemma {:induction false} BlockConfinement(ss: seq<Node>, i: nat, env: Env, x: string)
    requires i <= |ss| && env != [] && Context(env) == HighLabel
    requires CheckBlock(ss, i, env).st.Some?
    requires x in AssignedInBlock(ss, i) && Lookup(env, x).Some?
    ensures Lookup(env, x).value.stype.sec != LowLabel
    decreases NBlock(ss), 0, |ss| - i
  {
    if x in Assigned(ss[i]) {
      HighContextConfinement(ss[i], env, x);
    } else {
      CheckKeepsVisible(ss[i], env, x);
      BlockConfinement(ss, i + 1, Check(ss[i], env).env, x);
    }
  }

  /**
   * The guard's label propagates into both branches: an accepted
   * if-expression on a high guard writes, in either branch, no low variable
   * that was visible before it.
   */
  lemma HighGuardConfinement(g: Node, t: Node, e: Node, env: Env, x: string)
    requires env != []
    requires Check(NIfExpression(g, t, e), env).st.Some?
    requires Check(g, env).st.Some? && Check(g, env).st.value.sec == HighLabel
    requires x in Assigned(t) + Assigned(e) && Lookup(env, x).Some?
    ensures Lookup(env, x).value.stype.sec != LowLabel
  {
    var cg := Check(g, env);
    CheckKeepsVisible(g, env, x);
    assert BranchContext(cg.env, cg.st.value.sec) == HighLabel;
    var branch := Open(cg.env, "branch", HighLabel);
    OpenLookup(cg.env, "branch", HighLabel, x);
    var ct := Check(t, branch);
    assert ct.st.Some?;
    if x in Assigned(t) {
      HighContextConfinement(t, branch, x);
    } else {
      assert Close(ct.env) == cg.env;
      assert BranchContext(Close(ct.env), cg.st.value.sec) == HighLabel;
      HighContextConfinement(e, branch, x);
    }
  }

  /** An assignment to a low variable under a high context fails, whatever its right-hand side. */
  lemma ImplicitFlowRejected(x: string, e: Node, env: Env)
    requires env != [] && Context(env) == HighLabel
    requires Lookup(env, x).Some? && Lookup(env, x).value.stype.sec == LowLabel
    ensures CheckAssignment(x, e, env).st.None?
    ensures Check(e, env).st.Some? ==> CheckAssignment(x, e, env).diags == Check(e, env).diags + [ImplicitFlow]
  {
  }

  /** Expressions built from literals, annotations and identifiers by binary operators. */
  predicate Pure(e: Node)
  {
    match e
    case NBinaryOperator(_, l, r) => Pure(l) && Pure(r)
    case NSkip => true
    case NInteger(_) => true
    case NDouble => true
    case NBool(_) => true
    case NType(_) => true
    case NSecurity(_) => true
    case NIdentifier(_) => true
    case _ => false
  }

  /** The variables a pure expression reads. */
  function Reads(e: Node): set<string>
    requires Pure(e)
  {
    match e
    case NIdentifier(x) => {x}
    case NBinaryOperator(_, l, r) => Reads(l) + Reads(r)
    case _ => {}
  }

  /** Checking a pure expression leaves the scope as it was. */
  lemma {:induction false} PureKeepsScope(e: Node, env: Env)
    requires env != [] && Pure(e)
    ensures Check(e, env).env == env
  {
    if e.NBinaryOperator? {
      PureKeepsScope(e.lhs, env);
      PureKeepsScope(e.rhs, env);
    }
  }

  /** A pure expression whose label is not "high" reads only declared variables that are not labelled high. */
  lemma {:induction false} PureLabel(e: Node, env: Env, y: string)
    requires env != [] && Pure(e) && y in Reads(e)
    requires Check(e, env).st.Some? && Check(e, env).st.value.sec != HighLabel
    ensures Lookup(env, y).Some? && Lookup(env, y).value.stype.sec != HighLabel
  {
    if e.NBinaryOperator? {
      PureKeepsScope(e.lhs, env);
      if y in Reads(e.lhs) {
        PureLabel(e.lhs, env, y);
      } else {
        PureLabel(e.rhs, env, y);
      }
    }
  }

  /** Explicit-flow soundness: an accepted assignment into a low variable reads no high variable. */
  lemma ExplicitFlowSoundness(x: string, e: Node, env: Env, y: string)
    requires env != [] && Pure(e) && y in Reads(e)
    requires CheckAssignment(x, e, env).st.Some?
    requires Lookup(env, x).Some? && Lookup(env, x).value.stype.sec == LowLabel
    ensures Lookup(env, y).Some? && Lookup(env, y).value.stype.sec != HighLabel
  {
    PureLabel(e, env, y);
  }

  /**
   * A declaration fails if its name is visible in any table; otherwise the
   * name ends up bound, in the innermost table, to the declared type and label.
   */
  lemma DeclarationRule(ty: string, sec: string, id: string, init: Option<Node>, env: Env)
    requires env != []
    ensures var c := Check(NVariableDeclaration(ty, sec, id, init), env);
            (Lookup(env, id).Some? ==> c == Checked(None, env, [VariableRedeclaration(id)])) &&
            (c.st.Some? ==>
               c.st == Some(VoidType) && Lookup(env, id).None? && id in c.env[0].locals &&
               Lookup(c.env, id) == Some(Symbol(None, SType(Some(TypeOf(ty)), SecurityLabel(sec)))))
  {
    var c := Check(NVariableDeclaration(ty, sec, id, init), env);
    if Lookup(env, id).None? {
      var s := Symbol(None, SType(Some(TypeOf(ty)), SecurityLabel(sec)));
      DeclareLookup(env, id, s, id);
      if init.Some? {
        AssignmentKeepsVisible(id, init.value, Declare(env, id, s), id);
      }
    }
  }

  /** An accepted block is void. */
  lemma {:induction false} BlockVoid(ss: seq<Node>, i: nat, env: Env)
    requires i <= |ss| && env != []
    ensures CheckBlock(ss, i, env).st.Some? ==> CheckBlock(ss, i, env).st == Some(VoidType)
    decreases |ss| - i
  {
    if i < |ss| {
      var c := Check(ss[i], env);
      if c.st.Some? && c.st.value.ty == Some(Void) {
        BlockVoid(ss, i + 1, c.env);
      }
    }
  }

  lemma {:induction false} BlockShift(a: seq<Node>, b: seq<Node>, j: nat, env: Env)
    requires j <= |b| && env != []
    ensures CheckBlock(a + b, |a| + j, env) == CheckBlock(b, j, env)
    decreases |b| - j
  {
    if j < |b| {
      assert (a + b)[|a| + j] == b[j];
      var c := Check(b[j], env);
      if c.st.Some? && c.st.value.ty == Some(Void) {
        BlockShift(a, b, j + 1, c.env);
      }
    }
  }

  /**
   * Statements are checked in order and the first failure ends the block:
   * checking a + b is checking a, then, if that succeeded, b in the scope a left.
   */
  lemma {:induction false} BlockConcat(a: seq<Node>, b: seq<Node>, i: nat, env: Env)
    requires i <= |a| && env != []
    ensures var ca := CheckBlock(a, i, env);
            CheckBlock(a + b, i, env) ==
              if ca.st.None? then ca
              else var cb := CheckBlock(b, 0, ca.env); Checked(cb.st, cb.env, ca.diags + cb.diags)
    decreases |a| - i
  {
    if i == |a| {
      BlockShift(a, b, 0, env);
      assert [] + CheckBlock(b, 0, env).diags == CheckBlock(b, 0, env).diags;
    } else {
      assert (a + b)[i] == a[i];
      var c := Check(a[i], env);
      if c.st.Some? && c.st.value.ty == Some(Void) {
        BlockConcat(a, b, i + 1, c.env);
        var ca := CheckBlock(a, i + 1, c.env);
        if ca.st.Some? {
          var cb := CheckBlock(b, 0, ca.env);
          assert c.diags + (ca.diags + cb.diags) == (c.diags + ca.diags) + cb.diags;
        }
      }
    }
  }

  /** The whole-program check passes exactly when it printed no diagnostic. */
  lemma ProgramVerdict(root: Node)
    requires root.NBlock?
    ensures Passes(CheckProgram(root)) <==> CheckProgram(root).diags == []
  {
    CheckDiagnosed(root, GlobalScope);
    BlockVoid(root.statements, 0, GlobalScope);
  }
}
