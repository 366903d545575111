/**
 * The recursive type checker: one `typeCheck` per node kind, all sharing a
 * single `Scope` object that they change in place. Every method returns the
 * node's SType (None for NULL) and the diagnostics it printed, in order, and
 * is proved to compute exactly what the rules in `TypeRules` say: the same
 * SType, the same scope contents afterwards and the same diagnostics.
 */
module TypeCheck {
  import opened Wrappers
  import opened Ast
  import opened Ir
  import opened Scopes
  import opened TypeRules

  /**
   * Checks a whole program: the root block under a fresh scope holding one
   * global table, which is the only table left afterwards. The program
   * passes iff the root types to void.
   */
  method CheckRoot(root: Node) returns (passed: bool, diags: seq<Diag>)
    requires root.NBlock?
    ensures passed == Passes(CheckProgram(root))
    ensures diags == CheckProgram(root).diags
  {
    var scope := new Scope();
    scope.InitializeScope("global", "");
    assert scope.Contents() == GlobalScope;
    var stype;
    stype, diags := TypeCheck(root, scope);
    assert scope.Depth() == 1;
    scope.FinalizeScope();
    passed := stype.Some? && stype.value.ty == Some(Void);
  }

  /** Type-checks one node against the shared scope. */
  method TypeCheck(n: Node, scope: Scope) returns (st: Option<SType>, diags: seq<Diag>)
    requires scope.Valid() && scope.tables != []
    modifies scope, scope.tables
    ensures scope.Valid() && scope.tables == old(scope.tables)
    ensures Checked(st, scope.Contents(), diags) == Check(n, old(scope.Contents()))
    decreases n, 1, 0
  {
    diags := [];
    match n
    case NSkip =>
      st := Some(VoidType);
    case NInteger(_) =>
      st := Some(Unlabelled(Int64));
    case NDouble =>
      st := Some(Unlabelled(Double));
    case NBool(_) =>
      st := Some(Unlabelled(Int1));
    case NSecurity(name) =>
      var sec := name;
      if sec == "" {
        sec := LowLabel;
      }
      st := Some(SType(None, sec));
    case NType(name) =>
      st := Some(Unlabelled(TypeOf(name)));
    case NIdentifier(x) =>
      var sym := scope.LookUp(x);
      if sym.None? {
        return None, [UndeclaredVariable(x)];
      }
      st := Some(sym.value.stype);
    case NAssignment(x, e) =>
      st, diags := TypeCheckAssignment(x, e, scope);
    case NVariableDeclaration(ty, sec, id, init) =>
      st, diags := TypeCheckVariableDeclaration(ty, sec, id, init, scope);
    case NBinaryOperator(op, l, r) =>
      st, diags := TypeCheckBinaryOperator(op, l, r, scope);
    case NIfExpression(g, t, e) =>
      st, diags := TypeCheckIf(g, t, e, scope);
    case NExpressionStatement(e) =>
      st, diags := TypeCheck(e, scope);
    case NBlock(ss) =>
      st, diags := TypeCheckBlock(ss, scope);
  }

  /** Assigns `e` to `x`: the target must be declared, then the assignment rule decides. */
  method TypeCheckAssignment(x: string, e: Node, scope: Scope) returns (st: Option<SType>, diags: seq<Diag>)
    requires scope.Valid() && scope.tables != []
    modifies scope, scope.tables
    ensures scope.Valid() && scope.tables == old(scope.tables)
    ensures Checked(st, scope.Contents(), diags) == CheckAssignment(x, e, old(scope.Contents()))
    decreases e, 2, 0
  {
    var sym := scope.LookUp(x);
    if sym.None? {
      return None, [UndeclaredVariable(x)];
    }
    var dtype := sym.value.stype;
    var atype;
    atype, diags := TypeCheck(e, scope);
    if atype.None? {
      return None, diags;
    }
    if dtype.sec == LowLabel && scope.SecurityContext() == HighLabel {
      return None, diags + [ImplicitFlow];
    }
    if dtype.ty != atype.value.ty {
      return None, diags + [AssignmentTypeMismatch];
    }
    if dtype.sec == LowLabel && atype.value.sec == HighLabel {
      return None, diags + [ExplicitFlow];
    }
    return Some(VoidType), diags;
  }

  /**
   * Declares `id`: rejected if any table already binds it; otherwise the
   * binding goes into the innermost table before the initializer, if any,
   * is checked as an assignment to `id`.
   */
  method TypeCheckVariableDeclaration(ty: string, sec: string, id: string, init: Option<Node>, scope: Scope)
    returns (st: Option<SType>, diags: seq<Diag>)
    requires scope.Valid() && scope.tables != []
    modifies scope, scope.tables
    ensures scope.Valid() && scope.tables == old(scope.tables)
    ensures Checked(st, scope.Contents(), diags) == Check(NVariableDeclaration(ty, sec, id, init), old(scope.Contents()))
    decreases NVariableDeclaration(ty, sec, id, init), 0, 0
  {
    var sym := scope.LookUp(id);
    if sym.Some? {
      return None, [VariableRedeclaration(id)];
    }
    // The type and security annotations never fail to check.
    var dtype := TypeOf(ty);
    var dsec := SecurityLabel(sec);
    scope.Insert(id, Symbol(None, SType(Some(dtype), dsec)));
    diags := [];
    if init.Some? {
      var atype;
      atype, diags := TypeCheckAssignment(id, init.value, scope);
      if atype.None? {
        return None, diags;
      }
    }
    return Some(VoidType), diags;
  }

  /**
   * Checks both operands, in order, before testing either result; the
   * operator's own rule is `OperatorType` and the label is their join.
   */
  method TypeCheckBinaryOperator(op: Op, l: Node, r: Node, scope: Scope) returns (st: Option<SType>, diags: seq<Diag>)
    requires scope.Valid() && scope.tables != []
    modifies scope, scope.tables
    ensures scope.Valid() && scope.tables == old(scope.tables)
    ensures Checked(st, scope.Contents(), diags) == Check(NBinaryOperator(op, l, r), old(scope.Contents()))
    decreases NBinaryOperator(op, l, r), 0, 0
  {
    var tl, dl := TypeCheck(l, scope);
    var tr, dr := TypeCheck(r, scope);
    diags := dl + dr;
    if tl.None? || tr.None? {
      return None, diags;
    }
    var sec := JoinLabel(tl.value.sec, tr.value.sec);
    var t := OperatorType(op, tl.value.ty, tr.value.ty);
    if t.None? {
      return None, diags + [OperatorTypeMismatch];
    }
    return Some(SType(t, sec)), diags;
  }

  /**
   * Checks one branch of an if-expression in a table of its own, labelled
   * "high" inside a high context and with the guard's label otherwise,
   * and closes that table again.
   */
  method TypeCheckBranch(n: Node, guardLabel: string, scope: Scope) returns (st: Option<SType>, diags: seq<Diag>)
    requires scope.Valid() && scope.tables != []
    modifies scope, scope.tables
    ensures scope.Valid() && scope.tables == old(scope.tables)
    ensures var env := old(scope.Contents());
            var c := Check(n, Open(env, "branch", BranchContext(env, guardLabel)));
            Checked(st, scope.Contents(), diags) == Checked(c.st, Close(c.env), c.diags)
    decreases n, 1, 1
  {
    scope.InitializeScope("branch", if scope.SecurityContext() == HighLabel then HighLabel else guardLabel);
    st, diags := TypeCheck(n, scope);
    scope.FinalizeScope();
  }

  /** Checks the guard, which must be a bool, then each branch, which must be void. */
  method TypeCheckIf(g: Node, t: Node, e: Node, scope: Scope) returns (st: Option<SType>, diags: seq<Diag>)
    requires scope.Valid() && scope.tables != []
    modifies scope, scope.tables
    ensures scope.Valid() && scope.tables == old(scope.tables)
    ensures Checked(st, scope.Contents(), diags) == Check(NIfExpression(g, t, e), old(scope.Contents()))
    decreases NIfExpression(g, t, e), 0, 0
  {
    var gtype;
    gtype, diags := TypeCheck(g, scope);
    if gtype.None? {
      return None, diags;
    }
    if gtype.value.ty != Some(Int1) {
      return None, diags + [GuardNotBool];
    }
    var ttype, dt := TypeCheckBranch(t, gtype.value.sec, scope);
    diags := diags + dt;
    if ttype.None? {
      return None, diags;
    }
    if ttype.value.ty != Some(Void) {
      return None, diags + [ThenNotVoid];
    }
    var etype, de := TypeCheckBranch(e, gtype.value.sec, scope);
    diags := diags + de;
    if etype.None? {
      return None, diags;
    }
    if etype.value.ty != Some(Void) {
      return None, diags + [ElseNotVoid];
    }
    return Some(VoidType), diags;
  }

  /** Checks the statements in order and returns NULL at the first that fails or is not void. */
  method TypeCheckBlock(ss: seq<Node>, scope: Scope) returns (st: Option<SType>, diags: seq<Diag>)
    requires scope.Valid() && scope.tables != []
    modifies scope, scope.tables
    ensures scope.Valid() && scope.tables == old(scope.tables)
    ensures Checked(st, scope.Contents(), diags) == CheckBlock(ss, 0, old(scope.Contents()))
    decreases NBlock(ss), 0, 0
  {
    diags := [];
    var i := 0;
    while i < |ss|
      invariant 0 <= i <= |ss|
      invariant scope.Valid() && scope.tables == old(scope.tables)
      invariant var rest := CheckBlock(ss, i, scope.Contents());
                CheckBlock(ss, 0, old(scope.Contents())) == Checked(rest.st, rest.env, diags + rest.diags)
    {
      var stype, ds := TypeCheck(ss[i], scope);
      diags := diags + ds;
      if stype.None? {
        return None, diags;
      }
      if stype.value.ty != Some(Void) {
        return None, diags + [StatementNotVoid];
      }
      i := i + 1;
    }
    return Some(VoidType), diags;
  }
}
