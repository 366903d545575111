/**
 * The visitor rewrite of the type checker: the traversal visits each node
 * once, children first, and the visits communicate through a stack of
 * STypes (`types`, front at index 0) and the shared scope. A visit that
 * stops the program on a failed check returns `ok == false`.
 */
module TypeCheckVis {
  import opened Wrappers
  import opened Ast
  import opened Ir
  import opened Scopes
  import opened TypeRules

  class TypeCheckerVisitor {
    const scope: Scope
    /** The operand stack of STypes, front first. */
    var types: seq<SType>
    /** Every diagnostic printed so far, oldest first. */
    var log: seq<Diag>

    ghost predicate Valid()
      reads this, scope
    {
      scope.Valid()
    }

    /** Starts with one global table and an empty stack. */
    constructor ()
      ensures Valid() && fresh(scope)
      ensures scope.Contents() == GlobalScope && types == [] && log == []
      ensures |scope.tables| == 1 && fresh(scope.tables[0])
    {
      var s := new Scope();
      s.InitializeScope("global", "");
      assert s.Contents() == GlobalScope;
      scope := s;
      types := [];
      log := [];
    }

    /** Tears the checker down: only the global table may be left, and it is closed. */
    method Finalize() returns (ok: bool)
      requires Valid()
      modifies scope
      ensures Valid()
      ensures ok <==> old(scope.Depth()) == 1
      ensures ok ==> scope.tables == [] && scope.Contents() == []
      ensures !ok ==> scope.tables == old(scope.tables)
    {
      if scope.Depth() != 1 {
        return false;
      }
      scope.FinalizeScope();
      return true;
    }

    method PrintErrorMessage(d: Diag)
      modifies this
      ensures log == old(log) + [d]
      ensures types == old(types)
    {
      log := log + [d];
    }

    method VisitSkip()
      modifies this
      ensures types == [VoidType] + old(types) && log == old(log)
    {
      types := [VoidType] + types;
    }

    method VisitInteger()
      modifies this
      ensures types == [Unlabelled(Int64)] + old(types) && log == old(log)
    {
      types := [Unlabelled(Int64)] + types;
    }

    method VisitDouble()
      modifies this
      ensures types == [Unlabelled(Double)] + old(types) && log == old(log)
    {
      types := [Unlabelled(Double)] + types;
    }

    method VisitBool()
      modifies this
      ensures types == [Unlabelled(Int1)] + old(types) && log == old(log)
    {
      types := [Unlabelled(Int1)] + types;
    }

    /**
     * Pushes an untyped entry carrying the annotation's label, an empty one
     * read as "low"; the rewritten name is returned, as the visit also
     * stores it back into the node.
     */
    method VisitSecurity(name: string) returns (rewritten: string)
      modifies this
      ensures rewritten == SecurityLabel(name)
      ensures types == [SType(None, rewritten)] + old(types) && log == old(log)
    {
      rewritten := name;
      if rewritten == "" {
        rewritten := LowLabel;
      }
      types := [SType(None, rewritten)] + types;
    }

    /** Pushes the entry of a type name: i64, double, i1, or void for any other name. */
    method VisitType(name: string)
      modifies this
      ensures types == [Unlabelled(TypeOf(name))] + old(types) && log == old(log)
    {
      if name == "int" {
        types := [Unlabelled(Int64)] + types;
        return;
      } else if name == "double" {
        types := [Unlabelled(Double)] + types;
        return;
      } else if name == "bool" {
        types := [Unlabelled(Int1)] + types;
        return;
      }
      types := [Unlabelled(Void)] + types;
    }

    /** Reports an undeclared name; pushes nothing either way. */
    method VisitIdentifier(x: string)
      requires Valid()
      modifies this
      ensures types == old(types)
      ensures log == old(log) + if Lookup(scope.Contents(), x).None? then [UndeclaredVariable(x)] else []
    {
      var sym := scope.LookUp(x);
      if sym.None? {
        PrintErrorMessage(UndeclaredVariable(x));
      }
    }

    /**
     * Pops the right-hand side's entry and applies the assignment rule to
     * it; an undeclared target stops the program before anything is popped.
     */
    method VisitAssignment(x: string) returns (ok: bool)
      requires Valid() && types != []
      modifies this
      ensures var sym := Lookup(scope.Contents(), x);
              if sym.None? then
                !ok && types == old(types) && log == old(log) + [UndeclaredVariable(x)]
              else
                var d := AssignmentRule(sym.value.stype, old(types[0]), Context(scope.Contents()));
                (ok <==> d.None?) && types == old(types[1..]) &&
                log == old(log) + if d.Some? then [d.value] else []
    {
      var sym := scope.LookUp(x);
      if sym.None? {
        PrintErrorMessage(UndeclaredVariable(x));
        return false;
      }
      var dtype := sym.value.stype;
      var atype := types[0];
      types := types[1..];
      if dtype.sec == LowLabel && scope.SecurityContext() == HighLabel {
        PrintErrorMessage(ImplicitFlow);
        return false;
      }
      if dtype.ty != atype.ty {
        PrintErrorMessage(AssignmentTypeMismatch);
        return false;
      }
      if dtype.sec == LowLabel && atype.sec == HighLabel {
        PrintErrorMessage(ExplicitFlow);
        return false;
      }
      return true;
    }

    /**
     * Pops the security entry (the top) and then the type entry below it and
     * binds the name to their type and label in the innermost table; a name
     * visible in any table stops the program first.
     */
    method VisitVariableDeclaration(id: string) returns (ok: bool)
      requires Valid() && scope.tables != [] && |types| >= 2
      modifies this, scope.tables[0]
      ensures Valid() && scope.tables == old(scope.tables)
      ensures ok <==> Lookup(old(scope.Contents()), id).None?
      ensures !ok ==> types == old(types) && scope.Contents() == old(scope.Contents()) &&
                      log == old(log) + [VariableRedeclaration(id)]
      ensures ok ==> types == old(types[2..]) && log == old(log) &&
                     scope.Contents() == Declare(old(scope.Contents()), id, Symbol(None, SType(old(types[1].ty), old(types[0].sec))))
    {
      var sym := scope.LookUp(id);
      if sym.Some? {
        PrintErrorMessage(VariableRedeclaration(id));
        return false;
      }
      var secEntry := types[0];
      types := types[1..];
      var typeEntry := types[0];
      types := types[1..];
      scope.Insert(id, Symbol(None, SType(typeEntry.ty, secEntry.sec)));
      return true;
    }

    /** Entering a block opens a table, leaving it closes one; any other phase stops the program. */
    method VisitBlock(flag: Flag) returns (ok: bool)
      requires Valid()
      requires flag == Exit ==> scope.tables != []
      modifies scope
      ensures Valid()
      ensures ok <==> flag == Enter || flag == Exit
      ensures flag == Enter ==> scope.Contents() == Open(old(scope.Contents()), "", "") && scope.tables[1..] == old(scope.tables) &&
                                fresh(scope.tables[0])
      ensures flag == Exit ==> scope.Contents() == Close(old(scope.Contents())) && scope.tables == old(scope.tables[1..])
      ensures !ok ==> scope.tables == old(scope.tables)
    {
      match flag
      case Enter =>
        scope.InitializeScope("", "");
        return true;
      case Exit =>
        scope.FinalizeScope();
        return true;
      case _ =>
        return false;
    }
  }

  /**
   * The visits a declaration without initializer receives: its type
   * annotation, its security annotation, then the declaration itself. The
   * outcome, the scope and the diagnostics are those of the recursive
   * checker's rule for the same node.
   */
  method DeclarationNode(v: TypeCheckerVisitor, ty: string, sec: string, id: string) returns (ok: bool)
    requires v.Valid() && v.scope.tables != []
    modifies v, v.scope.tables[0]
    ensures v.Valid() && v.scope.tables == old(v.scope.tables)
    ensures var c := Check(NVariableDeclaration(ty, sec, id, None), old(v.scope.Contents()));
            (ok <==> c.st.Some?) && v.scope.Contents() == c.env && v.log == old(v.log) + c.diags
    ensures ok ==> v.types == old(v.types)
  {
    v.VisitType(ty);
    var rewritten := v.VisitSecurity(sec);
    ok := v.VisitVariableDeclaration(id);
  }

  /**
   * A client of the visitor: declares `x` in the global table, enters a
   * block and declares a fresh `y` there, then tries to declare `x` again
   * inside the block, which the outer binding refuses; leaving the block
   * and tearing the checker down then succeed.
   */
  method NestedDeclarations() returns (outer: bool, inner: bool, shadow: bool, done: bool, log: seq<Diag>)
    ensures outer && inner && !shadow && done
    ensures log == [VariableRedeclaration("x")]
  {
    var v := new TypeCheckerVisitor();
    ghost var global := v.scope.Contents();
    LookupNoneIff(global, "x");
    LookupNoneIff(global, "y");
    outer := DeclarationNode(v, "int", "", "x");
    ghost var declared := v.scope.Contents();
    DeclareLookup(global, "x", Symbol(None, SType(Some(Int64), LowLabel)), "x");
    DeclareLookup(global, "x", Symbol(None, SType(Some(Int64), LowLabel)), "y");
    var entered := v.VisitBlock(Enter);
    ghost var nested := v.scope.Contents();
    OpenLookup(declared, "", "", "x");
    OpenLookup(declared, "", "", "y");
    inner := DeclarationNode(v, "bool", "high", "y");
    DeclareLookup(nested, "y", Symbol(None, SType(Some(Int1), HighLabel)), "x");
    shadow := DeclarationNode(v, "double", "", "x");
    var left := v.VisitBlock(Exit);
    assert |v.scope.Contents()| == 1;
    done := v.Finalize();
    log := v.log;
  }
}
