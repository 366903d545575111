/**
 * Name bindings: symbols, one symbol table per lexical scope, and the scope
 * stack searched innermost-first. The pure functions over `Env` state what
 * the classes `SymbolTable` and `Scope` do in place.
 */
module Scopes {
  import opened Wrappers
  import opened Ir

  /** Security labels are the strings "low" and "high"; "" means no label. */
  const LowLabel: string := "low"
  const HighLabel: string := "high"

  /** A static type (NULL for a security-only entry) paired with a security label. */
  datatype SType = SType(ty: Option<IrType>, sec: string)

  /** A binding: its storage slot (NULL while type checking) and its SType. */
  datatype Symbol = Symbol(value: Option<Value>, stype: SType)

  /** The contents of one symbol table: its name, its security context and its bindings. */
  datatype Frame = Frame(name: string, sec: string, locals: map<string, Symbol>)

  /** The contents of a scope stack, innermost table first. */
  type Env = seq<Frame>

  /** The binding a name has in the innermost table that holds it, if any. */
  function Lookup(env: Env, x: string): Option<Symbol>
  {
    if env == [] then None
    else if x in env[0].locals then Some(env[0].locals[x])
    else Lookup(env[1..], x)
  }

  /** The security context: the label of the innermost table. */
  function Context(env: Env): string
    requires env != []
  {
    env[0].sec
  }

  /** A new, empty innermost table. */
  function Open(env: Env, name: string, sec: string): Env
  {
    [Frame(name, sec, map[])] + env
  }

  /** The stack without its innermost table. */
  function Close(env: Env): Env
    requires env != []
  {
    env[1..]
  }

  /** The stack after binding `x` to `s` in the innermost table (replacing any binding there). */
  function Declare(env: Env, x: string, s: Symbol): Env
    requires env != []
  {
    [env[0].(locals := env[0].locals[x := s])] + env[1..]
  }

  /** A name is unbound exactly when no table of the stack holds it. */
  lemma {:induction false} LookupNoneIff(env: Env, x: string)
    ensures Lookup(env, x).None? <==> forall i :: 0 <= i < |env| ==> x !in env[i].locals
  {
    if env != [] {
      LookupNoneIff(env[1..], x);
      if x !in env[0].locals {
        forall i | 0 < i < |env| ensures (x !in env[i].locals <==> x !in env[1..][i - 1].locals) { }
      }
    }
  }

  /**
   * Lookup returns the binding of the first table, innermost first, that
   * holds the name: an inner binding shadows every outer one.
   */
  lemma {:induction false} LookupInnermost(env: Env, x: string, k: nat)
    requires k < |env| && x in env[k].locals
    requires forall j :: 0 <= j < k ==> x !in env[j].locals
    ensures Lookup(env, x) == Some(env[k].locals[x])
  {
    if k > 0 {
      assert x !in env[0].locals;
      forall j | 0 <= j < k - 1 ensures x !in env[1..][j].locals {
        assert env[1..][j] == env[j + 1];
      }
      LookupInnermost(env[1..], x, k - 1);
    }
  }

  /** A bound name is held by some table, and no table inside that one holds it. */
  lemma {:induction false} LookupFound(env: Env, x: string)
    requires Lookup(env, x).Some?
    ensures exists k :: 0 <= k < |env| && x in env[k].locals && Lookup(env, x) == Some(env[k].locals[x])
                        && forall j :: 0 <= j < k ==> x !in env[j].locals
  {
    if x in env[0].locals {
      assert 0 < |env| && x in env[0].locals;
    } else {
      LookupFound(env[1..], x);
      var k :| 0 <= k < |env[1..]| && x in env[1..][k].locals && Lookup(env[1..], x) == Some(env[1..][k].locals[x])
                && forall j :: 0 <= j < k ==> x !in env[1..][j].locals;
      assert env[1..][k] == env[k + 1];
      forall j | 0 <= j < k + 1 ensures x !in env[j].locals {
        if j > 0 { assert env[1..][j - 1] == env[j]; }
      }
    }
  }

  /** After Declare(x, s) the name x finds s; every other name finds what it found before. */
  lemma DeclareLookup(env: Env, x: string, s: Symbol, y: string)
    requires env != []
    ensures Lookup(Declare(env, x, s), y) == if y == x then Some(s) else Lookup(env, y)
  {
    assert Declare(env, x, s)[1..] == env[1..];
  }

  /** A fresh innermost table hides nothing: every name finds what it found before. */
  lemma OpenLookup(env: Env, name: string, sec: string, y: string)
    ensures Lookup(Open(env, name, sec), y) == Lookup(env, y)
  {
    assert Open(env, name, sec)[1..] == env;
  }

  /** Opening a table and closing it again gives back the stack unchanged. */
  lemma OpenCloseRoundTrip(env: Env, name: string, sec: string)
    ensures |Open(env, name, sec)| == |env| + 1
    ensures Close(Open(env, name, sec)) == env
  {
  }

  /** One symbol table: a map from names to symbols, updated in place. */
  class SymbolTable {
    const name: string
    const sec: string
    var locals: map<string, Symbol>

    /** The table's contents as a value. */
    function View(): Frame
      reads this
    {
      Frame(name, sec, locals)
    }

    constructor (name: string, sec: string)
      ensures View() == Frame(name, sec, map[])
    {
      this.name := name;
      this.sec := sec;
      locals := map[];
    }

    /** Binds `x` to `sym`, overwriting any binding of `x` in this table. */
    method Insert(x: string, sym: Symbol)
      modifies this
      ensures locals == old(locals)[x := sym]
    {
      locals := locals[x := sym];
    }

    /** The binding of `x` in this table, or NULL. */
    method LookUp(x: string) returns (r: Option<Symbol>)
      ensures r.Some? <==> x in locals
      ensures r.Some? ==> r.value == locals[x]
    {
      if x !in locals {
        return None;
      }
      return Some(locals[x]);
    }
  }

  /** The contents of a list of tables, in list order. */
  ghost function Views(ts: seq<SymbolTable>): (env: Env)
    reads set t | t in ts
    ensures |env| == |ts|
  {
    if ts == [] then [] else [ts[0].View()] + Views(ts[1..])
  }

  /** Entry i of the contents of a list of tables is the contents of its i-th table. */
  lemma {:induction false} ViewsAt(ts: seq<SymbolTable>, i: nat)
    requires i < |ts|
    ensures Views(ts)[i] == ts[i].View()
  {
    if i > 0 {
      ViewsAt(ts[1..], i - 1);
    }
  }

  /** A stack of symbol tables, innermost first; each table is its own object. */
  class Scope {
    var tables: seq<SymbolTable>

    /** No table occurs twice in the stack. */
    ghost predicate Valid()
      reads this
    {
      forall i, j :: 0 <= i < j < |tables| ==> tables[i] != tables[j]
    }

    /** The contents of the whole stack. */
    ghost function Contents(): Env
      reads this, set t | t in tables
    {
      Views(tables)
    }

    constructor ()
      ensures Valid() && tables == [] && Contents() == []
    {
      tables := [];
    }

    /** The number of tables on the stack. */
    function Depth(): (d: nat)
      reads this, tables
      ensures d == |Contents()|
    {
      |tables|
    }

    /** Pushes one new, empty table on the front. */
    method InitializeScope(name: string, sec: string)
      requires Valid()
      modifies this
      ensures Valid()
      ensures Contents() == Open(old(Contents()), name, sec)
      ensures fresh(tables[0]) && tables[1..] == old(tables)
    {
      var t := new SymbolTable(name, sec);
      tables := [t] + tables;
      assert Contents() == [t.View()] + old(Contents());
    }

    /** Removes the innermost table; the outer ones are untouched. */
    method FinalizeScope()
      requires Valid() && tables != []
      modifies this
      ensures Valid()
      ensures Contents() == Close(old(Contents()))
      ensures tables == old(tables[1..])
    {
      tables := tables[1..];
      assert Contents() == old(Contents())[1..];
    }

    /** Binds `x` in the innermost table only. */
    method Insert(x: string, sym: Symbol)
      requires Valid() && tables != []
      modifies tables[0]
      ensures Valid()
      ensures Contents() == Declare(old(Contents()), x, sym)
    {
      tables[0].Insert(x, sym);
      assert Contents() == Declare(old(Contents()), x, sym);
    }

    /** Searches the tables innermost-first and returns the first binding found, or NULL. */
    method LookUp(x: string) returns (r: Option<Symbol>)
      ensures r == Lookup(Contents(), x)
    {
      var i := 0;
      while i < |tables|
        invariant 0 <= i <= |tables|
        invariant Lookup(Contents(), x) == Lookup(Contents()[i..], x)
      {
        ViewsAt(tables, i);
        var sym := tables[i].LookUp(x);
        if sym.Some? {
          return sym;
        }
        assert Contents()[i..][1..] == Contents()[i + 1..];
        i := i + 1;
      }
      return None;
    }

    /** The label of the innermost table. */
    function SecurityContext(): (sec: string)
      requires tables != []
      reads this, tables[0]
      ensures sec == Context(Views(tables))
    {
      tables[0].sec
    }
  }
}
