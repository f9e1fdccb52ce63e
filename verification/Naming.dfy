/** Reading a program with the symbol table: names get the symbols 1, 2, 3, ... in the order in which
    they first occur, and the round trip from an expression through its text gives the expression
    back up to that numbering. */
module Naming {
  import opened Wrappers
  import opened Syntax
  import opened G = Grammar
  import opened Printing
  import opened Lexer
  import opened Source
  import Table = SymbolTable

  /** The symbol of a name: its place among the names asked for, counted from 1; 0 for none. */
  function SymbolIn(names: seq<string>, key: string): (s: Symbol)
    ensures s <= |names| && (s == 0 <==> key !in names) && (s > 0 ==> names[s - 1] == key)
  {
    if names == [] then 0
    else if names[0] == key then 1
    else if SymbolIn(names[1..], key) == 0 then 0
    else SymbolIn(names[1..], key) + 1
  }

  /** What the table answers for a name does not depend on when it is asked. */
  lemma SymbolAtAnyTime(names: seq<string>, keys: seq<string>, key: string)
    requires Table.Distinct(names) && key in names
    ensures SymbolIn(Table.AfterAll(names, keys), key) == SymbolIn(names, key)
  {
    Table.SymbolsAreStable(names, keys);
    Table.SymbolsAreNames(names, keys);
    var all := Table.AfterAll(names, keys);
    var s, t := SymbolIn(names, key), SymbolIn(all, key);
    assert all[s - 1] == names[s - 1] == key && all[t - 1] == key;
  }

  /** The names in a text, in order. */
  function NamesIn(ts: seq<Token>): seq<string> {
    if ts == [] then [] else (if ts[0].kind == ID then [ts[0].text] else []) + NamesIn(ts[1..])
  }

  lemma {:induction false} TokenNames(ts: seq<Token>, i: nat)
    requires i < |ts| && ts[i].kind == ID
    ensures ts[i].text in NamesIn(ts)
  {
    if i > 0 {
      assert ts[1..][i - 1] == ts[i];
      TokenNames(ts[1..], i - 1);
    }
  }

  /** Every symbol of an expression is printed. */
  lemma {:induction false} SymbolsPrinted(name: Symbol -> string, e: Expr, level: nat)
    requires Proper(e)
    ensures forall id :: id in Symbols(e) ==> Token(ID, name(id)) in Print(name, e, level)
    decreases e, 1, if Level(e) < level then 1 else 0
  {
    if Level(e) < level {
      SymbolsPrinted(name, e, 0);
    } else {
      match e
      case Lambda(_, body) => SymbolsPrinted(name, body, 0);
      case Apply(f, a) =>
        SymbolsPrinted(name, f, 7);
        SymbolsPrinted(name, a, 8);
      case Let(_, value, body) =>
        SymbolsPrinted(name, value, 0);
        SymbolsPrinted(name, body, 0);
      case LetRec(_, value, body) =>
        SymbolsPrinted(name, value, 0);
        SymbolsPrinted(name, body, 0);
      case If(test, a, b) =>
        SymbolsPrinted(name, test, 0);
        SymbolsPrinted(name, a, 0);
        SymbolsPrinted(name, b, 0);
      case Binary(op, l, r) =>
        SymbolsPrinted(name, l, Level(e));
        SymbolsPrinted(name, r, Level(e) + 1);
      case Unary(_, a) => SymbolsPrinted(name, a, 6);
      case Tuple(_, _, _) => MembersPrinted(name, e);
      case _ =>
    }
  }

  lemma {:induction false} MembersPrinted(name: Symbol -> string, e: Expr)
    requires ProperMembers(e)
    ensures forall id :: id in Symbols(e) ==> Token(ID, name(id)) in PrintMembers(name, e)
    decreases e, 0, 0
  {
    SymbolsPrinted(name, e.first, 0);
    if e.Tuple? { MembersPrinted(name, e.rest); }
  }

  // ----- Renaming -----

  function Renamed(f: Symbol -> Symbol, e: Expr): (r: Expr)
    ensures Level(r) == Level(e) && (r.Tuple? <==> e.Tuple?) && (r.TupleFinal? <==> e.TupleFinal?) &&
            (r.Tuple? ==> r.length == e.length)
  {
    match e
    case Identifier(id) => Identifier(f(id))
    case Lambda(param, body) => Lambda(f(param), Renamed(f, body))
    case Apply(g, a) => Apply(Renamed(f, g), Renamed(f, a))
    case Let(id, value, body) => Let(f(id), Renamed(f, value), Renamed(f, body))
    case LetRec(id, value, body) => LetRec(f(id), Renamed(f, value), Renamed(f, body))
    case If(t, a, b) => If(Renamed(f, t), Renamed(f, a), Renamed(f, b))
    case Binary(op, l, r) => Binary(op, Renamed(f, l), Renamed(f, r))
    case Unary(op, a) => Unary(op, Renamed(f, a))
    case Tuple(first, rest, n) => Expr.Tuple(Renamed(f, first), Renamed(f, rest), n)
    case TupleFinal(first) => Expr.TupleFinal(Renamed(f, first))
    case _ => e
  }

  /** Other symbols with the same names are printed the same. */
  lemma {:induction false} RenamedPrint(name: Symbol -> string, name': Symbol -> string, f: Symbol -> Symbol,
                                        e: Expr, level: nat)
    requires forall id :: id in Symbols(e) ==> name'(f(id)) == name(id)
    ensures Print(name', Renamed(f, e), level) == Print(name, e, level)
    decreases e, 1, if Level(e) < level then 1 else 0
  {
    if Level(e) < level {
      RenamedPrint(name, name', f, e, 0);
    } else {
      match e
      case Lambda(_, body) => RenamedPrint(name, name', f, body, 0);
      case Apply(g, a) =>
        RenamedPrint(name, name', f, g, 7);
        RenamedPrint(name, name', f, a, 8);
      case Let(_, value, body) =>
        RenamedPrint(name, name', f, value, 0);
        RenamedPrint(name, name', f, body, 0);
      case LetRec(_, value, body) =>
        RenamedPrint(name, name', f, value, 0);
        RenamedPrint(name, name', f, body, 0);
      case If(test, a, b) =>
        RenamedPrint(name, name', f, test, 0);
        RenamedPrint(name, name', f, a, 0);
        RenamedPrint(name, name', f, b, 0);
      case Binary(_, l, r) =>
        RenamedPrint(name, name', f, l, Level(e));
        RenamedPrint(name, name', f, r, Level(e) + 1);
      case Unary(_, a) => RenamedPrint(name, name', f, a, 6);
      case Tuple(_, _, _) => RenamedMembers(name, name', f, e);
      case _ =>
    }
  }

  lemma {:induction false} RenamedMembers(name: Symbol -> string, name': Symbol -> string, f: Symbol -> Symbol, e: Expr)
    requires forall id :: id in Symbols(e) ==> name'(f(id)) == name(id)
    ensures PrintMembers(name', Renamed(f, e)) == PrintMembers(name, e)
    decreases e, 0, 0
  {
    if e.Tuple? || e.TupleFinal? { RenamedPrint(name, name', f, e.first, 0); }
    if e.Tuple? { RenamedMembers(name, name', f, e.rest); }
  }

  lemma {:induction false} RenamedProper(f: Symbol -> Symbol, e: Expr)
    requires forall id :: id in Symbols(e) ==> f(id) != INVALID_SYMBOL
    ensures Proper(e) ==> Proper(Renamed(f, e))
    ensures ProperMembers(e) ==> ProperMembers(Renamed(f, e))
    decreases e
  {
    match e
    case Lambda(_, body) => RenamedProper(f, body);
    case Apply(g, a) =>
      RenamedProper(f, g);
      RenamedProper(f, a);
    case Let(_, value, body) =>
      RenamedProper(f, value);
      RenamedProper(f, body);
    case LetRec(_, value, body) =>
      RenamedProper(f, value);
      RenamedProper(f, body);
    case If(test, a, b) =>
      RenamedProper(f, test);
      RenamedProper(f, a);
      RenamedProper(f, b);
    case Binary(_, l, r) =>
      RenamedProper(f, l);
      RenamedProper(f, r);
    case Unary(_, a) => RenamedProper(f, a);
    case Tuple(first, rest, n) =>
      RenamedProper(f, first);
      RenamedProper(f, rest);
      assert Renamed(f, e) == Expr.Tuple(Renamed(f, first), Renamed(f, rest), n);
      assert ProperMembers(e) ==> ProperMembers(Renamed(f, e));
    case TupleFinal(first) => RenamedProper(f, first);
    case _ =>
  }

  lemma {:induction false} RenamedSymbols(f: Symbol -> Symbol, e: Expr, s: Symbol) returns (id: Symbol)
    requires s in Symbols(Renamed(f, e))
    ensures id in Symbols(e) && f(id) == s
    decreases e
  {
    match e
    case Identifier(x) => id := x;
    case Lambda(param, body) => if f(param) == s { id := param; } else { id := RenamedSymbols(f, body, s); }
    case Apply(g, a) => if s in Symbols(Renamed(f, g)) { id := RenamedSymbols(f, g, s); }
      else { id := RenamedSymbols(f, a, s); }
    case Let(x, value, body) =>
      if f(x) == s { id := x; }
      else if s in Symbols(Renamed(f, value)) { id := RenamedSymbols(f, value, s); }
      else { id := RenamedSymbols(f, body, s); }
    case LetRec(x, value, body) =>
      if f(x) == s { id := x; }
      else if s in Symbols(Renamed(f, value)) { id := RenamedSymbols(f, value, s); }
      else { id := RenamedSymbols(f, body, s); }
    case If(t, a, b) =>
      if s in Symbols(Renamed(f, t)) { id := RenamedSymbols(f, t, s); }
      else if s in Symbols(Renamed(f, a)) { id := RenamedSymbols(f, a, s); }
      else { id := RenamedSymbols(f, b, s); }
    case Binary(_, l, r) => if s in Symbols(Renamed(f, l)) { id := RenamedSymbols(f, l, s); }
      else { id := RenamedSymbols(f, r, s); }
    case Unary(_, a) => id := RenamedSymbols(f, a, s);
    case Tuple(first, rest, _) =>
      if s in Symbols(Renamed(f, first)) { id := RenamedSymbols(f, first, s); }
        else { id := RenamedSymbols(f, rest, s); }
    case TupleFinal(first) => id := RenamedSymbols(f, first, s);
  }

  // ----- The round trip with the table -----

  /** The table after a text has been read: the names in it in order of their first occurrence. */
  function TableFor(ts: seq<Token>): seq<string> {
    Table.AfterAll([], NamesIn(ts))
  }

  /** The grammar over a table: `SymbolAtAnyTime` says that the answers a growing table gives while
      the text is read are those of the final one. */
  function TableGrammar(names: seq<string>): G.Grammar {
    G.Grammar(key => SymbolIn(names, key))
  }

  /** The symbols that the table gives the names of an expression. */
  function Numbering(name: Symbol -> string, ts: seq<Token>): Symbol -> Symbol {
    (id: Symbol) => SymbolIn(TableFor(ts), name(id))
  }

  /** The table has the name of every symbol in the text. */
  lemma NamesFound(name: Symbol -> string, e: Expr)
    requires Proper(e) && |TableFor(Print(name, e, 0))| < Table.LIMIT
    ensures var ts := Print(name, e, 0);
            forall id :: id in Symbols(e) ==> name(id) in TableFor(ts)
  {
    hide Print, Symbols, Proper;
    var ts := Print(name, e, 0);
    SymbolsPrinted(name, e, 0);
    Table.SymbolsAreNames([], NamesIn(ts));
    forall id | id in Symbols(e) ensures name(id) in TableFor(ts) {
      var i :| 0 <= i < |ts| && ts[i] == Token(ID, name(id));
      TokenNames(ts, i);
    }
  }

  function NameIn(names: seq<string>): Symbol -> string {
    (s: Symbol) => if 0 < s <= |names| then names[s - 1] else ""
  }

  lemma NameInIn(names: seq<string>, key: string)
    requires key in names
    ensures SymbolIn(names, key) > 0 && NameIn(names)(SymbolIn(names, key)) == key
  {
  }

  /** An expression printed as text and read with an empty table is the expression itself, with its
      symbols renumbered one to one. */
  lemma TableRoundTrip(name: Symbol -> string, e: Expr)
    requires Proper(e) && NamesSpelled(name, e) && |TableFor(Print(name, e, 0))| < Table.LIMIT
    requires forall x, y :: x in Symbols(e) && y in Symbols(e) && name(x) == name(y) ==> x == y
    ensures var ts := Print(name, e, 0);
            var f := Numbering(name, ts);
            && Front(TableGrammar(TableFor(ts)), Render(ts)) == Some(Renamed(f, e))
            && (forall x, y :: x in Symbols(e) && y in Symbols(e) && f(x) == f(y) ==> x == y)
            && forall x :: x in Symbols(e) ==> 1 <= f(x) <= |TableFor(ts)|
  {
    hide Print, Symbols, Proper, Front, Renamed, TableFor, SymbolIn, WellSpelled, Render, NameIn;
    var ts := Print(name, e, 0);
    var names, f := TableFor(ts), Numbering(name, ts);
    var name' := NameIn(names);
    NamesFound(name, e);
    forall id | id in Symbols(e) ensures f(id) > 0 && name'(f(id)) == name(id) && f(id) == SymbolIn(names, name(id)) {
      NameInIn(names, name(id));
    }
    RenamedPrint(name, name', f, e, 0);
    RenamedProper(f, e);
    forall s | s in Symbols(Renamed(f, e))
      ensures SymbolIn(names, name'(s)) == s && WellSpelled(Token(ID, name'(s)))
    {
      var id := RenamedSymbols(f, e, s);
    }
    SourceRoundTrip(TableGrammar(names), name', Renamed(f, e));
  }
}
