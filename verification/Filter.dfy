/** Row filters: validation, negation and the two ways of evaluating them
    (spec/filter.go, spec/validate.go, internal/source/filterexpr). */
module Filters {
  import opened Text

  // --------------------------------------------------------------------- the tree

  /** A column's value, by its place in the order of the column's type. */
  datatype Cell = Null | Of(rank: int)

  datatype Value = Nil | One(rank: int) | Many(cells: seq<Cell>)

  datatype Operator =
    | Eq | Neq | Lt | Lte | Gt | Gte | In | NotIn | IsNull | IsNotNull
    | NoOperator
    | OtherOperator(name: string)

  datatype Predicate = Predicate(column: string, op: Operator, value: Value)

  datatype Filter = Filter(all: seq<Filter>, any: seq<Filter>, not: Option<Filter>, where: Option<Predicate>)

  type Row = map<string, Cell>

  predicate Compares(op: Operator) { op in {Eq, Neq, Lt, Lte, Gt, Gte} }

  // ------------------------------------------------------------------- validation

  predicate ValidPredicate(p: Predicate) {
    && p.column != ""
    && match p.op
      case In => p.value.Many? && |p.value.cells| > 0
      case NotIn => p.value.Many? && |p.value.cells| > 0
      case IsNull => p.value.Nil?
      case IsNotNull => p.value.Nil?
      case _ => Compares(p.op) && !p.value.Nil?
  }

  function Shapes(f: Filter): nat {
    (if |f.all| > 0 then 1 else 0) + (if |f.any| > 0 then 1 else 0) +
    (if f.not.Some? then 1 else 0) + (if f.where.Some? then 1 else 0)
  }

  /** Every node carries exactly one of all, any, not and where. */
  predicate Valid(f: Filter) {
    && Shapes(f) == 1
    && (forall i :: 0 <= i < |f.all| ==> Valid(f.all[i]))
    && (forall i :: 0 <= i < |f.any| ==> Valid(f.any[i]))
    && (f.not.Some? ==> Valid(f.not.value))
    && (f.where.Some? ==> ValidPredicate(f.where.value))
  }

  /** The checks append what they find to the problems already there, and add
      nothing exactly when the tree is valid. */
  method ValidateFilter(f: Filter, path: string, problems: seq<string>) returns (r: seq<string>)
    ensures problems <= r && (r == problems <==> Valid(f))
    decreases f
  {
    r := problems;
    var count := 0;
    if |f.all| > 0 {
      count := count + 1;
      r := ValidateEach(f, f.all, path + ".all[", r);
    }
    if |f.any| > 0 {
      count := count + 1;
      r := ValidateEach(f, f.any, path + ".any[", r);
    }
    if f.not.Some? {
      count := count + 1;
      r := ValidateFilter(f.not.value, path + ".not", r);
    }
    if f.where.Some? {
      count := count + 1;
      r := ValidatePredicate(f.where.value, path + ".where", r);
    }
    if count == 0 { r := r + [path + ": filter node is empty"]; }
    if count > 1 { r := r + [path + ": filter node is ambiguous"]; }
  }

  method ValidateEach(f: Filter, nodes: seq<Filter>, path: string, problems: seq<string>) returns (r: seq<string>)
    requires nodes == f.all || nodes == f.any
    ensures problems <= r && (r == problems <==> forall i :: 0 <= i < |nodes| ==> Valid(nodes[i]))
    decreases f, 0
  {
    r := problems;
    for i := 0 to |nodes|
      invariant problems <= r && (r == problems <==> forall j :: 0 <= j < i ==> Valid(nodes[j]))
    {
      r := ValidateFilter(nodes[i], path + Format(10, i) + "]", r);
    }
  }

  method ValidatePredicate(p: Predicate, path: string, problems: seq<string>) returns (r: seq<string>)
    ensures problems <= r && (r == problems <==> ValidPredicate(p))
  {
    r := problems;
    if p.column == "" { r := r + [path + ".col: required"]; }
    if Compares(p.op) {
      if p.value.Nil? { r := r + [path + ": requires a value"]; }
    } else if p.op.In? || p.op.NotIn? {
      if !p.value.Many? {
        r := r + [path + ": requires a list value"];
      } else if |p.value.cells| == 0 {
        r := r + [path + ": requires at least one value"];
      }
    } else if p.op.IsNull? || p.op.IsNotNull? {
      if !p.value.Nil? { r := r + [path + ": takes no value"]; }
    } else if p.op.NoOperator? {
      r := r + [path + ".op: required"];
    } else {
      r := r + [path + ".op: unknown"];
    }
  }

  /** Which operators a value goes with: none with the NULL tests, a list with
      membership unless it is empty, and anything at all with the comparisons. */
  lemma AcceptedByValue(p: Predicate)
    ensures ValidPredicate(p) <==>
      && p.column != ""
      && match p.value
        case Nil => p.op == IsNull || p.op == IsNotNull
        case One(_) => p.op in {Eq, Neq, Lt, Lte, Gt, Gte}
        case Many(cells) => p.op in {Eq, Neq, Lt, Lte, Gt, Gte} || (cells != [] && (p.op == In || p.op == NotIn))
  {
  }

  /** A valid node is one of four things and nothing else besides. */
  lemma AcceptedByShape(f: Filter)
    ensures Valid(f) <==>
      || (f == Filter(f.all, [], None, None) && f.all != [] && forall g :: g in f.all ==> Valid(g))
      || (f == Filter([], f.any, None, None) && f.any != [] && forall g :: g in f.any ==> Valid(g))
      || (f == Filter([], [], f.not, None) && f.not.Some? && Valid(f.not.value))
      || (f == Filter([], [], None, f.where) && f.where.Some? && ValidPredicate(f.where.value))
  {
    assert (forall i :: 0 <= i < |f.all| ==> Valid(f.all[i])) <==> forall g :: g in f.all ==> Valid(g);
    assert (forall i :: 0 <= i < |f.any| ==> Valid(f.any[i])) <==> forall g :: g in f.any ==> Valid(g);
  }

  // --------------------------------------------------- SQL's three-valued meaning

  datatype Truth = True | False | Unknown

  function Not(t: Truth): Truth { match t case True => False case False => True case Unknown => Unknown }

  function And(a: Truth, b: Truth): Truth {
    if a.False? || b.False? then False else if a.True? && b.True? then True else Unknown
  }

  function Or(a: Truth, b: Truth): Truth {
    if a.True? || b.True? then True else if a.False? && b.False? then False else Unknown
  }

  function Known(b: bool): Truth { if b then True else False }

  function CellOf(row: Row, column: string): Cell { if column in row then row[column] else Null }

  predicate Relates(op: Operator, x: int, y: int) {
    match op
    case Eq => x == y
    case Neq => x != y
    case Lt => x < y
    case Lte => x <= y
    case Gt => x > y
    case Gte => x >= y
    case _ => false
  }

  /** x = v1 OR x = v2 OR ... */
  function Among(x: int, cells: seq<Cell>): Truth {
    if |cells| == 0 then False
    else Or(if cells[0].Null? then Unknown else Known(x == cells[0].rank), Among(x, cells[1..]))
  }

  function Holds(p: Predicate, row: Row): Truth {
    var c := CellOf(row, p.column);
    match p.op
    case IsNull => Known(c.Null?)
    case IsNotNull => Known(!c.Null?)
    case In => if c.Null? || !p.value.Many? then Unknown else Among(c.rank, p.value.cells)
    case NotIn => if c.Null? || !p.value.Many? then Unknown else Not(Among(c.rank, p.value.cells))
    case _ => if c.Null? || !p.value.One? then Unknown else Known(Relates(p.op, c.rank, p.value.rank))
  }

  /** What the filter says of a row; a node that carries nothing says nothing. */
  function Eval(f: Filter, row: Row): Truth
    decreases f
  {
    if |f.all| > 0 then EvalAll(f.all, row)
    else if |f.any| > 0 then EvalAny(f.any, row)
    else if f.not.Some? then Not(Eval(f.not.value, row))
    else if f.where.Some? then Holds(f.where.value, row)
    else Unknown
  }

  function EvalAll(fs: seq<Filter>, row: Row): Truth
    decreases fs
  {
    if |fs| == 0 then True else And(Eval(fs[0], row), EvalAll(fs[1..], row))
  }

  function EvalAny(fs: seq<Filter>, row: Row): Truth
    decreases fs
  {
    if |fs| == 0 then False else Or(Eval(fs[0], row), EvalAny(fs[1..], row))
  }

  /** The comparisons true of x beside y. */
  function TrueOperators(x: int, y: int): set<Operator> {
    if x < y then {Neq, Lt, Lte} else if x > y then {Neq, Gt, Gte} else {Eq, Lte, Gte}
  }

  /** A valid leaf on a row. On a column that is NULL or absent only the NULL tests
      know an answer; on a value each comparison says whether it is so, and a list
      whether it holds the value, unless a NULL leaves that open. */
  lemma LeafSays(p: Predicate, row: Row)
    requires ValidPredicate(p)
    ensures var c, t := CellOf(row, p.column), Holds(p, row);
      && (p.op == IsNull ==> t == Known(c == Null))
      && (p.op == IsNotNull ==> t == Known(c != Null))
      && (c == Null && p.op != IsNull && p.op != IsNotNull ==> t == Unknown)
      && (c.Of? && p.op == In ==>
        && (t == True <==> c in p.value.cells)
        && (t == False <==> c !in p.value.cells && Null !in p.value.cells))
      && (c.Of? && p.op == NotIn ==>
        && (t == False <==> c in p.value.cells)
        && (t == True <==> c !in p.value.cells && Null !in p.value.cells))
      && (c.Of? && p.value.One? ==> t == Known(p.op in TrueOperators(c.rank, p.value.rank)))
  {
    var c := CellOf(row, p.column);
    if c.Of? && p.value.Many? { AmongDecides(c.rank, p.value.cells); }
  }

  lemma {:induction false} AllSays(fs: seq<Filter>, row: Row)
    ensures EvalAll(fs, row) == True <==> forall i :: 0 <= i < |fs| ==> Eval(fs[i], row) == True
    ensures EvalAll(fs, row) == False <==> exists i :: 0 <= i < |fs| && Eval(fs[i], row) == False
    decreases |fs|
  {
    if |fs| > 0 {
      AllSays(fs[1..], row);
      assert forall i :: 1 <= i < |fs| ==> fs[i] == fs[1..][i - 1];
      assert forall i :: 0 <= i < |fs[1..]| ==> fs[1..][i] == fs[i + 1];
    }
  }

  lemma {:induction false} AnySays(fs: seq<Filter>, row: Row)
    ensures EvalAny(fs, row) == True <==> exists i :: 0 <= i < |fs| && Eval(fs[i], row) == True
    ensures EvalAny(fs, row) == False <==> forall i :: 0 <= i < |fs| ==> Eval(fs[i], row) == False
    decreases |fs|
  {
    if |fs| > 0 {
      AnySays(fs[1..], row);
      assert forall i :: 1 <= i < |fs| ==> fs[i] == fs[1..][i - 1];
      assert forall i :: 0 <= i < |fs[1..]| ==> fs[1..][i] == fs[i + 1];
    }
  }

  /** A valid filter on a row: `all` is true when every part is and false when one is
      false, `any` the other way round, `not` swaps the two, and a leaf says what its
      predicate says. */
  lemma FilterSays(f: Filter, row: Row)
    requires Valid(f)
    ensures |f.all| > 0 ==>
      && (Eval(f, row) == True <==> forall i :: 0 <= i < |f.all| ==> Eval(f.all[i], row) == True)
      && (Eval(f, row) == False <==> exists i :: 0 <= i < |f.all| && Eval(f.all[i], row) == False)
    ensures |f.any| > 0 ==>
      && (Eval(f, row) == True <==> exists i :: 0 <= i < |f.any| && Eval(f.any[i], row) == True)
      && (Eval(f, row) == False <==> forall i :: 0 <= i < |f.any| ==> Eval(f.any[i], row) == False)
    ensures f.not.Some? ==>
      && (Eval(f, row) == True <==> Eval(f.not.value, row) == False)
      && (Eval(f, row) == False <==> Eval(f.not.value, row) == True)
    ensures f.where.Some? ==> Eval(f, row) == Holds(f.where.value, row)
  {
    AllSays(f.all, row);
    AnySays(f.any, row);
  }

  // --------------------------------------------------------------------- negation

  function NegateOperator(op: Operator): Operator {
    match op
    case Eq => Neq
    case Neq => Eq
    case Lt => Gte
    case Lte => Gt
    case Gt => Lte
    case Gte => Lt
    case In => NotIn
    case NotIn => In
    case IsNull => IsNotNull
    case IsNotNull => IsNull
    case _ => op
  }

  function NegatePredicate(p: Predicate): Predicate { p.(op := NegateOperator(p.op)) }

  /** None is the nil filter; negating a group dereferences its children's
      negations, so a nil among them is a panic, told apart as Panics. */
  datatype Negation = Nothing | Negated(filter: Filter) | Panics

  function Negate(f: Filter): Negation
    decreases f
  {
    if |f.all| > 0 then
      match NegateEach(f.all)
      case None => Panics
      case Some(out) => Negated(Filter([], out, None, None))
    else if |f.any| > 0 then
      match NegateEach(f.any)
      case None => Panics
      case Some(out) => Negated(Filter(out, [], None, None))
    else if f.not.Some? then Negated(f.not.value)
    else if f.where.Some? then Negated(Filter([], [], None, Some(NegatePredicate(f.where.value))))
    else Nothing
  }

  function NegateEach(fs: seq<Filter>): (r: Option<seq<Filter>>)
    ensures r.Some? ==> |r.value| == |fs|
    decreases fs
  {
    if |fs| == 0 then Some([])
    else
      match Negate(fs[0])
      case Negated(first) =>
        (match NegateEach(fs[1..])
         case None => None
         case Some(rest) => Some([first] + rest))
      case _ => None
  }

  lemma PredicateNegates(p: Predicate, row: Row)
    requires ValidPredicate(p)
    ensures ValidPredicate(NegatePredicate(p)) && Holds(NegatePredicate(p), row) == Not(Holds(p, row))
    ensures NegatePredicate(NegatePredicate(p)) == p
  {
  }

  /** A valid filter has a negation, which is valid and says the opposite of every
      row, NULLs included: true for false, false for true, unknown for unknown. */
  lemma {:induction false} NegateIsNot(f: Filter, row: Row)
    requires Valid(f)
    ensures Negate(f).Negated? && Valid(Negate(f).filter) && Eval(Negate(f).filter, row) == Not(Eval(f, row))
    decreases f
  {
    if |f.all| > 0 {
      EachNegates(f.all, row);
    } else if |f.any| > 0 {
      EachNegates(f.any, row);
    } else if f.not.Some? {
    } else {
      PredicateNegates(f.where.value, row);
    }
  }

  lemma {:induction false} EachNegates(fs: seq<Filter>, row: Row)
    requires forall i :: 0 <= i < |fs| ==> Valid(fs[i])
    ensures NegateEach(fs).Some? && forall i :: 0 <= i < |fs| ==> Valid(NegateEach(fs).value[i])
    ensures EvalAny(NegateEach(fs).value, row) == Not(EvalAll(fs, row))
    ensures EvalAll(NegateEach(fs).value, row) == Not(EvalAny(fs, row))
    decreases fs
  {
    if |fs| > 0 {
      NegateIsNot(fs[0], row);
      EachNegates(fs[1..], row);
      var out := NegateEach(fs).value;
      assert out[0] == Negate(fs[0]).filter && out[1..] == NegateEach(fs[1..]).value;
    }
  }

  // ------------------------------------------------- pushing every `not` to a leaf

  /** A rendered filter: there is no `not` to write. */
  datatype Expr = Conj(parts: seq<Expr>) | Disj(parts: seq<Expr>) | Leaf(where: Predicate)

  function Size(f: Filter): nat
    decreases f
  {
    1 + SizeAll(f.all) + SizeAll(f.any) + if f.not.Some? then Size(f.not.value) else 0
  }

  function SizeAll(fs: seq<Filter>): nat
    decreases fs
  {
    if |fs| == 0 then 0 else Size(fs[0]) + SizeAll(fs[1..])
  }

  /** Negating a filter makes it no larger, so pushing negations down ends. */
  lemma {:induction false} NegateNoLarger(f: Filter)
    requires Negate(f).Negated?
    ensures Size(Negate(f).filter) <= Size(f)
    decreases f
  {
    if |f.all| > 0 { EachNoLarger(f.all); } else if |f.any| > 0 { EachNoLarger(f.any); }
  }

  lemma {:induction false} EachNoLarger(fs: seq<Filter>)
    requires NegateEach(fs).Some?
    ensures SizeAll(NegateEach(fs).value) <= SizeAll(fs)
    decreases fs
  {
    if |fs| > 0 {
      NegateNoLarger(fs[0]);
      EachNoLarger(fs[1..]);
      var out := NegateEach(fs).value;
      assert out[0] == Negate(fs[0]).filter && out[1..] == NegateEach(fs[1..]).value;
    }
  }

  /** A leaf can be written unless it compares with a list. */
  predicate Writable(p: Predicate) { Compares(p.op) ==> p.value.One? }

  /** The renderer: it meets a `not`, negates the operand and goes on with that. */
  function Render(f: Filter): Option<Expr>
    requires Valid(f)
    decreases Size(f), 0
  {
    if |f.all| > 0 then
      match RenderEach(f.all)
      case None => None
      case Some(parts) => Some(Conj(parts))
    else if |f.any| > 0 then
      match RenderEach(f.any)
      case None => None
      case Some(parts) => Some(Disj(parts))
    else if f.not.Some? then
      NegateIsNot(f.not.value, map[]);
      NegateNoLarger(f.not.value);
      Render(Negate(f.not.value).filter)
    else if Writable(f.where.value) then Some(Leaf(f.where.value))
    else None
  }

  function RenderEach(fs: seq<Filter>): (r: Option<seq<Expr>>)
    requires forall i :: 0 <= i < |fs| ==> Valid(fs[i])
    decreases SizeAll(fs), |fs|
  {
    if |fs| == 0 then Some([])
    else
      match Render(fs[0])
      case None => None
      case Some(first) =>
        (match RenderEach(fs[1..])
         case None => None
         case Some(rest) => Some([first] + rest))
  }

  predicate AllWritable(f: Filter)
    decreases f
  {
    && (forall i :: 0 <= i < |f.all| ==> AllWritable(f.all[i]))
    && (forall i :: 0 <= i < |f.any| ==> AllWritable(f.any[i]))
    && (f.not.Some? ==> AllWritable(f.not.value))
    && (f.where.Some? ==> Writable(f.where.value))
  }

  lemma {:induction false} NegateWritable(f: Filter)
    requires Valid(f) && Negate(f).Negated?
    ensures AllWritable(Negate(f).filter) <==> AllWritable(f)
    decreases f
  {
    if |f.all| > 0 { EachWritable(f.all); } else if |f.any| > 0 { EachWritable(f.any); }
  }

  lemma {:induction false} EachWritable(fs: seq<Filter>)
    requires (forall i :: 0 <= i < |fs| ==> Valid(fs[i])) && NegateEach(fs).Some?
    ensures (forall i :: 0 <= i < |fs| ==> AllWritable(NegateEach(fs).value[i])) <==>
            (forall i :: 0 <= i < |fs| ==> AllWritable(fs[i]))
    decreases fs
  {
    if |fs| > 0 {
      NegateWritable(fs[0]);
      EachWritable(fs[1..]);
      var out := NegateEach(fs).value;
      assert out[0] == Negate(fs[0]).filter && out[1..] == NegateEach(fs[1..]).value;
      AllSplit(fs);
      AllSplit(out);
    }
  }

  lemma AllSplit(fs: seq<Filter>)
    requires |fs| > 0
    ensures (forall i :: 0 <= i < |fs| ==> AllWritable(fs[i])) <==>
            AllWritable(fs[0]) && forall i :: 0 <= i < |fs[1..]| ==> AllWritable(fs[1..][i])
  {
    assert forall i :: 1 <= i < |fs| ==> fs[i] == fs[1..][i - 1];
  }

  /** A valid filter renders if and only if no leaf compares with a list. */
  lemma {:induction false} RendersExactly(f: Filter)
    requires Valid(f)
    ensures Render(f).Some? <==> AllWritable(f)
    decreases Size(f), 0
  {
    if |f.all| > 0 {
      EachRenders(f.all);
    } else if |f.any| > 0 {
      EachRenders(f.any);
    } else if f.not.Some? {
      NegateIsNot(f.not.value, map[]);
      NegateNoLarger(f.not.value);
      NegateWritable(f.not.value);
      RendersExactly(Negate(f.not.value).filter);
    }
  }

  lemma {:induction false} EachRenders(fs: seq<Filter>)
    requires forall i :: 0 <= i < |fs| ==> Valid(fs[i])
    ensures RenderEach(fs).Some? <==> forall i :: 0 <= i < |fs| ==> AllWritable(fs[i])
    decreases SizeAll(fs), |fs|
  {
    if |fs| > 0 {
      RendersExactly(fs[0]);
      EachRenders(fs[1..]);
      AllSplit(fs);
    }
  }

  function Meaning(e: Expr, row: Row): Truth
    decreases e
  {
    match e
    case Conj(parts) => MeaningAll(parts, row)
    case Disj(parts) => MeaningAny(parts, row)
    case Leaf(p) => Holds(p, row)
  }

  function MeaningAll(es: seq<Expr>, row: Row): Truth
    decreases es
  {
    if |es| == 0 then True else And(Meaning(es[0], row), MeaningAll(es[1..], row))
  }

  function MeaningAny(es: seq<Expr>, row: Row): Truth
    decreases es
  {
    if |es| == 0 then False else Or(Meaning(es[0], row), MeaningAny(es[1..], row))
  }

  /** The rendered, not-free tree says of every row what the filter says. */
  lemma {:induction false} RenderKeepsMeaning(f: Filter, row: Row)
    requires Valid(f) && Render(f).Some?
    ensures Meaning(Render(f).value, row) == Eval(f, row)
    decreases Size(f), 0
  {
    if |f.all| > 0 {
      EachKeepsMeaning(f.all, row);
    } else if |f.any| > 0 {
      EachKeepsMeaning(f.any, row);
    } else if f.not.Some? {
      NegateIsNot(f.not.value, row);
      NegateNoLarger(f.not.value);
      RenderKeepsMeaning(Negate(f.not.value).filter, row);
    }
  }

  lemma {:induction false} EachKeepsMeaning(fs: seq<Filter>, row: Row)
    requires (forall i :: 0 <= i < |fs| ==> Valid(fs[i])) && RenderEach(fs).Some?
    ensures MeaningAll(RenderEach(fs).value, row) == EvalAll(fs, row)
    ensures MeaningAny(RenderEach(fs).value, row) == EvalAny(fs, row)
    decreases SizeAll(fs), |fs|
  {
    if |fs| > 0 {
      RenderKeepsMeaning(fs[0], row);
      EachKeepsMeaning(fs[1..], row);
      var out := RenderEach(fs).value;
      assert out[0] == Render(fs[0]).value && out[1..] == RenderEach(fs[1..]).value;
    }
  }

  // ------------------------------------------------ evaluation on decoded rows

  /** What running the rendered expression on a row gives: the row is kept, it is
      dropped, or the evaluation returns an error. */
  datatype Outcome = Keep | Drop | Fail

  function Answers(b: bool): Outcome { if b then Keep else Drop }

  /** The expression's own `!`. */
  function Bang(o: Outcome): Outcome { match o case Keep => Drop case Drop => Keep case Fail => Fail }

  predicate Contains(x: int, cells: seq<Cell>) { Of(x) in cells }

  /** Membership on a column compared through an exact helper (Postgres numeric,
      real, double precision and money; MySQL DECIMAL): one call for each element,
      from the left until one is equal, and the helper rejects a NULL. */
  function Search(x: int, cells: seq<Cell>): Outcome {
    if |cells| == 0 then Drop
    else if cells[0].Null? then Fail
    else if cells[0].rank == x then Keep
    else Search(x, cells[1..])
  }

  /** On a plain column a NULL in the list is one more value no column equals. */
  function Member(x: int, cells: seq<Cell>, exact: bool): Outcome {
    if exact then Search(x, cells) else Answers(Contains(x, cells))
  }

  /** A leaf as written for a row already decoded; `exact` are the columns compared
      through the helper. A NULL column satisfies no comparison and no membership. */
  function RunLeaf(p: Predicate, exact: set<string>, row: Row): Outcome {
    var c := CellOf(row, p.column);
    match p.op
    case IsNull => Answers(c.Null?)
    case IsNotNull => Answers(!c.Null?)
    case In =>
      if c.Null? || !p.value.Many? then Drop else Member(c.rank, p.value.cells, p.column in exact)
    case NotIn =>
      if c.Null? || !p.value.Many? then Drop else Bang(Member(c.rank, p.value.cells, p.column in exact))
    case _ => Answers(!c.Null? && p.value.One? && Relates(p.op, c.rank, p.value.rank))
  }

  /** `&&` and `||` go from the left and stop at the first part that decides. */
  function Run(e: Expr, exact: set<string>, row: Row): Outcome
    decreases e
  {
    match e
    case Conj(parts) => RunAll(parts, exact, row)
    case Disj(parts) => RunAny(parts, exact, row)
    case Leaf(p) => RunLeaf(p, exact, row)
  }

  function RunAll(es: seq<Expr>, exact: set<string>, row: Row): Outcome
    decreases es
  {
    if |es| == 0 then Keep
    else if Run(es[0], exact, row) == Keep then RunAll(es[1..], exact, row)
    else Run(es[0], exact, row)
  }

  function RunAny(es: seq<Expr>, exact: set<string>, row: Row): Outcome
    decreases es
  {
    if |es| == 0 then Drop
    else if Run(es[0], exact, row) == Drop then RunAny(es[1..], exact, row)
    else Run(es[0], exact, row)
  }

  // ------------------------------------------------------------ one leaf, exactly

  lemma {:induction false} AmongDecides(x: int, cells: seq<Cell>)
    ensures Among(x, cells) == if Contains(x, cells) then True else if Null in cells then Unknown else False
    decreases |cells|
  {
    if |cells| > 0 {
      AmongDecides(x, cells[1..]);
      assert cells == [cells[0]] + cells[1..];
    }
  }

  /** A NULL stands in the list before any element equal to x. */
  predicate NullFirst(x: int, cells: seq<Cell>) {
    exists i :: 0 <= i < |cells| && cells[i].Null? && !Contains(x, cells[..i])
  }

  lemma {:induction false} SearchDecides(x: int, cells: seq<Cell>)
    ensures Search(x, cells) == if NullFirst(x, cells) then Fail else Answers(Contains(x, cells))
    decreases |cells|
  {
    if |cells| > 0 {
      var rest := cells[1..];
      SearchDecides(x, rest);
      assert cells == [cells[0]] + rest;
      if cells[0].Null? {
        assert !Contains(x, cells[..0]);
      } else {
        NullFirstInRest(x, cells);
      }
    }
  }

  lemma NullFirstInRest(x: int, cells: seq<Cell>)
    requires |cells| > 0 && cells[0].Of?
    ensures NullFirst(x, cells) <==> cells[0].rank != x && NullFirst(x, cells[1..])
  {
    var rest := cells[1..];
    forall i | 0 < i <= |cells| ensures cells[..i] == [cells[0]] + rest[..i - 1] {}
    if cells[0].rank != x && NullFirst(x, rest) {
      var i :| 0 <= i < |rest| && rest[i].Null? && !Contains(x, rest[..i]);
      assert cells[i + 1].Null? && !Contains(x, cells[..i + 1]);
    }
    if NullFirst(x, cells) {
      var i :| 0 <= i < |cells| && cells[i].Null? && !Contains(x, cells[..i]);
      assert Of(cells[0].rank) in cells[..i];
      assert rest[i - 1].Null? && !Contains(x, rest[..i - 1]);
    }
  }

  function WithoutNulls(cells: seq<Cell>): (r: seq<Cell>)
    ensures Null !in r && forall x :: Of(x) in r <==> Of(x) in cells
  {
    if |cells| == 0 then []
    else
      var rest := WithoutNulls(cells[1..]);
      assert cells == [cells[0]] + cells[1..];
      if cells[0].Null? then rest else [cells[0]] + rest
  }

  /** The leaf with the NULLs removed from a `not in` list. */
  function StripLeaf(p: Predicate): Predicate {
    if p.op.NotIn? && p.value.Many? then p.(value := Many(WithoutNulls(p.value.cells))) else p
  }

  predicate Listed(p: Predicate) { (p.op.In? || p.op.NotIn?) && p.value.Many? }

  /** The helper is called with a NULL. */
  predicate LeafFails(p: Predicate, exact: set<string>, row: Row) {
    var c := CellOf(row, p.column);
    Listed(p) && p.column in exact && c.Of? && NullFirst(c.rank, p.value.cells)
  }

  lemma LeafDecides(p: Predicate, exact: set<string>, row: Row)
    ensures RunLeaf(p, exact, row) ==
      if LeafFails(p, exact, row) then Fail else Answers(Holds(StripLeaf(p), row) == True)
  {
    var c := CellOf(row, p.column);
    if c.Of? && p.value.Many? {
      SearchDecides(c.rank, p.value.cells);
      AmongDecides(c.rank, p.value.cells);
      AmongDecides(c.rank, WithoutNulls(p.value.cells));
    }
  }

  /** A list with a NULL, under `not in` or on an exact column. */
  predicate NullTrips(p: Predicate, exact: set<string>) {
    Listed(p) && Null in p.value.cells && (p.op.NotIn? || p.column in exact)
  }

  function Above(cells: seq<Cell>): (r: int)
    ensures forall i :: 0 <= i < |cells| && cells[i].Of? ==> cells[i].rank < r
  {
    if |cells| == 0 then 0
    else
      var r := Above(cells[1..]);
      if cells[0].Of? && cells[0].rank >= r then cells[0].rank + 1 else r
  }

  /** The leaf keeps exactly the rows SQL keeps and fails on none, on every row, if
      and only if no NULL stands in its list under `not in` or on an exact column. */
  lemma LeafAgrees(p: Predicate, exact: set<string>)
    ensures (forall row :: RunLeaf(p, exact, row) == Answers(Holds(p, row) == True)) <==> !NullTrips(p, exact)
  {
    if NullTrips(p, exact) {
      var cells := p.value.cells;
      var x := Above(cells);
      var row: Row := map[p.column := Of(x)];
      LeafDecides(p, exact, row);
      AmongDecides(x, cells);
      AmongDecides(x, WithoutNulls(cells));
      var i :| 0 <= i < |cells| && cells[i] == Null;
      assert !Contains(x, cells[..i]);
      assert RunLeaf(p, exact, row) != Answers(Holds(p, row) == True);
    } else {
      forall row ensures RunLeaf(p, exact, row) == Answers(Holds(p, row) == True) { LeafAgreesOn(p, exact, row); }
    }
  }

  lemma LeafAgreesOn(p: Predicate, exact: set<string>, row: Row)
    requires !NullTrips(p, exact)
    ensures RunLeaf(p, exact, row) == Answers(Holds(p, row) == True)
  {
    var c := CellOf(row, p.column);
    if c.Of? && p.value.Many? {
      SearchDecides(c.rank, p.value.cells);
      AmongDecides(c.rank, p.value.cells);
    }
  }

  // ------------------------------------------------------ every expression, exactly

  /** The expression with the NULLs removed from its `not in` lists. */
  function Strip(e: Expr): Expr
    decreases e
  {
    match e
    case Conj(parts) => Conj(StripEach(parts))
    case Disj(parts) => Disj(StripEach(parts))
    case Leaf(p) => Leaf(StripLeaf(p))
  }

  function StripEach(es: seq<Expr>): seq<Expr>
    decreases es
  {
    if |es| == 0 then [] else [Strip(es[0])] + StripEach(es[1..])
  }

  predicate Says(e: Expr, row: Row) { Meaning(Strip(e), row) == True }

  /** The evaluation gets to a leaf that fails: every part of an `all` before it is
      true, and none of an `any`. */
  predicate Fails(e: Expr, exact: set<string>, row: Row)
    decreases e
  {
    match e
    case Conj(parts) => AllFails(parts, exact, row)
    case Disj(parts) => AnyFails(parts, exact, row)
    case Leaf(p) => LeafFails(p, exact, row)
  }

  predicate AllFails(es: seq<Expr>, exact: set<string>, row: Row)
    decreases es
  {
    |es| > 0 && (Fails(es[0], exact, row) || (Says(es[0], row) && AllFails(es[1..], exact, row)))
  }

  predicate AnyFails(es: seq<Expr>, exact: set<string>, row: Row)
    decreases es
  {
    |es| > 0 && (Fails(es[0], exact, row) || (!Says(es[0], row) && AnyFails(es[1..], exact, row)))
  }

  /** Every expression on every row: the evaluation fails exactly when it gets to a
      failing leaf, and otherwise keeps the row exactly when the expression with
      the NULLs removed from its `not in` lists is true. */
  lemma {:induction false} RunDecides(e: Expr, exact: set<string>, row: Row)
    ensures Run(e, exact, row) == if Fails(e, exact, row) then Fail else Answers(Says(e, row))
    decreases e
  {
    match e
    case Conj(parts) => RunAllDecides(parts, exact, row);
    case Disj(parts) => RunAnyDecides(parts, exact, row);
    case Leaf(p) => LeafDecides(p, exact, row);
  }

  lemma {:induction false} RunAllDecides(es: seq<Expr>, exact: set<string>, row: Row)
    ensures RunAll(es, exact, row) ==
      if AllFails(es, exact, row) then Fail else Answers(MeaningAll(StripEach(es), row) == True)
    decreases es
  {
    if |es| > 0 {
      RunDecides(es[0], exact, row);
      RunAllDecides(es[1..], exact, row);
      assert StripEach(es)[0] == Strip(es[0]) && StripEach(es)[1..] == StripEach(es[1..]);
    }
  }

  lemma {:induction false} RunAnyDecides(es: seq<Expr>, exact: set<string>, row: Row)
    ensures RunAny(es, exact, row) ==
      if AnyFails(es, exact, row) then Fail else Answers(MeaningAny(StripEach(es), row) == True)
    decreases es
  {
    if |es| > 0 {
      RunDecides(es[0], exact, row);
      RunAnyDecides(es[1..], exact, row);
      assert StripEach(es)[0] == Strip(es[0]) && StripEach(es)[1..] == StripEach(es[1..]);
    }
  }

  /** Removing NULLs from `not in` lists makes no row less true. */
  lemma {:induction false} TrueStaysTrue(e: Expr, row: Row)
    requires Meaning(e, row) == True
    ensures Says(e, row)
    decreases e
  {
    match e
    case Conj(parts) => AllStayTrue(parts, row);
    case Disj(parts) => OneStaysTrue(parts, row);
    case Leaf(p) =>
      var c := CellOf(row, p.column);
      if c.Of? && p.value.Many? {
        AmongDecides(c.rank, p.value.cells);
        AmongDecides(c.rank, WithoutNulls(p.value.cells));
      }
  }

  lemma {:induction false} AllStayTrue(es: seq<Expr>, row: Row)
    requires MeaningAll(es, row) == True
    ensures MeaningAll(StripEach(es), row) == True
    decreases es
  {
    if |es| > 0 {
      TrueStaysTrue(es[0], row);
      AllStayTrue(es[1..], row);
      assert StripEach(es)[0] == Strip(es[0]) && StripEach(es)[1..] == StripEach(es[1..]);
    }
  }

  lemma {:induction false} OneStaysTrue(es: seq<Expr>, row: Row)
    requires MeaningAny(es, row) == True
    ensures MeaningAny(StripEach(es), row) == True
    decreases es
  {
    if |es| > 0 {
      if Meaning(es[0], row) == True { TrueStaysTrue(es[0], row); } else { OneStaysTrue(es[1..], row); }
      assert StripEach(es)[0] == Strip(es[0]) && StripEach(es)[1..] == StripEach(es[1..]);
    }
  }

  lemma {:induction false} PlainNeverFails(e: Expr, row: Row)
    ensures !Fails(e, {}, row)
    decreases e
  {
    match e
    case Conj(parts) => PlainPartsNeverFail(parts, row);
    case Disj(parts) => PlainPartsNeverFail(parts, row);
    case Leaf(_) =>
  }

  lemma {:induction false} PlainPartsNeverFail(es: seq<Expr>, row: Row)
    ensures !AllFails(es, {}, row) && !AnyFails(es, {}, row)
    decreases es
  {
    if |es| > 0 {
      PlainNeverFails(es[0], row);
      PlainPartsNeverFail(es[1..], row);
    }
  }

  /** Rendering drops no row SQL keeps: such a row is kept, or an exact column's
      list makes the evaluation fail. */
  lemma RenderedDropsNoSqlRow(f: Filter, exact: set<string>, row: Row)
    requires Valid(f) && AllWritable(f) && Eval(f, row) == True
    ensures Render(f).Some? && Run(Render(f).value, exact, row) != Drop
    ensures exact == {} ==> Run(Render(f).value, exact, row) == Keep
  {
    RendersExactly(f);
    RenderKeepsMeaning(f, row);
    TrueStaysTrue(Render(f).value, row);
    RunDecides(Render(f).value, exact, row);
    PlainNeverFails(Render(f).value, row);
  }

  /** No leaf of the rendered tree trips over a NULL. */
  ghost predicate Sound(e: Expr, exact: set<string>)
    decreases e
  {
    match e
    case Conj(parts) => forall i :: 0 <= i < |parts| ==> Sound(parts[i], exact)
    case Disj(parts) => forall i :: 0 <= i < |parts| ==> Sound(parts[i], exact)
    case Leaf(p) => !NullTrips(p, exact)
  }

  lemma {:induction false} RunIsTrue(e: Expr, exact: set<string>, row: Row)
    requires Sound(e, exact)
    ensures Run(e, exact, row) == Answers(Meaning(e, row) == True)
    decreases e
  {
    match e
    case Conj(parts) => PartsTrue(parts, exact, row);
    case Disj(parts) => PartsTrue(parts, exact, row);
    case Leaf(p) => LeafAgreesOn(p, exact, row);
  }

  lemma {:induction false} PartsTrue(es: seq<Expr>, exact: set<string>, row: Row)
    requires forall i :: 0 <= i < |es| ==> Sound(es[i], exact)
    ensures RunAll(es, exact, row) == Answers(MeaningAll(es, row) == True)
    ensures RunAny(es, exact, row) == Answers(MeaningAny(es, row) == True)
    decreases es
  {
    if |es| > 0 {
      RunIsTrue(es[0], exact, row);
      PartsTrue(es[1..], exact, row);
    }
  }

  // ------------------------------------------ what a caller checks on the filter

  /** No list with a NULL ends up under `not in`, or on an exact column, once the
      negations are pushed down. */
  predicate NullSafe(f: Filter, exact: set<string>, negated: bool)
    decreases f
  {
    && (forall i :: 0 <= i < |f.all| ==> NullSafe(f.all[i], exact, negated))
    && (forall i :: 0 <= i < |f.any| ==> NullSafe(f.any[i], exact, negated))
    && (f.not.Some? ==> NullSafe(f.not.value, exact, !negated))
    && (f.where.Some? ==> !NullTrips(if negated then NegatePredicate(f.where.value) else f.where.value, exact))
  }

  lemma {:induction false} NegateTurns(f: Filter, exact: set<string>, negated: bool)
    requires Valid(f) && NullSafe(f, exact, !negated) && Negate(f).Negated?
    ensures NullSafe(Negate(f).filter, exact, negated)
    decreases f
  {
    if |f.all| > 0 {
      EachTurns(f.all, exact, negated);
    } else if |f.any| > 0 {
      EachTurns(f.any, exact, negated);
    }
  }

  lemma {:induction false} EachTurns(fs: seq<Filter>, exact: set<string>, negated: bool)
    requires NegateEach(fs).Some? && forall i :: 0 <= i < |fs| ==> Valid(fs[i]) && NullSafe(fs[i], exact, !negated)
    ensures forall i :: 0 <= i < |fs| ==> NullSafe(NegateEach(fs).value[i], exact, negated)
    decreases fs
  {
    if |fs| > 0 {
      NegateTurns(fs[0], exact, negated);
      EachTurns(fs[1..], exact, negated);
      var out := NegateEach(fs).value;
      assert out[0] == Negate(fs[0]).filter && out[1..] == NegateEach(fs[1..]).value;
    }
  }

  lemma {:induction false} RenderIsSound(f: Filter, exact: set<string>)
    requires Valid(f) && NullSafe(f, exact, false) && Render(f).Some?
    ensures Sound(Render(f).value, exact)
    decreases Size(f), 0
  {
    if |f.all| > 0 {
      EachIsSound(f.all, exact);
    } else if |f.any| > 0 {
      EachIsSound(f.any, exact);
    } else if f.not.Some? {
      NegateIsNot(f.not.value, map[]);
      NegateNoLarger(f.not.value);
      NegateTurns(f.not.value, exact, false);
      RenderIsSound(Negate(f.not.value).filter, exact);
    }
  }

  lemma {:induction false} EachIsSound(fs: seq<Filter>, exact: set<string>)
    requires forall i :: 0 <= i < |fs| ==> Valid(fs[i]) && NullSafe(fs[i], exact, false)
    requires RenderEach(fs).Some?
    ensures forall i :: 0 <= i < |RenderEach(fs).value| ==> Sound(RenderEach(fs).value[i], exact)
    decreases SizeAll(fs), |fs|
  {
    if |fs| > 0 {
      RenderIsSound(fs[0], exact);
      EachIsSound(fs[1..], exact);
      var out := RenderEach(fs).value;
      assert out[0] == Render(fs[0]).value && out[1..] == RenderEach(fs[1..]).value;
    }
  }

  /** The rendered expression, evaluated in two values on decoded rows, lets through
      exactly the rows the filter's SQL keeps, and fails on none. */
  lemma RenderedAcceptsSqlRows(f: Filter, exact: set<string>, row: Row)
    requires Valid(f) && AllWritable(f) && NullSafe(f, exact, false)
    ensures Render(f).Some? && Run(Render(f).value, exact, row) == Answers(Eval(f, row) == True)
  {
    RendersExactly(f);
    RenderIsSound(f, exact);
    RunIsTrue(Render(f).value, exact, row);
    RenderKeepsMeaning(f, row);
  }

  function Where(column: string, op: Operator, value: Value): Filter {
    Filter([], [], None, Some(Predicate(column, op, value)))
  }

  /** A valid filter the two evaluations part on: `not in` over a list with a NULL
      keeps no row in SQL, and lets an unlisted value through once rendered. */
  lemma NullInListParts(column: string, x: int, y: int)
    requires column != "" && x != y
    ensures var f := Where(column, NotIn, Many([Of(x), Null]));
      var row: Row := map[column := Of(y)];
      Valid(f) && Render(f).Some? && Run(Render(f).value, {}, row) == Keep && Eval(f, row) == Unknown
  {
    AmongDecides(y, [Of(x), Null]);
  }

  /** And one the evaluation fails on: `in` over a list that starts with a NULL, on
      an exact column that is not NULL, even where SQL keeps the row. */
  lemma NullInListFails(column: string, x: int)
    requires column != ""
    ensures var f := Where(column, In, Many([Null, Of(x)]));
      var row: Row := map[column := Of(x)];
      Valid(f) && Render(f).Some? && Run(Render(f).value, {column}, row) == Fail && Eval(f, row) == True
  {
    AmongDecides(x, [Null, Of(x)]);
  }

  /** Writing `!` over a leaf instead of negating its operator: the row is kept
      against SQL exactly when the column is NULL. */
  lemma BangWouldKeepNull(p: Predicate, exact: set<string>, row: Row)
    requires ValidPredicate(p) && Writable(p) && !p.op.IsNull? && !p.op.IsNotNull?
    requires Listed(p) ==> Null !in p.value.cells
    ensures var f := Filter([], [], Some(Filter([], [], None, Some(p))), None);
      Bang(RunLeaf(p, exact, row)) == Keep && Eval(f, row) != True <==> CellOf(row, p.column) == Null
  {
    LeafAgreesOn(p, exact, row);
    var c := CellOf(row, p.column);
    if c.Of? && p.value.Many? { AmongDecides(c.rank, p.value.cells); }
  }
}
