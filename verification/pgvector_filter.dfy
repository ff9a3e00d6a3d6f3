/** The metadata filter compiler of the database-backed collection
    (`PGVectorCollection._build_filter_expressions`) and the meaning of the
    condition it builds inside PostgreSQL's WHERE clause.

    A filter is a JSON object. Only its LAST member is looked at. Under the key
    "$and" or "$or" the value is iterated and every element is compiled in
    turn; under any other key (a metadata field) the value must be an object
    whose last member is (operator, operand), the operand a string and the
    operator "$eq" or "$ne". */
module FilterCompiler {
  import opened Exceptions
  import opened Models

  const AndKey := "$and"
  const OrKey := "$or"
  const EqOp := "$eq"
  const NeOp := "$ne"

  const ValueNotStringMessage := "Filter value must be a string"

  function UnsupportedMessage(op: string): string
  {
    "Unsupported operator " + op
  }

  /** The SQL condition that is built. */
  datatype Predicate =
    /** `metadata -> key = CAST(value AS JSONB)` */
    | FieldEq(key: string, value: string)
    /** `metadata -> key != CAST(value AS JSONB)` */
    | FieldNe(key: string, value: string)
    /** `and_(*children)` */
    | All(children: seq<Predicate>)
    /** `or_(*children)` */
    | Any(children: seq<Predicate>)

  /** The results of a list comprehension whose elements may raise: the first
      exception in list order, or every value. */
  function Collect(rs: seq<Result<Predicate>>): (r: Result<seq<Predicate>>)
    ensures r.Ok? <==> forall i :: 0 <= i < |rs| ==> rs[i].Ok?
    ensures r.Ok? ==> |r.value| == |rs| && forall i :: 0 <= i < |rs| ==> rs[i] == Ok(r.value[i])
    ensures r.Err? ==> exists k :: 0 <= k < |rs| && rs[k] == Err(r.error) && forall i :: 0 <= i < k ==> rs[i].Ok?
  {
    if rs == [] then Ok([])
    else
      match rs[0]
      case Err(e) => Err(e)
      case Ok(p) =>
        var rest := Collect(rs[1..]);
        if rest.Err? then
          assert forall i :: 1 <= i < |rs| ==> rs[i] == rs[1..][i - 1];
          Err(rest.error)
        else
          Ok([p] + rest.value)
  }

  /** The exceptions compiling a filter can raise. */
  predicate FilterError(e: Exception)
  {
    e == IndexError || e == KeyError || e == AttributeError || e == TypeError
    || e.CollectionPointFilterError?
  }

  function Combine(key: string, children: seq<Predicate>): Predicate
  {
    if key == AndKey then All(children) else Any(children)
  }

  /** A member whose key is a metadata field: `value.copy().popitem()` takes
      the value's last member, which fails on a non-dict and on an empty
      dict; the operand's type is checked before the operator. */
  function CompileLeaf(key: string, value: Json): (r: Result<Predicate>)
    ensures r.Ok? ==> (r.value.FieldEq? || r.value.FieldNe?) && r.value.key == key
    ensures r.Ok? ==>
      (value.JObj? && value.members != [] && value.members[|value.members| - 1].1 == JStr(r.value.value))
    ensures r.Ok? ==> (r.value.FieldEq? <==> value.members[|value.members| - 1].0 == EqOp)
    ensures r.Err? ==> FilterError(r.error)
  {
    match value
    case JObj(ms) =>
      if ms == [] then Err(KeyError)
      else
        var op := ms[|ms| - 1].0;
        var operand := ms[|ms| - 1].1;
        if !operand.JStr? then Err(CollectionPointFilterError(ValueNotStringMessage))
        else if op == EqOp then Ok(FieldEq(key, operand.s))
        else if op == NeOp then Ok(FieldNe(key, operand.s))
        else Err(CollectionPointFilterError(UnsupportedMessage(op)))
    case _ => Err(AttributeError)
  }

  /** `_build_filter_expressions(col, filter)`. A non-dict has no `.items()`;
      an empty dict has no last item. Iterating a "$and"/"$or" value that is a
      string or a dict yields strings, which have no `.items()`; other
      non-lists cannot be iterated. */
  function Compile(filter: Json): (r: Result<Predicate>)
    ensures !filter.JObj? ==> r == Err(AttributeError)
    ensures r.Ok? ==> Expressible(r.value)
    ensures r.Err? ==> FilterError(r.error)
    decreases filter
  {
    match filter
    case JObj(members) =>
      if |members| == 0 then Err(IndexError)
      else
        var key := members[|members| - 1].0;
        var value := members[|members| - 1].1;
        if key == AndKey || key == OrKey then
          (match value
           case JArr(items) =>
             var rs := seq(|items|, i requires 0 <= i < |items| => Compile(items[i]));
             (match Collect(rs)
              case Ok(ps) =>
                assert forall i :: 0 <= i < |ps| ==> Compile(items[i]) == Ok(ps[i]);
                Ok(Combine(key, ps))
              case Err(e) => Err(e))
           case JStr(s) => if s == "" then Ok(Combine(key, [])) else Err(AttributeError)
           case JObj(ms) => if ms == [] then Ok(Combine(key, [])) else Err(AttributeError)
           case _ => Err(TypeError))
        else CompileLeaf(key, value)
    case _ => Err(AttributeError)
  }

  // ---------------------------------------------------------------------
  // Meaning in PostgreSQL

  /** SQL's three truth values. */
  datatype SqlBool = STrue | SFalse | SNull

  function And3(a: SqlBool, b: SqlBool): SqlBool
  {
    if a == SFalse || b == SFalse then SFalse
    else if a == SNull || b == SNull then SNull
    else STrue
  }

  function Or3(a: SqlBool, b: SqlBool): SqlBool
  {
    if a == STrue || b == STrue then STrue
    else if a == SNull || b == SNull then SNull
    else SFalse
  }

  /** Joins two operands of and_/or_, where None stands for an operand that
      renders as no SQL at all and is dropped. */
  function Join(conj: bool, a: Option<SqlBool>, b: Option<SqlBool>): Option<SqlBool>
  {
    if a.None? then b
    else if b.None? then a
    else Some(if conj then And3(a.value, b.value) else Or3(a.value, b.value))
  }

  function Fold(conj: bool, vs: seq<Option<SqlBool>>): Option<SqlBool>
  {
    if vs == [] then None else Join(conj, vs[0], Fold(conj, vs[1..]))
  }

  /** The value of a predicate on a row's metadata. `metadata -> key` is SQL
      NULL when the key is absent, and a stored JSON value equals the cast
      operand only when it is that very string. An and_()/or_() with no
      operands renders as nothing (None), and so does one whose operands all
      render as nothing. */
  function Eval(p: Predicate, md: Metadata): (r: Option<SqlBool>)
    ensures r.None? <==> Blank(p)
    ensures (p.FieldEq? || p.FieldNe?) && p.key !in md ==> r == Some(SNull)
  {
    match p
    case FieldEq(k, v) => Some(if k !in md then SNull else if md[k] == JStr(v) then STrue else SFalse)
    case FieldNe(k, v) => Some(if k !in md then SNull else if md[k] == JStr(v) then SFalse else STrue)
    case All(cs) =>
      var vs := seq(|cs|, i requires 0 <= i < |cs| => Eval(cs[i], md));
      assert forall i :: 0 <= i < |cs| ==> vs[i] == Eval(cs[i], md);
      FoldBlank(true, vs);
      Fold(true, vs)
    case Any(cs) =>
      var vs := seq(|cs|, i requires 0 <= i < |cs| => Eval(cs[i], md));
      assert forall i :: 0 <= i < |cs| ==> vs[i] == Eval(cs[i], md);
      FoldBlank(false, vs);
      Fold(false, vs)
  }

  /** A condition made of and_()/or_() groups only, with no comparison inside:
      it renders as no SQL at all. */
  predicate Blank(p: Predicate)
  {
    match p
    case FieldEq(_, _) => false
    case FieldNe(_, _) => false
    case All(cs) => forall i :: 0 <= i < |cs| ==> Blank(cs[i])
    case Any(cs) => forall i :: 0 <= i < |cs| ==> Blank(cs[i])
  }

  /** WHERE keeps a row when its condition is TRUE, or when it renders as nothing. */
  predicate Passes(p: Predicate, md: Metadata): (r: bool)
    ensures Blank(p) ==> r
    ensures p.FieldEq? ==> (r <==> p.key in md && md[p.key] == JStr(p.value))
    ensures p.FieldNe? ==> (r <==> p.key in md && md[p.key] != JStr(p.value))
  {
    Eval(p, md) == None || Eval(p, md) == Some(STrue)
  }

  // ---------------------------------------------------------------------
  // Properties

  /** Only the last member of a filter object is compiled. The object is a
      Python dict, so its last key occurs nowhere before. */
  lemma OnlyLastMemberCounts(members: seq<(string, Json)>, key: string, value: Json)
    requires forall i :: 0 <= i < |members| ==> members[i].0 != key
    ensures Compile(JObj(members + [(key, value)])) == Compile(JObj([(key, value)]))
  {
  }

  /** The inputs that fail with something other than CollectionPointFilterError:
      an empty object, a non-object, an operator object that is empty or not
      an object. */
  lemma MalformedFilterErrors(key: string, leaf: Json)
    requires key != AndKey && key != OrKey
    ensures Compile(JObj([])) == Err(IndexError)
    ensures !leaf.JObj? ==> Compile(JObj([(key, leaf)])) == Err(AttributeError)
    ensures Compile(JObj([(key, JObj([]))])) == Err(KeyError)
  {
  }

  /** A leaf's operand must be a string, whatever the operator; and then only
      "$eq" and "$ne" are supported, the error naming the operator. */
  lemma LeafErrors(key: string, ops: seq<(string, Json)>, op: string, operand: Json)
    requires key != AndKey && key != OrKey
    ensures !operand.JStr? ==>
      Compile(JObj([(key, JObj(ops + [(op, operand)]))])) == Err(CollectionPointFilterError("Filter value must be a string"))
    ensures operand.JStr? && op != "$eq" && op != "$ne" ==>
      Compile(JObj([(key, JObj(ops + [(op, operand)]))])) == Err(CollectionPointFilterError("Unsupported operator " + op))
  {
  }

  /** A "$and"/"$or" list whose elements all compile yields the and_/or_ of
      their conditions, in list order, whatever form each element has. */
  lemma CombinatorCompilesChildren(key: string, items: seq<Json>, ps: seq<Predicate>)
    requires key == AndKey || key == OrKey
    requires |ps| == |items| && forall i :: 0 <= i < |items| ==> Compile(items[i]) == Ok(ps[i])
    ensures Compile(JObj([(key, JArr(items))])) == Ok(Combine(key, ps))
  {
    var rs := seq(|items|, i requires 0 <= i < |items| => Compile(items[i]));
    assert Collect(rs).Ok?;
    assert Collect(rs).value == ps;
  }

  /** In a "$and"/"$or" list, the first element that fails to compile decides
      the error; the elements after it are not looked at. */
  lemma FirstChildErrorPropagates(key: string, items: seq<Json>, k: nat)
    requires key == AndKey || key == OrKey
    requires k < |items| && Compile(items[k]).Err?
    requires forall i :: 0 <= i < k ==> Compile(items[i]).Ok?
    ensures Compile(JObj([(key, JArr(items))])) == Compile(items[k])
  {
    var rs := seq(|items|, i requires 0 <= i < |items| => Compile(items[i]));
    var c := Collect(rs);
    assert rs[k].Err?;
    var k' :| 0 <= k' < |rs| && rs[k'] == Err(c.error) && forall i :: 0 <= i < k' ==> rs[i].Ok?;
    assert k' == k;
  }

  /** A row passes a conjunction exactly when it passes every operand. */
  lemma {:induction false} FoldAndPasses(vs: seq<Option<SqlBool>>)
    ensures (Fold(true, vs) == None || Fold(true, vs) == Some(STrue)) <==>
      forall i :: 0 <= i < |vs| ==> vs[i] == None || vs[i] == Some(STrue)
  {
    if vs != [] {
      FoldAndPasses(vs[1..]);
      assert forall i :: 1 <= i < |vs| ==> vs[i] == vs[1..][i - 1];
    }
  }

  /** A disjunction renders as nothing exactly when every operand does. */
  lemma {:induction false} FoldBlank(conj: bool, vs: seq<Option<SqlBool>>)
    ensures Fold(conj, vs) == None <==> forall i :: 0 <= i < |vs| ==> vs[i] == None
  {
    if vs != [] {
      FoldBlank(conj, vs[1..]);
      assert forall i :: 1 <= i < |vs| ==> vs[i] == vs[1..][i - 1];
    }
  }

  /** A disjunction is TRUE exactly when some operand is TRUE. */
  lemma {:induction false} FoldOrTrue(vs: seq<Option<SqlBool>>)
    ensures Fold(false, vs) == Some(STrue) <==> exists i :: 0 <= i < |vs| && vs[i] == Some(STrue)
  {
    if vs != [] {
      FoldOrTrue(vs[1..]);
      FoldBlank(false, vs[1..]);
      assert forall i :: 1 <= i < |vs| ==> vs[i] == vs[1..][i - 1];
      if vs[0] != Some(STrue) && exists i :: 0 <= i < |vs| && vs[i] == Some(STrue) {
        var i :| 0 <= i < |vs| && vs[i] == Some(STrue);
        assert vs[1..][i - 1] == Some(STrue);
      }
    }
  }

  /** "$and" keeps a row exactly when every element's condition keeps it. */
  lemma AndFilterPasses(children: seq<Predicate>, md: Metadata)
    ensures Passes(All(children), md) <==> forall i :: 0 <= i < |children| ==> Passes(children[i], md)
  {
    var vs := seq(|children|, i requires 0 <= i < |children| => Eval(children[i], md));
    FoldAndPasses(vs);
    assert forall i :: 0 <= i < |children| ==> vs[i] == Eval(children[i], md);
  }

  /** "$or" keeps a row exactly when some element's condition is TRUE for it,
      or when no element renders any SQL. A FALSE or NULL element does not
      keep it. */
  lemma OrFilterPasses(children: seq<Predicate>, md: Metadata)
    ensures Passes(Any(children), md) <==>
      (forall i :: 0 <= i < |children| ==> Eval(children[i], md) == None)
      || exists i :: 0 <= i < |children| && Eval(children[i], md) == Some(STrue)
  {
    var vs := seq(|children|, i requires 0 <= i < |children| => Eval(children[i], md));
    FoldOrTrue(vs);
    FoldBlank(false, vs);
    assert forall i :: 0 <= i < |children| ==> vs[i] == Eval(children[i], md);
  }

  /** `{field: {"$eq": v}}` keeps exactly the rows whose metadata holds the
      string v under field; `{field: {"$ne": v}}` keeps exactly the rows that
      hold some other value under field. A row without the field passes
      neither: its `->` lookup is NULL. */
  lemma LeafFilterSemantics(field: string, v: string, md: Metadata)
    requires field != AndKey && field != OrKey
    ensures Compile(JObj([(field, JObj([(EqOp, JStr(v))]))])) == Ok(FieldEq(field, v))
    ensures Compile(JObj([(field, JObj([(NeOp, JStr(v))]))])) == Ok(FieldNe(field, v))
    ensures Passes(FieldEq(field, v), md) <==> field in md && md[field] == JStr(v)
    ensures Passes(FieldNe(field, v), md) <==> field in md && md[field] != JStr(v)
  {
  }

  /** An empty "$and"/"$or" list compiles to a condition that keeps every row. */
  lemma EmptyCombinatorKeepsAll(key: string, md: Metadata)
    requires key == AndKey || key == OrKey
    ensures Compile(JObj([(key, JArr([]))])).Ok?
    ensures Passes(Compile(JObj([(key, JArr([]))])).value, md)
  {
  }

  // ---------------------------------------------------------------------
  // Round trip: every condition whose fields are not named "$and" or "$or"
  // is built from exactly one canonical filter

  /** No field of the condition is named like a combinator. */
  predicate Expressible(p: Predicate)
  {
    match p
    case FieldEq(k, _) => k != AndKey && k != OrKey
    case FieldNe(k, _) => k != AndKey && k != OrKey
    case All(cs) => forall i :: 0 <= i < |cs| ==> Expressible(cs[i])
    case Any(cs) => forall i :: 0 <= i < |cs| ==> Expressible(cs[i])
  }

  /** The canonical filter object for a condition. */
  function Render(p: Predicate): Json
  {
    match p
    case FieldEq(k, v) => JObj([(k, JObj([(EqOp, JStr(v))]))])
    case FieldNe(k, v) => JObj([(k, JObj([(NeOp, JStr(v))]))])
    case All(cs) => JObj([(AndKey, JArr(seq(|cs|, i requires 0 <= i < |cs| => Render(cs[i]))))])
    case Any(cs) => JObj([(OrKey, JArr(seq(|cs|, i requires 0 <= i < |cs| => Render(cs[i]))))])
  }

  lemma {:induction false} CompileRender(p: Predicate)
    requires Expressible(p)
    ensures Compile(Render(p)) == Ok(p)
  {
    match p
    case FieldEq(k, v) =>
    case FieldNe(k, v) =>
    case All(cs) => CompileRenderChildren(p, cs);
    case Any(cs) => CompileRenderChildren(p, cs);
  }

  lemma {:induction false} CompileRenderChildren(p: Predicate, cs: seq<Predicate>)
    requires (p.All? || p.Any?) && cs == p.children && Expressible(p)
    ensures Compile(Render(p)) == Ok(p)
    decreases p, 0
  {
    var items := seq(|cs|, i requires 0 <= i < |cs| => Render(cs[i]));
    forall i | 0 <= i < |cs| ensures Compile(items[i]) == Ok(cs[i]) {
      CompileRender(cs[i]);
    }
    var rs := seq(|items|, i requires 0 <= i < |items| => Compile(items[i]));
    var c := Collect(rs);
    assert c.Ok?;
    assert c.value == cs;
  }

  // ---------------------------------------------------------------------
  // The SQL text SQLAlchemy 2 renders for the condition

  /** SQLAlchemy's clause objects: a comparison, a `BooleanClauseList`
      (`conj` for and_, otherwise or_) and a parenthesised `Grouping`. */
  datatype Clause =
    | Comparison(p: Predicate)
    | ClauseList(conj: bool, clauses: seq<Clause>)
    | Grouping(element: Clause)

  /** `self_group(against=...)` of an operand of and_/or_: an or_ list with
      operands placed among the operands of an and_ is parenthesised, since OR
      binds more loosely than AND; nothing else is. */
  function SelfGroup(c: Clause, againstConj: bool): Clause
  {
    if c.ClauseList? && c.clauses != [] && !c.conj && againstConj then Grouping(c) else c
  }

  /** Operands that are lists of the same operator are replaced by their own
      operands. */
  function Splice(conj: bool, xs: seq<Clause>): seq<Clause>
  {
    if xs == [] then []
    else (if xs[0].ClauseList? && xs[0].conj == conj then xs[0].clauses else [xs[0]]) + Splice(conj, xs[1..])
  }

  /** `and_(*xs)` / `or_(*xs)`: no operand gives an empty list; a single
      operand is returned as it is; two or more are each grouped against the
      operator, and then lists of that same operator are flattened. */
  function Construct(conj: bool, xs: seq<Clause>): Clause
  {
    if |xs| == 0 then ClauseList(conj, [])
    else if |xs| == 1 then xs[0]
    else ClauseList(conj, Splice(conj, seq(|xs|, i requires 0 <= i < |xs| => SelfGroup(xs[i], conj))))
  }

  /** The clause object the compiler's and_/or_ calls assemble. */
  function Build(p: Predicate): Clause
  {
    match p
    case All(cs) => Construct(true, seq(|cs|, i requires 0 <= i < |cs| => Build(cs[i])))
    case Any(cs) => Construct(false, seq(|cs|, i requires 0 <= i < |cs| => Build(cs[i])))
    case _ => Comparison(p)
  }

  /** The clause renders as the empty string. A list joins the text of its
      operands leaving out the empty ones; a Grouping always writes its
      parentheses. */
  predicate RendersEmpty(c: Clause)
  {
    match c
    case Comparison(_) => false
    case ClauseList(_, cl) => forall x :: x in cl ==> RendersEmpty(x)
    case Grouping(_) => false
  }

  /** The rendered text holds "()": a Grouping around a clause that renders
      as the empty string. */
  predicate EmptyParens(c: Clause)
  {
    match c
    case Comparison(_) => false
    case ClauseList(_, cl) => exists x :: x in cl && EmptyParens(x)
    case Grouping(e) => RendersEmpty(e) || EmptyParens(e)
  }

  /** The condition's SQL holds no "()", which PostgreSQL refuses as a syntax
      error. */
  predicate Renderable(p: Predicate)
  {
    !EmptyParens(Build(p))
  }

  /** An or_ of two or more empty and_() groups is blank and renders as
      nothing on its own; as the sibling of another condition under an and_
      it is parenthesised and renders as "()". */
  lemma BlankDisjunctionUnderConjunction(a: Predicate, n: nat)
    requires n >= 2
    ensures Blank(Any(seq(n, _ => All([])))) && Renderable(Any(seq(n, _ => All([]))))
    ensures !Renderable(All([a, Any(seq(n, _ => All([])))]))
  {
    var blanks := seq(n, _ => All([]));
    var xs := seq(n, i requires 0 <= i < n => Build(blanks[i]));
    var ys := seq(n, i requires 0 <= i < n => SelfGroup(xs[i], false));
    assert forall i :: 0 <= i < n ==> ys[i] == ClauseList(true, []);
    SpliceOtherOperator(false, ys);
    var b := Build(Any(blanks));
    assert b == ClauseList(false, ys);
    forall y | y in ys ensures RendersEmpty(y) && !EmptyParens(y) {
      assert y == ClauseList(true, []);
    }
    assert RendersEmpty(b) && !EmptyParens(b);
    var g := SelfGroup(b, true);
    assert g == Grouping(b) && EmptyParens(g);
    var x := SelfGroup(Build(a), true);
    var cs := [a, Any(blanks)];
    var bs := seq(|cs|, i requires 0 <= i < |cs| => Build(cs[i]));
    assert bs == [Build(a), b];
    var zs := seq(|bs|, i requires 0 <= i < |bs| => SelfGroup(bs[i], true));
    assert zs == [x, g];
    assert Splice(true, [g]) == [g];
    assert Splice(true, zs) == (if x.ClauseList? && x.conj then x.clauses else [x]) + [g];
    assert Build(All([a, Any(blanks)])) == ClauseList(true, Splice(true, zs));
  }

  /** Flattening keeps a list in which no operand has the operator. */
  lemma {:induction false} SpliceOtherOperator(conj: bool, xs: seq<Clause>)
    requires forall i :: 0 <= i < |xs| ==> !(xs[i].ClauseList? && xs[i].conj == conj)
    ensures Splice(conj, xs) == xs
  {
    if xs != [] {
      SpliceOtherOperator(conj, xs[1..]);
    }
  }

  /** A filter without an empty "$and"/"$or" list. */
  predicate NoEmptyList(p: Predicate)
  {
    match p
    case FieldEq(_, _) => true
    case FieldNe(_, _) => true
    case All(cs) => cs != [] && forall i :: 0 <= i < |cs| ==> NoEmptyList(cs[i])
    case Any(cs) => cs != [] && forall i :: 0 <= i < |cs| ==> NoEmptyList(cs[i])
  }

  /** A filter without an empty "$and"/"$or" list renders as SQL that is not
      empty and holds no "()". */
  lemma {:induction false} NoEmptyListRenders(p: Predicate)
    requires NoEmptyList(p)
    ensures Renderable(p) && !RendersEmpty(Build(p))
  {
    match p
    case FieldEq(_, _) =>
    case FieldNe(_, _) =>
    case All(cs) => NoEmptyListRendersList(p, true, cs);
    case Any(cs) => NoEmptyListRendersList(p, false, cs);
  }

  lemma {:induction false} NoEmptyListRendersList(p: Predicate, conj: bool, cs: seq<Predicate>)
    requires (p.All? || p.Any?) && cs == p.children && conj == p.All? && NoEmptyList(p)
    ensures Renderable(p) && !RendersEmpty(Build(p))
    decreases p, 0
  {
    var xs := seq(|cs|, i requires 0 <= i < |cs| => Build(cs[i]));
    forall i | 0 <= i < |cs| ensures !RendersEmpty(xs[i]) && !EmptyParens(xs[i]) {
      NoEmptyListRenders(cs[i]);
    }
    if |cs| >= 2 {
      var ys := seq(|xs|, i requires 0 <= i < |xs| => SelfGroup(xs[i], conj));
      assert forall i :: 0 <= i < |ys| ==> !RendersEmpty(ys[i]) && !EmptyParens(ys[i]);
      SpliceNoParens(conj, ys);
      var head := if ys[0].ClauseList? && ys[0].conj == conj then ys[0].clauses else [ys[0]];
      var w :| w in head && !RendersEmpty(w);
      assert Splice(conj, ys) == head + Splice(conj, ys[1..]);
      assert w in Splice(conj, ys);
    }
  }

  /** Flattening brings in no "()" that was not there. */
  lemma {:induction false} SpliceNoParens(conj: bool, xs: seq<Clause>)
    requires forall i :: 0 <= i < |xs| ==> !EmptyParens(xs[i])
    ensures forall x :: x in Splice(conj, xs) ==> !EmptyParens(x)
  {
    if xs != [] {
      SpliceNoParens(conj, xs[1..]);
      assert !EmptyParens(xs[0]);
    }
  }
}
