/** Row-level grants: nested conditions are executed against the store and
    rendered into the filter a query runs with. Filters are syntax trees. */
module Grants {
  import opened Bytes
  import opened Sets

  datatype Result<+T> = Ok(value: T) | Err

  datatype Op = Eq | Ne | Gt | Lt | Ge | Le

  /** A row; a column it does not have is NULL. */
  type Row = map<string, string>

  datatype Table = Table(columns: set<string>, rows: seq<Row>)

  type Db = map<string, Table>

  /** The Unicode White_Space characters. */
  predicate IsSpace(c: char) {
    var n := c as int;
    9 <= n <= 13 || n == 0x20 || n == 0x85 || n == 0xA0 || n == 0x1680 || 0x2000 <= n <= 0x200A ||
    n == 0x2028 || n == 0x2029 || n == 0x202F || n == 0x205F || n == 0x3000
  }

  /** `is_token_safe`: fit to stand in a membership list as one token. */
  predicate TokenSafe(v: string) {
    v != "" && forall i :: 0 <= i < |v| ==> !IsSpace(v[i]) && v[i] != '(' && v[i] != ')' && v[i] != '\''
  }

  /** The typed comparison of a column, whether unfit values are dropped from
      subquery results, as the server does, and which tables grants may not read. */
  datatype Env = Env(cmp: (string, string, Op, string, string) -> bool, dropping: bool, reserved: string -> bool)

  predicate Fit(env: Env, v: string) {
    env.dropping ==> TokenSafe(v)
  }

  const MAX_MEMBERSHIP := 100_000

  // ---- Grants and their meaning ------------------------------------------

  /** A resolved condition, with subqueries nested to any depth. */
  datatype Condition =
    | Cmp(column: string, op: Op, value: string)
    | InSub(column: string, negated: bool, table: string, projected: string, inner: seq<Condition>)

  /** A comparison with a row; only `!=` holds of NULL. */
  predicate Compares(env: Env, table: string, row: Row, column: string, op: Op, value: string) {
    if column in row then env.cmp(table, column, op, row[column], value) else op == Ne
  }

  /** Membership of a row's column in a set of values. Everything is outside the
      empty set; NULL is otherwise neither inside nor outside. */
  predicate IsMember(env: Env, table: string, row: Row, column: string, negated: bool, values: set<string>) {
    if values == {} then negated
    else column in row && negated != (exists v <- values :: env.cmp(table, column, Eq, row[column], v))
  }

  /** Does the condition hold of a row of `table`? */
  predicate Holds(env: Env, db: Db, table: string, row: Row, c: Condition)
    decreases c, 0
  {
    match c
    case Cmp(column, op, value) => Compares(env, table, row, column, op, value)
    case InSub(column, negated, t, projected, inner) =>
      IsMember(env, table, row, column, negated, Subquery(env, db, t, projected, inner))
  }

  predicate HoldAll(env: Env, db: Db, table: string, row: Row, cs: seq<Condition>)
    decreases cs, 0
  {
    forall i | 0 <= i < |cs| :: Holds(env, db, table, row, cs[i])
  }

  /** The values a subquery selects. Values unfit for a membership list are left out. */
  function Subquery(env: Env, db: Db, table: string, projected: string, inner: seq<Condition>): set<string>
    decreases inner, 1
  {
    if table !in db then {}
    else
      set row | row in db[table].rows && projected in row && Fit(env, row[projected]) &&
                HoldAll(env, db, table, row, inner) :: row[projected]
  }

  /** A grant: some alternative holds entirely. */
  predicate Allows(env: Env, db: Db, table: string, row: Row, alternatives: seq<seq<Condition>>) {
    exists i | 0 <= i < |alternatives| :: HoldAll(env, db, table, row, alternatives[i])
  }

  // ---- Enforced conditions and filters -----------------------------------

  /** A condition whose subquery has become a list of values. */
  datatype Enforced =
    | Test(column: string, op: Op, value: string)
    | InSet(column: string, negated: bool, values: seq<string>)

  function AsSet(values: seq<string>): set<string> {
    set v | v in values
  }

  predicate Enforces(env: Env, table: string, row: Row, e: Enforced) {
    match e
    case Test(column, op, value) => Compares(env, table, row, column, op, value)
    case InSet(column, negated, values) => IsMember(env, table, row, column, negated, AsSet(values))
  }

  predicate EnforcesAll(env: Env, table: string, row: Row, es: seq<Enforced>) {
    forall i | 0 <= i < |es| :: Enforces(env, table, row, es[i])
  }

  /** One clause of a WHERE: a conjunction of these is a filter. */
  datatype Clause =
    | Single(column: string, op: Op, value: string)
    | IsNull(column: string)
    | IsNotNull(column: string)
    | Member(column: string, negated: bool, values: seq<string>)
    | AnyOf(clauses: seq<Clause>)

  /** How the query engine evaluates a clause. */
  predicate Matches(env: Env, table: string, row: Row, c: Clause) {
    match c
    case Single(column, op, value) => Compares(env, table, row, column, op, value)
    case IsNull(column) => column !in row
    case IsNotNull(column) => column in row
    case Member(column, negated, values) =>
      column in row && negated != (exists i | 0 <= i < |values| :: env.cmp(table, column, Eq, row[column], values[i]))
    case AnyOf(clauses) => exists i | 0 <= i < |clauses| :: Matches(env, table, row, clauses[i])
  }

  predicate MatchesAll(env: Env, table: string, row: Row, cs: seq<Clause>) {
    forall i | 0 <= i < |cs| :: Matches(env, table, row, cs[i])
  }

  lemma MemberIsMember(env: Env, table: string, row: Row, column: string, negated: bool, values: seq<string>)
    requires values != []
    ensures Matches(env, table, row, Member(column, negated, values)) <==>
            IsMember(env, table, row, column, negated, AsSet(values))
  {
    assert values[0] in AsSet(values);
    if column in row {
      assert (exists v <- AsSet(values) :: env.cmp(table, column, Eq, row[column], v)) <==>
             (exists i | 0 <= i < |values| :: env.cmp(table, column, Eq, row[column], values[i]));
    }
  }

  /** The clauses of one condition: a contradiction for an empty positive set,
      nothing for an empty negated one. */
  function ClausesOf(e: Enforced): seq<Clause> {
    match e
    case Test(column, op, value) => [Single(column, op, value)]
    case InSet(column, negated, values) =>
      if values != [] then [Member(column, negated, values)]
      else if negated then []
      else [IsNull(column), IsNotNull(column)]
  }

  lemma ClausesMean(env: Env, table: string, row: Row, e: Enforced)
    ensures MatchesAll(env, table, row, ClausesOf(e)) <==> Enforces(env, table, row, e)
  {
    hide IsMember, Compares;
    var cs := ClausesOf(e);
    match e {
      case Test(_, _, _) =>
        assert cs[0] == Single(e.column, e.op, e.value);
      case InSet(column, negated, values) =>
        if values != [] {
          assert cs[0] == Member(column, negated, values);
          MemberIsMember(env, table, row, column, negated, values);
        } else {
          assert AsSet(values) == {};
          EmptySet(env, table, row, column, negated);
          assert !negated ==> cs[0] == IsNull(column) && cs[1] == IsNotNull(column);
        }
    }
  }

  lemma EmptySet(env: Env, table: string, row: Row, column: string, negated: bool)
    ensures IsMember(env, table, row, column, negated, {}) <==> negated
  {
  }

  lemma MatchesBoth(env: Env, table: string, row: Row, a: seq<Clause>, b: seq<Clause>)
    ensures MatchesAll(env, table, row, a + b) <==> MatchesAll(env, table, row, a) && MatchesAll(env, table, row, b)
  {
    hide Matches;
    if MatchesAll(env, table, row, a + b) {
      forall i | 0 <= i < |a| ensures Matches(env, table, row, a[i]) { assert (a + b)[i] == a[i]; }
      forall i | 0 <= i < |b| ensures Matches(env, table, row, b[i]) { assert (a + b)[|a| + i] == b[i]; }
    }
  }

  // ---- The shape of filters ----------------------------------------------

  /** The columns a filter may name and the values its lists may hold. */
  datatype Terms = Terms(columns: set<string>, values: set<string>)

  /** A clause on one of the columns, with a list where it needs one. */
  predicate PlainClause(c: Clause, terms: Terms) {
    !c.AnyOf? && c.column in terms.columns && (c.Member? ==> c.values != [] && AsSet(c.values) <= terms.values)
  }

  predicate PlainClauses(cs: seq<Clause>, terms: Terms) {
    forall i {:trigger cs[i]} :: 0 <= i < |cs| ==> PlainClause(cs[i], terms)
  }

  /** A plain clause or a group of several. */
  predicate Shaped(c: Clause, terms: Terms) {
    if c.AnyOf? then |c.clauses| > 1 && PlainClauses(c.clauses, terms) else PlainClause(c, terms)
  }

  predicate ShapedFilter(cs: seq<Clause>, terms: Terms) {
    forall i {:trigger cs[i]} :: 0 <= i < |cs| ==> Shaped(cs[i], terms)
  }

  /** The values a condition may put in a list: one it tests equality with may
      be pooled with others. */
  function Listed(e: Enforced): set<string> {
    if e.InSet? then AsSet(e.values) else if e.op == Eq then {e.value} else {}
  }

  predicate ColumnsIn(es: seq<Enforced>, terms: Terms) {
    forall i {:trigger es[i]} :: 0 <= i < |es| ==> es[i].column in terms.columns && Listed(es[i]) <= terms.values
  }

  predicate AllColumnsIn(clauses: seq<seq<Enforced>>, terms: Terms) {
    forall i {:trigger clauses[i]} :: 0 <= i < |clauses| ==> ColumnsIn(clauses[i], terms)
  }

  lemma {:induction false} ConjunctionShaped(es: seq<Enforced>, terms: Terms)
    requires ColumnsIn(es, terms)
    ensures PlainClauses(Conjunction(es), terms)
  {
    if es != [] {
      ConjunctionShaped(es[..|es| - 1], terms);
    }
  }

  // ---- Conjunctions ------------------------------------------------------

  /** `inner_conds_to_where` and `render_enforced_clause`: one condition after another. */
  method ConjunctionFilter(es: seq<Enforced>) returns (out: seq<Clause>)
    ensures forall env: Env, table: string, row: Row ::
              MatchesAll(env, table, row, out) <==> EnforcesAll(env, table, row, es)
    ensures forall terms: Terms :: ColumnsIn(es, terms) ==> PlainClauses(out, terms)
  {
    out := Conjunction([]);
    var i := 0;
    while i < |es|
      invariant i <= |es| && out == Conjunction(es[..i])
    {
      assert es[..i + 1][..i] == es[..i];
      match es[i] {
        case Test(column, op, value) => out := out + [Single(column, op, value)];
        case InSet(column, negated, values) =>
          if values == [] {
            if !negated {
              out := out + [IsNull(column), IsNotNull(column)];
            } else {
              assert out + [] == out;
            }
          } else {
            out := out + [Member(column, negated, values)];
          }
      }
      i := i + 1;
    }
    assert es[..i] == es;
    forall terms: Terms | ColumnsIn(es, terms)
      ensures PlainClauses(out, terms)
    {
      ConjunctionShaped(es, terms);
    }
    forall env: Env, table: string, row: Row
      ensures MatchesAll(env, table, row, out) <==> EnforcesAll(env, table, row, es)
    {
      ConjunctionMeans(env, table, row, es);
    }
  }

  function Conjunction(es: seq<Enforced>): seq<Clause> {
    if es == [] then [] else Conjunction(es[..|es| - 1]) + ClausesOf(es[|es| - 1])
  }

  lemma {:induction false} ConjunctionMeans(env: Env, table: string, row: Row, es: seq<Enforced>)
    ensures MatchesAll(env, table, row, Conjunction(es)) <==> EnforcesAll(env, table, row, es)
  {
    hide MatchesAll, EnforcesAll, ClausesOf, Enforces;
    AllButLast(env, table, row, es);
    if es != [] {
      var front, last := es[..|es| - 1], es[|es| - 1];
      ConjunctionMeans(env, table, row, front);
      ClausesMean(env, table, row, last);
      MatchesBoth(env, table, row, Conjunction(front), ClausesOf(last));
    }
  }

  lemma AllButLast(env: Env, table: string, row: Row, es: seq<Enforced>)
    ensures MatchesAll(env, table, row, [])
    ensures EnforcesAll(env, table, row, es) <==>
            es == [] || (EnforcesAll(env, table, row, es[..|es| - 1]) && Enforces(env, table, row, es[|es| - 1]))
  {
    hide Enforces, Matches;
    if es != [] {
      var front, last := es[..|es| - 1], es[|es| - 1];
      assert forall i | 0 <= i < |es| :: es[i] == if i < |front| then front[i] else last;
    }
  }

  // ---- Executing subqueries ----------------------------------------------

  /** The row matches and has a fit value in the projected column. */
  predicate Contributes(env: Env, table: string, row: Row, filter: seq<Clause>, projected: string) {
    projected in row && Fit(env, row[projected]) && MatchesAll(env, table, row, filter)
  }

  function ValuesFrom(env: Env, table: string, rows: seq<Row>, filter: seq<Clause>, projected: string): set<string> {
    set row | row in rows && Contributes(env, table, row, filter, projected) :: row[projected]
  }

  /** What a scan of a table returns for a filter. */
  function Selected(env: Env, db: Db, table: string, filter: seq<Clause>, projected: string): set<string>
    requires table in db
  {
    ValuesFrom(env, table, db[table].rows, filter, projected)
  }

  lemma OneMoreRow(env: Env, table: string, rows: seq<Row>, i: nat, filter: seq<Clause>, projected: string)
    requires i < |rows|
    ensures ValuesFrom(env, table, rows[..i + 1], filter, projected) ==
            ValuesFrom(env, table, rows[..i], filter, projected) +
            if Contributes(env, table, rows[i], filter, projected) then {rows[i][projected]} else {}
    ensures ValuesFrom(env, table, rows[..i + 1], filter, projected) <= ValuesFrom(env, table, rows, filter, projected)
  {
    hide MatchesAll;
    assert rows[..i + 1] == rows[..i] + [rows[i]];
  }

  /** `scan_projected_column`: the distinct fit values of the matching rows. */
  method Scan(env: Env, db: Db, table: string, filter: seq<Clause>, projected: string) returns (r: Result<seq<string>>)
    ensures r.Ok? <==> table in db && projected in db[table].columns &&
                       |Selected(env, db, table, filter, projected)| <= MAX_MEMBERSHIP
    ensures r.Ok? ==> AsSet(r.value) == Selected(env, db, table, filter, projected) && |r.value| == |AsSet(r.value)|
  {
    hide ValuesFrom, MatchesAll;
    if table !in db || projected !in db[table].columns {
      return Err;
    }
    var rows, out, i := db[table].rows, [], 0;
    ghost var seen: set<string> := {};
    NoRows(env, table, filter, projected);
    while i < |rows|
      invariant i <= |rows| && AsSet(out) == seen && |out| == |seen| <= MAX_MEMBERSHIP
      invariant seen == ValuesFrom(env, table, rows[..i], filter, projected)
    {
      OneMoreRow(env, table, rows, i, filter, projected);
      if Contributes(env, table, rows[i], filter, projected) {
        var v := rows[i][projected];
        assert v in out <==> v in AsSet(out);
        if v !in out {
          if |out| >= MAX_MEMBERSHIP {
            SmallerSet(seen + {v}, Selected(env, db, table, filter, projected));
            return Err;
          }
          out, seen := out + [v], seen + {v};
        }
      }
      i := i + 1;
    }
    assert rows[..i] == rows;
    return Ok(out);
  }

  lemma NoRows(env: Env, table: string, filter: seq<Clause>, projected: string)
    ensures forall rows: seq<Row> :: ValuesFrom(env, table, rows[..0], filter, projected) == {}
  {
  }

  /** A condition and its executed form. */
  predicate ExecutedAs(env: Env, db: Db, c: Condition, e: Enforced) {
    match c
    case Cmp(column, op, value) => e == Test(column, op, value)
    case InSub(column, negated, t, projected, inner) =>
      && e.InSet? && e.column == column && e.negated == negated
      && AsSet(e.values) == Subquery(env, db, t, projected, inner)
  }

  /** Every subquery reads an existing column of an existing, unreserved table
      and selects few enough values. */
  predicate Executable(env: Env, db: Db, c: Condition)
    decreases c, 0
  {
    c.InSub? ==>
      && !env.reserved(c.table) && AllExecutable(env, db, c.inner)
      && c.table in db && c.projected in db[c.table].columns
      && |Subquery(env, db, c.table, c.projected, c.inner)| <= MAX_MEMBERSHIP
  }

  predicate AllExecutable(env: Env, db: Db, cs: seq<Condition>)
    decreases cs, 0
  {
    forall i | 0 <= i < |cs| :: Executable(env, db, cs[i])
  }

  /** An executed condition holds of the same rows. */
  lemma ExecutedMeans(env: Env, db: Db, table: string, row: Row, c: Condition, e: Enforced)
    requires ExecutedAs(env, db, c, e)
    ensures Enforces(env, table, row, e) <==> Holds(env, db, table, row, c)
  {
  }

  lemma AllExecutedMean(env: Env, db: Db, table: string, row: Row, cs: seq<Condition>, es: seq<Enforced>)
    requires |es| == |cs| && forall i | 0 <= i < |cs| :: ExecutedAs(env, db, cs[i], es[i])
    ensures EnforcesAll(env, table, row, es) <==> HoldAll(env, db, table, row, cs)
  {
    hide Enforces, Holds, ExecutedAs;
    forall i | 0 <= i < |cs|
      ensures Enforces(env, table, row, es[i]) <==> Holds(env, db, table, row, cs[i])
    {
      ExecutedMeans(env, db, table, row, cs[i], es[i]);
    }
  }

  lemma SelectedIsSubquery(env: Env, db: Db, table: string, projected: string, inner: seq<Condition>, es: seq<Enforced>,
                           filter: seq<Clause>)
    requires table in db && |es| == |inner| && forall i | 0 <= i < |inner| :: ExecutedAs(env, db, inner[i], es[i])
    requires forall row: Row :: MatchesAll(env, table, row, filter) <==> EnforcesAll(env, table, row, es)
    ensures Selected(env, db, table, filter, projected) == Subquery(env, db, table, projected, inner)
  {
    hide MatchesAll, EnforcesAll, HoldAll, ExecutedAs;
    forall row: Row
      ensures MatchesAll(env, table, row, filter) <==> HoldAll(env, db, table, row, inner)
    {
      AllExecutedMean(env, db, table, row, inner, es);
    }
  }

  /** `execute_resolved`: innermost subqueries first. */
  method Execute(env: Env, db: Db, cs: seq<Condition>) returns (r: Result<seq<Enforced>>)
    ensures r.Ok? <==> AllExecutable(env, db, cs)
    ensures r.Ok? ==> |r.value| == |cs| && forall i | 0 <= i < |cs| :: ExecutedAs(env, db, cs[i], r.value[i])
    decreases cs
  {
    hide ExecutedAs, Executable, Subquery, Selected, MatchesAll, EnforcesAll;
    var out, i := [], 0;
    while i < |cs|
      invariant i <= |cs| && |out| == i
      invariant forall j | 0 <= j < i :: ExecutedAs(env, db, cs[j], out[j]) && Executable(env, db, cs[j])
    {
      var e := ExecuteOne(env, db, cs[i]);
      if e.Err? {
        return Err;
      }
      out := out + [e.value];
      i := i + 1;
    }
    return Ok(out);
  }

  method ExecuteOne(env: Env, db: Db, c: Condition) returns (r: Result<Enforced>)
    ensures r.Ok? <==> Executable(env, db, c)
    ensures r.Ok? ==> ExecutedAs(env, db, c, r.value)
    decreases c
  {
    hide Subquery, Selected, MatchesAll, EnforcesAll;
    match c {
      case Cmp(column, op, value) => return Ok(Test(column, op, value));
      case InSub(column, negated, table, projected, inner) =>
        if env.reserved(table) {
          return Err;
        }
        var es := Execute(env, db, inner);
        if es.Err? {
          return Err;
        }
        var filter := ConjunctionFilter(es.value);
        if table in db {
          SelectedIsSubquery(env, db, table, projected, inner, es.value, filter);
        }
        var values := Scan(env, db, table, filter, projected);
        if values.Err? {
          return Err;
        }
        return Ok(InSet(column, negated, values.value));
    }
  }

  // ---- Alternatives ------------------------------------------------------

  predicate AnyEnforced(env: Env, table: string, row: Row, clauses: seq<seq<Enforced>>) {
    exists i | 0 <= i < |clauses| :: EnforcesAll(env, table, row, clauses[i])
  }

  /** The condition asks for one of some values of the column. */
  predicate Equality(e: Enforced, column: string) {
    e.column == column && (if e.Test? then e.op == Eq else !e.negated)
  }

  function ValuesOf(e: Enforced): set<string> {
    if e.Test? then {e.value} else AsSet(e.values)
  }

  predicate HasOneOf(env: Env, table: string, row: Row, column: string, values: set<string>) {
    column in row && exists v <- values :: env.cmp(table, column, Eq, row[column], v)
  }

  lemma EqualityMeans(env: Env, table: string, row: Row, clause: seq<Enforced>, column: string)
    requires |clause| == 1 && Equality(clause[0], column)
    ensures EnforcesAll(env, table, row, clause) <==> HasOneOf(env, table, row, column, ValuesOf(clause[0]))
  {
    assert EnforcesAll(env, table, row, clause) <==> Enforces(env, table, row, clause[0]);
    if clause[0].Test? {
      assert clause[0].value in ValuesOf(clause[0]);
    }
  }

  /** All alternatives are equalities on one column. */
  predicate OneColumn(clauses: seq<seq<Enforced>>, column: string) {
    forall i | 0 <= i < |clauses| :: |clauses[i]| == 1 && Equality(clauses[i][0], column)
  }

  function Pool(clauses: seq<seq<Enforced>>, column: string): set<string>
    requires OneColumn(clauses, column)
  {
    set i, v | 0 <= i < |clauses| && v in ValuesOf(clauses[i][0]) :: v
  }

  lemma PoolMeans(env: Env, table: string, row: Row, clauses: seq<seq<Enforced>>, column: string)
    requires OneColumn(clauses, column)
    ensures AnyEnforced(env, table, row, clauses) <==> HasOneOf(env, table, row, column, Pool(clauses, column))
  {
    hide EnforcesAll, ValuesOf;
    if AnyEnforced(env, table, row, clauses) {
      var i :| 0 <= i < |clauses| && EnforcesAll(env, table, row, clauses[i]);
      EqualityMeans(env, table, row, clauses[i], column);
      var v :| v in ValuesOf(clauses[i][0]) && env.cmp(table, column, Eq, row[column], v);
      assert v in Pool(clauses, column);
    }
    if HasOneOf(env, table, row, column, Pool(clauses, column)) {
      var v :| v in Pool(clauses, column) && env.cmp(table, column, Eq, row[column], v);
      var i :| 0 <= i < |clauses| && v in ValuesOf(clauses[i][0]);
      EqualityMeans(env, table, row, clauses[i], column);
    }
  }

  /** The collapsed condition means the disjunction it replaces. */
  predicate CollapsesTo(clauses: seq<seq<Enforced>>, e: Enforced) {
    && e.InSet? && !e.negated && clauses != [] && OneColumn(clauses, e.column)
    && AsSet(e.values) == Pool(clauses, e.column)
  }

  lemma CollapseMeans(env: Env, table: string, row: Row, clauses: seq<seq<Enforced>>, e: Enforced)
    requires CollapsesTo(clauses, e)
    ensures Enforces(env, table, row, e) <==> AnyEnforced(env, table, row, clauses)
  {
    hide AnyEnforced, Pool;
    PoolMeans(env, table, row, clauses, e.column);
  }

  /** `collapse_same_column_or_clauses`: pool the values, each once. */
  method Collapse(clauses: seq<seq<Enforced>>) returns (r: Option<Enforced>)
    ensures r.Some? ==> CollapsesTo(clauses, r.value)
    ensures r.None? ==> clauses == [] || forall column: string :: !OneColumn(clauses, column)
  {
    var column: Option<string>, values: seq<string>, i := None, [], 0;
    while i < |clauses|
      invariant i <= |clauses| && (column.None? <==> i == 0)
      invariant i == 0 ==> values == []
      invariant column.Some? ==> OneColumn(clauses[..i], column.value) && AsSet(values) == Pool(clauses[..i], column.value)
    {
      if |clauses[i]| != 1 {
        return None;
      }
      var e := clauses[i][0];
      if !(if e.Test? then e.op == Eq else !e.negated) {
        return None;
      }
      if column.Some? && column.value != e.column {
        DifferentColumns(clauses, i, column.value);
        return None;
      }
      column := Some(e.column);
      values := AddAll(values, if e.Test? then [e.value] else e.values);
      assert clauses[..i + 1] == clauses[..i] + [clauses[i]];
      PoolGrows(clauses[..i], clauses[i], e.column);
      i := i + 1;
    }
    assert clauses[..i] == clauses;
    if column.None? {
      return None;
    }
    return Some(InSet(column.value, false, values));
  }

  lemma DifferentColumns(clauses: seq<seq<Enforced>>, i: nat, column: string)
    requires 0 < i < |clauses| && OneColumn(clauses[..i], column)
    requires |clauses[i]| == 1 && clauses[i][0].column != column
    ensures forall other: string :: !OneColumn(clauses, other)
  {
    assert clauses[..i][0] == clauses[0];
  }

  lemma PoolGrows(clauses: seq<seq<Enforced>>, clause: seq<Enforced>, column: string)
    requires OneColumn(clauses, column) && |clause| == 1 && Equality(clause[0], column)
    ensures OneColumn(clauses + [clause], column)
    ensures Pool(clauses + [clause], column) == Pool(clauses, column) + ValuesOf(clause[0])
  {
    hide ValuesOf;
    var more := clauses + [clause];
    assert more[|clauses|] == clause;
    forall v | v in Pool(clauses, column)
      ensures v in Pool(more, column)
    {
      var i :| 0 <= i < |clauses| && v in ValuesOf(clauses[i][0]);
      assert more[i] == clauses[i];
    }
  }

  /** Push every value that is not there yet. */
  method AddAll(values: seq<string>, more: seq<string>) returns (out: seq<string>)
    ensures AsSet(out) == AsSet(values) + AsSet(more)
  {
    out := values;
    var i := 0;
    while i < |more|
      invariant i <= |more| && forall v :: v in out <==> v in values || v in more[..i]
    {
      assert more[..i + 1] == more[..i] + [more[i]];
      if more[i] !in out {
        out := out + [more[i]];
      }
      i := i + 1;
    }
    assert more[..i] == more;
  }

  /** What one alternative becomes. */
  datatype Branch = Everything | Nothing | Just(clause: Clause) | TooMany

  predicate BranchMeans(env: Env, table: string, row: Row, clause: seq<Enforced>, b: Branch) {
    match b
    case Everything => EnforcesAll(env, table, row, clause)
    case Nothing => !EnforcesAll(env, table, row, clause)
    case Just(c) => Matches(env, table, row, c) <==> EnforcesAll(env, table, row, clause)
    case TooMany => true
  }

  /** The body of the loop over alternatives in `render_enforced_or_clauses`. */
  method RenderBranch(clause: seq<Enforced>) returns (b: Branch)
    ensures forall env: Env, table: string, row: Row :: BranchMeans(env, table, row, clause, b)
    ensures b.TooMany? ==> |clause| > 1
    ensures clause == [] ==> b == Everything
    ensures b.Just? ==> forall terms: Terms :: ColumnsIn(clause, terms) ==> PlainClause(b.clause, terms)
  {
    hide BranchMeans, EnforcesAll, PlainClause, ColumnsIn;
    var parts: seq<Clause>, i := [], 0;
    while i < |clause|
      invariant i <= |clause| && parts == Conjunction(clause[..i]) && |parts| <= i
    {
      assert clause[..i + 1][..i] == clause[..i];
      match clause[i] {
        case Test(column, op, value) => parts := parts + [Single(column, op, value)];
        case InSet(column, negated, values) =>
          if values == [] {
            if !negated {
              NeverHolds(clause, i);
              RejectsAll(clause);
              return Nothing;
            }
            assert parts + [] == parts;
          } else {
            parts := parts + [Member(column, negated, values)];
          }
      }
      i := i + 1;
    }
    assert clause[..i] == clause;
    b := BranchOf(parts);
    BranchOfMeans(clause);
  }

  function BranchOf(parts: seq<Clause>): Branch {
    if parts == [] then Everything else if |parts| != 1 then TooMany else Just(parts[0])
  }

  lemma BranchOfMeans(clause: seq<Enforced>)
    ensures var b := BranchOf(Conjunction(clause));
            && (forall env: Env, table: string, row: Row :: BranchMeans(env, table, row, clause, b))
            && (b.Just? ==> forall terms: Terms :: ColumnsIn(clause, terms) ==> PlainClause(b.clause, terms))
  {
    hide Conjunction, MatchesAll, EnforcesAll, Matches, PlainClause, ColumnsIn;
    var parts := Conjunction(clause);
    var b := BranchOf(parts);
    forall terms: Terms | b.Just? && ColumnsIn(clause, terms)
      ensures PlainClause(b.clause, terms)
    {
      ConjunctionShaped(clause, terms);
      assert parts[0] == b.clause;
    }
    forall env: Env, table: string, row: Row
      ensures BranchMeans(env, table, row, clause, b)
    {
      ConjunctionMeans(env, table, row, clause);
      OneOrNone(env, table, row, parts);
    }
  }

  lemma OneOrNone(env: Env, table: string, row: Row, parts: seq<Clause>)
    ensures parts == [] ==> MatchesAll(env, table, row, parts)
    ensures |parts| == 1 ==> (MatchesAll(env, table, row, parts) <==> Matches(env, table, row, parts[0]))
  {
    hide Matches;
  }

  lemma RejectsAll(clause: seq<Enforced>)
    requires forall env: Env, table: string, row: Row :: !EnforcesAll(env, table, row, clause)
    ensures forall env: Env, table: string, row: Row :: BranchMeans(env, table, row, clause, Nothing)
  {
    hide EnforcesAll;
  }

  lemma NeverHolds(clause: seq<Enforced>, i: nat)
    requires i < |clause| && clause[i].InSet? && !clause[i].negated && clause[i].values == []
    ensures forall env: Env, table: string, row: Row :: !EnforcesAll(env, table, row, clause)
  {
    assert AsSet(clause[i].values) == {};
    forall env: Env, table: string, row: Row
      ensures !EnforcesAll(env, table, row, clause)
    {
      assert !Enforces(env, table, row, clause[i]);
    }
  }

  /** The filter accepts exactly the rows some alternative accepts. */
  ghost predicate FilterMeans(clauses: seq<seq<Enforced>>, filter: seq<Clause>) {
    forall env: Env, table: string, row: Row ::
      MatchesAll(env, table, row, filter) <==> AnyEnforced(env, table, row, clauses)
  }

  /** The branches kept so far accept what the alternatives seen so far accept. */
  ghost predicate BranchesMean(clauses: seq<seq<Enforced>>, branches: seq<Clause>) {
    forall env: Env, table: string, row: Row ::
      Matches(env, table, row, AnyOf(branches)) <==> AnyEnforced(env, table, row, clauses)
  }

  lemma BranchAdded(clauses: seq<seq<Enforced>>, branches: seq<Clause>, clause: seq<Enforced>, b: Branch)
    requires BranchesMean(clauses, branches)
    requires forall env: Env, table: string, row: Row :: BranchMeans(env, table, row, clause, b)
    ensures b.Nothing? ==> BranchesMean(clauses + [clause], branches)
    ensures b.Just? ==> BranchesMean(clauses + [clause], branches + [b.clause])
  {
    hide EnforcesAll;
    var more := clauses + [clause];
    forall env: Env, table: string, row: Row
      ensures AnyEnforced(env, table, row, more) <==> AnyEnforced(env, table, row, clauses) || EnforcesAll(env, table, row, clause)
      ensures b.Just? ==> (Matches(env, table, row, AnyOf(branches + [b.clause])) <==>
                           Matches(env, table, row, AnyOf(branches)) || Matches(env, table, row, b.clause))
    {
      AnyOneMore(env, table, row, clauses, clause);
      if b.Just? {
        AnyOfOneMore(env, table, row, branches, b.clause);
      }
    }
    forall env: Env, table: string, row: Row
      ensures b.Nothing? ==> (Matches(env, table, row, AnyOf(branches)) <==> AnyEnforced(env, table, row, more))
      ensures b.Just? ==> (Matches(env, table, row, AnyOf(branches + [b.clause])) <==> AnyEnforced(env, table, row, more))
    {
      assert BranchMeans(env, table, row, clause, b);
      assert AnyEnforced(env, table, row, more) <==> AnyEnforced(env, table, row, clauses) || EnforcesAll(env, table, row, clause);
    }
  }

  lemma AnyOneMore(env: Env, table: string, row: Row, clauses: seq<seq<Enforced>>, clause: seq<Enforced>)
    ensures AnyEnforced(env, table, row, clauses + [clause]) <==>
            AnyEnforced(env, table, row, clauses) || EnforcesAll(env, table, row, clause)
  {
    hide EnforcesAll;
    var more := clauses + [clause];
    assert more[|clauses|] == clause;
    if AnyEnforced(env, table, row, clauses) {
      var i :| 0 <= i < |clauses| && EnforcesAll(env, table, row, clauses[i]);
      assert more[i] == clauses[i];
    }
  }

  lemma AnyOfOneMore(env: Env, table: string, row: Row, branches: seq<Clause>, c: Clause)
    ensures Matches(env, table, row, AnyOf(branches + [c])) <==>
            Matches(env, table, row, AnyOf(branches)) || Matches(env, table, row, c)
  {
    var more := branches + [c];
    assert more[|branches|] == c;
    if Matches(env, table, row, AnyOf(branches)) {
      var i :| 0 <= i < |branches| && Matches(env, table, row, branches[i]);
      assert more[i] == branches[i];
    }
  }

  lemma Contradiction(column: string)
    ensures forall env: Env, table: string, row: Row :: !MatchesAll(env, table, row, [IsNull(column), IsNotNull(column)])
  {
    forall env: Env, table: string, row: Row
      ensures !MatchesAll(env, table, row, [IsNull(column), IsNotNull(column)])
    {
      var cs := [IsNull(column), IsNotNull(column)];
      assert !Matches(env, table, row, cs[0]) || !Matches(env, table, row, cs[1]);
    }
  }

  lemma AlwaysAllowed(clauses: seq<seq<Enforced>>, i: nat)
    requires i < |clauses|
    requires forall env: Env, table: string, row: Row :: BranchMeans(env, table, row, clauses[i], Everything)
    ensures FilterMeans(clauses, [])
  {
    hide EnforcesAll;
    forall env: Env, table: string, row: Row
      ensures MatchesAll(env, table, row, []) <==> AnyEnforced(env, table, row, clauses)
    {
      assert BranchMeans(env, table, row, clauses[i], Everything);
    }
  }

  /** `render_enforced_or_clauses`. */
  method RenderOr(clauses: seq<seq<Enforced>>) returns (r: Result<seq<Clause>>)
    ensures r.Ok? && clauses != [] ==> FilterMeans(clauses, r.value)
    ensures r.Err? ==> exists i | 0 <= i < |clauses| :: |clauses[i]| > 1
    ensures clauses == [] ==> r == Ok([])
    ensures r.Ok? ==> forall terms: Terms :: AllColumnsIn(clauses, terms) ==> ShapedFilter(r.value, terms)
  {
    hide EnforcesAll, Matches, MatchesAll, AnyEnforced, BranchMeans;
    var pooled := Collapse(clauses);
    if pooled.Some? {
      var filter := ConjunctionFilter([pooled.value]);
      CollapsedFilter(clauses, pooled.value, filter);
      forall terms: Terms | AllColumnsIn(clauses, terms)
        ensures ShapedFilter(filter, terms)
      {
        CollapsedColumn(clauses, pooled.value, terms);
        PlainIsShaped(filter, terms);
      }
      return Ok(filter);
    }
    var branches: seq<Clause>, i := [], 0;
    NoBranches();
    while i < |clauses|
      invariant i <= |clauses| && BranchesMean(clauses[..i], branches) && (i == 0 ==> branches == [])
      invariant forall j | 0 <= j < i :: clauses[j] != []
      invariant forall terms: Terms :: AllColumnsIn(clauses, terms) ==> PlainClauses(branches, terms)
    {
      var b := RenderBranch(clauses[i]);
      assert forall terms: Terms :: AllColumnsIn(clauses, terms) ==> ColumnsIn(clauses[i], terms);
      BranchAdded(clauses[..i], branches, clauses[i], b);
      assert clauses[..i + 1] == clauses[..i] + [clauses[i]];
      match b {
        case Everything =>
          AlwaysAllowed(clauses, i);
          return Ok([]);
        case TooMany => return Err;
        case Nothing =>
        case Just(c) => branches := branches + [c];
      }
      i := i + 1;
    }
    assert clauses[..i] == clauses;
    if branches == [] {
      if clauses == [] {
        return Ok([]);
      }
      var column := clauses[0][0].column;
      assert forall terms: Terms :: AllColumnsIn(clauses, terms) ==> ColumnsIn(clauses[0], terms);
      Contradiction(column);
      NothingMatches(clauses);
      return Ok([IsNull(column), IsNotNull(column)]);
    }
    var group := if |branches| == 1 then branches[0] else AnyOf(branches);
    GroupMeans(clauses, branches, group);
    return Ok([group]);
  }

  lemma CollapsedColumn(clauses: seq<seq<Enforced>>, e: Enforced, terms: Terms)
    requires CollapsesTo(clauses, e) && AllColumnsIn(clauses, terms)
    ensures ColumnsIn([e], terms)
  {
    assert clauses[0][0].column in terms.columns;
    forall v | v in ValuesOf(e)
      ensures v in terms.values
    {
      var i :| 0 <= i < |clauses| && v in ValuesOf(clauses[i][0]);
      assert ColumnsIn(clauses[i], terms);
    }
  }

  lemma PlainIsShaped(cs: seq<Clause>, terms: Terms)
    requires PlainClauses(cs, terms)
    ensures ShapedFilter(cs, terms)
  {
  }

  lemma NoBranches()
    ensures BranchesMean([], [])
  {
  }

  lemma NothingMatches(clauses: seq<seq<Enforced>>)
    requires BranchesMean(clauses, [])
    ensures forall env: Env, table: string, row: Row :: !AnyEnforced(env, table, row, clauses)
  {
    hide AnyEnforced;
    forall env: Env, table: string, row: Row
      ensures !AnyEnforced(env, table, row, clauses)
    {
      assert !Matches(env, table, row, AnyOf([]));
    }
  }

  lemma GroupMeans(clauses: seq<seq<Enforced>>, branches: seq<Clause>, group: Clause)
    requires BranchesMean(clauses, branches) && branches != []
    requires group == if |branches| == 1 then branches[0] else AnyOf(branches)
    ensures FilterMeans(clauses, [group])
  {
    hide AnyEnforced;
    forall env: Env, table: string, row: Row
      ensures MatchesAll(env, table, row, [group]) <==> AnyEnforced(env, table, row, clauses)
    {
      OneOrNone(env, table, row, [group]);
      assert Matches(env, table, row, AnyOf(branches)) <==> AnyEnforced(env, table, row, clauses);
    }
  }

  lemma CollapsedFilter(clauses: seq<seq<Enforced>>, e: Enforced, filter: seq<Clause>)
    requires CollapsesTo(clauses, e)
    requires forall env: Env, table: string, row: Row :: MatchesAll(env, table, row, filter) <==> EnforcesAll(env, table, row, [e])
    ensures FilterMeans(clauses, filter)
  {
    hide Enforces, CollapsesTo, MatchesAll, AnyEnforced;
    forall env: Env, table: string, row: Row
      ensures MatchesAll(env, table, row, filter) <==> AnyEnforced(env, table, row, clauses)
    {
      CollapseMeans(env, table, row, clauses, e);
      assert [e][0] == e;
      assert EnforcesAll(env, table, row, [e]) <==> Enforces(env, table, row, e);
    }
  }

  /** `render_enforced_clauses`. */
  method Render(clauses: seq<seq<Enforced>>) returns (r: Result<seq<Clause>>)
    ensures r.Ok? && clauses != [] ==> FilterMeans(clauses, r.value)
    ensures r.Err? ==> |clauses| > 1 && exists i | 0 <= i < |clauses| :: |clauses[i]| > 1
    ensures r.Ok? ==> forall terms: Terms :: AllColumnsIn(clauses, terms) ==> ShapedFilter(r.value, terms)
  {
    hide EnforcesAll, MatchesAll;
    if |clauses| == 1 {
      var filter := ConjunctionFilter(clauses[0]);
      forall env: Env, table: string, row: Row
        ensures MatchesAll(env, table, row, filter) <==> AnyEnforced(env, table, row, clauses)
      {
        assert AnyEnforced(env, table, row, clauses) <==> EnforcesAll(env, table, row, clauses[0]);
      }
      forall terms: Terms | AllColumnsIn(clauses, terms)
        ensures ShapedFilter(filter, terms)
      {
        assert ColumnsIn(clauses[0], terms);
        PlainIsShaped(filter, terms);
      }
      return Ok(filter);
    }
    r := RenderOr(clauses);
  }

  /** `execute_resolved_clauses`, then `render_enforced_clauses`: the filter of
      a grant accepts exactly the rows the grant allows. */
  method GrantFilter(env: Env, db: Db, alternatives: seq<seq<Condition>>) returns (r: Result<seq<Clause>>)
    ensures r.Ok? ==> forall i | 0 <= i < |alternatives| :: AllExecutable(env, db, alternatives[i])
    ensures r.Ok? && alternatives != [] ==>
              forall table: string, row: Row ::
                MatchesAll(env, table, row, r.value) <==> Allows(env, db, table, row, alternatives)
    ensures r.Ok? ==> ShapedFilter(r.value, TermsOf(env, db, alternatives))
  {
    hide EnforcesAll, MatchesAll, AllExecutable, HoldAll, ExecutedAs, AnyEnforced;
    var clauses, i := [], 0;
    while i < |alternatives|
      invariant i <= |alternatives| && |clauses| == i
      invariant forall j | 0 <= j < i :: AllExecutable(env, db, alternatives[j])
      invariant forall j | 0 <= j < i :: AllExecutedAs(env, db, alternatives[j], clauses[j])
    {
      var es := Execute(env, db, alternatives[i]);
      if es.Err? {
        return Err;
      }
      clauses := clauses + [es.value];
      i := i + 1;
    }
    r := Render(clauses);
    ExecutedColumns(env, db, alternatives, clauses);
    forall table: string, row: Row | r.Ok? && alternatives != []
      ensures MatchesAll(env, table, row, r.value) <==> Allows(env, db, table, row, alternatives)
    {
      AlternativesMean(env, db, table, row, alternatives, clauses);
    }
  }

  /** The columns a grant tests on the row itself. */
  function Columns(alternatives: seq<seq<Condition>>): set<string> {
    set i, j | 0 <= i < |alternatives| && 0 <= j < |alternatives[i]| :: alternatives[i][j].column
  }

  /** The values a condition may put in a membership list. */
  function ListValues(env: Env, db: Db, c: Condition): set<string> {
    match c
    case Cmp(_, op, value) => if op == Eq then {value} else {}
    case InSub(_, _, t, projected, inner) => Subquery(env, db, t, projected, inner)
  }

  function TermsOf(env: Env, db: Db, alternatives: seq<seq<Condition>>): Terms {
    Terms(Columns(alternatives),
          set i, j, v | 0 <= i < |alternatives| && 0 <= j < |alternatives[i]| && v in ListValues(env, db, alternatives[i][j]) :: v)
  }

  lemma ExecutedColumns(env: Env, db: Db, alternatives: seq<seq<Condition>>, clauses: seq<seq<Enforced>>)
    requires |clauses| == |alternatives|
    requires forall i | 0 <= i < |clauses| :: AllExecutedAs(env, db, alternatives[i], clauses[i])
    ensures AllColumnsIn(clauses, TermsOf(env, db, alternatives))
  {
    hide Subquery;
    forall i, j | 0 <= i < |clauses| && 0 <= j < |clauses[i]|
      ensures clauses[i][j].column in Columns(alternatives)
      ensures Listed(clauses[i][j]) <= TermsOf(env, db, alternatives).values
    {
      assert AllExecutedAs(env, db, alternatives[i], clauses[i]);
      assert ExecutedAs(env, db, alternatives[i][j], clauses[i][j]);
      assert clauses[i][j].column == alternatives[i][j].column;
      assert Listed(clauses[i][j]) == ListValues(env, db, alternatives[i][j]);
    }
  }

  predicate AllExecutedAs(env: Env, db: Db, cs: seq<Condition>, es: seq<Enforced>) {
    |es| == |cs| && forall i | 0 <= i < |cs| :: ExecutedAs(env, db, cs[i], es[i])
  }

  lemma AlternativesMean(env: Env, db: Db, table: string, row: Row, alternatives: seq<seq<Condition>>,
                         clauses: seq<seq<Enforced>>)
    requires |clauses| == |alternatives|
    requires forall i | 0 <= i < |clauses| :: AllExecutedAs(env, db, alternatives[i], clauses[i])
    ensures AnyEnforced(env, table, row, clauses) <==> Allows(env, db, table, row, alternatives)
  {
    hide EnforcesAll, HoldAll, ExecutedAs;
    forall i | 0 <= i < |clauses|
      ensures EnforcesAll(env, table, row, clauses[i]) <==> HoldAll(env, db, table, row, alternatives[i])
    {
      assert AllExecutedAs(env, db, alternatives[i], clauses[i]);
      AllExecutedMean(env, db, table, row, alternatives[i], clauses[i]);
    }
  }

  // ---- Values left out of membership lists -------------------------------

  /** The same environment with nothing dropped: what the grant says. */
  function Full(env: Env): Env {
    env.(dropping := false)
  }

  predicate AllSafe(values: set<string>) {
    forall v <- values :: TokenSafe(v)
  }

  /** Every subquery, at every depth, selects only values fit for a list. */
  predicate SelectsSafe(env: Env, db: Db, c: Condition)
    decreases c
  {
    c.InSub? ==>
      && AllSafe(Subquery(Full(env), db, c.table, c.projected, c.inner))
      && forall i | 0 <= i < |c.inner| :: SelectsSafe(env, db, c.inner[i])
  }

  predicate AllSelectSafe(env: Env, db: Db, cs: seq<Condition>) {
    forall i | 0 <= i < |cs| :: SelectsSafe(env, db, cs[i])
  }

  /** Selecting only fit values, a condition is enforced as it is meant. */
  lemma {:induction false} DroppingNothing(env: Env, db: Db, table: string, row: Row, c: Condition)
    requires SelectsSafe(env, db, c)
    ensures Holds(env, db, table, row, c) <==> Holds(Full(env), db, table, row, c)
    decreases c
  {
    match c {
      case Cmp(_, _, _) =>
      case InSub(column, negated, t, projected, inner) =>
        InnerAgrees(env, db, t, inner);
        SafeSubquery(env, db, t, projected, inner);
        MembersAgree(env, table, row, column, negated, Subquery(env, db, t, projected, inner));
    }
  }

  lemma {:induction false} InnerAgrees(env: Env, db: Db, t: string, inner: seq<Condition>)
    requires AllSelectSafe(env, db, inner)
    ensures SameOnRows(env, db, t, inner)
    decreases inner
  {
    hide Holds, SelectsSafe;
    forall r: Row
      ensures HoldAll(env, db, t, r, inner) <==> HoldAll(Full(env), db, t, r, inner)
    {
      forall i | 0 <= i < |inner|
        ensures Holds(env, db, t, r, inner[i]) <==> Holds(Full(env), db, t, r, inner[i])
      {
        DroppingNothing(env, db, t, r, inner[i]);
      }
    }
  }

  lemma MembersAgree(env: Env, table: string, row: Row, column: string, negated: bool, values: set<string>)
    ensures IsMember(env, table, row, column, negated, values) <==> IsMember(Full(env), table, row, column, negated, values)
  {
  }

  /** The conditions are enforced as they are meant on the rows of the table. */
  predicate SameOnRows(env: Env, db: Db, t: string, cs: seq<Condition>) {
    t in db ==> forall r <- db[t].rows :: HoldAll(env, db, t, r, cs) <==> HoldAll(Full(env), db, t, r, cs)
  }

  /** A subquery whose own conditions are enforced as meant selects what it is
      meant to exactly if it is meant to select only fit values. */
  lemma SafeSubquery(env: Env, db: Db, t: string, projected: string, inner: seq<Condition>)
    requires SameOnRows(env, db, t, inner)
    ensures env.dropping ==>
              (Subquery(env, db, t, projected, inner) == Subquery(Full(env), db, t, projected, inner) <==>
               AllSafe(Subquery(Full(env), db, t, projected, inner)))
    ensures !env.dropping || AllSafe(Subquery(Full(env), db, t, projected, inner)) ==>
              Subquery(env, db, t, projected, inner) == Subquery(Full(env), db, t, projected, inner)
  {
    hide HoldAll, TokenSafe;
  }

  /** Equality of values is all that the column's `=` tests. */
  ghost predicate ExactEq(env: Env, table: string, column: string) {
    forall a: string, b: string :: env.cmp(table, column, Eq, a, b) <==> a == b
  }

  /** A row that tells two membership lists apart. */
  lemma Distinguished(env: Env, table: string, column: string, negated: bool, a: set<string>, b: set<string>) returns (row: Row)
    requires ExactEq(env, table, column) && a != b
    ensures IsMember(env, table, row, column, negated, a) != IsMember(env, table, row, column, negated, b)
  {
    var v :| v in a + b && (v in a <==> v !in b);
    row := map[column := v];
  }

  /** On this row the condition is enforced as it is meant. */
  predicate AsMeant(env: Env, db: Db, table: string, row: Row, c: Condition) {
    Holds(env, db, table, row, c) <==> Holds(Full(env), db, table, row, c)
  }

  /** The subquery is meant to select only values fit for a list. */
  predicate Enforceable(env: Env, db: Db, c: Condition)
    requires c.InSub?
  {
    AllSafe(Subquery(Full(env), db, c.table, c.projected, c.inner))
  }

  /** Exactly when an enforced subquery means the subquery, on every row a query
      may meet: when every value it selects is fit for a list. The subquery's own
      conditions have to be enforced as meant on the rows it reads, which by
      `InnerAgrees` comparisons always are, and nested subqueries are if they
      select only fit values. */
  lemma EnforcedExactly(env: Env, db: Db, table: string, c: Condition)
    requires env.dropping && c.InSub? && ExactEq(env, table, c.column) && SameOnRows(env, db, c.table, c.inner)
    ensures (forall row: Row :: AsMeant(env, db, table, row, c)) <==> Enforceable(env, db, c)
  {
    hide TokenSafe, HoldAll, IsMember, Subquery, SameOnRows;
    var kept := Subquery(env, db, c.table, c.projected, c.inner);
    var meant := Subquery(Full(env), db, c.table, c.projected, c.inner);
    SafeSubquery(env, db, c.table, c.projected, c.inner);
    forall row: Row
      ensures Holds(Full(env), db, table, row, c) <==> IsMember(env, table, row, c.column, c.negated, meant)
    {
      MembersAgree(env, table, row, c.column, c.negated, meant);
    }
    if kept != meant {
      var row := Distinguished(env, table, c.column, c.negated, kept, meant);
      assert !AsMeant(env, db, table, row, c);
    } else {
      forall row: Row
        ensures AsMeant(env, db, table, row, c)
      {
        assert Holds(env, db, table, row, c) <==> IsMember(env, table, row, c.column, c.negated, kept);
      }
    }
  }

  /** A grant all of whose subqueries select only fit values allows exactly the
      rows it says. */
  lemma GrantAsMeant(env: Env, db: Db, table: string, row: Row, alternatives: seq<seq<Condition>>)
    requires forall i | 0 <= i < |alternatives| :: AllSelectSafe(env, db, alternatives[i])
    ensures Allows(env, db, table, row, alternatives) <==> Allows(Full(env), db, table, row, alternatives)
  {
    hide Holds, SelectsSafe;
    forall i | 0 <= i < |alternatives|
      ensures HoldAll(env, db, table, row, alternatives[i]) <==> HoldAll(Full(env), db, table, row, alternatives[i])
    {
      forall j | 0 <= j < |alternatives[i]|
        ensures Holds(env, db, table, row, alternatives[i][j]) <==> Holds(Full(env), db, table, row, alternatives[i][j])
      {
        DroppingNothing(env, db, table, row, alternatives[i][j]);
      }
    }
  }

  /** No negated subquery, at any depth. */
  predicate Positive(c: Condition)
    decreases c
  {
    c.InSub? ==> !c.negated && forall i | 0 <= i < |c.inner| :: Positive(c.inner[i])
  }

  /** Leaving values out only ever narrows a grant without negated subqueries. */
  lemma {:induction false} DroppingNarrows(env: Env, db: Db, table: string, row: Row, c: Condition)
    requires Positive(c) && Holds(env, db, table, row, c)
    ensures Holds(Full(env), db, table, row, c)
    decreases c
  {
    match c {
      case Cmp(_, _, _) =>
      case InSub(column, _, t, projected, inner) =>
        SubqueryNarrows(env, db, t, projected, inner);
    }
  }

  lemma {:induction false} SubqueryNarrows(env: Env, db: Db, t: string, projected: string, inner: seq<Condition>)
    requires forall i | 0 <= i < |inner| :: Positive(inner[i])
    ensures Subquery(env, db, t, projected, inner) <= Subquery(Full(env), db, t, projected, inner)
    decreases inner
  {
    hide Holds;
    forall r: Row | HoldAll(env, db, t, r, inner)
      ensures HoldAll(Full(env), db, t, r, inner)
    {
      forall i | 0 <= i < |inner|
        ensures Holds(Full(env), db, t, r, inner[i])
      {
        DroppingNarrows(env, db, t, r, inner[i]);
      }
    }
  }

  /** A negated subquery loses the exclusion of an unfit value: the row is let
      through although its value is in the subquery's result. */
  lemma NegationWidens(env: Env, v: string)
    requires env.dropping && !TokenSafe(v) && env.cmp("docs", "owner", Eq, v, v)
    ensures var db: Db := map["banned" := Table({"id"}, [map["id" := v]])];
            var c := InSub("owner", true, "banned", "id", []);
            Holds(env, db, "docs", map["owner" := v], c) && !Holds(Full(env), db, "docs", map["owner" := v], c)
  {
    var db: Db := map["banned" := Table({"id"}, [map["id" := v]])];
    var row: Row := map["id" := v];
    assert row in db["banned"].rows;
    assert v in Subquery(Full(env), db, "banned", "id", []);
    assert Subquery(env, db, "banned", "id", []) == {};
  }
}
