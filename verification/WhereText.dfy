/** Filters as text: a grant's filter is rendered into the WHERE language and
    read back by the query parser. */
module WhereText {
  import opened Bytes
  import opened Grants

  // ---- Tokens ------------------------------------------------------------

  predicate StartsOperator(s: string)
    requires s != ""
  {
    s[0] == '=' || s[0] == '<' || s[0] == '>' || (s[0] == '!' && |s| > 1 && s[1] == '=')
  }

  function OperatorLength(s: string): nat
    requires s != ""
  {
    if s[0] != '=' && |s| > 1 && s[1] == '=' then 2 else 1
  }

  function Push(token: Option<string>, more: Option<seq<string>>): Option<seq<string>> {
    if more.None? then None else if token.None? then more else Some([token.value] + more.value)
  }

  /** What is being built when a token ends. */
  function Pending(current: string, building: bool): Option<string> {
    if building then Some(current) else None
  }

  /** `tokenize_where`, from a state of its scan. */
  function Lex(s: string, current: string, building: bool, inQuote: bool): Option<seq<string>>
    decreases |s|
  {
    if s == "" then
      if inQuote then None else Push(Pending(current, building), Some([]))
    else if inQuote then
      if s[0] == '\\' then
        if |s| == 1 then None
        else if s[1] == '\'' || s[1] == '\\' then Lex(s[2..], current + [s[1]], building, true)
        else Lex(s[2..], current + [s[0], s[1]], building, true)
      else if s[0] == '\'' then Lex(s[1..], current, building, false)
      else Lex(s[1..], current + [s[0]], building, true)
    else if s[0] == '\'' && !building then Lex(s[1..], current, true, true)
    else if StartsOperator(s) then
      var n := OperatorLength(s);
      Push(Pending(current, building), Push(Some(s[..n]), Lex(s[n..], "", false, false)))
    else if IsSpace(s[0]) then Push(Pending(current, building), Lex(s[1..], "", false, false))
    else Lex(s[1..], current + [s[0]], true, false)
  }

  function Tokens(s: string): Option<seq<string>> {
    Lex(s, "", false, false)
  }

  // ---- Rendering ---------------------------------------------------------

  /** `quote_where_value`: backslashes doubled, quotes escaped. */
  function Escaped(v: string): string {
    if v == "" then ""
    else (if v[0] == '\\' then "\\\\" else if v[0] == '\'' then "\\'" else [v[0]]) + Escaped(v[1..])
  }

  function Quote(v: string): string {
    "'" + Escaped(v) + "'"
  }

  /** A piece of rendered text between spaces. */
  datatype Piece = Bare(word: string) | Quoted(value: string)

  function Spell(p: Piece): string {
    match p
    case Bare(w) => w
    case Quoted(v) => Quote(v)
  }

  function TokenOf(p: Piece): string {
    match p
    case Bare(w) => w
    case Quoted(v) => v
  }

  function Text(ps: seq<Piece>): string {
    if ps == [] then "" else if |ps| == 1 then Spell(ps[0]) else Spell(ps[0]) + " " + Text(ps[1..])
  }

  function TokensOf(ps: seq<Piece>): seq<string> {
    seq(|ps|, i requires 0 <= i < |ps| => TokenOf(ps[i]))
  }

  /** Characters of a word that is one token by itself. */
  predicate IsWordChar(c: char) {
    !IsSpace(c) && c != '\'' && c != '=' && c != '<' && c != '>' && c != '!'
  }

  predicate IsWord(w: string) {
    w != "" && forall i :: 0 <= i < |w| ==> IsWordChar(w[i])
  }

  predicate IsOperator(w: string) {
    w == "=" || w == "!=" || w == ">" || w == "<" || w == ">=" || w == "<="
  }

  predicate PieceOk(p: Piece) {
    p.Bare? ==> IsWord(p.word) || IsOperator(p.word)
  }

  // ---- Text and tokens ---------------------------------------------------

  lemma {:induction false} LexEscaped(v: string, current: string, rest: string)
    ensures Lex(Escaped(v) + "'" + rest, current, true, true) == Lex(rest, current + v, true, false)
    decreases |v|
  {
    hide Lex;
    if v == "" {
      assert Escaped(v) + "'" + rest == "'" + rest;
      assert current + v == current;
      LexClose(rest, current);
    } else {
      var tail := Escaped(v[1..]) + "'" + rest;
      LexEscaped(v[1..], current + [v[0]], rest);
      assert current + [v[0]] + v[1..] == current + v;
      var s := Escaped(v) + "'" + rest;
      if v[0] == '\\' || v[0] == '\'' {
        assert s == ['\\', v[0]] + tail;
        LexEscape(s, tail, current, v[0]);
      } else {
        assert s == [v[0]] + tail;
        LexInside(s, tail, current, v[0]);
      }
    }
  }

  lemma LexClose(rest: string, current: string)
    ensures Lex("'" + rest, current, true, true) == Lex(rest, current, true, false)
  {
    assert ("'" + rest)[1..] == rest;
  }

  lemma LexEscape(s: string, tail: string, current: string, c: char)
    requires s == ['\\', c] + tail && (c == '\\' || c == '\'')
    ensures Lex(s, current, true, true) == Lex(tail, current + [c], true, true)
  {
    assert s[2..] == tail;
  }

  lemma LexInside(s: string, tail: string, current: string, c: char)
    requires s == [c] + tail && c != '\\' && c != '\''
    ensures Lex(s, current, true, true) == Lex(tail, current + [c], true, true)
  {
    assert s[1..] == tail;
  }

  lemma {:induction false} LexWord(w: string, current: string, building: bool, rest: string)
    requires forall i :: 0 <= i < |w| ==> IsWordChar(w[i])
    ensures Lex(w + rest, current, building, false) == Lex(rest, current + w, building || w != "", false)
    decreases |w|
  {
    hide IsSpace;
    if w == "" {
      assert w + rest == rest && current + w == current;
    } else {
      LexWord(w[1..], current + [w[0]], true, rest);
      assert (w + rest)[1..] == w[1..] + rest;
      assert current + [w[0]] + w[1..] == current + w;
      assert IsWordChar(w[0]);
      assert (w + rest)[0] == w[0];
    }
  }

  /** A piece followed by a space or the end is one token. */
  lemma LexPiece(p: Piece, rest: string)
    requires PieceOk(p) && (rest == "" || rest[0] == ' ')
    ensures Lex(Spell(p) + rest, "", false, false) ==
            Push(Some(TokenOf(p)), if rest == "" then Some([]) else Lex(rest[1..], "", false, false))
  {
    match p {
      case Quoted(v) =>
        var s := Quote(v) + rest;
        assert s[0] == '\'' && s[1..] == Escaped(v) + "'" + rest;
        LexEscaped(v, "", rest);
        assert "" + v == v;
        LexEnd(v, rest);
      case Bare(w) =>
        if IsOperator(w) {
          LexOperator(w, rest);
        } else {
          LexWord(w, "", false, rest);
          assert "" + w == w;
          LexEnd(w, rest);
        }
    }
  }

  lemma LexEnd(token: string, rest: string)
    requires rest == "" || rest[0] == ' '
    ensures Lex(rest, token, true, false) ==
            Push(Some(token), if rest == "" then Some([]) else Lex(rest[1..], "", false, false))
  {
  }

  lemma LexOperator(w: string, rest: string)
    requires IsOperator(w) && (rest == "" || rest[0] == ' ')
    ensures Lex(w + rest, "", false, false) ==
            Push(Some(w), if rest == "" then Some([]) else Lex(rest[1..], "", false, false))
  {
    var s := w + rest;
    assert s[0] == w[0] && (|w| == 2 ==> s[1] == w[1]) && (|w| == 1 && rest != "" ==> s[1] == ' ');
    assert StartsOperator(s) && OperatorLength(s) == |w|;
    assert s[..|w|] == w && s[|w|..] == rest;
    if rest != "" {
      assert Lex(rest, "", false, false) == Lex(rest[1..], "", false, false);
    }
  }

  /** The tokens of rendered text are its pieces, whatever the quoted values contain. */
  lemma {:induction false} TextTokens(ps: seq<Piece>)
    requires forall i :: 0 <= i < |ps| ==> PieceOk(ps[i])
    ensures Tokens(Text(ps)) == Some(TokensOf(ps))
    decreases |ps|
  {
    hide Lex, Spell, TokenOf, PieceOk;
    if ps == [] {
      LexNothing();
    } else {
      var more := ps[1..];
      var rest := if |ps| == 1 then "" else " " + Text(more);
      assert Text(ps) == Spell(ps[0]) + rest by {
        if |ps| == 1 {
          assert Spell(ps[0]) + "" == Spell(ps[0]);
        } else {
          assert Spell(ps[0]) + " " + Text(more) == Spell(ps[0]) + (" " + Text(more));
        }
      }
      LexPiece(ps[0], rest);
      if |ps| > 1 {
        assert rest[1..] == Text(more);
        TextTokens(more);
      }
      assert TokensOf(ps) == [TokenOf(ps[0])] + TokensOf(more);
    }
  }

  lemma LexNothing()
    ensures Tokens("") == Some([])
  {
  }

  // ---- The parser --------------------------------------------------------

  function UpperChar(c: char): char {
    if 'a' <= c <= 'z' then (c as int - 32) as char else c
  }

  /** Equal up to ASCII case. */
  predicate Key(s: string, keyword: string) {
    |s| == |keyword| && forall i :: 0 <= i < |s| ==> UpperChar(s[i]) == keyword[i]
  }

  function ParseOp(s: string): Option<Op> {
    if s == "=" then Some(Eq)
    else if s == "!=" then Some(Ne)
    else if s == ">" then Some(Gt)
    else if s == "<" then Some(Lt)
    else if s == ">=" then Some(Ge)
    else if s == "<=" then Some(Le)
    else None
  }

  function ShowOp(op: Op): string {
    match op
    case Eq => "="
    case Ne => "!="
    case Gt => ">"
    case Lt => "<"
    case Ge => ">="
    case Le => "<="
  }

  /** How many tokens precede the closing parenthesis. */
  function ListLength(ts: seq<string>): (n: nat)
    ensures n <= |ts|
  {
    if ts == [] || ts[0] == ")" then 0 else 1 + ListLength(ts[1..])
  }

  /** `parse_in_list`, then the clause. */
  function ParseList(field: string, negated: bool, ts: seq<string>): (r: Option<(Clause, seq<string>)>)
    ensures r.Some? ==> |r.value.1| < |ts| && r.value.0.Member?
  {
    if ts == [] || ts[0] != "(" then None
    else
      var items := ts[1..];
      var n := ListLength(items);
      if (items != [] && Key(items[0], "SELECT")) || n == |items| || n == 0 then None
      else Some((Member(field, negated, items[..n]), items[n + 1..]))
  }

  /** `parse_where_condition`, for the operators of grants. */
  function ParseCondition(ts: seq<string>): (r: Option<(Clause, seq<string>)>)
    ensures r.Some? ==> |r.value.1| < |ts| && !r.value.0.AnyOf?
  {
    if |ts| < 3 then None
    else if Key(ts[1], "IN") then ParseList(ts[0], false, ts[2..])
    else if Key(ts[1], "NOT") then
      if Key(ts[2], "IN") then ParseList(ts[0], true, ts[3..]) else None
    else if Key(ts[1], "IS") then
      if Key(ts[2], "NULL") then Some((IsNull(ts[0]), ts[3..]))
      else if |ts| > 3 && Key(ts[2], "NOT") && Key(ts[3], "NULL") then Some((IsNotNull(ts[0]), ts[4..]))
      else None
    else match ParseOp(ts[1])
      case None => None
      case Some(op) => Some((Single(ts[0], op, ts[2]), ts[3..]))
  }

  /** `parse_where_or_group`: conditions joined by OR. */
  function ParseOr(ts: seq<string>): (r: Option<(seq<Clause>, seq<string>)>)
    ensures r.Some? ==> |r.value.1| < |ts| && r.value.0 != []
    ensures r.Some? ==> forall i {:trigger r.value.0[i]} :: 0 <= i < |r.value.0| ==> !r.value.0[i].AnyOf?
    decreases |ts|
  {
    match ParseCondition(ts)
    case None => None
    case Some((c, rest)) =>
      if rest != [] && Key(rest[0], "OR") then
        match ParseOr(rest[1..])
        case None => None
        case Some((cs, tail)) => Some(([c] + cs, tail))
      else Some(([c], rest))
  }

  function Group(cs: seq<Clause>): Clause {
    if |cs| == 1 then cs[0] else AnyOf(cs)
  }

  /** `parse_where_conditions`: groups joined by AND. */
  function ParseFilter(ts: seq<string>): Option<seq<Clause>>
    decreases |ts|
  {
    if ts == [] then Some([])
    else match ParseOr(ts)
      case None => None
      case Some((cs, rest)) =>
        match ParseFilter(if rest != [] && Key(rest[0], "AND") then rest[1..] else rest)
        case None => None
        case Some(more) => Some([Group(cs)] + more)
  }

  // ---- Rendered filters --------------------------------------------------

  function Quotes(values: seq<string>): seq<Piece> {
    seq(|values|, i requires 0 <= i < |values| => Quoted(values[i]))
  }

  function ConditionPieces(c: Clause): seq<Piece>
    requires !c.AnyOf?
  {
    match c
    case Single(column, op, value) => [Bare(column), Bare(ShowOp(op)), Quoted(value)]
    case IsNull(column) => [Bare(column), Bare("IS"), Bare("NULL")]
    case IsNotNull(column) => [Bare(column), Bare("IS"), Bare("NOT"), Bare("NULL")]
    case Member(column, negated, values) =>
      [Bare(column)] + (if negated then [Bare("NOT")] else []) + [Bare("IN"), Bare("(")] + Quotes(values) + [Bare(")")]
  }

  function Disjuncts(c: Clause): seq<Clause> {
    if c.AnyOf? then c.clauses else [c]
  }

  predicate SimpleClause(c: Clause)
    ensures SimpleClause(c) ==> !c.AnyOf?
  {
    !c.AnyOf? && IsWord(c.column) && (c.Member? ==> c.values != [])
  }

  predicate AllSimple(cs: seq<Clause>) {
    forall i {:trigger cs[i]} :: 0 <= i < |cs| ==> SimpleClause(cs[i])
  }

  /** Clauses as grants produce them. */
  predicate Renderable(c: Clause)
    ensures Renderable(c) ==> AllSimple(Disjuncts(c))
  {
    (c.AnyOf? ==> |c.clauses| > 1) && AllSimple(Disjuncts(c))
  }

  function OrPieces(cs: seq<Clause>): seq<Piece>
    requires AllSimple(cs)
  {
    if cs == [] then []
    else if |cs| == 1 then ConditionPieces(cs[0])
    else ConditionPieces(cs[0]) + [Bare("OR")] + OrPieces(cs[1..])
  }

  predicate AllRenderable(f: seq<Clause>) {
    forall i {:trigger f[i]} :: 0 <= i < |f| ==> Renderable(f[i])
  }

  function FilterPieces(f: seq<Clause>): seq<Piece>
    requires AllRenderable(f)
  {
    if f == [] then []
    else if |f| == 1 then OrPieces(Disjuncts(f[0]))
    else OrPieces(Disjuncts(f[0])) + [Bare("AND")] + FilterPieces(f[1..])
  }

  /** A membership list the parser reads to its end. */
  predicate ListOk(values: seq<string>) {
    ")" !in values && (values != [] ==> !Key(values[0], "SELECT"))
  }

  predicate ConditionLegible(c: Clause) {
    c.Member? ==> ListOk(c.values)
  }

  predicate AllLegible(cs: seq<Clause>) {
    forall i {:trigger cs[i]} :: 0 <= i < |cs| ==> ConditionLegible(cs[i])
  }

  predicate FilterLegible(f: seq<Clause>) {
    forall i {:trigger f[i]} :: 0 <= i < |f| ==> AllLegible(Disjuncts(f[i]))
  }

  // ---- Conditions --------------------------------------------------------

  lemma Keywords()
    ensures Key("IN", "IN") && Key("NOT", "NOT") && Key("IS", "IS") && Key("NULL", "NULL")
    ensures !Key("NOT", "IN") && !Key("IS", "IN") && !Key("IS", "NOT") && !Key("NOT", "NULL")
  {
    assert "IS"[1] != "IN"[1];
  }

  lemma OpIsOp(op: Op)
    ensures ParseOp(ShowOp(op)) == Some(op) && IsOperator(ShowOp(op))
    ensures !Key(ShowOp(op), "IN") && !Key(ShowOp(op), "NOT") && !Key(ShowOp(op), "IS")
  {
    assert ShowOp(op)[0] != 'I' && ShowOp(op)[0] != 'N';
    assert UpperChar(ShowOp(op)[0]) == ShowOp(op)[0];
  }

  lemma {:induction false} ListEnds(values: seq<string>, rest: seq<string>)
    ensures ")" !in values ==> ListLength(values + [")"] + rest) == |values|
    ensures ")" in values ==> ListLength(values + [")"] + rest) < |values|
  {
    var ts := values + [")"] + rest;
    if values != [] {
      assert ts[1..] == values[1..] + [")"] + rest;
      ListEnds(values[1..], rest);
      assert ")" in values <==> values[0] == ")" || ")" in values[1..];
    }
  }

  /** A list is read back exactly if it is legible. */
  lemma ListBack(field: string, negated: bool, values: seq<string>, rest: seq<string>)
    requires values != []
    ensures var r := ParseList(field, negated, ["("] + values + [")"] + rest);
            var c := Member(field, negated, values);
            && (ListOk(values) ==> r == Some((c, rest)))
            && (!ListOk(values) ==> r.None? || (r.value.0 != c && r.value.0.Member?))
  {
    var ts := ["("] + values + [")"] + rest;
    var items := ts[1..];
    assert items == values + [")"] + rest;
    ListEnds(values, rest);
    if ")" !in values {
      assert items[..|values|] == values && items[|values| + 1..] == rest;
    }
  }

  function ConditionTokens(c: Clause): seq<string>
    requires !c.AnyOf?
  {
    TokensOf(ConditionPieces(c))
  }

  lemma ListTokens(c: Clause)
    requires c.Member?
    ensures ConditionTokens(c) == [c.column] + (if c.negated then ["NOT"] else []) + ["IN", "("] + c.values + [")"]
  {
    var ps := ConditionPieces(c);
    assert |ps| == |c.values| + if c.negated then 5 else 4;
  }

  lemma SingleBack(c: Clause, rest: seq<string>)
    requires c.Single?
    ensures ParseCondition(ConditionTokens(c) + rest) == Some((c, rest))
  {
    hide Key, ParseList, ShowOp, ParseOp;
    OpIsOp(c.op);
    var ts := ConditionTokens(c) + rest;
    assert ts == [c.column, ShowOp(c.op), c.value] + rest;
    assert ts[3..] == rest;
  }

  lemma NullBack(c: Clause, rest: seq<string>)
    requires c.IsNull? || c.IsNotNull?
    ensures ParseCondition(ConditionTokens(c) + rest) == Some((c, rest))
  {
    hide Key, ParseList, ParseOp;
    Keywords();
    var ts := ConditionTokens(c) + rest;
    if c.IsNull? {
      assert ts == [c.column, "IS", "NULL"] + rest;
      assert ts[3..] == rest;
    } else {
      assert ts == [c.column, "IS", "NOT", "NULL"] + rest;
      assert ts[4..] == rest;
    }
  }

  /** The tokens of a list condition are parsed as its list. */
  lemma MemberBack(c: Clause, rest: seq<string>)
    requires c.Member?
    ensures ParseCondition(ConditionTokens(c) + rest) ==
            ParseList(c.column, c.negated, ["("] + c.values + [")"] + rest)
  {
    hide Key, ParseList, ParseOp, ConditionTokens;
    Keywords();
    ListTokens(c);
    var list := ["("] + c.values + [")"] + rest;
    var ts := ConditionTokens(c) + rest;
    if c.negated {
      assert ts == [c.column, "NOT", "IN"] + list;
      assert ts[3..] == list;
    } else {
      assert ts == [c.column, "IN"] + list;
      assert ts[2..] == list;
    }
  }

  lemma ConditionBack(c: Clause, rest: seq<string>)
    requires SimpleClause(c)
    ensures var r := ParseCondition(ConditionTokens(c) + rest);
            && (ConditionLegible(c) ==> r == Some((c, rest)))
            && (!ConditionLegible(c) ==> r.None? || (r.value.0 != c && !r.value.0.AnyOf?))
  {
    hide Key, IsWord, ParseList, ListOk, ParseCondition, ConditionTokens;
    match c {
      case Single(_, _, _) => SingleBack(c, rest);
      case IsNull(_) => NullBack(c, rest);
      case IsNotNull(_) => NullBack(c, rest);
      case Member(column, negated, values) =>
        MemberBack(c, rest);
        ListBack(column, negated, values, rest);
    }
  }

  // ---- Groups and filters ------------------------------------------------

  lemma TokensConcat(a: seq<Piece>, b: seq<Piece>)
    ensures TokensOf(a + b) == TokensOf(a) + TokensOf(b)
  {
  }

  function OrTokens(cs: seq<Clause>): seq<string>
    requires AllSimple(cs)
  {
    TokensOf(OrPieces(cs))
  }

  lemma OrTokensStep(cs: seq<Clause>)
    requires AllSimple(cs) && cs != []
    ensures OrTokens(cs) == if |cs| == 1 then ConditionTokens(cs[0]) else ConditionTokens(cs[0]) + (["OR"] + OrTokens(cs[1..]))
  {
    hide ConditionPieces, SimpleClause;
    if |cs| > 1 {
      TokensConcat(ConditionPieces(cs[0]) + [Bare("OR")], OrPieces(cs[1..]));
      TokensConcat(ConditionPieces(cs[0]), [Bare("OR")]);
      assert TokensOf([Bare("OR")]) == ["OR"];
    }
  }

  lemma OrLast(ts: seq<string>, c: Clause, rest: seq<string>)
    requires ParseCondition(ts) == Some((c, rest)) && (rest == [] || !Key(rest[0], "OR"))
    ensures ParseOr(ts) == Some(([c], rest))
  {
    hide ParseCondition, Key;
  }

  lemma OrMore(ts: seq<string>, c: Clause, more: seq<string>)
    requires ParseCondition(ts) == Some((c, ["OR"] + more))
    ensures var r := ParseOr(more); ParseOr(ts) == if r.None? then None else Some(([c] + r.value.0, r.value.1))
  {
    hide ParseCondition;
    var rest := ["OR"] + more;
    assert rest[1..] == more;
    OrKeyword();
  }

  lemma OrFirst(ts: seq<string>)
    requires ParseOr(ts).Some?
    ensures ParseCondition(ts).Some? && ParseOr(ts).value.0[0] == ParseCondition(ts).value.0
  {
    hide ParseCondition, Key;
  }

  lemma LegibleParts(cs: seq<Clause>)
    requires cs != []
    ensures AllLegible(cs) <==> ConditionLegible(cs[0]) && AllLegible(cs[1..])
  {
    hide ConditionLegible;
  }

  /** The tokens after the first condition of a group. */
  function OrRest(cs: seq<Clause>, rest: seq<string>): seq<string>
    requires AllSimple(cs) && cs != []
  {
    if |cs| == 1 then rest else ["OR"] + (OrTokens(cs[1..]) + rest)
  }

  lemma OrSplits(cs: seq<Clause>, rest: seq<string>)
    requires AllSimple(cs) && cs != []
    ensures OrTokens(cs) + rest == ConditionTokens(cs[0]) + OrRest(cs, rest)
  {
    hide SimpleClause, ConditionTokens, OrTokens;
    OrTokensStep(cs);
    if |cs| > 1 {
      SimpleRest(cs);
      Regrouped(ConditionTokens(cs[0]), ["OR"], OrTokens(cs[1..]), rest);
    }
  }

  lemma SimpleRest(cs: seq<Clause>)
    requires AllSimple(cs) && cs != []
    ensures AllSimple(cs[1..])
  {
    hide SimpleClause;
  }

  lemma Regrouped(a: seq<string>, b: seq<string>, c: seq<string>, d: seq<string>)
    ensures a + (b + c) + d == a + (b + (c + d))
  {
  }

  lemma IllegibleFirst(cs: seq<Clause>, rest: seq<string>)
    requires AllSimple(cs) && cs != [] && !ConditionLegible(cs[0])
    ensures var r := ParseOr(OrTokens(cs) + rest); r.None? || r.value.0[0] != cs[0]
  {
    hide SimpleClause, ConditionLegible, ParseCondition, ConditionTokens, OrTokens, ParseOr, OrRest;
    OrSplits(cs, rest);
    ConditionBack(cs[0], OrRest(cs, rest));
    if ParseOr(OrTokens(cs) + rest).Some? {
      OrFirst(OrTokens(cs) + rest);
    }
  }

  lemma LegibleFirst(cs: seq<Clause>, rest: seq<string>)
    requires AllSimple(cs) && |cs| > 1 && ConditionLegible(cs[0])
    ensures var r := ParseOr(OrTokens(cs[1..]) + rest);
            ParseOr(OrTokens(cs) + rest) == if r.None? then None else Some(([cs[0]] + r.value.0, r.value.1))
  {
    hide SimpleClause, ConditionLegible, ParseCondition, ConditionTokens, OrTokens, ParseOr;
    OrSplits(cs, rest);
    ConditionBack(cs[0], OrRest(cs, rest));
    OrMore(OrTokens(cs) + rest, cs[0], OrTokens(cs[1..]) + rest);
  }

  /** A group is read back exactly if all its lists are legible. */
  lemma {:induction false} OrBack(cs: seq<Clause>, rest: seq<string>)
    requires AllSimple(cs) && cs != [] && (rest == [] || !Key(rest[0], "OR"))
    ensures var r := ParseOr(OrTokens(cs) + rest);
            if AllLegible(cs) then r == Some((cs, rest)) else r.None? || r.value.0 != cs
    decreases |cs|
  {
    hide SimpleClause, ConditionLegible, ParseCondition, ConditionTokens, OrTokens, ParseOr, Key, AllLegible;
    LegibleParts(cs);
    assert cs == [cs[0]] + cs[1..];
    if !ConditionLegible(cs[0]) {
      IllegibleFirst(cs, rest);
    } else if |cs| == 1 {
      NoneIllegible();
      assert cs[1..] == [] && [cs[0]] == cs;
      OrSplits(cs, rest);
      ConditionBack(cs[0], rest);
      OrLast(OrTokens(cs) + rest, cs[0], rest);
    } else {
      OrBack(cs[1..], rest);
      LegibleFirst(cs, rest);
    }
  }

  lemma NoneIllegible()
    ensures AllLegible([])
  {
  }

  lemma OrKeyword()
    ensures Key("OR", "OR") && Key("AND", "AND") && !Key("AND", "OR")
  {
  }

  lemma GroupInjective(cs: seq<Clause>, c: Clause)
    requires Renderable(c) && cs != [] && cs != Disjuncts(c)
    requires forall i {:trigger cs[i]} :: 0 <= i < |cs| ==> !cs[i].AnyOf?
    ensures Group(cs) != c
  {
    if |cs| == 1 {
      assert cs == [cs[0]];
    }
  }

  lemma GroupOfDisjuncts(c: Clause)
    requires Renderable(c)
    ensures Group(Disjuncts(c)) == c && Disjuncts(c) != []
  {
  }

  function FilterTokens(f: seq<Clause>): seq<string>
    requires AllRenderable(f)
  {
    TokensOf(FilterPieces(f))
  }

  lemma FilterTokensStep(f: seq<Clause>)
    requires AllRenderable(f) && f != []
    ensures FilterTokens(f) == OrTokens(Disjuncts(f[0])) + if |f| == 1 then [] else ["AND"] + FilterTokens(f[1..])
  {
    hide OrPieces, Renderable;
    var first := OrPieces(Disjuncts(f[0]));
    if |f| > 1 {
      TokensConcat(first + [Bare("AND")], FilterPieces(f[1..]));
      TokensConcat(first, [Bare("AND")]);
      assert TokensOf([Bare("AND")]) == ["AND"];
    }
  }

  lemma {:induction false} FilterBack(f: seq<Clause>)
    requires AllRenderable(f)
    ensures ParseFilter(FilterTokens(f)) == Some(f) <==> FilterLegible(f)
    decreases |f|
  {
    hide Renderable, AllLegible, OrTokens, ParseOr, FilterTokens, Group, Disjuncts;
    if f == [] {
      NoTokens();
    } else {
      FilterTokensStep(f);
      OrKeyword();
      var ds, rest := Disjuncts(f[0]), if |f| == 1 then [] else ["AND"] + FilterTokens(f[1..]);
      GroupOfDisjuncts(f[0]);
      OrBack(ds, rest);
      FilterBack(f[1..]);
      var ts := OrTokens(ds) + rest;
      NonemptyTokens(ds, rest);
      var r := ParseOr(ts);
      if r.Some? && r.value.0 != ds {
        GroupInjective(r.value.0, f[0]);
      }
      assert |f| > 1 ==> rest[1..] == FilterTokens(f[1..]);
      assert |f| == 1 ==> f[1..] == [];
      NoTokens();
      assert f == [f[0]] + f[1..];
      assert FilterLegible(f) <==> AllLegible(Disjuncts(f[0])) && FilterLegible(f[1..]);
    }
  }

  lemma NoTokens()
    ensures FilterTokens([]) == [] && ParseFilter([]) == Some([])
  {
  }

  lemma NonemptyTokens(cs: seq<Clause>, rest: seq<string>)
    requires AllSimple(cs) && cs != []
    ensures OrTokens(cs) + rest != []
  {
    OrTokensStep(cs);
    assert |ConditionPieces(cs[0])| > 0;
    assert |ConditionTokens(cs[0])| > 0;
  }

  // ---- Filters as text ---------------------------------------------------

  /** The rendered filter. */
  function FilterText(f: seq<Clause>): string
    requires AllRenderable(f)
  {
    Text(FilterPieces(f))
  }

  /** Tokenize, then parse. */
  function ReadFilter(text: string): Option<seq<Clause>> {
    match Tokens(text)
    case None => None
    case Some(ts) => ParseFilter(ts)
  }

  predicate PiecesOk(ps: seq<Piece>) {
    forall i {:trigger ps[i]} :: 0 <= i < |ps| ==> PieceOk(ps[i])
  }

  lemma WordKeywords()
    ensures IsWord("IN") && IsWord("NOT") && IsWord("IS") && IsWord("NULL") && IsWord("OR") && IsWord("AND")
    ensures IsWord("(") && IsWord(")")
  {
  }

  lemma ConditionPiecesOk(c: Clause)
    requires SimpleClause(c)
    ensures PiecesOk(ConditionPieces(c))
  {
    hide IsWord;
    WordKeywords();
    if c.Single? {
      OpIsOp(c.op);
    }
  }

  lemma {:induction false} OrPiecesOk(cs: seq<Clause>)
    requires AllSimple(cs)
    ensures PiecesOk(OrPieces(cs))
  {
    hide SimpleClause, IsWord, ConditionPieces;
    WordKeywords();
    if cs != [] {
      ConditionPiecesOk(cs[0]);
      OrPiecesOk(cs[1..]);
    }
  }

  lemma {:induction false} FilterPiecesOk(f: seq<Clause>)
    requires AllRenderable(f)
    ensures PiecesOk(FilterPieces(f))
  {
    hide Renderable, IsWord, OrPieces;
    WordKeywords();
    if f != [] {
      OrPiecesOk(Disjuncts(f[0]));
      FilterPiecesOk(f[1..]);
    }
  }

  /** The text of a filter reads back as that filter, whatever its values
      contain, exactly if every membership list is legible: none of its values
      is a closing parenthesis and the first is not the word SELECT. */
  lemma TextBack(f: seq<Clause>)
    requires AllRenderable(f)
    ensures ReadFilter(FilterText(f)) == Some(f) <==> FilterLegible(f)
  {
    hide Renderable, Lex, FilterPieces, ParseFilter, FilterLegible, Text, PieceOk;
    FilterPiecesOk(f);
    TextTokens(FilterPieces(f));
    FilterBack(f);
  }

  // ---- From a grant to the rows of a query -------------------------------

  predicate AllWords(names: set<string>) {
    forall n <- names :: IsWord(n)
  }

  lemma ShapedRenders(f: seq<Clause>, terms: Terms)
    requires ShapedFilter(f, terms) && AllWords(terms.columns)
    ensures AllRenderable(f)
  {
    hide IsWord;
    forall i | 0 <= i < |f|
      ensures Renderable(f[i])
    {
      assert Shaped(f[i], terms);
    }
  }

  predicate NoSelect(values: set<string>) {
    forall v <- values :: !Key(v, "SELECT")
  }

  /** No value that a membership list would be misread at. */
  predicate Clear(values: set<string>) {
    ")" !in values && NoSelect(values)
  }

  /** No alternative tests equality with a closing parenthesis. */
  predicate Plain(alternatives: seq<seq<Condition>>) {
    forall i, j | 0 <= i < |alternatives| && 0 <= j < |alternatives[i]| ::
      alternatives[i][j].Cmp? && alternatives[i][j].op == Eq ==> alternatives[i][j].value != ")"
  }

  /** A subquery never supplies a closing parenthesis. */
  lemma PlainIsClear(env: Env, db: Db, alternatives: seq<seq<Condition>>)
    requires env.dropping && Plain(alternatives) && NoSelect(TermsOf(env, db, alternatives).values)
    ensures Clear(TermsOf(env, db, alternatives).values)
  {
    hide HoldAll;
    assert ")"[0] == ')' && !TokenSafe(")");
  }

  lemma ClearIsLegible(f: seq<Clause>, terms: Terms)
    requires ShapedFilter(f, terms) && Clear(terms.values)
    ensures FilterLegible(f)
  {
    hide Key;
    forall i, j | 0 <= i < |f| && 0 <= j < |Disjuncts(f[i])|
      ensures ConditionLegible(Disjuncts(f[i])[j])
    {
      assert Shaped(f[i], terms);
      var c := Disjuncts(f[i])[j];
      assert PlainClause(c, terms);
      if c.Member? {
        assert forall v :: v in c.values ==> v in AsSet(c.values);
        assert c.values[0] in terms.values;
      }
    }
  }

  /** The text is a filter's, the filter accepts exactly the rows the grant
      allows, and the text reads back as it exactly if its lists are legible. */
  ghost predicate Conveys(env: Env, db: Db, alternatives: seq<seq<Condition>>, text: string, f: seq<Clause>) {
    && AllRenderable(f) && text == FilterText(f)
    && (ReadFilter(text) == Some(f) <==> FilterLegible(f))
    && forall table: string, row: Row :: MatchesAll(env, table, row, f) <==> Allows(env, db, table, row, alternatives)
  }

  /** A grant compiled to text, with the filter the text stands for. It is read
      back as that filter exactly if its lists are legible, and so whenever no
      value the grant tests equality with is a closing parenthesis and none of
      those or of the values it selects is the word SELECT. */
  method GrantText(env: Env, db: Db, alternatives: seq<seq<Condition>>) returns (r: Result<string>, ghost f: seq<Clause>)
    requires alternatives != [] && AllWords(Columns(alternatives))
    ensures r.Ok? ==> Conveys(env, db, alternatives, r.value, f)
    ensures r.Ok? && env.dropping && Plain(alternatives) && NoSelect(TermsOf(env, db, alternatives).values) ==>
              ReadFilter(r.value) == Some(f)
    ensures r.Ok? ==> forall i | 0 <= i < |alternatives| :: AllExecutable(env, db, alternatives[i])
  {
    hide MatchesAll, Allows, FilterText, ReadFilter, FilterLegible, AllRenderable, ShapedFilter, AllWords;
    hide AllExecutable, Clear, Plain, NoSelect;
    var filter := GrantFilter(env, db, alternatives);
    f := [];
    if filter.Err? {
      return Err, f;
    }
    f := filter.value;
    ShapedRenders(f, TermsOf(env, db, alternatives));
    TextBack(f);
    if env.dropping && Plain(alternatives) && NoSelect(TermsOf(env, db, alternatives).values) {
      PlainIsClear(env, db, alternatives);
      ClearIsLegible(f, TermsOf(env, db, alternatives));
    }
    r := Ok(FilterText(filter.value));
  }

  /** `tokenize_where`: one pass over the characters. */
  method Tokenize(s: string) returns (r: Option<seq<string>>)
    ensures r == Tokens(s)
  {
    hide IsSpace;
    var tokens: seq<string>, current, building, inQuote, i := [], "", false, false, 0;
    assert s[0..] == s;
    NothingYet(Tokens(s));
    while i < |s|
      invariant i <= |s|
      invariant Tokens(s) == After(tokens, Lex(s[i..], current, building, inQuote))
    {
      var c := s[i];
      ghost var rest := s[i..];
      assert rest[1..] == s[i + 1..] && (|rest| > 1 ==> rest[1] == s[i + 1] && rest[2..] == s[i + 2..]);
      if inQuote {
        if c == '\\' {
          if i + 1 >= |s| {
            return None;
          }
          current := current + if s[i + 1] == '\'' || s[i + 1] == '\\' then [s[i + 1]] else [c, s[i + 1]];
          i := i + 2;
        } else {
          if c == '\'' {
            inQuote := false;
          } else {
            current := current + [c];
          }
          i := i + 1;
        }
      } else if c == '\'' && !building {
        inQuote, building, i := true, true, i + 1;
      } else if c == '=' || c == '<' || c == '>' || (c == '!' && i + 1 < |s| && s[i + 1] == '=') {
        var n := if c != '=' && i + 1 < |s| && s[i + 1] == '=' then 2 else 1;
        assert StartsOperator(rest) && OperatorLength(rest) == n && rest[..n] == s[i..i + n] && rest[n..] == s[i + n..];
        AfterPush(tokens, Pending(current, building), Push(Some(s[i..i + n]), Lex(s[i + n..], "", false, false)));
        tokens := Add(tokens, Pending(current, building));
        AfterPush(tokens, Some(s[i..i + n]), Lex(s[i + n..], "", false, false));
        tokens := Add(tokens, Some(s[i..i + n]));
        current, building, i := "", false, i + n;
      } else if IsSpace(c) {
        AfterPush(tokens, Pending(current, building), Lex(s[i + 1..], "", false, false));
        tokens := Add(tokens, Pending(current, building));
        current, building, i := "", false, i + 1;
      } else {
        current, building, i := current + [c], true, i + 1;
      }
    }
    if inQuote {
      return None;
    }
    AfterPush(tokens, Pending(current, building), Some([]));
    tokens := Add(tokens, Pending(current, building));
    assert tokens + [] == tokens;
    return Some(tokens);
  }

  function Add(tokens: seq<string>, token: Option<string>): seq<string> {
    if token.Some? then tokens + [token.value] else tokens
  }

  function After(tokens: seq<string>, r: Option<seq<string>>): Option<seq<string>> {
    if r.None? then None else Some(tokens + r.value)
  }

  lemma NothingYet(r: Option<seq<string>>)
    ensures After([], r) == r
  {
    if r.Some? {
      assert [] + r.value == r.value;
    }
  }

  lemma AfterPush(tokens: seq<string>, token: Option<string>, r: Option<seq<string>>)
    ensures After(tokens, Push(token, r)) == After(Add(tokens, token), r)
  {
    if token.Some? && r.Some? {
      assert tokens + ([token.value] + r.value) == tokens + [token.value] + r.value;
    }
  }
}
