/**
 The grammar of the capture filter language, as concrete syntax trees, and the recursive descent that reads
 them (`capture_filter.py`). `Yield` writes a tree as tokens; reading is its exact inverse.
 */
module FilterGrammar {
  import opened Wrappers
  import opened FilterLexer
  import opened FilterPrimitives

  const MAX_LENGTH := 300
  const MAX_DEPTH := 16

  // ----- tokens by their role ------------------------------------------------------

  datatype Kind = OrWord | AndWord | NotWord | Open | Close | Qualified | Word

  /** The role a token plays, whatever the case of its letters. */
  function KindOf(t: string): Kind {
    var w := Lower(t);
    if w == "or" || w == "||" then OrWord
    else if w == "and" || w == "&&" then AndWord
    else if w == "not" || w == "!" then NotWord
    else if w == "(" then Open
    else if w == ")" then Close
    else if IsQualified(w) then Qualified
    else Word
  }

  const OPEN := "("
  const CLOSE := ")"

  lemma KindOfParentheses()
    ensures KindOf(OPEN) == Open && KindOf(CLOSE) == Close
  {
    LowerOfLower(OPEN);
    LowerOfLower(CLOSE);
  }

  /** How tests are read: the grammar does not depend on what they are. */
  type Reader = Tokens -> Read

  function TestReader(lib: Lib): Reader {
    (ts: Tokens) => ReadTest(lib, ts)
  }

  // ----- trees -------------------------------------------------------------------

  datatype OrTree = OrLast(last: AndTree) | OrMore(first: AndTree, op: string, rest: OrTree)

  datatype AndTree = AndLast(last: UnaryTree) | AndMore(first: UnaryTree, op: string, rest: AndTree)

  datatype UnaryTree =
    | Not(op: string, arg: UnaryTree)
    | Group(body: OrTree)
    | Leaf(words: Tokens, test: Test)

  function YieldOr(e: OrTree): Tokens {
    match e
    case OrLast(a) => YieldAnd(a)
    case OrMore(a, op, rest) => YieldAnd(a) + ([op] + YieldOr(rest))
  }

  function YieldAnd(e: AndTree): Tokens {
    match e
    case AndLast(u) => YieldUnary(u)
    case AndMore(u, op, rest) => YieldUnary(u) + ([op] + YieldAnd(rest))
  }

  function YieldUnary(e: UnaryTree): Tokens {
    match e
    case Not(op, u) => [op] + YieldUnary(u)
    case Group(o) => [OPEN] + (YieldOr(o) + [CLOSE])
    case Leaf(words, _) => words
  }

  /** The tree is one of the grammar: connectives are spelled as such and the leaves are tests. */
  predicate GoodOr(read: Reader, e: OrTree) {
    match e
    case OrLast(a) => GoodAnd(read, a)
    case OrMore(a, op, rest) => GoodAnd(read, a) && KindOf(op).OrWord? && GoodOr(read, rest)
  }

  predicate GoodAnd(read: Reader, e: AndTree) {
    match e
    case AndLast(u) => GoodUnary(read, u)
    case AndMore(u, op, rest) => GoodUnary(read, u) && KindOf(op).AndWord? && GoodAnd(read, rest)
  }

  predicate GoodUnary(read: Reader, e: UnaryTree) {
    match e
    case Not(op, u) => KindOf(op).NotWord? && GoodUnary(read, u)
    case Group(o) => GoodOr(read, o)
    case Leaf(words, test) => read(words) == Ok((test, |words|))
  }

  function Max(a: nat, b: nat): nat { if a < b then b else a }

  /** How many `not`s and parentheses are open at the deepest test. */
  function NestOr(e: OrTree): nat {
    match e
    case OrLast(a) => NestAnd(a)
    case OrMore(a, _, rest) => Max(NestAnd(a), NestOr(rest))
  }

  function NestAnd(e: AndTree): nat {
    match e
    case AndLast(u) => NestUnary(u)
    case AndMore(u, _, rest) => Max(NestUnary(u), NestAnd(rest))
  }

  function NestUnary(e: UnaryTree): nat {
    match e
    case Not(_, u) => 1 + NestUnary(u)
    case Group(o) => 1 + NestOr(o)
    case Leaf(_, _) => 0
  }

  // ----- meaning -----------------------------------------------------------------

  predicate EvalOr(lib: Lib, e: OrTree, p: Packet) {
    match e
    case OrLast(a) => EvalAnd(lib, a, p)
    case OrMore(a, _, rest) => EvalAnd(lib, a, p) || EvalOr(lib, rest, p)
  }

  predicate EvalAnd(lib: Lib, e: AndTree, p: Packet) {
    match e
    case AndLast(u) => EvalUnary(lib, u, p)
    case AndMore(u, _, rest) => EvalUnary(lib, u, p) && EvalAnd(lib, rest, p)
  }

  predicate EvalUnary(lib: Lib, e: UnaryTree, p: Packet) {
    match e
    case Not(_, u) => !EvalUnary(lib, u, p)
    case Group(o) => EvalOr(lib, o, p)
    case Leaf(_, test) => Holds(lib, test, p)
  }

  // ----- how far a test reaches ----------------------------------------------------

  /** Not a word that would make a bare protocol before it a qualifier. */
  predicate EndsLeaf(rest: Tokens) {
    rest == [] || !KindOf(rest[0]).Qualified?
  }

  predicate SameTest(ts: Tokens, us: Tokens, n: nat) {
    n <= |ts| && n <= |us| && us[..n] == ts[..n] && EndsLeaf(us[n..])
  }

  /** Reading takes at least one token and depends on nothing after the ones it takes. */
  ghost predicate Local(read: Reader) {
    && (forall ts: Tokens {:trigger read(ts)} :: read(ts).Ok? ==> 0 < read(ts).value.1 <= |ts|)
    && (forall ts: Tokens, us: Tokens {:trigger SameTest(ts, us, read(ts).value.1)} ::
          (read(ts).Ok? && SameTest(ts, us, read(ts).value.1)) ==> read(us) == read(ts))
    && (forall ts: Tokens {:trigger read(ts)} ::
          ts != [] && (KindOf(ts[0]).NotWord? || KindOf(ts[0]).Open?) ==> read(ts).Err?)
  }

  // ----- recursive descent -----------------------------------------------------------

  predicate OpensOr(ts: Tokens) { ts != [] && KindOf(ts[0]).OrWord? }
  predicate OpensAnd(ts: Tokens) { ts != [] && KindOf(ts[0]).AndWord? }

  function ParseOr(read: Reader, ts: Tokens, depth: nat): (r: Result<(OrTree, nat), FilterError>)
    requires Local(read)
    ensures r.Ok? ==> 0 < r.value.1 <= |ts|
    decreases |ts|, 2
  {
    var a :- ParseAnd(read, ts, depth);
    if OpensOr(ts[a.1..]) then
      var rest :- ParseOr(read, ts[a.1 + 1..], depth);
      Ok((OrMore(a.0, ts[a.1], rest.0), a.1 + 1 + rest.1))
    else Ok((OrLast(a.0), a.1))
  }

  function ParseAnd(read: Reader, ts: Tokens, depth: nat): (r: Result<(AndTree, nat), FilterError>)
    requires Local(read)
    ensures r.Ok? ==> 0 < r.value.1 <= |ts|
    decreases |ts|, 1
  {
    var u :- ParseUnary(read, ts, depth);
    if OpensAnd(ts[u.1..]) then
      var rest :- ParseAnd(read, ts[u.1 + 1..], depth);
      Ok((AndMore(u.0, ts[u.1], rest.0), u.1 + 1 + rest.1))
    else Ok((AndLast(u.0), u.1))
  }

  function ParseUnary(read: Reader, ts: Tokens, depth: nat): (r: Result<(UnaryTree, nat), FilterError>)
    requires Local(read)
    ensures r.Ok? ==> 0 < r.value.1 <= |ts|
    decreases |ts|, 0
  {
    if depth > MAX_DEPTH then Err(TooDeep)
    else if ts != [] && KindOf(ts[0]).NotWord? then
      var u :- ParseUnary(read, ts[1..], depth + 1);
      Ok((Not(ts[0], u.0), 1 + u.1))
    else if ts != [] && ts[0] == OPEN then
      var o :- ParseOr(read, ts[1..], depth + 1);
      if 1 + o.1 < |ts| && ts[1 + o.1] == CLOSE then Ok((Group(o.0), 2 + o.1)) else Err(NeverClosed)
    else
      var t :- read(ts);
      Ok((Leaf(ts[..t.1], t.0), t.1))
  }

  /** `_Parser.parse`. */
  function Parse(read: Reader, ts: Tokens): Result<OrTree, FilterError>
    requires Local(read)
  {
    if ts == [] then Err(Empty)
    else
      var e :- ParseOr(read, ts, 0);
      if e.1 < |ts| then Err(Unexpected) else Ok(e.0)
  }

  // ----- what may follow -----------------------------------------------------------

  predicate EndsAnd(rest: Tokens) {
    EndsLeaf(rest) && !OpensAnd(rest)
  }

  predicate EndsOr(rest: Tokens) {
    EndsAnd(rest) && !OpensOr(rest)
  }

  // ----- what is written is read back ----------------------------------------------------

  /** The result of reading at `depth` a tree that nests `nest` deep and takes `n` tokens. */
  function Outcome<T>(tree: T, nest: nat, n: nat, depth: nat): Result<(T, nat), FilterError> {
    if depth + nest <= MAX_DEPTH then Ok((tree, n)) else Err(TooDeep)
  }

  /** One level of the descent at a time: these say all that the proofs below use of the parser. */
  lemma LastSteps(read: Reader, before: Tokens, rest: Tokens, depth: nat)
    requires Local(read)
    ensures forall a :: !OpensOr(rest) && ParseAnd(read, before + rest, depth) == Ok((a, |before|)) ==>
      ParseOr(read, before + rest, depth) == Ok((OrLast(a), |before|))
    ensures forall u :: !OpensAnd(rest) && ParseUnary(read, before + rest, depth) == Ok((u, |before|)) ==>
      ParseAnd(read, before + rest, depth) == Ok((AndLast(u), |before|))
  {
    hide KindOf;
    assert (before + rest)[|before|..] == rest;
  }

  lemma ErrorSteps(read: Reader, ts: Tokens, depth: nat)
    requires Local(read)
    ensures ParseAnd(read, ts, depth).Err? ==> ParseOr(read, ts, depth) == Err(ParseAnd(read, ts, depth).error)
    ensures ParseUnary(read, ts, depth).Err? ==> ParseAnd(read, ts, depth) == Err(ParseUnary(read, ts, depth).error)
    ensures depth > MAX_DEPTH ==> ParseUnary(read, ts, depth) == Err(TooDeep)
  {
    hide KindOf;
  }

  lemma OrStep(read: Reader, before: Tokens, op: string, after: Tokens, a: AndTree, depth: nat)
    requires Local(read) && KindOf(op).OrWord?
    requires ParseAnd(read, before + ([op] + after), depth) == Ok((a, |before|))
    ensures ParseOr(read, before + ([op] + after), depth) ==
      match ParseOr(read, after, depth)
      case Ok((rest, n)) => Ok((OrMore(a, op, rest), |before| + 1 + n))
      case Err(error) => Err(error)
  {
    hide KindOf;
    var ts := before + ([op] + after);
    assert ts[|before|..] == [op] + after && ts[|before| + 1..] == after;
  }

  lemma AndStep(read: Reader, before: Tokens, op: string, after: Tokens, u: UnaryTree, depth: nat)
    requires Local(read) && KindOf(op).AndWord?
    requires ParseUnary(read, before + ([op] + after), depth) == Ok((u, |before|))
    ensures ParseAnd(read, before + ([op] + after), depth) ==
      match ParseAnd(read, after, depth)
      case Ok((rest, n)) => Ok((AndMore(u, op, rest), |before| + 1 + n))
      case Err(error) => Err(error)
  {
    hide KindOf;
    var ts := before + ([op] + after);
    assert ts[|before|..] == [op] + after && ts[|before| + 1..] == after;
  }

  lemma {:induction false} ParseYieldOr(read: Reader, e: OrTree, rest: Tokens, depth: nat)
    requires Local(read) && GoodOr(read, e) && EndsOr(rest)
    ensures ParseOr(read, YieldOr(e) + rest, depth) == Outcome(e, NestOr(e), |YieldOr(e)|, depth)
    decreases e
  {
    hide ParseOr, ParseAnd, ParseUnary, KindOf;
    ErrorSteps(read, YieldOr(e) + rest, depth);
    match e
    case OrLast(a) =>
      ParseYieldAnd(read, a, rest, depth);
      LastSteps(read, YieldAnd(a), rest, depth);
    case OrMore(a, op, more) =>
      var before, after := YieldAnd(a), YieldOr(more) + rest;
      ParseYieldAnd(read, a, [op] + after, depth);
      ParseYieldOr(read, more, rest, depth);
      assert YieldOr(e) + rest == before + ([op] + after);
      if depth + NestAnd(a) <= MAX_DEPTH {
        OrStep(read, before, op, after, a, depth);
      }
  }

  lemma {:induction false} ParseYieldAnd(read: Reader, e: AndTree, rest: Tokens, depth: nat)
    requires Local(read) && GoodAnd(read, e) && EndsAnd(rest)
    ensures ParseAnd(read, YieldAnd(e) + rest, depth) == Outcome(e, NestAnd(e), |YieldAnd(e)|, depth)
    decreases e
  {
    hide ParseOr, ParseAnd, ParseUnary, KindOf;
    ErrorSteps(read, YieldAnd(e) + rest, depth);
    match e
    case AndLast(u) =>
      ParseYieldUnary(read, u, rest, depth);
      LastSteps(read, YieldUnary(u), rest, depth);
    case AndMore(u, op, more) =>
      var before, after := YieldUnary(u), YieldAnd(more) + rest;
      ParseYieldUnary(read, u, [op] + after, depth);
      ParseYieldAnd(read, more, rest, depth);
      assert YieldAnd(e) + rest == before + ([op] + after);
      if depth + NestUnary(u) <= MAX_DEPTH {
        AndStep(read, before, op, after, u, depth);
      }
  }

  lemma NotStep(read: Reader, op: string, after: Tokens, depth: nat)
    requires Local(read) && KindOf(op).NotWord? && depth <= MAX_DEPTH
    ensures ParseUnary(read, [op] + after, depth) ==
      match ParseUnary(read, after, depth + 1)
      case Ok((u, n)) => Ok((Not(op, u), 1 + n))
      case Err(error) => Err(error)
  {
    hide KindOf;
    assert ([op] + after)[1..] == after;
  }

  lemma GroupStep(read: Reader, body: Tokens, rest: Tokens, depth: nat)
    requires Local(read) && depth <= MAX_DEPTH
    requires var r := ParseOr(read, body + ([CLOSE] + rest), depth + 1); r.Ok? ==> r.value.1 == |body|
    ensures ParseUnary(read, [OPEN] + (body + ([CLOSE] + rest)), depth) ==
      match ParseOr(read, body + ([CLOSE] + rest), depth + 1)
      case Ok((o, n)) => Ok((Group(o), 2 + n))
      case Err(error) => Err(error)
  {
    hide KindOf;
    KindOfParentheses();
    var after := body + ([CLOSE] + rest);
    assert ([OPEN] + after)[1..] == after;
  }

  lemma {:induction false} ParseYieldUnary(read: Reader, e: UnaryTree, rest: Tokens, depth: nat)
    requires Local(read) && GoodUnary(read, e) && EndsLeaf(rest)
    ensures ParseUnary(read, YieldUnary(e) + rest, depth) == Outcome(e, NestUnary(e), |YieldUnary(e)|, depth)
    decreases e
  {
    hide ParseOr, ParseAnd, ParseUnary, KindOf;
    ErrorSteps(read, YieldUnary(e) + rest, depth);
    if depth <= MAX_DEPTH {
      match e
      case Not(op, u) =>
        assert YieldUnary(e) + rest == [op] + (YieldUnary(u) + rest);
        ParseYieldUnary(read, u, rest, depth + 1);
        NotStep(read, op, YieldUnary(u) + rest, depth);
      case Group(o) =>
        assert YieldUnary(e) + rest == [OPEN] + (YieldOr(o) + ([CLOSE] + rest));
        KindOfParentheses();
        ParseYieldOr(read, o, [CLOSE] + rest, depth + 1);
        GroupStep(read, YieldOr(o), rest, depth);
      case Leaf(words, test) =>
        LeafStep(read, words, test, rest, depth);
    }
  }

  lemma LeafStep(read: Reader, words: Tokens, test: Test, rest: Tokens, depth: nat)
    requires Local(read) && depth <= MAX_DEPTH && read(words) == Ok((test, |words|)) && EndsLeaf(rest)
    ensures ParseUnary(read, words + rest, depth) == Ok((Leaf(words, test), |words|))
  {
    hide KindOf;
    KindOfParentheses();
    var ts := words + rest;
    assert ts[..|words|] == words && ts[|words|..] == rest;
    assert words[..|words|] == words;
    assert SameTest(words, ts, read(words).value.1);
  }

  // ----- what is read was written ------------------------------------------------------

  lemma {:induction false} ReadBackOr(read: Reader, ts: Tokens, depth: nat)
    requires Local(read) && ParseOr(read, ts, depth).Ok?
    ensures var (e, n) := ParseOr(read, ts, depth).value;
      GoodOr(read, e) && YieldOr(e) == ts[..n] && depth + NestOr(e) <= MAX_DEPTH
    decreases |ts|, 2
  {
    hide KindOf, ParseAnd, ParseUnary;
    ReadBackAnd(read, ts, depth);
    var (a, k) := ParseAnd(read, ts, depth).value;
    if OpensOr(ts[k..]) {
      ReadBackOr(read, ts[k + 1..], depth);
      Respliced(ts, k, ParseOr(read, ts[k + 1..], depth).value.1);
    }
  }

  lemma Respliced(ts: Tokens, k: nat, m: nat)
    requires k < |ts| && m <= |ts| - k - 1
    ensures ts[..k] + ([ts[k]] + ts[k + 1..][..m]) == ts[..k + 1 + m]
    ensures ts[k..][0] == ts[k]
  {
  }

  lemma {:induction false} ReadBackAnd(read: Reader, ts: Tokens, depth: nat)
    requires Local(read) && ParseAnd(read, ts, depth).Ok?
    ensures var (e, n) := ParseAnd(read, ts, depth).value;
      GoodAnd(read, e) && YieldAnd(e) == ts[..n] && depth + NestAnd(e) <= MAX_DEPTH
    decreases |ts|, 1
  {
    hide KindOf, ParseOr, ParseUnary;
    ReadBackUnary(read, ts, depth);
    var (u, k) := ParseUnary(read, ts, depth).value;
    if OpensAnd(ts[k..]) {
      ReadBackAnd(read, ts[k + 1..], depth);
      Respliced(ts, k, ParseAnd(read, ts[k + 1..], depth).value.1);
    }
  }

  lemma {:induction false} ReadBackUnary(read: Reader, ts: Tokens, depth: nat)
    requires Local(read) && ParseUnary(read, ts, depth).Ok?
    ensures var (e, n) := ParseUnary(read, ts, depth).value;
      GoodUnary(read, e) && YieldUnary(e) == ts[..n] && depth + NestUnary(e) <= MAX_DEPTH
    decreases |ts|, 0
  {
    hide ParseOr, ParseAnd, KindOf;
    if ts != [] && KindOf(ts[0]).NotWord? {
      ReadBackUnary(read, ts[1..], depth + 1);
      var m := ParseUnary(read, ts[1..], depth + 1).value.1;
      assert [ts[0]] + ts[1..][..m] == ts[..1 + m];
    } else if ts != [] && ts[0] == OPEN {
      ReadBackOr(read, ts[1..], depth + 1);
      var m := ParseOr(read, ts[1..], depth + 1).value.1;
      assert [OPEN] + (ts[1..][..m] + [CLOSE]) == ts[..2 + m];
    } else {
      ReadBackLeaf(read, ts);
    }
  }

  lemma ReadBackLeaf(read: Reader, ts: Tokens)
    requires Local(read) && read(ts).Ok?
    ensures var n := read(ts).value.1; |ts[..n]| == n && read(ts[..n]) == read(ts)
  {
    var n := read(ts).value.1;
    var words := ts[..n];
    assert words[..n] == words && words[n..] == [];
    assert SameTest(ts, words, read(ts).value.1);
  }

  // ----- main results ----------------------------------------------------------------

  lemma SameTestAgrees(lib: Lib, ts: Tokens, us: Tokens)
    requires ReadTest(lib, ts).Ok? && SameTest(ts, us, ReadTest(lib, ts).value.1)
    ensures ReadTest(lib, us) == ReadTest(lib, ts)
  {
    hide ReadTest;
    var n := ReadTest(lib, ts).value.1;
    assert forall i :: 0 <= i < n ==> us[..n][i] == us[i] && ts[..n][i] == ts[i];
    assert EndsTest(us[n..]) by {
      if n < |us| { assert us[n..][0] == us[n]; }
    }
    ReadTestAgrees(lib, ts, us);
  }

  lemma LeafStart(lib: Lib, ts: Tokens)
    requires ts != [] && (KindOf(ts[0]).NotWord? || KindOf(ts[0]).Open?)
    ensures ReadTest(lib, ts).Err?
  {
  }

  lemma TestsAreLocal(lib: Lib)
    ensures Local(TestReader(lib))
  {
    hide ReadTest, KindOf;
    forall ts: Tokens | TestReader(lib)(ts).Ok? ensures 0 < TestReader(lib)(ts).value.1 <= |ts| {
      ReadTestTakes(lib, ts);
    }
    var read := TestReader(lib);
    forall ts: Tokens, us: Tokens | read(ts).Ok? && SameTest(ts, us, read(ts).value.1)
      ensures read(us) == read(ts)
    {
      SameTestAgrees(lib, ts, us);
    }
    forall ts: Tokens | ts != [] && (KindOf(ts[0]).NotWord? || KindOf(ts[0]).Open?) ensures read(ts).Err? {
      LeafStart(lib, ts);
    }
  }

  /**
   The parser decides the grammar: a token list is read as a tree exactly when the tree is a good one no more
   than 16 levels deep and the tokens are the ones it yields. So the grammar is unambiguous as well.
   */
  lemma ParserDecidesGrammar(read: Reader, ts: Tokens, e: OrTree)
    requires Local(read)
    ensures Parse(read, ts) == Ok(e) <==> GoodOr(read, e) && NestOr(e) <= MAX_DEPTH && YieldOr(e) == ts
  {
    hide KindOf;
    if Parse(read, ts) == Ok(e) {
      ReadBackOr(read, ts, 0);
      assert ts[..|ts|] == ts;
    }
    if GoodOr(read, e) && YieldOr(e) == ts {
      assert YieldOr(e) + [] == ts;
      ParseYieldOr(read, e, [], 0);
    }
  }

  /** A good tree that is nested too deep is refused for that reason and no other. */
  lemma TooDeepIsRefused(read: Reader, e: OrTree)
    requires Local(read) && GoodOr(read, e) && NestOr(e) > MAX_DEPTH
    ensures Parse(read, YieldOr(e)) == Err(TooDeep)
  {
    hide KindOf;
    assert YieldOr(e) + [] == YieldOr(e);
    ParseYieldOr(read, e, [], 0);
    YieldNotEmpty(read, e);
  }

  lemma YieldNotEmpty(read: Reader, e: OrTree)
    requires Local(read) && GoodOr(read, e)
    ensures YieldOr(e) != []
  {
    var a := match e case OrLast(a) => a case OrMore(a, _, _) => a;
    var u := match a case AndLast(u) => u case AndMore(u, _, _) => u;
    assert GoodAnd(read, a) && |YieldOr(e)| >= |YieldAnd(a)|;
    assert GoodUnary(read, u) && |YieldAnd(a)| >= |YieldUnary(u)|;
    if u.Leaf? {
      assert read(u.words).Ok?;
    }
  }

  /** `compile_filter`: the tree behind the predicate that a text compiles to. */
  function Compile(lib: Lib, text: string): Result<OrTree, FilterError> {
    if |Strip(text)| > MAX_LENGTH then Err(TooLong)
    else
      var ts :- Lex(Strip(text));
      TestsAreLocal(lib);
      Parse(TestReader(lib), ts)
  }
}
