/** Writing formulas as filter text, with parentheses only where `and` binding tighter than `or` needs them. */
module FilterPrinter {
  import opened Collections
  import opened Wrappers
  import opened FilterLexer
  import opened FilterPrimitives
  import opened FilterGrammar

  datatype Formula = Atom(words: Tokens) | Neg(arg: Formula) | Both(left: Formula, right: Formula) | Any(left: Formula, right: Formula)

  predicate IsTest(lib: Lib, words: Tokens) {
    (forall t :: t in words ==> IsToken(t)) && ReadTest(lib, words).Ok? && ReadTest(lib, words).value.1 == |words|
  }

  predicate IsFormula(lib: Lib, f: Formula) {
    match f
    case Atom(words) => IsTest(lib, words)
    case Neg(g) => IsFormula(lib, g)
    case Both(g, h) => IsFormula(lib, g) && IsFormula(lib, h)
    case Any(g, h) => IsFormula(lib, g) && IsFormula(lib, h)
  }

  predicate Means(lib: Lib, f: Formula, p: Packet)
    requires IsFormula(lib, f)
  {
    match f
    case Atom(words) => Holds(lib, ReadTest(lib, words).value.0, p)
    case Neg(g) => !Means(lib, g, p)
    case Both(g, h) => Means(lib, g, p) && Means(lib, h, p)
    case Any(g, h) => Means(lib, g, p) || Means(lib, h, p)
  }

  // ----- from formulas to trees ------------------------------------------------------

  function OrOf(a: OrTree, b: OrTree): OrTree {
    match a
    case OrLast(x) => OrMore(x, "or", b)
    case OrMore(x, op, rest) => OrMore(x, op, OrOf(rest, b))
  }

  function AndOf(a: AndTree, b: AndTree): AndTree {
    match a
    case AndLast(x) => AndMore(x, "and", b)
    case AndMore(x, op, rest) => AndMore(x, op, AndOf(rest, b))
  }

  function ToOr(lib: Lib, f: Formula): OrTree
    requires IsFormula(lib, f)
    decreases f, 2
  {
    match f
    case Any(g, h) => OrOf(ToOr(lib, g), ToOr(lib, h))
    case _ => OrLast(ToAnd(lib, f))
  }

  function ToAnd(lib: Lib, f: Formula): AndTree
    requires IsFormula(lib, f)
    decreases f, if f.Any? then 3 else 1
  {
    match f
    case Both(g, h) => AndOf(ToAnd(lib, g), ToAnd(lib, h))
    case Any(_, _) => AndLast(Group(ToOr(lib, f)))
    case _ => AndLast(ToUnary(lib, f))
  }

  function ToUnary(lib: Lib, f: Formula): UnaryTree
    requires IsFormula(lib, f)
    decreases f, if f.Any? || f.Both? then 4 else 0
  {
    match f
    case Atom(words) => Leaf(words, ReadTest(lib, words).value.0)
    case Neg(g) => Not("not", ToUnary(lib, g))
    case _ => Group(ToOr(lib, f))
  }

  /** The text of a formula. */
  function Print(lib: Lib, f: Formula): string
    requires IsFormula(lib, f)
  {
    JoinWith(" ", YieldOr(ToOr(lib, f)))
  }

  // ----- trees keep the meaning -------------------------------------------------------

  predicate AllTokens(ts: Tokens) {
    forall t :: t in ts ==> IsToken(t)
  }

  lemma {:induction a} OrOfMeans(read: Reader, lib: Lib, a: OrTree, b: OrTree)
    ensures forall p :: EvalOr(lib, OrOf(a, b), p) <==> EvalOr(lib, a, p) || EvalOr(lib, b, p)
    ensures YieldOr(OrOf(a, b)) == YieldOr(a) + (["or"] + YieldOr(b))
    ensures GoodOr(read, a) && GoodOr(read, b) ==> GoodOr(read, OrOf(a, b))
  {
    hide KindOf, IsToken;
    WordKinds();
    match a
    case OrLast(x) =>
    case OrMore(x, op, rest) =>
      OrOfMeans(read, lib, rest, b);
      assert YieldAnd(x) + ([op] + (YieldOr(rest) + (["or"] + YieldOr(b))))
          == YieldAnd(x) + ([op] + YieldOr(rest)) + (["or"] + YieldOr(b));
  }

  lemma {:induction a} AndOfMeans(read: Reader, lib: Lib, a: AndTree, b: AndTree)
    ensures forall p :: EvalAnd(lib, AndOf(a, b), p) <==> EvalAnd(lib, a, p) && EvalAnd(lib, b, p)
    ensures YieldAnd(AndOf(a, b)) == YieldAnd(a) + (["and"] + YieldAnd(b))
    ensures GoodAnd(read, a) && GoodAnd(read, b) ==> GoodAnd(read, AndOf(a, b))
  {
    hide KindOf, IsToken;
    WordKinds();
    match a
    case AndLast(x) =>
    case AndMore(x, op, rest) =>
      AndOfMeans(read, lib, rest, b);
      assert YieldUnary(x) + ([op] + (YieldAnd(rest) + (["and"] + YieldAnd(b))))
          == YieldUnary(x) + ([op] + YieldAnd(rest)) + (["and"] + YieldAnd(b));
  }

  lemma WordKinds()
    ensures KindOf("or").OrWord? && KindOf("and").AndWord? && KindOf("not").NotWord?
    ensures IsToken("or") && IsToken("and") && IsToken("not") && IsToken("(") && IsToken(")")
  {
    LowerOfLower("or");
    LowerOfLower("and");
    LowerOfLower("not");
  }

  lemma {:induction false} OrFaithful(lib: Lib, f: Formula)
    requires IsFormula(lib, f)
    ensures var e := ToOr(lib, f);
      && GoodOr(TestReader(lib), e) && AllTokens(YieldOr(e))
      && forall p :: EvalOr(lib, e, p) <==> Means(lib, f, p)
    decreases f, 2
  {
    hide KindOf, ReadTest, Holds, IsToken;
    match f
    case Any(g, h) =>
      OrFaithful(lib, g);
      OrFaithful(lib, h);
      OrOfMeans(TestReader(lib), lib, ToOr(lib, g), ToOr(lib, h));
      WordKinds();
    case _ =>
      AndFaithful(lib, f);
  }

  lemma {:induction false} AndFaithful(lib: Lib, f: Formula)
    requires IsFormula(lib, f)
    ensures var e := ToAnd(lib, f);
      && GoodAnd(TestReader(lib), e) && AllTokens(YieldAnd(e))
      && forall p :: EvalAnd(lib, e, p) <==> Means(lib, f, p)
    decreases f, if f.Any? then 3 else 1
  {
    hide KindOf, ReadTest, Holds, IsToken;
    match f
    case Both(g, h) =>
      AndFaithful(lib, g);
      AndFaithful(lib, h);
      AndOfMeans(TestReader(lib), lib, ToAnd(lib, g), ToAnd(lib, h));
      WordKinds();
    case Any(_, _) =>
      OrFaithful(lib, f);
      WordKinds();
    case _ =>
      UnaryFaithful(lib, f);
  }

  lemma {:induction false} UnaryFaithful(lib: Lib, f: Formula)
    requires IsFormula(lib, f)
    ensures var e := ToUnary(lib, f);
      && GoodUnary(TestReader(lib), e) && AllTokens(YieldUnary(e))
      && forall p :: EvalUnary(lib, e, p) <==> Means(lib, f, p)
    decreases f, if f.Any? || f.Both? then 4 else 0
  {
    hide KindOf, ReadTest, Holds, IsToken;
    match f
    case Atom(words) =>
    case Neg(g) =>
      UnaryFaithful(lib, g);
      WordKinds();
    case _ =>
      OrFaithful(lib, f);
      WordKinds();
  }

  // ----- main result ---------------------------------------------------------------

  lemma TokensTrimmed(t: string)
    requires IsToken(t)
    ensures Trimmed(t)
  {
  }

  /** Compiling a tree written one space apart: the two limits decide, and nothing else can go wrong. */
  lemma CompileSpaced(lib: Lib, e: OrTree)
    requires GoodOr(TestReader(lib), e) && AllTokens(YieldOr(e))
    ensures var text := JoinWith(" ", YieldOr(e));
      Compile(lib, text) ==
        if |text| > MAX_LENGTH then Err(TooLong) else if NestOr(e) > MAX_DEPTH then Err(TooDeep) else Ok(e)
  {
    var read, ts := TestReader(lib), YieldOr(e);
    TestsAreLocal(lib);
    YieldNotEmpty(read, e);
    forall t | t in ts ensures Trimmed(t) { TokensTrimmed(t); }
    JoinTrimmed(" ", ts);
    StripOfTrimmed(JoinWith(" ", ts));
    LexOfSpaced(ts);
    ParserDecidesGrammar(read, ts, e);
    if NestOr(e) > MAX_DEPTH {
      TooDeepIsRefused(read, e);
    }
  }

  lemma PrintIsTrimmed(lib: Lib, f: Formula)
    requires IsFormula(lib, f)
    ensures Trimmed(Print(lib, f)) && Strip(Print(lib, f)) == Print(lib, f)
  {
    var ts := YieldOr(ToOr(lib, f));
    OrFaithful(lib, f);
    TestsAreLocal(lib);
    YieldNotEmpty(TestReader(lib), ToOr(lib, f));
    forall t | t in ts ensures Trimmed(t) { TokensTrimmed(t); }
    JoinTrimmed(" ", ts);
    StripOfTrimmed(JoinWith(" ", ts));
  }

  /** A formula survives being printed and compiled, up to the two limits, which are the only way to fail. */
  lemma PrintThenCompile(lib: Lib, f: Formula)
    requires IsFormula(lib, f)
    ensures var (text, e) := (Print(lib, f), ToOr(lib, f));
      && Compile(lib, text) ==
         (if |text| > MAX_LENGTH then Err(TooLong) else if NestOr(e) > MAX_DEPTH then Err(TooDeep) else Ok(e))
      && forall p :: EvalOr(lib, e, p) <==> Means(lib, f, p)
  {
    OrFaithful(lib, f);
    CompileSpaced(lib, ToOr(lib, f));
  }
}
