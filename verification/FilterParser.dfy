/**
 The parser object of `capture_filter.py`: it advances `pos` over the tokens and builds a predicate from the
 predicates of the parts. Every method is proved against the grammar: it fails with the same error, stops at the
 same token, and returns a predicate that is true of exactly the packets the tree is true of.
 */
module FilterParser {
  import opened MacAddress
  import opened Wrappers
  import opened FilterLexer
  import opened FilterPrimitives
  import opened FilterGrammar

  type Predicate = Packet -> bool

  predicate AnyOf(parts: seq<Predicate>, p: Packet) {
    exists i :: 0 <= i < |parts| && parts[i](p)
  }

  predicate AllOf(parts: seq<Predicate>, p: Packet) {
    forall i :: 0 <= i < |parts| ==> parts[i](p)
  }

  // ----- what a result must be ---------------------------------------------------------

  ghost predicate MeansOr(lib: Lib, r: Result<Predicate, FilterError>, moved: int, spec: Result<(OrTree, nat), FilterError>) {
    match spec
    case Err(e) => r == Err(e)
    case Ok((tree, n)) => r.Ok? && moved == n && forall p :: r.value(p) <==> EvalOr(lib, tree, p)
  }

  ghost predicate MeansAnd(lib: Lib, r: Result<Predicate, FilterError>, moved: int, spec: Result<(AndTree, nat), FilterError>) {
    match spec
    case Err(e) => r == Err(e)
    case Ok((tree, n)) => r.Ok? && moved == n && forall p :: r.value(p) <==> EvalAnd(lib, tree, p)
  }

  ghost predicate MeansUnary(lib: Lib, r: Result<Predicate, FilterError>, moved: int, spec: Result<(UnaryTree, nat), FilterError>) {
    match spec
    case Err(e) => r == Err(e)
    case Ok((tree, n)) => r.Ok? && moved == n && forall p :: r.value(p) <==> EvalUnary(lib, tree, p)
  }

  ghost predicate MeansTest(lib: Lib, r: Result<Predicate, FilterError>, moved: int, spec: Read) {
    match spec
    case Err(e) => r == Err(e)
    case Ok((test, n)) => r.Ok? && moved == n && forall p :: r.value(p) <==> Holds(lib, test, p)
  }

  // ----- one more part ------------------------------------------------------------------

  /** What is read when `a` has been read and `ts` follows. */
  ghost function OrAfter(read: Reader, a: AndTree, ts: Tokens, depth: nat): Result<(OrTree, nat), FilterError>
    requires Local(read)
  {
    if OpensOr(ts) then
      var rest :- ParseOr(read, ts[1..], depth);
      Ok((OrMore(a, ts[0], rest.0), 1 + rest.1))
    else Ok((OrLast(a), 0))
  }

  ghost function AndAfter(read: Reader, u: UnaryTree, ts: Tokens, depth: nat): Result<(AndTree, nat), FilterError>
    requires Local(read)
  {
    if OpensAnd(ts) then
      var rest :- ParseAnd(read, ts[1..], depth);
      Ok((AndMore(u, ts[0], rest.0), 1 + rest.1))
    else Ok((AndLast(u), 0))
  }

  function Shift<T>(k: nat, r: Result<(T, nat), FilterError>): Result<(T, nat), FilterError> {
    match r
    case Ok((t, n)) => Ok((t, k + n))
    case Err(e) => Err(e)
  }

  lemma ParseOrIsAfter(read: Reader, ts: Tokens, depth: nat)
    requires Local(read)
    ensures var a := ParseAnd(read, ts, depth);
      ParseOr(read, ts, depth) ==
        if a.Err? then Err(a.error) else Shift(a.value.1, OrAfter(read, a.value.0, ts[a.value.1..], depth))
  {
    hide Local, KindOf, ParseAnd, ParseUnary;
    if ParseAnd(read, ts, depth).Ok? {
      var k := ParseAnd(read, ts, depth).value.1;
      if OpensOr(ts[k..]) {
        FirstOfRest(ts, k);
      }
    }
  }

  lemma FirstOfRest(ts: Tokens, k: nat)
    requires k < |ts|
    ensures ts[k..][0] == ts[k] && ts[k..][1..] == ts[k + 1..]
  {
  }

  lemma ParseAndIsAfter(read: Reader, ts: Tokens, depth: nat)
    requires Local(read)
    ensures var u := ParseUnary(read, ts, depth);
      ParseAnd(read, ts, depth) ==
        if u.Err? then Err(u.error) else Shift(u.value.1, AndAfter(read, u.value.0, ts[u.value.1..], depth))
  {
    hide Local, KindOf, ParseOr, ParseUnary;
    if ParseUnary(read, ts, depth).Ok? {
      var k := ParseUnary(read, ts, depth).value.1;
      if OpensAnd(ts[k..]) {
        FirstOfRest(ts, k);
      }
    }
  }

  /** The whole of `or_expr`, when the parts so far are `parts` and `rest` is what remains to be read. */
  ghost predicate OrLink(lib: Lib, whole: Result<(OrTree, nat), FilterError>, moved: int,
                         parts: seq<Predicate>, rest: Result<(OrTree, nat), FilterError>) {
    match rest
    case Err(e) => whole == Err(e)
    case Ok((r, n)) => whole.Ok? && whole.value.1 == moved + n &&
                       forall p :: EvalOr(lib, whole.value.0, p) <==> AnyOf(parts, p) || EvalOr(lib, r, p)
  }

  ghost predicate AndLink(lib: Lib, whole: Result<(AndTree, nat), FilterError>, moved: int,
                          parts: seq<Predicate>, rest: Result<(AndTree, nat), FilterError>) {
    match rest
    case Err(e) => whole == Err(e)
    case Ok((r, n)) => whole.Ok? && whole.value.1 == moved + n &&
                       forall p :: EvalAnd(lib, whole.value.0, p) <==> AllOf(parts, p) && EvalAnd(lib, r, p)
  }

  lemma AnyOfMore(parts: seq<Predicate>, f: Predicate)
    ensures forall p :: AnyOf(parts + [f], p) <==> AnyOf(parts, p) || f(p)
  {
    forall p ensures AnyOf(parts + [f], p) <==> AnyOf(parts, p) || f(p) {
      assert (parts + [f])[|parts|] == f;
      if AnyOf(parts, p) {
        var i :| 0 <= i < |parts| && parts[i](p);
        assert (parts + [f])[i](p);
      }
    }
  }

  lemma AllOfMore(parts: seq<Predicate>, f: Predicate)
    ensures forall p :: AllOf(parts + [f], p) <==> AllOf(parts, p) && f(p)
  {
    forall p ensures AllOf(parts + [f], p) <==> AllOf(parts, p) && f(p) {
      assert (parts + [f])[|parts|] == f;
      if AllOf(parts + [f], p) {
        forall i | 0 <= i < |parts| ensures parts[i](p) { assert (parts + [f])[i](p); }
      }
    }
  }

  lemma OrLinkStep(lib: Lib, whole: Result<(OrTree, nat), FilterError>, moved: nat, parts: seq<Predicate>, f: Predicate,
                   a: AndTree, ts: Tokens, depth: nat)
    requires Local(TestReader(lib)) && OpensOr(ts) && forall p :: f(p) <==> EvalAnd(lib, a, p)
    requires OrLink(lib, whole, moved, parts, OrAfter(TestReader(lib), a, ts, depth))
    ensures var next := ParseAnd(TestReader(lib), ts[1..], depth);
      if next.Err? then whole == Err(next.error)
      else var (b, k) := next.value;
        OrLink(lib, whole, moved + 1 + k, parts + [f], OrAfter(TestReader(lib), b, ts[1 + k..], depth))
  {
    hide KindOf, ParseAnd, ParseUnary, ParseOr, AnyOf;
    var read := TestReader(lib);
    ParseOrIsAfter(read, ts[1..], depth);
    AnyOfMore(parts, f);
    if ParseAnd(read, ts[1..], depth).Ok? {
      var k := ParseAnd(read, ts[1..], depth).value.1;
      assert ts[1..][k..] == ts[1 + k..];
    }
  }

  lemma AndLinkStep(lib: Lib, whole: Result<(AndTree, nat), FilterError>, moved: nat, parts: seq<Predicate>, f: Predicate,
                    u: UnaryTree, ts: Tokens, depth: nat)
    requires Local(TestReader(lib)) && OpensAnd(ts) && forall p :: f(p) <==> EvalUnary(lib, u, p)
    requires AndLink(lib, whole, moved, parts, AndAfter(TestReader(lib), u, ts, depth))
    ensures var next := ParseUnary(TestReader(lib), ts[1..], depth);
      if next.Err? then whole == Err(next.error)
      else var (b, k) := next.value;
        AndLink(lib, whole, moved + 1 + k, parts + [f], AndAfter(TestReader(lib), b, ts[1 + k..], depth))
  {
    hide KindOf, ParseAnd, ParseUnary, ParseOr, AllOf;
    var read := TestReader(lib);
    ParseAndIsAfter(read, ts[1..], depth);
    AllOfMore(parts, f);
    if ParseUnary(read, ts[1..], depth).Ok? {
      var k := ParseUnary(read, ts[1..], depth).value.1;
      assert ts[1..][k..] == ts[1 + k..];
    }
  }

  lemma OrLinkFirst(lib: Lib, a: AndTree, k: nat, ts: Tokens, depth: nat)
    requires Local(TestReader(lib))
    ensures OrLink(lib, Shift(k, OrAfter(TestReader(lib), a, ts, depth)), k, [], OrAfter(TestReader(lib), a, ts, depth))
  {
    hide KindOf, ParseAnd, ParseOr, ParseUnary;
  }

  lemma OrLinkLast(lib: Lib, whole: Result<(OrTree, nat), FilterError>, moved: nat, parts: seq<Predicate>, f: Predicate,
                   a: AndTree, ts: Tokens, depth: nat)
    requires Local(TestReader(lib)) && !OpensOr(ts) && forall p :: f(p) <==> EvalAnd(lib, a, p)
    requires OrLink(lib, whole, moved, parts, OrAfter(TestReader(lib), a, ts, depth))
    ensures whole.Ok? && whole.value.1 == moved
    ensures forall p :: EvalOr(lib, whole.value.0, p) <==> AnyOf(parts + [f], p)
  {
    hide KindOf, ParseAnd, ParseUnary, ParseOr, AnyOf;
    AnyOfMore(parts, f);
  }

  lemma AndLinkFirst(lib: Lib, u: UnaryTree, k: nat, ts: Tokens, depth: nat)
    requires Local(TestReader(lib))
    ensures AndLink(lib, Shift(k, AndAfter(TestReader(lib), u, ts, depth)), k, [], AndAfter(TestReader(lib), u, ts, depth))
  {
    hide KindOf, ParseAnd, ParseOr, ParseUnary;
  }

  lemma AndLinkLast(lib: Lib, whole: Result<(AndTree, nat), FilterError>, moved: nat, parts: seq<Predicate>, f: Predicate,
                   u: UnaryTree, ts: Tokens, depth: nat)
    requires Local(TestReader(lib)) && !OpensAnd(ts) && forall p :: f(p) <==> EvalUnary(lib, u, p)
    requires AndLink(lib, whole, moved, parts, AndAfter(TestReader(lib), u, ts, depth))
    ensures whole.Ok? && whole.value.1 == moved
    ensures forall p :: EvalAnd(lib, whole.value.0, p) <==> AllOf(parts + [f], p)
  {
    hide KindOf, ParseAnd, ParseUnary, ParseOr, AllOf;
    AllOfMore(parts, f);
  }

  // ----- the parser ---------------------------------------------------------------------

  class Parser {
    const lib: Lib
    const tokens: Tokens
    var pos: nat

    constructor (lib: Lib, tokens: Tokens)
      ensures this.lib == lib && this.tokens == tokens && pos == 0 && Valid()
    {
      this.lib, this.tokens, pos := lib, tokens, 0;
      new;
      TestsAreLocal(lib);
    }

    ghost predicate Valid()
      reads this
    {
      pos <= |tokens| && Local(TestReader(lib))
    }

    /** What is still to be read. */
    function Rest(): Tokens
      reads this
      requires pos <= |tokens|
    {
      tokens[pos..]
    }

    function Peek(): (r: Option<string>)
      reads this
      requires pos <= |tokens|
      ensures r == if Rest() == [] then None else Some(Lower(Rest()[0]))
    {
      if pos < |tokens| then Some(Lower(tokens[pos])) else None
    }

    method Take() returns (r: Result<string, FilterError>)
      requires Valid()
      modifies this`pos
      ensures Valid()
      ensures if old(pos) < |tokens| then r == Ok(tokens[old(pos)]) && pos == old(pos) + 1 else r == Err(EndsTooSoon)
    {
      if pos >= |tokens| {
        return Err(EndsTooSoon);
      }
      r := Ok(tokens[pos]);
      pos := pos + 1;
    }

    /** `parse`. */
    method Parse() returns (r: Result<Predicate, FilterError>)
      requires Valid() && pos == 0
      modifies this`pos
      ensures match FilterGrammar.Parse(TestReader(lib), tokens)
        case Err(e) => r == Err(e)
        case Ok(tree) => r.Ok? && forall p :: r.value(p) <==> EvalOr(lib, tree, p)
    {
      hide KindOf, ParseOr;
      if tokens == [] {
        return Err(Empty);
      }
      assert Rest() == tokens;
      r := OrExpr(0);
      if r.Ok? && pos < |tokens| {
        return Err(Unexpected);
      }
    }

    method OrExpr(depth: nat) returns (r: Result<Predicate, FilterError>)
      requires Valid()
      modifies this`pos
      ensures Valid()
      ensures MeansOr(lib, r, pos - old(pos), ParseOr(TestReader(lib), old(Rest()), depth))
      decreases |tokens| - pos, 2
    {
      hide KindOf, ParseOr, ParseAnd, ParseUnary, AnyOf, Local, OrAfter, OrLink, EvalOr, EvalAnd, EvalUnary;
      ghost var read, start, whole := TestReader(lib), pos, ParseOr(TestReader(lib), Rest(), depth);
      ParseOrIsAfter(read, Rest(), depth);
      var f :- AndExpr(depth);
      ghost var a := ParseAnd(read, old(Rest()), depth).value.0;
      assert old(Rest())[pos - start..] == Rest();
      var parts: seq<Predicate> := [];
      var last := f;
      OrLinkFirst(lib, a, pos - start, Rest(), depth);
      while Peek() == Some("or") || Peek() == Some("||")
        invariant Valid() && start < pos
        invariant forall p :: last(p) <==> EvalAnd(lib, a, p)
        invariant OrLink(lib, whole, pos - start, parts, OrAfter(read, a, Rest(), depth))
        decreases |tokens| - pos
      {
        ghost var ts, was := Rest(), pos;
        OrKinds(ts[0]);
        OrLinkStep(lib, whole, pos - start, parts, last, a, ts, depth);
        var _ := Take();
        assert Rest() == ts[1..];
        var g :- AndExpr(depth);
        a := ParseAnd(read, ts[1..], depth).value.0;
        assert ts[pos - was..] == Rest();
        parts, last := parts + [last], g;
      }
      assert !OpensOr(Rest()) by { if Rest() != [] { OrKinds(Rest()[0]); } }
      OrLinkLast(lib, whole, pos - start, parts, last, a, Rest(), depth);
      parts := parts + [last];
      r := Ok(if |parts| == 1 then parts[0] else p => AnyOf(parts, p));
      assert forall p :: r.value(p) <==> AnyOf(parts, p) by { OnePart(parts); }
    }

    method AndExpr(depth: nat) returns (r: Result<Predicate, FilterError>)
      requires Valid()
      modifies this`pos
      ensures Valid()
      ensures MeansAnd(lib, r, pos - old(pos), ParseAnd(TestReader(lib), old(Rest()), depth))
      decreases |tokens| - pos, 1
    {
      hide KindOf, ParseOr, ParseAnd, ParseUnary, AllOf, Local, AndAfter, AndLink, EvalOr, EvalAnd, EvalUnary;
      ghost var read, start, whole := TestReader(lib), pos, ParseAnd(TestReader(lib), Rest(), depth);
      ParseAndIsAfter(read, Rest(), depth);
      var f :- Unary(depth);
      ghost var u := ParseUnary(read, old(Rest()), depth).value.0;
      assert old(Rest())[pos - start..] == Rest();
      var parts: seq<Predicate> := [];
      var last := f;
      AndLinkFirst(lib, u, pos - start, Rest(), depth);
      while Peek() == Some("and") || Peek() == Some("&&")
        invariant Valid() && start < pos
        invariant forall p :: last(p) <==> EvalUnary(lib, u, p)
        invariant AndLink(lib, whole, pos - start, parts, AndAfter(read, u, Rest(), depth))
        decreases |tokens| - pos
      {
        ghost var ts, was := Rest(), pos;
        AndKinds(ts[0]);
        AndLinkStep(lib, whole, pos - start, parts, last, u, ts, depth);
        var _ := Take();
        assert Rest() == ts[1..];
        var g :- Unary(depth);
        u := ParseUnary(read, ts[1..], depth).value.0;
        assert ts[pos - was..] == Rest();
        parts, last := parts + [last], g;
      }
      assert !OpensAnd(Rest()) by { if Rest() != [] { AndKinds(Rest()[0]); } }
      AndLinkLast(lib, whole, pos - start, parts, last, u, Rest(), depth);
      parts := parts + [last];
      r := Ok(if |parts| == 1 then parts[0] else p => AllOf(parts, p));
      assert forall p :: r.value(p) <==> AllOf(parts, p) by { OnePart(parts); }
    }

    method Unary(depth: nat) returns (r: Result<Predicate, FilterError>)
      requires Valid()
      modifies this`pos
      ensures Valid()
      ensures MeansUnary(lib, r, pos - old(pos), ParseUnary(TestReader(lib), old(Rest()), depth))
      decreases |tokens| - pos, 0
    {
      hide KindOf, ParseOr, ParseAnd, ReadTest, Holds, Local;
      if depth > MAX_DEPTH {
        return Err(TooDeep);
      }
      ghost var ts := Rest();
      if Rest() != [] { UnaryKinds(ts[0]); }
      if Peek() == Some("not") || Peek() == Some("!") {
        var _ := Take();
        assert Rest() == ts[1..];
        var inner :- Unary(depth + 1);
        return Ok(p => !inner(p));
      }
      if Peek() == Some("(") {
        var _ := Take();
        assert Rest() == ts[1..];
        var inner :- OrExpr(depth + 1);
        ghost var n := ParseOr(TestReader(lib), ts[1..], depth + 1).value.1;
        assert pos < |tokens| ==> tokens[pos] == ts[1 + n];
        if Rest() != [] { UnaryKinds(Rest()[0]); }
        if Peek() != Some(")") {
          return Err(NeverClosed);
        }
        var _ := Take();
        return Ok(inner);
      }
      r := Primitive();
    }

    method Primitive() returns (r: Result<Predicate, FilterError>)
      requires Valid()
      modifies this`pos
      ensures Valid()
      ensures MeansTest(lib, r, pos - old(pos), ReadTest(lib, old(Rest())))
    {
      hide Local, ReadDirected, ReadEther, ReadLength, ReadNamed, Holds, IsUnsupported, IsIssue, IsProtocol, IsQualified;
      ghost var start, ts := pos, Rest();
      var first :- Take();
      var lib := lib;
      var word := Lower(first);
      assert word == Lower(ts[0]);
      if IsUnsupported(word) {
        return Err(Unsupported);
      }
      if IsIssue(word) {
        return Ok(p => Holds(lib, Issue(word), p));
      }
      if word == "problem" {
        return Ok(p => Holds(lib, Problem, p));
      }
      if IsProtocol(word) {
        var next := Peek();
        if next.None? || !IsQualified(next.value) {
          return Ok(p => Holds(lib, Protocol(word), p));
        }
        var _ := Take();
        r := Directed(Some(word), start);
      } else if word == "ether" {
        r := EtherTest(start);
      } else if word == "len" || word == "less" || word == "greater" {
        r := LengthTest(word, start);
      } else if word == "sni" || word == "name" {
        r := NamedTest(word, start);
      } else {
        r := Directed(None, start);
      }
    }

    /** A direction, if the word just taken is one, and the test it belongs to. */
    method Directed(q: Option<string>, ghost start: nat) returns (r: Result<Predicate, FilterError>)
      requires Valid() && start < pos
      modifies this`pos
      ensures Valid()
      ensures MeansTest(lib, r, pos - start, ReadDirected(lib, q, tokens[start..], old(pos) - 1 - start))
    {
      hide ReadSided, Holds, IsDirection, DirectionOf, Local;
      ghost var ts, i := tokens[start..], pos - 1 - start;
      var word := Lower(tokens[pos - 1]);
      assert ts[i] == tokens[pos - 1];
      var side := Either;
      if IsDirection(word) {
        side := DirectionOf(word);
        var next :- Take();
        word := Lower(next);
      }
      r := Sided(q, side, word, start);
    }

    /** `host`, `net`, `port` and `portrange`; `word` has just been taken. */
    method Sided(q: Option<string>, side: Direction, word: string, ghost start: nat) returns (r: Result<Predicate, FilterError>)
      requires Valid() && start < pos && word == Lower(tokens[pos - 1])
      modifies this`pos
      ensures Valid()
      ensures MeansTest(lib, r, pos - start, ReadSided(lib, q, side, tokens[start..], old(pos) - 1 - start))
    {
      var lib := lib;
      ghost var i := pos - 1 - start;
      assert tokens[start..][i] == tokens[pos - 1];
      assert pos < |tokens| ==> tokens[start..][i + 1] == tokens[pos];
      if word == "host" {
        var spec :- Take();
        var address := lib.address(spec);
        if address.None? {
          return Err(NotAnAddress);
        }
        return Ok(p => Holds(lib, Host(q, side, address.value), p));
      }
      if word == "net" {
        var spec :- Take();
        if !lib.isNetwork(spec) {
          return Err(NotANetwork);
        }
        return Ok(p => Holds(lib, Net(q, side, spec), p));
      }
      if word == "port" || word == "portrange" {
        if q == Some("icmp") || q == Some("icmp6") || q == Some("arp") {
          return Err(NoPorts);
        }
        var spec :- Take();
        if word == "port" {
          var port :- Port(spec);
          return Ok(p => Holds(lib, Ports(q, side, port, port), p));
        }
        var range :- PortRange(spec);
        return Ok(p => Holds(lib, Ports(q, side, range.0, range.1), p));
      }
      return Err(Unknown);
    }

    method EtherTest(ghost start: nat) returns (r: Result<Predicate, FilterError>)
      requires Valid() && start <= pos
      modifies this`pos
      ensures Valid()
      ensures MeansTest(lib, r, pos - start, ReadEther(tokens[start..], old(pos) - start))
    {
      hide Holds, IsMac, Local, IsDirection, DirectionOf;
      var lib := lib;
      var side := Either;
      ghost var ts := tokens[start..];
      if pos < |tokens| && IsDirection(Lower(tokens[pos])) {
        var direction := Take();
        side := DirectionOf(Lower(direction.value));
      }
      var word :- Take();
      if Lower(word) != "host" {
        return Err(Expected("host"));
      }
      var mac :- Take();
      if !IsMac(Lower(mac)) {
        return Err(NotAMac);
      }
      return Ok(p => Holds(lib, Ether(side, Lower(mac)), p));
    }

    method LengthTest(word: string, ghost start: nat) returns (r: Result<Predicate, FilterError>)
      requires Valid() && start <= pos && (word == "len" || word == "less" || word == "greater")
      modifies this`pos
      ensures Valid()
      ensures MeansTest(lib, r, pos - start, ReadLength(word, tokens[start..], old(pos) - start))
    {
      var lib := lib;
      var op := if word == "less" then "<=" else ">=";
      if word == "len" {
        op :- Take();
        if !IsComparison(op) {
          return Err(NotAComparison);
        }
      }
      var number :- Take();
      if !IsNumber(number) {
        return Err(NotANumber);
      }
      var n := NumberOf(number);
      return Ok(p => Holds(lib, Length(op, n), p));
    }

    method NamedTest(word: string, ghost start: nat) returns (r: Result<Predicate, FilterError>)
      requires Valid() && start <= pos && (word == "sni" || word == "name")
      modifies this`pos
      ensures Valid()
      ensures MeansTest(lib, r, pos - start, ReadNamed(word, tokens[start..], old(pos) - start))
    {
      var lib := lib;
      var name :- Take();
      var pattern := Lower(name);
      if !IsName(pattern) {
        return Err(NotAName);
      }
      return Ok(p => Holds(lib, Named(word == "sni", pattern), p));
    }
  }

  lemma OnePart(parts: seq<Predicate>)
    ensures |parts| == 1 ==> forall p :: (parts[0](p) <==> AnyOf(parts, p)) && (parts[0](p) <==> AllOf(parts, p))
  {
  }

  lemma OrKinds(t: string)
    ensures Lower(t) == "or" || Lower(t) == "||" <==> KindOf(t).OrWord?
  {
  }

  lemma AndKinds(t: string)
    ensures Lower(t) == "and" || Lower(t) == "&&" <==> KindOf(t).AndWord?
  {
  }

  lemma UnaryKinds(t: string)
    ensures Lower(t) == "not" || Lower(t) == "!" <==> KindOf(t).NotWord?
    ensures Lower(t) == "(" <==> t == OPEN
    ensures Lower(t) == ")" <==> t == CLOSE
  {
    if Lower(t) == "(" || Lower(t) == ")" {
      assert LowerChar(t[0]) == Lower(t)[0];
    }
    LowerOfLower("(");
    LowerOfLower(")");
  }

  /** `compile_filter` as a whole: tokens, then the parser object. */
  method CompileFilter(lib: Lib, text: string) returns (r: Result<Predicate, FilterError>)
    ensures match Compile(lib, text)
      case Err(e) => r == Err(e)
      case Ok(tree) => r.Ok? && forall p :: r.value(p) <==> EvalOr(lib, tree, p)
  {
    hide KindOf, ParseOr, Lex, FilterGrammar.Parse;
    var stripped := Strip(text);
    if |stripped| > MAX_LENGTH {
      return Err(TooLong);
    }
    var tokens :- Tokenize(text);
    var parser := new Parser(lib, tokens);
    r := parser.Parse();
  }
}
