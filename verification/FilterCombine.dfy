/** One expression for a whole capture filter: `validate_filter` (`capture.py`) and `combine` (`capture_filter.py`). */
module FilterCombine {
  import opened Collections
  import opened Wrappers
  import opened FilterLexer
  import opened FilterPrimitives
  import opened FilterGrammar
  import opened FilterPrinter

  /** A capture filter as it is kept; "" and 0 where the key is missing. */
  datatype Selected = Selected(host: string, port: nat, proto: string, expr: string)

  /** A capture filter as it is asked for. */
  datatype Raw = Raw(host: string, port: Option<int>, proto: string, expr: string)

  datatype CaptureError = BadExpression(error: FilterError) | BadHost | BadPort | BadProtocol

  predicate IsFilterProto(w: string) {
    IsAppProtocol(w) || w == "tcp" || w == "udp" || w == "icmp" || w == "arp" || w == "icmpv6"
  }

  /** `validate_filter`. */
  function Validate(lib: Lib, raw: Raw): Result<Selected, CaptureError> {
    var expr, host, proto := Strip(raw.expr), Strip(raw.host), Lower(Strip(raw.proto));
    if expr != "" && Compile(lib, expr).Err? then Err(BadExpression(Compile(lib, expr).error))
    else if host != "" && lib.address(host).None? then Err(BadHost)
    else if raw.port.Some? && !(1 <= raw.port.value <= 65535) then Err(BadPort)
    else if proto != "" && !IsFilterProto(proto) then Err(BadProtocol)
    else Ok(Selected(
      if host == "" then "" else lib.address(host).value,
      if raw.port.None? then 0 else raw.port.value,
      proto,
      expr))
  }

  /** `icmpv6` is called `icmp6` in the filter language. */
  function ProtoWord(proto: string): string {
    if proto == "icmpv6" then "icmp6" else proto
  }

  /** The texts that are joined, each a condition of its own. */
  function Texts(sel: Selected): seq<string> {
    (if sel.host != "" then ["host " + sel.host] else []) +
    (if sel.port != 0 then ["port " + Digits(sel.port)] else []) +
    (if sel.proto != "" then [ProtoWord(sel.proto)] else []) +
    (if sel.expr != "" then ["(" + sel.expr + ")"] else [])
  }

  /** `combine`. */
  function Combine(sel: Selected): Option<string> {
    if Texts(sel) == [] then None else Some(JoinWith(" and ", Texts(sel)))
  }

  // ----- what a validated filter is -----------------------------------------------------

  predicate Valid(lib: Lib, sel: Selected) {
    && (sel.host != "" ==> Strip(sel.host) == sel.host && lib.address(sel.host) == Some(sel.host))
    && sel.port <= 65535
    && (sel.proto != "" ==> IsFilterProto(sel.proto))
    && (sel.expr != "" ==> Strip(sel.expr) == sel.expr && Compile(lib, sel.expr).Ok?)
  }

  /** The text of an address names that address, is not empty, and has no space around it that was not there before. */
  ghost predicate Canonical(lib: Lib) {
    forall s :: lib.address(s).Some? ==>
      var a := lib.address(s).value;
      a != "" && lib.address(a) == Some(a) && (Strip(s) == s ==> Strip(a) == a)
  }

  lemma {:induction s} SkipBackOfSkipped(s: string)
    ensures SkipSpacesBack(SkipSpacesBack(s)) == SkipSpacesBack(s)
  {
  }

  lemma StripTwice(s: string)
    ensures Strip(Strip(s)) == Strip(s)
  {
    var t := SkipSpaces(s);
    var u := SkipSpacesBack(t);
    if u != [] {
      assert u[0] == t[0];
    }
    SkipBackOfSkipped(t);
  }

  lemma ValidatedIsValid(lib: Lib, raw: Raw)
    requires Canonical(lib) && Validate(lib, raw).Ok?
    ensures Valid(lib, Validate(lib, raw).value)
  {
    hide Compile, IsFilterProto, Lower;
    StripTwice(raw.expr);
    StripTwice(raw.host);
  }

  // ----- the parts as trees ------------------------------------------------------------

  /** A condition, and the tree it is read as. */
  datatype Part = Part(text: string, tree: UnaryTree)

  predicate IsPart(lib: Lib, part: Part) {
    Trimmed(part.text) && Lex(part.text) == Ok(YieldUnary(part.tree)) && GoodUnary(TestReader(lib), part.tree)
  }

  function HostPart(sel: Selected): Part {
    Part("host " + sel.host, Leaf(["host", sel.host], Host(None, Either, sel.host)))
  }

  function PortPart(sel: Selected): Part {
    Part("port " + Digits(sel.port), Leaf(["port", Digits(sel.port)], Ports(None, Either, sel.port, sel.port)))
  }

  function ProtoPart(sel: Selected): Part {
    Part(ProtoWord(sel.proto), Leaf([ProtoWord(sel.proto)], Protocol(ProtoWord(sel.proto))))
  }

  function ExprPart(lib: Lib, sel: Selected): Part
    requires Compile(lib, sel.expr).Ok?
  {
    Part("(" + sel.expr + ")", Group(Compile(lib, sel.expr).value))
  }

  lemma TwoWords(word: string, value: string)
    requires IsWord(word) && IsWord(value)
    ensures Lex(word + " " + value) == Ok([word, value]) && Trimmed(word + " " + value)
  {
    assert Trimmed(word) && Trimmed(value);
    StripOfTrimmed(value);
    LexToken(value);
    LexSpaceBetween(word, value);
    assert [word] + [value] == [word, value];
    var text := word + " " + value;
    assert text[|text| - 1] == value[|value| - 1];
  }

  /** Where `host`, `port` and the protocols stand among the words of the language. */
  lemma KeywordKinds(w: string)
    requires w == "host" || w == "port"
    ensures !IsUnsupported(w) && !IsIssue(w) && !IsProtocol(w) && !IsDirection(w)
    ensures w != "problem" && w != "ether" && w != "len" && w != "less" && w != "greater" && w != "sni" && w != "name"
  {
  }

  lemma KeywordIsWord(w: string)
    requires w == "host" || w == "port"
    ensures IsWord(w) && Lower(w) == w
  {
    LowerOfLower(w);
  }

  lemma ReadHost(lib: Lib, sel: Selected)
    requires lib.address(sel.host) == Some(sel.host)
    ensures ReadTest(lib, ["host", sel.host]) == Ok((Host(None, Either, sel.host), 2))
  {
    KeywordKinds("host");
    KeywordIsWord("host");
    hide IsUnsupported, IsIssue, IsProtocol, IsDirection, Lower;
    assert ["host", sel.host][0] == "host";
  }

  lemma ReadPort(lib: Lib, sel: Selected)
    requires 0 < sel.port <= 65535
    ensures ReadTest(lib, ["port", Digits(sel.port)]) == Ok((Ports(None, Either, sel.port, sel.port), 2))
  {
    KeywordKinds("port");
    KeywordIsWord("port");
    hide IsUnsupported, IsIssue, IsProtocol, IsDirection, Lower;
    assert ["port", Digits(sel.port)][0] == "port";
  }

  lemma ReadProtocol(lib: Lib, w: string)
    requires IsProtocol(w) && Lower(w) == w && !IsUnsupported(w) && !IsIssue(w) && w != "problem"
    ensures ReadTest(lib, [w]) == Ok((Protocol(w), 1))
  {
    hide IsProtocol, IsUnsupported, IsIssue, Lower;
    assert [w][0] == w;
  }

  lemma ProtocolKinds(w: string)
    requires IsProtocol(w)
    ensures !IsUnsupported(w) && !IsIssue(w) && w != "problem"
  {
  }

  lemma ProtocolIsWord(w: string)
    requires IsProtocol(w)
    ensures IsWord(w) && Lower(w) == w
  {
    hide Lower;
    if IsAppProtocol(w) {
      AppProtocolIsWord(w);
    }
    LowerOfLower(w);
  }

  lemma AppProtocolIsWord(w: string)
    requires IsAppProtocol(w)
    ensures IsWord(w) && IsLower(w)
  {
  }

  lemma HostIsPart(lib: Lib, sel: Selected)
    requires Valid(lib, sel) && sel.host != "" && IsWord(sel.host)
    ensures IsPart(lib, HostPart(sel))
  {
    hide ReadTest, Lex, KindOf;
    KeywordIsWord("host");
    ReadHost(lib, sel);
    TwoWords("host", sel.host);
    assert "host " + sel.host == "host" + " " + sel.host;
  }

  lemma PortIsPart(lib: Lib, sel: Selected)
    requires Valid(lib, sel) && sel.port != 0
    ensures IsPart(lib, PortPart(sel))
  {
    hide ReadTest, Lex, KindOf;
    KeywordIsWord("port");
    ReadPort(lib, sel);
    TwoWords("port", Digits(sel.port));
    assert "port " + Digits(sel.port) == "port" + " " + Digits(sel.port);
  }

  lemma ProtoIsPart(lib: Lib, sel: Selected)
    requires Valid(lib, sel) && sel.proto != ""
    ensures IsPart(lib, ProtoPart(sel))
  {
    hide ReadTest, Lex, KindOf;
    var w := ProtoWord(sel.proto);
    ProtocolKinds(w);
    ProtocolIsWord(w);
    ReadProtocol(lib, w);
    LexToken(w);
  }

  lemma ExprIsPart(lib: Lib, sel: Selected)
    requires Valid(lib, sel) && sel.expr != ""
    ensures IsPart(lib, ExprPart(lib, sel))
  {
    var expr, part := sel.expr, ExprPart(lib, sel);
    var e := Compile(lib, expr).value;
    TestsAreLocal(lib);
    ParserDecidesGrammar(TestReader(lib), Lex(expr).value, e);
    StripOfTrimmed(expr);
    LexSplit(expr, ")");
    LexToken(")");
    SkipSpacesSplit(expr, ")");
    LexParenthesis('(', expr + ")");
    assert part.text == ['('] + (expr + ")");
  }

  function Parts(lib: Lib, sel: Selected): seq<Part>
    requires Valid(lib, sel)
  {
    (if sel.host != "" then [HostPart(sel)] else []) +
    (if sel.port != 0 then [PortPart(sel)] else []) +
    (if sel.proto != "" then [ProtoPart(sel)] else []) +
    (if sel.expr != "" then [ExprPart(lib, sel)] else [])
  }

  function PartTexts(parts: seq<Part>): (texts: seq<string>)
    ensures |texts| == |parts| && forall i :: 0 <= i < |parts| ==> texts[i] == parts[i].text
  {
    seq(|parts|, i requires 0 <= i < |parts| => parts[i].text)
  }

  lemma PartsMembers(lib: Lib, sel: Selected, part: Part)
    requires Valid(lib, sel)
    ensures part in Parts(lib, sel) <==>
      || (sel.host != "" && part == HostPart(sel))
      || (sel.port != 0 && part == PortPart(sel))
      || (sel.proto != "" && part == ProtoPart(sel))
      || (sel.expr != "" && part == ExprPart(lib, sel))
  {
    hide HostPart, PortPart, ProtoPart, ExprPart, Valid;
  }

  lemma PartsAreParts(lib: Lib, sel: Selected)
    requires Valid(lib, sel) && (sel.host != "" ==> IsWord(sel.host))
    ensures forall part :: part in Parts(lib, sel) ==> IsPart(lib, part)
  {
    hide IsPart, Parts;
    forall part | part in Parts(lib, sel) ensures IsPart(lib, part) {
      PartsMembers(lib, sel, part);
      if sel.host != "" { HostIsPart(lib, sel); }
      if sel.port != 0 { PortIsPart(lib, sel); }
      if sel.proto != "" { ProtoIsPart(lib, sel); }
      if sel.expr != "" { ExprIsPart(lib, sel); }
    }
  }

  lemma PartTextsOfSum(a: seq<Part>, b: seq<Part>)
    ensures PartTexts(a + b) == PartTexts(a) + PartTexts(b)
  {
  }

  lemma PartsHaveTexts(lib: Lib, sel: Selected)
    requires Valid(lib, sel)
    ensures PartTexts(Parts(lib, sel)) == Texts(sel)
  {
    hide Compile, Digits, PartTexts;
    var a := if sel.host != "" then [HostPart(sel)] else [];
    var b := if sel.port != 0 then [PortPart(sel)] else [];
    var c := if sel.proto != "" then [ProtoPart(sel)] else [];
    var d := if sel.expr != "" then [ExprPart(lib, sel)] else [];
    PartTextsOfSum(a + b + c, d);
    PartTextsOfSum(a + b, c);
    PartTextsOfSum(a, b);
    assert PartTexts([]) == [];
    assert sel.host != "" ==> PartTexts(a) == ["host " + sel.host];
    assert sel.port != 0 ==> PartTexts(b) == ["port " + Digits(sel.port)];
    assert sel.proto != "" ==> PartTexts(c) == [ProtoWord(sel.proto)];
    assert sel.expr != "" ==> PartTexts(d) == ["(" + sel.expr + ")"];
  }

  // ----- joining -------------------------------------------------------------------

  function Conjoin(parts: seq<Part>): AndTree
    requires parts != []
  {
    if |parts| == 1 then AndLast(parts[0].tree) else AndMore(parts[0].tree, "and", Conjoin(parts[1..]))
  }

  lemma {:induction false} ConjoinMeans(lib: Lib, parts: seq<Part>)
    requires parts != [] && forall part :: part in parts ==> IsPart(lib, part)
    ensures GoodAnd(TestReader(lib), Conjoin(parts))
    ensures forall p :: EvalAnd(lib, Conjoin(parts), p) <==> forall part :: part in parts ==> EvalUnary(lib, part.tree, p)
    ensures forall part :: part in parts ==> NestUnary(part.tree) <= NestAnd(Conjoin(parts))
    ensures exists part :: part in parts && NestUnary(part.tree) == NestAnd(Conjoin(parts))
    decreases |parts|
  {
    hide KindOf, ReadTest;
    WordKinds();
    assert parts[0] in parts;
    if |parts| > 1 {
      ConjoinMeans(lib, parts[1..]);
      assert forall part :: part in parts <==> part == parts[0] || part in parts[1..];
    } else {
      assert forall part :: part in parts <==> part == parts[0];
    }
  }

  /** Joining texts by " and " joins their tokens by `and`. */
  lemma {:induction false} LexOfJoined(lib: Lib, parts: seq<Part>)
    requires parts != [] && forall part :: part in parts ==> IsPart(lib, part)
    ensures Lex(JoinWith(" and ", PartTexts(parts))) == Ok(YieldAnd(Conjoin(parts)))
    ensures Trimmed(JoinWith(" and ", PartTexts(parts)))
    decreases |parts|
  {
    var first := parts[0];
    assert IsPart(lib, first);
    if |parts| > 1 {
      LexOfJoined(lib, parts[1..]);
      assert PartTexts(parts)[1..] == PartTexts(parts[1..]);
      LexAndBetween(first.text, JoinWith(" and ", PartTexts(parts[1..])));
    }
  }

  lemma LexAndBetween(a: string, b: string)
    requires Trimmed(a) && Trimmed(b) && Lex(a).Ok? && Lex(b).Ok?
    ensures Trimmed(a + " and " + b)
    ensures Lex(a + " and " + b) == Ok(Lex(a).value + (["and"] + Lex(b).value))
  {
    hide Lex;
    var rest := "and " + b;
    assert a + " and " + b == a + (" " + rest);
    assert (" " + rest)[1..] == rest;
    assert SkipSpaces(" " + rest) == rest;
    LexSplit(a, " " + rest);
    StripOfTrimmed(b);
    LexSpaceBetween("and", b);
    assert rest == "and" + " " + b;
    var text := a + " and " + b;
    assert text[0] == a[0] && text[|text| - 1] == b[|b| - 1];
  }

  // ----- conditions compiled alone ------------------------------------------------------

  predicate Accepts(lib: Lib, text: string, p: Packet) {
    Compile(lib, text).Ok? && EvalOr(lib, Compile(lib, text).value, p)
  }

  /** What the filter asks for: every condition in it, compiled alone, accepts the packet. */
  predicate AcceptsAll(lib: Lib, sel: Selected, p: Packet) {
    && (sel.host != "" ==> Accepts(lib, "host " + sel.host, p))
    && (sel.port != 0 ==> Accepts(lib, "port " + Digits(sel.port), p))
    && (sel.proto != "" ==> Accepts(lib, ProtoWord(sel.proto), p))
    && (sel.expr != "" ==> Accepts(lib, sel.expr, p))
  }

  /** The expression still has room for one more pair of parentheses around it. */
  predicate HasRoom(lib: Lib, sel: Selected)
    requires Valid(lib, sel)
  {
    sel.expr != "" ==> NestOr(Compile(lib, sel.expr).value) < MAX_DEPTH
  }

  lemma CompileJoined(lib: Lib, parts: seq<Part>)
    requires parts != [] && forall part :: part in parts ==> IsPart(lib, part)
    ensures var (text, e) := (JoinWith(" and ", PartTexts(parts)), OrLast(Conjoin(parts)));
      Compile(lib, text) ==
        if |text| > MAX_LENGTH then Err(TooLong) else if NestOr(e) > MAX_DEPTH then Err(TooDeep) else Ok(e)
  {
    var read, e := TestReader(lib), OrLast(Conjoin(parts));
    TestsAreLocal(lib);
    ConjoinMeans(lib, parts);
    LexOfJoined(lib, parts);
    StripOfTrimmed(JoinWith(" and ", PartTexts(parts)));
    ParserDecidesGrammar(read, YieldOr(e), e);
    if NestOr(e) > MAX_DEPTH {
      TooDeepIsRefused(read, e);
    }
  }

  lemma AcceptsPart(lib: Lib, part: Part, p: Packet)
    requires IsPart(lib, part) && |part.text| <= MAX_LENGTH && NestUnary(part.tree) <= MAX_DEPTH
    ensures Accepts(lib, part.text, p) <==> EvalUnary(lib, part.tree, p)
  {
    hide Lex, ReadTest, Compile, KindOf;
    assert PartTexts([part]) == [part.text] && JoinWith(" and ", [part.text]) == part.text;
    assert Conjoin([part]) == AndLast(part.tree) && NestOr(OrLast(AndLast(part.tree))) == NestUnary(part.tree);
    CompileJoined(lib, [part]);
    assert Compile(lib, part.text) == Ok(OrLast(AndLast(part.tree)));
    assert EvalOr(lib, OrLast(AndLast(part.tree)), p) <==> EvalUnary(lib, part.tree, p);
  }

  lemma {:induction false} JoinIsLonger(separator: string, texts: seq<string>)
    ensures forall t :: t in texts ==> |t| <= |JoinWith(separator, texts)|
    decreases |texts|
  {
    if |texts| > 1 {
      JoinIsLonger(separator, texts[1..]);
      assert forall t :: t in texts ==> t == texts[0] || t in texts[1..];
    }
  }

  lemma PartsNest(lib: Lib, sel: Selected)
    requires Valid(lib, sel) && Parts(lib, sel) != []
    requires forall part :: part in Parts(lib, sel) ==> IsPart(lib, part)
    ensures NestAnd(Conjoin(Parts(lib, sel))) <= MAX_DEPTH <==> HasRoom(lib, sel)
  {
    hide IsPart, Compile, Parts;
    var parts := Parts(lib, sel);
    ConjoinMeans(lib, parts);
    forall part | part in parts ensures part.tree.Leaf? || (sel.expr != "" && part == ExprPart(lib, sel)) {
      PartsMembers(lib, sel, part);
    }
    if sel.expr != "" {
      PartsMembers(lib, sel, ExprPart(lib, sel));
    }
  }

  /** For conditions that are one word or one pair of parentheses each. */
  lemma CombineParts(lib: Lib, sel: Selected)
    requires Valid(lib, sel) && sel.host == "" && Combine(sel).Some?
    ensures var (parts, text) := (Parts(lib, sel), Combine(sel).value);
      && parts != [] && Trimmed(text) && Lex(text) == Ok(YieldAnd(Conjoin(parts)))
      && GoodAnd(TestReader(lib), Conjoin(parts))
      && (NestAnd(Conjoin(parts)) <= MAX_DEPTH <==> HasRoom(lib, sel))
      && (|text| <= MAX_LENGTH && HasRoom(lib, sel) ==>
            forall p :: EvalAnd(lib, Conjoin(parts), p) <==> AcceptsAll(lib, sel, p))
  {
    hide Compile, IsPart, Valid;
    var parts, text := Parts(lib, sel), Combine(sel).value;
    PartsAreParts(lib, sel);
    PartsHaveTexts(lib, sel);
    LexOfJoined(lib, parts);
    ConjoinMeans(lib, parts);
    PartsNest(lib, sel);
    if |text| <= MAX_LENGTH && HasRoom(lib, sel) {
      forall p ensures EvalAnd(lib, Conjoin(parts), p) <==> AcceptsAll(lib, sel, p) {
        hide AcceptsAll;
        EachPart(lib, sel, p);
      }
    }
  }

  // ----- the host, whatever its text is read as -----------------------------------------------

  /** What a text is read as, whatever its length. */
  function Read(lib: Lib, text: string): Result<OrTree, FilterError> {
    var ts :- Lex(Strip(text));
    TestsAreLocal(lib);
    Parse(TestReader(lib), ts)
  }

  lemma CompileIsRead(lib: Lib, text: string)
    ensures Compile(lib, text) == if |Strip(text)| > MAX_LENGTH then Err(TooLong) else Read(lib, text)
  {
  }

  /** The tree of a text with `and rest` behind it: `rest` joins the last disjunct. */
  function Append(e: OrTree, rest: AndTree): OrTree {
    match e
    case OrLast(a) => OrLast(AndOf(a, rest))
    case OrMore(a, op, more) => OrMore(a, op, Append(more, rest))
  }

  function LastOf(e: OrTree): AndTree {
    match e
    case OrLast(a) => a
    case OrMore(_, _, more) => LastOf(more)
  }

  /** One of the disjuncts before the last holds. */
  predicate EvalEarlier(lib: Lib, e: OrTree, p: Packet) {
    match e
    case OrLast(_) => false
    case OrMore(a, _, more) => EvalAnd(lib, a, p) || EvalEarlier(lib, more, p)
  }

  lemma {:induction false} AndOfNests(a: AndTree, b: AndTree)
    ensures NestAnd(AndOf(a, b)) == Max(NestAnd(a), NestAnd(b))
  {
    match a
    case AndLast(_) =>
    case AndMore(_, _, rest) => AndOfNests(rest, b);
  }

  lemma {:induction false} AppendMeans(lib: Lib, e: OrTree, rest: AndTree)
    ensures forall p :: EvalOr(lib, e, p) <==> EvalEarlier(lib, e, p) || EvalAnd(lib, LastOf(e), p)
    ensures forall p :: EvalOr(lib, Append(e, rest), p) <==>
      EvalEarlier(lib, e, p) || (EvalAnd(lib, LastOf(e), p) && EvalAnd(lib, rest, p))
    ensures YieldOr(Append(e, rest)) == YieldOr(e) + (["and"] + YieldAnd(rest))
    ensures GoodOr(TestReader(lib), e) && GoodAnd(TestReader(lib), rest) ==> GoodOr(TestReader(lib), Append(e, rest))
    ensures NestOr(Append(e, rest)) == Max(NestOr(e), NestAnd(rest))
    decreases e
  {
    hide KindOf, ReadTest, AndOf;
    match e
    case OrLast(a) =>
      AndOfMeans(TestReader(lib), lib, a, rest);
      AndOfNests(a, rest);
    case OrMore(a, op, more) =>
      AppendMeans(lib, more, rest);
      assert YieldAnd(a) + ([op] + (YieldOr(more) + (["and"] + YieldAnd(rest))))
          == YieldAnd(a) + ([op] + YieldOr(more)) + (["and"] + YieldAnd(rest));
  }

  /** The condition on the host can be compiled alone, but perhaps for its length. */
  predicate HostReads(lib: Lib, sel: Selected) {
    sel.host != "" ==> Read(lib, "host " + sel.host).Ok?
  }

  /** The other conditions. */
  function Rest(sel: Selected): Selected { sel.(host := "") }

  /** The packets that a disjunct of the host's text before its last one accepts. */
  predicate HostAcceptsEarlier(lib: Lib, sel: Selected, p: Packet)
    requires HostReads(lib, sel)
  {
    sel.host != "" && EvalEarlier(lib, Read(lib, "host " + sel.host).value, p)
  }

  lemma TextsOfHost(sel: Selected)
    requires sel.host != "" && Combine(Rest(sel)).Some?
    ensures Combine(sel) == Some("host " + sel.host + " and " + Combine(Rest(sel)).value)
  {
    hide Digits, ProtoWord;
    var texts, rest := Texts(sel), Texts(Rest(sel));
    assert texts == ["host " + sel.host] + rest;
    assert texts[1..] == rest;
  }

  lemma HostIsTrimmed(lib: Lib, sel: Selected)
    requires Valid(lib, sel) && sel.host != ""
    ensures Trimmed("host " + sel.host) && Strip("host " + sel.host) == "host " + sel.host
  {
    var text := "host " + sel.host;
    StripOfTrimmed(sel.host);
    assert text[|text| - 1] == sel.host[|sel.host| - 1] && text[0] == 'h';
    StripOfTrimmed(text);
  }

  /** The tree that a host and something else are read as together. */
  lemma CombineHost(lib: Lib, sel: Selected)
    requires Valid(lib, sel) && HostReads(lib, sel) && sel.host != "" && Combine(Rest(sel)).Some?
    ensures Parts(lib, Rest(sel)) != []
    ensures var (e, rest) := (Read(lib, "host " + sel.host).value, Conjoin(Parts(lib, Rest(sel))));
      Compile(lib, Combine(sel).value) ==
        if |Combine(sel).value| > MAX_LENGTH then Err(TooLong)
        else if !HasRoom(lib, sel) then Err(TooDeep) else Ok(Append(e, rest))
  {
    hide Compile, Lex, KindOf, ReadTest, AcceptsAll, Parts;
    var hostText, restText, text := "host " + sel.host, Combine(Rest(sel)).value, Combine(sel).value;
    CombineParts(lib, Rest(sel));
    var e, rest, read := Read(lib, hostText).value, Conjoin(Parts(lib, Rest(sel))), TestReader(lib);
    TestsAreLocal(lib);
    HostIsTrimmed(lib, sel);
    TextsOfHost(sel);
    LexAndBetween(hostText, restText);
    ParserDecidesGrammar(read, Lex(hostText).value, e);
    AppendMeans(lib, e, rest);
    StripOfTrimmed(text);
    CompileIsRead(lib, text);
    ParserDecidesGrammar(read, Lex(text).value, Append(e, rest));
    if NestOr(Append(e, rest)) > MAX_DEPTH {
      TooDeepIsRefused(read, Append(e, rest));
    }
  }

  // ----- main result ---------------------------------------------------------------

  /**
   Composing by text. The combined text compiles exactly when it is no longer than the limit and the expression is
   nested at least one level below the limit. It then accepts exactly the packets that its conditions, each compiled
   alone, all accept, if and only if the other conditions accept whatever a disjunct of the host's text before the last
   one accepts: so whenever the host is one word, or its text has no `or` outside parentheses, or it stands alone.
   */
  lemma CombineMeansAll(lib: Lib, sel: Selected)
    requires Valid(lib, sel) && HostReads(lib, sel) && Combine(sel).Some?
    ensures var text := Combine(sel).value;
      && (Compile(lib, text).Ok? <==> |text| <= MAX_LENGTH && HasRoom(lib, sel))
      && (|text| > MAX_LENGTH ==> Compile(lib, text) == Err(TooLong))
      && (|text| <= MAX_LENGTH && !HasRoom(lib, sel) ==> Compile(lib, text) == Err(TooDeep))
      && (Compile(lib, text).Ok? ==>
            ((forall p :: Accepts(lib, text, p) <==> AcceptsAll(lib, sel, p)) <==>
             (forall p :: HostAcceptsEarlier(lib, sel, p) ==> AcceptsAll(lib, Rest(sel), p))))
  {
    hide Compile, Valid, HostReads, Accepts, AcceptsAll, HostAcceptsEarlier, HasRoom;
    CombineLimits(lib, sel);
    if Compile(lib, Combine(sel).value).Ok? {
      forall p ensures Accepts(lib, Combine(sel).value, p) <==>
        HostAcceptsEarlier(lib, sel, p) || AcceptsAll(lib, sel, p)
      ensures AcceptsAll(lib, sel, p) ==> AcceptsAll(lib, Rest(sel), p)
      ensures HostAcceptsEarlier(lib, sel, p) && AcceptsAll(lib, Rest(sel), p) ==> AcceptsAll(lib, sel, p)
      {
        CombineAccepts(lib, sel, p);
      }
    }
  }

  lemma CombineLimits(lib: Lib, sel: Selected)
    requires Valid(lib, sel) && HostReads(lib, sel) && Combine(sel).Some?
    ensures var text := Combine(sel).value;
      && (Compile(lib, text).Ok? <==> |text| <= MAX_LENGTH && HasRoom(lib, sel))
      && (|text| > MAX_LENGTH ==> Compile(lib, text) == Err(TooLong))
      && (|text| <= MAX_LENGTH && !HasRoom(lib, sel) ==> Compile(lib, text) == Err(TooDeep))
  {
    hide Compile, Lex, KindOf, ReadTest, AcceptsAll, Parts;
    var text := Combine(sel).value;
    if sel.host == "" {
      CombineAlone(lib, sel);
    } else if Combine(Rest(sel)).Some? {
      CombineHost(lib, sel);
    } else {
      OnlyHost(sel);
      HostIsTrimmed(lib, sel);
      CompileIsRead(lib, text);
    }
  }

  lemma OnlyHost(sel: Selected)
    requires sel.host != "" && Combine(Rest(sel)).None?
    ensures Combine(sel) == Some("host " + sel.host) && sel.port == 0 && sel.proto == "" && sel.expr == ""
  {
  }

  lemma CombineAlone(lib: Lib, sel: Selected)
    requires Valid(lib, sel) && sel.host == "" && Combine(sel).Some?
    ensures Parts(lib, sel) != []
    ensures Compile(lib, Combine(sel).value) ==
      if |Combine(sel).value| > MAX_LENGTH then Err(TooLong)
      else if !HasRoom(lib, sel) then Err(TooDeep) else Ok(OrLast(Conjoin(Parts(lib, sel))))
  {
    hide Compile, Valid, IsPart, AcceptsAll;
    CombineParts(lib, sel);
    PartsAreParts(lib, sel);
    PartsHaveTexts(lib, sel);
    CompileJoined(lib, Parts(lib, sel));
  }

  /** What one packet tells. */
  lemma CombineAccepts(lib: Lib, sel: Selected, p: Packet)
    requires Valid(lib, sel) && HostReads(lib, sel) && Combine(sel).Some? && Compile(lib, Combine(sel).value).Ok?
    ensures Accepts(lib, Combine(sel).value, p) <==> HostAcceptsEarlier(lib, sel, p) || AcceptsAll(lib, sel, p)
    ensures AcceptsAll(lib, sel, p) ==> AcceptsAll(lib, Rest(sel), p)
    ensures HostAcceptsEarlier(lib, sel, p) && AcceptsAll(lib, Rest(sel), p) ==> AcceptsAll(lib, sel, p)
  {
    hide Compile, Lex, KindOf, ReadTest, Parts, EvalOr, EvalAnd, EvalEarlier;
    CombineLimits(lib, sel);
    if sel.host == "" {
      CombineAlone(lib, sel);
      CombineParts(lib, sel);
      EvalOfOne(lib, Conjoin(Parts(lib, sel)), p);
    } else {
      var hostText := "host " + sel.host;
      HostIsTrimmed(lib, sel);
      CompileIsRead(lib, hostText);
      var e := Read(lib, hostText).value;
      if Combine(Rest(sel)).Some? {
        CombineHost(lib, sel);
        CombineParts(lib, Rest(sel));
        TextsOfHost(sel);
        AppendMeans(lib, e, Conjoin(Parts(lib, Rest(sel))));
      } else {
        OnlyHost(sel);
        AppendMeans(lib, e, LastOf(e));
      }
    }
  }

  lemma EvalOfOne(lib: Lib, a: AndTree, p: Packet)
    ensures EvalOr(lib, OrLast(a), p) <==> EvalAnd(lib, a, p)
  {
  }

  /** A host of one word is read as a test and nothing else. */
  lemma WordHostReads(lib: Lib, sel: Selected)
    requires Valid(lib, sel) && (sel.host != "" ==> IsWord(sel.host))
    ensures HostReads(lib, sel) && forall p :: !HostAcceptsEarlier(lib, sel, p)
  {
    hide Lex, KindOf, ReadTest;
    if sel.host != "" {
      var part := HostPart(sel);
      HostIsPart(lib, sel);
      HostIsTrimmed(lib, sel);
      var read, a := TestReader(lib), AndLast(part.tree);
      TestsAreLocal(lib);
      assert YieldOr(OrLast(a)) == YieldAnd(a) == YieldUnary(part.tree) && GoodAnd(read, a) && NestAnd(a) == 0;
      ParserDecidesGrammar(read, Lex(part.text).value, OrLast(a));
      assert Read(lib, part.text) == Ok(OrLast(a));
    }
  }

  lemma EachPart(lib: Lib, sel: Selected, p: Packet)
    requires Valid(lib, sel) && Parts(lib, sel) != [] && Combine(sel).Some?
    requires forall part :: part in Parts(lib, sel) ==> IsPart(lib, part)
    requires PartTexts(Parts(lib, sel)) == Texts(sel) && |Combine(sel).value| <= MAX_LENGTH && HasRoom(lib, sel)
    ensures AcceptsAll(lib, sel, p) <==> forall part :: part in Parts(lib, sel) ==> EvalUnary(lib, part.tree, p)
  {
    hide IsPart, Compile, Parts, Accepts, EvalUnary, HostPart, PortPart, ProtoPart, ExprPart, Digits, ProtoWord;
    var parts := Parts(lib, sel);
    EachAccepts(lib, sel, p);
    forall part ensures part in parts <==>
      || (sel.host != "" && part == HostPart(sel)) || (sel.port != 0 && part == PortPart(sel))
      || (sel.proto != "" && part == ProtoPart(sel)) || (sel.expr != "" && part == ExprPart(lib, sel))
    {
      PartsMembers(lib, sel, part);
    }
  }

  lemma EachAccepts(lib: Lib, sel: Selected, p: Packet)
    requires Valid(lib, sel) && Combine(sel).Some? && PartTexts(Parts(lib, sel)) == Texts(sel)
    requires forall part :: part in Parts(lib, sel) ==> IsPart(lib, part)
    requires |Combine(sel).value| <= MAX_LENGTH
    ensures sel.host != "" ==> (Accepts(lib, "host " + sel.host, p) <==> EvalUnary(lib, HostPart(sel).tree, p))
    ensures sel.port != 0 ==> (Accepts(lib, "port " + Digits(sel.port), p) <==> EvalUnary(lib, PortPart(sel).tree, p))
    ensures sel.proto != "" ==> (Accepts(lib, ProtoWord(sel.proto), p) <==> EvalUnary(lib, ProtoPart(sel).tree, p))
    ensures sel.expr != "" ==> (Accepts(lib, sel.expr, p) <==> EvalUnary(lib, ExprPart(lib, sel).tree, p))
  {
    hide IsPart, Compile, Parts, Accepts, EvalUnary;
    if sel.host != "" { LeafAccepts(lib, sel, HostPart(sel), p); }
    if sel.port != 0 { LeafAccepts(lib, sel, PortPart(sel), p); }
    if sel.proto != "" { LeafAccepts(lib, sel, ProtoPart(sel), p); }
    if sel.expr != "" { AcceptsExpr(lib, sel, p); }
  }

  lemma LeafAccepts(lib: Lib, sel: Selected, part: Part, p: Packet)
    requires Valid(lib, sel) && Combine(sel).Some? && PartTexts(Parts(lib, sel)) == Texts(sel)
    requires forall part :: part in Parts(lib, sel) ==> IsPart(lib, part)
    requires |Combine(sel).value| <= MAX_LENGTH && part.tree.Leaf?
    requires (sel.host != "" && part == HostPart(sel)) || (sel.port != 0 && part == PortPart(sel))
          || (sel.proto != "" && part == ProtoPart(sel))
    ensures Accepts(lib, part.text, p) <==> EvalUnary(lib, part.tree, p)
  {
    hide IsPart, Compile, Parts, Accepts, EvalUnary, HostPart, PortPart, ProtoPart, ExprPart;
    PartsMembers(lib, sel, part);
    PartIsShort(Parts(lib, sel), part);
    AcceptsPart(lib, part, p);
  }

  lemma AcceptsExpr(lib: Lib, sel: Selected, p: Packet)
    requires Compile(lib, sel.expr).Ok?
    ensures Accepts(lib, sel.expr, p) <==> EvalUnary(lib, ExprPart(lib, sel).tree, p)
  {
  }

  lemma PartIsShort(parts: seq<Part>, part: Part)
    requires |JoinWith(" and ", PartTexts(parts))| <= MAX_LENGTH && part in parts
    ensures |part.text| <= MAX_LENGTH
  {
    JoinIsLonger(" and ", PartTexts(parts));
    var i :| 0 <= i < |parts| && parts[i] == part;
    assert PartTexts(parts)[i] == part.text;
  }

  // ----- where it fails ------------------------------------------------------------

  function Nots(n: nat): Formula {
    if n == 0 then Atom(["arp"]) else Neg(Nots(n - 1))
  }

  lemma {:induction false} NotsPrinted(lib: Lib, n: nat)
    ensures IsFormula(lib, Nots(n))
    ensures var u := ToUnary(lib, Nots(n));
      NestUnary(u) == n && |YieldUnary(u)| == n + 1 && |JoinWith(" ", YieldUnary(u))| == 4 * n + 3
  {
    if n == 0 {
      assert IsProtocol("arp");
      ProtocolKinds("arp");
      ProtocolIsWord("arp");
      ReadProtocol(lib, "arp");
    } else {
      NotsPrinted(lib, n - 1);
      var rest := YieldUnary(ToUnary(lib, Nots(n - 1)));
      assert (["not"] + rest)[1..] == rest;
    }
  }

  /** The limits are not closed under `combine`: an expression can be accepted alone and refused when combined. */
  lemma DeepestExpressionCannotBeCombined(lib: Lib) returns (sel: Selected)
    ensures Valid(lib, sel) && sel.expr != "" && Combine(sel).Some?
    ensures Compile(lib, sel.expr).Ok? && Compile(lib, Combine(sel).value) == Err(TooDeep)
  {
    hide Compile, IsFormula, ToOr, ToUnary, NestOr, NestUnary, YieldOr, YieldUnary;
    var f := Nots(MAX_DEPTH);
    NotsPrinted(lib, MAX_DEPTH);
    NotsTree(lib, MAX_DEPTH);
    PrintThenCompile(lib, f);
    PrintIsTrimmed(lib, f);
    sel := Selected("", 0, "", Print(lib, f));
    assert Texts(sel) == ["(" + sel.expr + ")"];
    CombineMeansAll(lib, sel);
  }

  lemma NotsTree(lib: Lib, n: nat)
    requires IsFormula(lib, Nots(n))
    ensures var (e, u) := (ToOr(lib, Nots(n)), ToUnary(lib, Nots(n)));
      NestOr(e) == NestUnary(u) && YieldOr(e) == YieldUnary(u)
  {
    hide IsFormula;
    var u := ToUnary(lib, Nots(n));
    assert ToOr(lib, Nots(n)) == OrLast(AndLast(u));
    assert NestAnd(AndLast(u)) == NestUnary(u) && YieldAnd(AndLast(u)) == YieldUnary(u);
  }

  /**
   An IPv6 zone makes an address of any text after a percent sign. When that text is more than one word the
   condition `host` is read as more than itself, and the combined filter accepts packets that it should not.
   */
  lemma HostOfSeveralWords(lib: Lib, a: string) returns (sel: Selected, p: Packet)
    requires IsWord(a) && |a| <= 200 && lib.address(a) == Some(a)
    requires lib.address(a + " or tcp") == Some(a + " or tcp")
    ensures Valid(lib, sel) && Combine(sel).Some? && Accepts(lib, Combine(sel).value, p) && !AcceptsAll(lib, sel, p)
  {
    hide Compile, ReadTest, Lex, KindOf, Holds, IsProtocol, IsFilterProto;
    sel := Selected(a + " or tcp", 80, "", "");
    p := Packet(Some(a), None, None, None, None, None, "ICMP", "", 4, 60, "", "", {});
    var one := Selected(a, 80, "tcp", "");
    assert IsFilterProto("tcp") by { TcpIsProtocol(); }
    HostIsPart(lib, one);
    PortIsPart(lib, one);
    ProtoIsPart(lib, one);
    var e := SeveralWordsTree(one);
    SeveralWordsYield(one);
    SeveralWordsGood(lib, one);
    SeveralWordsText(a);
    WordKinds();
    CompileSpaced(lib, e);
    SeveralWordsEval(lib, one, e, p);
    AcceptsPart(lib, PortPart(one), p);
  }

  lemma TcpIsProtocol()
    ensures IsFilterProto("tcp")
  {
  }

  /** `host or proto and port`, as the parser groups it. */
  function SeveralWordsTree(one: Selected): OrTree {
    OrMore(AndLast(HostPart(one).tree), "or", OrLast(AndMore(ProtoPart(one).tree, "and", AndLast(PortPart(one).tree))))
  }

  lemma SeveralWordsYield(one: Selected)
    requires one.proto == "tcp"
    ensures YieldOr(SeveralWordsTree(one)) == ["host", one.host, "or", "tcp", "and", "port", Digits(one.port)]
    ensures NestOr(SeveralWordsTree(one)) == 0
  {
    var right := AndMore(ProtoPart(one).tree, "and", AndLast(PortPart(one).tree));
    assert YieldAnd(AndLast(PortPart(one).tree)) == ["port", Digits(one.port)];
    assert YieldAnd(right) == ["tcp", "and", "port", Digits(one.port)];
    assert YieldOr(OrLast(right)) == YieldAnd(right);
    assert YieldAnd(AndLast(HostPart(one).tree)) == ["host", one.host];
    assert NestUnary(PortPart(one).tree) == NestUnary(ProtoPart(one).tree) == NestUnary(HostPart(one).tree) == 0;
    assert NestAnd(AndLast(PortPart(one).tree)) == 0;
    assert NestAnd(right) == 0;
    assert NestOr(OrLast(right)) == 0 && NestAnd(AndLast(HostPart(one).tree)) == 0;
  }

  lemma SeveralWordsGood(lib: Lib, one: Selected)
    requires one.proto == "tcp" && IsWord(one.host)
    requires IsPart(lib, HostPart(one)) && IsPart(lib, PortPart(one)) && IsPart(lib, ProtoPart(one))
    ensures AllTokens(YieldOr(SeveralWordsTree(one))) && GoodOr(TestReader(lib), SeveralWordsTree(one))
  {
    hide KindOf, Lex, ReadTest, Trimmed, Lower, YieldOr, YieldAnd;
    SeveralWordsYield(one);
    WordKinds();
    KeywordIsWord("host");
    KeywordIsWord("port");
    assert IsWord("tcp");
    var read, right := TestReader(lib), AndMore(ProtoPart(one).tree, "and", AndLast(PortPart(one).tree));
    assert GoodAnd(read, AndLast(PortPart(one).tree));
    assert GoodAnd(read, right) && GoodOr(read, OrLast(right));
  }

  lemma SeveralWordsEval(lib: Lib, one: Selected, e: OrTree, p: Packet)
    requires e.OrMore? && e.first == AndLast(HostPart(one).tree)
    requires p.src == Some(one.host) && p.proto == "ICMP"
    ensures EvalOr(lib, e, p) && !EvalUnary(lib, PortPart(one).tree, p)
  {
    assert Holds(lib, Host(None, Either, one.host), p);
  }

  lemma SeveralWordsJoined(a: string, d: string)
    ensures JoinWith(" and ", ["host " + (a + " or tcp"), "port " + d])
      == JoinWith(" ", ["host", a, "or", "tcp", "and", "port", d])
  {
    assert ["host " + (a + " or tcp"), "port " + d][1..] == ["port " + d];
    var tail := "and" + " " + ("port" + " " + d);
    assert JoinWith(" ", ["and", "port", d]) == tail by {
      JoinStep("port", [d]);
      JoinStep("and", ["port", d]);
    }
    JoinStep("tcp", ["and", "port", d]);
    JoinStep("or", ["tcp", "and", "port", d]);
    JoinStep(a, ["or", "tcp", "and", "port", d]);
    JoinStep("host", [a, "or", "tcp", "and", "port", d]);
    assert " and " + ("port " + d) == " " + tail;
    assert a + " " + ("or" + " " + ("tcp" + " " + tail)) == a + " or tcp" + (" " + tail);
  }

  lemma SeveralWordsText(a: string)
    ensures var (d, sel) := (Digits(80), Selected(a + " or tcp", 80, "", ""));
      && Texts(sel) == ["host " + sel.host, "port " + d]
      && JoinWith(" and ", Texts(sel)) == JoinWith(" ", ["host", a, "or", "tcp", "and", "port", d])
      && |JoinWith(" and ", Texts(sel))| == |a| + 24
  {
    var d, sel := Digits(80), Selected(a + " or tcp", 80, "", "");
    assert |d| == 2 by { assert d == Digits(8) + ['0'] && |Digits(8)| == 1; }
    SeveralWordsJoined(a, d);
    assert Texts(sel)[1..] == ["port " + d];
  }

  lemma JoinStep(t: string, ts: Tokens)
    requires ts != []
    ensures [t] + ts != [] && JoinWith(" ", [t] + ts) == t + " " + JoinWith(" ", ts)
  {
    assert ([t] + ts)[1..] == ts;
  }
}
