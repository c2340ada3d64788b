/**
 What the tests of the filter language mean (`capture_filter.py`), from the text that is compiled to the fields of the
 packet that is tested. Words that belong to the language may be in any case.
 */
module FilterMeaning {
  import opened Collections
  import opened Wrappers
  import opened MacAddress
  import opened FilterLexer
  import opened FilterPrimitives
  import opened FilterGrammar
  import opened FilterPrinter
  import opened FilterCombine

  /** Words with one space between them. */
  function Text(words: Tokens): string {
    JoinWith(" ", words)
  }

  /** Tokens that a filter may be made of. */
  predicate Fits(words: Tokens) {
    words != [] && AllTokens(words) && |Text(words)| <= MAX_LENGTH
  }

  // ----- from a test to its text ---------------------------------------------------------

  lemma LowerWord(k: string)
    requires IsWord(Lower(k))
    ensures IsWord(k)
  {
    forall i | 0 <= i < |k| ensures IsWordChar(k[i]) {
      assert IsWordChar(Lower(k)[i]);
    }
  }

  /** Changing the case of letters changes nothing that the parser looks at. */
  lemma LowerForgetsCase(s: string)
    ensures Lower(Upper(s)) == Lower(s) && Lower(Lower(s)) == Lower(s) && IsLower(Lower(s))
  {
  }

  /** A text that is read as one test compiles to that test. */
  lemma CompiledTest(lib: Lib, words: Tokens, t: Test)
    requires Fits(words) && ReadTest(lib, words) == Ok((t, |words|))
    ensures Compile(lib, Text(words)).Ok?
    ensures forall p :: Accepts(lib, Text(words), p) <==> Holds(lib, t, p)
  {
    hide ReadTest, KindOf, Holds, Lex;
    var u := Leaf(words, t);
    var e := OrLast(AndLast(u));
    assert YieldOr(e) == YieldAnd(AndLast(u)) == words;
    assert NestOr(e) == NestAnd(AndLast(u)) == 0;
    assert GoodAnd(TestReader(lib), AndLast(u));
    CompileSpaced(lib, e);
    hide Compile;
    forall p ensures Accepts(lib, Text(words), p) <==> Holds(lib, t, p) {
      assert EvalAnd(lib, AndLast(u), p) <==> EvalUnary(lib, u, p);
    }
  }

  /** A text that is refused as a test is refused, for the same reason. */
  lemma RefusedTest(lib: Lib, words: Tokens)
    requires Fits(words) && ReadTest(lib, words).Err?
    requires !KindOf(words[0]).NotWord? && words[0] != OPEN
    ensures Compile(lib, Text(words)) == Err(ReadTest(lib, words).error)
  {
    hide ReadTest, KindOf, Lex;
    var read := TestReader(lib);
    TestsAreLocal(lib);
    forall t | t in words ensures Trimmed(t) { TokensTrimmed(t); }
    JoinTrimmed(" ", words);
    StripOfTrimmed(Text(words));
    LexOfSpaced(words);
    assert ParseUnary(read, words, 0) == Err(ReadTest(lib, words).error);
    ErrorSteps(read, words, 0);
  }

  // ----- addresses and ports -------------------------------------------------------------

  /** Nothing, or a word for one of the two directions. */
  predicate IsSide(d: Tokens) {
    d == [] || (|d| == 1 && (Lower(d[0]) == "src" || Lower(d[0]) == "dst"))
  }

  predicate IsSidedWord(w: string) {
    w == "host" || w == "net" || w == "port" || w == "portrange"
  }

  function SideOf(d: Tokens): Direction {
    if d == [] then Either else if Lower(d[0]) == "src" then Src else Dst
  }

  lemma SidedWordKinds(w: string)
    requires IsSidedWord(w) || IsDirection(w)
    ensures !IsUnsupported(w) && !IsIssue(w) && !IsProtocol(w) && w != "problem"
    ensures w != "ether" && w != "len" && w != "less" && w != "greater" && w != "sni" && w != "name"
    ensures IsSidedWord(w) ==> !IsDirection(w)
  {
  }

  lemma SidedWordIsWord(w: string)
    requires IsSidedWord(w) || IsDirection(w)
    ensures IsWord(w) && IsQualified(w)
  {
  }

  /** A sided test is read by its keyword and its argument. */
  lemma ReadsSided(lib: Lib, d: Tokens, k: string, a: string)
    requires IsSide(d) && IsSidedWord(Lower(k))
    ensures ReadTest(lib, d + [k, a]) == ReadSided(lib, None, SideOf(d), d + [k, a], |d|)
  {
    hide IsUnsupported, IsIssue, IsProtocol, IsQualified, Lower, ReadSided;
    SidedWordKinds(Lower(k));
    if d != [] {
      SidedWordKinds(Lower(d[0]));
      assert (d + [k, a])[0] == d[0];
    }
  }

  lemma SidedFits(d: Tokens, k: string, a: string)
    requires IsSide(d) && IsSidedWord(Lower(k)) && IsWord(a)
    ensures AllTokens(d + [k, a])
    ensures !KindOf((d + [k, a])[0]).NotWord? && (d + [k, a])[0] != OPEN
  {
    hide Lower, IsWord, KindOf, IsSidedWord;
    KeywordIsTest(k);
    if d != [] {
      KeywordIsTest(d[0]);
      assert d + [k, a] == [d[0], k, a];
    } else {
      assert d + [k, a] == [k, a];
    }
  }

  lemma KeywordIsTest(k: string)
    requires IsSidedWord(Lower(k)) || IsDirection(Lower(k))
    ensures IsWord(k) && KindOf(k).Qualified? && k != OPEN
  {
    hide Lower, IsWord;
    SidedWordIsWord(Lower(k));
    LowerWord(k);
    KindOfParentheses();
  }

  /** The text compiles exactly when its argument will do, and then it is the sided test. */
  lemma SidedText(lib: Lib, d: Tokens, k: string, a: string)
    requires IsSide(d) && IsSidedWord(Lower(k)) && IsWord(a) && |Text(d + [k, a])| <= MAX_LENGTH
    ensures var read := ReadSided(lib, None, SideOf(d), d + [k, a], |d|);
      && (read.Err? ==> Compile(lib, Text(d + [k, a])) == Err(read.error))
      && (read.Ok? ==>
            && Compile(lib, Text(d + [k, a])).Ok?
            && forall p :: Accepts(lib, Text(d + [k, a]), p) <==> Holds(lib, read.value.0, p))
  {
    hide ReadTest, Compile, Holds, KindOf, Lower, IsWord;
    ReadsSided(lib, d, k, a);
    SidedFits(d, k, a);
    var read := ReadSided(lib, None, SideOf(d), d + [k, a], |d|);
    if read.Ok? {
      CompiledTest(lib, d + [k, a], read.value.0);
    } else {
      RefusedTest(lib, d + [k, a]);
    }
  }

  /** `host`: the address at the named end, or at either, is the one that is written. */
  lemma HostMeans(lib: Lib, d: Tokens, k: string, a: string, p: Packet)
    requires IsSide(d) && Lower(k) == "host" && IsWord(a) && |Text(d + [k, a])| <= MAX_LENGTH
    ensures lib.address(a).None? ==> Compile(lib, Text(d + [k, a])) == Err(NotAnAddress)
    ensures lib.address(a).Some? ==>
      && Compile(lib, Text(d + [k, a])).Ok?
      && (d == [] ==> (Accepts(lib, Text(d + [k, a]), p) <==> p.src == lib.address(a) || p.dst == lib.address(a)))
      && (d != [] && Lower(d[0]) == "src" ==> (Accepts(lib, Text(d + [k, a]), p) <==> p.src == lib.address(a)))
      && (d != [] && Lower(d[0]) == "dst" ==> (Accepts(lib, Text(d + [k, a]), p) <==> p.dst == lib.address(a)))
  {
    hide Compile, Accepts, Lower, IsWord;
    SidedText(lib, d, k, a);
  }

  /** `net`: the address at the named end, or at either, is in the network. */
  lemma NetMeans(lib: Lib, d: Tokens, k: string, a: string, p: Packet)
    requires IsSide(d) && Lower(k) == "net" && IsWord(a) && |Text(d + [k, a])| <= MAX_LENGTH
    ensures !lib.isNetwork(a) ==> Compile(lib, Text(d + [k, a])) == Err(NotANetwork)
    ensures lib.isNetwork(a) ==>
      var fromIt, toIt := p.src.Some? && lib.inNetwork(a, p.src.value), p.dst.Some? && lib.inNetwork(a, p.dst.value);
      && Compile(lib, Text(d + [k, a])).Ok?
      && (d == [] ==> (Accepts(lib, Text(d + [k, a]), p) <==> fromIt || toIt))
      && (d != [] && Lower(d[0]) == "src" ==> (Accepts(lib, Text(d + [k, a]), p) <==> fromIt))
      && (d != [] && Lower(d[0]) == "dst" ==> (Accepts(lib, Text(d + [k, a]), p) <==> toIt))
  {
    hide Compile, Accepts, Lower, IsWord;
    SidedText(lib, d, k, a);
  }

  /** `port`: a TCP or UDP packet with that port at the named end, or at either. */
  lemma PortMeans(lib: Lib, d: Tokens, k: string, a: string, p: Packet)
    requires IsSide(d) && Lower(k) == "port" && IsWord(a) && |Text(d + [k, a])| <= MAX_LENGTH
    ensures !(IsNumber(a) && 1 <= NumberOf(a) <= 65535) ==> Compile(lib, Text(d + [k, a])) == Err(NotAPort)
    ensures IsNumber(a) && 1 <= NumberOf(a) <= 65535 ==>
      var hasPorts := p.proto == "TCP" || p.proto == "UDP";
      var fromIt, toIt := p.sport == Some(NumberOf(a)), p.dport == Some(NumberOf(a));
      && Compile(lib, Text(d + [k, a])).Ok?
      && (d == [] ==> (Accepts(lib, Text(d + [k, a]), p) <==> hasPorts && (fromIt || toIt)))
      && (d != [] && Lower(d[0]) == "src" ==> (Accepts(lib, Text(d + [k, a]), p) <==> hasPorts && fromIt))
      && (d != [] && Lower(d[0]) == "dst" ==> (Accepts(lib, Text(d + [k, a]), p) <==> hasPorts && toIt))
  {
    hide Compile, Accepts, Lower, IsWord, NumberOf;
    SidedText(lib, d, k, a);
  }

  lemma DashAt(low: string, high: string)
    requires '-' !in low
    ensures Dash(low + "-" + high) == |low|
    ensures (low + "-" + high)[..|low|] == low && (low + "-" + high)[|low| + 1..] == high
  {
    assert forall i :: 0 <= i < |low| ==> (low + "-" + high)[i] == low[i];
    assert (low + "-" + high)[|low|] == '-';
  }

  /** `portrange`: a TCP or UDP packet with a port from the first to the last at the named end, or at either. */
  lemma RangeMeans(lib: Lib, d: Tokens, k: string, low: string, high: string, p: Packet)
    requires IsSide(d) && Lower(k) == "portrange" && IsWord(low + "-" + high) && '-' !in low
    requires |Text(d + [k, low + "-" + high])| <= MAX_LENGTH
    ensures var text := Text(d + [k, low + "-" + high]);
      var ports := (IsNumber(low) && 1 <= NumberOf(low) <= 65535) && (IsNumber(high) && 1 <= NumberOf(high) <= 65535);
      && (!ports ==> Compile(lib, text) == Err(NotAPort))
      && (ports && NumberOf(low) > NumberOf(high) ==> Compile(lib, text) == Err(Backwards))
      && (ports && NumberOf(low) <= NumberOf(high) ==>
            var hasPorts := p.proto == "TCP" || p.proto == "UDP";
            var fromIt := p.sport.Some? && NumberOf(low) <= p.sport.value <= NumberOf(high);
            var toIt := p.dport.Some? && NumberOf(low) <= p.dport.value <= NumberOf(high);
            && Compile(lib, text).Ok?
            && (d == [] ==> (Accepts(lib, text, p) <==> hasPorts && (fromIt || toIt)))
            && (d != [] && Lower(d[0]) == "src" ==> (Accepts(lib, text, p) <==> hasPorts && fromIt))
            && (d != [] && Lower(d[0]) == "dst" ==> (Accepts(lib, text, p) <==> hasPorts && toIt)))
  {
    hide Compile, Accepts, Lower, IsWord, NumberOf, IsNumber, Dash;
    SidedText(lib, d, k, low + "-" + high);
    DashAt(low, high);
  }

  lemma RangeNeedsDash(lib: Lib, d: Tokens, k: string, a: string)
    requires IsSide(d) && Lower(k) == "portrange" && IsWord(a) && '-' !in a && |Text(d + [k, a])| <= MAX_LENGTH
    ensures Compile(lib, Text(d + [k, a])) == Err(NotARange)
  {
    hide Compile, Accepts, Lower, IsWord, NumberOf, IsNumber;
    SidedText(lib, d, k, a);
    assert Dash(a) == |a|;
  }

  // ----- protocols -----------------------------------------------------------------------

  lemma ProtocolWord(w: string)
    requires IsProtocol(Lower(w))
    ensures IsWord(w) && !IsUnsupported(Lower(w)) && !IsIssue(Lower(w)) && Lower(w) != "problem"
    ensures KindOf(w).Word? && w != OPEN
  {
    hide Lower, IsWord, IsProtocol, IsUnsupported, IsIssue;
    ProtocolKinds(Lower(w));
    ProtocolIsWord(Lower(w));
    LowerWord(w);
    KindOfParentheses();
    ProtocolIsTest(Lower(w));
  }

  lemma ProtocolIsTest(w: string)
    requires IsProtocol(w)
    ensures w != "or" && w != "||" && w != "and" && w != "&&" && w != "not" && w != "!" && w != "(" && w != ")"
    ensures !IsQualified(w)
  {
  }

  lemma ReadsProtocol(lib: Lib, w: string)
    requires IsProtocol(Lower(w))
    ensures ReadTest(lib, [w]) == Ok((Protocol(Lower(w)), 1))
  {
    ProtocolWord(w);
    hide Lower, IsUnsupported, IsIssue, IsProtocol, KindOf;
  }

  lemma ProtocolText(lib: Lib, w: string)
    requires IsProtocol(Lower(w)) && |w| <= MAX_LENGTH
    ensures Compile(lib, w).Ok? && forall p :: Accepts(lib, w, p) <==> HasProtocol(Lower(w), p)
  {
    hide ReadTest, Compile, Lower, IsProtocol, HasProtocol, KindOf, IsWord;
    ProtocolWord(w);
    ReadsProtocol(lib, w);
    assert Text([w]) == w;
    CompiledTest(lib, [w], Protocol(Lower(w)));
  }

  /** A word for a protocol alone: which field of the packet it looks at, and what it wants to see there. */
  lemma ProtocolMeans(lib: Lib, w: string, p: Packet)
    ensures Lower(w) == "tcp" ==> Compile(lib, w).Ok? && (Accepts(lib, w, p) <==> p.proto == "TCP")
    ensures Lower(w) == "udp" ==> Compile(lib, w).Ok? && (Accepts(lib, w, p) <==> p.proto == "UDP")
    ensures Lower(w) == "icmp" ==> Compile(lib, w).Ok? && (Accepts(lib, w, p) <==> p.proto == "ICMP")
    ensures Lower(w) == "icmp6" ==> Compile(lib, w).Ok? && (Accepts(lib, w, p) <==> p.proto == "ICMPv6")
    ensures Lower(w) == "arp" ==> Compile(lib, w).Ok? && (Accepts(lib, w, p) <==> p.proto == "ARP")
    ensures Lower(w) == "ip" ==> Compile(lib, w).Ok? && (Accepts(lib, w, p) <==> p.ip == 4)
    ensures Lower(w) == "ip6" ==> Compile(lib, w).Ok? && (Accepts(lib, w, p) <==> p.ip == 6)
    ensures Lower(w) == "dns" || Lower(w) == "tls" || Lower(w) == "http" || Lower(w) == "dhcp" || Lower(w) == "ntp" ==>
      Compile(lib, w).Ok? && (Accepts(lib, w, p) <==> p.app == Lower(w))
  {
    if IsProtocol(Lower(w)) {
      assert |w| <= MAX_LENGTH;
      hide Compile, Accepts;
      ProtocolText(lib, w);
      UpperWords();
    }
  }

  lemma UpperWords()
    ensures Upper("tcp") == "TCP" && Upper("udp") == "UDP" && Upper("icmp") == "ICMP" && Upper("arp") == "ARP"
  {
  }

  /** The sided tests that make no sense for a protocol without ports. */
  predicate AsksForPorts(q: string, k: string) {
    (Lower(k) == "port" || Lower(k) == "portrange") && (Lower(q) == "icmp" || Lower(q) == "icmp6" || Lower(q) == "arp")
  }

  lemma SidedQualified(lib: Lib, q: string, side: Direction, ts: Tokens, i: nat, p: Packet)
    requires i < |ts|
    ensures var (alone, both) := (ReadSided(lib, None, side, ts, i), ReadSided(lib, Some(Lower(q)), side, [q] + ts, i + 1));
      && (IsSidedWord(Lower(ts[i])) && AsksForPorts(q, ts[i]) ==> both == Err(NoPorts))
      && (!AsksForPorts(q, ts[i]) && alone.Err? ==> both == Err(alone.error))
      && (!AsksForPorts(q, ts[i]) && alone.Ok? ==>
            && both.Ok? && both.value.1 == alone.value.1 + 1
            && (Holds(lib, both.value.0, p) <==> HasProtocol(Lower(q), p) && Holds(lib, alone.value.0, p)))
  {
    hide Lower, HasProtocol, OnSide, Port, PortRange;
    assert ([q] + ts)[i + 1] == ts[i];
    assert i + 1 < |ts| ==> ([q] + ts)[i + 2] == ts[i + 1];
  }

  lemma ReadsQualified(lib: Lib, q: string, d: Tokens, k: string, a: string)
    requires IsProtocol(Lower(q)) && IsSide(d) && IsSidedWord(Lower(k))
    ensures ReadTest(lib, [q] + (d + [k, a])) == ReadSided(lib, Some(Lower(q)), SideOf(d), [q] + (d + [k, a]), 1 + |d|)
  {
    ProtocolWord(q);
    SidedWordKinds(Lower(k));
    SidedWordIsWord(Lower(k));
    var ts := [q] + (d + [k, a]);
    if d != [] {
      SidedWordIsWord(Lower(d[0]));
      assert ts[1] == d[0];
    } else {
      assert ts[1] == k;
    }
    hide IsUnsupported, IsIssue, IsProtocol, IsQualified, Lower, ReadSided, IsSidedWord, KindOf, IsWord;
  }

  /**
   A protocol before a sided test: the packet must be of that protocol and pass the test. Only ports cannot be asked of
   a protocol that has none.
   */
  lemma QualifiedMeans(lib: Lib, q: string, d: Tokens, k: string, a: string, p: Packet)
    requires IsProtocol(Lower(q)) && IsSide(d) && IsSidedWord(Lower(k)) && IsWord(a)
    requires |Text([q] + (d + [k, a]))| <= MAX_LENGTH
    ensures var (both, alone) := (Text([q] + (d + [k, a])), Text(d + [k, a]));
      && (AsksForPorts(q, k) ==> Compile(lib, both) == Err(NoPorts))
      && (!AsksForPorts(q, k) ==>
            && (Compile(lib, both).Ok? <==> Compile(lib, alone).Ok?)
            && (Accepts(lib, both, p) <==> Accepts(lib, q, p) && Accepts(lib, alone, p)))
  {
    hide ReadTest, Compile, Holds, KindOf, Lower, IsWord, IsProtocol, IsSidedWord, HasProtocol, ReadSided, AsksForPorts;
    var rest := d + [k, a];
    var ts := [q] + rest;
    assert ts[1..] == rest && rest != [];
    assert |Text(ts)| == |q| + 1 + |Text(rest)|;
    ProtocolWord(q);
    ProtocolText(lib, q);
    SidedFits(d, k, a);
    SidedText(lib, d, k, a);
    ReadsQualified(lib, q, d, k, a);
    SidedQualified(lib, q, SideOf(d), rest, |d|, p);
    assert rest[|d|] == k;
    var both := ReadSided(lib, Some(Lower(q)), SideOf(d), ts, 1 + |d|);
    var alone := ReadSided(lib, None, SideOf(d), rest, |d|);
    if both.Ok? {
      SidedTakesAll(lib, Some(Lower(q)), SideOf(d), ts, 1 + |d|);
      CompiledTest(lib, ts, both.value.0);
    } else {
      RefusedTest(lib, ts);
    }
  }

  lemma SidedTakesAll(lib: Lib, q: Option<string>, side: Direction, ts: Tokens, i: nat)
    requires i < |ts| && ReadSided(lib, q, side, ts, i).Ok?
    ensures ReadSided(lib, q, side, ts, i).value.1 == i + 2
  {
  }

  // ----- what the capture has flagged ----------------------------------------------------

  predicate IsProblem(w: string) {
    IsIssue(w) || w == "problem"
  }

  lemma ProblemKinds(w: string)
    requires IsProblem(w)
    ensures !IsUnsupported(w)
  {
  }

  lemma ProblemIsWord(w: string)
    requires IsProblem(w)
    ensures IsWord(w)
  {
  }

  lemma ReadsProblem(lib: Lib, w: string)
    requires IsProblem(Lower(w))
    ensures ReadTest(lib, [w]) == Ok((if IsIssue(Lower(w)) then Issue(Lower(w)) else Problem, 1))
    ensures IsWord(w)
  {
    ProblemKinds(Lower(w));
    ProblemIsWord(Lower(w));
    LowerWord(w);
    hide Lower, IsIssue, IsUnsupported, IsWord;
  }

  lemma ProblemText(lib: Lib, w: string)
    requires IsProblem(Lower(w)) && |w| <= MAX_LENGTH
    ensures Compile(lib, w).Ok?
    ensures forall p :: Accepts(lib, w, p) <==> if IsIssue(Lower(w)) then IssueLabel(Lower(w)) in p.issues else p.issues != {}
  {
    hide ReadTest, Compile, Lower, IsIssue, IssueLabel, KindOf, IsWord;
    ReadsProblem(lib, w);
    assert Text([w]) == w;
    CompiledTest(lib, [w], if IsIssue(Lower(w)) then Issue(Lower(w)) else Problem);
  }

  /** A word for a problem: the packet is flagged with it, or, for `problem`, with anything. */
  lemma ProblemMeans(lib: Lib, w: string, p: Packet)
    ensures Lower(w) == "retransmit" ==> Compile(lib, w).Ok? && (Accepts(lib, w, p) <==> "retransmit" in p.issues)
    ensures Lower(w) == "reset" ==> Compile(lib, w).Ok? && (Accepts(lib, w, p) <==> "reset" in p.issues)
    ensures Lower(w) == "zerowindow" ==> Compile(lib, w).Ok? && (Accepts(lib, w, p) <==> "zero-window" in p.issues)
    ensures Lower(w) == "dupack" ==> Compile(lib, w).Ok? && (Accepts(lib, w, p) <==> "dup-ack" in p.issues)
    ensures Lower(w) == "gap" ==> Compile(lib, w).Ok? && (Accepts(lib, w, p) <==> "gap" in p.issues)
    ensures Lower(w) == "problem" ==> Compile(lib, w).Ok? && (Accepts(lib, w, p) <==> p.issues != {})
  {
    if IsProblem(Lower(w)) {
      assert |w| <= MAX_LENGTH;
      hide Compile, Accepts;
      ProblemText(lib, w);
    }
  }

  // ----- hardware addresses, lengths and names -------------------------------------------

  /** `ether`: the hardware address at the named end, or at either, is the one that is written, in lower case. */
  lemma EtherMeans(lib: Lib, e: string, d: Tokens, k: string, m: string, p: Packet)
    requires Lower(e) == "ether" && IsSide(d) && Lower(k) == "host" && IsWord(m)
    requires |Text([e] + (d + [k, m]))| <= MAX_LENGTH
    ensures var text := Text([e] + (d + [k, m]));
      && (!IsMac(Lower(m)) ==> Compile(lib, text) == Err(NotAMac))
      && (IsMac(Lower(m)) ==>
            && Compile(lib, text).Ok?
            && (d == [] ==> (Accepts(lib, text, p) <==> p.srcMac == Some(Lower(m)) || p.dstMac == Some(Lower(m))))
            && (d != [] && Lower(d[0]) == "src" ==> (Accepts(lib, text, p) <==> p.srcMac == Some(Lower(m))))
            && (d != [] && Lower(d[0]) == "dst" ==> (Accepts(lib, text, p) <==> p.dstMac == Some(Lower(m)))))
  {
    hide ReadTest, Compile, KindOf, Lower, IsWord, IsMac;
    var words := [e] + (d + [k, m]);
    ReadsEther(lib, e, d, k, m);
    SidedFits(d, k, m);
    OtherWords(e);
    if IsMac(Lower(m)) {
      CompiledTest(lib, words, Ether(SideOf(d), Lower(m)));
    } else {
      RefusedTest(lib, words);
    }
  }

  lemma ReadsEther(lib: Lib, e: string, d: Tokens, k: string, m: string)
    requires Lower(e) == "ether" && IsSide(d) && Lower(k) == "host"
    ensures ReadTest(lib, [e] + (d + [k, m])) ==
      if IsMac(Lower(m)) then Ok((Ether(SideOf(d), Lower(m)), 3 + |d|)) else Err(NotAMac)
  {
    var ts := [e] + (d + [k, m]);
    OtherWords(e);
    SidedWordKinds(Lower(k));
    assert d != [] ==> ts[1] == d[0] && ts[2] == k && ts[3] == m;
    assert d == [] ==> ts[1] == k && ts[2] == m;
    hide IsUnsupported, IsIssue, IsProtocol, IsQualified, Lower, IsMac, KindOf;
  }

  predicate IsOther(w: string) {
    w == "ether" || w == "len" || w == "less" || w == "greater" || w == "sni" || w == "name"
  }

  lemma OtherWords(w: string)
    requires IsOther(Lower(w))
    ensures !IsUnsupported(Lower(w)) && !IsIssue(Lower(w)) && Lower(w) != "problem" && !IsProtocol(Lower(w))
    ensures IsWord(w) && KindOf(w).Word? && w != OPEN
  {
    hide Lower, IsWord;
    OtherKinds(Lower(w));
    OtherIsNoProtocol(Lower(w));
    OtherIsWord(Lower(w));
    OtherIsTest(Lower(w));
    LowerWord(w);
    KindOfParentheses();
  }

  lemma OtherKinds(w: string)
    requires IsOther(w)
    ensures !IsUnsupported(w) && !IsIssue(w) && w != "problem"
  {
  }

  lemma OtherIsNoProtocol(w: string)
    requires IsOther(w)
    ensures !IsProtocol(w)
  {
  }

  lemma OtherIsWord(w: string)
    requires IsOther(w)
    ensures IsWord(w)
  {
  }

  lemma OtherIsTest(w: string)
    requires IsOther(w)
    ensures w != "or" && w != "||" && w != "and" && w != "&&" && w != "not" && w != "!" && w != "(" && w != ")"
    ensures !IsQualified(w)
  {
  }

  lemma LengthText(lib: Lib, words: Tokens, w: string, op: string, n: string)
    requires AllTokens(words) && |Text(words)| <= MAX_LENGTH && IsOther(Lower(w)) && words != [] && words[0] == w
    requires ReadTest(lib, words) ==
      if !IsComparison(op) then Err(NotAComparison)
      else if !IsNumber(n) then Err(NotANumber) else Ok((Length(op, NumberOf(n)), |words|))
    ensures !IsComparison(op) ==> Compile(lib, Text(words)) == Err(NotAComparison)
    ensures IsComparison(op) && !IsNumber(n) ==> Compile(lib, Text(words)) == Err(NotANumber)
    ensures IsComparison(op) && IsNumber(n) ==>
      Compile(lib, Text(words)).Ok? && forall p :: Accepts(lib, Text(words), p) <==> Compares(op, p.len, NumberOf(n))
  {
    hide ReadTest, Compile, KindOf, Lower, IsWord, NumberOf, Compares, IsComparison, AllTokens;
    OtherWords(w);
    if IsComparison(op) && IsNumber(n) {
      CompiledTest(lib, words, Length(op, NumberOf(n)));
    } else {
      RefusedTest(lib, words);
    }
  }

  lemma ReadsLen(lib: Lib, w: string, op: string, n: string)
    requires Lower(w) == "len"
    ensures ReadTest(lib, [w, op, n]) ==
      if !IsComparison(op) then Err(NotAComparison)
      else if !IsNumber(n) then Err(NotANumber) else Ok((Length(op, NumberOf(n)), 3))
  {
    OtherWords(w);
    hide IsUnsupported, IsIssue, IsProtocol, IsQualified, Lower, NumberOf, IsNumber, KindOf;
    assert [w, op, n][0] == w;
  }

  lemma ReadsLess(lib: Lib, w: string, n: string)
    requires Lower(w) == "less" || Lower(w) == "greater"
    ensures ReadTest(lib, [w, n]) ==
      if !IsNumber(n) then Err(NotANumber)
      else Ok((Length(if Lower(w) == "less" then "<=" else ">=", NumberOf(n)), 2))
  {
    OtherWords(w);
    hide IsUnsupported, IsIssue, IsProtocol, IsQualified, Lower, NumberOf, IsNumber, KindOf;
    assert [w, n][0] == w;
  }

  /** `len`: the length of the packet compares to the number as the sign says. */
  lemma LengthMeans(lib: Lib, w: string, op: string, n: string, p: Packet)
    requires Lower(w) == "len" && IsToken(op) && IsWord(n) && |Text([w, op, n])| <= MAX_LENGTH
    ensures var text := Text([w, op, n]);
      && (op !in {"<", "<=", ">", ">=", "=", "=="} ==> Compile(lib, text) == Err(NotAComparison))
      && (op in {"<", "<=", ">", ">=", "=", "=="} && !IsNumber(n) ==> Compile(lib, text) == Err(NotANumber))
      && (op in {"<", "<=", ">", ">=", "=", "=="} && IsNumber(n) ==>
            && Compile(lib, text).Ok?
            && (op == "<" ==> (Accepts(lib, text, p) <==> p.len < NumberOf(n)))
            && (op == "<=" ==> (Accepts(lib, text, p) <==> p.len <= NumberOf(n)))
            && (op == ">" ==> (Accepts(lib, text, p) <==> p.len > NumberOf(n)))
            && (op == ">=" ==> (Accepts(lib, text, p) <==> p.len >= NumberOf(n)))
            && (op == "=" || op == "==" ==> (Accepts(lib, text, p) <==> p.len == NumberOf(n))))
  {
    hide ReadTest, Compile, Accepts, Lower, IsNumber, NumberOf, IsWord;
    OtherWords(w);
    ReadsLen(lib, w, op, n);
    LengthText(lib, [w, op, n], w, op, n);
  }

  /** `less` and `greater`: the length is at most, or at least, the number. */
  lemma LessMeans(lib: Lib, w: string, n: string, p: Packet)
    requires (Lower(w) == "less" || Lower(w) == "greater") && IsWord(n) && |Text([w, n])| <= MAX_LENGTH
    ensures !IsNumber(n) ==> Compile(lib, Text([w, n])) == Err(NotANumber)
    ensures IsNumber(n) ==>
      && Compile(lib, Text([w, n])).Ok?
      && (Lower(w) == "less" ==> (Accepts(lib, Text([w, n]), p) <==> p.len <= NumberOf(n)))
      && (Lower(w) == "greater" ==> (Accepts(lib, Text([w, n]), p) <==> p.len >= NumberOf(n)))
  {
    hide ReadTest, Compile, Accepts, Lower, IsNumber, NumberOf, IsWord;
    OtherWords(w);
    ReadsLess(lib, w, n);
    LengthText(lib, [w, n], w, if Lower(w) == "less" then "<=" else ">=", n);
  }

  /**
   `sni` and `name`: the server name, or for `name` that or the name of the packet, in lower case matches the pattern; a
   pattern that starts with a star and a dot also means the domain itself.
   */
  lemma NamedMeans(lib: Lib, w: string, pattern: string, p: Packet)
    requires (Lower(w) == "sni" || Lower(w) == "name") && IsWord(pattern) && |Text([w, pattern])| <= MAX_LENGTH
    ensures var legal := |pattern| <= 253 && forall c <- Lower(pattern) :: IsNameChar(c);
      && (!legal ==> Compile(lib, Text([w, pattern])) == Err(NotAName))
      && (legal ==> Compile(lib, Text([w, pattern])).Ok?)
    ensures Compile(lib, Text([w, pattern])).Ok? ==>
      var (wanted, sni, name) := (Lower(pattern), Lower(p.sni), Lower(p.name));
      var inSni := sni != "" && (lib.glob(sni, wanted) || "*." + sni == wanted);
      var inName := name != "" && (lib.glob(name, wanted) || "*." + name == wanted);
      && (Lower(w) == "sni" ==> (Accepts(lib, Text([w, pattern]), p) <==> inSni))
      && (Lower(w) == "name" ==> (Accepts(lib, Text([w, pattern]), p) <==> inSni || inName))
  {
    hide Compile, Accepts, Lower, IsName, IsWord, IsNameChar, NameMatches;
    assert pattern != "" by { WordIsSome(pattern); }
    NameLetters(pattern);
    NamedText(lib, w, pattern);
    MatchesMeans(lib, p.sni, Lower(pattern));
    MatchesMeans(lib, p.name, Lower(pattern));
  }

  lemma WordIsSome(w: string)
    requires IsWord(w)
    ensures w != ""
  {
  }

  lemma NamedText(lib: Lib, w: string, pattern: string)
    requires (Lower(w) == "sni" || Lower(w) == "name") && IsWord(pattern) && |Text([w, pattern])| <= MAX_LENGTH
    ensures !IsName(Lower(pattern)) ==> Compile(lib, Text([w, pattern])) == Err(NotAName)
    ensures IsName(Lower(pattern)) ==>
      && Compile(lib, Text([w, pattern])).Ok?
      && forall p :: Accepts(lib, Text([w, pattern]), p) <==>
           NameMatches(lib, p.sni, Lower(pattern)) || (Lower(w) == "name" && NameMatches(lib, p.name, Lower(pattern)))
  {
    hide ReadTest, Compile, Lower, IsName, IsWord, KindOf, NameMatches;
    OtherWords(w);
    ReadsNamed(lib, w, pattern);
    if IsName(Lower(pattern)) {
      CompiledTest(lib, [w, pattern], Named(Lower(w) == "sni", Lower(pattern)));
    } else {
      RefusedTest(lib, [w, pattern]);
    }
  }

  predicate IsNameChar(c: char) {
    '0' <= c <= '9' || 'a' <= c <= 'z' || c in "*._-"
  }

  lemma NameLetters(pattern: string)
    requires pattern != ""
    ensures IsName(Lower(pattern)) <==> |pattern| <= 253 && forall c <- Lower(pattern) :: IsNameChar(c)
  {
    hide Lower;
    var s := Lower(pattern);
    if forall c <- s :: IsNameChar(c) {
      forall i | 0 <= i < |s| ensures IsNameChar(s[i]) { assert s[i] in s; }
    }
  }

  lemma MatchesMeans(lib: Lib, name: string, pattern: string)
    ensures NameMatches(lib, name, pattern) <==>
      Lower(name) != "" && (lib.glob(Lower(name), pattern) || "*." + Lower(name) == pattern)
  {
    var lower := Lower(name);
    hide Lower;
    if |pattern| >= 2 && pattern[..2] == "*." {
      assert pattern == "*." + pattern[2..];
    }
    assert ("*." + lower)[..2] == "*." && ("*." + lower)[2..] == lower;
  }

  lemma ReadsNamed(lib: Lib, w: string, pattern: string)
    requires Lower(w) == "sni" || Lower(w) == "name"
    ensures ReadTest(lib, [w, pattern]) ==
      if IsName(Lower(pattern)) then Ok((Named(Lower(w) == "sni", Lower(pattern)), 2)) else Err(NotAName)
  {
    OtherWords(w);
    hide IsUnsupported, IsIssue, IsProtocol, IsQualified, Lower, IsName, KindOf;
    assert [w, pattern][0] == w;
  }

  // ----- words that join tests -----------------------------------------------------------

  lemma {:induction false} TextOfSum(u: Tokens, v: Tokens)
    requires u != [] && v != []
    ensures Text(u + v) == Text(u) + " " + Text(v)
    decreases |u|
  {
    assert (u + v)[1..] == u[1..] + v;
    if |u| > 1 {
      TextOfSum(u[1..], v);
      assert u[0] + " " + (Text(u[1..]) + " " + Text(v)) == (u[0] + " " + Text(u[1..])) + " " + Text(v);
    } else {
      assert u[1..] + v == v;
    }
  }

  lemma JoiningKinds(c: string)
    ensures Lower(c) == "and" || Lower(c) == "&&" ==> KindOf(c).AndWord?
    ensures Lower(c) == "or" || Lower(c) == "||" ==> KindOf(c).OrWord?
    ensures Lower(c) == "not" || Lower(c) == "!" ==> KindOf(c).NotWord?
  {
    hide Lower;
  }

  function LeafOf(lib: Lib, words: Tokens): UnaryTree
    requires IsTest(lib, words)
  {
    Leaf(words, ReadTest(lib, words).value.0)
  }

  /** Two tests with `and` or `&&` between them ask for both, with `or` or `||` for one of them. */
  lemma ConnectiveMeans(lib: Lib, u: Tokens, c: string, v: Tokens, p: Packet)
    requires IsTest(lib, u) && IsTest(lib, v) && IsToken(c) && |Text(u + ([c] + v))| <= MAX_LENGTH
    ensures Lower(c) == "and" || Lower(c) == "&&" ==>
      && Compile(lib, Text(u + ([c] + v))).Ok?
      && (Accepts(lib, Text(u + ([c] + v)), p) <==> Accepts(lib, Text(u), p) && Accepts(lib, Text(v), p))
    ensures Lower(c) == "or" || Lower(c) == "||" ==>
      && Compile(lib, Text(u + ([c] + v))).Ok?
      && (Accepts(lib, Text(u + ([c] + v)), p) <==> Accepts(lib, Text(u), p) || Accepts(lib, Text(v), p))
  {
    hide ReadTest, Compile, KindOf, Lower, IsToken, Holds;
    ReadTestTakes(lib, u);
    ReadTestTakes(lib, v);
    TextOfSum([c], v);
    TextOfSum(u, [c] + v);
    CompiledTest(lib, u, ReadTest(lib, u).value.0);
    CompiledTest(lib, v, ReadTest(lib, v).value.0);
    JoiningKinds(c);
    var (x, y) := (LeafOf(lib, u), LeafOf(lib, v));
    if KindOf(c).AndWord? {
      CompiledBoth(lib, x, c, y, p);
    } else if KindOf(c).OrWord? {
      CompiledAny(lib, x, c, y, p);
    }
  }

  /** A tree that stands alone: each level says what the one below says. */
  lemma Alone(lib: Lib, u: UnaryTree, p: Packet)
    ensures var (read, a) := (TestReader(lib), AndLast(u));
      && (GoodAnd(read, a) <==> GoodUnary(read, u)) && (GoodOr(read, OrLast(a)) <==> GoodAnd(read, a))
      && YieldOr(OrLast(a)) == YieldAnd(a) == YieldUnary(u)
      && NestOr(OrLast(a)) == NestAnd(a) == NestUnary(u)
      && (EvalAnd(lib, a, p) <==> EvalUnary(lib, u, p)) && (EvalOr(lib, OrLast(a), p) <==> EvalAnd(lib, a, p))
  {
  }

  lemma AloneAnd(lib: Lib, a: AndTree, p: Packet)
    ensures var e := OrLast(a);
      && (GoodOr(TestReader(lib), e) <==> GoodAnd(TestReader(lib), a))
      && YieldOr(e) == YieldAnd(a) && NestOr(e) == NestAnd(a) && (EvalOr(lib, e, p) <==> EvalAnd(lib, a, p))
  {
  }

  lemma Negated(lib: Lib, c: string, u: UnaryTree, p: Packet)
    ensures var n := Not(c, u);
      && (GoodUnary(TestReader(lib), n) <==> KindOf(c).NotWord? && GoodUnary(TestReader(lib), u))
      && YieldUnary(n) == [c] + YieldUnary(u) && NestUnary(n) == 1 + NestUnary(u)
      && (EvalUnary(lib, n, p) <==> !EvalUnary(lib, u, p))
  {
  }

  lemma CompiledBoth(lib: Lib, x: UnaryTree, c: string, y: UnaryTree, p: Packet)
    requires x.Leaf? && y.Leaf? && GoodUnary(TestReader(lib), x) && GoodUnary(TestReader(lib), y) && KindOf(c).AndWord?
    requires AllTokens(x.words) && AllTokens(y.words) && IsToken(c) && |Text(x.words + ([c] + y.words))| <= MAX_LENGTH
    ensures var text := Text(x.words + ([c] + y.words));
      && Compile(lib, text).Ok?
      && (Accepts(lib, text, p) <==> Holds(lib, x.test, p) && Holds(lib, y.test, p))
  {
    hide ReadTest, KindOf, IsToken, Holds, Lex;
    var a := AndMore(x, c, AndLast(y));
    Alone(lib, y, p);
    AloneAnd(lib, a, p);
    CompileSpaced(lib, OrLast(a));
  }

  lemma CompiledAny(lib: Lib, x: UnaryTree, c: string, y: UnaryTree, p: Packet)
    requires x.Leaf? && y.Leaf? && GoodUnary(TestReader(lib), x) && GoodUnary(TestReader(lib), y) && KindOf(c).OrWord?
    requires AllTokens(x.words) && AllTokens(y.words) && IsToken(c) && |Text(x.words + ([c] + y.words))| <= MAX_LENGTH
    ensures var text := Text(x.words + ([c] + y.words));
      && Compile(lib, text).Ok?
      && (Accepts(lib, text, p) <==> Holds(lib, x.test, p) || Holds(lib, y.test, p))
  {
    hide ReadTest, KindOf, IsToken, Holds, Lex;
    var (a, b) := (AndLast(x), OrLast(AndLast(y)));
    var e := OrMore(a, c, b);
    Alone(lib, x, p);
    Alone(lib, y, p);
    CompileSpaced(lib, e);
  }

  /** A test after `not` or `!` is turned round. */
  lemma NegationMeans(lib: Lib, c: string, u: Tokens, p: Packet)
    requires IsTest(lib, u) && IsToken(c) && (Lower(c) == "not" || Lower(c) == "!") && |Text([c] + u)| <= MAX_LENGTH
    ensures Compile(lib, Text([c] + u)).Ok? && (Accepts(lib, Text([c] + u), p) <==> !Accepts(lib, Text(u), p))
  {
    hide ReadTest, KindOf, Lower, IsToken, Holds, Lex;
    ReadTestTakes(lib, u);
    TextOfSum([c], u);
    CompiledTest(lib, u, ReadTest(lib, u).value.0);
    JoiningKinds(c);
    var x := LeafOf(lib, u);
    var n := Not(c, x);
    Negated(lib, c, x, p);
    Alone(lib, n, p);
    CompileSpaced(lib, OrLast(AndLast(n)));
  }

  // ----- texts that are refused ----------------------------------------------------------

  /** What the language leaves out on purpose is refused as such, wherever the text goes from there. */
  lemma UnsupportedIsRefused(lib: Lib, words: Tokens)
    requires Fits(words)
    requires Lower(words[0]) in {"vlan", "proto", "gateway", "broadcast", "multicast"} || '[' in words[0]
    ensures Compile(lib, Text(words)) == Err(Unsupported)
  {
    hide Compile;
    if '[' in words[0] {
      var i :| 0 <= i < |words[0]| && words[0][i] == '[';
      assert Lower(words[0])[i] == '[';
    }
    UnsupportedKinds(Lower(words[0]));
    assert ReadTest(lib, words) == Err(Unsupported);
    UnsupportedIsTest(words[0]);
    RefusedTest(lib, words);
  }

  lemma UnsupportedKinds(w: string)
    requires w in {"vlan", "proto", "gateway", "broadcast", "multicast"} || '[' in w
    ensures IsUnsupported(w) && w != "not" && w != "!" && w != "("
  {
    if '[' in w {
      assert '[' !in "not" && '[' !in "!" && '[' !in "(";
    } else {
      assert |w| == 4 || |w| == 5 || |w| == 7 || |w| == 9;
      assert |"not"| == 3 && |"!"| == 1 && |"("| == 1;
    }
  }

  lemma UnsupportedIsTest(w: string)
    requires Lower(w) != "not" && Lower(w) != "!" && Lower(w) != "("
    ensures !KindOf(w).NotWord? && w != OPEN
  {
    hide Lower;
    KindOfParentheses();
    LowerOfLower(OPEN);
  }

  /** A word that is accepted as a filter of its own names a protocol or a problem; every other word alone is refused. */
  lemma OneWordFilters(lib: Lib, w: string)
    requires IsWord(w) && |w| <= MAX_LENGTH
    ensures Compile(lib, w).Ok? <==> IsProtocol(Lower(w)) || IsProblem(Lower(w))
  {
    hide Compile, Lower, IsProtocol, IsProblem, IsWord, KindOf, ReadTest;
    assert Text([w]) == w;
    if IsProtocol(Lower(w)) {
      ProtocolText(lib, w);
    } else if IsProblem(Lower(w)) {
      ProblemText(lib, w);
    } else if KindOf(w).NotWord? {
      NotAlone(lib, w);
    } else {
      OtherWordAlone(lib, w);
      WordIsNoParenthesis(w);
      RefusedTest(lib, [w]);
    }
  }

  lemma WordIsNoParenthesis(w: string)
    requires IsWord(w)
    ensures w != OPEN
  {
    assert IsWordChar(w[0]) && !IsWordChar(OPEN[0]);
  }

  lemma OtherWordAlone(lib: Lib, w: string)
    requires !IsProtocol(Lower(w)) && !IsProblem(Lower(w))
    ensures ReadTest(lib, [w]).Err?
  {
    hide Lower, IsUnsupported, IsProtocol, IsQualified;
    assert [w][0] == w;
  }

  lemma NotAlone(lib: Lib, w: string)
    requires IsWord(w) && KindOf(w).NotWord? && |w| <= MAX_LENGTH
    ensures Compile(lib, w) == Err(EndsTooSoon)
  {
    hide KindOf, Lex;
    var read := TestReader(lib);
    TestsAreLocal(lib);
    assert JoinWith(" ", [w]) == w;
    LexOfSpaced([w]);
    assert Trimmed(w);
    StripOfTrimmed(w);
    assert [w] == [w] + [] && read([]) == Err(EndsTooSoon);
    NotStep(read, w, [], 0);
    ErrorSteps(read, [w], 0);
  }
}
