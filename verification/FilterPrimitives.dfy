/** The single tests a capture filter is made of (`capture_filter.py`). */
module FilterPrimitives {
  import opened MacAddress
  import opened Wrappers
  import opened FilterLexer

  // ----- packets and library calls ---------------------------------------------

  /** The fields of a decoded packet that a filter can look at; `None` and "" where the key is missing. */
  datatype Packet = Packet(
    src: Option<string>, dst: Option<string>, sport: Option<nat>, dport: Option<nat>,
    srcMac: Option<string>, dstMac: Option<string>,
    proto: string, app: string, ip: nat, len: nat, sni: string, name: string, issues: set<string>)

  /** What the parser asks of `ipaddress` and `fnmatch`. */
  datatype Lib = Lib(
    address: string -> Option<string>,      // the canonical text of an address
    isNetwork: string -> bool,
    inNetwork: (string, string) -> bool,    // network text, address text
    glob: (string, string) -> bool)         // name, pattern

  // ----- words ---------------------------------------------------------------

  function LowerChar(c: char): char {
    if 'A' <= c <= 'Z' then (c as int + 32) as char else c
  }

  function Lower(s: string): (r: string)
    ensures |r| == |s|
    ensures forall i :: 0 <= i < |s| ==> r[i] == LowerChar(s[i])
  {
    seq(|s|, i requires 0 <= i < |s| => LowerChar(s[i]))
  }

  predicate IsLower(s: string) {
    forall i :: 0 <= i < |s| ==> !('A' <= s[i] <= 'Z')
  }

  lemma LowerOfLower(s: string)
    requires IsLower(s)
    ensures Lower(s) == s
  {
  }

  predicate IsUnsupported(w: string) {
    w == "vlan" || w == "proto" || w == "gateway" || w == "broadcast" || w == "multicast" || '[' in w
  }

  predicate IsIssue(w: string) {
    w == "retransmit" || w == "reset" || w == "zerowindow" || w == "dupack" || w == "gap"
  }

  function IssueLabel(w: string): string {
    if w == "zerowindow" then "zero-window" else if w == "dupack" then "dup-ack" else w
  }

  predicate IsAppProtocol(w: string) {
    w == "dns" || w == "tls" || w == "http" || w == "dhcp" || w == "ntp"
  }

  predicate IsProtocol(w: string) {
    IsAppProtocol(w) || w == "tcp" || w == "udp" || w == "icmp" || w == "icmp6" || w == "arp" || w == "ip" || w == "ip6"
  }

  predicate IsDirection(w: string) { w == "src" || w == "dst" }

  /** A word that makes a protocol before it a qualifier instead of a test of its own. */
  predicate IsQualified(w: string) {
    IsDirection(w) || w == "host" || w == "net" || w == "port" || w == "portrange"
  }

  predicate IsComparison(w: string) {
    w == "<" || w == "<=" || w == ">" || w == ">=" || w == "=" || w == "=="
  }

  // ----- numbers ---------------------------------------------------------------

  predicate IsDigit(c: char) { '0' <= c <= '9' }

  predicate IsNumber(s: string) {
    s != [] && forall i :: 0 <= i < |s| ==> IsDigit(s[i])
  }

  function NumberOf(s: string): nat
    requires forall i :: 0 <= i < |s| ==> IsDigit(s[i])
  {
    if s == [] then 0
    else
      var last := s[|s| - 1];
      assert IsDigit(last);
      10 * NumberOf(s[..|s| - 1]) + (last as int - '0' as int)
  }

  function Digits(n: nat): (s: string)
    ensures IsNumber(s) && NumberOf(s) == n
  {
    var last := [('0' as int + n % 10) as char];
    if n < 10 then last
    else
      var s := Digits(n / 10) + last;
      assert s[..|s| - 1] == Digits(n / 10);
      s
  }

  function Port(s: string): Result<nat, FilterError> {
    if IsNumber(s) && 0 < NumberOf(s) <= 65535 then Ok(NumberOf(s)) else Err(NotAPort)
  }

  /** `spec.partition("-")`: the position of the first dash, `|s|` when there is none. */
  function Dash(s: string): (n: nat)
    ensures n <= |s|
    ensures n < |s| ==> s[n] == '-'
    ensures forall i :: 0 <= i < n ==> s[i] != '-'
  {
    if s == [] || s[0] == '-' then 0 else 1 + Dash(s[1..])
  }

  function PortRange(s: string): Result<(nat, nat), FilterError> {
    if Dash(s) == |s| then Err(NotARange)
    else
      var low :- Port(s[..Dash(s)]);
      var high :- Port(s[Dash(s) + 1..]);
      if low > high then Err(Backwards) else Ok((low, high))
  }

  predicate IsName(s: string) {
    1 <= |s| <= 253 &&
    forall i :: 0 <= i < |s| ==>
      IsDigit(s[i]) || 'a' <= s[i] <= 'z' || s[i] == '*' || s[i] == '.' || s[i] == '_' || s[i] == '-'
  }

  // ----- tests and what they mean -------------------------------------------------

  datatype Direction = Either | Src | Dst

  datatype Test =
    | Issue(word: string)
    | Problem
    | Protocol(name: string)
    | Host(qualifier: Option<string>, side: Direction, address: string)
    | Net(qualifier: Option<string>, side: Direction, network: string)
    | Ports(qualifier: Option<string>, side: Direction, low: nat, high: nat)
    | Ether(side: Direction, mac: string)
    | Length(op: string, n: nat)
    | Named(sniOnly: bool, pattern: string)

  predicate OnSide<T>(side: Direction, a: Option<T>, b: Option<T>, test: T -> bool) {
    match side
    case Src => a.Some? && test(a.value)
    case Dst => b.Some? && test(b.value)
    case Either => (a.Some? && test(a.value)) || (b.Some? && test(b.value))
  }

  function Upper(w: string): string {
    seq(|w|, i requires 0 <= i < |w| => if 'a' <= w[i] <= 'z' then (w[i] as int - 32) as char else w[i])
  }

  predicate HasProtocol(w: string, p: Packet) {
    if w == "ip" then p.ip == 4
    else if w == "ip6" then p.ip == 6
    else if w == "icmp6" then p.proto == "ICMPv6"
    else if IsAppProtocol(w) then p.app == w
    else p.proto == Upper(w)
  }

  predicate Qualifies(q: Option<string>, p: Packet) {
    q.Some? ==> HasProtocol(q.value, p)
  }

  predicate Compares(op: string, v: int, n: int) {
    if op == "<" then v < n else if op == "<=" then v <= n
    else if op == ">" then v > n else if op == ">=" then v >= n else v == n
  }

  predicate NameMatches(lib: Lib, name: string, pattern: string) {
    var lower := Lower(name);
    lower != [] && (lib.glob(lower, pattern) || (|pattern| >= 2 && pattern[..2] == "*." && lower == pattern[2..]))
  }

  predicate Holds(lib: Lib, t: Test, p: Packet) {
    match t
    case Issue(w) => IssueLabel(w) in p.issues
    case Problem => p.issues != {}
    case Protocol(w) => HasProtocol(w, p)
    case Host(q, side, address) => Qualifies(q, p) && OnSide(side, p.src, p.dst, v => v == address)
    case Net(q, side, network) => Qualifies(q, p) && OnSide(side, p.src, p.dst, v => lib.inNetwork(network, v))
    case Ports(q, side, low, high) =>
      Qualifies(q, p) && (p.proto == "TCP" || p.proto == "UDP") && OnSide(side, p.sport, p.dport, v => low <= v <= high)
    case Ether(side, mac) => OnSide(side, p.srcMac, p.dstMac, v => v == mac)
    case Length(op, n) => Compares(op, p.len, n)
    case Named(sniOnly, pattern) =>
      NameMatches(lib, p.sni, pattern) || (!sniOnly && NameMatches(lib, p.name, pattern))
  }

  // ----- how the parser reads a test -----------------------------------------------

  /** A test, and how many tokens it took. */
  type Read = Result<(Test, nat), FilterError>

  function DirectionOf(w: string): Direction {
    if w == "src" then Src else if w == "dst" then Dst else Either
  }

  /** `host`, `net`, `port` or `portrange` at `ts[i]`. */
  function ReadSided(lib: Lib, q: Option<string>, side: Direction, ts: Tokens, i: nat): Read
    requires i < |ts|
  {
    var w := Lower(ts[i]);
    if w == "host" || w == "net" || w == "port" || w == "portrange" then
      if (w == "port" || w == "portrange") && (q == Some("icmp") || q == Some("icmp6") || q == Some("arp")) then Err(NoPorts)
      else if i + 1 >= |ts| then Err(EndsTooSoon)
      else
        var spec := ts[i + 1];
        if w == "host" then
          match lib.address(spec)
          case Some(address) => Ok((Host(q, side, address), i + 2))
          case None => Err(NotAnAddress)
        else if w == "net" then
          if lib.isNetwork(spec) then Ok((Net(q, side, spec), i + 2)) else Err(NotANetwork)
        else if w == "port" then
          var port :- Port(spec);
          Ok((Ports(q, side, port, port), i + 2))
        else
          var range :- PortRange(spec);
          Ok((Ports(q, side, range.0, range.1), i + 2))
    else Err(Unknown)
  }

  function ReadDirected(lib: Lib, q: Option<string>, ts: Tokens, i: nat): Read
    requires i < |ts|
  {
    if IsDirection(Lower(ts[i])) then
      if i + 1 >= |ts| then Err(EndsTooSoon) else ReadSided(lib, q, DirectionOf(Lower(ts[i])), ts, i + 1)
    else ReadSided(lib, q, Either, ts, i)
  }

  function ReadEther(ts: Tokens, i: nat): Read
    requires i <= |ts|
  {
    var directed := i < |ts| && IsDirection(Lower(ts[i]));
    var side := if directed then DirectionOf(Lower(ts[i])) else Either;
    var j := if directed then i + 1 else i;
    if j >= |ts| then Err(EndsTooSoon)
    else if Lower(ts[j]) != "host" then Err(Expected("host"))
    else if j + 1 >= |ts| then Err(EndsTooSoon)
    else if !IsMac(Lower(ts[j + 1])) then Err(NotAMac)
    else Ok((Ether(side, Lower(ts[j + 1])), j + 2))
  }

  function ReadLength(w: string, ts: Tokens, i: nat): Read
    requires i <= |ts|
  {
    var j := if w == "len" then i + 1 else i;
    if w == "len" && i >= |ts| then Err(EndsTooSoon)
    else
      var op := if w == "len" then ts[i] else if w == "less" then "<=" else ">=";
      if !IsComparison(op) then Err(NotAComparison)
      else if j >= |ts| then Err(EndsTooSoon)
      else if !IsNumber(ts[j]) then Err(NotANumber)
      else Ok((Length(op, NumberOf(ts[j])), j + 1))
  }

  function ReadNamed(w: string, ts: Tokens, i: nat): Read
    requires i <= |ts|
  {
    if i >= |ts| then Err(EndsTooSoon)
    else if !IsName(Lower(ts[i])) then Err(NotAName)
    else Ok((Named(w == "sni", Lower(ts[i])), i + 1))
  }

  /** `_Parser.primitive`. */
  function ReadTest(lib: Lib, ts: Tokens): Read {
    if ts == [] then Err(EndsTooSoon)
    else
      var w := Lower(ts[0]);
      if IsUnsupported(w) then Err(Unsupported)
      else if IsIssue(w) then Ok((Issue(w), 1))
      else if w == "problem" then Ok((Problem, 1))
      else if IsProtocol(w) then
        if |ts| > 1 && IsQualified(Lower(ts[1])) then ReadDirected(lib, Some(w), ts, 1) else Ok((Protocol(w), 1))
      else if w == "ether" then ReadEther(ts, 1)
      else if w == "len" || w == "less" || w == "greater" then ReadLength(w, ts, 1)
      else if w == "sni" || w == "name" then ReadNamed(w, ts, 1)
      else ReadDirected(lib, None, ts, 0)
  }

  // ----- locality ----------------------------------------------------------------

  /** What may follow a test without being taken for a part of it. */
  predicate EndsTest(rest: Tokens) {
    rest == [] || !IsQualified(Lower(rest[0]))
  }

  lemma ReadTestTakes(lib: Lib, ts: Tokens)
    requires ReadTest(lib, ts).Ok?
    ensures 0 < ReadTest(lib, ts).value.1 <= |ts|
  {
    hide IsUnsupported, IsIssue, IsProtocol, IsQualified, Lower;
  }

  predicate Agree(ts: Tokens, us: Tokens, n: nat) {
    n <= |ts| && n <= |us| && forall i :: 0 <= i < n ==> ts[i] == us[i]
  }

  lemma ReadDirectedLocal(lib: Lib, q: Option<string>, ts: Tokens, us: Tokens, i: nat)
    requires i < |ts| && ReadDirected(lib, q, ts, i).Ok?
    requires Agree(ts, us, ReadDirected(lib, q, ts, i).value.1)
    ensures i < |us| && ReadDirected(lib, q, us, i) == ReadDirected(lib, q, ts, i)
  {
    assert i < ReadDirected(lib, q, ts, i).value.1;
    if IsDirection(Lower(ts[i])) {
      ReadSidedLocal(lib, q, DirectionOf(Lower(ts[i])), ts, us, i + 1);
    } else {
      ReadSidedLocal(lib, q, Either, ts, us, i);
    }
  }

  lemma ReadSidedLocal(lib: Lib, q: Option<string>, side: Direction, ts: Tokens, us: Tokens, i: nat)
    requires i < |ts| && ReadSided(lib, q, side, ts, i).Ok?
    requires Agree(ts, us, ReadSided(lib, q, side, ts, i).value.1)
    ensures i < |us| && ReadSided(lib, q, side, us, i) == ReadSided(lib, q, side, ts, i)
  {
    assert ReadSided(lib, q, side, ts, i).value.1 == i + 2;
    assert us[i] == ts[i] && us[i + 1] == ts[i + 1];
  }

  lemma ReadOthersLocal(w: string, ts: Tokens, us: Tokens, i: nat)
    requires i <= |ts| && i <= |us|
    ensures ReadEther(ts, i).Ok? && Agree(ts, us, ReadEther(ts, i).value.1) ==> ReadEther(us, i) == ReadEther(ts, i)
    ensures ReadLength(w, ts, i).Ok? && Agree(ts, us, ReadLength(w, ts, i).value.1)
      ==> ReadLength(w, us, i) == ReadLength(w, ts, i)
    ensures ReadNamed(w, ts, i).Ok? && Agree(ts, us, ReadNamed(w, ts, i).value.1)
      ==> ReadNamed(w, us, i) == ReadNamed(w, ts, i)
  {
  }

  /** Reading a test looks at the tokens it takes, and at one more only to see whether it is a qualified word. */
  lemma ReadTestAgrees(lib: Lib, ts: Tokens, us: Tokens)
    requires ReadTest(lib, ts).Ok?
    requires Agree(ts, us, ReadTest(lib, ts).value.1)
    requires EndsTest(us[ReadTest(lib, ts).value.1..])
    ensures ReadTest(lib, us) == ReadTest(lib, ts)
  {
    ReadTestTakes(lib, ts);
    var n := ReadTest(lib, ts).value.1;
    assert us[0] == ts[0];
    var w := Lower(ts[0]);
    assert n < |us| ==> us[n..][0] == us[n];
    if IsUnsupported(w) || IsIssue(w) || w == "problem" {
    } else if IsProtocol(w) {
      if |ts| > 1 && IsQualified(Lower(ts[1])) {
        ReadDirectedLocal(lib, Some(w), ts, us, 1);
      }
    } else if w == "ether" || w == "len" || w == "less" || w == "greater" || w == "sni" || w == "name" {
      ReadOthersLocal(w, ts, us, 1);
    } else {
      ReadDirectedLocal(lib, None, ts, us, 0);
    }
  }
}
