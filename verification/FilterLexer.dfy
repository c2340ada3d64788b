/** The tokenizer of the capture filter language (`capture_filter.py`). */
module FilterLexer {
  import opened Collections
  import opened Wrappers

  datatype FilterError =
    | Unexpected | Empty | TooLong | TooDeep | EndsTooSoon | NeverClosed
    | Expected(word: string) | Unsupported | Unknown | NotAnAddress | NotANetwork
    | NotAPort | NotARange | Backwards | NoPorts | NotAMac | NotAComparison | NotANumber | NotAName

  type Tokens = seq<string>

  // ----- character classes ------------------------------------------------

  /** `str.isspace` and the regular expression class `\s`, on ASCII. */
  predicate IsSpace(c: char) {
    9 <= c as int <= 13 || 28 <= c as int <= 32
  }

  predicate IsSymbol(c: char) {
    c == '(' || c == ')' || c == '!' || c == '<' || c == '>' || c == '='
  }

  predicate IsWordChar(c: char) {
    !IsSpace(c) && !IsSymbol(c) && c != '&' && c != '|'
  }

  predicate IsWord(t: string) {
    t != [] && forall i :: 0 <= i < |t| ==> IsWordChar(t[i])
  }

  predicate IsPair(t: string) {
    t == "&&" || t == "||" || t == "<=" || t == ">=" || t == "=="
  }

  predicate IsToken(t: string) {
    IsPair(t) || (|t| == 1 && IsSymbol(t[0])) || IsWord(t)
  }

  // ----- specification of the tokenizer --------------------------------------

  function WordLength(s: string): (n: nat)
    ensures n <= |s|
    ensures forall i :: 0 <= i < n ==> IsWordChar(s[i])
    ensures n < |s| ==> !IsWordChar(s[n])
  {
    if s == [] || !IsWordChar(s[0]) then 0 else 1 + WordLength(s[1..])
  }

  /** The length of the match of the token expression at the start of `s`; 0 when there is none. */
  function TokenLength(s: string): (n: nat)
    ensures n <= |s|
    ensures n > 0 ==> IsToken(s[..n])
  {
    if |s| >= 2 && IsPair(s[..2]) then 2
    else if s != [] && IsSymbol(s[0]) then 1
    else WordLength(s)
  }

  function SkipSpaces(s: string): (r: string)
    ensures |r| <= |s|
    ensures r != [] ==> !IsSpace(r[0])
  {
    if s != [] && IsSpace(s[0]) then SkipSpaces(s[1..]) else s
  }

  /** Drops the white space at the end. */
  function SkipSpacesBack(s: string): (r: string)
    ensures |r| <= |s| && r == s[..|r|]
    ensures r != [] ==> !IsSpace(r[|r| - 1])
  {
    if s != [] && IsSpace(s[|s| - 1]) then SkipSpacesBack(s[..|s| - 1]) else s
  }

  function Strip(s: string): (r: string)
    ensures |r| <= |s|
  {
    SkipSpacesBack(SkipSpaces(s))
  }

  /** Text that `Strip` leaves alone. */
  predicate Trimmed(s: string) {
    s != [] && !IsSpace(s[0]) && !IsSpace(s[|s| - 1])
  }

  function Prepend(ts: Tokens, r: Result<Tokens, FilterError>): (all: Result<Tokens, FilterError>)
    ensures ts == [] ==> all == r
    ensures r == Ok([]) ==> all == Ok(ts)
  {
    match r
    case Ok(us) => assert [] + us == us && ts + [] == ts; Ok(ts + us)
    case Err(e) => Err(e)
  }

  function Lex(s: string): Result<Tokens, FilterError>
    decreases |s|
  {
    if s == [] then Ok([])
    else if TokenLength(s) == 0 then Err(Unexpected)
    else Prepend([s[..TokenLength(s)]], Lex(SkipSpaces(s[TokenLength(s)..])))
  }

  lemma PrependTwice(ts: Tokens, us: Tokens, r: Result<Tokens, FilterError>)
    ensures Prepend(ts, Prepend(us, r)) == Prepend(ts + us, r)
  {
    if r.Ok? {
      assert ts + (us + r.value) == ts + us + r.value;
    }
  }

  // ----- the tokenizer loop ----------------------------------------------------

  lemma LexAt(s: string, pos: nat, out: Tokens)
    requires pos < |s| && TokenLength(s[pos..]) > 0
    ensures var n := TokenLength(s[pos..]);
      Prepend(out, Lex(s[pos..])) == Prepend(out + [s[pos..pos + n]], Lex(SkipSpaces(s[pos + n..])))
  {
    var n := TokenLength(s[pos..]);
    var t := s[pos..pos + n];
    assert s[pos..][..n] == t && s[pos..][n..] == s[pos + n..];
    PrependTwice(out, [t], Lex(SkipSpaces(s[pos + n..])));
  }

  /** `_tokens`: the loop over `pos` computes `Lex` of the stripped text. */
  method Tokenize(text: string) returns (r: Result<Tokens, FilterError>)
    ensures r == Lex(Strip(text))
  {
    var s := Strip(text);
    var out: Tokens := [];
    var pos := 0;
    assert s[0..] == s;
    while pos < |s|
      invariant 0 <= pos <= |s|
      invariant Lex(s) == Prepend(out, Lex(s[pos..]))
    {
      var n := TokenLength(s[pos..]);
      if n == 0 {
        return Err(Unexpected);
      }
      LexAt(s, pos, out);
      out, pos := out + [s[pos..pos + n]], pos + n;
      ghost var rest := SkipSpaces(s[pos..]);
      while pos < |s| && IsSpace(s[pos])
        invariant 0 < pos <= |s|
        invariant SkipSpaces(s[pos..]) == rest
      {
        assert s[pos..][1..] == s[pos + 1..];
        pos := pos + 1;
      }
      assert rest == s[pos..];
    }
    assert s[pos..] == [];
    return Ok(out);
  }

  // ----- what the tokens are ---------------------------------------------------

  function NonSpaces(s: string): string {
    if s == [] then [] else (if IsSpace(s[0]) then [] else [s[0]]) + NonSpaces(s[1..])
  }

  function Concat(ts: Tokens): string {
    if ts == [] then [] else ts[0] + Concat(ts[1..])
  }

  lemma {:induction false} NonSpacesOfSkip(s: string)
    ensures NonSpaces(SkipSpaces(s)) == NonSpaces(s)
    decreases |s|
  {
    if s != [] && IsSpace(s[0]) {
      NonSpacesOfSkip(s[1..]);
    }
  }

  lemma {:induction false} NonSpacesOfToken(t: string, rest: string)
    requires forall i :: 0 <= i < |t| ==> !IsSpace(t[i])
    ensures NonSpaces(t + rest) == t + NonSpaces(rest)
    decreases |t|
  {
    if t == [] {
      assert t + rest == rest;
    } else {
      assert (t + rest)[1..] == t[1..] + rest;
      NonSpacesOfToken(t[1..], rest);
      assert t == [t[0]] + t[1..];
    }
  }

  /** No character is lost or invented: the tokens are the text without its white space, cut up. */
  lemma {:induction false} TokensCoverText(s: string)
    requires Lex(s).Ok?
    ensures Concat(Lex(s).value) == NonSpaces(s)
    ensures forall t :: t in Lex(s).value ==> IsToken(t)
    decreases |s|
  {
    if s != [] {
      var n := TokenLength(s);
      var rest := SkipSpaces(s[n..]);
      TokensCoverText(rest);
      assert s == s[..n] + s[n..];
      assert forall i :: 0 <= i < n ==> !IsSpace(s[..n][i]);
      NonSpacesOfToken(s[..n], s[n..]);
      NonSpacesOfSkip(s[n..]);
      var ts := Lex(s).value;
      assert ts[1..] == Lex(rest).value;
    }
  }

  // ----- splitting ----------------------------------------------------------

  /** A text that ends a token begun before it: maximal munch stops here. */
  predicate Breaks(s: string) {
    s == [] || (!IsWordChar(s[0]) && s[0] != '=' && s[0] != '&' && s[0] != '|')
  }

  lemma {:induction false} WordLengthSplit(a: string, b: string)
    requires b == [] || !IsWordChar(b[0])
    ensures WordLength(a + b) == WordLength(a)
    decreases |a|
  {
    if a == [] {
      assert a + b == b;
    } else {
      assert (a + b)[1..] == a[1..] + b;
      WordLengthSplit(a[1..], b);
    }
  }

  lemma {:induction false} TokenLengthSplit(a: string, b: string)
    requires a != [] && Breaks(b)
    ensures TokenLength(a + b) == TokenLength(a)
  {
    WordLengthSplit(a, b);
    var s := a + b;
    if |a| >= 2 {
      assert s[..2] == a[..2];
    } else if |s| >= 2 {
      assert s[..2][1] == b[0];
    }
  }

  lemma {:induction false} SkipSpacesSplit(a: string, b: string)
    ensures SkipSpaces(a + b) == if SkipSpaces(a) == [] then SkipSpaces(b) else SkipSpaces(a) + b
    decreases |a|
  {
    if a == [] {
      assert a + b == b;
    } else if IsSpace(a[0]) {
      assert (a + b)[1..] == a[1..] + b;
      SkipSpacesSplit(a[1..], b);
    }
  }

  /** Lexing a concatenation is concatenating the tokens, when the right text breaks tokens. */
  lemma {:induction false} LexSplit(a: string, b: string)
    requires Lex(a).Ok? && Breaks(b) && (a == [] ==> SkipSpaces(b) == b)
    ensures Lex(a + b) == Prepend(Lex(a).value, Lex(SkipSpaces(b)))
    decreases |a|
  {
    if a == [] {
      assert a + b == b;
    } else {
      TokenLengthSplit(a, b);
      var n := TokenLength(a);
      assert (a + b)[..n] == a[..n] && (a + b)[n..] == a[n..] + b;
      SkipSpacesSplit(a[n..], b);
      var rest := SkipSpaces(a[n..]);
      assert Lex(a) == Prepend([a[..n]], Lex(rest));
      if rest != [] {
        LexSplit(rest, b);
        PrependTwice([a[..n]], Lex(rest).value, Lex(SkipSpaces(b)));
      }
    }
  }

  lemma {:induction false} WordLengthOfWord(t: string)
    requires forall i :: 0 <= i < |t| ==> IsWordChar(t[i])
    ensures WordLength(t) == |t|
    decreases |t|
  {
    if t != [] {
      WordLengthOfWord(t[1..]);
    }
  }

  /** A token on its own lexes to itself. */
  lemma {:induction false} LexToken(t: string)
    requires IsToken(t)
    ensures Lex(t) == Ok([t])
  {
    if IsWord(t) {
      WordLengthOfWord(t);
      if |t| >= 2 { assert t[..2][0] == t[0]; }
    } else {
      assert |t| == 2 ==> t[..2] == t;
    }
    assert TokenLength(t) == |t|;
    assert t[|t|..] == [] && t[..|t|] == t;
    assert Lex(t) == Prepend([t], Lex(SkipSpaces([])));
  }

  /** A token followed by a text that breaks it. */
  lemma {:induction false} LexTokenThen(t: string, s: string)
    requires IsToken(t) && Breaks(s)
    ensures Lex(t + s) == Prepend([t], Lex(SkipSpaces(s)))
  {
    LexToken(t);
    LexSplit(t, s);
  }

  /** A parenthesis never runs into what follows it. */
  lemma {:induction false} LexParenthesis(p: char, s: string)
    requires p == '(' || p == ')'
    ensures Lex([p] + s) == Prepend([[p]], Lex(SkipSpaces(s)))
  {
    var t := [p] + s;
    assert |t| >= 2 ==> t[..2][0] == p;
    assert t[..1] == [p] && t[1..] == s;
  }

  // ----- texts built from tokens ----------------------------------------------

  lemma LexNothing()
    ensures Lex([]) == Ok([])
  {
  }

  lemma LexSpaceBetween(t: string, s: string)
    requires IsToken(t) && SkipSpaces(s) == s
    ensures Lex(t + " " + s) == Prepend([t], Lex(s))
    ensures SkipSpaces(t + " " + s) == t + " " + s
  {
    var after := " " + s;
    assert t + " " + s == t + after;
    assert after[1..] == s;
    LexTokenThen(t, after);
    assert !IsSpace((t + after)[0]) by { assert (t + after)[0] == t[0]; }
  }

  lemma TokenIsTrimmed(t: string)
    requires IsToken(t)
    ensures Trimmed(t) && SkipSpaces(t) == t
  {
  }

  /** Tokens written one space apart are read back as the same tokens. */
  lemma {:induction false} LexOfSpaced(ts: Tokens)
    requires forall t :: t in ts ==> IsToken(t)
    ensures Lex(JoinWith(" ", ts)) == Ok(ts)
    ensures SkipSpaces(JoinWith(" ", ts)) == JoinWith(" ", ts)
    decreases |ts|
  {
    hide Lex, TokenLength, IsToken;
    if ts == [] {
      LexNothing();
    } else if |ts| == 1 {
      LexToken(ts[0]);
      assert ts == [ts[0]];
      TokenIsTrimmed(ts[0]);
    } else {
      var rest := JoinWith(" ", ts[1..]);
      LexOfSpaced(ts[1..]);
      LexSpaceBetween(ts[0], rest);
      assert ts == [ts[0]] + ts[1..];
    }
  }

  lemma {:induction s} SkipKeepsLast(s: string)
    ensures |SkipSpaces(s)| == |s| ==> SkipSpaces(s) == s
    ensures SkipSpaces(s) != [] ==> SkipSpaces(s)[|SkipSpaces(s)| - 1] == s[|s| - 1]
  {
  }

  lemma StripOfTrimmed(s: string)
    ensures Trimmed(s) ==> Strip(s) == s && SkipSpaces(s) == s
    ensures Strip(s) == s && s != [] ==> Trimmed(s)
  {
    SkipKeepsLast(s);
  }

  lemma {:induction false} JoinTrimmed(separator: string, parts: seq<string>)
    requires parts != [] && forall t :: t in parts ==> Trimmed(t)
    ensures Trimmed(JoinWith(separator, parts))
    decreases |parts|
  {
    assert Trimmed(parts[0]);
    if |parts| > 1 {
      var rest := JoinWith(separator, parts[1..]);
      JoinTrimmed(separator, parts[1..]);
      assert (parts[0] + separator + rest)[|parts[0]| + |separator| + |rest| - 1] == rest[|rest| - 1];
    }
  }
}
