/** Hardware addresses as text, in lower case. */
module MacAddress {
  import opened Collections

  predicate IsHex(c: char) { '0' <= c <= '9' || 'a' <= c <= 'f' }

  predicate IsMac(s: string) {
    |s| == 17 && forall i :: 0 <= i < 17 ==> if i % 3 == 2 then s[i] == ':' else IsHex(s[i])
  }

  // ----- six pairs ------------------------------------------------------------------------

  const HEX := "0123456789abcdef"

  predicate IsPairOfHex(pair: string) {
    |pair| == 2 && pair[0] in HEX && pair[1] in HEX
  }

  lemma {:induction false} PairsAt(pairs: seq<string>)
    requires pairs != [] && forall pair <- pairs :: |pair| == 2
    ensures var joined := JoinWith(":", pairs);
      && |joined| == 3 * |pairs| - 1
      && forall j :: 0 <= j < |joined| ==> joined[j] == if j % 3 == 2 then ':' else pairs[j / 3][j % 3]
    decreases |pairs|
  {
    assert |pairs[0]| == 2;
    if |pairs| > 1 {
      PairsAt(pairs[1..]);
      var (joined, rest) := (JoinWith(":", pairs), JoinWith(":", pairs[1..]));
      assert joined == pairs[0] + ":" + rest;
      forall j | 0 <= j < |joined| ensures joined[j] == if j % 3 == 2 then ':' else pairs[j / 3][j % 3] {
        if j >= 3 {
          assert joined[j] == rest[j - 3] && (j - 3) / 3 == j / 3 - 1;
        }
      }
    }
  }

  lemma HexDigits(c: char)
    ensures c in HEX <==> IsHex(c)
  {
  }

  lemma PairAt(m: string, i: nat)
    requires IsMac(m) && i < 6
    ensures IsPairOfHex([m[3 * i], m[3 * i + 1]])
  {
    hide IsHex;
    HexDigits(m[3 * i]);
    HexDigits(m[3 * i + 1]);
    assert (3 * i) % 3 == 0 && (3 * i + 1) % 3 == 1;
  }

  lemma PairsOf(m: string) returns (pairs: seq<string>)
    requires IsMac(m)
    ensures |pairs| == 6 && (forall pair <- pairs :: IsPairOfHex(pair)) && m == JoinWith(":", pairs)
  {
    hide IsHex, IsPairOfHex, JoinWith;
    pairs := seq(6, i requires 0 <= i < 6 => [m[3 * i], m[3 * i + 1]]);
    forall i | 0 <= i < 6 ensures IsPairOfHex(pairs[i]) { PairAt(m, i); }
    PairsAt(pairs);
    var joined := JoinWith(":", pairs);
    forall j | 0 <= j < 17 ensures m[j] == joined[j] {
      assert j == 3 * (j / 3) + j % 3;
    }
  }

  lemma PairsAreMac(pairs: seq<string>)
    requires |pairs| == 6 && forall pair <- pairs :: IsPairOfHex(pair)
    ensures IsMac(JoinWith(":", pairs))
  {
    hide IsHex, JoinWith;
    PairsAt(pairs);
    var m := JoinWith(":", pairs);
    hide IsPairOfHex;
    forall j | 0 <= j < 17 && j % 3 != 2 ensures IsHex(m[j]) {
      DigitOfPair(pairs[j / 3], j % 3);
    }
  }

  lemma DigitOfPair(pair: string, i: nat)
    requires IsPairOfHex(pair) && i < 2
    ensures IsHex(pair[i])
  {
    HexDigits(pair[0]);
    HexDigits(pair[1]);
  }

  /** A hardware address is six pairs of hexadecimal digits with colons between them. */
  lemma MacIsSixPairs(m: string)
    ensures IsMac(m) <==>
      exists pairs: seq<string> ::
        |pairs| == 6 && (forall pair <- pairs :: IsPairOfHex(pair)) && m == JoinWith(":", pairs)
  {
    hide IsPairOfHex, IsMac;
    if IsMac(m) {
      var pairs := PairsOf(m);
    }
    if pairs: seq<string> :|
      |pairs| == 6 && (forall pair <- pairs :: IsPairOfHex(pair)) && m == JoinWith(":", pairs) {
      PairsAreMac(pairs);
    }
  }
}
