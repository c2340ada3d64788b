/** The folder of a host in the shared branch (`stack_backup.py`, `_sanitize`), and which hosts share one. */
module HostFolder {

  predicate IsNameChar(c: char) {
    'A' <= c <= 'Z' || 'a' <= c <= 'z' || '0' <= c <= '9' || c == '.' || c == '_' || c == '-'
  }

  predicate IsName(s: string) {
    forall i :: 0 <= i < |s| ==> IsNameChar(s[i])
  }

  function SkipOthers(s: string): (r: string)
    ensures |r| <= |s|
  {
    if s != "" && !IsNameChar(s[0]) then SkipOthers(s[1..]) else s
  }

  /** Every run of other characters becomes one underscore. */
  function Replace(s: string): (r: string)
    ensures IsName(r)
    decreases |s|
  {
    if s == "" then ""
    else if IsNameChar(s[0]) then [s[0]] + Replace(s[1..])
    else ['_'] + Replace(SkipOthers(s[1..]))
  }

  function StripUnderscores(s: string): (r: string)
    ensures IsName(s) ==> IsName(r)
    ensures r != "" ==> r[0] != '_' && r[|r| - 1] != '_'
    ensures s != "" && s[0] != '_' && s[|s| - 1] != '_' ==> r == s
    decreases |s|
  {
    if s == "" then ""
    else if s[0] == '_' then StripUnderscores(s[1..])
    else if s[|s| - 1] == '_' then StripUnderscores(s[..|s| - 1])
    else s
  }

  /** `_sanitize`. */
  function Sanitize(name: string): string {
    var cleaned := StripUnderscores(Replace(name));
    if cleaned == "" then "unnamed" else cleaned
  }

  lemma {:induction false} ReplaceOfName(s: string)
    requires IsName(s)
    ensures Replace(s) == s
    decreases |s|
  {
    if s != "" {
      ReplaceOfName(s[1..]);
    }
  }

  /** A folder name is never empty, has no separator in it, and names itself. */
  lemma SanitizedNames(name: string)
    ensures var folder := Sanitize(name);
      folder != "" && '/' !in folder && Sanitize(folder) == folder
  {
    ReplaceOfName(Sanitize(name));
  }

  predicate IsKept(name: string) {
    name != "" && IsName(name) && name[0] != '_' && name[|name| - 1] != '_'
  }

  /** Exactly the names that are kept as they are; "." and ".." are among them. */
  lemma SanitizeKeeps(name: string)
    ensures Sanitize(name) == name <==> IsKept(name)
    ensures Sanitize("..") == ".."
  {
    if IsName(name) {
      ReplaceOfName(name);
    }
    ReplaceOfName("..");
  }

  // ----- which names share a folder ----------------------------------------------------------

  /** What is dropped at both ends of a name. */
  predicate IsEdge(c: char) { c == '_' || !IsNameChar(c) }

  predicate AllEdges(s: string) {
    forall i :: 0 <= i < |s| ==> IsEdge(s[i])
  }

  predicate Underscores(s: string) {
    forall i :: 0 <= i < |s| ==> s[i] == '_'
  }

  function TrimFront(s: string): (r: string)
    ensures r != "" ==> !IsEdge(r[0])
  {
    if s != "" && IsEdge(s[0]) then TrimFront(s[1..]) else s
  }

  function TrimBack(s: string): (r: string)
    ensures r <= s && (r != "" ==> !IsEdge(r[|r| - 1]))
    decreases |s|
  {
    if s != "" && IsEdge(s[|s| - 1]) then TrimBack(s[..|s| - 1]) else s
  }

  /** A name without its outer underscores and other characters. */
  function Core(name: string): (core: string)
    ensures core != "" ==> !IsEdge(core[0]) && !IsEdge(core[|core| - 1])
  {
    TrimBack(TrimFront(name))
  }

  /** At a name character a text may be cut. */
  lemma {:induction false} ReplaceSplit(a: string, b: string)
    requires b == "" || IsNameChar(b[0]) || a == "" || IsNameChar(a[|a| - 1])
    ensures Replace(a + b) == Replace(a) + Replace(b)
    decreases |a|
  {
    if a == "" {
      assert a + b == b;
    } else if IsNameChar(a[0]) {
      assert (a + b)[1..] == a[1..] + b;
      ReplaceSplit(a[1..], b);
    } else {
      assert (a + b)[1..] == a[1..] + b;
      SkipSplit(a[1..], b);
      ReplaceSplit(SkipOthers(a[1..]), b);
    }
  }

  lemma {:induction false} SkipSplit(a: string, b: string)
    requires b == "" || IsNameChar(b[0]) || (a != "" && IsNameChar(a[|a| - 1]))
    ensures SkipOthers(a + b) == SkipOthers(a) + b
    ensures SkipOthers(a) != "" ==> SkipOthers(a)[|SkipOthers(a)| - 1] == a[|a| - 1]
    decreases |a|
  {
    if a == "" {
      assert a + b == b;
      assert b == "" || SkipOthers(b) == b;
    } else if !IsNameChar(a[0]) {
      assert (a + b)[1..] == a[1..] + b;
      SkipSplit(a[1..], b);
    }
  }

  lemma {:induction false} ReplaceOfEdges(s: string)
    requires AllEdges(s)
    ensures Underscores(Replace(s))
    decreases |s|
  {
    if s != "" {
      if IsNameChar(s[0]) {
        ReplaceOfEdges(s[1..]);
      } else {
        SkipIsSuffix(s[1..]);
        ReplaceOfEdges(SkipOthers(s[1..]));
      }
    }
  }

  lemma {:induction false} SkipIsSuffix(s: string)
    ensures exists k :: 0 <= k <= |s| && SkipOthers(s) == s[k..]
    decreases |s|
  {
    if s != "" && !IsNameChar(s[0]) {
      SkipIsSuffix(s[1..]);
      var k :| 0 <= k <= |s| - 1 && SkipOthers(s[1..]) == s[1..][k..];
      assert SkipOthers(s) == s[k + 1..];
    } else {
      assert SkipOthers(s) == s[0..];
    }
  }

  lemma {:induction false} TrimFrontParts(s: string) returns (p: string)
    ensures AllEdges(p) && s == p + TrimFront(s)
    decreases |s|
  {
    if s != "" && IsEdge(s[0]) {
      var q := TrimFrontParts(s[1..]);
      p := [s[0]] + q;
    } else {
      p := "";
    }
  }

  lemma {:induction false} TrimBackParts(s: string) returns (q: string)
    ensures AllEdges(q) && s == TrimBack(s) + q
    decreases |s|
  {
    if s != "" && IsEdge(s[|s| - 1]) {
      var p := TrimBackParts(s[..|s| - 1]);
      q := p + [s[|s| - 1]];
    } else {
      q := "";
    }
  }

  lemma {:induction false} StripFront(u: string, w: string)
    requires Underscores(u)
    ensures StripUnderscores(u + w) == StripUnderscores(w)
    decreases |u|
  {
    if u == "" {
      assert u + w == w;
    } else {
      assert (u + w)[1..] == u[1..] + w;
      StripFront(u[1..], w);
    }
  }

  lemma {:induction false} StripBack(w: string, v: string)
    requires Underscores(v) && w != "" && w[0] != '_' && w[|w| - 1] != '_'
    ensures StripUnderscores(w + v) == w
    decreases |v|
  {
    if v == "" {
      assert w + v == w;
    } else {
      assert (w + v)[..|w + v| - 1] == w + v[..|v| - 1];
      StripBack(w, v[..|v| - 1]);
    }
  }

  lemma {:induction false} ReplaceEnds(s: string)
    requires s != "" && IsNameChar(s[0]) && IsNameChar(s[|s| - 1])
    ensures var r := Replace(s); r != "" && r[0] == s[0] && r[|r| - 1] == s[|s| - 1]
  {
    var front, last := s[..|s| - 1], s[|s| - 1..];
    assert s == front + last && last[1..] == "";
    ReplaceSplit(front, last);
    assert Replace(last) == last;
  }

  /** Stripping after replacing is replacing what is left of the name without its edges. */
  lemma CleanedIsCore(name: string)
    ensures StripUnderscores(Replace(name)) == Replace(Core(name))
  {
    var m := TrimFront(name);
    var p := TrimFrontParts(name);
    var q := TrimBackParts(m);
    var core := Core(name);
    ReplaceSplit(p, m);
    ReplaceOfEdges(p);
    StripFront(Replace(p), Replace(m));
    if core == "" {
      assert m == q;
      ReplaceOfEdges(q);
      StripFront(Replace(q), "");
      assert Replace(q) + "" == Replace(q);
    } else {
      ReplaceSplit(core, q);
      ReplaceOfEdges(q);
      ReplaceEnds(core);
      StripBack(Replace(core), Replace(q));
    }
  }

  /** A run of characters that a folder name cannot hold. */
  predicate IsRun(t: string) {
    t != "" && forall i :: 0 <= i < |t| ==> !IsNameChar(t[i])
  }

  function Flatten(pieces: seq<string>): string {
    if pieces == [] then "" else pieces[0] + Flatten(pieces[1..])
  }

  /** The text cut into name characters and whole runs of others, and what each piece becomes. */
  ghost predicate Pieces(pieces: seq<string>, s: string, f: string) {
    && |pieces| == |f| && Flatten(pieces) == s
    && (forall i :: 0 <= i < |f| ==> (pieces[i] == [f[i]] && IsNameChar(f[i])) || (f[i] == '_' && IsRun(pieces[i])))
    && (forall i :: 0 < i < |f| ==> !(IsRun(pieces[i - 1]) && IsRun(pieces[i])))
  }

  /** `s` reads as `f` when each run of other characters is read as one underscore. */
  ghost predicate ReadsAs(s: string, f: string) {
    exists pieces :: Pieces(pieces, s, f)
  }

  lemma {:induction false} ReplaceReads(s: string) returns (pieces: seq<string>)
    ensures Pieces(pieces, s, Replace(s))
    ensures if s == "" then pieces == [] else pieces != [] && (IsRun(pieces[0]) <==> !IsNameChar(s[0]))
    decreases |s|
  {
    hide Pieces;
    if s == "" {
      pieces := [];
      NoPieces();
    } else if IsNameChar(s[0]) {
      var rest := ReplaceReads(s[1..]);
      pieces := [[s[0]]] + rest;
      assert s == [s[0]] + s[1..] && !IsRun([s[0]]) by { assert [s[0]][0] == s[0]; }
      OneMorePiece([s[0]], rest, s[1..], s[0], Replace(s[1..]));
    } else {
      var k := RunLength(s);
      var rest := ReplaceReads(s[k..]);
      pieces := [s[..k]] + rest;
      assert s == s[..k] + s[k..] && Replace(s) == ['_'] + Replace(s[k..]);
      OneMorePiece(s[..k], rest, s[k..], '_', Replace(s[k..]));
    }
  }

  lemma NoPieces()
    ensures Pieces([], "", "")
  {
  }

  lemma OneMorePiece(piece: string, pieces: seq<string>, s: string, c: char, f: string)
    requires Pieces(pieces, s, f) && (pieces != [] ==> !(IsRun(piece) && IsRun(pieces[0])))
    requires (piece == [c] && IsNameChar(c)) || (c == '_' && IsRun(piece))
    ensures Pieces([piece] + pieces, piece + s, [c] + f)
  {
    hide IsRun, IsNameChar;
    var more := [piece] + pieces;
    assert more[1..] == pieces;
    assert forall i :: 0 < i < |more| ==> more[i] == pieces[i - 1] && ([c] + f)[i] == f[i - 1];
  }

  lemma {:induction false} RunLength(s: string) returns (k: nat)
    requires s != "" && !IsNameChar(s[0])
    ensures k <= |s| && IsRun(s[..k]) && SkipOthers(s[1..]) == s[k..] && (k < |s| ==> IsNameChar(s[k]))
    decreases |s|
  {
    if |s| > 1 && !IsNameChar(s[1]) {
      var n := RunLength(s[1..]);
      k := n + 1;
    } else {
      k := 1;
    }
  }

  lemma {:induction false} ReadsIsReplace(pieces: seq<string>, s: string, f: string)
    requires Pieces(pieces, s, f)
    ensures Replace(s) == f
    decreases |f|
  {
    if f != "" {
      var rest := Flatten(pieces[1..]);
      assert forall i :: 0 <= i < |f| - 1 ==> pieces[1..][i] == pieces[i + 1] && f[1..][i] == f[i + 1];
      ReadsIsReplace(pieces[1..], rest, f[1..]);
      if IsRun(pieces[0]) {
        if rest != "" {
          assert pieces[1] == [f[1]] && rest == pieces[1] + Flatten(pieces[1..][1..]);
        }
        assert s[1..] == pieces[0][1..] + rest;
        SkipRun(pieces[0][1..], rest);
      } else {
        assert s[1..] == rest;
      }
    }
  }

  lemma {:induction false} SkipRun(t: string, rest: string)
    requires (forall i :: 0 <= i < |t| ==> !IsNameChar(t[i])) && (rest == "" || IsNameChar(rest[0]))
    ensures SkipOthers(t + rest) == rest
    decreases |t|
  {
    if t == "" {
      assert t + rest == rest;
    } else {
      assert (t + rest)[1..] == t[1..] + rest;
      SkipRun(t[1..], rest);
    }
  }

  /**
   Exactly the names that are given the folder `f`: without their outer underscores and other characters they read as
   `f` with each run of other characters as one underscore, or nothing is left of them and `f` is "unnamed".
   */
  lemma SanitizeReads(name: string, f: string)
    ensures Sanitize(name) == f <==> if Core(name) == "" then f == "unnamed" else ReadsAs(Core(name), f)
  {
    CleanedIsCore(name);
    var pieces := ReplaceReads(Core(name));
    assert ReadsAs(Core(name), Replace(Core(name)));
    if Core(name) != "" {
      ReplaceEnds(Core(name));
      if ReadsAs(Core(name), f) {
        var other :| Pieces(other, Core(name), f);
        ReadsIsReplace(other, Core(name), f);
      }
    }
  }

  /** Two texts are alike when walking along both meets the same name characters, with a run of others as an underscore. */
  predicate Alike(a: string, b: string)
    decreases |a|
  {
    if a == "" || b == "" then a == b
    else Shown(a[0]) == Shown(b[0]) && Alike(Past(a), Past(b))
  }

  function Shown(c: char): char { if IsNameChar(c) then c else '_' }

  function Past(s: string): (r: string)
    requires s != ""
    ensures |r| < |s|
  {
    if IsNameChar(s[0]) then s[1..] else SkipOthers(s[1..])
  }

  lemma {:induction false} AlikeIsReplace(a: string, b: string)
    ensures Alike(a, b) <==> Replace(a) == Replace(b)
    decreases |a|
  {
    if a != "" && b != "" {
      AlikeIsReplace(Past(a), Past(b));
      assert Replace(a) == [Shown(a[0])] + Replace(Past(a)) && Replace(b) == [Shown(b[0])] + Replace(Past(b));
      assert Replace(a)[1..] == Replace(Past(a)) && Replace(b)[1..] == Replace(Past(b));
    }
  }

  function CoreOrUnnamed(name: string): string {
    if Core(name) == "" then "unnamed" else Core(name)
  }

  /** Two hosts share a folder exactly when their names are alike once the edges are off. */
  lemma SharedFolder(a: string, b: string)
    ensures Sanitize(a) == Sanitize(b) <==> Alike(CoreOrUnnamed(a), CoreOrUnnamed(b))
  {
    SanitizeIsReplace(a);
    SanitizeIsReplace(b);
    AlikeIsReplace(CoreOrUnnamed(a), CoreOrUnnamed(b));
  }

  lemma SanitizeIsReplace(name: string)
    ensures Sanitize(name) == Replace(CoreOrUnnamed(name))
  {
    CleanedIsCore(name);
    if Core(name) == "" {
      ReplaceOfName("unnamed");
    } else {
      ReplaceEnds(Core(name));
    }
  }

  /** So hosts whose names are kept as they are never share one. */
  lemma KeptNamesShareNothing(a: string, b: string)
    requires IsKept(a) && IsKept(b)
    ensures Sanitize(a) == Sanitize(b) <==> a == b
  {
    SanitizeKeeps(a);
    SanitizeKeeps(b);
  }

  /** Two hosts that do. */
  lemma SanitizeMerges()
    ensures Sanitize("a b") == Sanitize("a_b")
  {
    var one, two := "a b", "a_b";
    ReplaceOfName(two);
    assert one[1..] == " b" && one[1..][1..] == "b" && SkipOthers("b") == "b";
    ReplaceOfName("b");
    assert Replace(one) == ['a'] + (['_'] + "b") == two;
  }

  /** A folder below the others; "." and ".." are not. */
  predicate IsFolder(f: string) { f != "." && f != ".." }

  /** The only names that are not given such a folder are those that leave "." or ".." without their edges. */
  lemma DotFolders(name: string)
    ensures IsFolder(Sanitize(name)) <==> Core(name) != "." && Core(name) != ".."
  {
    SanitizeIsReplace(name);
    if '_' !in Replace(CoreOrUnnamed(name)) {
      ReplaceWithoutUnderscore(CoreOrUnnamed(name));
    }
    ReplaceOfName(".");
    ReplaceOfName("..");
  }

  lemma {:induction false} ReplaceWithoutUnderscore(s: string)
    requires '_' !in Replace(s)
    ensures Replace(s) == s
    decreases |s|
  {
    if s != "" && IsNameChar(s[0]) {
      assert Replace(s)[1..] == Replace(s[1..]);
      ReplaceWithoutUnderscore(s[1..]);
    }
  }
}
