/** Absolute paths as text and as names (`disk_usage.py`, `normalize` and the prefix tests of `forget_path`). */
module DiskPaths {
  import opened Wrappers

  datatype PathError = NotAbsolute | HasDotDot

  /** A file name: no slash in it, and not one of the two that mean a folder. */
  predicate IsName(c: string) {
    c != "" && c != "." && c != ".." && '/' !in c
  }

  type Path = seq<string>

  predicate IsPath(p: Path) {
    forall c :: c in p ==> IsName(c)
  }

  /** A slash before every name; nothing for the root. */
  function Slashed(p: Path): string {
    if p == [] then "" else "/" + p[0] + Slashed(p[1..])
  }

  function Render(p: Path): string {
    if p == [] then "/" else Slashed(p)
  }

  // ----- text operations ------------------------------------------------------------------

  /** `rstrip("/")`. */
  function StripSlashes(s: string): string {
    if s != "" && s[|s| - 1] == '/' then StripSlashes(s[..|s| - 1]) else s
  }

  /** `startswith`. */
  predicate StartsWith(s: string, prefix: string) {
    prefix <= s
  }

  /** Whether `s` names something below the folder `folder`, as the source asks it. */
  predicate IsBelow(s: string, folder: string) {
    StartsWith(s, StripSlashes(folder) + "/")
  }

  /** The position after the last slash. */
  function AfterSlash(s: string): (i: nat)
    ensures i <= |s|
  {
    if s == "" then 0 else if s[|s| - 1] == '/' then |s| else AfterSlash(s[..|s| - 1])
  }

  /** `posixpath.dirname(s) or "/"`. */
  function Parent(s: string): string {
    var head := s[..AfterSlash(s)];
    var stripped := StripSlashes(head);
    if stripped != "" then stripped else if head != "" then head else "/"
  }

  // ----- text against names ----------------------------------------------------------------

  lemma SlashedCons(c: string, p: Path)
    ensures Slashed([c] + p) == "/" + c + Slashed(p)
  {
    assert ([c] + p)[1..] == p;
  }

  lemma {:induction false} SlashedAppend(a: Path, b: Path)
    ensures Slashed(a + b) == Slashed(a) + Slashed(b)
    decreases |a|
  {
    if a == [] {
      assert a + b == b;
    } else {
      assert (a + b)[1..] == a[1..] + b;
      SlashedAppend(a[1..], b);
    }
  }

  lemma {:induction false} SlashedEndsInName(p: Path)
    requires IsPath(p) && p != []
    ensures var s := Slashed(p); s != "" && s[0] == '/' && s[|s| - 1] != '/' && StripSlashes(s) == s
    decreases |p|
  {
    assert p[0] in p;
    if |p| > 1 {
      SlashedEndsInName(p[1..]);
    } else {
      assert p[1..] == [];
    }
  }

  lemma StripOfRender(p: Path)
    requires IsPath(p)
    ensures StripSlashes(Render(p)) == Slashed(p)
  {
    if p == [] {
      assert "/"[..0] == "";
    } else {
      SlashedEndsInName(p);
    }
  }

  lemma SlashInSecond(x: string, y: string, s: string, t: string)
    requires (s == "" || s[0] == '/') && x + s <= y + t && (s == "" ==> |x + s| == |y + t|) && |x| < |y|
    ensures '/' in y
  {
    assert (x + s)[|x|] == '/' && (y + t)[|x|] == y[|x|];
  }

  lemma SlashInFirst(x: string, y: string, s: string, t: string)
    requires (t == "" || t[0] == '/') && x + s <= y + t && |x| > |y|
    ensures '/' in x
  {
    assert (x + s)[|y|] == x[|y|] && (y + t)[|y|] == t[0];
  }

  /** The first name of a path is where its text says it is. */
  lemma FirstName(x: string, y: string, s: string, t: string)
    requires '/' !in x && '/' !in y && (s == "" || s[0] == '/') && (t == "" || t[0] == '/')
    requires x + s <= y + t && (s == "" ==> |x + s| == |y + t|)
    ensures x == y && s <= t
  {
    var u, v := x + s, y + t;
    if |x| < |y| {
      SlashInSecond(x, y, s, t);
    } else if |x| > |y| {
      SlashInFirst(x, y, s, t);
    }
    assert forall i :: 0 <= i < |x| ==> u[i] == x[i] && v[i] == y[i];
    assert forall i :: 0 <= i < |s| ==> u[|x| + i] == s[i] && v[|y| + i] == t[i];
  }

  lemma CancelSlash(s: string, t: string)
    requires "/" + s <= "/" + t
    ensures s <= t
  {
    assert ("/" + s)[1..] == s && ("/" + t)[1..] == t;
    assert forall i :: 0 <= i < |s| ==> ("/" + s)[i + 1] == s[i] && ("/" + t)[i + 1] == t[i];
  }

  /** Text below a folder is a longer path with the folder's names first. */
  lemma {:induction false} BelowIsPrefix(a: Path, b: Path)
    requires IsPath(a) && IsPath(b)
    ensures Slashed(a) + "/" <= Slashed(b) <==> a < b
    decreases |a|
  {
    if a == [] {
      if b != [] { assert Slashed(b)[0] == '/'; }
    } else if b == [] {
    } else {
      var x, y, s, t := a[0], b[0], Slashed(a[1..]) + "/", Slashed(b[1..]);
      assert x in a && y in b;
      BelowIsPrefix(a[1..], b[1..]);
      assert Slashed(a) + "/" == "/" + (x + s) && Slashed(b) == "/" + (y + t);
      SlashOrNothing(a[1..]);
      SlashOrNothing(b[1..]);
      if Slashed(a) + "/" <= Slashed(b) {
        CancelSlash(x + s, y + t);
        FirstName(x, y, s, t);
        assert a == [x] + a[1..] && b == [y] + b[1..];
      }
      if a < b {
        assert a[1..] == b[1..|a|] && x == y;
        assert s <= t;
      }
    }
  }

  lemma OnlyRootIsEmpty(p: Path)
    ensures Slashed(p) == "" ==> p == []
  {
  }

  lemma SlashOrNothing(p: Path)
    ensures Slashed(p) == "" || Slashed(p)[0] == '/'
    ensures (Slashed(p) + "/")[0] == '/'
  {
  }

  lemma {:induction false} SlashedInjective(a: Path, b: Path)
    requires IsPath(a) && IsPath(b) && Slashed(a) == Slashed(b)
    ensures a == b
    decreases |a|
  {
    if a != [] && b != [] {
      var x, y, s, t := a[0], b[0], Slashed(a[1..]), Slashed(b[1..]);
      assert x in a && y in b;
      assert Slashed(a) == "/" + (x + s) && Slashed(b) == "/" + (y + t);
      SlashOrNothing(a[1..]);
      SlashOrNothing(b[1..]);
      CancelSlash(x + s, y + t);
      FirstName(x, y, s, t);
      assert s == t by { assert |s| == |t|; }
      SlashedInjective(a[1..], b[1..]);
      assert a == [x] + a[1..] && b == [y] + b[1..];
    }
  }

  lemma RenderInjective(a: Path, b: Path)
    requires IsPath(a) && IsPath(b)
    ensures Render(a) == Render(b) <==> a == b
  {
    if Render(a) == Render(b) {
      StripOfRender(a);
      StripOfRender(b);
      SlashedInjective(a, b);
    }
  }

  /** The source's prefix test on texts is the prefix relation on paths, never a shared beginning of a name. */
  lemma IsBelowMeans(a: Path, b: Path)
    requires IsPath(a) && IsPath(b) && b != []
    ensures IsBelow(Render(b), Render(a)) <==> a < b
  {
    StripOfRender(a);
    BelowIsPrefix(a, b);
  }

  lemma {:induction false} AfterSlashOfName(s: string, c: string)
    requires '/' !in c
    ensures AfterSlash(s + "/" + c) == |s| + 1
    decreases |c|
  {
    var text := s + "/" + c;
    if c == "" {
      assert text[|text| - 1] == '/';
    } else {
      assert text[|text| - 1] == c[|c| - 1] && c[|c| - 1] in c;
      assert text[..|text| - 1] == s + "/" + c[..|c| - 1];
      AfterSlashOfName(s, c[..|c| - 1]);
    }
  }

  lemma ParentIsShorter(p: Path)
    requires IsPath(p) && p != []
    ensures Parent(Render(p)) == Render(p[..|p| - 1])
  {
    var up, c := p[..|p| - 1], p[|p| - 1];
    assert c in p;
    assert p == up + [c];
    SlashedAppend(up, [c]);
    assert Slashed([c]) == "/" + c by { assert [c][1..] == []; }
    assert Render(p) == Slashed(up) + "/" + c;
    AfterSlashOfName(Slashed(up), c);
    var head := Render(p)[..AfterSlash(Render(p))];
    assert head == Slashed(up) + "/";
    assert head[..|head| - 1] == Slashed(up);
    if up != [] {
      SlashedEndsInName(up);
      assert StripSlashes(head) == Slashed(up);
    } else {
      assert head == "/" && StripSlashes(head) == "";
    }
  }

  // ----- normalize -----------------------------------------------------------------------

  /** `split("/")`. */
  function Split(s: string): (parts: seq<string>)
    decreases |s|
  {
    var n := Cut(s);
    if n == |s| then [s] else [s[..n]] + Split(s[n + 1..])
  }

  lemma {:induction false} PartsHaveNoSlash(s: string)
    ensures forall c <- Split(s) :: '/' !in c
    decreases |s|
  {
    hide Cut;
    var n := Cut(s);
    CutAtSlash(s);
    if n < |s| {
      PartsHaveNoSlash(s[n + 1..]);
    }
  }

  /** The position of the first slash. */
  function Cut(s: string): (n: nat)
    ensures n <= |s|
  {
    if s == "" || s[0] == '/' then 0 else 1 + Cut(s[1..])
  }

  lemma {:induction false} CutAtSlash(s: string)
    ensures var n := Cut(s); '/' !in s[..n] && (n < |s| ==> s[n] == '/')
    decreases |s|
  {
    if s != "" && s[0] != '/' {
      CutAtSlash(s[1..]);
      assert s[..Cut(s)] == [s[0]] + s[1..][..Cut(s) - 1];
    }
  }

  /** What `normpath` keeps of the parts of an absolute path without "..". */
  function Names(parts: seq<string>): Path {
    if parts == [] then []
    else (if parts[0] == "" || parts[0] == "." then [] else [parts[0]]) + Names(parts[1..])
  }

  function Normalize(s: string): Result<string, PathError> {
    if s == "" || s[0] != '/' then Err(NotAbsolute)
    else if ".." in Split(s) then Err(HasDotDot)
    else Ok(Render(Names(Split(s))))
  }

  lemma {:induction false} NamesAreNames(parts: seq<string>)
    requires ".." !in parts && forall c :: c in parts ==> '/' !in c
    ensures IsPath(Names(parts))
    decreases |parts|
  {
    if parts != [] {
      assert parts[0] in parts;
      NamesAreNames(parts[1..]);
    }
  }

  lemma {:induction false} CutOfName(c: string, rest: string)
    requires '/' !in c && (rest == "" || rest[0] == '/')
    ensures Cut(c + rest) == |c|
    decreases |c|
  {
    if c == "" {
      assert c + rest == rest;
    } else {
      assert (c + rest)[0] == c[0] && c[0] in c;
      assert (c + rest)[1..] == c[1..] + rest;
      CutOfName(c[1..], rest);
    }
  }

  lemma {:induction false} SplitOfSlashed(p: Path)
    requires IsPath(p)
    ensures Split(Slashed(p)) == [""] + p
    decreases |p|
  {
    if p != [] {
      var c, rest := p[0], Slashed(p[1..]);
      assert c in p;
      hide Slashed, Cut, Split;
      SlashedCons(c, p[1..]);
      assert p == [c] + p[1..];
      SplitOfSlashed(p[1..]);
      SlashOrNothing(p[1..]);
      SplitAfterName(c, rest);
      if rest == "" {
        OnlyRootIsEmpty(p[1..]);
      }
    }
  }

  /** A slash and a name in front of a text add the name to its parts. */
  lemma SplitAfterName(c: string, rest: string)
    requires '/' !in c && (rest == "" || rest[0] == '/')
    ensures Split("/" + c + rest) == [""] + [c] + if rest == "" then [] else Split(rest)[1..]
    ensures rest != "" ==> Split(rest) == [""] + Split(rest)[1..]
  {
    hide Split;
    var text := "/" + c + rest;
    assert text[..0] == "" && text[1..] == c + rest;
    SplitAt(text, 0);
    CutOfName(c, rest);
    SplitAt(c + rest, |c|);
    if rest != "" {
      assert (c + rest)[..|c|] == c && (c + rest)[|c| + 1..] == rest[1..];
      assert rest[..0] == "";
      SplitAt(rest, 0);
    } else {
      assert c + rest == c;
    }
  }

  lemma SplitAt(s: string, n: nat)
    requires n == Cut(s)
    ensures Split(s) == if n == |s| then [s] else [s[..n]] + Split(s[n + 1..])
  {
    hide Cut;
  }

  lemma {:induction false} NamesOfPath(p: Path)
    requires IsPath(p)
    ensures Names(p) == p
    decreases |p|
  {
    if p != [] {
      assert p[0] in p;
      NamesOfPath(p[1..]);
    }
  }

  /** A normalized path is the text of real names, and normalizing it again changes nothing. */
  lemma NormalizeIsCanonical(s: string)
    requires Normalize(s).Ok?
    ensures exists p :: IsPath(p) && Normalize(s).value == Render(p)
    ensures Normalize(Normalize(s).value) == Normalize(s)
  {
    var p := Names(Split(s));
    PartsHaveNoSlash(s);
    NamesAreNames(Split(s));
    RenderIsNormal(p);
  }

  lemma RenderIsNormal(p: Path)
    requires IsPath(p)
    ensures Normalize(Render(p)) == Ok(Render(p))
  {
    if p == [] {
      assert Split("/") == ["", ""] by {
        assert "/"[..0] == "" && "/"[1..] == "" && Split("") == [""];
      }
      assert ["", ""][1..] == [""] && [""][1..] == [];
      assert Names(["", ""]) == Names([""]) == [];
    } else {
      SplitOfSlashed(p);
      NamesOfPath(p);
      assert ([""] + p)[1..] == p;
      assert ".." !in p && ".." !in [""] + p;
      assert Names([""] + p) == [] + Names(p) == p;
      SlashedEndsInName(p);
    }
  }
}
