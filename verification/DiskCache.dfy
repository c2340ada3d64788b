/**
 The cache of finished scans (`disk_usage.py`): after a path is deleted the scans above it are patched instead of
 made again (`known_bytes`, `forget_path`).
 */
module DiskCache {
  import opened Wrappers
  import opened DiskPaths
  import opened DiskScan

  /** A row of a cached scan. */
  datatype CachedRow = CachedRow(path: string, bytes: Option<nat>, pending: bool)

  type Rows = seq<CachedRow>

  type Scans = map<string, Rows>

  // ----- the source's operations ------------------------------------------------------------

  function FindRow(rows: Rows, path: string): Option<nat> {
    if rows == [] then None
    else if rows[0].path == path && !rows[0].pending then rows[0].bytes
    else FindRow(rows[1..], path)
  }

  /** `known_bytes`. */
  function KnownBytes(scans: Scans, path: string): Option<nat> {
    if Parent(path) in scans then FindRow(scans[Parent(path)], path) else None
  }

  /** The scan is of the path itself or of something in it. */
  predicate IsGone(key: string, path: string) {
    key == path || IsBelow(key, path)
  }

  /** The scan is of a folder above the path. */
  predicate IsAbove(key: string, path: string) {
    key == "/" || IsBelow(path, key)
  }

  /** What is left of a scan's rows: the path's own row goes, and the folder row above it shrinks. */
  function PatchRow(row: CachedRow, path: string, freed: nat): Rows {
    if row.path == path then []
    else if IsBelow(path, row.path) && row.bytes.Some? then
      [row.(bytes := Some(if row.bytes.value < freed then 0 else row.bytes.value - freed))]
    else [row]
  }

  function Patch(rows: Rows, path: string, freed: nat): Rows {
    if rows == [] then [] else PatchRow(rows[0], path, freed) + Patch(rows[1..], path, freed)
  }

  function Forgotten(scans: Scans, path: string, freed: Option<nat>): Scans {
    map key | key in scans && !IsGone(key, path) && !(IsAbove(key, path) && freed.None?) ::
      if IsAbove(key, path) then Patch(scans[key], path, freed.value) else scans[key]
  }

  class Cache {
    var scans: Scans

    constructor ()
      ensures scans == map[]
    {
      scans := map[];
    }

    method Known(path: string) returns (bytes: Option<nat>)
      ensures bytes == KnownBytes(scans, path)
    {
      var parent := Parent(path);
      if parent !in scans {
        return None;
      }
      var rows := scans[parent];
      for i := 0 to |rows|
        invariant FindRow(rows, path) == FindRow(rows[i..], path)
      {
        assert rows[i..][1..] == rows[i + 1..];
        if rows[i].path == path && !rows[i].pending {
          return rows[i].bytes;
        }
      }
      return None;
    }

    /** `usage`, when there is no scan of the folder at `q` or it is too old: a new one takes its place. */
    method Rescan(q: Path, top: Option<Node>, listing: Listing) returns (r: Result<(), ScanError>)
      requires ListsAll(listing)
      requires top.Some? && top.value.Folder? ==> Consistent(TopSum(top.value.entries, top.value.dev).files)
      modifies this
      ensures r.Err? ==> scans == old(scans)[Render(q) := []]
      ensures r.Ok? ==> top.Some? && top.value.Folder? && Render(q) in scans
      ensures r.Ok? ==> scans == old(scans)[Render(q) := scans[Render(q)]]
      ensures r.Ok? && IsPlain(top.value, top.value.dev) && NoRepeats(TopSum(top.value.entries, top.value.dev).files) ==>
        scans[Render(q)] == RowsOf(q, listing(top.value))
    {
      hide TopSum, NoRepeats, IsPlain, RowsTell, Distinct, Render, RowsOf, CachedRows;
      var scan := new Scan();
      r := scan.Run(top, listing);
      scans := scans[Render(q) := CachedRows(q, scan.entries)];
      if r.Ok? {
        if IsPlain(top.value, top.value.dev) && NoRepeats(TopSum(top.value.entries, top.value.dev).files) {
          FreshScanIsExact(scan, top.value, listing(top.value), q);
        }
      } else {
        NoCachedRows(q);
      }
    }

    /** `forget_path`: the loop over the cached scans, in whatever order they are held. */
    method ForgetPath(path: string, freed: Option<nat>)
      modifies this
      ensures scans == Forgotten(old(scans), path, freed)
      ensures forall p, q :: IsPath(p) && IsPath(q) && path == Render(p) ==>
        && (Render(q) in scans <==> Render(q) in old(scans) && !(p <= q) && !(q < p && freed.None?))
        && (Render(q) in scans && !(q < p) ==> scans[Render(q)] == old(scans)[Render(q)])
    {
      forall p, q | IsPath(p) && IsPath(q) && path == Render(p)
        ensures var after := Forgotten(scans, path, freed);
          && (Render(q) in after <==> Render(q) in scans && !(p <= q) && !(q < p && freed.None?))
          && (Render(q) in after && !(q < p) ==> after[Render(q)] == scans[Render(q)])
      {
        ScansThatStay(scans, p, q, freed);
      }
      var left := scans.Keys;
      while left != {}
        invariant left <= old(scans).Keys
        invariant forall key :: key in left ==> key in scans && scans[key] == old(scans)[key]
        invariant forall key :: key in scans ==> key in old(scans)
        invariant forall key :: key in old(scans) && key !in left ==>
          (key in scans <==> key in Forgotten(old(scans), path, freed)) &&
          (key in scans ==> scans[key] == Forgotten(old(scans), path, freed)[key])
        decreases left
      {
        var key :| key in left;
        left := left - {key};
        if IsGone(key, path) {
          scans := scans - {key};
        } else if IsAbove(key, path) {
          if freed.None? {
            scans := scans - {key};
          } else {
            scans := scans[key := Patch(scans[key], path, freed.value)];
          }
        }
      }
    }
  }

  // ----- trees --------------------------------------------------------------------------

  /** Readable folders, regular files and symlinks on one device, with different names in a folder. */
  predicate IsPlain(n: Node, device: nat) {
    match n
    case Folder(dev, _, readable, entries) =>
      dev == device && readable && Different(entries) &&
      forall e :: e in entries ==> IsName(e.name) && IsPlain(e.node, device)
    case File(_) => true
    case Link => true
    case _ => false
  }

  predicate Different(entries: seq<Entry>) {
    forall i, j :: 0 <= i < j < |entries| ==> entries[i].name != entries[j].name
  }

  /** The bytes of a node and of everything in it, when no file has two links. */
  function Size(n: Node): nat {
    match n
    case Folder(_, bytes, _, entries) => bytes + SizeOf(entries)
    case File(stat) => stat.bytes
    case _ => 0
  }

  function SizeOf(entries: seq<Entry>): nat {
    if entries == [] then 0 else Size(entries[0].node) + SizeOf(entries[1..])
  }

  function Find(entries: seq<Entry>, name: string): Option<Node> {
    if entries == [] then None
    else if entries[0].name == name then Some(entries[0].node)
    else Find(entries[1..], name)
  }

  /** The node at a path, no link being followed. */
  function Lookup(n: Node, p: Path): Option<Node>
    decreases |p|
  {
    if p == [] then Some(n)
    else if !n.Folder? then None
    else
      match Find(n.entries, p[0])
      case None => None
      case Some(child) => Lookup(child, p[1..])
  }

  /** The tree without what is at the path. */
  function Remove(n: Node, p: Path): Node
    decreases |p|, 0
  {
    if p == [] || !n.Folder? then n else n.(entries := RemoveFrom(n.entries, p))
  }

  function RemoveFrom(entries: seq<Entry>, p: Path): seq<Entry>
    requires p != []
    decreases |p|, 0, |entries|
  {
    if entries == [] then [] else RemoveFromEntry(entries[0], p) + RemoveFrom(entries[1..], p)
  }

  function RemoveFromEntry(e: Entry, p: Path): (left: seq<Entry>)
    requires p != []
    ensures |left| <= 1
    decreases |p|, 0, 0
  {
    if e.name != p[0] then [e]
    else if |p| == 1 then []
    else [Entry(p[0], Remove(e.node, p[1..]))]
  }

  /** What a finished scan of the folder at `q` shows: each child by its path, with the bytes under it. */
  function RowsOf(q: Path, entries: seq<Entry>): Rows {
    if entries == [] then [] else [RowOf(q, entries[0])] + RowsOf(q, entries[1..])
  }

  function RowOf(q: Path, e: Entry): CachedRow {
    CachedRow(Render(q + [e.name]), Some(Size(e.node)), false)
  }

  /** Every cached scan is finished and shows what is on the disk. */
  ghost predicate AllExact(scans: Scans, root: Node) {
    forall key :: key in scans ==>
      exists q :: IsPath(q) && key == Render(q) && IsExact(scans[key], root, q)
  }

  /** The rows are those of the folder at `q`, its entries listed in some order. */
  ghost predicate IsExact(rows: Rows, root: Node, q: Path) {
    && Lookup(root, q).Some? && Lookup(root, q).value.Folder?
    && ShowsEntries(rows, q, Lookup(root, q).value.entries)
  }

  ghost predicate ShowsEntries(rows: Rows, q: Path, entries: seq<Entry>) {
    exists listed: seq<Entry> :: Reordered(listed, entries) && rows == RowsOf(q, listed)
  }

  predicate Reordered(listed: seq<Entry>, entries: seq<Entry>) {
    multiset(listed) == multiset(entries)
  }

  // ----- finding and removing ----------------------------------------------------------------

  predicate AllPlain(entries: seq<Entry>, device: nat) {
    Different(entries) && forall e :: e in entries ==> IsName(e.name) && IsPlain(e.node, device)
  }

  lemma PlainTail(entries: seq<Entry>, device: nat)
    requires AllPlain(entries, device) && entries != []
    ensures AllPlain(entries[1..], device) && IsName(entries[0].name) && IsPlain(entries[0].node, device)
    ensures Find(entries[1..], entries[0].name) == None
  {
    var tail := entries[1..];
    assert entries[0] in entries;
    assert forall i, j :: 0 <= i < j < |tail| ==> tail[i].name != tail[j].name by {
      forall i, j | 0 <= i < j < |tail| ensures tail[i].name != tail[j].name {
        assert entries[i + 1].name != entries[j + 1].name;
      }
    }
    forall i | 0 <= i < |tail| ensures tail[i].name != entries[0].name {
      assert entries[0].name != entries[i + 1].name;
    }
    FoundNowhere(tail, entries[0].name);
  }

  lemma {:induction false} FoundNowhere(entries: seq<Entry>, name: string)
    requires forall i :: 0 <= i < |entries| ==> entries[i].name != name
    ensures Find(entries, name) == None
    decreases |entries|
  {
    if entries != [] {
      assert forall i :: 0 <= i < |entries| - 1 ==> entries[1..][i] == entries[i + 1];
      FoundNowhere(entries[1..], name);
    }
  }

  lemma {:induction false} FoundAt(entries: seq<Entry>, name: string) returns (k: nat)
    requires Find(entries, name).Some?
    ensures k < |entries| && entries[k].name == name && entries[k].node == Find(entries, name).value
    decreases |entries|
  {
    if entries[0].name == name {
      k := 0;
    } else {
      k := FoundAt(entries[1..], name);
      k := k + 1;
    }
  }

  lemma FoundIsPlain(entries: seq<Entry>, name: string, device: nat)
    requires AllPlain(entries, device) && Find(entries, name).Some?
    ensures IsPlain(Find(entries, name).value, device)
  {
    var k := FoundAt(entries, name);
    assert entries[k] in entries;
  }

  lemma {:induction false} RemoveOfAbsent(entries: seq<Entry>, p: Path)
    requires p != [] && Find(entries, p[0]).None?
    ensures RemoveFrom(entries, p) == entries
    decreases |entries|
  {
    if entries != [] {
      RemoveOfAbsent(entries[1..], p);
    }
  }

  /** Removing a path takes exactly what is there off the size of every folder above it. */
  lemma {:induction false} RemoveShrinks(n: Node, p: Path, device: nat)
    requires p != [] && IsPlain(n, device) && Lookup(n, p).Some?
    ensures Size(Lookup(n, p).value) <= Size(n) && Size(Remove(n, p)) == Size(n) - Size(Lookup(n, p).value)
    decreases |p|, 0
  {
    assert AllPlain(n.entries, device);
    RemoveFromShrinks(n.entries, p, device);
  }

  lemma {:induction false} RemoveFromShrinks(entries: seq<Entry>, p: Path, device: nat)
    requires p != [] && AllPlain(entries, device)
    requires Find(entries, p[0]).Some? && Lookup(Find(entries, p[0]).value, p[1..]).Some?
    ensures var gone := Lookup(Find(entries, p[0]).value, p[1..]).value;
      Size(gone) <= SizeOf(entries) && SizeOf(RemoveFrom(entries, p)) == SizeOf(entries) - Size(gone)
    decreases |p|, 0, |entries|
  {
    PlainTail(entries, device);
    if entries[0].name != p[0] {
      RemoveFromShrinks(entries[1..], p, device);
    } else {
      RemoveOfAbsent(entries[1..], p);
      if |p| > 1 {
        RemoveShrinks(entries[0].node, p[1..], device);
        var kept := [Entry(p[0], Remove(entries[0].node, p[1..]))];
        assert (kept + entries[1..])[1..] == entries[1..];
      } else {
        assert RemoveFrom(entries, p) == entries[1..];
      }
    }
  }

  // ----- the order of entries does not matter -------------------------------------------------

  lemma {:induction false} ListedPlain(a: seq<Entry>, b: seq<Entry>, device: nat)
    requires Reordered(a, b) && AllPlain(a, device)
    ensures AllPlain(b, device)
    decreases |a|
  {
    if a == [] {
      assert |multiset(b)| == 0;
    } else {
      var i := TakeOut(a, b);
      PlainTail(a, device);
      var x, y := b[..i], b[i + 1..];
      ListedPlain(a[1..], x + y, device);
      forall e: Entry | e in x + y ensures e.name != a[0].name {
        assert e in multiset(a[1..]);
        FoundHere(a[1..], e, device);
      }
      PlainWithOneMore(x, a[0], y, device);
    }
  }

  lemma PlainWithOneMore(x: seq<Entry>, e: Entry, y: seq<Entry>, device: nat)
    requires AllPlain(x + y, device) && IsName(e.name) && IsPlain(e.node, device)
    requires forall f :: f in x + y ==> f.name != e.name
    ensures AllPlain(x + ([e] + y), device)
  {
    hide IsPlain, IsName;
    var all, few := x + ([e] + y), x + y;
    assert forall f :: f in all <==> f == e || f in few;
    forall i, j | 0 <= i < j < |all| ensures all[i].name != all[j].name {
      var k, l := if i < |x| then i else i - 1, if j < |x| then j else j - 1;
      assert i != |x| ==> all[i] == few[k];
      assert j != |x| ==> all[j] == few[l];
    }
  }

  /** With different names, an entry is found by its own. */
  lemma {:induction false} FoundHere(entries: seq<Entry>, e: Entry, device: nat)
    requires AllPlain(entries, device) && e in entries
    ensures Find(entries, e.name) == Some(e.node)
    decreases |entries|
  {
    if entries[0] != e {
      PlainTail(entries, device);
      FoundHere(entries[1..], e, device);
    }
  }

  lemma ListedFind(a: seq<Entry>, b: seq<Entry>, name: string, device: nat)
    requires Reordered(a, b) && AllPlain(a, device)
    ensures AllPlain(b, device) && Find(a, name) == Find(b, name)
  {
    ListedPlain(a, b, device);
    if Find(a, name).Some? {
      var k := FoundAt(a, name);
      assert a[k] in multiset(b);
      FoundHere(a, a[k], device);
      FoundHere(b, a[k], device);
    } else if Find(b, name).Some? {
      var k := FoundAt(b, name);
      assert b[k] in multiset(a);
      FoundHere(a, b[k], device);
    }
  }

  lemma {:induction false} RemoveFromSum(a: seq<Entry>, b: seq<Entry>, p: Path)
    requires p != []
    ensures RemoveFrom(a + b, p) == RemoveFrom(a, p) + RemoveFrom(b, p)
    decreases |a|
  {
    hide RemoveFromEntry;
    if a == [] {
      assert a + b == b;
    } else {
      assert (a + b)[1..] == a[1..] + b;
      RemoveFromSum(a[1..], b, p);
    }
  }

  lemma {:induction false} RowsOfSum(q: Path, a: seq<Entry>, b: seq<Entry>)
    ensures RowsOf(q, a + b) == RowsOf(q, a) + RowsOf(q, b)
    decreases |a|
  {
    hide RowOf;
    if a == [] {
      assert a + b == b;
    } else {
      assert (a + b)[1..] == a[1..] + b;
      RowsOfSum(q, a[1..], b);
    }
  }

  lemma {:induction false} ListedRemove(a: seq<Entry>, b: seq<Entry>, p: Path)
    requires Reordered(a, b) && p != []
    ensures Reordered(RemoveFrom(a, p), RemoveFrom(b, p))
    decreases |a|
  {
    hide RemoveFromEntry;
    if a == [] {
      assert |multiset(b)| == 0;
    } else {
      var i := TakeOut(a, b);
      var e, x, y := a[0], b[..i], b[i + 1..];
      ListedRemove(a[1..], x + y, p);
      RemoveFromSum(x, y, p);
      RemoveFromSum(x, [e] + y, p);
      RemoveFromSum([e], y, p);
      assert RemoveFrom([e], p) == RemoveFromEntry(e, p) by { assert [e][1..] == []; }
    }
  }

  lemma {:induction false} ListedRows(q: Path, a: seq<Entry>, b: seq<Entry>)
    requires Reordered(a, b)
    ensures multiset(RowsOf(q, a)) == multiset(RowsOf(q, b))
    decreases |a|
  {
    hide RowOf;
    if a == [] {
      assert |multiset(b)| == 0;
    } else {
      var i := TakeOut(a, b);
      var e, x, y := a[0], b[..i], b[i + 1..];
      ListedRows(q, a[1..], x + y);
      RowsOfSum(q, x, y);
      RowsOfSum(q, x, [e] + y);
      RowsOfSum(q, [e], y);
      assert RowsOf(q, [e]) == [RowOf(q, e)] by { assert [e][1..] == []; }
    }
  }

  // ----- patching is scanning the smaller tree -------------------------------------------------

  lemma RowPaths(q: Path, name: string, p: Path)
    requires IsPath(q) && IsName(name) && IsPath(p) && p != []
    ensures Render(q + [name]) == Render(q + p) <==> name == p[0] && |p| == 1
    ensures IsBelow(Render(q + p), Render(q + [name])) <==> name == p[0] && |p| > 1
  {
    RenderInjective(q + [name], q + p);
    IsBelowMeans(q + [name], q + p);
    assert (q + p)[|q|] == p[0] && (q + [name])[|q|] == name;
    if name == p[0] {
      assert q + p == q + [name] + p[1..];
      if |p| == 1 { assert p == [name]; }
    }
  }

  lemma {:induction false} PatchOfAbsent(q: Path, entries: seq<Entry>, p: Path, freed: nat, device: nat)
    requires IsPath(q) && IsPath(p) && p != [] && AllPlain(entries, device) && Find(entries, p[0]).None?
    ensures Patch(RowsOf(q, entries), Render(q + p), freed) == RowsOf(q, entries)
    decreases |entries|
  {
    if entries != [] {
      PlainTail(entries, device);
      PatchOfAbsent(q, entries[1..], p, freed, device);
      RowPaths(q, entries[0].name, p);
      assert RowsOf(q, entries)[1..] == RowsOf(q, entries[1..]);
    }
  }

  lemma {:induction false} PatchIsRescan(q: Path, entries: seq<Entry>, p: Path, device: nat)
    requires IsPath(q) && IsPath(p) && p != [] && AllPlain(entries, device)
    requires Find(entries, p[0]).Some? && Lookup(Find(entries, p[0]).value, p[1..]).Some?
    ensures Patch(RowsOf(q, entries), Render(q + p), Size(Lookup(Find(entries, p[0]).value, p[1..]).value))
      == RowsOf(q, RemoveFrom(entries, p))
    decreases |entries|
  {
    hide PatchRow, RemoveFromEntry, RowOf, Render, AllPlain, Lookup, Size;
    PlainTail(entries, device);
    var e, tail, freed := entries[0], entries[1..], Size(Lookup(Find(entries, p[0]).value, p[1..]).value);
    PatchOneRow(q, e, p, freed, device);
    assert RowsOf(q, entries)[1..] == RowsOf(q, tail);
    if e.name != p[0] {
      PatchIsRescan(q, tail, p, device);
      assert ([e] + RemoveFrom(tail, p))[1..] == RemoveFrom(tail, p);
      assert RemoveFromEntry(e, p) == [e] by { OtherEntryStays(e, p); }
    } else {
      PatchOfAbsent(q, tail, p, freed, device);
      RemoveOfAbsent(tail, p);
      RowsOfOneMore(q, RemoveFromEntry(e, p), tail);
    }
  }

  lemma OtherEntryStays(e: Entry, p: Path)
    requires p != [] && e.name != p[0]
    ensures RemoveFromEntry(e, p) == [e]
  {
  }

  lemma RowsOfOneMore(q: Path, entry: seq<Entry>, tail: seq<Entry>)
    requires |entry| <= 1
    ensures RowsOf(q, entry + tail) == RowsOf(q, entry) + RowsOf(q, tail)
  {
    if entry == [] {
      assert entry + tail == tail;
      assert RowsOf(q, entry) + RowsOf(q, tail) == RowsOf(q, tail);
    } else {
      assert (entry + tail)[1..] == tail && entry[1..] == [];
    }
  }

  /** The row of one child, before and after. */
  lemma PatchOneRow(q: Path, e: Entry, p: Path, freed: nat, device: nat)
    requires IsPath(q) && IsPath(p) && p != [] && IsName(e.name) && IsPlain(e.node, device)
    requires e.name == p[0] && |p| > 1 ==> Lookup(e.node, p[1..]).Some? && freed == Size(Lookup(e.node, p[1..]).value)
    ensures PatchRow(RowOf(q, e), Render(q + p), freed) == RowsOf(q, RemoveFromEntry(e, p))
  {
    hide Size, Lookup, IsPlain, Render, IsPath, IsName;
    RowPaths(q, e.name, p);
    if e.name == p[0] && |p| > 1 {
      RemoveShrinks(e.node, p[1..], device);
    }
  }

  lemma {:induction false} FindRowIsSize(q: Path, entries: seq<Entry>, name: string, device: nat)
    requires IsPath(q) && IsName(name) && AllPlain(entries, device)
    ensures FindRow(RowsOf(q, entries), Render(q + [name])) ==
      match Find(entries, name) case Some(n) => Some(Size(n)) case None => None
    decreases |entries|
  {
    if entries != [] {
      PlainTail(entries, device);
      FindRowIsSize(q, entries[1..], name, device);
      RenderInjective(q + [entries[0].name], q + [name]);
      assert (q + [entries[0].name])[|q|] == entries[0].name && (q + [name])[|q|] == name;
      assert RowsOf(q, entries)[1..] == RowsOf(q, entries[1..]);
    }
  }

  // ----- looking up in the smaller tree ---------------------------------------------------------

  lemma {:induction false} FindAfterRemove(entries: seq<Entry>, p: Path, name: string, device: nat)
    requires p != [] && AllPlain(entries, device)
    ensures Find(RemoveFrom(entries, p), name) ==
      if name != p[0] || Find(entries, name).None? then Find(entries, name)
      else if |p| == 1 then None else Some(Remove(Find(entries, name).value, p[1..]))
    decreases |entries|
  {
    if entries != [] {
      PlainTail(entries, device);
      FindAfterRemove(entries[1..], p, name, device);
      var rest := RemoveFrom(entries[1..], p);
      if entries[0].name == p[0] {
        RemoveOfAbsent(entries[1..], p);
        if |p| > 1 {
          assert ([Entry(p[0], Remove(entries[0].node, p[1..]))] + rest)[1..] == rest;
        } else {
          assert RemoveFrom(entries, p) == rest;
        }
      } else {
        assert ([entries[0]] + rest)[1..] == rest;
      }
    }
  }

  /** Above the path the tree is the smaller one; beside it nothing has changed. */
  lemma {:induction false} LookupAfterRemove(n: Node, p: Path, q: Path, device: nat)
    requires p != [] && IsPlain(n, device) && Lookup(n, q).Some? && !(p <= q)
    ensures q <= p ==> Lookup(Remove(n, p), q) == Some(Remove(Lookup(n, q).value, p[|q|..]))
    ensures !(q <= p) ==> Lookup(Remove(n, p), q) == Lookup(n, q)
    ensures IsPlain(Lookup(n, q).value, device)
    decreases |q|
  {
    if q == [] {
      assert p[0..] == p;
    } else {
      assert AllPlain(n.entries, device);
      FindAfterRemove(n.entries, p, q[0], device);
      FoundIsPlain(n.entries, q[0], device);
      var child := Find(n.entries, q[0]).value;
      if q[0] == p[0] {
        SameFirst(p, q);
        SameFirst(q, p);
        LookupAfterRemove(child, p[1..], q[1..], device);
        if q <= p {
          assert q[1..] == p[1..|q|];
          assert p[1..][|q[1..]|..] == p[|q|..];
        }
      } else {
        assert !(q <= p);
        OthersArePlain(child, q[1..], device);
      }
    }
  }

  lemma SameFirst(p: Path, q: Path)
    requires p != [] && q != [] && p[0] == q[0]
    ensures p <= q <==> p[1..] <= q[1..]
    ensures |p| == 1 ==> p <= q
  {
    assert p == [p[0]] + p[1..] && q == [q[0]] + q[1..];
  }

  lemma {:induction false} OthersArePlain(n: Node, q: Path, device: nat)
    requires IsPlain(n, device) && Lookup(n, q).Some?
    ensures IsPlain(Lookup(n, q).value, device)
    decreases |q|
  {
    if q != [] {
      assert AllPlain(n.entries, device);
      FoundIsPlain(n.entries, q[0], device);
      OthersArePlain(Find(n.entries, q[0]).value, q[1..], device);
    }
  }

  lemma {:induction false} LookupSplit(n: Node, q: Path, r: Path)
    requires Lookup(n, q + r).Some?
    ensures Lookup(n, q).Some? && Lookup(Lookup(n, q).value, r) == Lookup(n, q + r)
    decreases |q|
  {
    if q == [] {
      assert q + r == r;
    } else {
      assert (q + r)[1..] == q[1..] + r && (q + r)[0] == q[0];
      LookupSplit(Find(n.entries, q[0]).value, q[1..], r);
    }
  }

  // ----- main result ---------------------------------------------------------------------

  /** What a cached scan says a path takes is what it takes. */
  lemma KnownIsSize(scans: Scans, root: Node, p: Path, device: nat)
    requires IsPlain(root, device) && AllExact(scans, root) && IsPath(p) && p != [] && Lookup(root, p).Some?
    ensures KnownBytes(scans, Render(p)) ==
      if Parent(Render(p)) in scans then Some(Size(Lookup(root, p).value)) else None
  {
    hide IsPlain, AllPlain, Lookup, Size, Parent, FindRow;
    hide RowsOf;
    ParentIsShorter(p);
    var up, name := p[..|p| - 1], p[|p| - 1];
    assert p == up + [name] && name in p;
    var key := Parent(Render(p));
    if key in scans {
      var q :| IsPath(q) && key == Render(q) && IsExact(scans[key], root, q);
      RenderInjective(q, up);
      LookupSplit(root, up, [name]);
      OthersArePlain(root, up, device);
      var folder := Lookup(root, up).value;
      PlainFolder(folder, device);
      var listed :| Reordered(listed, folder.entries) && scans[key] == RowsOf(q, listed);
      ListedFind(folder.entries, listed, name, device);
      FindRowIsSize(up, listed, name, device);
      LookupChild(folder, name);
    }
  }

  lemma LookupChild(n: Node, name: string)
    requires n.Folder?
    ensures Lookup(n, [name]) == Find(n.entries, name)
  {
    assert [name][1..] == [];
  }

  /** Which cached scans go, which are patched, and which are left alone, in terms of paths. */
  lemma WhichScans(q: Path, p: Path)
    requires IsPath(q) && IsPath(p) && p != []
    ensures IsGone(Render(q), Render(p)) <==> p <= q
    ensures IsAbove(Render(q), Render(p)) <==> q < p
  {
    hide Render;
    RenderInjective(p, q);
    RenderInjective(q, []);
    IsBelowMeans(q, p);
    if q == [] {
      assert Render([]) == "/" by { RenderOfRoot(); }
      RootIsNotBelow(p);
    } else {
      IsBelowMeans(p, q);
      assert Render([]) == "/" by { RenderOfRoot(); }
    }
  }

  /**
   A deletion drops the scans of the path and of what was in it, and, when its size is not known, those of the folders
   above it. Every other scan stays, and one of a folder that is not above the path stays as it is.
   */
  lemma ScansThatStay(scans: Scans, p: Path, q: Path, freed: Option<nat>)
    requires IsPath(p) && IsPath(q)
    ensures var after := Forgotten(scans, Render(p), freed);
      && (Render(q) in after <==> Render(q) in scans && !(p <= q) && !(q < p && freed.None?))
      && (Render(q) in after && !(q < p) ==> after[Render(q)] == scans[Render(q)])
  {
    hide Render, IsGone, IsAbove;
    if p != [] {
      WhichScans(q, p);
    } else {
      NothingIsOutsideRoot(q);
    }
  }

  lemma NothingIsOutsideRoot(q: Path)
    requires IsPath(q)
    ensures IsGone(Render(q), Render([]))
  {
    if q != [] {
      IsBelowMeans([], q);
    }
  }

  lemma {:induction false} PatchSum(a: Rows, b: Rows, path: string, freed: nat)
    ensures Patch(a + b, path, freed) == Patch(a, path, freed) + Patch(b, path, freed)
    decreases |a|
  {
    hide PatchRow;
    if a == [] {
      assert a + b == b;
    } else {
      assert (a + b)[1..] == a[1..] + b;
      PatchSum(a[1..], b, path, freed);
    }
  }

  lemma PatchOneOf(before: Rows, row: CachedRow, after: Rows, path: string, freed: nat)
    ensures Patch(before + [row] + after, path, freed) ==
      Patch(before, path, freed) + PatchRow(row, path, freed) + Patch(after, path, freed)
  {
    hide PatchRow;
    PatchSum(before + [row], after, path, freed);
    PatchSum(before, [row], path, freed);
    assert [row][1..] == [];
  }

  /**
   What a deletion does to one row of a scan above the path, wherever the row stands: the path's own row goes, a row
   above it loses what was freed and never falls below 0, and every other row stays as it is.
   */
  lemma RowAfterDeletion(before: Rows, row: CachedRow, after: Rows, r: Path, p: Path, freed: nat)
    requires IsPath(r) && IsPath(p) && p != [] && row.path == Render(r)
    ensures Patch(before + [row] + after, Render(p), freed) ==
      Patch(before, Render(p), freed) +
      (if r == p then []
       else if r < p && row.bytes.Some? then
         [CachedRow(Render(r), Some(if row.bytes.value > freed then row.bytes.value - freed else 0), row.pending)]
       else [row]) +
      Patch(after, Render(p), freed)
  {
    PatchOneOf(before, row, after, Render(p), freed);
    hide Render, IsBelow, Patch;
    RenderInjective(r, p);
    IsBelowMeans(r, p);
  }

  lemma RenderOfRoot()
    ensures Render([]) == "/"
  {
  }

  lemma RootIsNotBelow(p: Path)
    requires IsPath(p) && p != []
    ensures !IsBelow(Render([]), Render(p))
  {
    StripOfRender(p);
    SlashedEndsInName(p);
    assert |Slashed(p) + "/"| > 1;
  }

  /** One scan that survives, after the path is gone. */
  lemma SurvivorIsExact(scans: Scans, root: Node, p: Path, q: Path, device: nat)
    requires IsPlain(root, device) && AllExact(scans, root) && IsPath(p) && p != [] && Lookup(root, p).Some?
    requires IsPath(q) && Render(q) in scans && IsExact(scans[Render(q)], root, q)
    requires Render(q) in Forgotten(scans, Render(p), KnownBytes(scans, Render(p)))
    ensures IsExact(Forgotten(scans, Render(p), KnownBytes(scans, Render(p)))[Render(q)], Remove(root, p), q)
  {
    hide Patch, RowsOf, IsPlain, IsGone, IsAbove, Render, KnownBytes, AllExact, RemoveFrom, IsPath;
    var folder := Lookup(root, q).value;
    WhichScans(q, p);
    LookupAfterRemove(root, p, q, device);
    if q < p {
      var r := p[|q|..];
      assert p == q + r;
      KnownIsSize(scans, root, p, device);
      LookupSplit(root, q, r);
      PlainFolder(folder, device);
      assert IsPath(r) by { PathTail(q, r); }
      var listed :| Reordered(listed, folder.entries) && scans[Render(q)] == RowsOf(q, listed);
      ListedFind(folder.entries, listed, r[0], device);
      PatchIsRescan(q, listed, r, device);
      ListedRemove(listed, folder.entries, r);
      assert ShowsEntries(RowsOf(q, RemoveFrom(listed, r)), q, RemoveFrom(folder.entries, r));
    }
  }

  lemma PlainFolder(n: Node, device: nat)
    requires n.Folder? && IsPlain(n, device)
    ensures AllPlain(n.entries, device)
  {
  }

  lemma PathTail(q: Path, r: Path)
    requires IsPath(q + r)
    ensures IsPath(r)
  {
    forall c | c in r ensures IsName(c) { assert c in q + r; }
  }

  /**
   After a deletion every scan that is still cached shows exactly the names and bytes that a new scan of the smaller
   tree would show.
   */
  lemma ForgetKeepsExact(scans: Scans, root: Node, p: Path, device: nat)
    requires IsPlain(root, device) && AllExact(scans, root) && IsPath(p) && p != [] && Lookup(root, p).Some?
    ensures AllExact(Forgotten(scans, Render(p), KnownBytes(scans, Render(p))), Remove(root, p))
  {
    hide IsExact;
    var after := Forgotten(scans, Render(p), KnownBytes(scans, Render(p)));
    forall key | key in after ensures exists q :: IsPath(q) && key == Render(q) && IsExact(after[key], Remove(root, p), q) {
      var q :| IsPath(q) && key == Render(q) && IsExact(scans[key], root, q);
      SurvivorIsExact(scans, root, p, q, device);
    }
  }

  // ----- rows against the scan that makes them ---------------------------------------------------

  /** No file is met twice. */
  ghost predicate NoRepeats(files: multiset<Stat>) {
    forall f {:trigger files[f]} :: files[f] <= 1
  }

  lemma {:induction false} DistinctOfSum(a: multiset<Stat>, b: multiset<Stat>)
    requires NoRepeats(a + b)
    ensures Distinct(a + b) == Distinct(a) + Distinct(b)
    decreases |b|
  {
    hide Distinct;
    if b == multiset{} {
      assert a + b == a;
      assert Distinct(multiset{}) == 0 by { DistinctOfNothing(); }
    } else {
      var f :| f in b;
      var c := b - multiset{f};
      assert b == c + multiset{f};
      assert a + b == (a + c) + multiset{f};
      assert (a + b)[f] <= 1;
      assert NoRepeats(a + c) by {
        forall g ensures (a + c)[g] <= 1 { assert (a + b)[g] <= 1; }
      }
      DistinctOfSum(a, c);
      DistinctAdd(a + c, f);
      DistinctAdd(c, f);
    }
  }

  lemma DistinctOfNothing()
    ensures Distinct(multiset{}) == 0
  {
    var none: multiset<Stat> := multiset{};
    assert (set f | f in none) == {};
  }

  lemma PartsHaveNoRepeats(a: multiset<Stat>, b: multiset<Stat>)
    requires NoRepeats(a + b)
    ensures NoRepeats(a) && NoRepeats(b)
  {
    forall f ensures a[f] <= 1 && b[f] <= 1 { assert (a + b)[f] <= 1; }
  }

  lemma {:induction false} SizeIsTally(n: Node, device: nat)
    requires IsPlain(n, device) && NoRepeats(TallyOf(n, device).files)
    ensures Size(n) == TallyOf(n, device).bytes + Distinct(TallyOf(n, device).files)
    decreases n, 1
  {
    hide Distinct;
    DistinctOfNothing();
    match n
    case Folder(_, _, _, entries) =>
      assert TallyOf(n, device).files == SumOf(entries, device).files;
      assert AllPlain(entries, device);
      SizeIsSum(entries, device);
    case File(stat) =>
      DistinctAdd(multiset{}, stat);
      assert multiset{} + multiset{stat} == multiset{stat};
    case _ =>
  }

  lemma {:induction false} SizeIsSum(entries: seq<Entry>, device: nat)
    requires AllPlain(entries, device) && NoRepeats(SumOf(entries, device).files)
    ensures SizeOf(entries) == SumOf(entries, device).bytes + Distinct(SumOf(entries, device).files)
    ensures TopSum(entries, device) == SumOf(entries, device)
    decreases entries, 2
  {
    hide Distinct, TallyOf;
    if entries == [] {
      DistinctOfNothing();
    } else {
      PlainTail(entries, device);
      var head, tail := TallyOf(entries[0].node, device), SumOf(entries[1..], device);
      PartsHaveNoRepeats(head.files, tail.files);
      SizeIsTally(entries[0].node, device);
      SizeIsSum(entries[1..], device);
      DistinctOfSum(head.files, tail.files);
    }
  }

  /** The rows of a scan of the folder at `q`, as they are cached. */
  function CachedRows(q: Path, rows: seq<Row>): (r: Rows)
    ensures |r| == |rows|
  {
    seq(|rows|, k requires 0 <= k < |rows| => CachedRow(Render(q + [rows[k].name]), rows[k].bytes, rows[k].pending))
  }

  lemma NoCachedRows(q: Path)
    ensures CachedRows(q, []) == []
  {
  }

  /** What `Scan.Run` leaves of a scan of `top`. */
  ghost predicate Finished(scan: Scan, top: Node, listing: seq<Entry>)
    requires top.Folder?
    reads scan
  {
    && Reordered(listing, top.entries)
    && scan.Exact(top) && NamesOf(scan.entries) == Listed(listing) && scan.nodes == ListedNodes(listing)
    && RowsTell(scan.entries, scan.nodes, scan.marks, top.dev, TopSum(top.entries, top.dev).files)
  }

  lemma NoRepeatsWithin(a: multiset<Stat>, b: multiset<Stat>)
    requires a <= b && NoRepeats(b)
    ensures NoRepeats(a)
  {
    forall f ensures a[f] <= 1 { assert b[f] <= 1; }
  }

  lemma RowIsSize(row: Row, n: Node, device: nat, mark: multiset<Stat>, all: multiset<Stat>)
    requires RowIs(row, n, device, mark, all) && NoRepeats(all) && IsPlain(n, device)
    ensures row.bytes == Some(Size(n)) && !row.pending
  {
    hide Distinct, TallyOf, Size;
    var files := TallyOf(n, device).files;
    NoRepeatsWithin(mark + files, all);
    DistinctOfSum(mark, files);
    PartsHaveNoRepeats(mark, files);
    SizeIsTally(n, device);
  }

  lemma {:induction false} AllAreListed(entries: seq<Entry>, device: nat)
    requires AllPlain(entries, device)
    ensures |Listed(entries)| == |ListedNodes(entries)| == |entries|
    ensures forall k :: 0 <= k < |entries| ==> Listed(entries)[k] == entries[k].name && ListedNodes(entries)[k] == entries[k].node
    decreases |entries|
  {
    if entries != [] {
      var front := entries[..|entries| - 1];
      assert entries[|entries| - 1] in entries;
      assert forall e :: e in front ==> e in entries;
      AllAreListed(front, device);
    }
  }

  lemma {:induction false} RowsOfEach(q: Path, entries: seq<Entry>)
    ensures |RowsOf(q, entries)| == |entries|
    ensures forall k :: 0 <= k < |entries| ==> RowsOf(q, entries)[k] == RowOf(q, entries[k])
    decreases |entries|
  {
    hide RowOf;
    if entries != [] {
      RowsOfEach(q, entries[1..]);
    }
  }

  /** On a plain tree without hard links, what a scan leaves is exact: row by row, in the order of its listing. */
  lemma FreshScanIsExact(scan: Scan, top: Node, listing: seq<Entry>, q: Path)
    requires top.Folder? && IsPlain(top, top.dev) && NoRepeats(TopSum(top.entries, top.dev).files)
    requires Finished(scan, top, listing)
    ensures CachedRows(q, scan.entries) == RowsOf(q, listing)
    ensures ShowsEntries(CachedRows(q, scan.entries), q, top.entries)
  {
    hide RowIs, IsPlain, Listed, ListedNodes, RowsOf, Size, Render, TopSum, TopTally, Distinct;
    var all := TopSum(top.entries, top.dev).files;
    PlainFolder(top, top.dev);
    ListedPlain(top.entries, listing, top.dev);
    AllAreListed(listing, top.dev);
    RowsOfEach(q, listing);
    forall k | 0 <= k < |listing| ensures CachedRows(q, scan.entries)[k] == RowsOf(q, listing)[k] {
      assert listing[k] in listing && NamesOf(scan.entries)[k] == listing[k].name;
      RowIsSize(scan.entries[k], listing[k].node, top.dev, scan.marks[k], all);
    }
  }

  /** A new scan in the cache keeps it exact. */
  lemma RescanKeepsExact(scans: Scans, root: Node, q: Path, listing: seq<Entry>)
    requires AllExact(scans, root) && IsPath(q) && Lookup(root, q).Some? && Lookup(root, q).value.Folder?
    requires Reordered(listing, Lookup(root, q).value.entries)
    ensures AllExact(scans[Render(q) := RowsOf(q, listing)], root)
  {
    hide Lookup, RowsOf, Render;
    var after := scans[Render(q) := RowsOf(q, listing)];
    forall key | key in after ensures exists r :: IsPath(r) && key == Render(r) && IsExact(after[key], root, r) {
      if key == Render(q) {
        assert IsExact(after[key], root, q);
      } else {
        var r :| IsPath(r) && key == Render(r) && IsExact(scans[key], root, r);
        assert IsExact(after[key], root, r);
      }
    }
  }

  /** So a scan that is still cached after a deletion shows the very rows of any new scan of the same folder. */
  lemma StillCachedIsRescan(scans: Scans, root: Node, p: Path, device: nat, q: Path, scan: Scan, listing: seq<Entry>)
    requires IsPlain(root, device) && AllExact(scans, root) && IsPath(p) && p != [] && Lookup(root, p).Some?
    requires IsPath(q) && Render(q) in Forgotten(scans, Render(p), KnownBytes(scans, Render(p)))
    requires Lookup(Remove(root, p), q).Some? && Lookup(Remove(root, p), q).value.Folder?
    requires var top := Lookup(Remove(root, p), q).value;
      IsPlain(top, top.dev) && NoRepeats(TopSum(top.entries, top.dev).files) && Finished(scan, top, listing)
    ensures multiset(Forgotten(scans, Render(p), KnownBytes(scans, Render(p)))[Render(q)]) ==
      multiset(CachedRows(q, scan.entries))
  {
    hide IsPlain, Lookup, Forgotten, KnownBytes, Finished, Render, CachedRows, TopSum, RowsOf;
    var after := Forgotten(scans, Render(p), KnownBytes(scans, Render(p)));
    var top := Lookup(Remove(root, p), q).value;
    ForgetKeepsExact(scans, root, p, device);
    var r :| IsPath(r) && Render(q) == Render(r) && IsExact(after[Render(q)], Remove(root, p), r);
    RenderInjective(q, r);
    var a :| Reordered(a, top.entries) && after[Render(q)] == RowsOf(q, a);
    FreshScanIsExact(scan, top, listing, q);
    assert Reordered(a, listing) by { FinishedListing(scan, top, listing); }
    ListedRows(q, a, listing);
  }

  lemma FinishedListing(scan: Scan, top: Node, listing: seq<Entry>)
    requires top.Folder? && Finished(scan, top, listing)
    ensures Reordered(listing, top.entries)
  {
  }
}
