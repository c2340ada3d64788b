/**
 A disk usage scan (`disk_usage.py`, class `Scan`): the children of one folder, each with the space under it, counted
 by a walk with an explicit stack that skips other devices and counts every hard-linked file once.
 */
module DiskScan {
  import opened Wrappers

  const PROGRESS_EVERY := 2000

  // ----- file trees ----------------------------------------------------------------------

  datatype Stat = Stat(dev: nat, ino: nat, nlink: nat, bytes: nat)

  datatype Node =
    | Folder(dev: nat, bytes: nat, readable: bool, entries: seq<Entry>)
    | File(stat: Stat)
    | Special(stat: Stat)
    | Link
    | Unreadable          // its `stat` fails

  datatype Entry = Entry(name: string, node: Node)

  type Inode = (nat, nat)

  function InodeOf(f: Stat): Inode { (f.dev, f.ino) }

  /** The order in which a folder's entries are listed: any order, but all of them. */
  type Listing = Node -> seq<Entry>

  ghost predicate ListsAll(listing: Listing) {
    forall n: Node {:trigger listing(n)} :: n.Folder? ==> multiset(listing(n)) == multiset(n.entries)
  }

  // ----- what is in a tree ------------------------------------------------------------------

  /** Bytes of folders, number of nodes, and the files met, each as often as it is met. */
  datatype Tally = Tally(bytes: nat, size: nat, files: multiset<Stat>)

  const NOTHING := Tally(0, 0, multiset{})

  function Plus(a: Tally, b: Tally): Tally {
    Tally(a.bytes + b.bytes, a.size + b.size, a.files + b.files)
  }

  /** What a child adds to the walk of its parent, with all that is under it on the same device. */
  function TallyOf(n: Node, device: nat): Tally
    decreases n, 1
  {
    match n
    case Folder(dev, bytes, _, _) => if dev == device then Plus(Tally(bytes, 1, multiset{}), Contents(n, device)) else Tally(0, 1, multiset{})
    case File(stat) => Tally(0, 1, multiset{stat})
    case Special(stat) => Tally(0, 1, multiset{stat})
    case _ => Tally(0, 1, multiset{})
  }

  function Contents(n: Node, device: nat): Tally
    requires n.Folder?
    decreases n, 0
  {
    if n.readable then SumOf(n.entries, device) else NOTHING
  }

  function SumOf(entries: seq<Entry>, device: nat): Tally
    decreases entries, 2
  {
    if entries == [] then NOTHING else Plus(TallyOf(entries[0].node, device), SumOf(entries[1..], device))
  }

  predicate AllFolders(stack: seq<Node>) {
    forall n :: n in stack ==> n.Folder?
  }

  function SumOfStack(stack: seq<Node>, device: nat): Tally
    requires AllFolders(stack)
    decreases |stack|
  {
    if stack == [] then NOTHING
    else Plus(SumOfStack(stack[..|stack| - 1], device), Plus(Tally(0, 1, multiset{}), Contents(stack[|stack| - 1], device)))
  }

  /** At the top level a special file counts nothing. */
  function TopTally(n: Node, device: nat): Tally {
    if n.Special? then Tally(0, 1, multiset{}) else TallyOf(n, device)
  }

  function TopSum(entries: seq<Entry>, device: nat): Tally {
    if entries == [] then NOTHING else Plus(TopTally(entries[0].node, device), TopSum(entries[1..], device))
  }

  // ----- folders that cannot be read -------------------------------------------------------

  /** A folder on the device that cannot be read, or one with such a folder somewhere under it on the device. */
  predicate Barred(n: Node, device: nat) {
    n.Folder? && n.dev == device && (!n.readable || exists e :: e in n.entries && Barred(e.node, device))
  }

  predicate AnyBarred(entries: seq<Entry>, device: nat) {
    exists e :: e in entries && Barred(e.node, device)
  }

  predicate StackBarred(stack: seq<Node>, device: nat) {
    exists n :: n in stack && Barred(n, device)
  }

  predicate AllOn(stack: seq<Node>, device: nat) {
    forall n :: n in stack ==> n.Folder? && n.dev == device
  }

  /** Whether a walk of `root` meets a folder it cannot read: it has, or there is one on the stack or among `rest`. */
  ghost predicate Meets(root: Node, device: nat, met: bool, stack: seq<Node>, rest: seq<Entry>) {
    AllOn(stack, device) && (Barred(root, device) <==> met || StackBarred(stack, device) || AnyBarred(rest, device))
  }

  lemma MeetsAtStart(root: Node, device: nat)
    requires root.Folder? && root.dev == device
    ensures Meets(root, device, false, [root], [])
  {
    hide Barred;
  }

  lemma MeetsAfterPop(root: Node, device: nat, met: bool, stack: seq<Node>)
    requires stack != [] && Meets(root, device, met, stack, [])
    ensures var (current, rest) := (stack[|stack| - 1], stack[..|stack| - 1]);
      && current.Folder?
      && (!current.readable ==> Meets(root, device, true, rest, []))
      && (current.readable ==> Meets(root, device, met, rest, current.entries))
  {
    var (current, rest) := (stack[|stack| - 1], stack[..|stack| - 1]);
    assert forall n :: n in stack <==> n in rest || n == current;
    assert Barred(current, device) <==> !current.readable || AnyBarred(current.entries, device);
    hide Barred;
    assert StackBarred(stack, device) <==> StackBarred(rest, device) || Barred(current, device);
    assert !AnyBarred([], device);
  }

  lemma NothingMore(root: Node, device: nat, met: bool)
    requires Meets(root, device, met, [], [])
    ensures Barred(root, device) <==> met
  {
    hide Barred;
  }

  lemma MeetsInAnyOrder(root: Node, device: nat, met: bool, stack: seq<Node>, a: seq<Entry>, b: seq<Entry>)
    requires Meets(root, device, met, stack, a) && multiset(a) == multiset(b)
    ensures Meets(root, device, met, stack, b)
  {
    hide Barred, StackBarred;
    assert forall e :: e in a <==> e in multiset(a);
    assert forall e :: e in b <==> e in multiset(b);
  }

  lemma MeetsAfterChild(root: Node, device: nat, met: bool, stack: seq<Node>, children: seq<Entry>, i: nat)
    requires i < |children| && Meets(root, device, met, stack, children[i..])
    ensures var n := children[i].node;
      Meets(root, device, met, if n.Folder? && n.dev == device then stack + [n] else stack, children[i + 1..])
  {
    var n, rest := children[i].node, children[i + 1..];
    assert children[i..] == [children[i]] + rest;
    assert Barred(n, device) ==> n.Folder? && n.dev == device;
    hide Barred;
    assert AnyBarred(children[i..], device) <==> Barred(n, device) || AnyBarred(rest, device);
    assert StackBarred(stack + [n], device) <==> StackBarred(stack, device) || Barred(n, device);
  }

  // ----- each file once -----------------------------------------------------------------

  ghost function SumBytes(files: set<Stat>): nat {
    if files == {} then 0
    else
      var f :| f in files;
      f.bytes + SumBytes(files - {f})
  }

  /** The bytes of the files in a tally, however often each is met. */
  ghost function Distinct(files: multiset<Stat>): nat {
    SumBytes(set f | f in files)
  }

  lemma {:induction false} SumBytesAdd(files: set<Stat>, f: Stat)
    requires f !in files
    ensures SumBytes(files + {f}) == SumBytes(files) + f.bytes
    decreases |files|
  {
    var all := files + {f};
    var g :| g in all && SumBytes(all) == g.bytes + SumBytes(all - {g});
    if g == f {
      assert all - {f} == files;
    } else {
      assert all - {g} == (files - {g}) + {f};
      SumBytesAdd(files - {g}, f);
      assert (files - {g}) + {g} == files;
      SumBytesAdd(files - {g}, g);
    }
  }

  lemma DistinctAdd(files: multiset<Stat>, f: Stat)
    ensures Distinct(files + multiset{f}) == Distinct(files) + if f in files then 0 else f.bytes
  {
    var before := set g | g in files;
    var after := set g | g in files + multiset{f};
    assert after == before + {f};
    if f in files {
      assert after == before;
    } else {
      SumBytesAdd(before, f);
    }
  }

  /** One inode has one `stat`, and one that is met more than once has more than one link. */
  ghost predicate Consistent(files: multiset<Stat>) {
    && (forall f, g {:trigger files[f], files[g]} :: files[f] > 0 && files[g] > 0 && InodeOf(f) == InodeOf(g) ==> f == g)
    && (forall f {:trigger files[f]} :: files[f] > 1 ==> f.nlink > 1)
  }

  // ----- sums do not depend on order ------------------------------------------------------

  lemma PlusIsASum(a: Tally, b: Tally, c: Tally)
    ensures Plus(a, Plus(b, c)) == Plus(Plus(a, b), c)
    ensures Plus(a, b) == Plus(b, a)
    ensures Plus(NOTHING, a) == a && Plus(a, NOTHING) == a
  {
  }

  lemma {:induction false} SumOfAppend(a: seq<Entry>, b: seq<Entry>, device: nat)
    ensures SumOf(a + b, device) == Plus(SumOf(a, device), SumOf(b, device))
    ensures TopSum(a + b, device) == Plus(TopSum(a, device), TopSum(b, device))
    decreases |a|
  {
    hide Plus, TallyOf, Contents, TopTally;
    if a == [] {
      assert a + b == b;
      PlusIsASum(SumOf(b, device), NOTHING, NOTHING);
      PlusIsASum(TopSum(b, device), NOTHING, NOTHING);
    } else {
      assert (a + b)[1..] == a[1..] + b;
      SumOfAppend(a[1..], b, device);
      PlusIsASum(TallyOf(a[0].node, device), SumOf(a[1..], device), SumOf(b, device));
      PlusIsASum(TopTally(a[0].node, device), TopSum(a[1..], device), TopSum(b, device));
    }
  }

  lemma SumOfOne(e: Entry, device: nat)
    ensures SumOf([e], device) == TallyOf(e.node, device) && TopSum([e], device) == TopTally(e.node, device)
  {
    hide Plus, TallyOf, Contents, TopTally;
    assert [e][1..] == [];
    PlusIsASum(TallyOf(e.node, device), NOTHING, NOTHING);
    PlusIsASum(TopTally(e.node, device), NOTHING, NOTHING);
  }

  /** An entry may be taken out of the middle of a listing. */
  lemma SumOfMiddle(x: seq<Entry>, e: Entry, y: seq<Entry>, device: nat)
    ensures SumOf(x + ([e] + y), device) == Plus(TallyOf(e.node, device), SumOf(x + y, device))
    ensures TopSum(x + ([e] + y), device) == Plus(TopTally(e.node, device), TopSum(x + y, device))
  {
    hide Plus, TallyOf, Contents, TopTally, SumOf, TopSum;
    SumOfOne(e, device);
    SumOfAppend(x, [e] + y, device);
    SumOfAppend([e], y, device);
    SumOfAppend(x, y, device);
    var (t, u) := (TallyOf(e.node, device), TopTally(e.node, device));
    PlusIsASum(SumOf(x, device), t, SumOf(y, device));
    PlusIsASum(t, SumOf(x, device), SumOf(y, device));
    PlusIsASum(TopSum(x, device), u, TopSum(y, device));
    PlusIsASum(u, TopSum(x, device), TopSum(y, device));
  }

  lemma TakeOut(a: seq<Entry>, b: seq<Entry>) returns (i: nat)
    requires multiset(a) == multiset(b) && a != []
    ensures i < |b| && b == b[..i] + ([a[0]] + b[i + 1..])
    ensures multiset(a[1..]) == multiset(b[..i] + b[i + 1..])
  {
    var e := a[0];
    assert a == [e] + a[1..];
    assert e in multiset(b);
    i :| 0 <= i < |b| && b[i] == e;
    assert b == b[..i] + ([e] + b[i + 1..]);
    assert multiset(a[1..]) == multiset(a) - multiset{e};
    assert multiset(b[..i] + b[i + 1..]) == multiset(b) - multiset{e};
  }

  lemma {:induction false} SumOfPermutation(a: seq<Entry>, b: seq<Entry>, device: nat)
    requires multiset(a) == multiset(b)
    ensures SumOf(a, device) == SumOf(b, device) && TopSum(a, device) == TopSum(b, device)
    decreases |a|
  {
    hide Plus, TallyOf, Contents, TopTally, SumOf, TopSum;
    if a == [] {
      assert |multiset(b)| == 0;
    } else {
      var i := TakeOut(a, b);
      SumOfPermutation(a[1..], b[..i] + b[i + 1..], device);
      SumOfMiddle(b[..i], a[0], b[i + 1..], device);
      SumOfFirst(a, device);
    }
  }

  lemma SumOfFirst(a: seq<Entry>, device: nat)
    requires a != []
    ensures SumOf(a, device) == Plus(TallyOf(a[0].node, device), SumOf(a[1..], device))
    ensures TopSum(a, device) == Plus(TopTally(a[0].node, device), TopSum(a[1..], device))
  {
    hide Plus, TallyOf, Contents, TopTally;
  }

  // ----- the scan -----------------------------------------------------------------------

  datatype Kind = LinkRow | MountRow | FolderRow | FileRow | OtherRow

  datatype Row = Row(name: string, kind: Kind, bytes: Option<nat>, pending: bool, unreadable: bool)

  datatype ScanError = DoesNotExist | NotAFolder | CannotRead

  function BytesOf(row: Row): nat {
    if row.bytes.Some? then row.bytes.value else 0
  }

  /** `total_bytes` of a view. */
  function TotalOf(rows: seq<Row>): nat {
    if rows == [] then 0 else BytesOf(rows[0]) + TotalOf(rows[1..])
  }

  lemma {:induction false} TotalOfChange(rows: seq<Row>, i: nat, row: Row)
    requires i < |rows|
    ensures TotalOf(rows[i := row]) == TotalOf(rows) - BytesOf(rows[i]) + BytesOf(row)
    decreases i
  {
    if i > 0 {
      assert rows[i := row][1..] == rows[1..][i - 1 := row];
      TotalOfChange(rows[1..], i - 1, row);
    } else {
      assert rows[i := row][1..] == rows[1..];
    }
  }

  lemma {:induction false} TotalOfMore(rows: seq<Row>, row: Row)
    ensures TotalOf(rows + [row]) == TotalOf(rows) + BytesOf(row)
    decreases |rows|
  {
    if rows != [] {
      assert (rows + [row])[1..] == rows[1..] + [row];
      TotalOfMore(rows[1..], row);
    } else {
      assert rows + [row] == [row];
    }
  }

  lemma StackPush(stack: seq<Node>, n: Node, device: nat)
    requires n.Folder? && AllFolders(stack)
    ensures AllFolders(stack + [n])
    ensures SumOfStack(stack + [n], device) == Plus(SumOfStack(stack, device), Plus(Tally(0, 1, multiset{}), Contents(n, device)))
  {
    assert (stack + [n])[..|stack|] == stack;
  }

  // ----- what each row tells -------------------------------------------------------------

  /** The row of a child: the bytes of the folders under it and of each file that was not in `mark`. */
  ghost predicate RowIs(row: Row, n: Node, device: nat, mark: multiset<Stat>, all: multiset<Stat>) {
    var t := TopTally(n, device);
    && !row.pending
    && (row.bytes.None? <==> n.Folder? && n.dev != device)
    && (row.kind.LinkRow? <==> n.Link?)
    && (row.kind.MountRow? <==> n.Folder? && n.dev != device)
    && (row.kind.FolderRow? <==> n.Folder? && n.dev == device)
    && (row.kind.FileRow? <==> n.File?)
    && (row.kind.OtherRow? <==> n.Special?)
    && (row.unreadable <==> Barred(n, device))
    && BytesOf(row) + Distinct(mark) == t.bytes + Distinct(mark + t.files)
    && mark + t.files <= all
  }

  /** The row of a folder that is still to be walked. */
  predicate Waits(row: Row, n: Node, device: nat) {
    row.pending && n.Folder? && n.dev == device && row.bytes == Some(n.bytes) && row.kind.FolderRow? && !row.unreadable
  }

  /** Every row is the one of its child, `marks` being the files met before. */
  ghost predicate RowsTell(rows: seq<Row>, nodes: seq<Node>, marks: seq<multiset<Stat>>, device: nat, all: multiset<Stat>) {
    && |rows| == |nodes| == |marks|
    && forall k :: 0 <= k < |rows| ==>
         if rows[k].pending then Waits(rows[k], nodes[k], device) else RowIs(rows[k], nodes[k], device, marks[k], all)
  }

  /** The folders to be walked are those of the pending rows, in order. */
  ghost predicate DirsWait(dirs: seq<Dir>, rows: seq<Row>, nodes: seq<Node>) {
    && |rows| == |nodes|
    && (forall i :: 0 <= i < |dirs| ==>
          dirs[i].at < |rows| && rows[dirs[i].at].pending && dirs[i].node == nodes[dirs[i].at] && dirs[i].node.Folder?)
    && (forall i, j :: 0 <= i < j < |dirs| ==> dirs[i].at < dirs[j].at)
    && (forall k :: 0 <= k < |rows| && rows[k].pending ==> HasDir(dirs, k))
  }

  ghost predicate HasDir(dirs: seq<Dir>, k: nat) {
    exists i :: 0 <= i < |dirs| && dirs[i].at == k
  }

  lemma HasDirMore(dirs: seq<Dir>, d: Dir, k: nat)
    ensures HasDir(dirs, k) || d.at == k ==> HasDir(dirs + [d], k)
  {
    if HasDir(dirs, k) {
      var i :| 0 <= i < |dirs| && dirs[i].at == k;
      assert (dirs + [d])[i].at == k;
    } else {
      assert (dirs + [d])[|dirs|] == d;
    }
  }

  lemma HasDirNext(dirs: seq<Dir>, k: nat)
    requires dirs != [] && HasDir(dirs, k) && k != dirs[0].at
    ensures HasDir(dirs[1..], k)
  {
    var i :| 0 <= i < |dirs| && dirs[i].at == k;
    assert dirs[1..][i - 1].at == k;
  }

  lemma RowsTellMore(rows: seq<Row>, nodes: seq<Node>, marks: seq<multiset<Stat>>, device: nat, all: multiset<Stat>,
    row: Row, n: Node, mark: multiset<Stat>)
    requires RowsTell(rows, nodes, marks, device, all)
    requires if row.pending then Waits(row, n, device) else RowIs(row, n, device, mark, all)
    ensures RowsTell(rows + [row], nodes + [n], marks + [mark], device, all)
  {
    hide RowIs, Waits;
  }

  lemma RowsTellChange(rows: seq<Row>, nodes: seq<Node>, marks: seq<multiset<Stat>>, device: nat, all: multiset<Stat>,
    k: nat, row: Row, mark: multiset<Stat>)
    requires RowsTell(rows, nodes, marks, device, all) && k < |rows| && RowIs(row, nodes[k], device, mark, all)
    ensures RowsTell(rows[k := row], nodes, marks[k := mark], device, all)
  {
    hide Waits;
  }

  lemma DirsWaitMore(dirs: seq<Dir>, rows: seq<Row>, nodes: seq<Node>, row: Row, n: Node)
    requires DirsWait(dirs, rows, nodes) && (row.pending ==> n.Folder?)
    ensures DirsWait(if row.pending then dirs + [Dir(|rows|, n)] else dirs, rows + [row], nodes + [n])
  {
    hide HasDir;
    var d, after := Dir(|rows|, n), rows + [row];
    var more := if row.pending then dirs + [d] else dirs;
    forall k | 0 <= k < |after| && after[k].pending ensures HasDir(more, k) {
      HasDirMore(dirs, d, k);
    }
  }

  lemma DirsWaitNext(dirs: seq<Dir>, rows: seq<Row>, nodes: seq<Node>, row: Row)
    requires dirs != [] && DirsWait(dirs, rows, nodes) && !row.pending
    ensures DirsWait(dirs[1..], rows[dirs[0].at := row], nodes)
  {
    hide HasDir;
    var rest, after := dirs[1..], rows[dirs[0].at := row];
    forall k | 0 <= k < |after| && after[k].pending ensures HasDir(rest, k) {
      HasDirNext(dirs, k);
    }
  }

  lemma NothingPending(rows: seq<Row>, nodes: seq<Node>)
    requires DirsWait([], rows, nodes)
    ensures forall k :: 0 <= k < |rows| ==> !rows[k].pending
  {
  }

  lemma NoRows(device: nat, all: multiset<Stat>)
    ensures RowsTell([], [], [], device, all) && DirsWait([], [], [])
  {
  }

  /** The rows of children that are not walked. */
  lemma RowAtOnce(row: Row, n: Node, device: nat, mark: multiset<Stat>, all: multiset<Stat>)
    requires !row.pending && !row.unreadable && mark <= all && !n.Unreadable?
    requires match n
      case Link => row.kind.LinkRow? && row.bytes == Some(0)
      case Special(_) => row.kind.OtherRow? && row.bytes == Some(0)
      case Folder(dev, _, _, _) => row.kind.MountRow? && dev != device && row.bytes == None
      case File(stat) =>
        && row.kind.FileRow? && row.bytes.Some? && mark + multiset{stat} <= all
        && Distinct(mark + multiset{stat}) == Distinct(mark) + row.bytes.value
    ensures RowIs(row, n, device, mark, all)
  {
    hide Distinct;
    assert mark + multiset{} == mark;
  }

  lemma RowWalked(was: Row, row: Row, n: Node, device: nat, mark: multiset<Stat>, counted: multiset<Stat>, all: multiset<Stat>)
    requires Waits(was, n, device) && !row.pending && row.bytes.Some?
    requires row.kind.FolderRow? && (row.unreadable <==> Barred(n, device))
    requires counted == mark + Contents(n, device).files && counted <= all
    requires BytesOf(row) + Distinct(mark) == BytesOf(was) + Contents(n, device).bytes + Distinct(counted)
    ensures RowIs(row, n, device, mark, all)
  {
    hide Distinct, Barred;
    assert multiset{} + Contents(n, device).files == Contents(n, device).files;
  }

  class Scan {
    var entries: seq<Row>
    var items: nat
    var seen: set<Inode>
    ghost var counted: multiset<Stat>  // every file met so far
    ghost var nodes: seq<Node>         // the child of each row
    ghost var marks: seq<multiset<Stat>>

    constructor ()
      ensures entries == [] && seen == {} && counted == multiset{} && items == 0
    {
      entries, items, seen, counted, nodes, marks := [], 0, {}, multiset{}, [], [];
    }

    /** `_seen` holds the inodes met so far that have more than one link. */
    ghost predicate SeenIsRight()
      reads this`seen, this`counted
    {
      seen == set f | f in counted && f.nlink > 1 :: InodeOf(f)
    }

    lemma SeenAtStart()
      requires seen == {} && counted == multiset{}
      ensures SeenIsRight()
    {
    }

    /** `_count_file`: a file counts the first time one of its links is met. */
    method CountFile(stat: Stat, ghost all: multiset<Stat>) returns (bytes: nat)
      requires SeenIsRight() && Consistent(all) && counted + multiset{stat} <= all
      modifies this`seen, this`counted
      ensures SeenIsRight() && counted == old(counted) + multiset{stat}
      ensures Distinct(counted) == Distinct(old(counted)) + bytes
    {
      DistinctAdd(counted, stat);
      SeenDecides(counted, stat, all);
      counted := counted + multiset{stat};
      bytes := stat.bytes;
      if stat.nlink > 1 {
        var key := InodeOf(stat);
        if key in seen {
          bytes := 0;
        } else {
          seen := seen + {key};
        }
      }
    }

    /** One child met by the walk. */
    method Meet(child: Node, device: nat, stack: seq<Node>, total: nat, ghost all: multiset<Stat>, ghost rest: Tally, ghost goal: Goal)
      returns (newStack: seq<Node>, newTotal: nat)
      requires SeenIsRight() && Consistent(all) && goal.before + goal.tally.files <= all && AllFolders(stack)
      requires Balanced(counted, total, Plus(SumOfStack(stack, device), Plus(TallyOf(child, device), rest)), goal)
      modifies this`seen, this`counted
      ensures SeenIsRight() && AllFolders(newStack)
      ensures Balanced(counted, newTotal, Plus(SumOfStack(newStack, device), rest), goal)
      ensures SumOfStack(newStack, device).size <= SumOfStack(stack, device).size + TallyOf(child, device).size
      ensures newStack == if child.Folder? && child.dev == device then stack + [child] else stack
    {
      hide SeenIsRight, Distinct, Consistent, Contents, SumOfStack, Balanced, Plus, AllFolders;
      newStack, newTotal := stack, total;
      ghost var onStack := SumOfStack(stack, device);
      match child {
        case Folder(dev, bytes, _, _) =>
          if dev == device {
            newTotal := total + bytes;
            PushedFolder(stack, child, device);
            BalancedFolder(counted, total, onStack, bytes, Contents(child, device), rest, goal);
            newStack := stack + [child];
          } else {
            BalancedSkip(counted, total, onStack, rest, goal);
          }
        case Link =>
          BalancedSkip(counted, total, onStack, rest, goal);
        case Unreadable =>
          BalancedSkip(counted, total, onStack, rest, goal);
        case File(stat) =>
          var counts := MeetFile(stat, total, all, onStack, rest, goal);
          newTotal := total + counts;
        case Special(stat) =>
          var counts := MeetFile(stat, total, all, onStack, rest, goal);
          newTotal := total + counts;
      }
    }

    method MeetFile(stat: Stat, ghost total: nat, ghost all: multiset<Stat>, ghost onStack: Tally, ghost rest: Tally, ghost goal: Goal)
      returns (counts: nat)
      requires SeenIsRight() && Consistent(all) && goal.before + goal.tally.files <= all
      requires Balanced(counted, total, Plus(onStack, Plus(Tally(0, 1, multiset{stat}), rest)), goal)
      modifies this`seen, this`counted
      ensures SeenIsRight() && Balanced(counted, total + counts, Plus(onStack, rest), goal)
      ensures counted == old(counted) + multiset{stat} <= all && Distinct(counted) == Distinct(old(counted)) + counts
    {
      hide SeenIsRight, Distinct, Consistent, Balanced, Plus;
      BalancedFits(counted, total, onStack, stat, rest, goal, all);
      counts := CountFile(stat, all);
      BalancedFile(old(counted), total, onStack, stat, rest, goal, counts);
    }

    /** `_walk`: everything under `root` on its device, added to the row at `at`. */
    method Walk(at: nat, root: Node, device: nat, listing: Listing, ghost all: multiset<Stat>)
      requires at < |entries| && root.Folder? && root.dev == device && ListsAll(listing) && !entries[at].unreadable
      requires SeenIsRight() && Consistent(all) && counted + Contents(root, device).files <= all
      modifies this`entries, this`items, this`seen, this`counted
      ensures SeenIsRight() && counted == old(counted) + Contents(root, device).files
      ensures |entries| == |old(entries)| && entries == old(entries)[at := entries[at]]
      ensures BytesOf(entries[at]) + Distinct(old(counted)) == BytesOf(old(entries)[at]) + Contents(root, device).bytes + Distinct(counted)
      ensures entries[at].name == old(entries)[at].name && entries[at].kind == old(entries)[at].kind
      ensures !entries[at].pending && entries[at].bytes.Some? && (entries[at].unreadable <==> Barred(root, device))
    {
      hide SeenIsRight, Distinct, Consistent, TallyOf, Contents, Balanced, Plus, SumOfStack, AllFolders, Meets, Barred;
      ghost var goal := Goal(BytesOf(entries[at]), counted, Contents(root, device));
      var total := BytesOf(entries[at]);
      var stack := [root];
      BalancedStart(counted, total, root, device, goal);
      MeetsAtStart(root, device);
      while stack != []
        invariant SeenIsRight() && AllFolders(stack) && Balanced(counted, total, SumOfStack(stack, device), goal)
        invariant |entries| == |old(entries)| && entries == old(entries)[at := entries[at]]
        invariant entries[at].name == old(entries)[at].name && entries[at].kind == old(entries)[at].kind
        invariant Meets(root, device, entries[at].unreadable, stack, [])
        decreases SumOfStack(stack, device).size
      {
        var current := stack[|stack| - 1];
        ghost var size := SumOfStack(stack, device).size;
        BalancedPop(counted, total, stack, device, goal);
        MeetsAfterPop(root, device, entries[at].unreadable, stack);
        stack := stack[..|stack| - 1];
        if !current.readable {
          entries := entries[at := entries[at].(unreadable := true)];
          continue;
        }
        var children := listing(current);
        SumOfPermutation(children, current.entries, device);
        MeetsInAnyOrder(root, device, entries[at].unreadable, stack, current.entries, children);
        assert children[0..] == children;
        for i := 0 to |children|
          invariant SeenIsRight() && AllFolders(stack)
          invariant Balanced(counted, total, Plus(SumOfStack(stack, device), SumOf(children[i..], device)), goal)
          invariant SumOfStack(stack, device).size + SumOf(children[i..], device).size < size
          invariant |entries| == |old(entries)| && entries == old(entries)[at := entries[at]]
          invariant entries[at].name == old(entries)[at].name && entries[at].kind == old(entries)[at].kind
          invariant Meets(root, device, entries[at].unreadable, stack, children[i..])
        {
          SumOfRest(children, i, device);
          MeetsAfterChild(root, device, entries[at].unreadable, stack, children, i);
          items := items + 1;
          stack, total := Meet(children[i].node, device, stack, total, all, SumOf(children[i + 1..], device), goal);
          if items % PROGRESS_EVERY == 0 {
            entries := entries[at := entries[at].(bytes := Some(total))];
          }
        }
        assert children[|children|..] == [];
        PlusIsASum(SumOfStack(stack, device), NOTHING, NOTHING);
      }
      NothingMore(root, device, entries[at].unreadable);
      entries := entries[at := entries[at].(bytes := Some(total), pending := false)];
      BalancedEnd(counted, total, device, goal);
    }

    /** The row of one child; a folder on the same device is kept for the walk. */
    method List(child: Entry, device: nat, dirs: seq<Dir>, ghost all: multiset<Stat>, ghost rest: Tally, ghost goal: Goal)
      returns (newDirs: seq<Dir>)
      requires SeenIsRight() && Consistent(all) && goal.before + goal.tally.files <= all && DirsFit(dirs, entries)
      requires Balanced(counted, TotalOf(entries), Plus(SumOfDirs(dirs, device), Plus(TopTally(child.node, device), rest)), goal)
      requires RowsTell(entries, nodes, marks, device, all) && DirsWait(dirs, entries, nodes)
      modifies this
      ensures SeenIsRight() && DirsFit(newDirs, entries)
      ensures Balanced(counted, TotalOf(entries), Plus(SumOfDirs(newDirs, device), rest), goal)
      ensures RowsTell(entries, nodes, marks, device, all) && DirsWait(newDirs, entries, nodes)
      ensures NamesOf(entries) == NamesOf(old(entries)) + if child.node.Unreadable? then [] else [child.name]
      ensures nodes == old(nodes) + if child.node.Unreadable? then [] else [child.node]
    {
      hide SeenIsRight, Distinct, Consistent, Contents, Balanced, Plus, RowIs, RowsTell, DirsWait, NamesOf, Barred;
      ghost var owed, mark := SumOfDirs(dirs, device), counted;
      newDirs := dirs;
      CountedFits(counted, TotalOf(entries), owed, TopTally(child.node, device), rest, goal, all);
      var row := Row(child.name, LinkRow, Some(0), false, false);
      match child.node {
        case Unreadable =>
          BalancedSkip(counted, TotalOf(entries), owed, rest, goal);
          return;
        case Link =>
          BalancedSkip(counted, TotalOf(entries), owed, rest, goal);
          RowAtOnce(row, child.node, device, mark, all);
        case Special(_) =>
          BalancedSkip(counted, TotalOf(entries), owed, rest, goal);
          row := row.(kind := OtherRow);
          RowAtOnce(row, child.node, device, mark, all);
        case File(stat) =>
          var counts := MeetFile(stat, TotalOf(entries), all, owed, rest, goal);
          row := row.(kind := FileRow, bytes := Some(counts));
          RowAtOnce(row, child.node, device, mark, all);
        case Folder(dev, bytes, _, _) =>
          if dev != device {
            BalancedSkip(counted, TotalOf(entries), owed, rest, goal);
            row := row.(kind := MountRow, bytes := None);
            RowAtOnce(row, child.node, device, mark, all);
          } else {
            row := row.(kind := FolderRow, bytes := Some(bytes), pending := true);
            newDirs := dirs + [Dir(|entries|, child.node)];
            SumOfDirsMore(dirs, Dir(|entries|, child.node), device);
            BalancedFolder(counted, TotalOf(entries), owed, bytes, Contents(child.node, device), rest, goal);
          }
      }
      TotalOfMore(entries, row);
      NamesOfMore(entries, row);
      RowsTellMore(entries, nodes, marks, device, all, row, child.node, mark);
      DirsWaitMore(dirs, entries, nodes, row, child.node);
      entries, nodes, marks := entries + [row], nodes + [child.node], marks + [mark];
    }

    /** What a finished scan of a folder must show. */
    ghost predicate Exact(top: Node)
      requires top.Folder?
      reads this
    {
      var sum := TopSum(top.entries, top.dev);
      TotalOf(entries) == sum.bytes + Distinct(sum.files) && forall k :: 0 <= k < |entries| ==> !entries[k].pending
    }

    /**
     `_run`: rows for the children, then a walk of every folder among them. Whatever order the folders are listed
     in, the total is the bytes of the folders on the device and of each file once.
     */
    method Run(top: Option<Node>, listing: Listing) returns (r: Result<(), ScanError>)
      requires entries == [] && seen == {} && counted == multiset{} && ListsAll(listing)
      requires top.Some? && top.value.Folder? ==> Consistent(TopSum(top.value.entries, top.value.dev).files)
      modifies this
      ensures r == match top
        case None => Err(DoesNotExist)
        case Some(n) => if !n.Folder? then Err(NotAFolder) else if !n.readable then Err(CannotRead) else Ok(())
      ensures r.Err? ==> entries == []
      ensures r.Ok? ==> Exact(top.value) && NamesOf(entries) == Listed(listing(top.value))
      ensures r.Ok? ==> nodes == ListedNodes(listing(top.value))
      ensures r.Ok? ==>
        RowsTell(entries, nodes, marks, top.value.dev, TopSum(top.value.entries, top.value.dev).files)
    {
      hide SeenIsRight, Distinct, Consistent, Contents, Balanced, Plus, TopTally, TallyOf, RowsTell, DirsWait;
      if top.None? {
        return Err(DoesNotExist);
      }
      if !top.value.Folder? {
        return Err(NotAFolder);
      }
      if !top.value.readable {
        return Err(CannotRead);
      }
      var device, children := top.value.dev, listing(top.value);
      ghost var all := TopSum(top.value.entries, device).files;
      ghost var goal := Goal(0, multiset{}, TopSum(children, device));
      SumOfPermutation(children, top.value.entries, device);
      RunStart(children, device, goal);
      assert SeenIsRight() by { SeenAtStart(); }
      nodes, marks := [], [];
      var dirs := ListAll(children, device, all, goal);
      WalkAll(dirs, device, listing, all, goal);
      RunEnd(counted, TotalOf(entries), goal);
      r := Ok(());
    }

    /** The rows, child by child. */
    method ListAll(children: seq<Entry>, device: nat, ghost all: multiset<Stat>, ghost goal: Goal) returns (dirs: seq<Dir>)
      requires SeenIsRight() && Consistent(all) && goal.before + goal.tally.files <= all
      requires entries == [] && nodes == [] && marks == []
      requires Balanced(counted, TotalOf(entries), Plus(SumOfDirs([], device), TopSum(children, device)), goal)
      modifies this
      ensures SeenIsRight() && DirsFit(dirs, entries)
      ensures Balanced(counted, TotalOf(entries), SumOfDirs(dirs, device), goal)
      ensures NamesOf(entries) == Listed(children) && nodes == ListedNodes(children)
      ensures RowsTell(entries, nodes, marks, device, all) && DirsWait(dirs, entries, nodes)
    {
      hide SeenIsRight, Distinct, Consistent, Contents, Balanced, Plus, TopTally, TallyOf, RowsTell, DirsWait;
      dirs := [];
      assert children[0..] == children && children[..0] == [];
      NoRows(device, all);
      for i := 0 to |children|
        invariant SeenIsRight() && DirsFit(dirs, entries)
        invariant Balanced(counted, TotalOf(entries), Plus(SumOfDirs(dirs, device), TopSum(children[i..], device)), goal)
        invariant NamesOf(entries) == Listed(children[..i]) && nodes == ListedNodes(children[..i])
        invariant RowsTell(entries, nodes, marks, device, all) && DirsWait(dirs, entries, nodes)
      {
        TopRest(children, i, device);
        dirs := List(children[i], device, dirs, all, TopSum(children[i + 1..], device), goal);
      }
      assert children[|children|..] == [] && children[..|children|] == children;
      PlusIsASum(SumOfDirs(dirs, device), NOTHING, NOTHING);
    }

    /** The walks, folder by folder. */
    method WalkAll(dirs: seq<Dir>, device: nat, listing: Listing, ghost all: multiset<Stat>, ghost goal: Goal)
      requires SeenIsRight() && Consistent(all) && goal.before + goal.tally.files <= all && ListsAll(listing)
      requires DirsFit(dirs, entries) && Balanced(counted, TotalOf(entries), SumOfDirs(dirs, device), goal)
      requires RowsTell(entries, nodes, marks, device, all) && DirsWait(dirs, entries, nodes)
      modifies this
      ensures Balanced(counted, TotalOf(entries), NOTHING, goal) && nodes == old(nodes)
      ensures RowsTell(entries, nodes, marks, device, all)
      ensures NamesOf(entries) == NamesOf(old(entries)) && forall k :: 0 <= k < |entries| ==> !entries[k].pending
    {
      hide SeenIsRight, Distinct, Consistent, Contents, Balanced, Plus, RowIs, RowsTell, DirsWait, Waits, Barred;
      assert dirs[0..] == dirs;
      for j := 0 to |dirs|
        invariant SeenIsRight() && |entries| == |old(entries)| && DirsFit(dirs[j..], entries) && nodes == old(nodes)
        invariant Balanced(counted, TotalOf(entries), SumOfDirs(dirs[j..], device), goal)
        invariant NamesOf(entries) == NamesOf(old(entries))
        invariant RowsTell(entries, nodes, marks, device, all) && DirsWait(dirs[j..], entries, nodes)
      {
        var d := dirs[j];
        assert dirs[j..] == [d] + dirs[j + 1..] && d in dirs[j..] && dirs[j..][1..] == dirs[j + 1..];
        ghost var c, rest := Contents(d.node, device), SumOfDirs(dirs[j + 1..], device);
        assert SumOfDirs(dirs[j..], device) == Plus(Plus(Tally(0, 1, multiset{}), c), rest);
        BalancedRoom(counted, TotalOf(entries), c, rest, goal);
        ghost var was, wasCounted := entries, counted;
        FirstWaits(dirs[j..], entries, nodes, marks, device, all);
        Walk(d.at, d.node, device, listing, all);
        TotalOfChange(was, d.at, entries[d.at]);
        BalancedWalk(wasCounted, TotalOf(was), counted, TotalOf(entries), c, rest, goal);
        RowWalked(was[d.at], entries[d.at], d.node, device, wasCounted, counted, all);
        RowsTellChange(was, nodes, marks, device, all, d.at, entries[d.at], wasCounted);
        DirsWaitNext(dirs[j..], was, nodes, entries[d.at]);
        marks := marks[d.at := wasCounted];
      }
      assert dirs[|dirs|..] == [];
      NothingPending(entries, nodes);
    }
  }

  // ----- folders that are still to be walked -------------------------------------------------

  /** A folder row and the folder it stands for. */
  datatype Dir = Dir(at: nat, node: Node)

  ghost predicate DirsFit(dirs: seq<Dir>, rows: seq<Row>) {
    forall d :: d in dirs ==> d.at < |rows| && d.node.Folder?
  }

  function SumOfDirs(dirs: seq<Dir>, device: nat): Tally
    requires forall d :: d in dirs ==> d.node.Folder?
  {
    if dirs == [] then NOTHING
    else Plus(Plus(Tally(0, 1, multiset{}), Contents(dirs[0].node, device)), SumOfDirs(dirs[1..], device))
  }

  lemma {:induction false} SumOfDirsMore(dirs: seq<Dir>, d: Dir, device: nat)
    requires d.node.Folder? && forall e :: e in dirs ==> e.node.Folder?
    ensures SumOfDirs(dirs + [d], device) == Plus(SumOfDirs(dirs, device), Plus(Tally(0, 1, multiset{}), Contents(d.node, device)))
    decreases |dirs|
  {
    hide Plus, Contents;
    var c := Plus(Tally(0, 1, multiset{}), Contents(d.node, device));
    PlusIsASum(c, NOTHING, NOTHING);
    if dirs != [] {
      assert (dirs + [d])[1..] == dirs[1..] + [d];
      SumOfDirsMore(dirs[1..], d, device);
      PlusIsASum(Plus(Tally(0, 1, multiset{}), Contents(dirs[0].node, device)), SumOfDirs(dirs[1..], device), c);
    } else {
      assert (dirs + [d])[1..] == [];
    }
  }

  lemma BalancedWalk(was: multiset<Stat>, total: nat, counted: multiset<Stat>, newTotal: nat, c: Tally, rest: Tally, goal: Goal)
    requires Balanced(was, total, Plus(Plus(Tally(0, 1, multiset{}), c), rest), goal)
    requires counted == was + c.files && newTotal + Distinct(was) == total + c.bytes + Distinct(counted)
    ensures Balanced(counted, newTotal, rest, goal)
  {
    hide Distinct;
    assert was + Plus(Plus(Tally(0, 1, multiset{}), c), rest).files == counted + rest.files;
  }

  lemma BalancedRoom(was: multiset<Stat>, total: nat, c: Tally, rest: Tally, goal: Goal)
    requires Balanced(was, total, Plus(Plus(Tally(0, 1, multiset{}), c), rest), goal)
    ensures was + c.files <= goal.before + goal.tally.files
  {
    hide Distinct;
    assert was + Plus(Plus(Tally(0, 1, multiset{}), c), rest).files == (was + c.files) + rest.files;
  }

  lemma CountedFits(counted: multiset<Stat>, total: nat, owed: Tally, child: Tally, rest: Tally, goal: Goal,
    all: multiset<Stat>)
    requires Balanced(counted, total, Plus(owed, Plus(child, rest)), goal) && goal.before + goal.tally.files <= all
    ensures counted <= all
  {
    hide Distinct;
    assert counted <= counted + Plus(owed, Plus(child, rest)).files;
  }

  lemma FirstWaits(dirs: seq<Dir>, rows: seq<Row>, nodes: seq<Node>, marks: seq<multiset<Stat>>, device: nat,
    all: multiset<Stat>)
    requires dirs != [] && DirsWait(dirs, rows, nodes) && RowsTell(rows, nodes, marks, device, all)
    ensures var d := dirs[0];
      && d.at < |rows| == |marks| == |nodes| && nodes[d.at] == d.node
      && Waits(rows[d.at], d.node, device)
      && d.node.Folder? && d.node.dev == device && rows[d.at].kind.FolderRow? && !rows[d.at].unreadable
  {
    hide RowIs;
  }

  /** The children that are listed. */
  function ListedNodes(entries: seq<Entry>): seq<Node> {
    if entries == [] then []
    else
      var last := entries[|entries| - 1];
      ListedNodes(entries[..|entries| - 1]) + if last.node.Unreadable? then [] else [last.node]
  }

  /** The names a scan lists: every entry whose `stat` works. */
  function Listed(entries: seq<Entry>): seq<string> {
    if entries == [] then []
    else
      var last := entries[|entries| - 1];
      Listed(entries[..|entries| - 1]) + if last.node.Unreadable? then [] else [last.name]
  }

  function NamesOf(rows: seq<Row>): (r: seq<string>)
    ensures |r| == |rows| && forall i :: 0 <= i < |rows| ==> r[i] == rows[i].name
  {
    seq(|rows|, i requires 0 <= i < |rows| => rows[i].name)
  }

  lemma NamesOfMore(rows: seq<Row>, row: Row)
    ensures NamesOf(rows + [row]) == NamesOf(rows) + [row.name]
  {
  }

  lemma TopRest(children: seq<Entry>, i: nat, device: nat)
    requires i < |children|
    ensures TopSum(children[i..], device) == Plus(TopTally(children[i].node, device), TopSum(children[i + 1..], device))
    ensures Listed(children[..i + 1]) == Listed(children[..i]) + if children[i].node.Unreadable? then [] else [children[i].name]
    ensures ListedNodes(children[..i + 1]) ==
      ListedNodes(children[..i]) + if children[i].node.Unreadable? then [] else [children[i].node]
  {
    hide TopTally;
    assert children[i..][1..] == children[i + 1..];
    assert children[..i + 1][..i] == children[..i];
  }

  // ----- what a walk has counted and still owes -----------------------------------------------

  /** What a walk sets out from, and what is to be added to it. */
  datatype Goal = Goal(start: nat, before: multiset<Stat>, tally: Tally)

  /** What is counted and what is owed add up to the goal. */
  ghost predicate Balanced(counted: multiset<Stat>, total: nat, owed: Tally, goal: Goal) {
    && counted + owed.files == goal.before + goal.tally.files
    && total + owed.bytes + Distinct(goal.before) == goal.start + goal.tally.bytes + Distinct(counted)
  }

  lemma BalancedStart(counted: multiset<Stat>, total: nat, root: Node, device: nat, goal: Goal)
    requires root.Folder? && goal == Goal(total, counted, Contents(root, device))
    ensures AllFolders([root]) && Balanced(counted, total, SumOfStack([root], device), goal)
  {
    StackPush([], root, device);
    assert [] + [root] == [root];
    var c := Contents(root, device);
    assert Plus(NOTHING, Plus(Tally(0, 1, multiset{}), c)).files == c.files;
  }

  lemma RunStart(children: seq<Entry>, device: nat, goal: Goal)
    requires goal == Goal(0, multiset{}, TopSum(children, device))
    ensures Balanced(multiset{}, 0, Plus(SumOfDirs([], device), TopSum(children, device)), goal)
    ensures goal.before + goal.tally.files <= goal.tally.files
  {
    PlusIsASum(TopSum(children, device), NOTHING, NOTHING);
    assert multiset{} + goal.tally.files == goal.tally.files;
  }

  lemma RunEnd(counted: multiset<Stat>, total: nat, goal: Goal)
    requires Balanced(counted, total, NOTHING, goal) && goal.start == 0 && goal.before == multiset{}
    ensures total == goal.tally.bytes + Distinct(goal.tally.files)
  {
    assert counted + multiset{} == counted && multiset{} + goal.tally.files == goal.tally.files;
    assert Distinct(goal.before) == SumBytes({}) == 0 by { assert (set f | f in goal.before) == {}; }
  }

  lemma BalancedEnd(counted: multiset<Stat>, total: nat, device: nat, goal: Goal)
    requires Balanced(counted, total, SumOfStack([], device), goal)
    ensures counted == goal.before + goal.tally.files
    ensures total + Distinct(goal.before) == goal.start + goal.tally.bytes + Distinct(counted)
  {
    assert counted + multiset{} == counted;
  }

  lemma BalancedPop(counted: multiset<Stat>, total: nat, stack: seq<Node>, device: nat, goal: Goal)
    requires stack != [] && AllFolders(stack) && Balanced(counted, total, SumOfStack(stack, device), goal)
    ensures var (current, rest) := (stack[|stack| - 1], stack[..|stack| - 1]);
      && current.Folder? && AllFolders(rest)
      && (if current.readable then
            && Balanced(counted, total, Plus(SumOfStack(rest, device), SumOf(current.entries, device)), goal)
            && SumOfStack(rest, device).size + SumOf(current.entries, device).size < SumOfStack(stack, device).size
          else
            && Balanced(counted, total, SumOfStack(rest, device), goal)
            && SumOfStack(rest, device).size < SumOfStack(stack, device).size)
  {
    var current, rest := stack[|stack| - 1], stack[..|stack| - 1];
    assert current in stack;
    var (r, c) := (SumOfStack(rest, device), Contents(current, device));
    assert Plus(r, Plus(Tally(0, 1, multiset{}), c)).files == Plus(r, c).files;
    assert c == NOTHING ==> Plus(r, c).files == r.files;
  }

  lemma SumOfRest(children: seq<Entry>, i: nat, device: nat)
    requires i < |children|
    ensures SumOf(children[i..], device) == Plus(TallyOf(children[i].node, device), SumOf(children[i + 1..], device))
    ensures SumOf(children[i..], device).size
      == TallyOf(children[i].node, device).size + SumOf(children[i + 1..], device).size
  {
    hide TallyOf;
    assert children[i..][1..] == children[i + 1..];
  }

  lemma PushedFolder(stack: seq<Node>, n: Node, device: nat)
    requires n.Folder? && n.dev == device && AllFolders(stack)
    ensures AllFolders(stack + [n])
    ensures SumOfStack(stack + [n], device) == Plus(SumOfStack(stack, device), Plus(Tally(0, 1, multiset{}), Contents(n, device)))
    ensures TallyOf(n, device) == Plus(Tally(n.bytes, 1, multiset{}), Contents(n, device))
    ensures SumOfStack(stack + [n], device).size == SumOfStack(stack, device).size + TallyOf(n, device).size
  {
    StackPush(stack, n, device);
  }

  lemma BalancedFolder(counted: multiset<Stat>, total: nat, onStack: Tally, bytes: nat, c: Tally, rest: Tally, goal: Goal)
    requires Balanced(counted, total, Plus(onStack, Plus(Plus(Tally(bytes, 1, multiset{}), c), rest)), goal)
    ensures Balanced(counted, total + bytes, Plus(Plus(onStack, Plus(Tally(0, 1, multiset{}), c)), rest), goal)
  {
    hide Distinct;
    assert Plus(onStack, Plus(Plus(Tally(bytes, 1, multiset{}), c), rest)).files
        == Plus(Plus(onStack, Plus(Tally(0, 1, multiset{}), c)), rest).files;
  }

  lemma BalancedSkip(counted: multiset<Stat>, total: nat, onStack: Tally, rest: Tally, goal: Goal)
    requires Balanced(counted, total, Plus(onStack, Plus(Tally(0, 1, multiset{}), rest)), goal)
    ensures Balanced(counted, total, Plus(onStack, rest), goal)
  {
    hide Distinct;
    assert Plus(onStack, Plus(Tally(0, 1, multiset{}), rest)).files == Plus(onStack, rest).files;
  }

  lemma BalancedFits(counted: multiset<Stat>, total: nat, onStack: Tally, stat: Stat, rest: Tally, goal: Goal, all: multiset<Stat>)
    requires Balanced(counted, total, Plus(onStack, Plus(Tally(0, 1, multiset{stat}), rest)), goal)
    requires goal.before + goal.tally.files <= all
    ensures counted + multiset{stat} <= all
  {
    hide Distinct;
    var owed := Plus(onStack, Plus(Tally(0, 1, multiset{stat}), rest)).files;
    assert multiset{stat} <= owed;
    assert counted + multiset{stat} <= counted + owed;
  }

  lemma BalancedFile(counted: multiset<Stat>, total: nat, onStack: Tally, stat: Stat, rest: Tally, goal: Goal, counts: nat)
    requires Balanced(counted, total, Plus(onStack, Plus(Tally(0, 1, multiset{stat}), rest)), goal)
    requires Distinct(counted + multiset{stat}) == Distinct(counted) + counts
    ensures Balanced(counted + multiset{stat}, total + counts, Plus(onStack, rest), goal)
  {
    hide Distinct;
    assert counted + Plus(onStack, Plus(Tally(0, 1, multiset{stat}), rest)).files
        == (counted + multiset{stat}) + Plus(onStack, rest).files;
  }

  lemma SeenDecides(counted: multiset<Stat>, stat: Stat, all: multiset<Stat>)
    requires Consistent(all) && counted + multiset{stat} <= all
    ensures stat.nlink <= 1 ==> stat !in counted
    ensures stat.nlink > 1 ==> (stat in counted <==> exists f :: f in counted && f.nlink > 1 && InodeOf(f) == InodeOf(stat))
  {
    assert all[stat] >= counted[stat] + 1;
    assert forall f :: f in counted ==> all[f] > 0;
  }
}
