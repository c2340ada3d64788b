/** Reading a domain name with compression pointers (`capture_worker.py`, `dns_name`; section 4.1.4 of RFC 1035). */
module DnsName {
  import opened Wrappers
  import opened NetBytes

  const MAX_JUMPS := 20

  datatype Truncated = Truncated

  /** The labels read, and the offset just past the name in its own record. */
  type Name = Result<(seq<Bytes>, nat), Truncated>

  function Pointer(data: Bytes, pos: nat): nat
    requires pos + 1 < |data| && data[pos] >= 0xC0
  {
    256 * (data[pos] as int - 0xC0) + data[pos + 1]
  }

  /** Label by label from `pos`, when `depth` pointers have been followed. */
  function Walk(data: Bytes, pos: nat, depth: nat, labels: seq<Bytes>, jumped: bool, end: nat): Name
    decreases if depth < MAX_JUMPS then MAX_JUMPS - depth else 0, if pos < |data| then |data| - pos else 0
  {
    if depth >= MAX_JUMPS then Ok((labels, end))
    else if pos >= |data| then Err(Truncated)
    else if data[pos] == 0 then Ok((labels, if jumped then end else pos + 1))
    else if data[pos] >= 0xC0 then
      if pos + 1 >= |data| then Err(Truncated)
      else Walk(data, Pointer(data, pos), depth + 1, labels, true, if jumped then end else pos + 2)
    else
      var next := pos + 1 + data[pos];
      Walk(data, next, depth, labels + [Slice(data, pos + 1, next)], jumped, if jumped then end else next)
  }

  /** `dns_name`: the loop, which stops on every input. */
  method ReadName(data: Bytes, start: nat) returns (r: Name)
    ensures r == Walk(data, start, 0, [], false, start)
  {
    var labels: seq<Bytes>, jumped := [], false;
    var end: nat, pos: nat, depth: nat := start, start, 0;
    while depth < MAX_JUMPS
      invariant depth <= MAX_JUMPS
      invariant Walk(data, start, 0, [], false, start) == Walk(data, pos, depth, labels, jumped, end)
      decreases MAX_JUMPS - depth, if pos < |data| then |data| - pos else 0
    {
      if pos >= |data| {
        return Err(Truncated);
      }
      var length := data[pos];
      if length == 0 {
        if !jumped {
          end := pos + 1;
        }
        return Ok((labels, end));
      }
      if length >= 0xC0 {
        if pos + 1 >= |data| {
          return Err(Truncated);
        }
        var pointer := Pointer(data, pos);
        if !jumped {
          end := pos + 2;
        }
        jumped, pos, depth := true, pointer, depth + 1;
        continue;
      }
      labels := labels + [Slice(data, pos + 1, pos + 1 + length)];
      pos := pos + 1 + length;
      if !jumped {
        end := pos;
      }
    }
    return Ok((labels, end));
  }

  // ----- bounds -----------------------------------------------------------------------

  lemma {:induction false} WalkEnd(data: Bytes, pos: nat, depth: nat, labels: seq<Bytes>, jumped: bool, end: nat, start: nat)
    requires if jumped then start < end <= |data| else start <= pos == end && depth == 0
    ensures var r := Walk(data, pos, depth, labels, jumped, end); r.Ok? ==> start < r.value.1 <= |data|
    decreases if depth < MAX_JUMPS then MAX_JUMPS - depth else 0, if pos < |data| then |data| - pos else 0
  {
    hide Pointer, Slice;
    if depth < MAX_JUMPS && pos < |data| && data[pos] != 0 {
      if data[pos] >= 0xC0 {
        if pos + 1 < |data| {
          WalkEnd(data, Pointer(data, pos), depth + 1, labels, true, if jumped then end else pos + 2, start);
        }
      } else {
        var next := pos + 1 + data[pos];
        WalkEnd(data, next, depth, labels + [Slice(data, pos + 1, next)], jumped, if jumped then end else next, start);
      }
    }
  }

  /** On any bytes at all, a name that is read ends after its start and inside the message. */
  lemma NameEndsInside(data: Bytes, start: nat)
    ensures var r := Walk(data, start, 0, [], false, start); r.Ok? ==> start < r.value.1 <= |data|
  {
    WalkEnd(data, start, 0, [], false, start, start);
  }

  // ----- well-formed names ----------------------------------------------------------------

  /** At `pos` the message encodes `labels`, through exactly `jumps` pointers. */
  predicate NameAt(data: Bytes, pos: nat, labels: seq<Bytes>, jumps: nat)
    decreases jumps, |labels|
  {
    pos < |data| &&
    if data[pos] == 0 then labels == [] && jumps == 0
    else if data[pos] >= 0xC0 then
      pos + 1 < |data| && jumps > 0 && NameAt(data, Pointer(data, pos), labels, jumps - 1)
    else
      data[pos] < 64 && labels != [] && pos + 1 + data[pos] <= |data| &&
      labels[0] == data[pos + 1..pos + 1 + data[pos]] && NameAt(data, pos + 1 + data[pos], labels[1..], jumps)
  }

  /** The offset just past the name in its own record: past the zero, or past the first pointer. */
  function RecordEnd(data: Bytes, pos: nat): nat
    decreases |data| - pos
  {
    if pos >= |data| then pos
    else if data[pos] == 0 then pos + 1
    else if data[pos] >= 0xC0 then pos + 2
    else RecordEnd(data, pos + 1 + data[pos])
  }

  /** The labels that come before the `left`-th pointer. */
  function LabelsWithin(data: Bytes, pos: nat, labels: seq<Bytes>, jumps: nat, left: nat): seq<Bytes>
    requires NameAt(data, pos, labels, jumps) && left > 0
    decreases jumps, |labels|
  {
    if data[pos] == 0 then []
    else if data[pos] >= 0xC0 then
      if left == 1 then [] else LabelsWithin(data, Pointer(data, pos), labels, jumps - 1, left - 1)
    else [labels[0]] + LabelsWithin(data, pos + 1 + data[pos], labels[1..], jumps, left)
  }

  lemma {:induction false} WalkReadsLabels(data: Bytes, pos: nat, depth: nat, before: seq<Bytes>, jumped: bool, end: nat,
                                           labels: seq<Bytes>, jumps: nat)
    requires NameAt(data, pos, labels, jumps) && depth < MAX_JUMPS
    ensures Walk(data, pos, depth, before, jumped, end) == Ok((
      before + LabelsWithin(data, pos, labels, jumps, MAX_JUMPS - depth), if jumped then end else RecordEnd(data, pos)))
    decreases jumps, |labels|
  {
    if data[pos] == 0 {
      assert before + [] == before;
    } else if data[pos] >= 0xC0 {
      var e := if jumped then end else pos + 2;
      if depth + 1 < MAX_JUMPS {
        WalkReadsLabels(data, Pointer(data, pos), depth + 1, before, true, e, labels, jumps - 1);
      } else {
        assert before + [] == before;
      }
    } else {
      var next := pos + 1 + data[pos];
      WalkReadsLabels(data, next, depth, before + [labels[0]], jumped, if jumped then end else next, labels[1..], jumps);
      var rest := LabelsWithin(data, next, labels[1..], jumps, MAX_JUMPS - depth);
      assert before + [labels[0]] + rest == before + ([labels[0]] + rest);
    }
  }

  lemma {:induction false} LabelsWithinAll(data: Bytes, pos: nat, labels: seq<Bytes>, jumps: nat, left: nat)
    requires NameAt(data, pos, labels, jumps) && left > 0
    ensures LabelsWithin(data, pos, labels, jumps, left) <= labels
    ensures jumps < left ==> LabelsWithin(data, pos, labels, jumps, left) == labels
    decreases jumps, |labels|
  {
    if data[pos] != 0 {
      if data[pos] >= 0xC0 {
        if left > 1 {
          LabelsWithinAll(data, Pointer(data, pos), labels, jumps - 1, left - 1);
        }
      } else {
        LabelsWithinAll(data, pos + 1 + data[pos], labels[1..], jumps, left);
        assert labels == [labels[0]] + labels[1..];
      }
    }
  }

  /** Where the `left`-th pointer leads, labels being passed over; `None` when the name ends before it. */
  function Behind(data: Bytes, pos: nat, left: nat): Option<nat>
    decreases left, |data| - pos
  {
    if left == 0 then Some(pos)
    else if pos >= |data| || data[pos] == 0 then None
    else if data[pos] >= 0xC0 then
      if pos + 1 >= |data| then None else Behind(data, Pointer(data, pos), left - 1)
    else Behind(data, pos + 1 + data[pos], left)
  }

  lemma {:induction false} OneName(data: Bytes, pos: nat, a: seq<Bytes>, b: seq<Bytes>, jumps: nat)
    requires NameAt(data, pos, a, jumps) && NameAt(data, pos, b, jumps)
    ensures a == b
    decreases jumps, |a|
  {
    if data[pos] != 0 {
      if data[pos] >= 0xC0 {
        OneName(data, Pointer(data, pos), a, b, jumps - 1);
      } else {
        OneName(data, pos + 1 + data[pos], a[1..], b[1..], jumps);
        assert a == [a[0]] + a[1..] && b == [b[0]] + b[1..];
      }
    }
  }

  lemma {:induction false} NothingBehind(data: Bytes, pos: nat, labels: seq<Bytes>, jumps: nat, left: nat)
    requires NameAt(data, pos, labels, jumps) && left > 0
    ensures Behind(data, pos, left).Some? <==> left <= jumps
    ensures LabelsWithin(data, pos, labels, jumps, left) == labels <==>
      left <= jumps ==> NameAt(data, Behind(data, pos, left).value, [], jumps - left)
    decreases jumps, |labels|
  {
    if data[pos] == 0 {
    } else if data[pos] >= 0xC0 {
      var target := Pointer(data, pos);
      if left > 1 {
        NothingBehind(data, target, labels, jumps - 1, left - 1);
      } else if NameAt(data, target, [], jumps - 1) {
        OneName(data, target, labels, [], jumps - 1);
      }
    } else {
      var next := pos + 1 + data[pos];
      NothingBehind(data, next, labels[1..], jumps, left);
      assert labels == [labels[0]] + labels[1..];
      assert ([labels[0]] + LabelsWithin(data, next, labels[1..], jumps, left))[1..]
          == LabelsWithin(data, next, labels[1..], jumps, left);
    }
  }

  /**
   A well-formed name is read as the labels before its twentieth pointer, in order, with the offset just past it in
   its own record. These are all of its labels exactly when it has at most nineteen pointers, or no label stands behind
   the twentieth: only further pointers and the zero.
   */
  lemma WellFormedNameIsRead(data: Bytes, start: nat, labels: seq<Bytes>, jumps: nat)
    requires NameAt(data, start, labels, jumps)
    ensures var seen := LabelsWithin(data, start, labels, jumps, MAX_JUMPS);
      && Walk(data, start, 0, [], false, start) == Ok((seen, RecordEnd(data, start)))
      && seen <= labels
      && (seen == labels <==>
            jumps < MAX_JUMPS ||
            (Behind(data, start, MAX_JUMPS).Some? &&
             NameAt(data, Behind(data, start, MAX_JUMPS).value, [], jumps - MAX_JUMPS)))
  {
    NothingBehind(data, start, labels, jumps, MAX_JUMPS);
    WalkReadsLabels(data, start, 0, [], false, start, labels, jumps);
    LabelsWithinAll(data, start, labels, jumps, MAX_JUMPS);
    var seen := LabelsWithin(data, start, labels, jumps, MAX_JUMPS);
    assert [] + seen == seen;
  }

  /** Twenty pointers, each to the next, and a label behind the last: the label is lost. */
  function Chain(word: Bytes): Bytes
    requires IsLabel(word)
  {
    var pointers: Bytes := seq(2 * MAX_JUMPS, i requires 0 <= i < 2 * MAX_JUMPS => if i % 2 == 0 then 0xC0 else i + 1);
    pointers + Write([word])
  }

  lemma {:induction false} ChainNames(word: Bytes, i: nat)
    requires IsLabel(word) && i <= MAX_JUMPS
    ensures NameAt(Chain(word), 2 * i, [word], MAX_JUMPS - i)
    decreases MAX_JUMPS - i
  {
    var data := Chain(word);
    if i < MAX_JUMPS {
      assert data[2 * i] == 0xC0 && data[2 * i + 1] == 2 * i + 2;
      ChainNames(word, i + 1);
    } else {
      assert data == data[..2 * MAX_JUMPS] + Write([word]) + [];
      WrittenNameIsThere(data[..2 * MAX_JUMPS], [word], []);
    }
  }

  lemma LongChainLosesLabel(word: Bytes)
    requires IsLabel(word)
    ensures NameAt(Chain(word), 0, [word], MAX_JUMPS)
    ensures Walk(Chain(word), 0, 0, [], false, 0) == Ok(([], 2))
  {
    var data := Chain(word);
    ChainNames(word, 0);
    WellFormedNameIsRead(data, 0, [word], MAX_JUMPS);
    ChainBehind(word, 0);
    var target := 2 * MAX_JUMPS;
    assert data == data[..target] + Write([word]) + [];
    WrittenNameIsThere(data[..target], [word], []);
    assert !NameAt(data, target, [], 0);
    assert data[0] == 0xC0;
    OneLabelOrNone(LabelsWithin(data, 0, [word], MAX_JUMPS, MAX_JUMPS), word);
  }

  lemma OneLabelOrNone(seen: seq<Bytes>, word: Bytes)
    requires seen <= [word] && seen != [word]
    ensures seen == []
  {
  }

  lemma {:induction false} ChainBehind(word: Bytes, i: nat)
    requires IsLabel(word) && i <= MAX_JUMPS
    ensures Behind(Chain(word), 2 * i, MAX_JUMPS - i) == Some(2 * MAX_JUMPS)
    decreases MAX_JUMPS - i
  {
    if i < MAX_JUMPS {
      assert Chain(word)[2 * i] == 0xC0 && Chain(word)[2 * i + 1] == 2 * i + 2;
      ChainBehind(word, i + 1);
    }
  }

  // ----- writing names --------------------------------------------------------------------

  predicate IsLabel(word: Bytes) { 0 < |word| < 64 }

  /** Labels, and what the name ends with. */
  function WriteOnto(labels: seq<Bytes>, ending: Bytes): Bytes
    requires forall word :: word in labels ==> IsLabel(word)
  {
    if labels == [] then ending
    else
      assert labels[0] in labels && IsLabel(labels[0]);
      var head: Bytes := [|labels[0]|];
      head + labels[0] + WriteOnto(labels[1..], ending)
  }

  /** A name without pointers. */
  function Write(labels: seq<Bytes>): Bytes
    requires forall word :: word in labels ==> IsLabel(word)
  {
    WriteOnto(labels, [0])
  }

  /** A pointer: two bits to say so, and fourteen for the target. */
  function PointTo(target: nat): Bytes
    requires target < 0x4000
  {
    [0xC0 + target / 256, target % 256]
  }

  lemma {:induction false} WrittenNameIsThere(before: Bytes, labels: seq<Bytes>, after: Bytes)
    requires forall word :: word in labels ==> IsLabel(word)
    ensures var data := before + Write(labels) + after;
      NameAt(data, |before|, labels, 0) && RecordEnd(data, |before|) == |before| + |Write(labels)|
    decreases |labels|
  {
    var data := before + Write(labels) + after;
    if labels != [] {
      var word := labels[0];
      assert IsLabel(word);
      var head: Bytes := [|word|];
      var next := before + head + word;
      assert data == next + Write(labels[1..]) + after;
      WrittenNameIsThere(next, labels[1..], after);
      assert data[|before|] == |word| && data[|before| + 1..|before| + 1 + |word|] == word;
    }
  }

  /** Writing a name anywhere in a message and reading it there gives the labels back, and where they end. */
  lemma NameRoundTrip(before: Bytes, labels: seq<Bytes>, after: Bytes)
    requires forall word :: word in labels ==> IsLabel(word)
    ensures Walk(before + Write(labels) + after, |before|, 0, [], false, |before|)
      == Ok((labels, |before| + |Write(labels)|))
  {
    WrittenNameIsThere(before, labels, after);
    WellFormedNameIsRead(before + Write(labels) + after, |before|, labels, 0);
  }

  lemma PointerIsTarget(before: Bytes, target: nat, after: Bytes)
    requires target < 0x4000
    ensures var data := before + PointTo(target) + after;
      |data| > |before| + 1 && data[|before|] >= 0xC0 && Pointer(data, |before|) == target
  {
    var data := before + PointTo(target) + after;
    assert data[|before|] == 0xC0 + target / 256 && data[|before| + 1] == target % 256;
  }

  lemma LabelInFront(data: Bytes, pos: nat, word: Bytes, labels: seq<Bytes>, jumps: nat)
    requires IsLabel(word) && pos + 1 + |word| <= |data| && data[pos] == |word|
    requires data[pos + 1..pos + 1 + |word|] == word && NameAt(data, pos + 1 + |word|, labels, jumps)
    ensures NameAt(data, pos, [word] + labels, jumps) && RecordEnd(data, pos) == RecordEnd(data, pos + 1 + |word|)
  {
    assert ([word] + labels)[1..] == labels;
  }

  lemma PointerInFront(before: Bytes, target: nat, after: Bytes, labels: seq<Bytes>)
    requires target < 0x4000 && NameAt(before + PointTo(target) + after, target, labels, 0)
    ensures var data := before + PointTo(target) + after;
      NameAt(data, |before|, labels, 1) && RecordEnd(data, |before|) == |before| + 2
  {
    hide Pointer;
    PointerIsTarget(before, target, after);
  }

  lemma {:induction false} LabelsThenPointer(before: Bytes, heads: seq<Bytes>, target: nat, after: Bytes, tail: seq<Bytes>)
    requires (forall word :: word in heads ==> IsLabel(word)) && target < 0x4000
    requires NameAt(before + WriteOnto(heads, PointTo(target)) + after, target, tail, 0)
    ensures var data := before + WriteOnto(heads, PointTo(target)) + after;
      && NameAt(data, |before|, heads + tail, 1)
      && RecordEnd(data, |before|) == |before| + |WriteOnto(heads, PointTo(target))|
    decreases |heads|
  {
    hide NameAt, RecordEnd;
    var data := before + WriteOnto(heads, PointTo(target)) + after;
    if heads == [] {
      PointerInFront(before, target, after, tail);
      assert heads + tail == tail;
    } else {
      var word := heads[0];
      assert IsLabel(word);
      var head: Bytes := [|word|];
      var next := before + head + word;
      assert data == next + WriteOnto(heads[1..], PointTo(target)) + after;
      LabelsThenPointer(next, heads[1..], target, after, tail);
      LabelInFront(data, |before|, word, heads[1..] + tail, 1);
      assert heads + tail == [word] + (heads[1..] + tail);
    }
  }

  /**
   Compression: labels that end in a pointer to a name written earlier are read as those labels and then that name, and
   the record goes on behind the pointer.
   */
  lemma CompressedRoundTrip(before: Bytes, tail: seq<Bytes>, middle: Bytes, heads: seq<Bytes>, after: Bytes)
    requires (forall word :: word in tail ==> IsLabel(word)) && (forall word :: word in heads ==> IsLabel(word))
    requires |before| < 0x4000
    ensures var start := |before + Write(tail) + middle|;
      var name := WriteOnto(heads, PointTo(|before|));
      Walk(before + Write(tail) + middle + name + after, start, 0, [], false, start) == Ok((heads + tail, start + |name|))
  {
    hide Write, WriteOnto, NameAt, Walk, PointTo;
    var name := WriteOnto(heads, PointTo(|before|));
    var data := before + Write(tail) + middle + name + after;
    assert data == before + Write(tail) + (middle + name + after);
    WrittenNameIsThere(before, tail, middle + name + after);
    LabelsThenPointer(before + Write(tail) + middle, heads, |before|, after, tail);
    WellFormedNameIsRead(data, |before + Write(tail) + middle|, heads + tail, 1);
  }
}
