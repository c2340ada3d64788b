/**
 The kernel filter of the network watcher (`netwatch_worker.py`): a table of classic BPF instructions with absolute
 jump targets, assembled into instructions with relative ones.
 */
module BpfFilter {
  import opened Wrappers
  import opened NetBytes

  const LD_H_ABS := 0x28
  const LD_B_ABS := 0x30
  const LD_H_IND := 0x48
  const LDX_MSH := 0xB1
  const JEQ := 0x15
  const JSET := 0x45
  const RET_K := 0x06
  const ACCEPT_BYTES := 262144

  const REJECT := 14
  const ACCEPT := 15

  /** An instruction as the kernel takes it: jump offsets count from the next instruction. */
  datatype Instr = Instr(code: nat, jt: int, jf: int, k: nat)

  /** A row of the table: jump targets are positions, `None` is the next instruction. */
  datatype Row = Row(code: nat, k: nat, ifTrue: Option<nat>, ifFalse: Option<nat>)

  // ----- arithmetic -------------------------------------------------------------------

  /** Bitwise and. */
  function And(a: nat, b: nat): nat {
    if a == 0 || b == 0 then 0 else 2 * And(a / 2, b / 2) + (if a % 2 == 1 && b % 2 == 1 then 1 else 0)
  }

  // ----- what an instruction does -----------------------------------------------------

  /** The registers after a load; `None` when it reads past the end of the frame. */
  function Load(frame: Bytes, code: nat, k: nat, a: nat, x: nat): Option<(nat, nat)> {
    if code == LD_H_ABS then
      match Load16(frame, k) case Some(v) => Some((v, x)) case None => None
    else if code == LD_B_ABS then
      match Load8(frame, k) case Some(v) => Some((v, x)) case None => None
    else if code == LD_H_IND then
      match Load16(frame, x + k) case Some(v) => Some((v, x)) case None => None
    else
      match Load8(frame, k) case Some(v) => Some((a, 4 * And(v, 0xF))) case None => None
  }

  predicate IsLoad(code: nat) {
    code == LD_H_ABS || code == LD_B_ABS || code == LD_H_IND || code == LDX_MSH
  }

  predicate IsJump(code: nat) { code == JEQ || code == JSET }

  predicate Taken(code: nat, k: nat, a: nat) {
    if code == JEQ then a == k else And(a, k) != 0
  }

  /** How many bytes the program accepts of a frame: 0 rejects it, and so does a load past its end. */
  function Exec(program: seq<Instr>, frame: Bytes, pc: nat, a: nat, x: nat): nat
    decreases |program| - pc
  {
    if pc >= |program| then 0
    else
      var i := program[pc];
      if i.code == RET_K then i.k
      else if IsLoad(i.code) then
        match Load(frame, i.code, i.k, a, x)
        case None => 0
        case Some(r) => Exec(program, frame, pc + 1, r.0, r.1)
      else if IsJump(i.code) then
        var offset := if Taken(i.code, i.k, a) then i.jt else i.jf;
        if offset < 0 then 0 else Exec(program, frame, pc + 1 + offset, a, x)
      else 0
  }

  predicate IsForward(table: seq<Row>) {
    forall pc :: 0 <= pc < |table| ==>
      (table[pc].ifTrue.Some? ==> table[pc].ifTrue.value > pc) && (table[pc].ifFalse.Some? ==> table[pc].ifFalse.value > pc)
  }

  function Target(t: Option<nat>, pc: nat): nat {
    match t case Some(v) => v case None => pc + 1
  }

  /** The same machine on a table, jumping to positions. */
  function ExecTable(table: seq<Row>, frame: Bytes, pc: nat, a: nat, x: nat): nat
    requires IsForward(table)
    decreases |table| - pc
  {
    if pc >= |table| then 0
    else
      var row := table[pc];
      if row.code == RET_K then row.k
      else if IsLoad(row.code) then
        match Load(frame, row.code, row.k, a, x)
        case None => 0
        case Some(r) => ExecTable(table, frame, pc + 1, r.0, r.1)
      else if IsJump(row.code) then
        ExecTable(table, frame, Target(if Taken(row.code, row.k, a) then row.ifTrue else row.ifFalse, pc), a, x)
      else 0
  }

  // ----- assembling -----------------------------------------------------------------

  function Offset(t: Option<nat>, pc: nat): int {
    match t case Some(v) => v - pc - 1 case None => 0
  }

  function Assemble(table: seq<Row>): (program: seq<Instr>)
    ensures |program| == |table|
    ensures forall pc :: 0 <= pc < |table| ==>
      program[pc] == Instr(table[pc].code, Offset(table[pc].ifTrue, pc), Offset(table[pc].ifFalse, pc), table[pc].k)
  {
    seq(|table|, pc requires 0 <= pc < |table| =>
      Instr(table[pc].code, Offset(table[pc].ifTrue, pc), Offset(table[pc].ifFalse, pc), table[pc].k))
  }

  /** Relative jumps mean what the absolute ones meant, in every table whose jumps go forward. */
  lemma {:induction false} AssembleKeepsMeaning(table: seq<Row>, frame: Bytes, pc: nat, a: nat, x: nat)
    requires IsForward(table)
    ensures Exec(Assemble(table), frame, pc, a, x) == ExecTable(table, frame, pc, a, x)
    decreases |table| - pc
  {
    if pc < |table| {
      var row := table[pc];
      if row.code == RET_K {
      } else if IsLoad(row.code) {
        var r := Load(frame, row.code, row.k, a, x);
        if r.Some? {
          AssembleKeepsMeaning(table, frame, pc + 1, r.value.0, r.value.1);
        }
      } else if IsJump(row.code) {
        AssembleKeepsMeaning(table, frame, Target(if Taken(row.code, row.k, a) then row.ifTrue else row.ifFalse, pc), a, x);
      }
    }
  }

  // ----- the program ------------------------------------------------------------------

  const TABLE: seq<Row> := [
    Row(LD_H_ABS, 12, None, None),
    Row(JEQ, 0x0806, Some(ACCEPT), None),
    Row(JEQ, 0x0800, None, Some(REJECT)),
    Row(LD_B_ABS, 23, None, None),
    Row(JEQ, 17, None, Some(REJECT)),
    Row(LD_H_ABS, 20, None, None),
    Row(JSET, 0x1FFF, Some(REJECT), None),
    Row(LDX_MSH, 14, None, None),
    Row(LD_H_IND, 14, None, None),
    Row(JEQ, 67, Some(ACCEPT), None),
    Row(JEQ, 68, Some(ACCEPT), None),
    Row(LD_H_IND, 16, None, None),
    Row(JEQ, 67, Some(ACCEPT), None),
    Row(JEQ, 68, Some(ACCEPT), None),
    Row(RET_K, 0, None, None),
    Row(RET_K, ACCEPT_BYTES, None, None)]

  /** `bpf_program`: the loop that turns positions into offsets. */
  method BpfProgram() returns (program: seq<Instr>)
    ensures program == Assemble(TABLE)
    ensures forall i :: i in program ==> 0 <= i.jt < 256 && 0 <= i.jf < 256
  {
    program := [];
    for pc := 0 to |TABLE|
      invariant program == Assemble(TABLE)[..pc]
      invariant forall i :: i in program ==> 0 <= i.jt < 256 && 0 <= i.jf < 256
    {
      var row := TABLE[pc];
      var jt := if row.ifTrue.None? then 0 else row.ifTrue.value - pc - 1;
      var jf := if row.ifFalse.None? then 0 else row.ifFalse.value - pc - 1;
      program := program + [Instr(row.code, jt, jf, row.k)];
    }
  }

  // ----- what the program accepts -------------------------------------------------------

  predicate IsDhcpPort(port: Option<nat>) {
    port == Some(67) || port == Some(68)
  }

  function Ethertype(frame: Bytes): Option<nat> { Load16(frame, 12) }

  /** Where the IPv4 header ends, by its own length field. */
  function HeaderEnd(frame: Bytes): nat
    requires |frame| > 14
  {
    14 + 4 * (frame[14] % 16)
  }

  /** IPv4, UDP, and not a later fragment. */
  predicate IsFirstUdp(frame: Bytes) {
    && Ethertype(frame) == Some(0x0800)
    && Load8(frame, 23) == Some(17)
    && Load16(frame, 20).Some? && Load16(frame, 20).value % 0x2000 == 0
  }

  /** What the watcher wants to see; a destination port is read only when the source port is not enough. */
  predicate IsWanted(frame: Bytes) {
    || Ethertype(frame) == Some(0x0806)
    || (IsFirstUdp(frame) &&
        (IsDhcpPort(Load16(frame, HeaderEnd(frame))) ||
         (Load16(frame, HeaderEnd(frame)).Some? && IsDhcpPort(Load16(frame, HeaderEnd(frame) + 2)))))
  }

  function Power2(n: nat): (r: nat)
    ensures r > 0
  {
    if n == 0 then 1 else 2 * Power2(n - 1)
  }

  /** Masking with n ones is the remainder by the n-th power of two. */
  lemma {:induction false} AndOfOnes(a: nat, n: nat)
    ensures And(a, Power2(n) - 1) == a % Power2(n)
    decreases n
  {
    if n > 0 {
      var half := Power2(n - 1);
      AndOfOnes(a / 2, n - 1);
      AndStep(a, half);
      DoubleRemainder(a, half);
    }
  }

  lemma AndStep(a: nat, half: nat)
    requires half > 0
    ensures And(a, 2 * half - 1) == 2 * And(a / 2, half - 1) + a % 2
  {
    assert (2 * half - 1) / 2 == half - 1 && (2 * half - 1) % 2 == 1;
  }

  lemma DoubleRemainder(a: nat, half: nat)
    requires half > 0
    ensures a % (2 * half) == 2 * ((a / 2) % half) + a % 2
  {
    var b, q := a / 2, (a / 2) / half;
    var r := 2 * (b % half) + a % 2;
    assert b == half * q + b % half;
    assert a == (2 * half) * q + r && 0 <= r < 2 * half;
    RemainderIs(a, 2 * half, q, r);
  }

  lemma RemainderIs(a: nat, m: nat, q: nat, r: nat)
    requires m > 0 && r < m && a == m * q + r
    ensures a % m == r
  {
    var d, e := a / m, a % m;
    assert m * (q - d) == e - r && m * (d - q) == r - e;
    if q > d {
      MulAtLeast(m, q - d);
    } else if d > q {
      MulAtLeast(m, d - q);
    }
  }

  lemma {:induction false} MulAtLeast(m: nat, k: nat)
    requires k > 0
    ensures m * k >= m
  {
    if k > 1 {
      MulAtLeast(m, k - 1);
      assert m * k == m * (k - 1) + m;
    }
  }

  lemma Masks(a: nat)
    ensures And(a, 0x1FFF) == a % 0x2000 && And(a, 0xF) == a % 16
  {
    assert Power2(4) == 16;
    assert Power2(8) == 16 * Power2(4);
    assert Power2(12) == 16 * Power2(8);
    assert Power2(13) == 0x2000;
    AndOfOnes(a, 13);
    AndOfOnes(a, 4);
  }

  lemma TableIsForward()
    ensures IsForward(TABLE)
  {
  }

  function Verdict(accepted: bool): nat { if accepted then ACCEPT_BYTES else 0 }

  /** From the destination port on. */
  lemma FromDestination(frame: Bytes, a: nat, x: nat)
    requires IsForward(TABLE)
    ensures ExecTable(TABLE, frame, REJECT, a, x) == 0 && ExecTable(TABLE, frame, ACCEPT, a, x) == ACCEPT_BYTES
    ensures ExecTable(TABLE, frame, 13, a, x) == Verdict(a == 68)
    ensures ExecTable(TABLE, frame, 12, a, x) == Verdict(a == 67 || a == 68)
    ensures ExecTable(TABLE, frame, 11, a, x) == Verdict(IsDhcpPort(Load16(frame, x + 16)))
  {
    assert ExecTable(TABLE, frame, REJECT, a, x) == 0 && ExecTable(TABLE, frame, ACCEPT, a, x) == ACCEPT_BYTES;
    assert ExecTable(TABLE, frame, 13, a, x) == Verdict(a == 68);
    assert forall b: nat :: ExecTable(TABLE, frame, 13, b, x) == Verdict(b == 68);
    assert forall b: nat :: ExecTable(TABLE, frame, 12, b, x) == Verdict(b == 67 || b == 68);
  }

  lemma FromSource(frame: Bytes, a: nat, x: nat)
    requires IsForward(TABLE)
    ensures ExecTable(TABLE, frame, 8, a, x) ==
      Verdict(IsDhcpPort(Load16(frame, x + 14)) || (Load16(frame, x + 14).Some? && IsDhcpPort(Load16(frame, x + 16))))
  {
    var port := Load16(frame, x + 14);
    if port.Some? {
      FromDestination(frame, port.value, x);
      assert ExecTable(TABLE, frame, 10, port.value, x) == Verdict(port.value == 68 || IsDhcpPort(Load16(frame, x + 16)));
      assert ExecTable(TABLE, frame, 9, port.value, x) == Verdict(IsDhcpPort(port) || IsDhcpPort(Load16(frame, x + 16)));
    }
  }

  lemma FromFragment(frame: Bytes, a: nat)
    requires IsForward(TABLE)
    ensures ExecTable(TABLE, frame, 5, a, 0) == Verdict(
      Load16(frame, 20).Some? && Load16(frame, 20).value % 0x2000 == 0 &&
      (IsDhcpPort(Load16(frame, HeaderEnd(frame))) ||
       (Load16(frame, HeaderEnd(frame)).Some? && IsDhcpPort(Load16(frame, HeaderEnd(frame) + 2)))))
  {
    var fragment := Load16(frame, 20);
    if fragment.Some? {
      Masks(fragment.value);
      FromDestination(frame, fragment.value, 0);
      assert ExecTable(TABLE, frame, 5, a, 0) == ExecTable(TABLE, frame, 6, fragment.value, 0);
      if fragment.value % 0x2000 == 0 {
        Masks(frame[14]);
        var x := 4 * (frame[14] % 16);
        assert ExecTable(TABLE, frame, 6, fragment.value, 0) == ExecTable(TABLE, frame, 7, fragment.value, 0);
        assert ExecTable(TABLE, frame, 7, fragment.value, 0) == ExecTable(TABLE, frame, 8, fragment.value, x);
        FromSource(frame, fragment.value, x);
        assert x + 14 == HeaderEnd(frame);
      }
    }
  }

  lemma FromEthertype(frame: Bytes)
    requires IsForward(TABLE)
    ensures ExecTable(TABLE, frame, 0, 0, 0) == Verdict(IsWanted(frame))
  {
    var ethertype := Ethertype(frame);
    if ethertype.Some? {
      var t := ethertype.value;
      FromDestination(frame, t, 0);
      assert ExecTable(TABLE, frame, 0, 0, 0) == ExecTable(TABLE, frame, 1, t, 0);
      if t == 0x0800 {
        assert ExecTable(TABLE, frame, 1, t, 0) == ExecTable(TABLE, frame, 2, t, 0) == ExecTable(TABLE, frame, 3, t, 0);
        var protocol := Load8(frame, 23);
        if protocol.Some? {
          FromDestination(frame, protocol.value, 0);
          assert ExecTable(TABLE, frame, 3, t, 0) == ExecTable(TABLE, frame, 4, protocol.value, 0);
          FromFragment(frame, protocol.value);
        }
      } else if t != 0x0806 {
        assert ExecTable(TABLE, frame, 1, t, 0) == ExecTable(TABLE, frame, 2, t, 0);
      }
    }
  }

  /**
   The assembled program, on every frame of any length, accepts exactly ARP and IPv4 UDP with port 67 or 68 on
   either side, and of a fragmented datagram only the first fragment.
   */
  lemma ProgramAcceptsWanted(frame: Bytes)
    ensures Exec(Assemble(TABLE), frame, 0, 0, 0) == Verdict(IsWanted(frame))
  {
    TableIsForward();
    AssembleKeepsMeaning(TABLE, frame, 0, 0, 0);
    FromEthertype(frame);
  }
}
