/** The checksum of an ICMP echo request (`probes.py`; section 1 of RFC 1071). */
module IcmpChecksum {
  import opened Wrappers
  import opened NetBytes

  const WORD := 0x1_0000
  const ONES := 0xFFFF

  // ----- the program's arithmetic --------------------------------------------------------

  function Pad(data: Bytes): Bytes {
    if |data| % 2 == 1 then data + [0] else data
  }

  /** The sum of the 16-bit words of a message of even length. */
  function Sum(data: Bytes): nat
    requires |data| % 2 == 0
  {
    if data == [] then 0 else 256 * (data[0] as int) + data[1] + Sum(data[2..])
  }

  function FirstFold(total: nat): nat { total / WORD + total % WORD }

  function SecondFold(t: nat): nat { t + t / WORD }

  /** `_icmp_checksum`: two folds, then the complement of the low sixteen bits. */
  function Checksum(data: Bytes): (c: nat)
    ensures c <= ONES
  {
    ONES - SecondFold(FirstFold(Sum(Pad(data)))) % WORD
  }

  // ----- the definition -------------------------------------------------------------------

  /** Addition with the carry brought around, on 16 bits. */
  function OnesAdd(a: nat, b: nat): nat {
    if a + b >= WORD then a + b - ONES else a + b
  }

  function OnesSum(data: Bytes): nat
    requires |data| % 2 == 0
  {
    if data == [] then 0 else OnesAdd(256 * (data[0] as int) + data[1], OnesSum(data[2..]))
  }

  /** The one's complement of the one's complement sum. */
  function TrueChecksum(data: Bytes): int {
    ONES - OnesSum(Pad(data))
  }

  /** The number from 1 to 65535 congruent to a positive total; 0 for 0. */
  function Residue(total: nat): nat {
    if total == 0 then 0 else (total - 1) % ONES + 1
  }

  lemma ResidueAdds(word: nat, total: nat)
    requires word <= ONES
    ensures Residue(word + total) == OnesAdd(word, Residue(total))
  {
    if total > 0 {
      var q, r := (total - 1) / ONES, (total - 1) % ONES;
      var x := word + total - 1;
      assert x == ONES * q + (r + word);
      if r + word < ONES {
        QuotientIs(x, q, r + word);
      } else if r + word < 2 * ONES {
        QuotientIs(x, q + 1, r + word - ONES);
      }
    } else if word > 0 {
      QuotientIs(word - 1, 0, word - 1);
    }
  }

  lemma QuotientIs(x: nat, q: int, r: nat)
    requires r < ONES && x == ONES * q + r
    ensures x % ONES == r && x / ONES == q
  {
  }

  lemma {:induction false} OnesSumIsResidue(data: Bytes)
    requires |data| % 2 == 0
    ensures OnesSum(data) == Residue(Sum(data))
    decreases |data|
  {
    if data != [] {
      OnesSumIsResidue(data[2..]);
      ResidueAdds(256 * (data[0] as int) + data[1], Sum(data[2..]));
    }
  }

  // ----- when two folds are enough -----------------------------------------------------

  /** A third fold is added up: what is left of the carry when two have been done. */
  function ThirdFold(total: nat): nat {
    FirstFold(FirstFold(total))
  }

  /**
   The second fold leaves no carry, or one that vanishes mod 65535; that second case needs a message of
   hundreds of terabytes.
   */
  predicate FoldsEnough(total: nat) {
    var s := ThirdFold(total);
    s < WORD || (s / WORD % ONES == 0 && s % WORD != 0)
  }

  lemma FoldKeepsResidue(total: nat)
    ensures Residue(FirstFold(total)) == Residue(total)
    ensures total > 0 ==> FirstFold(total) > 0
  {
    var q, r := total / WORD, total % WORD;
    assert total == FirstFold(total) + ONES * q;
    if total > 0 {
      var x := FirstFold(total) - 1;
      QuotientIs(x, x / ONES, x % ONES);
      assert total - 1 == ONES * (x / ONES + q) + x % ONES;
      QuotientIs(total - 1, x / ONES + q, x % ONES);
    }
  }

  /** What the second fold leaves in sixteen bits is its sum without the carry. */
  lemma SecondFoldLow(t: nat)
    ensures SecondFold(t) % WORD == FirstFold(t) % WORD
  {
    assert SecondFold(t) == WORD * (t / WORD) + FirstFold(t);
  }

  lemma CarryIsLost(s: nat)
    ensures s % WORD == Residue(s) <==> s < WORD || (s / WORD % ONES == 0 && s % WORD != 0)
  {
    var q, low := s / WORD, s % WORD;
    if s > 0 {
      var k, r := (s - 1) / ONES, (s - 1) % ONES;
      assert s - 1 == ONES * k + r && s == ONES * q + (q + low);
      if s < WORD {
        QuotientIs(s - 1, 0, s - 1);
      } else if low == r + 1 {
        assert q == ONES * (k - q);
        MultipleOf(q, k - q);
      } else if q % ONES == 0 && low > 0 {
        assert s - 1 == ONES * (q + q / ONES) + (low - 1);
        QuotientIs(s - 1, q + q / ONES, low - 1);
      }
    }
  }

  lemma MultipleOf(x: nat, k: int)
    requires x == ONES * k
    ensures x % ONES == 0
  {
  }

  /** The checksum is the true one exactly when two folds are enough. */
  lemma ChecksumIsTrue(data: Bytes)
    ensures Checksum(data) == TrueChecksum(data) <==> FoldsEnough(Sum(Pad(data)))
  {
    var total := Sum(Pad(data));
    OnesSumIsResidue(Pad(data));
    FoldKeepsResidue(total);
    FoldKeepsResidue(FirstFold(total));
    SecondFoldLow(FirstFold(total));
    CarryIsLost(ThirdFold(total));
  }

  // ----- sizes -----------------------------------------------------------------------

  lemma {:induction false} SumIsBounded(data: Bytes)
    requires |data| % 2 == 0
    ensures Sum(data) <= ONES * (|data| / 2)
    decreases |data|
  {
    if data != [] {
      SumIsBounded(data[2..]);
      assert |data| / 2 == |data[2..]| / 2 + 1;
    }
  }

  const SAFE_SIZE := 131076

  lemma SmallTotalsFold(total: nat)
    requires total <= ONES * (SAFE_SIZE / 2)
    ensures FoldsEnough(total)
  {
    var a, b := total / WORD, total % WORD;
    assert total == WORD * a + b;
    var t := FirstFold(total);
    assert t == a + b && t <= 0x1_FFFE;
    assert t / WORD + t % WORD < WORD;
  }

  /**
   For every message up to 131,076 bytes the two folds give the exact checksum, so that the sum and the checksum
   together are 0 mod 65535.
   */
  lemma ChecksumIsTrueUpToSize(data: Bytes)
    requires |data| <= SAFE_SIZE
    ensures Checksum(data) == TrueChecksum(data)
    ensures (Sum(Pad(data)) + Checksum(data)) % ONES == 0
  {
    SumIsBounded(Pad(data));
    assert Sum(Pad(data)) <= ONES * (SAFE_SIZE / 2);
    SmallTotalsFold(Sum(Pad(data)));
    ChecksumIsTrue(data);
    OnesSumIsResidue(Pad(data));
    ResidueComplement(Sum(Pad(data)));
  }

  lemma ResidueComplement(total: nat)
    ensures (total + (ONES - Residue(total))) % ONES == 0
  {
    if total > 0 {
      var q, r := (total - 1) / ONES, (total - 1) % ONES;
      assert total + (ONES - Residue(total)) == ONES * (q + 1);
      MultipleOf(total + (ONES - Residue(total)), q + 1);
    }
  }

  /** A message of words 0xFFFF. */
  function Filled(words: nat): (data: Bytes)
    ensures |data| == 2 * words
  {
    seq(2 * words, i => 0xFF)
  }

  lemma {:induction false} SumOfFilled(words: nat, tail: Bytes)
    requires |tail| % 2 == 0
    ensures Sum(Filled(words) + tail) == ONES * words + Sum(tail)
    decreases words
  {
    var data := Filled(words) + tail;
    if words == 0 {
      assert data == tail;
    } else {
      assert data[2..] == Filled(words - 1) + tail;
      SumOfFilled(words - 1, tail);
    }
  }

  /** The size is sharp: one word more, and a message can be given a wrong checksum. */
  lemma LargerMessageFails() returns (data: Bytes)
    ensures |data| == SAFE_SIZE + 2 && Checksum(data) != TrueChecksum(data)
  {
    var last: Bytes := [0, 1];
    data := Filled(SAFE_SIZE / 2) + last;
    SumOfFilled(SAFE_SIZE / 2, last);
    assert last[2..] == [] && Sum(last) == 1;
    assert Sum(data) == 0x1_0000_FFFF && Pad(data) == data;
    assert FirstFold(0x1_0000_FFFF) == 0x1_FFFF && FirstFold(0x1_FFFF) == WORD;
    ChecksumIsTrue(data);
  }

  // ----- echo requests -----------------------------------------------------------------

  datatype StructError = StructError

  function Half(x: nat): (r: Bytes)
    requires x < WORD
    ensures |r| == 2
  {
    [x / 256, x % 256]
  }

  function Message(checksum: nat, ident: nat, number: nat, payload: Bytes): (r: Bytes)
    requires checksum < WORD && ident < WORD && number < WORD
    ensures |r| == 8 + |payload|
  {
    [8, 0] + Half(checksum) + Half(ident) + Half(number) + payload
  }

  /** `_echo_request`; numbers that do not fit their field are refused by `struct.pack`. */
  function EchoRequest(ident: int, number: int, payload: Bytes): Result<Bytes, StructError> {
    if !(0 <= ident < WORD && 0 <= number < WORD) then Err(StructError)
    else Ok(Message(Checksum(Message(0, ident, number, payload)), ident, number, payload))
  }

  lemma SumOfMessage(checksum: nat, ident: nat, number: nat, payload: Bytes)
    requires checksum < WORD && ident < WORD && number < WORD
    ensures Sum(Pad(Message(checksum, ident, number, payload))) == 0x0800 + checksum + ident + number + Sum(Pad(payload))
  {
    hide Half, Sum;
    var rest := Pad(payload);
    var data := Pad(Message(checksum, ident, number, payload));
    assert data == [8, 0] + (Half(checksum) + (Half(ident) + (Half(number) + rest)));
    assert Half(0x0800) == [8, 0] by { FirstHalf(); }
    SumOfHalf(0x0800, Half(checksum) + (Half(ident) + (Half(number) + rest)));
    SumOfHalf(checksum, Half(ident) + (Half(number) + rest));
    SumOfHalf(ident, Half(number) + rest);
    SumOfHalf(number, rest);
  }

  lemma FirstHalf()
    ensures Half(0x0800) == [8, 0]
  {
  }

  lemma SumOfHalf(x: nat, rest: Bytes)
    requires x < WORD && |rest| % 2 == 0
    ensures Sum(Half(x) + rest) == x + Sum(rest)
  {
    assert (Half(x) + rest)[2..] == rest;
  }

  /**
   An echo request is built exactly when identifier and number fit sixteen bits. It has type 8 and code 0, then the
   checksum of the whole with nothing in the checksum's place, then identifier, number and payload.
   */
  lemma EchoRequestLayout(ident: int, number: int, payload: Bytes)
    ensures EchoRequest(ident, number, payload).Ok? <==> 0 <= ident <= 0xFFFF && 0 <= number <= 0xFFFF
    ensures EchoRequest(ident, number, payload).Ok? ==>
      var m := EchoRequest(ident, number, payload).value;
      && |m| == 8 + |payload| && m[8..] == payload
      && m[0] == 8 && m[1] == 0
      && Load16(m, 2) == Some(Checksum(m[2 := 0][3 := 0]))
      && Load16(m, 4) == Some(ident)
      && Load16(m, 6) == Some(number)
  {
    hide Checksum;
    if EchoRequest(ident, number, payload).Ok? {
      var plain, m := Message(0, ident, number, payload), EchoRequest(ident, number, payload).value;
      assert m[2 := 0][3 := 0] == plain;
    }
  }

  /** A message of odd length has the checksum it has with a zero byte behind it. */
  lemma OddMessage(data: Bytes)
    requires |data| % 2 == 1
    ensures Checksum(data) == Checksum(data + [0])
  {
    hide Sum;
    assert Pad(data) == data + [0] == Pad(data + [0]);
  }

  /** A built echo request checks out at the receiver: its checksum, over everything, is 0. */
  lemma EchoRequestChecksOut(ident: int, number: int, payload: Bytes)
    requires EchoRequest(ident, number, payload).Ok? && 8 + |payload| <= SAFE_SIZE
    ensures Checksum(EchoRequest(ident, number, payload).value) == 0
  {
    hide Message, Pad, Sum, Checksum;
    var plain := Message(0, ident, number, payload);
    var c := Checksum(plain);
    var full := Message(c, ident, number, payload);
    SumOfMessage(0, ident, number, payload);
    SumOfMessage(c, ident, number, payload);
    ChecksumIsTrueUpToSize(plain);
    ZeroWhenMultiple(full);
  }

  /** A message whose words add up to a multiple of 65535, other than 0, has the checksum 0. */
  lemma ZeroWhenMultiple(data: Bytes)
    requires |data| <= SAFE_SIZE && Sum(Pad(data)) > 0 && Sum(Pad(data)) % ONES == 0
    ensures Checksum(data) == 0
  {
    hide Checksum, Sum;
    var total := Sum(Pad(data));
    ChecksumIsTrueUpToSize(data);
    assert total - 1 == ONES * (total / ONES - 1) + (ONES - 1);
    QuotientIs(total - 1, total / ONES - 1, ONES - 1);
    OnesSumIsResidue(Pad(data));
  }
}
