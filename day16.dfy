/**
 * Day 16, packet decoder: a hexadecimal line is expanded to bits and read by a recursive
 * descent parser over a bit stream with a cursor. Each packet has a 3-bit version and a
 * 3-bit type; type 4 is a literal made of 5-bit groups, every other type is an operator
 * whose sub-packets are delimited either by a 15-bit total length or by an 11-bit count.
 *
 * The pure functions `ReadPacketSpec`, `ReadCount` and `ReadAll` say what one parse
 * computes from a bit string and a cursor position; the class `BitStream` and the method
 * `ReadPacket` are the parser itself, proved to compute exactly that.
 */
module Day16 {
  import opened Util

  /**
   * Python's slice `s[from:to]` for 0 <= from <= to: indices past the end are clamped,
   * so a slice that runs off the end is merely shorter.
   */
  function Slice(s: string, from: nat, to: nat): (r: string)
    requires from <= to
    ensures to <= |s| ==> r == s[from..to]
    ensures from < |s| ==> |r| <= |s| - from
    ensures from >= |s| ==> r == []
    ensures |r| <= to - from
  {
    var a := if from < |s| then from else |s|;
    var b := if to < |s| then to else |s|;
    s[a..b]
  }

  /**
   * A field cut from a stream of bits is itself a bit string, so the bit-field reader
   * `ParseBinary` reads it exactly as `int(b, 2)` does, failing only on an empty field.
   */
  lemma FieldIsBits(bits: string, from: nat, to: nat)
    requires IsBinary(bits) && from <= to
    ensures
      var f := Slice(bits, from, to);
      && IsBinary(f)
      && (ParseBinary(f).Ok? <==> f != [] && ParseIntBase2(f).Ok?)
      && (ParseBinary(f).Ok? ==> ParseIntBase2(f) == Ok(ParseBinary(f).value as int))
      && (f == [] ==> ParseIntBase2(f).Err?)
  {
    var f := Slice(bits, from, to);
    assert forall k :: 0 <= k < |f| ==> f[k] == bits[k + (if from < |bits| then from else |bits|)];
    ParseBinaryAgrees(f);
  }

  // ---------------------------------------------------------------------------
  // Hexadecimal expansion: bin(int(c, 16))[2:].rjust(4, '0') for every digit
  // ---------------------------------------------------------------------------

  /**
   * Python's `int(c, 16)` for one character, on the ASCII hex digits; `int` would also read
   * the other Unicode decimal digits.
   */
  function HexValue(c: char): Option<nat>
  {
    if '0' <= c <= '9' then Some(c as int - '0' as int)
    else if 'a' <= c <= 'f' then Some(c as int - 'a' as int + 10)
    else if 'A' <= c <= 'F' then Some(c as int - 'A' as int + 10)
    else None
  }

  /** Python's `bin(v)[2:]`: the binary numeral of v without leading zeros ("0" for 0). */
  function Bin(v: nat): (s: string)
    ensures s != [] && IsBinary(s) && BinaryValue(s) == v
  {
    if v < 2 then [if v == 1 then '1' else '0']
    else
      var s := Bin(v / 2) + [if v % 2 == 1 then '1' else '0'];
      assert s[..|s| - 1] == Bin(v / 2);
      s
  }

  /** Python's `s.rjust(width, '0')`. */
  function RJustZero(s: string, width: nat): (r: string)
    ensures |r| == if |s| < width then width else |s|
  {
    if |s| < width then seq(width - |s|, _ => '0') + s else s
  }

  /** Leading zeros do not change a binary value. */
  lemma {:induction false} LeadingZeros(z: nat, s: string)
    ensures BinaryValue(seq(z, _ => '0') + s) == BinaryValue(s)
    decreases |s|
  {
    var zs: string := seq(z, _ => '0');
    if s == [] {
      assert zs + s == zs;
      ZerosValue(zs);
    } else {
      assert (zs + s)[..|zs + s| - 1] == zs + s[..|s| - 1];
      LeadingZeros(z, s[..|s| - 1]);
    }
  }

  lemma {:induction false} BinShort(v: nat)
    requires v < 16
    ensures |Bin(v)| <= 4
  {
    if v >= 2 {
      BinShort(v / 2);
      if v < 8 {
        if v >= 4 { BinShort(v / 2); }
      }
    }
    assert v < 2 || v / 2 < 8;
    if v >= 2 && v / 2 >= 4 {
      assert v / 4 < 4;
      assert |Bin(v / 4)| <= 2;
    }
  }

  /** The four bits one hexadecimal digit expands to. */
  function Nibble(v: nat): (s: string)
    requires v < 16
    ensures |s| == 4 && IsBinary(s) && BinaryValue(s) == v
  {
    var b := Bin(v);
    BinShort(v);
    LeadingZeros(4 - |b|, b);
    RJustZero(b, 4)
  }

  /** `''.join(bin(int(c, 16))[2:].rjust(4, '0') for c in line)`; `int` raises on a non-hex character. */
  function ExpandHex(line: string): (r: Result<string>)
    ensures r.Ok? <==> forall k :: 0 <= k < |line| ==> HexValue(line[k]).Some?
    ensures r.Ok? ==> |r.value| == 4 * |line| && IsBinary(r.value)
  {
    if line == [] then Ok([])
    else
      match ExpandHex(line[..|line| - 1])
      case Err(e) => Err(e)
      case Ok(init) =>
        match HexValue(line[|line| - 1])
        case None => Err("ValueError: invalid literal for int() with base 16")
        case Some(v) =>
          assert v < 16;
          Ok(init + Nibble(v))
  }

  /** Regrouping the expansion by four bits gives back every digit's value. */
  lemma {:induction false} ExpandHexRegroups(line: string, k: nat)
    requires ExpandHex(line).Ok? && k < |line|
    ensures HexValue(line[k]).Some?
    ensures BinaryValue(ExpandHex(line).value[4 * k..4 * k + 4]) == HexValue(line[k]).value
    decreases |line|
  {
    var init := line[..|line| - 1];
    assert ExpandHex(init).Ok?;
    var v := HexValue(line[|line| - 1]).value;
    var e := ExpandHex(line).value;
    assert e == ExpandHex(init).value + Nibble(v);
    if k < |line| - 1 {
      ExpandHexRegroups(init, k);
      assert e[4 * k..4 * k + 4] == ExpandHex(init).value[4 * k..4 * k + 4];
    } else {
      assert e[4 * k..4 * k + 4] == Nibble(v);
    }
  }

  // ---------------------------------------------------------------------------
  // operate(type_id, operands)
  // ---------------------------------------------------------------------------

  function SumOf(xs: seq<nat>): nat
  {
    if xs == [] then 0 else SumOf(xs[..|xs| - 1]) + xs[|xs| - 1]
  }

  /** `functools.reduce(lambda x, y: x * y, operands, 1)`. */
  function ProductOf(xs: seq<nat>): nat
  {
    if xs == [] then 1 else ProductOf(xs[..|xs| - 1]) * xs[|xs| - 1]
  }

  /** `min(operands)` when `least`, else `max(operands)`. */
  function Extreme(least: bool, xs: seq<nat>): (m: nat)
    requires xs != []
    ensures m in xs
    ensures least ==> forall x :: x in xs ==> m <= x
    ensures !least ==> forall x :: x in xs ==> x <= m
  {
    var m := if least then Min(xs) else Max(xs);
    assert m in xs;
    m
  }

  /**
   * Applies the operator named by `typeId`: 0 sum, 1 product, 2 minimum, 3 maximum,
   * 5 greater than, 6 less than, 7 equal to. `min`/`max` of no operands, a comparison
   * without exactly two operands and any other type raise.
   */
  function Operate(typeId: nat, operands: seq<nat>): (r: Result<nat>)
    ensures typeId == 0 ==> r == Ok(SumOf(operands))
    ensures typeId == 1 ==> r == Ok(ProductOf(operands)) && (operands == [] ==> r == Ok(1))
    ensures typeId == 2 || typeId == 3 ==> (r.Ok? <==> operands != [])
    ensures typeId == 2 && r.Ok? ==> r.value in operands && forall x :: x in operands ==> r.value <= x
    ensures typeId == 3 && r.Ok? ==> r.value in operands && forall x :: x in operands ==> x <= r.value
    ensures 5 <= typeId <= 7 ==> (r.Ok? <==> |operands| == 2) && (r.Ok? ==> r.value <= 1)
    ensures typeId == 5 && r.Ok? ==> (r.value == 1 <==> operands[0] > operands[1])
    ensures typeId == 6 && r.Ok? ==> (r.value == 1 <==> operands[0] < operands[1])
    ensures typeId == 7 && r.Ok? ==> (r.value == 1 <==> operands[0] == operands[1])
    ensures typeId == 4 || typeId > 7 ==> r.Err?
  {
    if typeId == 0 then Ok(SumOf(operands))
    else if typeId == 1 then Ok(ProductOf(operands))
    else if typeId == 2 || typeId == 3 then
      if operands == [] then Err("ValueError: arg is an empty sequence")
      else Ok(Extreme(typeId == 2, operands))
    else if 5 <= typeId <= 7 then
      if |operands| != 2 then Err("AssertionError")
      else if typeId == 5 then Ok(if operands[0] > operands[1] then 1 else 0)
      else if typeId == 6 then Ok(if operands[0] < operands[1] then 1 else 0)
      else Ok(if operands[0] == operands[1] then 1 else 0)
    else Err("Exception: Unrecognized type_id")
  }

  // ---------------------------------------------------------------------------
  // What one parse computes, as functions of the bit string and the cursor
  // ---------------------------------------------------------------------------

  /** Bits left from cursor i (the cursor may run past the end). */
  function Rem(bits: string, i: nat): nat
  {
    if i < |bits| then |bits| - i else 0
  }

  /** `has_more_packets`: some bit at or after the cursor is not '0'. */
  predicate HasPacketAfter(bits: string, i: nat)
  {
    exists j :: i <= j < |bits| && bits[j] != '0'
  }

  /** The result of one packet: its own version, the sum of all versions in it, its value and the cursor after it. */
  datatype Decoded = Decoded(version: nat, versionsSum: nat, value: nat, end: nat)

  /** The result of a run of sibling packets. */
  datatype Batch = Batch(versionsSum: nat, values: seq<nat>, end: nat)

  /** A parser's answer and final cursor agree with the outcome `d` the specification gives for one packet. */
  predicate ReportsPacket(r: Result<(nat, nat)>, d: Result<Decoded>, cursor: nat)
  {
    && (d.Err? ==> r == Err(d.msg))
    && (d.Ok? ==> r == Ok((d.value.versionsSum, d.value.value)) && cursor == d.value.end)
  }

  /** A parser's answer and final cursor agree with the outcome `b` the specification gives for a run of siblings. */
  predicate ReportsBatch(r: Result<(nat, seq<nat>)>, b: Result<Batch>, cursor: nat)
  {
    && (b.Err? ==> r == Err(b.msg))
    && (b.Ok? ==> r == Ok((b.value.versionsSum, b.value.values)) && cursor == b.value.end)
  }

  /**
   * The 5-bit groups of a literal from cursor j: the low four bits of each group are
   * appended to `acc`, and the first group whose lead bit is '0' is the last one.
   * `bits[0]` of an empty group raises.
   */
  function LiteralGroups(bits: string, j: nat, acc: string): (r: Result<(string, nat)>)
    ensures r.Ok? ==> var end := r.value.1;
      && end >= j + 5 && (end - j) % 5 == 0
      && end - 5 < |bits| && bits[end - 5] == '0'
      && (forall k :: j <= k < end - 5 && (k - j) % 5 == 0 ==> bits[k] != '0')
      && |r.value.0| <= |acc| + 4 * ((end - j) / 5)
    decreases Rem(bits, j)
  {
    var group := Slice(bits, j, j + 5);
    if group == [] then Err("IndexError: string index out of range")
    else
      SliceHead(bits, j, j + 5);
      var acc' := acc + group[1..];
      if group[0] == '0' then Ok((acc', j + 5))
      else LiteralGroups(bits, j + 5, acc')
  }

  /** A slice that is not empty starts inside the string, with the character at its start. */
  lemma SliceHead(s: string, from: nat, to: nat)
    requires from <= to && Slice(s, from, to) != []
    ensures from < |s| && Slice(s, from, to)[0] == s[from] && |Slice(s, from, to)| <= to - from
  {
  }

  /** Prepends what earlier siblings produced to the outcome of the remaining ones. */
  function Prepend(versionsSum: nat, values: seq<nat>, rest: Result<Batch>): Result<Batch>
  {
    match rest
    case Err(e) => Err(e)
    case Ok(b) => Ok(Batch(versionsSum + b.versionsSum, values + b.values, b.end))
  }

  /** Prepending nothing changes nothing. */
  lemma PrependNothing(rest: Result<Batch>)
    ensures Prepend(0, [], rest) == rest
  {
    if rest.Ok? {
      assert [] + rest.value.values == rest.value.values;
    }
  }

  /** Prepending twice is prepending the combination once. */
  lemma PrependTwice(a: nat, xs: seq<nat>, c: nat, ys: seq<nat>, rest: Result<Batch>)
    ensures Prepend(a, xs, Prepend(c, ys, rest)) == Prepend(a + c, xs + ys, rest)
  {
    if rest.Ok? {
      assert xs + (ys + rest.value.values) == (xs + ys) + rest.value.values;
    }
  }

  /** A literal packet once its groups are read: the groups' low bits are the value. */
  function LiteralPacket(version: nat, groups: Result<(string, nat)>): (r: Result<Decoded>)
    ensures r.Ok? ==> groups.Ok? && r.value.end == groups.value.1
    ensures r.Ok? ==> r.value.version == version && r.value.versionsSum == version
  {
    match groups
    case Err(e) => Err(e)
    case Ok(lit) =>
      match ParseBinary(lit.0)
      case Err(e) => Err(e)
      case Ok(v) => Ok(Decoded(version, version, v, lit.1))
  }

  /** An operator packet once its sub-packets are read: `operate` applied to their values. */
  function OperatorPacket(version: nat, typeId: nat, batch: Result<Batch>): (r: Result<Decoded>)
    ensures r.Ok? ==> batch.Ok? && r.value.end == batch.value.end
    ensures r.Ok? ==> r.value.version == version && r.value.versionsSum >= version
  {
    match batch
    case Err(e) => Err(e)
    case Ok(b) =>
      match Operate(typeId, b.values)
      case Err(e) => Err(e)
      case Ok(v) => Ok(Decoded(version, version + b.versionsSum, v, b.end))
  }

  /** `read_packet` from cursor i of `bits`. */
  function ReadPacketSpec(bits: string, i: nat): (r: Result<Decoded>)
    ensures r.Ok? ==> i < |bits| && r.value.end >= i + 6 && r.value.version < 8
    ensures r.Ok? ==> r.value.versionsSum >= r.value.version
    decreases Rem(bits, i), 1, 0
  {
    match ParseBinary(Slice(bits, i, i + 3))
    case Err(e) => Err(e)
    case Ok(version) =>
      SliceHead(bits, i, i + 3);
      PowMonotone(|Slice(bits, i, i + 3)|, 3);
      assert Pow2(3) == 8;
      match ParseBinary(Slice(bits, i + 3, i + 6))
      case Err(e) => Err(e)
      case Ok(typeId) =>
        if typeId == 4 then LiteralPacket(version, LiteralGroups(bits, i + 6, []))
        else OperatorPacket(version, typeId, SubPackets(bits, i + 6))
  }

  /**
   * The sub-packets of an operator from cursor j, which is at its length type bit:
   * '0' announces a total length in bits, '1' a number of packets.
   */
  function SubPackets(bits: string, j: nat): (r: Result<Batch>)
    ensures r.Ok? ==> r.value.end >= j
    decreases Rem(bits, j), 0, 1
  {
    var lengthType := Slice(bits, j, j + 1);
    if lengthType == "0" then LengthDelimited(bits, j + 1)
    else if lengthType == "1" then CountDelimited(bits, j + 1)
    else Err("Exception: Unknown length_type_id")
  }

  /** A 15-bit length, then a sub-stream of that many bits read to its end; the cursor moves past the sub-stream. */
  function LengthDelimited(bits: string, j: nat): (r: Result<Batch>)
    ensures r.Ok? ==> r.value.end >= j
    decreases Rem(bits, j), 0, 0
  {
    match ParseBinary(Slice(bits, j, j + 15))
    case Err(e) => Err(e)
    case Ok(numBits) => Delimited(ReadAll(Slice(bits, j + 15, j + 15 + numBits), 0), j + 15 + numBits)
  }

  /** The packets of a sub-stream, reported with the outer cursor `end` in place of the sub-stream's own. */
  function Delimited(b: Result<Batch>, end: nat): (r: Result<Batch>)
    ensures b.Err? ==> r == Err(b.msg)
    ensures b.Ok? ==> r.Ok? && r.value.values == b.value.values && r.value.versionsSum == b.value.versionsSum
    ensures r.Ok? ==> r.value.end == end
  {
    match b
    case Err(e) => Err(e)
    case Ok(batch) => Ok(Batch(batch.versionsSum, batch.values, end))
  }

  /** An 11-bit count, then that many packets from the same stream. */
  function CountDelimited(bits: string, j: nat): (r: Result<Batch>)
    ensures r.Ok? ==> r.value.end >= j
    decreases Rem(bits, j), 0, 0
  {
    match ParseBinary(Slice(bits, j, j + 11))
    case Err(e) => Err(e)
    case Ok(numSubPackets) => ReadCount(bits, j + 11, numSubPackets)
  }

  /** `n` packets read one after the other from cursor j of a shared stream. */
  function ReadCount(bits: string, j: nat, n: nat): (r: Result<Batch>)
    ensures r.Ok? ==> |r.value.values| == n && r.value.end >= j
    decreases Rem(bits, j), 2, n
  {
    if n == 0 then Ok(Batch(0, [], j))
    else
      match ReadPacketSpec(bits, j)
      case Err(e) => Err(e)
      case Ok(d) => Prepend(d.versionsSum, [d.value], ReadCount(bits, d.end, n - 1))
  }

  /** One step of `ReadCount`: the first packet, then the other n - 1. */
  lemma ReadCountStep(bits: string, j: nat, n: nat)
    requires n > 0
    ensures ReadPacketSpec(bits, j).Err? ==> ReadCount(bits, j, n) == Err(ReadPacketSpec(bits, j).msg)
    ensures ReadPacketSpec(bits, j).Ok? ==> var d := ReadPacketSpec(bits, j).value;
      ReadCount(bits, j, n) == Prepend(d.versionsSum, [d.value], ReadCount(bits, d.end, n - 1))
  {
  }

  /** Packets read from cursor j of a sub-stream for as long as a non-zero bit remains. */
  function ReadAll(bits: string, j: nat): (r: Result<Batch>)
    ensures r.Ok? ==> r.value.end >= j && !HasPacketAfter(bits, r.value.end)
    decreases Rem(bits, j), 2, 0
  {
    if !HasPacketAfter(bits, j) then Ok(Batch(0, [], j))
    else
      match ReadPacketSpec(bits, j)
      case Err(e) => Err(e)
      case Ok(d) =>
        var rest := ReadAll(bits, d.end);
        if rest.Ok? then
          assert !HasPacketAfter(bits, rest.value.end);
          Prepend(d.versionsSum, [d.value], rest)
        else Prepend(d.versionsSum, [d.value], rest)
  }

  // ---------------------------------------------------------------------------
  // The bit stream and the parser
  // ---------------------------------------------------------------------------

  /** An immutable string of bits with a cursor that only moves forward. */
  class BitStream {
    const bits: string
    var i: nat

    constructor (bits: string)
      ensures this.bits == bits && i == 0
    {
      this.bits := bits;
      i := 0;
    }

    function Remaining(): nat
      reads this
    {
      Rem(bits, i)
    }

    /** `take(n)`: the next n bits (fewer if the stream ends first); the cursor advances by exactly n. */
    method Take(n: nat) returns (r: string)
      modifies this
      ensures i == old(i) + n
      ensures r == Slice(bits, old(i), old(i) + n)
      ensures old(i) + n <= |bits| ==> r == bits[old(i)..old(i) + n] && |r| == n
    {
      r := Slice(bits, i, i + n);
      i := i + n;
    }

    /** `to_int(n)`: the next n bits as an unsigned big-endian number. */
    method ToInt(n: nat) returns (r: Result<nat>)
      modifies this
      ensures i == old(i) + n
      ensures r == ParseBinary(Slice(bits, old(i), old(i) + n))
      ensures r.Ok? ==> r.value < Pow2(n)
    {
      var b := Take(n);
      r := ParseBinary(b);
      if r.Ok? {
        BinaryValueBound(b);
        PowMonotone(|b|, n);
      }
    }

    /** `has_more_packets()`: is some bit at or after the cursor not '0'? The cursor does not move. */
    method HasMorePackets() returns (more: bool)
      ensures more <==> exists j :: i <= j < |bits| && bits[j] != '0'
    {
      var k := i;
      while k < |bits|
        invariant i <= k
        invariant forall j :: i <= j < k && j < |bits| ==> bits[j] == '0'
      {
        if bits[k] != '0' {
          return true;
        }
        k := k + 1;
      }
      return false;
    }
  }

  lemma {:induction false} PowMonotone(a: nat, b: nat)
    requires a <= b
    ensures Pow2(a) <= Pow2(b)
    decreases b
  {
    if a < b {
      PowMonotone(a, b - 1);
    }
  }

  /** The literal loop of `read_packet`: 5-bit groups up to the first whose lead bit is '0'. */
  method ReadLiteralBits(s: BitStream) returns (r: Result<string>)
    modifies s
    ensures var g := LiteralGroups(s.bits, old(s.i), []);
      && (g.Err? ==> r == Err(g.msg))
      && (g.Ok? ==> r == Ok(g.value.0) && s.i == g.value.1)
  {
    ghost var start := s.i;
    var literalBits := "";
    while true
      invariant LiteralGroups(s.bits, start, []) == LiteralGroups(s.bits, s.i, literalBits)
      decreases s.Remaining()
    {
      ghost var groupStart, accBefore := s.i, literalBits;
      var bits := s.Take(5);
      literalBits := literalBits + (if bits != [] then bits[1..] else []);
      if bits == [] {
        return Err("IndexError: string index out of range");
      }
      if bits[0] == '0' {
        assert LiteralGroups(s.bits, groupStart, accBefore) == Ok((literalBits, s.i));
        break;
      }
    }
    return Ok(literalBits);
  }

  /** Sub-packets of a length-type-0 operator: read while the sub-stream has a non-zero bit left. */
  method ReadAllPackets(sub: BitStream) returns (r: Result<(nat, seq<nat>)>)
    modifies sub
    decreases sub.Remaining(), 4
    ensures ReportsBatch(r, ReadAll(sub.bits, old(sub.i)), sub.i)
  {
    ghost var start := sub.i;
    var operands: seq<nat> := [];
    var subSum: nat := 0;
    var more := sub.HasMorePackets();
    PrependNothing(ReadAll(sub.bits, start));
    while more
      invariant sub.i >= start
      invariant more <==> HasPacketAfter(sub.bits, sub.i)
      invariant ReadAll(sub.bits, start) == Prepend(subSum, operands, ReadAll(sub.bits, sub.i))
      decreases sub.Remaining()
    {
      ghost var before := sub.i;
      var child := ReadPacket(sub);
      if child.Err? {
        return Err(child.msg);
      }
      PrependTwice(subSum, operands, child.value.0, [child.value.1], ReadAll(sub.bits, sub.i));
      subSum := subSum + child.value.0;
      operands := operands + [child.value.1];
      more := sub.HasMorePackets();
    }
    assert operands + [] == operands;
    return Ok((subSum, operands));
  }

  /** One turn of the count loop: the packet just read joins the siblings already read, or its error ends the run. */
  lemma CountStep(bits: string, before: nat, after: nat, m: nat, subSum: nat, operands: seq<nat>, child: Result<(nat, nat)>)
    requires m > 0 && ReportsPacket(child, ReadPacketSpec(bits, before), after)
    ensures child.Err? ==> Prepend(subSum, operands, ReadCount(bits, before, m)) == Err(child.msg)
    ensures child.Ok? ==> Prepend(subSum, operands, ReadCount(bits, before, m))
                          == Prepend(subSum + child.value.0, operands + [child.value.1], ReadCount(bits, after, m - 1))
  {
    ReadCountStep(bits, before, m);
    if child.Ok? {
      PrependTwice(subSum, operands, child.value.0, [child.value.1], ReadCount(bits, after, m - 1));
    }
  }

  /** The body of the count loop: one more packet from the shared stream, with `m` packets still to read. */
  method ReadSibling(s: BitStream, m: nat, ghost subSum: nat, ghost operands: seq<nat>) returns (child: Result<(nat, nat)>)
    requires m > 0
    modifies s
    decreases s.Remaining(), 4
    ensures child.Ok? ==> s.Remaining() <= old(s.Remaining())
    ensures child.Err? ==> Prepend(subSum, operands, ReadCount(s.bits, old(s.i), m)) == Err(child.msg)
    ensures child.Ok? ==> Prepend(subSum, operands, ReadCount(s.bits, old(s.i), m))
                          == Prepend(subSum + child.value.0, operands + [child.value.1], ReadCount(s.bits, s.i, m - 1))
  {
    ghost var before := s.i;
    child := ReadPacket(s);
    CountStep(s.bits, before, s.i, m, subSum, operands, child);
  }

  /** Sub-packets of a length-type-1 operator: exactly n of them, from the shared stream. */
  method ReadCountPackets(s: BitStream, n: nat) returns (r: Result<(nat, seq<nat>)>)
    modifies s
    decreases s.Remaining(), 5
    ensures ReportsBatch(r, ReadCount(s.bits, old(s.i), n), s.i)
  {
    ghost var start := s.i;
    var operands: seq<nat> := [];
    var subSum: nat := 0;
    PrependNothing(ReadCount(s.bits, start, n));
    for k := 0 to n
      invariant s.Remaining() <= old(s.Remaining())
      invariant ReadCount(s.bits, start, n) == Prepend(subSum, operands, ReadCount(s.bits, s.i, n - k))
    {
      var child := ReadSibling(s, n - k, subSum, operands);
      if child.Err? {
        return Err(child.msg);
      }
      subSum := subSum + child.value.0;
      operands := operands + [child.value.1];
    }
    assert operands + [] == operands;
    return Ok((subSum, operands));
  }

  /** The operator branch of `read_packet` from the length type bit on. */
  method ReadSubPackets(s: BitStream) returns (r: Result<(nat, seq<nat>)>)
    modifies s
    decreases s.Remaining(), 1
    ensures ReportsBatch(r, SubPackets(s.bits, old(s.i)), s.i)
  {
    var lengthTypeId := s.Take(1);
    if lengthTypeId == "0" {
      r := ReadLengthDelimited(s);
    } else if lengthTypeId == "1" {
      r := ReadCountDelimited(s);
    } else {
      r := Err("Exception: Unknown length_type_id");
    }
  }

  /**
   * With the 15-bit length read and the sub-stream cut, the length-delimited run is the
   * sub-stream's packets reported at `end`, and the sub-stream is shorter than what remained.
   */
  lemma LengthDelimitedOf(bits: string, j: nat, numBits: Result<nat>, subpacket: string, end: nat)
    requires numBits == ParseBinary(Slice(bits, j, j + 15)) && numBits.Ok?
    requires end == j + 15 + numBits.value && subpacket == Slice(bits, j + 15, end)
    ensures LengthDelimited(bits, j) == Delimited(ReadAll(subpacket, 0), end)
    ensures Rem(subpacket, 0) < Rem(bits, j)
  {
    SliceHead(bits, j, j + 15);
  }

  /**
   * `num_bits = to_int(15)` and `subpacket = take(num_bits)`: on success the length-delimited
   * run is the sub-stream's packets reported at the new cursor, and the sub-stream is
   * shorter than what remained.
   */
  method ReadSubStream(s: BitStream) returns (sub: Result<string>)
    modifies s
    ensures sub.Err? ==> LengthDelimited(s.bits, old(s.i)) == Err(sub.msg)
    ensures sub.Ok? ==> LengthDelimited(s.bits, old(s.i)) == Delimited(ReadAll(sub.value, 0), s.i)
    ensures sub.Ok? ==> Rem(sub.value, 0) < Rem(s.bits, old(s.i))
  {
    ghost var j := s.i;
    var numBits := s.ToInt(15);
    if numBits.Err? {
      return Err(numBits.msg);
    }
    var subpacket := s.Take(numBits.value);
    LengthDelimitedOf(s.bits, j, numBits, subpacket, s.i);
    sub := Ok(subpacket);
  }

  /** Reporting a sub-stream's packets at the outer cursor. */
  lemma ReportsDelimited(r: Result<(nat, seq<nat>)>, b: Result<Batch>, inner: nat, end: nat)
    requires ReportsBatch(r, b, inner)
    ensures ReportsBatch(r, Delimited(b, end), end)
  {
  }

  /** Length type '0': read the 15-bit length, cut that many bits into a new stream and read it to its end. */
  method ReadLengthDelimited(s: BitStream) returns (r: Result<(nat, seq<nat>)>)
    modifies s
    decreases s.Remaining(), 0
    ensures ReportsBatch(r, LengthDelimited(s.bits, old(s.i)), s.i)
  {
    var subpacket := ReadSubStream(s);
    if subpacket.Err? {
      return Err(subpacket.msg);
    }
    var sub := new BitStream(subpacket.value);
    r := ReadAllPackets(sub);
    ReportsDelimited(r, ReadAll(subpacket.value, 0), sub.i, s.i);
  }

  /** Length type '1': read the 11-bit count and that many packets from the same stream. */
  method ReadCountDelimited(s: BitStream) returns (r: Result<(nat, seq<nat>)>)
    modifies s
    decreases s.Remaining(), 0
    ensures ReportsBatch(r, CountDelimited(s.bits, old(s.i)), s.i)
  {
    var numSubPackets := s.ToInt(11);
    if numSubPackets.Err? {
      return Err(numSubPackets.msg);
    }
    r := ReadCountPackets(s, numSubPackets.value);
  }

  /** `read_packet(bit_stream)`: returns (versions_sum, op_result) and leaves the cursor after the packet. */
  method ReadPacket(s: BitStream) returns (r: Result<(nat, nat)>)
    modifies s
    decreases s.Remaining(), 3
    ensures ReportsPacket(r, ReadPacketSpec(s.bits, old(s.i)), s.i)
  {
    var version := s.ToInt(3);
    if version.Err? {
      return Err(version.msg);
    }
    var typeId := s.ToInt(3);
    if typeId.Err? {
      return Err(typeId.msg);
    }
    if typeId.value == 4 {
      r := ReadLiteralPacket(s, version.value);
    } else {
      r := ReadOperatorPacket(s, version.value, typeId.value);
    }
  }

  /** The literal branch of `read_packet`, after the header: the groups' bits as one binary number. */
  method ReadLiteralPacket(s: BitStream, version: nat) returns (r: Result<(nat, nat)>)
    modifies s
    ensures ReportsPacket(r, LiteralPacket(version, LiteralGroups(s.bits, old(s.i), [])), s.i)
  {
    var literalBits := ReadLiteralBits(s);
    if literalBits.Err? {
      return Err(literalBits.msg);
    }
    var literal := ParseBinary(literalBits.value);
    if literal.Err? {
      return Err(literal.msg);
    }
    return Ok((version, literal.value));
  }

  /** The operator branch of `read_packet`, after the header: `operate` on the sub-packets' values. */
  method ReadOperatorPacket(s: BitStream, version: nat, typeId: nat) returns (r: Result<(nat, nat)>)
    modifies s
    decreases s.Remaining(), 2
    ensures ReportsPacket(r, OperatorPacket(version, typeId, SubPackets(s.bits, old(s.i))), s.i)
  {
    var batch := ReadSubPackets(s);
    if batch.Err? {
      return Err(batch.msg);
    }
    var opResult := Operate(typeId, batch.value.1);
    if opResult.Err? {
      return Err(opResult.msg);
    }
    return Ok((version + batch.value.0, opResult.value));
  }

  /** The whole decode of the first input line, as `part_a` and `part_b` do it. */
  function DecodeLine(lines: seq<string>): Result<Decoded>
  {
    if lines == [] then Err("IndexError: list index out of range")
    else
      match ExpandHex(lines[0])
      case Err(e) => Err(e)
      case Ok(bits) => ReadPacketSpec(bits, 0)
  }

  /** `part_a`: the sum of the versions of all packets. */
  method PartA(lines: seq<string>) returns (r: Result<nat>)
    ensures DecodeLine(lines).Ok? ==> r == Ok(DecodeLine(lines).value.versionsSum)
    ensures DecodeLine(lines).Err? ==> r.Err?
  {
    if lines == [] { return Err("IndexError: list index out of range"); }
    var bits := ExpandHex(lines[0]);
    if bits.Err? { return Err(bits.msg); }
    var stream := new BitStream(bits.value);
    var decoded := ReadPacket(stream);
    if decoded.Err? { return Err(decoded.msg); }
    return Ok(decoded.value.0);
  }

  /** `part_b`: the value of the outermost packet. */
  method PartB(lines: seq<string>) returns (r: Result<nat>)
    ensures DecodeLine(lines).Ok? ==> r == Ok(DecodeLine(lines).value.value)
    ensures DecodeLine(lines).Err? ==> r.Err?
  {
    if lines == [] { return Err("IndexError: list index out of range"); }
    var bits := ExpandHex(lines[0]);
    if bits.Err? { return Err(bits.msg); }
    var stream := new BitStream(bits.value);
    var decoded := ReadPacket(stream);
    if decoded.Err? { return Err(decoded.msg); }
    return Ok(decoded.value.1);
  }

  // ---------------------------------------------------------------------------
  // Properties of the parse
  // ---------------------------------------------------------------------------

  /** An operator packet with length type '0' moves the cursor past exactly 22 + num_bits bits, whatever its children hold. */
  lemma LengthTypeZeroAdvance(bits: string, i: nat)
    requires ReadPacketSpec(bits, i).Ok?
    requires BinaryValue(Slice(bits, i + 3, i + 6)) != 4 && Slice(bits, i + 6, i + 7) == "0"
    ensures ReadPacketSpec(bits, i).value.end == i + 22 + BinaryValue(Slice(bits, i + 7, i + 22))
  {
    assert ParseBinary(Slice(bits, i, i + 3)).Ok? && ParseBinary(Slice(bits, i + 3, i + 6)).Ok?;
    assert SubPackets(bits, i + 6).Ok?;
    assert LengthDelimited(bits, i + 7).Ok?;
  }

  /** An operator packet with length type '1' has exactly num_sub_packets children. */
  lemma LengthTypeOneChildren(bits: string, i: nat)
    requires ReadPacketSpec(bits, i).Ok?
    requires BinaryValue(Slice(bits, i + 3, i + 6)) != 4 && Slice(bits, i + 6, i + 7) == "1"
    ensures var n := BinaryValue(Slice(bits, i + 7, i + 18));
      ReadCount(bits, i + 18, n).Ok? && |ReadCount(bits, i + 18, n).value.values| == n
  {
    assert ParseBinary(Slice(bits, i, i + 3)).Ok? && ParseBinary(Slice(bits, i + 3, i + 6)).Ok?;
    assert SubPackets(bits, i + 6).Ok?;
    assert CountDelimited(bits, i + 7).Ok?;
  }

  /** A literal packet occupies the 6 header bits plus a whole number of 5-bit groups, the last one led by '0'. */
  lemma LiteralLength(bits: string, i: nat)
    requires ReadPacketSpec(bits, i).Ok? && BinaryValue(Slice(bits, i + 3, i + 6)) == 4
    ensures var end := ReadPacketSpec(bits, i).value.end;
      end >= i + 11 && (end - i - 6) % 5 == 0 && bits[end - 5] == '0'
  {
    assert ParseBinary(Slice(bits, i, i + 3)).Ok? && ParseBinary(Slice(bits, i + 3, i + 6)).Ok?;
    assert LiteralGroups(bits, i + 6, []).Ok?;
  }

  /** The header and payload bits of the literal example, one prefix at a time. */
  lemma ExampleValues()
    ensures BinaryValue("110") == 6 && BinaryValue("100") == 4
    ensures BinaryValue("011111100101") == 2021
  {
    assert "1"[..0] == "" && BinaryValue("1") == 1;
    assert "11"[..1] == "1" && BinaryValue("11") == 3;
    assert "110"[..2] == "11" && BinaryValue("110") == 6;
    assert "10"[..1] == "1" && BinaryValue("10") == 2;
    assert "100"[..2] == "10" && BinaryValue("100") == 4;
    assert "0"[..0] == "" && BinaryValue("0") == 0;
    assert "01"[..1] == "0" && BinaryValue("01") == 1;
    assert "011"[..2] == "01" && BinaryValue("011") == 3;
    assert "0111"[..3] == "011" && BinaryValue("0111") == 7;
    assert "01111"[..4] == "0111" && BinaryValue("01111") == 15;
    assert "011111"[..5] == "01111" && BinaryValue("011111") == 31;
    assert "0111111"[..6] == "011111" && BinaryValue("0111111") == 63;
    assert "01111110"[..7] == "0111111" && BinaryValue("01111110") == 126;
    assert "011111100"[..8] == "01111110" && BinaryValue("011111100") == 252;
    assert "0111111001"[..9] == "011111100" && BinaryValue("0111111001") == 505;
    assert "01111110010"[..10] == "0111111001" && BinaryValue("01111110010") == 1010;
    assert "011111100101"[..11] == "01111110010" && BinaryValue("011111100101") == 2021;
  }

  /** The three 5-bit groups of the literal example, cut from its bits. */
  lemma ExampleGroupSlices(bits: string)
    requires bits == "110100101111111000101000"
    ensures Slice(bits, 6, 11) == "10111"
    ensures Slice(bits, 11, 16) == "11110"
    ensures Slice(bits, 16, 21) == "00101"
  {
    assert bits[6..11] == "10111" by {
      assert bits[6] == '1' && bits[7] == '0' && bits[8] == '1' && bits[9] == '1' && bits[10] == '1';
    }
    assert bits[11..16] == "11110" by {
      assert bits[11] == '1' && bits[12] == '1' && bits[13] == '1' && bits[14] == '1' && bits[15] == '0';
    }
    assert bits[16..21] == "00101" by {
      assert bits[16] == '0' && bits[17] == '0' && bits[18] == '1' && bits[19] == '0' && bits[20] == '1';
    }
  }

  /** The three 5-bit groups of the literal example. */
  lemma ExampleGroups()
    ensures LiteralGroups("110100101111111000101000", 6, []) == Ok(("011111100101", 21))
  {
    var bits := "110100101111111000101000";
    ExampleGroupSlices(bits);
    assert "10111"[1..] == "0111";
    assert "11110"[1..] == "1110";
    assert "00101"[1..] == "0101";
    assert "01111110" + "0101" == "011111100101";
    assert LiteralGroups(bits, 16, "01111110") == Ok(("011111100101", 21));
    assert "0111" + "1110" == "01111110";
    assert LiteralGroups(bits, 11, "0111") == Ok(("011111100101", 21));
    assert [] + "0111" == "0111";
  }

  /** The header and payload of the literal example parse as binary numbers. */
  lemma ExampleParses()
    ensures ParseBinary("110") == Ok(6) && ParseBinary("100") == Ok(4)
    ensures ParseBinary("011111100101") == Ok(2021)
  {
    ExampleValues();
    assert BinaryFrom("110", 0) && BinaryFrom("100", 0);
    BinaryFromIsBinary("110", 0);
    BinaryFromIsBinary("100", 0);
    assert BinaryFrom("011111100101", 0);
    BinaryFromIsBinary("011111100101", 0);
  }

  /** The literal example: `110100101111111000101000` is version 6, value 2021, 21 bits long. */
  lemma LiteralExample()
    ensures ReadPacketSpec("110100101111111000101000", 0) == Ok(Decoded(6, 6, 2021, 21))
  {
    var bits := "110100101111111000101000";
    assert Slice(bits, 0, 3) == "110";
    assert bits[3..6][0] == '1' && bits[3..6][1] == '0' && bits[3..6][2] == '0';
    assert Slice(bits, 3, 6) == "100";
    ExampleParses();
    ExampleGroups();
    assert LiteralPacket(6, LiteralGroups(bits, 6, [])) == Ok(Decoded(6, 6, 2021, 21));
  }
}
