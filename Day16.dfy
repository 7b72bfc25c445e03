/** Packet decoder: a hexadecimal transmission is expanded to bits and read
    as a tree of packets (literals and operators), which is then evaluated
    and whose version numbers are summed. This module holds the packet
    values, the reading of the bit string as functions, evaluation, and the
    encoding that reading inverts. */
module Day16 {
  import opened Common

  // ---------------------------------------------------------------------
  // Hexadecimal to bits

  predicate IsHex(c: char) { '0' <= c <= '9' || 'A' <= c <= 'F' }

  function HexValue(c: char): (v: nat)
    requires IsHex(c)
    ensures v < 16
  {
    if c <= '9' then c as int - '0' as int else c as int - 'A' as int + 10
  }

  /** The hexadecimal-to-bits table. */
  function HexBits(c: char): string
    requires IsHex(c)
  {
    match c
    case '0' => "0000" case '1' => "0001" case '2' => "0010" case '3' => "0011"
    case '4' => "0100" case '5' => "0101" case '6' => "0110" case '7' => "0111"
    case '8' => "1000" case '9' => "1001" case 'A' => "1010" case 'B' => "1011"
    case 'C' => "1100" case 'D' => "1101" case 'E' => "1110" case 'F' => "1111"
  }

  /** Each table entry is the four-digit binary numeral of its character. */
  lemma HexBitsValue(c: char)
    requires IsHex(c)
    ensures |HexBits(c)| == 4 && IsBinary(HexBits(c))
    ensures BinaryValue(HexBits(c)) == HexValue(c)
  {
    HexBitsNumeral(c);
    NumeralBinary(HexValue(c), 4);
    assert Pow(2, 4) == 16;
    NumeralValue(HexValue(c), 4);
  }

  lemma HexBitsNumeral(c: char)
    requires IsHex(c)
    ensures HexBits(c) == Numeral(HexValue(c), 4)
  {
    match c
    case '0' => case '1' => case '2' => case '3' => case '4' => case '5' => case '6' => case '7' =>
    case '8' => case '9' => case 'A' => case 'B' => case 'C' => case 'D' => case 'E' => case 'F' =>
  }

  predicate IsBinary(s: string) { forall i :: 0 <= i < |s| ==> s[i] == '0' || s[i] == '1' }

  /** ConvertToBinary: the table entries of the characters, in order; a
      character outside the table throws. */
  function ToBinary(hex: string): (r: Result<string>)
    ensures r.Ok? <==> forall i :: 0 <= i < |hex| ==> IsHex(hex[i])
    ensures r.Err? ==> r.msg == "KeyNotFoundException"
  {
    if hex == [] then Ok("")
    else
      var rest := ToBinary(hex[..|hex| - 1]);
      var last := hex[|hex| - 1];
      if rest.Err? then rest
      else if !IsHex(last) then Err("KeyNotFoundException")
      else Ok(rest.value + HexBits(last))
  }

  /** The bits have four per character, and the four bits of character i
      are its table entry. */
  lemma {:induction false} ToBinaryLayout(hex: string)
    requires ToBinary(hex).Ok?
    ensures |ToBinary(hex).value| == 4 * |hex|
    ensures forall i :: 0 <= i < |hex| ==> IsHex(hex[i]) && ToBinary(hex).value[4 * i..4 * i + 4] == HexBits(hex[i])
  {
    if hex != [] {
      var init, last := hex[..|hex| - 1], hex[|hex| - 1];
      ToBinaryLayout(init);
      HexBitsValue(last);
      var r, p := ToBinary(hex).value, ToBinary(init).value;
      assert r == p + HexBits(last);
      forall i | 0 <= i < |hex| ensures IsHex(hex[i]) && r[4 * i..4 * i + 4] == HexBits(hex[i]) {
        if i < |init| {
          assert hex[i] == init[i];
          assert r[4 * i..4 * i + 4] == p[4 * i..4 * i + 4];
        } else {
          assert r[4 * i..4 * i + 4] == HexBits(last);
        }
      }
    }
  }

  /** The number a string of hexadecimal digits denotes, most significant
      digit first. */
  function HexNumber(hex: string): nat
    requires forall i :: 0 <= i < |hex| ==> IsHex(hex[i])
  {
    if hex == [] then 0 else HexNumber(hex[..|hex| - 1]) * 16 + HexValue(hex[|hex| - 1])
  }

  /** Read as one binary number, the bits denote the hexadecimal number. */
  lemma {:induction false} ToBinaryValue(hex: string)
    requires ToBinary(hex).Ok?
    ensures BinaryValue(ToBinary(hex).value) == HexNumber(hex)
  {
    if hex != [] {
      var init, last := hex[..|hex| - 1], hex[|hex| - 1];
      ToBinaryValue(init);
      HexBitsValue(last);
      NumeralValue(HexValue(last), 4);
      BinaryValueConcat(ToBinary(init).value, HexBits(last));
    }
  }

  // ---------------------------------------------------------------------
  // Binary numerals

  /** The n-digit binary numeral of v. */
  function Numeral(v: nat, n: nat): (s: string)
    ensures |s| == n
  {
    if n == 0 then "" else Numeral(v / 2, n - 1) + [if v % 2 == 1 then '1' else '0']
  }

  /** A numeral has binary digits only. */
  lemma {:induction false} NumeralBinary(v: nat, n: nat)
    ensures IsBinary(Numeral(v, n))
  {
    if n > 0 {
      NumeralBinary(v / 2, n - 1);
      var s := Numeral(v, n);
      assert s[..n - 1] == Numeral(v / 2, n - 1);
      assert forall i :: 0 <= i < n - 1 ==> s[i] == s[..n - 1][i];
    }
  }

  /** An n-digit numeral reads back as its number when the number fits in
      n digits. */
  lemma {:induction false} NumeralValue(v: nat, n: nat)
    requires v < Pow(2, n)
    ensures BinaryValue(Numeral(v, n)) == v
  {
    if n > 0 {
      NumeralValue(v / 2, n - 1);
      var s := Numeral(v, n);
      assert s[..|s| - 1] == Numeral(v / 2, n - 1);
    }
  }

  /** The value of a concatenation of digit strings. */
  lemma {:induction false} BinaryValueConcat(a: string, b: string)
    ensures BinaryValue(a + b) == BinaryValue(a) * Pow(2, |b|) + BinaryValue(b)
  {
    if b != [] {
      var init := b[..|b| - 1];
      assert (a + b)[..|a + b| - 1] == a + init;
      BinaryValueConcat(a, init);
      var x, p, bit := BinaryValue(a), Pow(2, |init|), if b[|b| - 1] == '1' then 1 else 0;
      assert (a + b)[|a + b| - 1] == b[|b| - 1];
      assert BinaryValue(a + b) == 2 * BinaryValue(a + init) + bit;
      assert BinaryValue(b) == 2 * BinaryValue(init) + bit;
      assert Pow(2, |b|) == 2 * p;
      ShiftOne(x, p, BinaryValue(init), bit);
    } else {
      assert a + b == a;
    }
  }

  lemma ShiftOne(x: int, p: int, v: int, bit: int)
    ensures 2 * (x * p + v) + bit == x * (2 * p) + (2 * v + bit)
  {
  }

  // ---------------------------------------------------------------------
  // Packets

  /** A packet: a literal holds a number; an operator holds its length
      type character and its subpackets. */
  datatype Packet =
    | Literal(version: int, typeCode: int, value: int)
    | Operator(version: int, typeCode: int, lengthTypeId: char, subpackets: seq<Packet>)

  /** What a reader yields: the item read and the position after it. */
  datatype Parsed<T> = Parsed(item: T, position: int)

  const OutOfRange := "ArgumentOutOfRangeException"

  /** Packet.ReadPacket: bits 3..5 of the header select a literal (4) or an
      operator (anything else). Reading past the end throws. */
  function ParsePacket(input: string, pos: nat): (r: Result<Parsed<Packet>>)
    requires pos <= |input|
    ensures r.Ok? ==> pos + 7 <= r.value.position <= |input|
    decreases |input| - pos, 2
  {
    if pos + 6 > |input| then Err(OutOfRange)
    else if BinaryValue(input[pos + 3..pos + 6]) == 4 then ParseLiteral(input, pos)
    else ParseOperator(input, pos)
  }

  /** LiteralPacket.ReadLiteralPacket: the header, then 5-bit groups up to
      and including the first whose leading bit is '0'; the value is that of
      the groups' 4-bit payloads, concatenated. */
  function ParseLiteral(input: string, pos: nat): (r: Result<Parsed<Packet>>)
    requires pos <= |input|
    ensures r.Ok? ==> pos + 11 <= r.value.position <= |input|
    ensures r.Ok? ==> r.value.item.Literal?
  {
    if pos + 6 > |input| then Err(OutOfRange)
    else
      var groups := ParseGroups(input, pos + 6, "");
      if groups.Err? then Err(groups.msg)
      else
        var version, typeCode := BinaryValue(input[pos..pos + 3]), BinaryValue(input[pos + 3..pos + 6]);
        Ok(Parsed(Literal(version, typeCode, BinaryValue(groups.value.item)), groups.value.position))
  }

  /** The group loop of ReadLiteralPacket, with the payload read so far. */
  function ParseGroups(input: string, pos: nat, payload: string): (r: Result<Parsed<string>>)
    requires pos <= |input|
    ensures r.Ok? ==> pos + 5 <= r.value.position <= |input|
    ensures r.Err? ==> r.msg == OutOfRange
    decreases |input| - pos
  {
    if pos + 5 > |input| then Err(OutOfRange)
    else
      var group := input[pos..pos + 5];
      if group[0] == '0' then Ok(Parsed(payload + group[1..], pos + 5))
      else ParseGroups(input, pos + 5, payload + group[1..])
  }

  /** OperatorPacket.ReadOperatorPacket: the header and the length type
      character; '0' is followed by a 15-bit length in bits, '1' by an
      11-bit number of subpackets, and any other character by nothing. */
  function ParseOperator(input: string, pos: nat): (r: Result<Parsed<Packet>>)
    requires pos <= |input|
    ensures r.Ok? ==> pos + 7 <= r.value.position <= |input|
    ensures r.Ok? ==> r.value.item.Operator?
    decreases |input| - pos, 1
  {
    if pos + 7 > |input| then Err(OutOfRange)
    else
      var version, typeCode := BinaryValue(input[pos..pos + 3]), BinaryValue(input[pos + 3..pos + 6]);
      var lengthTypeId := input[pos + 6];
      if lengthTypeId == '0' then
        if pos + 22 > |input| then Err(OutOfRange)
        else
          var subs := ParseByLength(input, pos + 22, pos + 22, BinaryValue(input[pos + 7..pos + 22]));
          if subs.Err? then Err(subs.msg)
          else Ok(Parsed(Operator(version, typeCode, lengthTypeId, subs.value.item), subs.value.position))
      else if lengthTypeId == '1' then
        if pos + 18 > |input| then Err(OutOfRange)
        else
          var subs := ParseByCount(input, pos + 18, BinaryValue(input[pos + 7..pos + 18]));
          if subs.Err? then Err(subs.msg)
          else Ok(Parsed(Operator(version, typeCode, lengthTypeId, subs.value.item), subs.value.position))
      else Ok(Parsed(Operator(version, typeCode, lengthTypeId, []), pos + 7))
  }

  /** ReadSubpacketsByLength: packets while fewer than totalLength bits
      have been read since start. */
  function ParseByLength(input: string, start: nat, pos: nat, totalLength: int): (r: Result<Parsed<seq<Packet>>>)
    requires start <= pos <= |input|
    ensures r.Ok? ==> pos <= r.value.position <= |input| && r.value.position - start >= totalLength
    decreases |input| - pos + 1, 0
  {
    if pos - start >= totalLength then Ok(Parsed([], pos))
    else
      var first := ParsePacket(input, pos);
      if first.Err? then Err(first.msg)
      else
        var rest := ParseByLength(input, start, first.value.position, totalLength);
        if rest.Err? then rest
        else Ok(Parsed([first.value.item] + rest.value.item, rest.value.position))
  }

  /** ReadSubpacketsByCount: exactly count packets. */
  function ParseByCount(input: string, pos: nat, count: int): (r: Result<Parsed<seq<Packet>>>)
    requires pos <= |input|
    ensures r.Ok? ==> pos <= r.value.position <= |input| && |r.value.item| == if count < 0 then 0 else count
    decreases |input| - pos + 1, 0
  {
    if count <= 0 then Ok(Parsed([], pos))
    else
      var first := ParsePacket(input, pos);
      if first.Err? then Err(first.msg)
      else
        var rest := ParseByCount(input, first.value.position, count - 1);
        if rest.Err? then rest
        else Ok(Parsed([first.value.item] + rest.value.item, rest.value.position))
  }

  // ---------------------------------------------------------------------
  // Evaluation

  const TwoSubpackets := "ArgumentException: Must have two subpackets"
  const Unrecognized := "ArgumentException: Unrecognized packet type"
  const NoElements := "InvalidOperationException"

  /** The values of the packets, in order; the first failure wins. */
  function Values(ps: seq<Packet>): (r: Result<seq<int>>)
    ensures r.Ok? ==> |r.value| == |ps|
    decreases ps
  {
    if ps == [] then Ok([])
    else
      var first := Value(ps[0]);
      if first.Err? then Err(first.msg)
      else
        var rest := Values(ps[1..]);
        if rest.Err? then rest else Ok([first.value] + rest.value)
  }

  /** GetValue: a literal's number; an operator combines its subpackets'
      values by its type code: 0 sum, 1 product, 2 minimum, 3 maximum,
      5 greater-than, 6 less-than, 7 equal-to (1 or 0, two subpackets
      only); any other code throws. */
  function Value(p: Packet): (r: Result<int>)
    decreases p
  {
    match p
    case Literal(_, _, v) => Ok(v)
    case Operator(_, t, _, subs) =>
      if 0 <= t <= 3 then
        if (t == 2 || t == 3) && subs == [] then Err(NoElements)
        else
          var vs := Values(subs);
          if vs.Err? then Err(vs.msg)
          else if t == 0 then Ok(Sum(vs.value))
          else if t == 1 then Ok(Product(vs.value))
          else if t == 2 then Ok(Least(vs.value))
          else Ok(Greatest(vs.value))
      else if 5 <= t <= 7 then
        if |subs| != 2 then Err(TwoSubpackets)
        else
          var a := Value(subs[0]);
          if a.Err? then a
          else
            var b := Value(subs[1]);
            if b.Err? then b
            else if t == 5 then Ok(if a.value > b.value then 1 else 0)
            else if t == 6 then Ok(if a.value < b.value then 1 else 0)
            else Ok(if a.value == b.value then 1 else 0)
      else Err(Unrecognized)
  }

  function Product(s: seq<int>): int
  {
    if s == [] then 1 else Product(s[..|s| - 1]) * s[|s| - 1]
  }

  function Least(s: seq<int>): (m: int)
    requires s != []
    ensures m in s && forall x :: x in s ==> m <= x
  {
    if |s| == 1 then s[0]
    else
      var rest := Least(s[..|s| - 1]);
      assert forall x :: x in s ==> x in s[..|s| - 1] || x == s[|s| - 1];
      if s[|s| - 1] < rest then s[|s| - 1] else rest
  }

  function Greatest(s: seq<int>): (m: int)
    requires s != []
    ensures m in s && forall x :: x in s ==> x <= m
  {
    if |s| == 1 then s[0]
    else
      var rest := Greatest(s[..|s| - 1]);
      assert forall x :: x in s ==> x in s[..|s| - 1] || x == s[|s| - 1];
      if s[|s| - 1] > rest then s[|s| - 1] else rest
  }

  /** The packets GetValue accepts: every operator has a known type code,
      the minimum and maximum have subpackets, and the comparisons have
      exactly two. */
  predicate Evaluable(p: Packet)
    decreases p
  {
    match p
    case Literal(_, _, _) => true
    case Operator(_, t, _, subs) =>
      && (0 <= t <= 3 || 5 <= t <= 7)
      && ((t == 2 || t == 3) ==> subs != [])
      && (5 <= t <= 7 ==> |subs| == 2)
      && forall i :: 0 <= i < |subs| ==> Evaluable(subs[i])
  }

  /** GetValue throws exactly on the packets that are not evaluable. */
  lemma {:induction false} ValueDefined(p: Packet)
    ensures Value(p).Ok? <==> Evaluable(p)
    decreases p
  {
    match p
    case Literal(_, _, _) =>
    case Operator(_, t, _, subs) =>
      ValuesDefined(subs);
      if 5 <= t <= 7 && |subs| == 2 {
        ValueDefined(subs[0]);
        ValueDefined(subs[1]);
      }
  }

  lemma {:induction false} ValuesDefined(ps: seq<Packet>)
    ensures Values(ps).Ok? <==> forall i :: 0 <= i < |ps| ==> Evaluable(ps[i])
    decreases ps
  {
    if ps != [] {
      ValueDefined(ps[0]);
      ValuesDefined(ps[1..]);
      assert forall i :: 1 <= i < |ps| ==> ps[i] == ps[1..][i - 1];
    }
  }

  /** The comparisons yield 1 exactly when their relation holds between
      the two subpackets' values, and 0 otherwise. */
  lemma ComparisonValue(p: Packet)
    requires p.Operator? && 5 <= p.typeCode <= 7 && Value(p).Ok?
    ensures |p.subpackets| == 2 && Value(p.subpackets[0]).Ok? && Value(p.subpackets[1]).Ok?
    ensures var a, b := Value(p.subpackets[0]).value, Value(p.subpackets[1]).value;
      Value(p).value == (if (p.typeCode == 5 && a > b) || (p.typeCode == 6 && a < b) || (p.typeCode == 7 && a == b) then 1 else 0)
  {
  }

  /** The minimum and maximum are attained by a subpacket and bound all of
      them. */
  lemma ExtremeValue(p: Packet)
    requires p.Operator? && (p.typeCode == 2 || p.typeCode == 3) && Value(p).Ok?
    ensures Values(p.subpackets).Ok? && Value(p).value in Values(p.subpackets).value
    ensures p.typeCode == 2 ==> forall v :: v in Values(p.subpackets).value ==> Value(p).value <= v
    ensures p.typeCode == 3 ==> forall v :: v in Values(p.subpackets).value ==> v <= Value(p).value
  {
  }

  // ---------------------------------------------------------------------
  // Version numbers

  /** CountAllVersionInstances: a packet's version plus those of all its
      subpackets, recursively. */
  function VersionTotal(p: Packet): int
    decreases p
  {
    match p
    case Literal(v, _, _) => v
    case Operator(v, _, _, subs) => v + VersionTotals(subs)
  }

  function VersionTotals(ps: seq<Packet>): int
    decreases ps
  {
    if ps == [] then 0 else VersionTotal(ps[0]) + VersionTotals(ps[1..])
  }

  /** Every packet of the tree, each before its subpackets. */
  function AllPackets(p: Packet): (r: seq<Packet>)
    ensures |r| >= 1 && r[0] == p
    decreases p
  {
    match p
    case Literal(_, _, _) => [p]
    case Operator(_, _, _, subs) => [p] + AllPacketsOf(subs)
  }

  function AllPacketsOf(ps: seq<Packet>): seq<Packet>
    decreases ps
  {
    if ps == [] then [] else AllPackets(ps[0]) + AllPacketsOf(ps[1..])
  }

  function VersionsOf(ps: seq<Packet>): (r: seq<int>)
    ensures |r| == |ps|
  {
    if ps == [] then [] else VersionsOf(ps[..|ps| - 1]) + [ps[|ps| - 1].version]
  }

  lemma {:induction false} VersionsOfConcat(a: seq<Packet>, b: seq<Packet>)
    ensures VersionsOf(a + b) == VersionsOf(a) + VersionsOf(b)
    decreases |b|
  {
    if b == [] {
      assert a + b == a;
    } else {
      assert (a + b)[..|a + b| - 1] == a + b[..|b| - 1];
      VersionsOfConcat(a, b[..|b| - 1]);
    }
  }

  lemma VersionsOfSingle(p: Packet)
    ensures VersionsOf([p]) == [p.version] && Sum(VersionsOf([p])) == p.version
  {
    assert [p][..0] == [];
    assert [p.version][..0] == [];
  }

  /** The count is the sum of the versions of every packet of the tree. */
  lemma {:induction false} VersionTotalIsSum(p: Packet)
    ensures VersionTotal(p) == Sum(VersionsOf(AllPackets(p)))
    decreases p
  {
    match p
    case Literal(_, _, _) =>
      VersionsOfSingle(p);
    case Operator(v, _, _, subs) =>
      VersionTotalsIsSum(subs);
      VersionsOfConcat([p], AllPacketsOf(subs));
      VersionsOfSingle(p);
      SumConcat([v], VersionsOf(AllPacketsOf(subs)));
  }

  lemma {:induction false} VersionTotalsIsSum(ps: seq<Packet>)
    ensures VersionTotals(ps) == Sum(VersionsOf(AllPacketsOf(ps)))
    decreases ps
  {
    if ps != [] {
      VersionTotalIsSum(ps[0]);
      VersionTotalsIsSum(ps[1..]);
      VersionsOfConcat(AllPackets(ps[0]), AllPacketsOf(ps[1..]));
      SumConcat(VersionsOf(AllPackets(ps[0])), VersionsOf(AllPacketsOf(ps[1..])));
    }
  }

  // ---------------------------------------------------------------------
  // Encoding: what the reader inverts

  function Flag(last: bool): char { if last then '0' else '1' }

  /** The 5-bit groups of a literal value: its hexadecimal digits, most
      significant first, each after a flag that is '0' on the last group
      only (when last holds). */
  function Groups(value: nat, last: bool): (s: string)
    ensures |s| >= 5
  {
    if value < 16 then [Flag(last)] + Numeral(value, 4)
    else Groups(value / 16, false) + [Flag(last)] + Numeral(value % 16, 4)
  }

  /** The 4-bit payloads of Groups, concatenated. */
  function Payload(value: nat): string
  {
    if value < 16 then Numeral(value, 4) else Payload(value / 16) + Numeral(value % 16, 4)
  }

  lemma {:induction false} PayloadValue(value: nat)
    ensures BinaryValue(Payload(value)) == value
  {
    assert Pow(2, 4) == 16;
    NumeralValue(value % 16, 4);
    if value >= 16 {
      PayloadValue(value / 16);
      BinaryValueConcat(Payload(value / 16), Numeral(value % 16, 4));
    }
  }

  /** The bits of a packet as a transmitter sends it. */
  function Encode(p: Packet): (s: string)
    ensures |s| >= 7
    decreases p
  {
    match p
    case Literal(v, t, value) =>
      Numeral(Natural(v), 3) + Numeral(Natural(t), 3) + Groups(Natural(value), true)
    case Operator(v, t, lt, subs) =>
      Numeral(Natural(v), 3) + Numeral(Natural(t), 3) + [lt]
        + (if lt == '0' then Numeral(|EncodeAll(subs)|, 15) else if lt == '1' then Numeral(|subs|, 11) else "")
        + EncodeAll(subs)
  }

  function EncodeAll(ps: seq<Packet>): string
    decreases ps
  {
    if ps == [] then "" else Encode(ps[0]) + EncodeAll(ps[1..])
  }

  function Natural(x: int): nat { if x < 0 then 0 else x }

  /** The packets a transmitter can send: 3-bit versions and type codes, a
      literal of type 4 with a non-negative value, and an operator of any
      other type with length type '0' or '1' whose length or count fits
      its field. */
  predicate Encodable(p: Packet)
    decreases p
  {
    match p
    case Literal(v, t, value) => 0 <= v < 8 && t == 4 && value >= 0
    case Operator(v, t, lt, subs) =>
      && 0 <= v < 8 && 0 <= t < 8 && t != 4
      && EncodableAll(subs)
      && (lt == '0' || lt == '1')
      && (lt == '0' ==> |EncodeAll(subs)| < Pow(2, 15))
      && (lt == '1' ==> |subs| < Pow(2, 11))
  }

  predicate EncodableAll(ps: seq<Packet>)
    decreases ps
  {
    ps == [] || (Encodable(ps[0]) && EncodableAll(ps[1..]))
  }

  /** Two adjacent pieces of a slice. */
  lemma SliceSplit(input: string, i: nat, j: nat, k: nat, a: string, b: string)
    requires j == i + |a| && k == j + |b| && k <= |input| && input[i..k] == a + b
    ensures input[i..j] == a && input[j..k] == b
  {
    assert input[i..j] == (a + b)[..|a|];
    assert input[j..k] == (a + b)[|a|..];
  }

  /** One 5-bit group of the reader's loop. */
  lemma OneGroup(input: string, pos: nat, end: nat, payload: string, last: bool, digit: nat)
    requires digit < 16 && end == pos + 5 && end <= |input| && input[pos..end] == [Flag(last)] + Numeral(digit, 4)
    ensures last ==> ParseGroups(input, pos, payload) == Ok(Parsed(payload + Numeral(digit, 4), end))
    ensures !last ==> ParseGroups(input, pos, payload) == ParseGroups(input, end, payload + Numeral(digit, 4))
  {
    assert input[pos..pos + 5][1..] == Numeral(digit, 4);
  }

  /** The reader's group loop recovers the payload of encoded groups. */
  lemma {:induction false} ParseGroupsEncoded(input: string, pos: nat, end: nat, payload: string, value: nat, last: bool)
    requires end == pos + |Groups(value, last)| && end <= |input| && input[pos..end] == Groups(value, last)
    ensures last ==> ParseGroups(input, pos, payload) == Ok(Parsed(payload + Payload(value), end))
    ensures !last ==> ParseGroups(input, pos, payload) == ParseGroups(input, end, payload + Payload(value))
    decreases value
  {
    if value < 16 {
      OneGroup(input, pos, end, payload, last, value);
    } else {
      var high, low := Groups(value / 16, false), [Flag(last)] + Numeral(value % 16, 4);
      var mid := pos + |high|;
      assert Groups(value, last) == high + low;
      SliceSplit(input, pos, mid, end, high, low);
      ParseGroupsEncoded(input, pos, mid, payload, value / 16, false);
      OneGroup(input, mid, end, payload + Payload(value / 16), last, value % 16);
      assert payload + Payload(value / 16) + Numeral(value % 16, 4) == payload + Payload(value);
    }
  }

  /** A field holding an encoded number that fits it. */
  lemma SmallField(input: string, i: nat, j: nat, v: nat, n: nat)
    requires v < Pow(2, n) && j == i + n && j <= |input| && input[i..j] == Numeral(v, n)
    ensures BinaryValue(input[i..j]) == v
  {
    NumeralValue(v, n);
  }

  /** Reading an encoded packet gives the packet back, and stops right
      after its encoding, whatever follows. */
  lemma {:induction false} ParseEncoded(input: string, pos: nat, end: nat, p: Packet)
    requires Encodable(p)
    requires end == pos + |Encode(p)| && end <= |input| && input[pos..end] == Encode(p)
    ensures ParsePacket(input, pos) == Ok(Parsed(p, end))
    decreases p, 2
  {
    match p
    case Literal(v, _, value) =>
      LiteralLayout(input, pos, end, p);
      ParseEncodedLiteral(input, pos, end, v, value);
    case Operator(v, t, lt, subs) =>
      if lt == '0' {
        LengthLayout(input, pos, end, p);
        ParseLengthOperator(input, pos, end, v, t, subs);
      } else {
        CountLayout(input, pos, end, p);
        ParseCountOperator(input, pos, end, v, t, subs);
      }
  }

  /** The round trip from the start of a transmission: an encoded packet
      followed by anything (the padding of the hexadecimal form) reads back
      as that packet, ending where its encoding ends. */
  lemma ReadEncoded(p: Packet, padding: string)
    requires Encodable(p)
    ensures ParsePacket(Encode(p) + padding, 0) == Ok(Parsed(p, |Encode(p)|))
  {
    var input := Encode(p) + padding;
    assert input[0..|Encode(p)|] == Encode(p);
    ParseEncoded(input, 0, |Encode(p)|, p);
  }

  /** Where the pieces of an encoded literal lie. */
  lemma LiteralLayout(input: string, pos: nat, end: nat, p: Packet)
    requires p.Literal? && Encodable(p)
    requires end == pos + |Encode(p)| && end <= |input| && input[pos..end] == Encode(p)
    ensures end == pos + 6 + |Groups(p.value, true)|
    ensures input[pos..pos + 6] == Numeral(p.version, 3) + Numeral(4, 3)
    ensures input[pos + 6..end] == Groups(p.value, true)
  {
    var header, g := Numeral(p.version, 3) + Numeral(4, 3), Groups(p.value, true);
    assert Encode(p) == header + g;
    SliceSplit(input, pos, pos + 6, end, header, g);
  }

  /** Where the pieces of an encoded operator of length type '0' lie. */
  lemma LengthLayout(input: string, pos: nat, end: nat, p: Packet)
    requires p.Operator? && p.lengthTypeId == '0' && Encodable(p)
    requires end == pos + |Encode(p)| && end <= |input| && input[pos..end] == Encode(p)
    ensures end == pos + 22 + |EncodeAll(p.subpackets)|
    ensures input[pos..pos + 6] == Numeral(p.version, 3) + Numeral(p.typeCode, 3) && input[pos + 6] == '0'
    ensures input[pos + 7..pos + 22] == Numeral(|EncodeAll(p.subpackets)|, 15)
    ensures input[pos + 22..end] == EncodeAll(p.subpackets)
  {
    var header, all := Numeral(p.version, 3) + Numeral(p.typeCode, 3), EncodeAll(p.subpackets);
    var field := Numeral(|all|, 15);
    assert Encode(p) == header + (['0'] + (field + all));
    FieldLayout(input, pos, pos + 22, end, header, '0', field, all);
  }

  /** Where a header, a length type character, a field and the subpackets
      lie when they are adjacent. */
  lemma FieldLayout(input: string, pos: nat, f: nat, end: nat, header: string, c: char, field: string, all: string)
    requires |header| == 6 && f == pos + 7 + |field| && end == f + |all| && end <= |input|
    requires input[pos..end] == header + ([c] + (field + all))
    ensures input[pos..pos + 6] == header && input[pos + 6] == c
    ensures input[pos + 7..f] == field && input[f..end] == all
  {
    SliceSplit(input, pos, pos + 6, end, header, [c] + (field + all));
    SliceSplit(input, pos + 6, pos + 7, end, [c], field + all);
    SliceSplit(input, pos + 7, f, end, field, all);
    assert input[pos + 6] == input[pos + 6..pos + 7][0];
  }

  /** Where the pieces of an encoded operator of length type '1' lie. */
  lemma CountLayout(input: string, pos: nat, end: nat, p: Packet)
    requires p.Operator? && p.lengthTypeId != '0' && Encodable(p)
    requires end == pos + |Encode(p)| && end <= |input| && input[pos..end] == Encode(p)
    ensures p.lengthTypeId == '1' && end == pos + 18 + |EncodeAll(p.subpackets)|
    ensures input[pos..pos + 6] == Numeral(p.version, 3) + Numeral(p.typeCode, 3) && input[pos + 6] == '1'
    ensures input[pos + 7..pos + 18] == Numeral(|p.subpackets|, 11)
    ensures input[pos + 18..end] == EncodeAll(p.subpackets)
  {
    var header, all := Numeral(p.version, 3) + Numeral(p.typeCode, 3), EncodeAll(p.subpackets);
    var field := Numeral(|p.subpackets|, 11);
    assert Encode(p) == header + (['1'] + (field + all));
    FieldLayout(input, pos, pos + 18, end, header, '1', field, all);
  }

  /** The version and type code of an encoded header read back. */
  lemma HeaderFields(input: string, pos: nat, v: nat, t: nat)
    requires v < 8 && t < 8
    requires pos + 6 <= |input| && input[pos..pos + 6] == Numeral(v, 3) + Numeral(t, 3)
    ensures BinaryValue(input[pos..pos + 3]) == v && BinaryValue(input[pos + 3..pos + 6]) == t
  {
    assert Pow(2, 3) == 8;
    SliceSplit(input, pos, pos + 3, pos + 6, Numeral(v, 3), Numeral(t, 3));
    SmallField(input, pos, pos + 3, v, 3);
    SmallField(input, pos + 3, pos + 6, t, 3);
  }

  /** An encoded literal reads back. */
  lemma ParseEncodedLiteral(input: string, pos: nat, end: nat, v: nat, value: nat)
    requires v < 8
    requires end == pos + 6 + |Groups(value, true)| && end <= |input|
    requires input[pos..pos + 6] == Numeral(v, 3) + Numeral(4, 3)
    requires input[pos + 6..end] == Groups(value, true)
    ensures ParsePacket(input, pos) == Ok(Parsed(Literal(v, 4, value), end))
  {
    HeaderFields(input, pos, v, 4);
    ParseGroupsEncoded(input, pos + 6, end, "", value, true);
    PayloadValue(value);
    assert "" + Payload(value) == Payload(value);
  }

  /** An encoded operator of length type '0' reads back. */
  lemma {:induction false} ParseLengthOperator(input: string, pos: nat, end: nat, v: nat, t: nat, subs: seq<Packet>)
    requires v < 8 && t < 8 && t != 4 && EncodableAll(subs) && |EncodeAll(subs)| < Pow(2, 15)
    requires end == pos + 22 + |EncodeAll(subs)| && end <= |input|
    requires input[pos..pos + 6] == Numeral(v, 3) + Numeral(t, 3) && input[pos + 6] == '0'
    requires input[pos + 7..pos + 22] == Numeral(|EncodeAll(subs)|, 15)
    requires input[pos + 22..end] == EncodeAll(subs)
    ensures ParsePacket(input, pos) == Ok(Parsed(Operator(v, t, '0', subs), end))
    decreases subs, 1
  {
    var n := |EncodeAll(subs)|;
    HeaderFields(input, pos, v, t);
    SmallField(input, pos + 7, pos + 22, n, 15);
    ParseAllByLength(input, pos + 22, pos + 22, end, n, subs);
    OperatorByLength(input, pos, subs, end);
  }

  /** An encoded operator of length type '1' reads back. */
  lemma {:induction false} ParseCountOperator(input: string, pos: nat, end: nat, v: nat, t: nat, subs: seq<Packet>)
    requires v < 8 && t < 8 && t != 4 && EncodableAll(subs) && |subs| < Pow(2, 11)
    requires end == pos + 18 + |EncodeAll(subs)| && end <= |input|
    requires input[pos..pos + 6] == Numeral(v, 3) + Numeral(t, 3) && input[pos + 6] == '1'
    requires input[pos + 7..pos + 18] == Numeral(|subs|, 11)
    requires input[pos + 18..end] == EncodeAll(subs)
    ensures ParsePacket(input, pos) == Ok(Parsed(Operator(v, t, '1', subs), end))
    decreases subs, 1
  {
    HeaderFields(input, pos, v, t);
    SmallField(input, pos + 7, pos + 18, |subs|, 11);
    ParseAllByCount(input, pos + 18, end, subs);
    OperatorByCount(input, pos, subs, end);
  }

  /** An operator of length type '0' whose subpackets read as subs. */
  lemma OperatorByLength(input: string, pos: nat, subs: seq<Packet>, end: int)
    requires pos + 22 <= |input| && BinaryValue(input[pos + 3..pos + 6]) != 4 && input[pos + 6] == '0'
    requires ParseByLength(input, pos + 22, pos + 22, BinaryValue(input[pos + 7..pos + 22])) == Ok(Parsed(subs, end))
    ensures ParsePacket(input, pos)
         == Ok(Parsed(Operator(BinaryValue(input[pos..pos + 3]), BinaryValue(input[pos + 3..pos + 6]), '0', subs), end))
  {
  }

  /** An operator of length type '1' whose subpackets read as subs. */
  lemma OperatorByCount(input: string, pos: nat, subs: seq<Packet>, end: int)
    requires pos + 18 <= |input| && BinaryValue(input[pos + 3..pos + 6]) != 4 && input[pos + 6] == '1'
    requires ParseByCount(input, pos + 18, BinaryValue(input[pos + 7..pos + 18])) == Ok(Parsed(subs, end))
    ensures ParsePacket(input, pos)
         == Ok(Parsed(Operator(BinaryValue(input[pos..pos + 3]), BinaryValue(input[pos + 3..pos + 6]), '1', subs), end))
  {
  }

  /** A list reader that reads one packet and then the rest. */
  lemma LengthStep(input: string, start: nat, pos: nat, totalLength: int, p: Packet, q: nat, tail: seq<Packet>, end: int)
    requires start <= pos <= |input| && pos - start < totalLength
    requires ParsePacket(input, pos) == Ok(Parsed(p, q))
    requires q <= |input| && ParseByLength(input, start, q, totalLength) == Ok(Parsed(tail, end))
    ensures ParseByLength(input, start, pos, totalLength) == Ok(Parsed([p] + tail, end))
  {
  }

  lemma CountStep(input: string, pos: nat, count: int, p: Packet, q: nat, tail: seq<Packet>, end: int)
    requires pos <= |input| && count > 0
    requires ParsePacket(input, pos) == Ok(Parsed(p, q))
    requires q <= |input| && ParseByCount(input, q, count - 1) == Ok(Parsed(tail, end))
    ensures ParseByCount(input, pos, count) == Ok(Parsed([p] + tail, end))
  {
  }

  /** The length reader recovers a sequence of encoded packets that fills
      the length exactly. */
  lemma {:induction false} ParseAllByLength(input: string, start: nat, pos: nat, end: nat, totalLength: int, ps: seq<Packet>)
    requires EncodableAll(ps)
    requires start <= pos && end - start == totalLength
    requires end == pos + |EncodeAll(ps)| && end <= |input| && input[pos..end] == EncodeAll(ps)
    ensures ParseByLength(input, start, pos, totalLength) == Ok(Parsed(ps, end))
    decreases ps, 0
  {
    if ps != [] {
      var first, rest := Encode(ps[0]), EncodeAll(ps[1..]);
      var mid := pos + |first|;
      SliceSplit(input, pos, mid, end, first, rest);
      ParseEncoded(input, pos, mid, ps[0]);
      ParseAllByLength(input, start, mid, end, totalLength, ps[1..]);
      LengthStep(input, start, pos, totalLength, ps[0], mid, ps[1..], end);
      assert [ps[0]] + ps[1..] == ps;
    }
  }

  /** The count reader recovers a sequence of encoded packets. */
  lemma {:induction false} ParseAllByCount(input: string, pos: nat, end: nat, ps: seq<Packet>)
    requires EncodableAll(ps)
    requires end == pos + |EncodeAll(ps)| && end <= |input| && input[pos..end] == EncodeAll(ps)
    ensures ParseByCount(input, pos, |ps|) == Ok(Parsed(ps, end))
    decreases ps, 0
  {
    if ps != [] {
      var first, rest := Encode(ps[0]), EncodeAll(ps[1..]);
      var mid := pos + |first|;
      SliceSplit(input, pos, mid, end, first, rest);
      ParseEncoded(input, pos, mid, ps[0]);
      ParseAllByCount(input, mid, end, ps[1..]);
      CountStep(input, pos, |ps|, ps[0], mid, ps[1..], end);
      assert [ps[0]] + ps[1..] == ps;
    }
  }
}
