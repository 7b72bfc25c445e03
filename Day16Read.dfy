/** The packet decoder's readers as the program runs them: a cursor that
    moves along the bit string, loops that collect groups and subpackets,
    and the digit loops of BinaryToLong and ConvertToBinary. Each reader is
    proved to compute the function of module Day16 that describes it; a
    thrown exception is an Err result, and the cursor the C# code passes by
    reference comes back as the position of the Parsed result. */
module Day16Read {
  import opened Common
  import opened Day16

  /** BinaryToLong: from the last digit to the first, add the current
      power of two for every '1'. */
  method BinaryToLong(binary: string) returns (sum: int)
    ensures sum == BinaryValue(binary)
  {
    sum := 0;
    var shifter := 1;
    var i := |binary|;
    while i > 0
      invariant 0 <= i <= |binary|
      invariant sum == BinaryValue(binary[i..]) && shifter == Pow(2, |binary| - i)
    {
      i := i - 1;
      assert binary[i..] == [binary[i]] + binary[i + 1..];
      BinaryValueCons(binary[i], binary[i + 1..]);
      if binary[i] == '1' {
        sum := sum + shifter;
      }
      shifter := shifter * 2;
    }
    assert binary[0..] == binary;
  }

  /** ConvertToBinary: the table entry of every character, appended in
      order; a character outside the table throws. */
  method ConvertToBinary(hex: string) returns (r: Result<string>)
    ensures r == ToBinary(hex)
  {
    var builder := "";
    for i := 0 to |hex|
      invariant ToBinary(hex[..i]) == Ok(builder)
    {
      assert hex[..i + 1][..i] == hex[..i];
      if !IsHex(hex[i]) {
        assert !IsHex(hex[..i + 1][i]);
        assert hex[..i + 1][..i + 1] == hex[..i + 1];
        PrefixFails(hex, i + 1);
        return Err("KeyNotFoundException");
      }
      builder := builder + HexBits(hex[i]);
    }
    assert hex[..|hex|] == hex;
    return Ok(builder);
  }

  /** A character outside the table anywhere in a prefix fails the whole
      conversion, with the table's exception. */
  lemma PrefixFails(hex: string, n: nat)
    requires n <= |hex| && ToBinary(hex[..n]).Err?
    ensures ToBinary(hex) == Err("KeyNotFoundException")
  {
    var i :| 0 <= i < n && !IsHex(hex[..n][i]);
    assert hex[i] == hex[..n][i];
  }

  /** Packet.ReadPacket: bits 3..5 of the header select the literal or the
      operator reader. */
  method ReadPacket(input: string, pos: nat) returns (r: Result<Parsed<Packet>>)
    requires pos <= |input|
    ensures r == ParsePacket(input, pos)
    decreases |input| - pos, 2
  {
    if pos + 6 > |input| {
      return Err(OutOfRange);
    }
    var packetType := BinaryToLong(input[pos..pos + 6][3..]);
    assert input[pos..pos + 6][3..] == input[pos + 3..pos + 6];
    if packetType == 4 {
      r := ReadLiteralPacket(input, pos);
    } else {
      r := ReadOperatorPacket(input, pos);
    }
  }

  /** LiteralPacket.ReadLiteralPacket: the header, then 5-bit groups until
      one that starts with '0'; the value is that of the 4-bit payloads. */
  method ReadLiteralPacket(input: string, pos: nat) returns (r: Result<Parsed<Packet>>)
    requires pos <= |input|
    ensures r == ParseLiteral(input, pos)
  {
    if pos + 6 > |input| {
      return Err(OutOfRange);
    }
    var version := BinaryToLong(input[pos..pos + 3]);
    var typeCode := BinaryToLong(input[pos + 3..pos + 6]);
    var position := pos + 6;
    var builder := "";
    while true
      invariant pos + 6 <= position <= |input|
      invariant ParseGroups(input, position, builder) == ParseGroups(input, pos + 6, "")
      decreases |input| - position
    {
      if position + 5 > |input| {
        return Err(OutOfRange);
      }
      var nextBitGroup := input[position..position + 5];
      position := position + 5;
      builder := builder + nextBitGroup[1..];
      if nextBitGroup[0] == '0' {
        break;
      }
    }
    var value := BinaryToLong(builder);
    return Ok(Parsed(Literal(version, typeCode, value), position));
  }

  /** OperatorPacket.ReadOperatorPacket: the header, the length type
      character, and the subpackets by length ('0') or by count ('1');
      any other character leaves the subpackets empty. */
  method ReadOperatorPacket(input: string, pos: nat) returns (r: Result<Parsed<Packet>>)
    requires pos <= |input|
    ensures r == ParseOperator(input, pos)
    decreases |input| - pos, 1
  {
    if pos + 7 > |input| {
      return Err(OutOfRange);
    }
    var version := BinaryToLong(input[pos..pos + 3]);
    var typeCode := BinaryToLong(input[pos + 3..pos + 6]);
    var lengthTypeId := input[pos + 6];
    var position := pos + 7;
    if lengthTypeId == '0' {
      if position + 15 > |input| {
        return Err(OutOfRange);
      }
      var length := BinaryToLong(input[position..position + 15]);
      position := position + 15;
      var subs := ReadSubpacketsByLength(input, position, length);
      if subs.Err? {
        return Err(subs.msg);
      }
      return Ok(Parsed(Operator(version, typeCode, lengthTypeId, subs.value.item), subs.value.position));
    } else if lengthTypeId == '1' {
      if position + 11 > |input| {
        return Err(OutOfRange);
      }
      var numberOfSubpackets := BinaryToLong(input[position..position + 11]);
      position := position + 11;
      var subs := ReadSubpacketsByCount(input, position, numberOfSubpackets);
      if subs.Err? {
        return Err(subs.msg);
      }
      return Ok(Parsed(Operator(version, typeCode, lengthTypeId, subs.value.item), subs.value.position));
    }
    return Ok(Parsed(Operator(version, typeCode, lengthTypeId, []), position));
  }

  /** The packets read so far in front of what the rest of a list reader
      yields; a failure of the rest is the failure of the whole. */
  function Prepend(done: seq<Packet>, rest: Result<Parsed<seq<Packet>>>): (r: Result<Parsed<seq<Packet>>>)
    ensures r.Ok? <==> rest.Ok?
    ensures r.Ok? ==> |r.value.item| == |done| + |rest.value.item| && r.value.item[..|done|] == done
    ensures r.Ok? ==> r.value.item[|done|..] == rest.value.item && r.value.position == rest.value.position
  {
    if rest.Err? then rest else Ok(Parsed(done + rest.value.item, rest.value.position))
  }

  /** Reading one more packet moves it from the rest to the packets read. */
  lemma PrependStep(done: seq<Packet>, p: Packet, rest: Result<Parsed<seq<Packet>>>)
    ensures Prepend(done, Prepend([p], rest)) == Prepend(done + [p], rest)
  {
    if rest.Ok? {
      assert done + ([p] + rest.value.item) == done + [p] + rest.value.item;
    }
  }

  /** ReadSubpacketsByLength: packets while fewer than totalLength bits
      have been read since the starting position. */
  method ReadSubpacketsByLength(input: string, pos: nat, totalLength: int) returns (r: Result<Parsed<seq<Packet>>>)
    requires pos <= |input|
    ensures r == ParseByLength(input, pos, pos, totalLength)
    decreases |input| - pos + 1, 0
  {
    var position := pos;
    var packets := [];
    while position - pos < totalLength
      invariant pos <= position <= |input|
      invariant ParseByLength(input, pos, pos, totalLength) == Prepend(packets, ParseByLength(input, pos, position, totalLength))
      decreases |input| - position
    {
      var newPacket := ReadPacket(input, position);
      if newPacket.Err? {
        return Err(newPacket.msg);
      }
      PrependStep(packets, newPacket.value.item, ParseByLength(input, pos, newPacket.value.position, totalLength));
      packets := packets + [newPacket.value.item];
      position := newPacket.value.position;
    }
    assert packets + [] == packets;
    return Ok(Parsed(packets, position));
  }

  /** ReadSubpacketsByCount: exactly count packets. */
  method ReadSubpacketsByCount(input: string, pos: nat, count: int) returns (r: Result<Parsed<seq<Packet>>>)
    requires pos <= |input|
    ensures r == ParseByCount(input, pos, count)
    decreases |input| - pos + 1, 0
  {
    var position := pos;
    var packets := [];
    var i := 0;
    while i < count
      invariant pos <= position <= |input| && i >= 0
      invariant ParseByCount(input, pos, count) == Prepend(packets, ParseByCount(input, position, count - i))
      decreases count - i
    {
      var newPacket := ReadPacket(input, position);
      if newPacket.Err? {
        return Err(newPacket.msg);
      }
      PrependStep(packets, newPacket.value.item, ParseByCount(input, newPacket.value.position, count - i - 1));
      packets := packets + [newPacket.value.item];
      position := newPacket.value.position;
      i := i + 1;
    }
    assert packets + [] == packets;
    return Ok(Parsed(packets, position));
  }

  /** The product loop of GetValue for type code 1: 1 for no values. */
  method MultiplyAll(values: seq<int>) returns (product: int)
    ensures product == Product(values)
  {
    product := 1;
    for i := 0 to |values|
      invariant product == Product(values[..i])
    {
      assert values[..i + 1][..i] == values[..i];
      product := product * values[i];
    }
    assert values[..|values|] == values;
  }
}
