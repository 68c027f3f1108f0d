/** Shelly manufacturer-specific advertisement data: a walk over vendor
    blocks that begins after the two company-identifier bytes, skips the
    block types 0x01 and 0x0A and takes the device model from block 0x0B. */
module Shelly {
  import opened Buffers

  const SHELLY: string := "Shelly"

  datatype ManufacturerData = ManufacturerData(manufacturer: string, model: Option<string>)

  /** How a walk ends. The source has no case for an unknown block type: the
      offset does not move and its loop never ends, which `Stuck` records. A
      model block cut short makes `readUInt16LE` throw, which is `OutOfRange`. */
  datatype Outcome = Done(data: ManufacturerData) | OutOfRange | Stuck(code: byte)

  /** The model code table; every code not listed, 4 among them, has no name. */
  function DecodeModelName(identifier: int): (name: Option<string>)
    ensures name.Some? <==> identifier in {1, 2, 3, 5, 6, 7, 8}
  {
    match identifier
    case 0x0001 => Some("SBBT-002C")
    case 0x0002 => Some("SBDW-002C")
    case 0x0003 => Some("SBHT-003C")
    case 0x0005 => Some("SBMO-003Z")
    case 0x0006 => Some("SBBT-004CEU")
    case 0x0007 => Some("SBBT-004CUS")
    case 0x0008 => Some("SBTR-001AEU")
    case _ => None
  }

  lemma ModelNamesDistinct(i: int, j: int)
    requires DecodeModelName(i).Some? && DecodeModelName(i) == DecodeModelName(j)
    ensures i == j
  {
  }

  /** The walk over the bytes from the current offset on, `acc` being the
      result built so far. A skip block may run past the end, which ends the
      walk like the end of the buffer does. */
  function ScanBlocks(rest: seq<byte>, acc: ManufacturerData): (r: Outcome)
    decreases |rest|
    ensures r.Done? ==> r.data.manufacturer == acc.manufacturer
    ensures r.Stuck? ==> r.code !in {0x01, 0x0A, 0x0B}
  {
    if rest == [] then Done(acc)
    else if rest[0] == 0x01 then ScanBlocks(Drop(rest, 3), acc)
    else if rest[0] == 0x0A then ScanBlocks(Drop(rest, 7), acc)
    else if rest[0] == 0x0B then
      if |rest| < 3 then OutOfRange
      else ScanBlocks(rest[3..], acc.(model := DecodeModelName(U16LE(rest[1], rest[2]))))
    else Stuck(rest[0])
  }

  /** What decoding a manufacturer-data buffer yields: the walk starts at
      offset 2 with manufacturer "Shelly" and no model. */
  function ShellyData(data: seq<byte>): (r: Outcome)
    ensures r.Done? ==> r.data.manufacturer == SHELLY
  {
    ScanBlocks(Drop(data, 2), ManufacturerData(SHELLY, None))
  }

  /** The decoder as the source writes it: a loop that advances an offset and
      overwrites the model of its result. */
  method DecodeShellyManufacturerData(data: seq<byte>) returns (r: Outcome)
    ensures r == ShellyData(data)
  {
    var result := ManufacturerData(SHELLY, None);
    var offset := 2;
    while offset < |data|
      invariant 2 <= offset
      invariant ScanBlocks(Drop(data, offset), result) == ShellyData(data)
      decreases |data| - offset
    {
      var blockType := data[offset];
      if blockType == 0x01 {
        DropDrop(data, offset, 3);
        offset := offset + 3;
      } else if blockType == 0x0A {
        DropDrop(data, offset, 7);
        offset := offset + 7;
      } else if blockType == 0x0B {
        var code := ReadU16LE(data, offset + 1);
        if code.None? {
          return OutOfRange;
        }
        DropDrop(data, offset, 3);
        result := result.(model := DecodeModelName(code.value));
        offset := offset + 3;
      } else {
        return Stuck(blockType);
      }
    }
    return Done(result);
  }

  /// A reference description of well-formed block streams

  /** One vendor block: the two skipped kinds with their payload bytes, and
      the model block with its 16-bit code. */
  datatype Block = Block01(payload: seq<byte>) | Block0A(payload: seq<byte>) | ModelBlock(code: nat)

  predicate WellFormedBlock(b: Block) {
    match b
    case Block01(p) => |p| == 2
    case Block0A(p) => |p| == 6
    case ModelBlock(c) => c < 0x1_0000
  }

  predicate WellFormedBlocks(bs: seq<Block>) {
    forall i :: 0 <= i < |bs| ==> WellFormedBlock(bs[i])
  }

  function EncodeBlock(b: Block): (r: seq<byte>)
    requires WellFormedBlock(b)
    ensures |r| == match b case Block01(_) => 3 case Block0A(_) => 7 case ModelBlock(_) => 3
  {
    match b
    case Block01(p) => [0x01] + p
    case Block0A(p) => [0x0A] + p
    case ModelBlock(c) => [0x0B] + EncodeU16LE(c)
  }

  function EncodeBlocks(bs: seq<Block>): (r: seq<byte>)
    requires WellFormedBlocks(bs)
  {
    if bs == [] then [] else EncodeBlock(bs[0]) + EncodeBlocks(bs[1..])
  }

  /** The model named by the last model block of `bs`, or `m` when there is none. */
  function LastModel(bs: seq<Block>, m: Option<string>): (r: Option<string>)
  {
    if bs == [] then m
    else if bs[|bs| - 1].ModelBlock? then DecodeModelName(bs[|bs| - 1].code)
    else LastModel(bs[..|bs| - 1], m)
  }

  lemma {:induction false} LastModelCons(b: Block, bs: seq<Block>, m: Option<string>)
    ensures LastModel([b] + bs, m) == LastModel(bs, LastModel([b], m))
    decreases |bs|
  {
    if bs != [] {
      var n := |bs|;
      assert ([b] + bs)[..n] == [b] + bs[..n - 1];
      if !bs[n - 1].ModelBlock? {
        LastModelCons(b, bs[..n - 1], m);
      }
    }
  }

  lemma {:induction false} LastModelWithoutModelBlock(bs: seq<Block>, m: Option<string>)
    requires forall i :: 0 <= i < |bs| ==> !bs[i].ModelBlock?
    ensures LastModel(bs, m) == m
  {
    if bs != [] {
      LastModelWithoutModelBlock(bs[..|bs| - 1], m);
    }
  }

  /** Walking a stream of well-formed blocks leaves the manufacturer alone,
      ignores the skipped blocks and keeps the model of the last model block. */
  lemma {:induction false} ScanEncoded(bs: seq<Block>, tail: seq<byte>, acc: ManufacturerData)
    requires WellFormedBlocks(bs)
    ensures ScanBlocks(EncodeBlocks(bs) + tail, acc)
         == ScanBlocks(tail, acc.(model := LastModel(bs, acc.model)))
  {
    if bs != [] {
      var b := bs[0];
      var head := EncodeBlock(b);
      var rest := EncodeBlocks(bs[1..]) + tail;
      var data := EncodeBlocks(bs) + tail;
      assert data == head + rest;
      var next := acc.(model := LastModel([b], acc.model));
      assert [b][..0] == [];
      match b {
        case Block01(p) =>
          assert data[0] == 0x01 && Drop(data, 3) == rest;
          assert LastModel([b], acc.model) == acc.model;
          assert ScanBlocks(data, acc) == ScanBlocks(rest, next);
        case Block0A(p) =>
          assert data[0] == 0x0A && Drop(data, 7) == rest;
          assert LastModel([b], acc.model) == acc.model;
          assert ScanBlocks(data, acc) == ScanBlocks(rest, next);
        case ModelBlock(c) =>
          U16LEOfEncode(c);
          assert data[0] == 0x0B && data[3..] == rest;
          assert U16LE(data[1], data[2]) == c;
          assert ScanBlocks(data, acc) == ScanBlocks(rest, next);
      }
      ScanEncoded(bs[1..], tail, next);
      assert bs == [b] + bs[1..];
      LastModelCons(b, bs[1..], acc.model);
    } else {
      assert EncodeBlocks(bs) + tail == tail;
    }
  }

  /** What a walk may leave unread when it ends normally: nothing, or one
      skip block that the end of the buffer cuts off. */
  predicate CutSkip(tail: seq<byte>) {
    tail == [] || (tail[0] == 0x01 && |tail| < 3) || (tail[0] == 0x0A && |tail| < 7)
  }

  /** Putting one more block in front of a parsed stream. */
  lemma {:induction false} ConsBlock(b: Block, bs: seq<Block>, m: Option<string>)
    requires WellFormedBlock(b) && WellFormedBlocks(bs)
    ensures WellFormedBlocks([b] + bs)
    ensures EncodeBlocks([b] + bs) == EncodeBlock(b) + EncodeBlocks(bs)
    ensures LastModel([b] + bs, m) == LastModel(bs, LastModel([b], m))
  {
    var cs := [b] + bs;
    assert cs[0] == b && cs[1..] == bs;
    assert WellFormedBlocks(cs) by {
      forall i | 0 <= i < |cs| ensures WellFormedBlock(cs[i]) {
        if i > 0 { assert cs[i] == bs[i - 1]; }
      }
    }
    LastModelCons(b, bs, m);
  }

  /** The blocks a walk that ends normally has read, and what it left
      unread: the parse behind `ScanDoneParses`. */
  lemma {:induction false} ParseScan(rest: seq<byte>, acc: ManufacturerData) returns (bs: seq<Block>, tail: seq<byte>)
    requires ScanBlocks(rest, acc).Done?
    ensures WellFormedBlocks(bs) && CutSkip(tail) && rest == EncodeBlocks(bs) + tail
    ensures ScanBlocks(rest, acc) == Done(acc.(model := LastModel(bs, acc.model)))
    decreases |rest|, 1
  {
    if rest == [] || (rest[0] == 0x01 && |rest| < 3) || (rest[0] == 0x0A && |rest| < 7) {
      bs, tail := [], rest;
      assert rest != [] ==> Drop(rest, if rest[0] == 0x01 then 3 else 7) == [];
      assert acc.(model := acc.model) == acc;
      assert EncodeBlocks(bs) == [];
    } else if rest[0] == 0x0B {
      assert |rest| >= 3;
      bs, tail := ParseModel(rest, acc);
    } else {
      bs, tail := ParseSkip(rest, acc);
    }
  }

  /** `ParseScan` past a whole 0x01 or 0x0A block. */
  lemma {:induction false} ParseSkip(rest: seq<byte>, acc: ManufacturerData) returns (bs: seq<Block>, tail: seq<byte>)
    requires ScanBlocks(rest, acc).Done?
    requires |rest| >= 3 && (rest[0] == 0x01 || (rest[0] == 0x0A && |rest| >= 7))
    ensures WellFormedBlocks(bs) && CutSkip(tail) && rest == EncodeBlocks(bs) + tail
    ensures ScanBlocks(rest, acc) == Done(acc.(model := LastModel(bs, acc.model)))
    decreases |rest|, 0
  {
    var b := SkipStep(rest, acc);
    var bs', tail' := ParseScan(rest[|EncodeBlock(b)|..], acc);
    assert acc.(model := acc.model) == acc;
    FinishParse(rest, acc, acc, b, bs', tail');
    bs, tail := [b] + bs', tail';
  }

  /** One 0x01 or 0x0A block at the front of `rest`, and the walk past it. */
  lemma SkipStep(rest: seq<byte>, acc: ManufacturerData) returns (b: Block)
    requires |rest| >= 3 && (rest[0] == 0x01 || (rest[0] == 0x0A && |rest| >= 7))
    ensures WellFormedBlock(b) && |EncodeBlock(b)| <= |rest| && EncodeBlock(b) == rest[..|EncodeBlock(b)|]
    ensures LastModel([b], acc.model) == acc.model
    ensures ScanBlocks(rest, acc) == ScanBlocks(rest[|EncodeBlock(b)|..], acc)
  {
    if rest[0] == 0x01 {
      b := Block01(rest[1..3]);
      assert Drop(rest, 3) == rest[3..];
    } else {
      b := Block0A(rest[1..7]);
      assert Drop(rest, 7) == rest[7..];
    }
    assert [b][..0] == [];
  }

  /** `ParseScan` past a whole 0x0B block. */
  lemma {:induction false} ParseModel(rest: seq<byte>, acc: ManufacturerData) returns (bs: seq<Block>, tail: seq<byte>)
    requires ScanBlocks(rest, acc).Done?
    requires |rest| >= 3 && rest[0] == 0x0B
    ensures WellFormedBlocks(bs) && CutSkip(tail) && rest == EncodeBlocks(bs) + tail
    ensures ScanBlocks(rest, acc) == Done(acc.(model := LastModel(bs, acc.model)))
    decreases |rest|, 0
  {
    var b := ModelStep(rest, acc);
    var next := acc.(model := DecodeModelName(b.code));
    var bs', tail' := ParseScan(rest[3..], next);
    FinishParse(rest, acc, next, b, bs', tail');
    bs, tail := [b] + bs', tail';
  }

  /** One 0x0B block at the front of `rest`, and the walk past it. */
  lemma ModelStep(rest: seq<byte>, acc: ManufacturerData) returns (b: Block)
    requires |rest| >= 3 && rest[0] == 0x0B
    ensures b.ModelBlock? && WellFormedBlock(b) && EncodeBlock(b) == rest[..3]
    ensures LastModel([b], acc.model) == DecodeModelName(b.code)
    ensures ScanBlocks(rest, acc) == ScanBlocks(rest[3..], acc.(model := DecodeModelName(b.code)))
  {
    b := ModelBlock(U16LE(rest[1], rest[2]));
    EncodeOfU16LE(rest[1], rest[2]);
    assert [b][..0] == [];
  }

  /** Joining the block at the front of `rest` to the parse of what follows
      it: `next` is the result after the block. */
  lemma FinishParse(rest: seq<byte>, acc: ManufacturerData, next: ManufacturerData,
                    b: Block, bs: seq<Block>, tail: seq<byte>)
    requires WellFormedBlock(b) && WellFormedBlocks(bs)
    requires |EncodeBlock(b)| <= |rest| && rest[..|EncodeBlock(b)|] == EncodeBlock(b)
    requires rest[|EncodeBlock(b)|..] == EncodeBlocks(bs) + tail
    requires next == acc.(model := LastModel([b], acc.model))
    ensures WellFormedBlocks([b] + bs) && rest == EncodeBlocks([b] + bs) + tail
    ensures next.(model := LastModel(bs, next.model)) == acc.(model := LastModel([b] + bs, acc.model))
  {
    ConsBlock(b, bs, acc.model);
    JoinEncoding(rest, EncodeBlock(b), EncodeBlocks(bs), tail);
  }

  /** A buffer whose prefix is `head` and whose rest is `body + tail`. */
  lemma JoinEncoding(rest: seq<byte>, head: seq<byte>, body: seq<byte>, tail: seq<byte>)
    requires |head| <= |rest| && rest[..|head|] == head && rest[|head|..] == body + tail
    ensures rest == head + body + tail
  {
    assert rest == rest[..|head|] + rest[|head|..];
  }

  /** The converse of `ScanEncoded`: every walk that ends normally read a
      stream of well-formed blocks, possibly followed by one cut-off skip
      block, and its model is that of the last model block. */
  lemma ScanDoneParses(rest: seq<byte>, acc: ManufacturerData)
    requires ScanBlocks(rest, acc).Done?
    ensures exists bs, tail :: WellFormedBlocks(bs) && CutSkip(tail) && rest == EncodeBlocks(bs) + tail
                           && ScanBlocks(rest, acc) == Done(acc.(model := LastModel(bs, acc.model)))
  {
    var bs, tail := ParseScan(rest, acc);
  }

  /** A whole buffer made of a 2-byte header and well-formed blocks decodes to
      "Shelly" with the model of its last model block, absent if it has none. */
  lemma ShellyDataOfBlocks(header: seq<byte>, bs: seq<Block>)
    requires |header| == 2 && WellFormedBlocks(bs)
    ensures ShellyData(header + EncodeBlocks(bs)) == Done(ManufacturerData(SHELLY, LastModel(bs, None)))
  {
    assert Drop(header + EncodeBlocks(bs), 2) == EncodeBlocks(bs) + [];
    ScanEncoded(bs, [], ManufacturerData(SHELLY, None));
  }

  /** Worked example: company identifier 0x0BA9, a model block with code 3. */
  lemma ModelBlockExample()
    ensures ShellyData([0xA9, 0x0B, 0x0B, 0x03, 0x00]) == Done(ManufacturerData(SHELLY, Some("SBHT-003C")))
  {
    var data: seq<byte> := [0xA9, 0x0B, 0x0B, 0x03, 0x00];
    assert Drop(data, 2) == [0x0B, 0x03, 0x00];
    assert Drop(data, 2)[3..] == [];
  }

  /** The first two bytes, the company identifier, are never inspected. */
  lemma HeaderIgnored(a: seq<byte>, b: seq<byte>, rest: seq<byte>)
    requires |a| == 2 && |b| == 2
    ensures ShellyData(a + rest) == ShellyData(b + rest)
  {
    assert Drop(a + rest, 2) == rest == Drop(b + rest, 2);
  }

  /** A skip block cut off by the end of the buffer ends the walk normally. */
  lemma SkipOvershoot(bs: seq<Block>, blockType: byte, short: seq<byte>, acc: ManufacturerData)
    requires WellFormedBlocks(bs)
    requires (blockType == 0x01 && |short| < 2) || (blockType == 0x0A && |short| < 6)
    ensures ScanBlocks(EncodeBlocks(bs) + [blockType] + short, acc)
         == Done(acc.(model := LastModel(bs, acc.model)))
  {
    var tail := [blockType] + short;
    assert EncodeBlocks(bs) + [blockType] + short == EncodeBlocks(bs) + tail;
    ScanEncoded(bs, tail, acc);
    var next := acc.(model := LastModel(bs, acc.model));
    assert Drop(tail, if blockType == 0x01 then 3 else 7) == [];
    assert ScanBlocks(tail, next) == ScanBlocks([], next) == Done(next);
  }

  /** A model block with fewer than two code bytes makes the read throw. */
  lemma TruncatedModelBlock(bs: seq<Block>, short: seq<byte>, acc: ManufacturerData)
    requires WellFormedBlocks(bs) && |short| < 2
    ensures ScanBlocks(EncodeBlocks(bs) + [0x0B] + short, acc) == OutOfRange
  {
    assert EncodeBlocks(bs) + [0x0B] + short == EncodeBlocks(bs) + ([0x0B] + short);
    ScanEncoded(bs, [0x0B] + short, acc);
  }

  /** An unknown block type after well-formed blocks is where the loop stops
      making progress. */
  lemma UnknownBlockStuck(bs: seq<Block>, blockType: byte, rest: seq<byte>, acc: ManufacturerData)
    requires WellFormedBlocks(bs) && blockType !in {0x01, 0x0A, 0x0B}
    ensures ScanBlocks(EncodeBlocks(bs) + [blockType] + rest, acc) == Stuck(blockType)
  {
    assert EncodeBlocks(bs) + [blockType] + rest == EncodeBlocks(bs) + ([blockType] + rest);
    ScanEncoded(bs, [blockType] + rest, acc);
  }
}
