/**
 The UF2 container of util/uf2conv.py: a binary cut into addressed 512-byte blocks, and
 put together again. Python exceptions are results: whatever kind it is, the caller
 gets no bytes.
 */
module Uf2 {
  import opened Words
  import opened Wrappers

  const MAGIC_START0: Word32 := 0x0A32_4655
  const MAGIC_START1: Word32 := 0x9E5D_5157
  const MAGIC_END: Word32 := 0x0AB1_6F30
  const FAMILY_PRESENT: Word32 := 0x2000
  const MAX_PADDING: nat := 10 * 1024 * 1024

  datatype Failure = WordOutOfRange | BadMagic | DataTooLong | OutOfOrder | TooFarApart | Misaligned | MixedPieces

  /** What the list of output pieces can hold: bytes objects, and stray numbers. */
  datatype Piece = Bytes(bytes: seq<Byte>) | Number(number: int)

  // ------------------------------------------------------------ little-endian words

  predicate IsWord(v: int) {
    0 <= v < 0x1_0000_0000
  }

  function Pack(v: Word32): (b: seq<Byte>)
    ensures |b| == 4
  {
    [v % 0x100, v / 0x100 % 0x100, v / 0x100 / 0x100 % 0x100, v / 0x100 / 0x100 / 0x100]
  }

  function Unpack(b: seq<Byte>): Word32
    requires |b| == 4
  {
    (b[0] as int) + (b[1] as int) * 0x100 + (b[2] as int) * 0x1_0000 + (b[3] as int) * 0x100_0000
  }

  function PackAll(words: seq<Word32>): (b: seq<Byte>)
    ensures |b| == 4 * |words|
  {
    if words == [] then [] else PackAll(words[..|words| - 1]) + Pack(words[|words| - 1])
  }

  lemma UnpackPack(v: Word32)
    ensures Unpack(Pack(v)) == v
  {
    var a, b := v / 0x100, v / 0x100 / 0x100;
    assert v == a * 0x100 + v % 0x100 && a == b * 0x100 + a % 0x100 && b == b / 0x100 * 0x100 + b % 0x100;
  }

  lemma {:induction false} PackedAt(words: seq<Word32>, k: nat)
    requires k < |words|
    ensures PackAll(words)[4 * k..4 * k + 4] == Pack(words[k])
  {
    var n := |words| - 1;
    if k < n {
      PackedAt(words[..n], k);
      assert PackAll(words)[4 * k..4 * k + 4] == PackAll(words[..n])[4 * k..4 * k + 4];
    }
  }

  /** The k-th word of a block's header. */
  function Field(block: seq<Byte>, k: nat): Word32
    requires |block| == 512 && k < 8
  {
    Unpack(block[4 * k..4 * k + 4])
  }

  function Zeros(n: nat): (z: seq<Byte>)
    ensures |z| == n
  {
    seq(n, i => 0)
  }

  // ------------------------------------------------------------------------ writing

  function NumBlocks(content: seq<Byte>): nat {
    (|content| + 255) / 256
  }

  function Chunk(content: seq<Byte>, k: nat): (c: seq<Byte>)
    requires k < NumBlocks(content)
    ensures |c| <= 256
  {
    content[256 * k..if 256 * k + 256 <= |content| then 256 * k + 256 else |content|]
  }

  function Padded(chunk: seq<Byte>): (p: seq<Byte>)
    requires |chunk| <= 256
    ensures |p| == 256
  {
    chunk + Zeros(256 - |chunk|)
  }

  function Header(addr: Word32, no: Word32, count: Word32, family: Word32): (h: seq<Word32>)
    ensures |h| == 8
  {
    [MAGIC_START0, MAGIC_START1, if family != 0 then FAMILY_PRESENT else 0, addr, 256, no, count, family]
  }

  function Block(addr: Word32, no: Word32, count: Word32, family: Word32, chunk: seq<Byte>): (b: seq<Byte>)
    requires |chunk| <= 256
    ensures |b| == 512
  {
    PackAll(Header(addr, no, count, family)) + Padded(chunk) + Zeros(220) + Pack(MAGIC_END)
  }

  /** Every number that goes into a header is a 32-bit word. */
  predicate Fits(start: int, family: int, content: seq<Byte>) {
    content == [] ||
    (IsWord(family) && 0 <= start && start + 256 * (NumBlocks(content) - 1) < 0x1_0000_0000)
  }

  function Blocks(start: int, family: int, content: seq<Byte>, n: nat): (b: seq<Byte>)
    requires Fits(start, family, content) && n <= NumBlocks(content)
    ensures |b| == 512 * n
  {
    if n == 0 then []
    else
      Blocks(start, family, content, n - 1)
      + Block(start + 256 * (n - 1), n - 1, NumBlocks(content), family, Chunk(content, n - 1))
  }

  function Encode(start: int, family: int, content: seq<Byte>): Result<seq<Byte>, Failure> {
    if Fits(start, family, content) then Ok(Blocks(start, family, content, NumBlocks(content)))
    else Err(WordOutOfRange)
  }

  // ------------------------------------------------------------------------ reading

  /** The loop's variables, and the exception that ended it. */
  datatype Reader = Reader(start: int, addr: Option<int>, out: seq<Piece>, failure: Option<Failure>)

  function Numbers(n: nat): (z: seq<Piece>)
    ensures |z| == n
  {
    seq(n, i => Number(0))
  }

  predicate Genuine(block: seq<Byte>)
    requires |block| == 512
  {
    Field(block, 0) == MAGIC_START0 && Field(block, 1) == MAGIC_START1
  }

  predicate Flash(block: seq<Byte>)
    requires |block| == 512
  {
    Field(block, 2) % 2 == 0
  }

  function ReadBlock(r: Reader, block: seq<Byte>): Reader
    requires |block| == 512
  {
    if r.failure.Some? then r
    else if !Genuine(block) then r.(failure := Some(BadMagic))
    else if !Flash(block) then r
    else if Field(block, 4) > 476 then r.(failure := Some(DataTooLong))
    else ReadFlash(r, Field(block, 3), block[32..32 + Field(block, 4)])
  }

  /** What is wrong with a block that starts this far behind the end of the one before. */
  function Misplaced(padding: int): Option<Failure> {
    if padding < 0 then Some(OutOfOrder)
    else if padding > MAX_PADDING then Some(TooFarApart)
    else if padding % 4 != 0 then Some(Misaligned)
    else None
  }

  function ReadFlash(r: Reader, newAddr: int, data: seq<Byte>): Reader {
    var start := if r.addr.None? then newAddr else r.start;
    var addr := if r.addr.None? then newAddr else r.addr.value;
    var padding := newAddr - addr;
    if Misplaced(padding).Some? then Reader(start, Some(addr), r.out, Misplaced(padding))
    else Reader(start, Some(newAddr + |data|), r.out + Numbers(padding) + [Bytes(data)], None)
  }

  function BlockAt(buf: seq<Byte>, k: nat): (b: seq<Byte>)
    requires 512 * k + 512 <= |buf|
    ensures |b| == 512
  {
    buf[512 * k..512 * k + 512]
  }

  function ReadBlocks(start: int, buf: seq<Byte>, n: nat): Reader
    requires n <= |buf| / 512
  {
    if n == 0 then Reader(start, None, [], None)
    else ReadBlock(ReadBlocks(start, buf, n - 1), BlockAt(buf, n - 1))
  }

  /** bytes.join: only bytes objects can be joined. */
  function Join(pieces: seq<Piece>): Result<seq<Byte>, Failure> {
    if pieces == [] then Ok([])
    else
      var front := Join(pieces[..|pieces| - 1]);
      var last := pieces[|pieces| - 1];
      if front.Ok? && last.Bytes? then Ok(front.value + last.bytes) else Err(MixedPieces)
  }

  function Finish(r: Reader): Result<seq<Byte>, Failure> {
    if r.failure.Some? then Err(r.failure.value) else Join(r.out)
  }

  function Decode(start: int, buf: seq<Byte>): Result<seq<Byte>, Failure> {
    Finish(ReadBlocks(start, buf, |buf| / 512))
  }

  lemma {:induction false} FailureStays(start: int, buf: seq<Byte>, k: nat, n: nat)
    requires k <= n <= |buf| / 512 && ReadBlocks(start, buf, k).failure.Some?
    ensures ReadBlocks(start, buf, n) == ReadBlocks(start, buf, k)
  {
    if k < n {
      FailureStays(start, buf, k, n - 1);
    }
  }

  lemma FourNumbers(outp: seq<Piece>, n: nat)
    ensures outp + Numbers(n) + [Number(0), Number(0), Number(0), Number(0)] == outp + Numbers(n + 4)
  {
    assert Numbers(n) + [Number(0), Number(0), Number(0), Number(0)] == Numbers(n + 4);
  }

  /** The padding loop: bytes added to a list become numbers. */
  method AddPadding(outp: seq<Piece>, padding: nat) returns (padded: seq<Piece>)
    requires padding % 4 == 0
    ensures padded == outp + Numbers(padding)
  {
    padded := outp;
    var left := padding;
    while left > 0
      invariant 0 <= left <= padding && left % 4 == 0
      invariant padded == outp + Numbers(padding - left)
    {
      FourNumbers(outp, padding - left);
      left := left - 4;
      padded := padded + [Number(0), Number(0), Number(0), Number(0)];
    }
  }

  // ------------------------------------------------------------------------ program

  /** The globals appstartaddr and familyid, and the two conversions that use them. */
  class Converter {
    var appStart: int
    var familyId: int

    constructor ()
      ensures appStart == 0x2000 && familyId == 0
    {
      appStart := 0x2000;
      familyId := 0;
    }

    /** The zeros behind a block's data, four at a time. */
    static method DataPadding() returns (padding: seq<Byte>)
      ensures padding == Zeros(220)
    {
      padding := [];
      while |padding| < 512 - 256 - 32 - 4
        invariant |padding| % 4 == 0 && |padding| <= 220 && padding == Zeros(|padding|)
      {
        padding := padding + [0, 0, 0, 0];
      }
    }

    static method PadChunk(piece: seq<Byte>) returns (chunk: seq<Byte>)
      requires |piece| <= 256
      ensures chunk == Padded(piece)
    {
      chunk := piece;
      while |chunk| < 256
        invariant |piece| <= |chunk| <= 256 && chunk == piece + Zeros(|chunk| - |piece|)
      {
        chunk := chunk + [0];
      }
    }

    /** convert_to_uf2 */
    method ConvertToUf2(content: seq<Byte>) returns (r: Result<seq<Byte>, Failure>)
      ensures r == Encode(appStart, familyId, content)
    {
      var dataPadding := DataPadding();
      var numBlocks := (|content| + 255) / 256;
      var outp: seq<Byte> := [];
      for blockNo := 0 to numBlocks
        invariant blockNo > 0 ==> IsWord(familyId) && IsWord(appStart) && IsWord(numBlocks)
        invariant blockNo > 0 ==> IsWord(256 * (blockNo - 1) + appStart)
        invariant Fits(appStart, familyId, content) ==> outp == Blocks(appStart, familyId, content, blockNo)
      {
        var ptr := 256 * blockNo;
        var chunk := Chunk(content, blockNo);
        var flags := 0;
        if familyId != 0 {
          flags := FAMILY_PRESENT;
        }
        if !(IsWord(ptr + appStart) && IsWord(numBlocks) && IsWord(familyId)) {
          return Err(WordOutOfRange);
        }
        var hd := PackAll([MAGIC_START0, MAGIC_START1, flags, ptr + appStart, 256, blockNo, numBlocks, familyId]);
        chunk := PadChunk(chunk);
        outp := outp + (hd + chunk + dataPadding + Pack(MAGIC_END));
      }
      r := Ok(outp);
    }

    /** The body of the reading loop: one block. */
    method ReadNext(block: seq<Byte>, addr: Option<int>, out: seq<Piece>)
      returns (currAddr: Option<int>, outp: seq<Piece>, failure: Option<Failure>)
      requires |block| == 512
      modifies `appStart
      ensures ReadBlock(Reader(old(appStart), addr, out, None), block) == Reader(appStart, currAddr, outp, failure)
    {
      currAddr, outp := addr, out;
      if Field(block, 0) != MAGIC_START0 || Field(block, 1) != MAGIC_START1 {
        return currAddr, outp, Some(BadMagic);
      }
      if Field(block, 2) % 2 == 1 {
        return currAddr, outp, None;
      }
      var dataLen := Field(block, 4);
      if dataLen > 476 {
        return currAddr, outp, Some(DataTooLong);
      }
      var newAddr := Field(block, 3);
      if currAddr.None? {
        appStart := newAddr;
        currAddr := Some(newAddr);
      }
      var padding := newAddr - currAddr.value;
      failure := Misplaced(padding);
      if failure.None? {
        outp := AddPadding(outp, padding);
        outp := outp + [Bytes(block[32..32 + dataLen])];
        currAddr := Some(newAddr + dataLen);
      }
    }

    /** convert_from_uf2 */
    method ConvertFromUf2(buf: seq<Byte>) returns (r: Result<seq<Byte>, Failure>)
      modifies `appStart
      ensures r == Decode(old(appStart), buf)
      ensures appStart == ReadBlocks(old(appStart), buf, |buf| / 512).start
    {
      var numBlocks := |buf| / 512;
      var currAddr: Option<int> := None;
      var outp: seq<Piece> := [];
      var failure: Option<Failure> := None;
      for blockNo := 0 to numBlocks
        invariant ReadBlocks(old(appStart), buf, blockNo) == Reader(appStart, currAddr, outp, None)
      {
        currAddr, outp, failure := ReadNext(BlockAt(buf, blockNo), currAddr, outp);
        if failure.Some? {
          FailureStays(old(appStart), buf, blockNo + 1, numBlocks);
          return Err(failure.value);
        }
      }
      r := Join(outp);
    }
  }

  // ---------------------------------------------------------------- what can be read

  /** Where the last flash block before block n ended. */
  function EndAddress(buf: seq<Byte>, n: nat): Option<int>
    requires n <= |buf| / 512
  {
    if n == 0 then None
    else if Flash(BlockAt(buf, n - 1)) then Some(Field(BlockAt(buf, n - 1), 3) + Field(BlockAt(buf, n - 1), 4))
    else EndAddress(buf, n - 1)
  }

  /** Block k is genuine and, if it is for flash, short enough and starts where the one before ended. */
  predicate Follows(buf: seq<Byte>, k: nat)
    requires k < |buf| / 512
  {
    var block, end := BlockAt(buf, k), EndAddress(buf, k);
    Genuine(block) && (Flash(block) ==> Field(block, 4) <= 476 && (end.None? || end.value == Field(block, 3)))
  }

  /** So does every one of the first n blocks. */
  predicate Contiguous(buf: seq<Byte>, n: nat)
    requires n <= |buf| / 512
  {
    n == 0 || (Contiguous(buf, n - 1) && Follows(buf, n - 1))
  }

  /** The data of the first n blocks that are for flash. */
  function Contents(buf: seq<Byte>, n: nat): seq<Byte>
    requires n <= |buf| / 512
  {
    if n == 0 then []
    else
      var block := BlockAt(buf, n - 1);
      if Flash(block) && Field(block, 4) <= 476
      then Contents(buf, n - 1) + block[32..32 + Field(block, 4)]
      else Contents(buf, n - 1)
  }

  predicate AllBytes(pieces: seq<Piece>) {
    forall i :: 0 <= i < |pieces| ==> pieces[i].Bytes?
  }

  lemma {:induction false} JoinsBytes(pieces: seq<Piece>)
    ensures Join(pieces).Ok? <==> AllBytes(pieces)
  {
    if pieces != [] {
      JoinsBytes(pieces[..|pieces| - 1]);
    }
  }

  ghost predicate Reads(r: Reader) {
    r.failure.None? && AllBytes(r.out)
  }

  lemma FlashRead(r: Reader, newAddr: int, data: seq<Byte>)
    requires r.failure.None?
    ensures
      var s := ReadFlash(r, newAddr, data);
      Reads(s) <==> Reads(r) && (r.addr.None? || r.addr.value == newAddr)
    ensures
      var s := ReadFlash(r, newAddr, data);
      Reads(s) ==> s.addr == Some(newAddr + |data|) && s.out == r.out + [Bytes(data)]
  {
    var s := ReadFlash(r, newAddr, data);
    if s.failure.None? {
      var padding := newAddr - if r.addr.None? then newAddr else r.addr.value;
      if padding > 0 {
        assert s.out[|r.out|] == Number(0);
      } else {
        assert r.out + Numbers(0) == r.out;
        assert forall i :: 0 <= i < |r.out| ==> s.out[i] == r.out[i];
      }
    }
  }

  lemma BlockRead(r: Reader, block: seq<Byte>)
    requires |block| == 512
    ensures
      var s := ReadBlock(r, block);
      Reads(s) <==> Reads(r) && Genuine(block)
                    && (Flash(block) ==> Field(block, 4) <= 476 && (r.addr.None? || r.addr.value == Field(block, 3)))
    ensures
      var s := ReadBlock(r, block);
      Reads(s) ==>
        if Flash(block)
        then s.addr == Some(Field(block, 3) + Field(block, 4))
             && JoinedWith(Join(r.out), block[32..32 + Field(block, 4)]) == Join(s.out)
        else s == r
  {
    if r.failure.None? && Genuine(block) && Flash(block) && Field(block, 4) <= 476 {
      var data := block[32..32 + Field(block, 4)];
      FlashRead(r, Field(block, 3), data);
      assert (r.out + [Bytes(data)])[..|r.out|] == r.out;
    }
  }

  function JoinedWith(front: Result<seq<Byte>, Failure>, data: seq<Byte>): Result<seq<Byte>, Failure> {
    if front.Ok? then Ok(front.value + data) else front
  }

  /** The reader has got as far as block n, and what it holds is what the blocks say. */
  ghost predicate HasRead(r: Reader, buf: seq<Byte>, n: nat)
    requires n <= |buf| / 512
  {
    && (Reads(r) <==> Contiguous(buf, n))
    && (Contiguous(buf, n) ==> r.addr == EndAddress(buf, n) && Join(r.out) == Ok(Contents(buf, n)))
  }

  lemma ReadsOneMore(r: Reader, buf: seq<Byte>, n: nat)
    requires n < |buf| / 512 && HasRead(r, buf, n)
    ensures HasRead(ReadBlock(r, BlockAt(buf, n)), buf, n + 1)
  {
    if Contiguous(buf, n + 1) {
      FollowingRead(r, buf, n);
    } else {
      BlockRead(r, BlockAt(buf, n));
    }
  }

  lemma FollowingBlock(r: Reader, block: seq<Byte>, contents: seq<Byte>)
    requires |block| == 512 && Reads(r) && Join(r.out) == Ok(contents) && Genuine(block)
    requires Flash(block) ==> Field(block, 4) <= 476 && (r.addr.None? || r.addr.value == Field(block, 3))
    ensures var s := ReadBlock(r, block);
      && Reads(s)
      && (Flash(block) ==>
            s.addr == Some(Field(block, 3) + Field(block, 4))
            && Join(s.out) == Ok(contents + block[32..32 + Field(block, 4)]))
      && (!Flash(block) ==> s == r)
  {
    BlockRead(r, block);
  }

  lemma FollowingRead(r: Reader, buf: seq<Byte>, n: nat)
    requires n < |buf| / 512 && Reads(r) && r.addr == EndAddress(buf, n) && Join(r.out) == Ok(Contents(buf, n))
    requires Follows(buf, n)
    ensures var s := ReadBlock(r, BlockAt(buf, n));
      Reads(s) && s.addr == EndAddress(buf, n + 1) && Join(s.out) == Ok(Contents(buf, n + 1))
  {
    FollowingBlock(r, BlockAt(buf, n), Contents(buf, n));
    NextHolds(buf, n);
  }

  /** What the next block adds. */
  lemma NextHolds(buf: seq<Byte>, n: nat)
    requires n < |buf| / 512 && Follows(buf, n)
    ensures var block := BlockAt(buf, n);
      if Flash(block) then
        Field(block, 4) <= 476
        && EndAddress(buf, n + 1) == Some(Field(block, 3) + Field(block, 4))
        && Contents(buf, n + 1) == Contents(buf, n) + block[32..32 + Field(block, 4)]
      else EndAddress(buf, n + 1) == EndAddress(buf, n) && Contents(buf, n + 1) == Contents(buf, n)
  {
  }

  lemma {:induction false} ReadsContiguous(start: int, buf: seq<Byte>, n: nat)
    requires n <= |buf| / 512
    ensures HasRead(ReadBlocks(start, buf, n), buf, n)
  {
    if n > 0 {
      ReadsContiguous(start, buf, n - 1);
      ReadsOneMore(ReadBlocks(start, buf, n - 1), buf, n - 1);
    }
  }

  /**
   A file is read exactly when every block in it is genuine, holds at most 476 bytes and
   starts where the one before it ended; then the data come back in order. Any gap,
   though the loop fills it, ends in an exception.
   */
  lemma DecodesExactly(start: int, buf: seq<Byte>)
    ensures Decode(start, buf).Ok? <==> Contiguous(buf, |buf| / 512)
    ensures Decode(start, buf).Ok? ==> Decode(start, buf).value == Contents(buf, |buf| / 512)
  {
    ReadsContiguous(start, buf, |buf| / 512);
    JoinsBytes(ReadBlocks(start, buf, |buf| / 512).out);
  }

  // ---------------------------------------------------------------------- round trip

  lemma BlockFields(addr: Word32, no: Word32, count: Word32, family: Word32, chunk: seq<Byte>, k: nat)
    requires |chunk| <= 256 && k < 8
    ensures Field(Block(addr, no, count, family, chunk), k) == Header(addr, no, count, family)[k]
  {
    var h := Header(addr, no, count, family);
    PackedAt(h, k);
    UnpackPack(h[k]);
    assert Block(addr, no, count, family, chunk)[4 * k..4 * k + 4] == PackAll(h)[4 * k..4 * k + 4];
  }

  lemma {:induction false} BlockWritten(start: int, family: int, content: seq<Byte>, n: nat, k: nat)
    requires Fits(start, family, content) && k < n <= NumBlocks(content)
    ensures
      BlockAt(Blocks(start, family, content, n), k)
      == Block(start + 256 * k, k, NumBlocks(content), family, Chunk(content, k))
  {
    var b := Blocks(start, family, content, n);
    if k < n - 1 {
      BlockWritten(start, family, content, n - 1, k);
      assert BlockAt(b, k) == BlockAt(Blocks(start, family, content, n - 1), k);
    }
  }

  /** Bytes i to i + 3 spell the word, least significant byte first. */
  predicate WordAt(bytes: seq<Byte>, i: nat, v: int)
    requires i + 4 <= |bytes|
  {
    v == bytes[i] as int + 0x100 * bytes[i + 1] as int + 0x1_0000 * bytes[i + 2] as int + 0x100_0000 * bytes[i + 3] as int
  }

  lemma FieldIsWord(block: seq<Byte>, k: nat)
    requires |block| == 512 && k < 8
    ensures WordAt(block, 4 * k, Field(block, k))
  {
  }

  /** In terms of bytes: a block is genuine by its two magic words, and for flash if bit 0 of its flags is clear. */
  lemma HeaderRead(block: seq<Byte>)
    requires |block| == 512
    ensures Genuine(block) <==> WordAt(block, 0, 0x0A32_4655) && WordAt(block, 4, 0x9E5D_5157)
    ensures Flash(block) <==> block[8] % 2 == 0
    ensures WordAt(block, 12, Field(block, 3)) && WordAt(block, 16, Field(block, 4))
  {
    FieldIsWord(block, 0);
    FieldIsWord(block, 1);
    FieldIsWord(block, 2);
    FieldIsWord(block, 3);
    FieldIsWord(block, 4);
  }

  lemma BlockEnd(addr: Word32, no: Word32, count: Word32, family: Word32, chunk: seq<Byte>)
    requires |chunk| <= 256
    ensures WordAt(Block(addr, no, count, family, chunk), 508, 0x0AB1_6F30)
    ensures forall i :: 32 + |chunk| <= i < 508 ==> Block(addr, no, count, family, chunk)[i] == 0
    ensures Block(addr, no, count, family, chunk)[32..32 + |chunk|] == chunk
  {
    UnpackPack(MAGIC_END);
  }

  /**
   Every byte of a block as it should be: the two magic words, the family flag, the block's
   own address, 256, its number, how many there are, the family; then its piece of the
   content, zeros, and the last magic word.
   */
  ghost predicate Spells(b: seq<Byte>, addr: int, no: int, count: int, family: int, piece: seq<Byte>)
    requires |b| == 512 && |piece| <= 256
  {
    && WordAt(b, 0, 0x0A32_4655) && WordAt(b, 4, 0x9E5D_5157) && WordAt(b, 8, if family == 0 then 0 else 0x2000)
    && WordAt(b, 12, addr) && WordAt(b, 16, 256) && WordAt(b, 20, no) && WordAt(b, 24, count) && WordAt(b, 28, family)
    && b[32..32 + |piece|] == piece && (forall i :: 32 + |piece| <= i < 508 ==> b[i] == 0)
    && WordAt(b, 508, 0x0AB1_6F30)
  }

  lemma BlockSpells(addr: Word32, no: Word32, count: Word32, family: Word32, chunk: seq<Byte>)
    requires |chunk| <= 256
    ensures Spells(Block(addr, no, count, family, chunk), addr, no, count, family, chunk)
  {
    HeaderWords(addr, no, count, family, chunk);
    BlockEnd(addr, no, count, family, chunk);
  }

  /** The k-th block that is written carries the k-th 256 bytes of the content to their own address. */
  lemma WrittenBlock(start: int, family: int, content: seq<Byte>, k: nat)
    requires Fits(start, family, content) && 256 * k < |content|
    ensures var buf := Blocks(start, family, content, NumBlocks(content));
      var piece := if 256 * k + 256 <= |content| then content[256 * k..256 * k + 256] else content[256 * k..];
      && 512 * k + 512 <= |buf|
      && Spells(BlockAt(buf, k), start + 256 * k, k, (|content| + 255) / 256, family, piece)
  {
    BlockWritten(start, family, content, NumBlocks(content), k);
    ChunkSpells(start + 256 * k, k, NumBlocks(content), family, content, k);
  }

  lemma ChunkSpells(addr: Word32, no: Word32, count: Word32, family: Word32, content: seq<Byte>, k: nat)
    requires 256 * k < |content|
    ensures var piece := if 256 * k + 256 <= |content| then content[256 * k..256 * k + 256] else content[256 * k..];
      Spells(Block(addr, no, count, family, Chunk(content, k)), addr, no, count, family, piece)
  {
    BlockSpells(addr, no, count, family, Chunk(content, k));
    assert Chunk(content, k) == if 256 * k + 256 <= |content| then content[256 * k..256 * k + 256] else content[256 * k..];
  }

  lemma HeaderWords(addr: Word32, no: Word32, count: Word32, family: Word32, chunk: seq<Byte>)
    requires |chunk| <= 256
    ensures var b := Block(addr, no, count, family, chunk);
      && WordAt(b, 0, 0x0A32_4655) && WordAt(b, 4, 0x9E5D_5157) && WordAt(b, 8, if family == 0 then 0 else 0x2000)
      && WordAt(b, 12, addr) && WordAt(b, 16, 256) && WordAt(b, 20, no) && WordAt(b, 24, count) && WordAt(b, 28, family)
  {
    HeaderWord(addr, no, count, family, chunk, 0);
    HeaderWord(addr, no, count, family, chunk, 1);
    HeaderWord(addr, no, count, family, chunk, 2);
    HeaderWord(addr, no, count, family, chunk, 3);
    HeaderWord(addr, no, count, family, chunk, 4);
    HeaderWord(addr, no, count, family, chunk, 5);
    HeaderWord(addr, no, count, family, chunk, 6);
    HeaderWord(addr, no, count, family, chunk, 7);
  }

  lemma HeaderWord(addr: Word32, no: Word32, count: Word32, family: Word32, chunk: seq<Byte>, k: nat)
    requires |chunk| <= 256 && k < 8
    ensures WordAt(Block(addr, no, count, family, chunk), 4 * k, Header(addr, no, count, family)[k])
  {
    BlockFields(addr, no, count, family, chunk, k);
    FieldIsWord(Block(addr, no, count, family, chunk), k);
  }

  /** Writing succeeds if and only if the family and the address of every block are 32-bit words. */
  lemma EncodesExactly(start: int, family: int, content: seq<Byte>)
    ensures Encode(start, family, content).Ok? <==>
      forall k :: 0 <= k < (|content| + 255) / 256 ==>
        0 <= family < 0x1_0000_0000 && 0 <= start + 256 * k < 0x1_0000_0000
    ensures Encode(start, family, content).Ok? ==> |Encode(start, family, content).value| == 512 * ((|content| + 255) / 256)
  {
    var n := (|content| + 255) / 256;
    if n > 0 && forall k :: 0 <= k < n ==> 0 <= family < 0x1_0000_0000 && 0 <= start + 256 * k < 0x1_0000_0000 {
      assert 0 <= start + 256 * 0 && start + 256 * (n - 1) < 0x1_0000_0000;
    }
  }

  /** A flash block that says where it goes and carries a whole piece of data. */
  predicate Carries(block: seq<Byte>, addr: int, data: seq<Byte>)
    requires |block| == 512
  {
    && Genuine(block) && Flash(block)
    && Field(block, 3) == addr && Field(block, 4) == 256
    && block[32..32 + 256] == data
  }

  lemma BlockCarries(addr: Word32, no: Word32, count: Word32, family: Word32, chunk: seq<Byte>)
    requires |chunk| <= 256
    ensures Carries(Block(addr, no, count, family, chunk), addr, Padded(chunk))
  {
    BlockFields(addr, no, count, family, chunk, 0);
    BlockFields(addr, no, count, family, chunk, 1);
    BlockFields(addr, no, count, family, chunk, 2);
    BlockFields(addr, no, count, family, chunk, 3);
    BlockFields(addr, no, count, family, chunk, 4);
    DataBytes(addr, no, count, family, chunk);
  }

  lemma DataBytes(addr: Word32, no: Word32, count: Word32, family: Word32, chunk: seq<Byte>)
    requires |chunk| <= 256
    ensures Block(addr, no, count, family, chunk)[32..32 + 256] == Padded(chunk)
  {
  }

  /** The content, filled up with zeros to a whole number of blocks. */
  function Rounded(content: seq<Byte>): seq<Byte> {
    content + Zeros(256 * NumBlocks(content) - |content|)
  }

  lemma RoundedPiece(content: seq<Byte>, k: nat)
    requires k < NumBlocks(content)
    ensures Rounded(content)[..256 * (k + 1)] == Rounded(content)[..256 * k] + Padded(Chunk(content, k))
  {
  }

  /** In block k the k-th piece of the content is on its way to its own address. */
  predicate Holds(buf: seq<Byte>, start: int, content: seq<Byte>, k: nat)
    requires k < NumBlocks(content) <= |buf| / 512
  {
    Carries(BlockAt(buf, k), start + 256 * k, Padded(Chunk(content, k)))
  }

  lemma WrittenHolds(start: int, family: int, content: seq<Byte>, k: nat)
    requires Fits(start, family, content) && k < NumBlocks(content)
    ensures Holds(Blocks(start, family, content, NumBlocks(content)), start, content, k)
  {
    BlockWritten(start, family, content, NumBlocks(content), k);
    BlockCarries(start + 256 * k, k, NumBlocks(content), family, Chunk(content, k));
  }

  lemma {:induction false} HeldContiguous(buf: seq<Byte>, start: int, content: seq<Byte>, n: nat)
    requires n <= NumBlocks(content) <= |buf| / 512
    requires forall k :: 0 <= k < n ==> Holds(buf, start, content, k)
    ensures Contiguous(buf, n)
    ensures EndAddress(buf, n) == if n == 0 then None else Some(start + 256 * n)
  {
    if n > 0 {
      HeldContiguous(buf, start, content, n - 1);
      assert Holds(buf, start, content, n - 1);
    }
  }

  lemma {:induction false} HeldContents(buf: seq<Byte>, start: int, content: seq<Byte>, n: nat)
    requires n <= NumBlocks(content) <= |buf| / 512
    requires forall k :: 0 <= k < n ==> Holds(buf, start, content, k)
    ensures Contents(buf, n) == Rounded(content)[..256 * n]
  {
    if n > 0 {
      HeldContents(buf, start, content, n - 1);
      assert Holds(buf, start, content, n - 1);
      RoundedPiece(content, n - 1);
    }
  }

  lemma HeldReads(buf: seq<Byte>, start: int, content: seq<Byte>, other: int)
    requires |buf| == 512 * NumBlocks(content)
    requires forall k :: 0 <= k < NumBlocks(content) ==> Holds(buf, start, content, k)
    ensures Decode(other, buf) == Ok(Rounded(content))
  {
    var n := NumBlocks(content);
    HeldContiguous(buf, start, content, n);
    HeldContents(buf, start, content, n);
    DecodesExactly(other, buf);
    assert Rounded(content)[..256 * n] == Rounded(content);
  }

  lemma HeldStarts(buf: seq<Byte>, start: int, content: seq<Byte>, other: int)
    requires |buf| == 512 * NumBlocks(content) && content != []
    requires forall k :: 0 <= k < NumBlocks(content) ==> Holds(buf, start, content, k)
    ensures ReadBlocks(other, buf, NumBlocks(content)).start == start
  {
    HeldContiguous(buf, start, content, NumBlocks(content));
    assert Holds(buf, start, content, 0);
    StartIsFirst(other, buf, NumBlocks(content));
  }

  /** Reading back what was written gives the content, rounded up; it starts at the same address. */
  lemma RoundTrip(start: int, family: int, content: seq<Byte>, other: int)
    requires Fits(start, family, content)
    ensures
      var buf := Encode(start, family, content).value;
      && |buf| == 512 * NumBlocks(content)
      && Decode(other, buf) == Ok(Rounded(content))
      && (content != [] ==> ReadBlocks(other, buf, |buf| / 512).start == start)
  {
    var buf := Blocks(start, family, content, NumBlocks(content));
    forall k | 0 <= k < NumBlocks(content) ensures Holds(buf, start, content, k) {
      WrittenHolds(start, family, content, k);
    }
    HeldReads(buf, start, content, other);
    if content != [] {
      HeldStarts(buf, start, content, other);
    }
  }

  lemma BlockStarts(r: Reader, block: seq<Byte>)
    requires |block| == 512 && Reads(ReadBlock(r, block))
    ensures r.addr.Some? ==> ReadBlock(r, block).addr.Some? && ReadBlock(r, block).start == r.start
    ensures r.addr.None? && Flash(block) ==> ReadBlock(r, block).addr.Some? && ReadBlock(r, block).start == Field(block, 3)
  {
  }

  lemma {:induction false} StartIsFirst(start: int, buf: seq<Byte>, n: nat)
    requires 0 < n <= |buf| / 512 && Contiguous(buf, n) && Flash(BlockAt(buf, 0))
    ensures ReadBlocks(start, buf, n).addr.Some?
    ensures ReadBlocks(start, buf, n).start == Field(BlockAt(buf, 0), 3)
  {
    ReadsContiguous(start, buf, n);
    BlockStarts(ReadBlocks(start, buf, n - 1), BlockAt(buf, n - 1));
    if n > 1 {
      StartIsFirst(start, buf, n - 1);
    }
  }

  // ---------------------------------------------------------------------------- gaps

  /** Two genuine flash blocks with four bytes of nothing between them. */
  function Gapped(first: seq<Byte>, second: seq<Byte>): seq<Byte>
    requires |first| <= 256 && |second| <= 256
  {
    Block(0x2000, 0, 2, 0, first) + Block(0x2104, 1, 2, 0, second)
  }

  /** Four bytes of padding are within what the reader means to fill, and still it raises an exception. */
  lemma GapRaises(start: int, first: seq<Byte>, second: seq<Byte>)
    requires |first| <= 256 && |second| <= 256
    ensures var buf := Gapped(first, second);
      Carries(BlockAt(buf, 0), 0x2000, Padded(first)) && Carries(BlockAt(buf, 1), 0x2104, Padded(second))
      && ReadBlocks(start, buf, 2).failure == None && Decode(start, buf) == Err(MixedPieces)
  {
    var buf := Gapped(first, second);
    BlockCarries(0x2000, 0, 2, 0, first);
    BlockCarries(0x2104, 1, 2, 0, second);
    assert BlockAt(buf, 0) == Block(0x2000, 0, 2, 0, first) && BlockAt(buf, 1) == Block(0x2104, 1, 2, 0, second);
    var r1 := ReadBlocks(start, buf, 1);
    assert ReadBlocks(start, buf, 0) == Reader(start, None, [], None);
    assert r1.addr == Some(0x2100) && r1.failure == None;
    DecodesExactly(start, buf);
    assert EndAddress(buf, 1) == Some(0x2100) && !Follows(buf, 1);
  }

  // ------------------------------------------------------------------ what goes wrong

  /** The exception at a flash block that starts `distance` bytes behind the end of the one before. */
  function Offence(distance: int): Option<Failure> {
    if distance < 0 then Some(OutOfOrder)
    else if distance > 10485760 then Some(TooFarApart)
    else if distance % 4 != 0 then Some(Misaligned)
    else None
  }

  /** The exception that block k raises, if the blocks before it were as they should be. */
  function OffenceAt(buf: seq<Byte>, k: nat): Option<Failure>
    requires k < |buf| / 512
  {
    var block, end := BlockAt(buf, k), EndAddress(buf, k);
    if !Genuine(block) then Some(BadMagic)
    else if !Flash(block) then None
    else if Field(block, 4) > 476 then Some(DataTooLong)
    else if end.None? then None
    else Offence(Field(block, 3) - end.value)
  }

  lemma OffenceRaises(start: int, buf: seq<Byte>, k: nat)
    requires k < |buf| / 512 && Contiguous(buf, k)
    ensures ReadBlocks(start, buf, k + 1).failure == OffenceAt(buf, k)
  {
    ReadsContiguous(start, buf, k);
    OffenceStops(ReadBlocks(start, buf, k), buf, k);
  }

  lemma OffenceStops(r: Reader, buf: seq<Byte>, k: nat)
    requires k < |buf| / 512 && r.failure.None? && r.addr == EndAddress(buf, k)
    ensures ReadBlock(r, BlockAt(buf, k)).failure == OffenceAt(buf, k)
  {
    var block := BlockAt(buf, k);
    if Genuine(block) && Flash(block) && Field(block, 4) <= 476 {
      FlashOffence(r, Field(block, 3), block[32..32 + Field(block, 4)]);
    }
  }

  lemma FlashOffence(r: Reader, newAddr: int, data: seq<Byte>)
    requires r.failure.None?
    ensures ReadFlash(r, newAddr, data).failure == if r.addr.None? then None else Offence(newAddr - r.addr.value)
  {
  }

  /**
   The first block that is not as it should be decides: one that is not genuine, one with
   more than 476 bytes, or one behind a gap, which raises at once unless it is a multiple
   of four of at most 10 MiB. Only such a gap goes on to the end, where joining fails.
   */
  lemma FirstOffence(start: int, buf: seq<Byte>, k: nat)
    requires k < |buf| / 512 && Contiguous(buf, k) && !Follows(buf, k)
    ensures Decode(start, buf).Err?
    ensures OffenceAt(buf, k).Some? ==> Decode(start, buf) == Err(OffenceAt(buf, k).value)
  {
    OffenceRaises(start, buf, k);
    if OffenceAt(buf, k).Some? {
      FailureStays(start, buf, k + 1, |buf| / 512);
    }
    DecodesExactly(start, buf);
    NotContiguous(buf, k, |buf| / 512);
  }

  lemma {:induction false} NotContiguous(buf: seq<Byte>, k: nat, n: nat)
    requires k < n <= |buf| / 512 && !Follows(buf, k)
    ensures !Contiguous(buf, n)
  {
    if k < n - 1 {
      NotContiguous(buf, k, n - 1);
    }
  }
}
