/**
 Sending a modem firmware image: the block loop of dfu_modem_write_image. It
 counts blocks and an offset side by side, and the two agree only for some image
 sizes; the exact sizes are worked out here.
 */
module ModemUpload {
  import opened Bytes

  const DFU_CHUNK_SIZE: nat := 1024
  const UA_HEADER_SIZE: nat := 256
  const UINT32: int := 0x1_0000_0000

  /** A SEND_FW_DATA request: what is sent, and whether more is announced. */
  datatype Block = Block(data: seq<byte>, more: bool)

  function Payload(blocks: seq<Block>): seq<byte> {
    if blocks == [] then [] else blocks[0].data + Payload(blocks[1..])
  }

  /** Exactly one block, the last, announces the end. */
  predicate OneFinal(blocks: seq<Block>) {
    && blocks != [] && !blocks[|blocks| - 1].more
    && forall i :: 0 <= i < |blocks| - 1 ==> blocks[i].more
  }

  /** Some block announces the end. */
  predicate AnyFinal(blocks: seq<Block>) {
    blocks != [] && (!blocks[|blocks| - 1].more || AnyFinal(blocks[..|blocks| - 1]))
  }

  function Chunks(size: nat): nat {
    size / DFU_CHUNK_SIZE + if size % DFU_CHUNK_SIZE != 0 then 1 else 0
  }

  /** How much chunk `k` asks for: the last chunk is taken to be the remainder, in unsigned arithmetic. */
  function ReadSize(size: nat, k: nat): nat {
    if k < (Chunks(size) - 1) % UINT32 then DFU_CHUNK_SIZE else size % DFU_CHUNK_SIZE
  }

  function Zeros(n: nat): seq<byte> {
    Rep(0, n)
  }

  /** What the buffer holds of the body after reading `n` bytes from `pos` on: missing bytes are zero. */
  function Piece(body: seq<byte>, pos: nat, n: nat): seq<byte>
    requires pos <= |body|
  {
    if pos + n <= |body| then body[pos..pos + n] else body[pos..] + Zeros(pos + n - |body|)
  }

  /** The blocks from chunk `k` on, with the file at `pos`: chunks go on while their offset is within the size. */
  function Blocks(body: seq<byte>, k: nat, pos: nat): seq<Block>
    requires pos <= |body|
    decreases |body| + 1 - k * DFU_CHUNK_SIZE
  {
    if k * DFU_CHUNK_SIZE > |body| then []
    else
      [OneBlock(body, k, pos)] + Blocks(body, k + 1, After(body, k, pos))
  }

  predicate Last(size: nat, k: nat) {
    k != 0 && k == (Chunks(size) - 1) % UINT32
  }

  function After(body: seq<byte>, k: nat, pos: nat): (next: nat)
    requires pos <= |body|
    ensures pos <= next <= |body|
  {
    var n := ReadSize(|body|, k);
    if pos + n <= |body| then pos + n else |body|
  }

  function OneBlock(body: seq<byte>, k: nat, pos: nat): Block
    requires pos <= |body|
  {
    Block(Piece(body, pos, ReadSize(|body|, k)), !Last(|body|, k))
  }

  /** Sizes for which a 32-bit offset gets past the end; for the others the loop goes round for ever. */
  predicate Passable(size: nat) {
    size < UINT32 - DFU_CHUNK_SIZE
  }

  /** The offset of the loop, 32 bits wide, after some turns. */
  function OffsetAfter(turns: nat): nat {
    turns * DFU_CHUNK_SIZE % UINT32
  }

  /** For exactly the largest sizes the offset is within the size after any number of turns, and the loop goes on. */
  lemma LargestNeverEnd(size: nat)
    requires size < UINT32
    ensures (forall turns: nat :: OffsetAfter(turns) <= size) <==> !Passable(size)
  {
    if Passable(size) {
      var turns := size / DFU_CHUNK_SIZE + 1;
      assert turns * DFU_CHUNK_SIZE < UINT32;
      assert OffsetAfter(turns) > size;
    } else {
      forall turns: nat
        ensures OffsetAfter(turns) <= size
      {
        WholeOffset(turns);
      }
    }
  }

  lemma WholeOffset(turns: nat)
    ensures OffsetAfter(turns) <= UINT32 - DFU_CHUNK_SIZE
  {
    var around := turns * DFU_CHUNK_SIZE / UINT32;
    assert OffsetAfter(turns) == DFU_CHUNK_SIZE * (turns - around * (UINT32 / DFU_CHUNK_SIZE));
  }

  class ModemDfu {
    var chunk_cnt: nat
    var chunk_check: nat
    var offset: nat
    var remainder: nat
    const recv_buff_1k: array<byte>
    var body: seq<byte>         // the image file after its header
    var pos: nat                // how much of it has been read
    var sent: seq<Block>

    ghost predicate Valid()
      reads this
    {
      recv_buff_1k.Length == DFU_CHUNK_SIZE && pos <= |body|
    }

    /** The statics before the first update, and the file behind its header. */
    constructor (image: seq<byte>)
      ensures Valid() && body == image && pos == 0 && chunk_cnt == 0 && offset == 0 && sent == []
      ensures forall i :: 0 <= i < DFU_CHUNK_SIZE ==> recv_buff_1k[i] == 0
      ensures fresh(recv_buff_1k)
    {
      chunk_cnt, chunk_check, offset, remainder := 0, 0, 0, 0;
      recv_buff_1k := new byte[DFU_CHUNK_SIZE](_ => 0);
      body, pos, sent := image, 0, [];
    }

    /** file_read_flash: as much as asked for, or all there is. */
    method FileReadFlash(n: nat)
      requires Valid() && n <= DFU_CHUNK_SIZE
      requires forall i :: 0 <= i < DFU_CHUNK_SIZE ==> recv_buff_1k[i] == 0
      modifies this`pos, recv_buff_1k
      ensures Valid() && pos == if old(pos) + n <= |body| then old(pos) + n else |body|
      ensures recv_buff_1k[..n] == Piece(body, old(pos), n)
    {
      var readbytes := if pos + n <= |body| then n else |body| - pos;
      forall i | 0 <= i < readbytes {
        recv_buff_1k[i] := body[pos + i];
      }
      pos := pos + readbytes;
    }

    /** dfu_send_ioctl with SEND_FW_DATA. */
    method SendIoctl(n: nat, more: bool)
      requires Valid() && n <= DFU_CHUNK_SIZE
      modifies this`sent
      ensures Valid() && sent == old(sent) + [Block(recv_buff_1k[..n], more)]
    {
      sent := sent + [Block(recv_buff_1k[..n], more)];
    }

    method ClearBuffer()
      requires Valid()
      modifies recv_buff_1k
      ensures forall i :: 0 <= i < DFU_CHUNK_SIZE ==> recv_buff_1k[i] == 0
    {
      forall i | 0 <= i < DFU_CHUNK_SIZE {
        recv_buff_1k[i] := 0;
      }
    }

    ghost predicate Cleared()
      reads this, recv_buff_1k
      requires Valid()
    {
      forall i :: 0 <= i < DFU_CHUNK_SIZE ==> recv_buff_1k[i] == 0
    }

    /** Reads and sends one chunk. */
    method SendChunk() returns (final: bool)
      requires Valid() && Cleared()
      requires chunk_check == Chunks(|body|) && remainder == |body| % DFU_CHUNK_SIZE
      modifies this`pos, this`sent, recv_buff_1k
      ensures Valid() && pos == After(body, chunk_cnt, old(pos))
      ensures sent == old(sent) + [OneBlock(body, chunk_cnt, old(pos))]
      ensures final <==> Last(|body|, chunk_cnt)
    {
      hide Chunks;
      hide Piece;
      ghost var block := OneBlock(body, chunk_cnt, pos);
      final := false;
      var readsize := if chunk_cnt < (chunk_check - 1) % UINT32 then DFU_CHUNK_SIZE else remainder;
      if readsize > 0 {
        FileReadFlash(readsize);
      } else {
        NoPiece(body, pos);
      }
      assert recv_buff_1k[..readsize] == block.data;
      if chunk_cnt == 0 {
        SendIoctl(readsize, true);
      } else if chunk_cnt == (chunk_check - 1) % UINT32 {
        SendIoctl(readsize, false);
        final := true;
      } else {
        SendIoctl(readsize, true);
      }
    }

    /** The loop over the chunks of an image of `fw_image_size` bytes. */
    method WriteImage(fw_image_size: nat) returns (done: bool)
      requires Valid() && fw_image_size == |body| && Passable(|body|) && pos == 0
      requires chunk_cnt == 0 && offset == 0 && sent == [] && Cleared()
      modifies this, recv_buff_1k
      ensures sent == Blocks(old(body), 0, 0)
      ensures done <==> AnyFinal(sent)
    {
      hide OneBlock;
      hide After;
      hide Last;
      done := false;
      chunk_check := fw_image_size / DFU_CHUNK_SIZE;
      remainder := fw_image_size % DFU_CHUNK_SIZE;
      if fw_image_size % DFU_CHUNK_SIZE != 0 {
        chunk_check := chunk_check + 1;
      }
      while offset <= fw_image_size
        invariant Valid() && body == old(body) && offset == chunk_cnt * DFU_CHUNK_SIZE && Cleared()
        invariant offset <= fw_image_size + DFU_CHUNK_SIZE
        invariant chunk_check == Chunks(|body|) && remainder == |body| % DFU_CHUNK_SIZE
        invariant sent + Blocks(body, chunk_cnt, pos) == Blocks(body, 0, 0)
        invariant done <==> AnyFinal(sent)
        decreases fw_image_size + DFU_CHUNK_SIZE - offset
      {
        ghost var before := sent;
        OneMore(body, chunk_cnt, pos);
        var final := SendChunk();
        assert sent[..|sent| - 1] == before;
        done := done || final;
        offset := (offset + DFU_CHUNK_SIZE) % UINT32;
        ClearBuffer();
        chunk_cnt := chunk_cnt + 1;
      }
    }
  }

  lemma NoPiece(body: seq<byte>, pos: nat)
    requires pos <= |body|
    ensures Piece(body, pos, 0) == []
  {
  }

  lemma OneMore(body: seq<byte>, k: nat, pos: nat)
    requires pos <= |body| && k * DFU_CHUNK_SIZE <= |body|
    ensures forall sent: seq<Block> ::
              sent + Blocks(body, k, pos)
              == (sent + [OneBlock(body, k, pos)]) + Blocks(body, k + 1, After(body, k, pos))
    ensures OneBlock(body, k, pos).more <==> !Last(|body|, k)
  {
  }

  // ---- For which images it works ----

  /** A size the loop can handle: more than one chunk, the last one not full. */
  predicate Sendable(size: nat) {
    size > DFU_CHUNK_SIZE && size % DFU_CHUNK_SIZE != 0
  }

  lemma SendableChunks(size: nat, k: nat)
    requires Sendable(size) && size < UINT32 && k < Chunks(size)
    ensures 2 <= Chunks(size) < UINT32 && k * DFU_CHUNK_SIZE <= size
    ensures k < Chunks(size) - 1 ==>
              (k + 1) * DFU_CHUNK_SIZE <= size && ReadSize(size, k) == DFU_CHUNK_SIZE && !Last(size, k)
    ensures k == Chunks(size) - 1 ==>
              k * DFU_CHUNK_SIZE + ReadSize(size, k) == size < (k + 1) * DFU_CHUNK_SIZE && Last(size, k)
  {
    assert size == size / DFU_CHUNK_SIZE * DFU_CHUNK_SIZE + size % DFU_CHUNK_SIZE;
    assert Chunks(size) == size / DFU_CHUNK_SIZE + 1;
  }

  lemma {:induction false} GoodBlocks(body: seq<byte>, k: nat)
    requires Sendable(|body|) && |body| < UINT32 && k < Chunks(|body|)
    ensures k * DFU_CHUNK_SIZE <= |body|
    ensures var b := Blocks(body, k, k * DFU_CHUNK_SIZE);
            Payload(b) == body[k * DFU_CHUNK_SIZE..] && OneFinal(b)
    decreases Chunks(|body|) - k
  {
    hide Chunks;
    hide ReadSize;
    hide Last;
    hide Piece;
    SendableChunks(|body|, k);
    var pos := k * DFU_CHUNK_SIZE;
    var first := OneBlock(body, k, pos);
    PieceInside(body, pos, ReadSize(|body|, k));
    if k == Chunks(|body|) - 1 {
      assert Blocks(body, k + 1, |body|) == [];
      Prepend(first, []);
    } else {
      GoodBlocks(body, k + 1);
      var rest := Blocks(body, k + 1, pos + DFU_CHUNK_SIZE);
      Prepend(first, rest);
      assert body[pos..] == first.data + body[pos + DFU_CHUNK_SIZE..];
    }
  }

  lemma Prepend(first: Block, rest: seq<Block>)
    ensures Payload([first] + rest) == first.data + Payload(rest)
    ensures rest == [] && !first.more ==> OneFinal([first] + rest)
    ensures OneFinal(rest) && first.more ==> OneFinal([first] + rest)
  {
    assert ([first] + rest)[1..] == rest;
  }

  lemma PieceInside(body: seq<byte>, pos: nat, n: nat)
    requires pos + n <= |body|
    ensures Piece(body, pos, n) == body[pos..pos + n]
    ensures pos + n == |body| ==> Piece(body, pos, n) + [] == body[pos..]
  {
  }

  lemma SmallChunks(size: nat)
    requires size <= DFU_CHUNK_SIZE
    ensures !Last(size, 0) && (size == DFU_CHUNK_SIZE ==> !Last(size, 1))
  {
  }

  lemma {:induction false} AllMore(blocks: seq<Block>)
    requires forall i :: 0 <= i < |blocks| ==> blocks[i].more
    ensures !AnyFinal(blocks)
    decreases |blocks|
  {
    if blocks != [] {
      AllMore(blocks[..|blocks| - 1]);
    }
  }

  /** With at most one chunk, the only block that could announce the end announces more. */
  lemma NoFinalBlock(body: seq<byte>)
    requires |body| <= DFU_CHUNK_SIZE
    ensures !AnyFinal(Blocks(body, 0, 0)) && !OneFinal(Blocks(body, 0, 0))
  {
    hide Chunks;
    hide ReadSize;
    hide Last;
    hide Piece;
    SmallChunks(|body|);
    var pos := After(body, 0, 0);
    var first, rest := OneBlock(body, 0, 0), Blocks(body, 1, pos);
    assert Blocks(body, 0, 0) == [first] + rest;
    AllMore([first]);
    if |body| == DFU_CHUNK_SIZE {
      assert Blocks(body, 2, After(body, 1, pos)) == [];
      assert rest == [OneBlock(body, 1, pos)];
      AllMore([first] + rest);
    } else {
      assert rest == [];
    }
  }

  lemma WholeChunks(size: nat)
    requires size % DFU_CHUNK_SIZE == 0 && DFU_CHUNK_SIZE < size < UINT32
    ensures Chunks(size) * DFU_CHUNK_SIZE == size && !Last(size, Chunks(size))
  {
  }

  /** In a whole number of chunks, the block that announces the end is followed by another. */
  lemma {:induction false} FinalBlockIsNotLast(body: seq<byte>, k: nat, pos: nat)
    requires |body| % DFU_CHUNK_SIZE == 0 && DFU_CHUNK_SIZE < |body| < UINT32 && pos <= |body|
    requires k <= Chunks(|body|)
    ensures var b := Blocks(body, k, pos); b != [] && b[|b| - 1].more
    decreases Chunks(|body|) - k
  {
    WholeChunks(|body|);
    hide Chunks;
    hide ReadSize;
    hide Last;
    hide Piece;
    var first, rest := OneBlock(body, k, pos), Blocks(body, k + 1, After(body, k, pos));
    if k < Chunks(|body|) {
      FinalBlockIsNotLast(body, k + 1, After(body, k, pos));
      assert Blocks(body, k, pos) == [first] + rest;
    } else {
      assert rest == [];
      assert Blocks(body, k, pos) == [first];
    }
  }

  /** An image longer than one chunk gets to the block that announces the end. */
  lemma {:induction false} EndIsAnnounced(body: seq<byte>, k: nat, pos: nat) returns (i: nat)
    requires DFU_CHUNK_SIZE < |body| < UINT32 && pos <= |body| && k < Chunks(|body|)
    ensures var b := Blocks(body, k, pos); i < |b| && !b[i].more
    decreases Chunks(|body|) - k
  {
    ManyChunks(|body|, k);
    hide Chunks;
    hide ReadSize;
    hide Last;
    hide Piece;
    if k == Chunks(|body|) - 1 {
      i := 0;
    } else {
      var j := EndIsAnnounced(body, k + 1, After(body, k, pos));
      i := j + 1;
    }
  }

  lemma ManyChunks(size: nat, k: nat)
    requires DFU_CHUNK_SIZE < size < UINT32 && k < Chunks(size)
    ensures k * DFU_CHUNK_SIZE <= size && (k == Chunks(size) - 1 ==> Last(size, k))
  {
  }

  lemma {:induction false} FinalSomewhere(blocks: seq<Block>, i: nat)
    requires i < |blocks| && !blocks[i].more
    ensures AnyFinal(blocks)
    decreases |blocks|
  {
    if i < |blocks| - 1 {
      FinalSomewhere(blocks[..|blocks| - 1], i);
    }
  }

  /** The end is announced, and success reported, for every image longer than one chunk. */
  lemma SuccessIsReported(body: seq<byte>)
    requires Passable(|body|)
    ensures AnyFinal(Blocks(body, 0, 0)) <==> |body| > DFU_CHUNK_SIZE
  {
    hide Blocks;
    if |body| > DFU_CHUNK_SIZE {
      var i := EndIsAnnounced(body, 0, 0);
      FinalSomewhere(Blocks(body, 0, 0), i);
    } else {
      NoFinalBlock(body);
    }
  }

  /**
   The upload delivers the image and ends properly exactly when the image is
   longer than one chunk and not a whole number of chunks.
   */
  lemma UploadIsExact(body: seq<byte>)
    requires Passable(|body|)
    ensures Payload(Blocks(body, 0, 0)) == body && OneFinal(Blocks(body, 0, 0)) <==> Sendable(|body|)
  {
    hide Blocks;
    hide Payload;
    if Sendable(|body|) {
      SomeChunks(|body|);
      GoodBlocks(body, 0);
    } else if |body| <= DFU_CHUNK_SIZE {
      NoFinalBlock(body);
    } else {
      FinalBlockIsNotLast(body, 0, 0);
    }
  }

  lemma SomeChunks(size: nat)
    requires Sendable(size)
    ensures Chunks(size) > 0
  {
  }

  // ---- What is sent, for every image ----

  /** Whole chunks, each with more announced, from number `k` up to number `n`. */
  function Whole(body: seq<byte>, k: nat, n: nat): seq<Block>
    requires n * DFU_CHUNK_SIZE <= |body|
    decreases n - k
  {
    if k >= n then []
    else
      assert (k + 1) * DFU_CHUNK_SIZE <= n * DFU_CHUNK_SIZE;
      [Block(body[k * DFU_CHUNK_SIZE..(k + 1) * DFU_CHUNK_SIZE], true)] + Whole(body, k + 1, n)
  }

  /** Number of chunks that go out whole. */
  function Full(size: nat): (n: nat)
    requires size > DFU_CHUNK_SIZE
    ensures n > 0
  {
    if size % DFU_CHUNK_SIZE == 0 then size / DFU_CHUNK_SIZE - 1 else size / DFU_CHUNK_SIZE
  }

  lemma FullIsBeforeLast(size: nat, k: nat)
    requires DFU_CHUNK_SIZE < size < UINT32
    ensures Full(size) == Chunks(size) - 1 && Full(size) * DFU_CHUNK_SIZE <= size
    ensures k < Full(size) ==>
              (k + 1) * DFU_CHUNK_SIZE <= size && ReadSize(size, k) == DFU_CHUNK_SIZE && !Last(size, k)
    ensures ReadSize(size, Full(size)) == size % DFU_CHUNK_SIZE && Last(size, Full(size))
    ensures ReadSize(size, Full(size) + 1) == size % DFU_CHUNK_SIZE && !Last(size, Full(size) + 1)
  {
    assert size == size / DFU_CHUNK_SIZE * DFU_CHUNK_SIZE + size % DFU_CHUNK_SIZE;
  }

  /** Up to the last chunk, what goes out are the whole chunks of the image. */
  lemma {:induction false} WholeChunksGoOut(body: seq<byte>, k: nat)
    requires DFU_CHUNK_SIZE < |body| < UINT32 && k <= Full(|body|)
    ensures Full(|body|) * DFU_CHUNK_SIZE <= |body| && k * DFU_CHUNK_SIZE <= |body|
    ensures var n := Full(|body|);
            Blocks(body, k, k * DFU_CHUNK_SIZE) == Whole(body, k, n) + Blocks(body, n, n * DFU_CHUNK_SIZE)
    decreases Full(|body|) - k
  {
    hide ReadSize;
    hide Last;
    hide Piece;
    var n := Full(|body|);
    FullIsBeforeLast(|body|, k);
    hide Chunks;
    hide Full;
    assert k * DFU_CHUNK_SIZE <= n * DFU_CHUNK_SIZE;
    if k < n {
      var pos := k * DFU_CHUNK_SIZE;
      PieceInside(body, pos, DFU_CHUNK_SIZE);
      WholeChunksGoOut(body, k + 1);
      var rest := Blocks(body, n, n * DFU_CHUNK_SIZE);
      var first := Block(body[pos..(k + 1) * DFU_CHUNK_SIZE], true);
      assert OneBlock(body, k, pos) == first && After(body, k, pos) == (k + 1) * DFU_CHUNK_SIZE;
      assert [first] + (Whole(body, k + 1, n) + rest) == [first] + Whole(body, k + 1, n) + rest;
    }
  }

  lemma JoinSlices(body: seq<byte>, lo: nat, mid: nat, hi: nat, rest: seq<byte>)
    requires lo <= mid <= hi <= |body|
    ensures body[lo..mid] + (body[mid..hi] + rest) == body[lo..hi] + rest
    ensures lo == hi ==> body[lo..hi] + rest == rest
  {
  }

  lemma {:induction false} PayloadOfWhole(body: seq<byte>, k: nat, n: nat, rest: seq<Block>)
    requires k <= n && n * DFU_CHUNK_SIZE <= |body|
    ensures k * DFU_CHUNK_SIZE <= n * DFU_CHUNK_SIZE
    ensures Payload(Whole(body, k, n) + rest) == body[k * DFU_CHUNK_SIZE..n * DFU_CHUNK_SIZE] + Payload(rest)
    decreases n - k
  {
    var lo, hi := k * DFU_CHUNK_SIZE, n * DFU_CHUNK_SIZE;
    if k == n {
      assert Whole(body, k, n) + rest == rest;
      JoinSlices(body, lo, lo, lo, Payload(rest));
    } else {
      var mid := (k + 1) * DFU_CHUNK_SIZE;
      var first, others := Block(body[lo..mid], true), Whole(body, k + 1, n);
      PayloadOfWhole(body, k + 1, n, rest);
      hide Payload;
      assert Whole(body, k, n) + rest == [first] + (others + rest);
      Prepend(first, others + rest);
      JoinSlices(body, lo, mid, hi, Payload(rest));
    }
  }

  /** The end of the loop for an image longer than one chunk. */
  function Tail(body: seq<byte>): seq<Block>
    requires |body| > DFU_CHUNK_SIZE
  {
    if |body| % DFU_CHUNK_SIZE == 0 then [Block([], false), Block([], true)]
    else [Block(body[|body| - |body| % DFU_CHUNK_SIZE..], false)]
  }

  lemma BlocksStep(body: seq<byte>, k: nat, pos: nat, n: nat)
    requires k * DFU_CHUNK_SIZE <= |body| && ReadSize(|body|, k) == n && pos + n <= |body|
    ensures Blocks(body, k, pos) ==
            [Block(body[pos..pos + n], !Last(|body|, k))] + Blocks(body, k + 1, pos + n)
  {
    hide ReadSize;
    hide Last;
    hide Piece;
    PieceInside(body, pos, n);
  }

  lemma BlocksEnd(body: seq<byte>, k: nat, pos: nat)
    requires pos <= |body| && k * DFU_CHUNK_SIZE > |body|
    ensures Blocks(body, k, pos) == []
  {
  }

  lemma EndOfLoop(body: seq<byte>)
    requires DFU_CHUNK_SIZE < |body| < UINT32
    ensures Full(|body|) * DFU_CHUNK_SIZE <= |body|
    ensures Blocks(body, Full(|body|), Full(|body|) * DFU_CHUNK_SIZE) == Tail(body)
  {
    var size, n := |body|, Full(|body|);
    FullIsBeforeLast(size, n);
    assert size == size / DFU_CHUNK_SIZE * DFU_CHUNK_SIZE + size % DFU_CHUNK_SIZE;
    var pos, left := n * DFU_CHUNK_SIZE, size % DFU_CHUNK_SIZE;
    hide Blocks;
    hide ReadSize;
    hide Last;
    hide Chunks;
    if left == 0 {
      assert (n + 1) * DFU_CHUNK_SIZE == size;
      hide Full;
      EndOfWholeLoop(body, n);
    } else {
      assert pos == size - left && (n + 1) * DFU_CHUNK_SIZE > size;
      hide Full;
      EndOfRest(body, n, left);
    }
  }

  lemma EndOfRest(body: seq<byte>, n: nat, left: nat)
    requires n * DFU_CHUNK_SIZE + left == |body| < (n + 1) * DFU_CHUNK_SIZE
    requires Last(|body|, n) && ReadSize(|body|, n) == left
    ensures Blocks(body, n, n * DFU_CHUNK_SIZE) == [Block(body[|body| - left..], false)]
  {
    hide Blocks;
    hide Last;
    hide ReadSize;
    var pos := n * DFU_CHUNK_SIZE;
    BlocksStep(body, n, pos, left);
    BlocksEnd(body, n + 1, |body|);
    assert body[pos..pos + left] == body[pos..];
  }

  lemma EndOfWholeLoop(body: seq<byte>, n: nat)
    requires (n + 1) * DFU_CHUNK_SIZE == |body| && Last(|body|, n) && !Last(|body|, n + 1)
    requires ReadSize(|body|, n) == ReadSize(|body|, n + 1) == 0
    ensures Blocks(body, n, n * DFU_CHUNK_SIZE) == [Block([], false), Block([], true)]
  {
    hide Blocks;
    hide Last;
    hide ReadSize;
    var pos := n * DFU_CHUNK_SIZE;
    BlocksStep(body, n, pos, 0);
    BlocksStep(body, n + 1, pos, 0);
    BlocksEnd(body, n + 2, pos);
    assert body[pos..pos + 0] == [];
  }

  /**
   What the loop sends of an image longer than one chunk: its whole chunks, and then the
   remainder, which announces the end. Of a whole number of chunks the last one is never
   sent: an empty block announces the end in its place, and another empty block follows.
   */
  lemma LongImage(body: seq<byte>)
    requires DFU_CHUNK_SIZE < |body| && Passable(|body|)
    ensures Full(|body|) * DFU_CHUNK_SIZE <= |body|
    ensures Blocks(body, 0, 0) == Whole(body, 0, Full(|body|)) + Tail(body)
    ensures Payload(Blocks(body, 0, 0)) == if Sendable(|body|) then body else body[..|body| - DFU_CHUNK_SIZE]
  {
    var n := Full(|body|);
    EndOfLoop(body);
    WholeChunksGoOut(body, 0);
    PayloadOfWhole(body, 0, n, Tail(body));
    PayloadOfTail(body);
    FullLength(|body|);
    hide Blocks;
    hide Whole;
    hide Payload;
    hide Tail;
    hide Full;
    WholeAndRest(body, n * DFU_CHUNK_SIZE);
  }

  lemma FullLength(size: nat)
    requires size > DFU_CHUNK_SIZE
    ensures Full(size) * DFU_CHUNK_SIZE ==
            if Sendable(size) then size - size % DFU_CHUNK_SIZE else size - DFU_CHUNK_SIZE
  {
    assert size == size / DFU_CHUNK_SIZE * DFU_CHUNK_SIZE + size % DFU_CHUNK_SIZE;
  }

  lemma WholeAndRest(body: seq<byte>, n: nat)
    requires n <= |body|
    ensures body[0..n] + body[n..] == body && body[0..n] + [] == body[..n]
  {
  }

  lemma PayloadOfTail(body: seq<byte>)
    requires |body| > DFU_CHUNK_SIZE
    ensures Payload(Tail(body)) == if Sendable(|body|) then body[|body| - |body| % DFU_CHUNK_SIZE..] else []
  {
    if Sendable(|body|) {
      Prepend(Tail(body)[0], []);
    } else {
      Prepend(Block([], false), [Block([], true)]);
      Prepend(Block([], true), []);
    }
  }

  /**
   An image of at most one chunk is sent with more announced, and nothing after it;
   of exactly one chunk nothing is sent, and for an empty image a chunk of zeros.
   */
  lemma ShortImage(body: seq<byte>)
    requires |body| <= DFU_CHUNK_SIZE
    ensures Blocks(body, 0, 0) ==
            if body == [] then [Block(Zeros(DFU_CHUNK_SIZE), true)]
            else if |body| == DFU_CHUNK_SIZE then [Block([], true), Block([], true)]
            else [Block(body, true)]
  {
    hide Blocks;
    hide Zeros;
    if |body| == DFU_CHUNK_SIZE {
      EndOfOneChunk(body);
    } else if body == [] {
      EmptyImage();
    } else {
      PartOfAChunk(body);
    }
  }

  lemma EmptyImage()
    ensures Blocks([], 0, 0) == [Block(Zeros(DFU_CHUNK_SIZE), true)]
  {
    BlocksEnd([], 1, 0);
    var piece := Piece([], 0, DFU_CHUNK_SIZE);
    assert piece == Zeros(DFU_CHUNK_SIZE);
    assert ReadSize(0, 0) == DFU_CHUNK_SIZE && !Last(0, 0);
    hide Piece;
    hide Zeros;
    hide ReadSize;
    hide Last;
    assert OneBlock([], 0, 0) == Block(piece, true) && After([], 0, 0) == 0;
    assert Blocks([], 0, 0) == [OneBlock([], 0, 0)] + Blocks([], 1, 0);
  }

  lemma PartOfAChunk(body: seq<byte>)
    requires 0 < |body| < DFU_CHUNK_SIZE
    ensures Blocks(body, 0, 0) == [Block(body, true)]
  {
    SmallChunks(|body|);
    assert ReadSize(|body|, 0) == |body|;
    hide Blocks;
    hide ReadSize;
    hide Last;
    BlocksStep(body, 0, 0, |body|);
    BlocksEnd(body, 1, |body|);
    assert body[0..0 + |body|] == body;
  }

  lemma EndOfOneChunk(body: seq<byte>)
    requires |body| == DFU_CHUNK_SIZE
    ensures Blocks(body, 0, 0) == [Block([], true), Block([], true)]
  {
    SmallChunks(|body|);
    hide Blocks;
    BlocksStep(body, 0, 0, 0);
    BlocksStep(body, 1, 0, 0);
    BlocksEnd(body, 2, 0);
    assert body[0..0] == [];
  }
}
