/**
 Writing a firmware image to one of the two flash slots of the Gecko: the chunk
 loop of dfu_gecko_write_image. It reads nothing in its first turn and twice in
 its last, and still writes every page once, in order.
 */
module GeckoFlash {
  import opened Bytes

  const PAGE: nat := 2048  // DFU_CHUNK_SIZE and DFU_XFER_SIZE_2K
  const SLOT_0: nat := 0x10000
  const SLOT_1: nat := 0x80000
  const SLOT_SIZE: nat := 0x70000
  const FLASH_SIZE: nat := 0xF0000
  const UINT32: int := 0x1_0000_0000

  function Sector(slot: int): nat {
    if slot == 0 then SLOT_0 else SLOT_1
  }

  /** Pages needed for `size` bytes. */
  function Chunks(size: nat): nat {
    size / PAGE + if size % PAGE != 0 then 1 else 0
  }

  /** The addresses of the first `n` pages from `base` on. */
  function Pages(base: nat, n: nat): seq<nat> {
    if n == 0 then [] else Pages(base, n - 1) + [base + (n - 1) * PAGE]
  }

  lemma ChunkBounds(size: nat)
    requires size > PAGE
    ensures Chunks(size) >= 2
    ensures (Chunks(size) - 1) * PAGE < size <= Chunks(size) * PAGE
  {
  }

  /** The device once the image is in, padded with what the page before the last holds, and otherwise as before. */
  ghost function Programmed(device: seq<byte>, base: nat, file: seq<byte>): seq<byte>
    requires PAGE < |file| && base + Chunks(|file|) * PAGE <= |device|
  {
    ChunkBounds(|file|);
    var size, pages := |file|, Chunks(|file|) * PAGE;
    device[..base] + (file + file[size - PAGE..pages - PAGE]) + device[base + pages..]
  }

  /** The loop variables: how many turns have been counted, and how much has been read. */
  datatype Counters = Counters(chunk_cnt: nat, offset: nat, pos: nat)

  /** One turn of the loop on an image of `size` bytes; `None` once it has ended. */
  function NextTurn(size: nat, t: Counters): Option<Counters> {
    if t.offset > size then None
    else
      var n := if size - t.pos < PAGE then size - t.pos else PAGE;
      var readbytes := if t.chunk_cnt == 0 || t.pos > size then 0 else n;
      if t.chunk_cnt != 0 && t.chunk_cnt == (Chunks(size) - 1) % UINT32 then None
      else Some(Counters((t.chunk_cnt + 1) % UINT32, t.offset + readbytes, t.pos + readbytes))
  }

  /** One turn for an image of more than a page: nothing is read in the first, and a page in each of the others. */
  lemma NextTurnReads(size: nat, cnt: nat)
    requires PAGE < size < UINT32 && cnt < Chunks(size)
    ensures var p := if cnt == 0 then 0 else (cnt - 1) * PAGE;
            NextTurn(size, Counters(cnt, p, p)) ==
            if cnt != 0 && cnt == Chunks(size) - 1 then None else Some(Counters(cnt + 1, cnt * PAGE, cnt * PAGE))
  {
    ChunkBounds(size);
  }

  class GeckoDfu {
    var chunk_cnt: nat
    var chunk_check: nat
    var offset: nat
    var status: int
    var page: nat
    var readbytes: nat
    var totalreadbytes: nat
    var totalwritebytes: nat
    var requested_slot_to_upgrade: int
    const image_buffer: array<byte>
    var file: seq<byte>       // the image file
    var pos: nat              // its read position
    var flash: seq<byte>      // the flash device
    var erased: seq<nat>      // pages erased and written, in order

    ghost predicate Valid()
      reads this
    {
      image_buffer.Length == PAGE && |flash| == FLASH_SIZE && pos <= |file|
    }

    ghost predicate Cleared()
      reads this, image_buffer
    {
      forall i :: 0 <= i < image_buffer.Length ==> image_buffer[i] == 0
    }

    ghost function Count(): Counters
      reads this
    {
      Counters(chunk_cnt, offset, pos)
    }

    /** The statics before the first upgrade. */
    constructor (image: seq<byte>, device: seq<byte>)
      requires |device| == FLASH_SIZE
      ensures Valid() && Cleared() && file == image && flash == device && pos == 0
      ensures chunk_cnt == 0 && offset == 0 && status == 0 && page == 0 && erased == []
      ensures fresh(image_buffer)
    {
      chunk_cnt, chunk_check, offset, status, page := 0, 0, 0, 0, 0;
      readbytes, totalreadbytes, totalwritebytes, requested_slot_to_upgrade := 0, 0, 0, -1;
      image_buffer := new byte[PAGE](_ => 0);
      file, pos, flash, erased := image, 0, device, [];
    }

    /** get_gecko_fw_size: adds up what the file system hands out until there is nothing left. */
    method GetFwSize() returns (size: nat)
      requires Valid() && pos == 0
      modifies this`pos, this`readbytes, this`totalreadbytes
      ensures Valid() && size == |file|
    {
      totalreadbytes := 0;
      var notdone := true;
      while notdone
        invariant Valid() && totalreadbytes == pos
        invariant !notdone ==> pos == |file|
        decreases notdone, |file| - pos
      {
        if pos == |file| {
          readbytes := 0;
        } else {
          var n :| 1 <= n <= PAGE && n <= |file| - pos;
          readbytes := n;
        }
        pos := pos + readbytes;
        totalreadbytes := totalreadbytes + readbytes;
        if readbytes == 0 {
          notdone := false;
        }
      }
      return totalreadbytes;
    }

    /** flash_erase of one page: all its bits are set. */
    method EraseImage(addr: nat)
      requires Valid() && addr + PAGE <= FLASH_SIZE
      modifies this`flash, this`erased
      ensures Valid() && flash == old(flash)[..addr] + Rep(255, PAGE) + old(flash)[addr + PAGE..]
      ensures erased == old(erased) + [addr]
    {
      flash := flash[..addr] + Rep(255, PAGE) + flash[addr + PAGE..];
      erased := erased + [addr];
    }

    /** flash_write of one page. Writing only clears bits, so the page must have been erased. */
    method FlashWrite(addr: nat)
      requires Valid() && addr + PAGE <= FLASH_SIZE && flash[addr..addr + PAGE] == Rep(255, PAGE)
      modifies this`flash
      ensures Valid() && flash == old(flash)[..addr] + image_buffer[..] + old(flash)[addr + PAGE..]
    {
      flash := flash[..addr] + image_buffer[..] + flash[addr + PAGE..];
    }

    /** write_image_chunk_to_flash: the next page is erased and the whole buffer written to it. */
    method WriteChunk(imageBytes: nat, startSector: nat)
      requires Valid() && imageBytes <= PAGE && startSector + (page + 1) * PAGE <= FLASH_SIZE
      modifies this`page, this`flash, this`erased, this`totalwritebytes
      ensures Valid() && page == old(page) + 1 && totalwritebytes == old(totalwritebytes) + imageBytes
      ensures var a := startSector + old(page) * PAGE;
              && flash == old(flash)[..a] + image_buffer[..] + old(flash)[a + PAGE..]
              && erased == old(erased) + [a]
    {
      var page_addr := startSector + page * PAGE;
      page := page + 1;
      ghost var before := flash;
      EraseImage(page_addr);
      assert flash[page_addr..page_addr + PAGE] == Rep(255, PAGE);
      assert flash[..page_addr] == before[..page_addr] && flash[page_addr + PAGE..] == before[page_addr + PAGE..];
      FlashWrite(page_addr);
      totalwritebytes := totalwritebytes + imageBytes;
    }

    /** file_read_flash: the next chunk of the file goes to the next page. */
    method FileReadFlash()
      requires Valid() && Sector(requested_slot_to_upgrade) + (page + 1) * PAGE <= FLASH_SIZE && pos < |file|
      modifies this`pos, this`readbytes, this`totalreadbytes, this`status, this`page, this`flash, this`erased,
               this`totalwritebytes, image_buffer
      ensures Valid() && status == 0
      ensures readbytes == if |file| - old(pos) < PAGE then |file| - old(pos) else PAGE
      ensures pos == old(pos) + readbytes && totalreadbytes == old(totalreadbytes) + readbytes
      ensures page == old(page) + 1 && totalwritebytes == old(totalwritebytes) + readbytes
      ensures image_buffer[..] == file[old(pos)..pos] + old(image_buffer[..])[readbytes..]
      ensures var a := Sector(requested_slot_to_upgrade) + old(page) * PAGE;
              && flash == old(flash)[..a] + image_buffer[..] + old(flash)[a + PAGE..]
              && erased == old(erased) + [a]
    {
      readbytes := if |file| - pos < PAGE then |file| - pos else PAGE;
      forall i | 0 <= i < readbytes {
        image_buffer[i] := file[pos + i];
      }
      pos := pos + readbytes;
      totalreadbytes := totalreadbytes + readbytes;
      if requested_slot_to_upgrade == 0 {
        WriteChunk(readbytes, SLOT_0);
      } else {
        WriteChunk(readbytes, SLOT_1);
      }
      status := 0;
    }

    /** After `n` whole chunks: they are in the slot, and nothing else has changed. */
    ghost predicate Written(n: nat, device: seq<byte>)
      reads this
    {
      var base := Sector(requested_slot_to_upgrade);
      && Valid() && |device| == FLASH_SIZE
      && n * PAGE <= |file| && base + Chunks(|file|) * PAGE <= FLASH_SIZE
      && pos == totalreadbytes == totalwritebytes == n * PAGE && page == n
      && flash == device[..base] + file[..n * PAGE] + device[base + n * PAGE..]
      && erased == Pages(base, n)
    }

    /** A whole chunk more. */
    method WholeChunk(ghost n: nat, ghost device: seq<byte>)
      requires Written(n, device) && (n + 1) * PAGE <= |file|
      modifies this`pos, this`readbytes, this`totalreadbytes, this`status, this`page, this`flash, this`erased,
               this`totalwritebytes, image_buffer
      ensures Written(n + 1, device) && status == 0 && readbytes == PAGE
      ensures image_buffer[..] == file[n * PAGE..(n + 1) * PAGE]
    {
      FileReadFlash();
      Append(device, Sector(requested_slot_to_upgrade), file[..n * PAGE], image_buffer[..]);
      assert file[..(n + 1) * PAGE] == file[..n * PAGE] + image_buffer[..];
    }

    /**
     dfu_gecko_write_image. Images shorter than a page are refused. For every
     longer one the slot ends up holding the file, each page erased and written
     once, in order, as long as the device has room; `SlotHoldsFile` says what that
     means for the two slots. What follows the file in its last page is what the
     previous page holds there: the loop does not clear the buffer before its last
     read.
     */
    method WriteImage(slot: int) returns (rc: int)
      requires Valid() && Cleared() && Sector(slot) + Chunks(|file|) * PAGE <= FLASH_SIZE && |file| != PAGE
      requires slot == 0 || slot == 1
      requires pos == 0 && chunk_cnt == 0 && offset == 0 && status == 0 && page == 0 && erased == []
      modifies this, image_buffer
      ensures Valid() && file == old(file)
      ensures rc == if |file| < PAGE then -1 else 0
      ensures |file| < PAGE ==> flash == old(flash) && erased == []
      ensures |file| > PAGE ==>
                && totalwritebytes == totalreadbytes == |file|
                && erased == Pages(Sector(slot), Chunks(|file|))
                && flash == Programmed(old(flash), Sector(slot), file)
    {
      hide Chunks;
      hide Pages;
      ghost var device := flash;
      requested_slot_to_upgrade := slot;
      page := 0;
      var fw_image_size := GetFwSize();
      if fw_image_size == 0 || fw_image_size < PAGE {
        return -1;
      }
      CountChunks(fw_image_size);
      Rewind(device);
      rc := Loop(fw_image_size, device);
    }

    /** Back to the start of the file, with the counters at zero. */
    method Rewind(ghost device: seq<byte>)
      requires Valid() && PAGE < |file| && chunk_check == Chunks(|file|) && status == 0
      requires Sector(requested_slot_to_upgrade) + Chunks(|file|) * PAGE <= FLASH_SIZE
      requires chunk_cnt == 0 && offset == 0 && page == 0 && erased == [] && flash == device
      modifies this`pos, this`readbytes, this`totalreadbytes, this`totalwritebytes
      ensures Looping(device)
    {
      pos := 0;
      readbytes, totalreadbytes, totalwritebytes := 0, 0, 0;
      ChunkBounds(|file|);
      hide Chunks;
      ghost var base := Sector(requested_slot_to_upgrade);
      assert device == device[..base] + file[..0] + device[base + 0..];
    }

    /** The loop until all the chunks are read and written. */
    method Loop(fw_image_size: nat, ghost device: seq<byte>) returns (rc: int)
      requires Looping(device) && fw_image_size == |file|
      modifies this, image_buffer
      ensures Finished(device) && rc == 0
      ensures file == old(file) && requested_slot_to_upgrade == old(requested_slot_to_upgrade)
    {
      hide Finished;
      hide Chunks;
      while offset <= fw_image_size
        invariant Looping(device)
        invariant file == old(file) && requested_slot_to_upgrade == old(requested_slot_to_upgrade)
        decreases chunk_check - chunk_cnt
      {
        var finished := Turn(device);
        if finished {
          StatusIsZero(device);
          return status;
        }
      }
      assert false;
      return status;
    }

    lemma StatusIsZero(device: seq<byte>)
      requires Finished(device)
      ensures status == 0
    {
    }

    /** The loop between two turns: one chunk less than counted has been written. */
    ghost predicate Looping(device: seq<byte>)
      reads this
    {
      && |file| > PAGE && chunk_check == Chunks(|file|) && status == 0
      && chunk_cnt < chunk_check
      && Written(if chunk_cnt == 0 then 0 else chunk_cnt - 1, device)
      && offset == pos && (chunk_cnt == 0 ==> readbytes == 0)
    }

    /** What the loop leaves behind. */
    ghost predicate Finished(device: seq<byte>)
      reads this
    {
      && Valid() && |device| == FLASH_SIZE && PAGE < |file| && status == 0
      && var base := Sector(requested_slot_to_upgrade);
      && base + Chunks(|file|) * PAGE <= |device|
      && totalwritebytes == totalreadbytes == |file|
      && erased == Pages(base, Chunks(|file|))
      && flash == Programmed(device, base, file)
    }

    /** One turn of the loop. */
    method Turn(ghost device: seq<byte>) returns (finished: bool)
      requires Looping(device)
      modifies this, image_buffer
      ensures file == old(file) && requested_slot_to_upgrade == old(requested_slot_to_upgrade)
      ensures if finished then Finished(device)
              else Looping(device) && chunk_cnt == old(chunk_cnt) + 1 && chunk_check == old(chunk_check)
      ensures NextTurn(|file|, old(Count())) == if finished then None else Some(Count())
      ensures !finished ==> Cleared()
    {
      hide Chunks;
      hide Pages;
      hide NextTurn;
      hide Finished;
      ChunkBounds(|file|);
      NextTurnReads(|file|, chunk_cnt);
      if chunk_cnt != 0 {
        WholeChunk(chunk_cnt - 1, device);
      }
      if chunk_cnt != 0 && chunk_cnt == chunk_check - 1 {
        LastChunk(chunk_cnt, device);
        return true;
      }
      offset := offset + readbytes;
      ClearBuffer();
      chunk_cnt := chunk_cnt + 1;
      return false;
    }

    method CountChunks(fw_image_size: nat)
      modifies this`chunk_check
      ensures chunk_check == Chunks(fw_image_size)
    {
      chunk_check := fw_image_size / PAGE;
      if fw_image_size % PAGE != 0 {
        chunk_check := chunk_check + 1;
      }
    }

    /** The second read of the last turn. */
    method LastChunk(ghost n: nat, ghost device: seq<byte>)
      requires Written(n, device) && 1 <= n && n + 1 == Chunks(|file|) && |file| > PAGE
      requires image_buffer[..] == file[(n - 1) * PAGE..n * PAGE]
      modifies this`pos, this`readbytes, this`totalreadbytes, this`status, this`page, this`flash, this`erased,
               this`totalwritebytes, image_buffer
      ensures Finished(device)
    {
      hide Chunks;
      hide Pages;
      hide Programmed;
      ghost var base, image := Sector(requested_slot_to_upgrade), file;
      ChunkBounds(|file|);
      OnePageMore(base, n);
      FileReadFlash();
      ghost var buffer := image_buffer[..];
      LastPage(device, base, image, n, buffer);
    }

    method ClearBuffer()
      requires Valid()
      modifies image_buffer
      ensures Cleared()
    {
      forall i | 0 <= i < PAGE {
        image_buffer[i] := 0;
      }
    }
  }

  lemma OnePageMore(base: nat, n: nat)
    ensures Pages(base, 0) == []
    ensures Pages(base, n + 1) == Pages(base, n) + [base + n * PAGE]
  {
  }

  /** The last buffer: the end of the file, then what the page before it holds at the same places. */
  lemma StalePadding(file: seq<byte>, n: nat, buffer: seq<byte>)
    requires 1 <= n && n * PAGE < |file| <= (n + 1) * PAGE
    requires buffer == file[n * PAGE..] + file[(n - 1) * PAGE..n * PAGE][|file| - n * PAGE..]
    ensures file[..n * PAGE] + buffer == file + file[|file| - PAGE..(n + 1) * PAGE - PAGE]
  {
    assert file == file[..n * PAGE] + file[n * PAGE..];
    assert file[(n - 1) * PAGE..n * PAGE][|file| - n * PAGE..] == file[|file| - PAGE..n * PAGE];
  }

  /** The device after the last page. */
  lemma LastPage(device: seq<byte>, base: nat, file: seq<byte>, n: nat, buffer: seq<byte>)
    requires 1 <= n && n + 1 == Chunks(|file|) && PAGE < |file| && base + (n + 1) * PAGE <= |device|
    requires n * PAGE < |file| <= (n + 1) * PAGE
    requires buffer == file[n * PAGE..] + file[(n - 1) * PAGE..n * PAGE][|file| - n * PAGE..]
    ensures var flash := device[..base] + file[..n * PAGE] + device[base + n * PAGE..];
            var a := base + n * PAGE;
            flash[..a] + buffer + flash[a + PAGE..]
            == Programmed(device, base, file)
  {
    Append(device, base, file[..n * PAGE], buffer);
    StalePadding(file, n, buffer);
  }

  /** Writing a page right behind what has been written. */
  lemma Append(device: seq<byte>, base: nat, done: seq<byte>, buffer: seq<byte>)
    requires base + |done| + |buffer| <= |device|
    ensures var flash := device[..base] + done + device[base + |done|..];
            var a := base + |done|;
            flash[..a] + buffer + flash[a + |buffer|..]
            == device[..base] + (done + buffer) + device[base + |done + buffer|..]
  {
  }

  /**
   What programming means: the slot starts with the file, and all other pages are as
   they were. The other slot is among those unless slot 0 is programmed with more
   than it can hold; then the rest of the file is at the start of slot 1.
   */
  lemma SlotHoldsFile(device: seq<byte>, slot: int, file: seq<byte>)
    requires |device| == FLASH_SIZE && PAGE < |file| && (slot == 0 || slot == 1)
    requires Sector(slot) + Chunks(|file|) * PAGE <= FLASH_SIZE
    ensures var base, other, pages := Sector(slot), Sector(1 - slot), Chunks(|file|) * PAGE;
            var flash := Programmed(device, base, file);
            && |flash| == FLASH_SIZE
            && flash[base..base + |file|] == file
            && flash[..base] == device[..base] && flash[base + pages..] == device[base + pages..]
            && (slot == 1 || |file| <= SLOT_SIZE ==>
                  flash[other..other + SLOT_SIZE] == device[other..other + SLOT_SIZE])
            && (slot == 0 && |file| > SLOT_SIZE ==>
                  flash[SLOT_1..SLOT_0 + |file|] == file[SLOT_SIZE..])
  {
    ChunkBounds(|file|);
    var base, pages := Sector(slot), Chunks(|file|) * PAGE;
    if |file| <= SLOT_SIZE {
      WholeSlot(|file|);
    }
    hide Chunks;
    var flash := Programmed(device, base, file);
    assert flash[..base] == device[..base] && flash[base + pages..] == device[base + pages..];
    assert flash[base..base + |file|] == file;
    if slot == 1 {
      assert flash[SLOT_0..SLOT_0 + SLOT_SIZE] == flash[..base][SLOT_0..];
    } else if |file| <= SLOT_SIZE {
      assert flash[SLOT_1..] == flash[base + pages..][SLOT_1 - base - pages..];
      assert device[SLOT_1..] == device[base + pages..][SLOT_1 - base - pages..];
    } else {
      assert flash[SLOT_1..SLOT_0 + |file|] == flash[base..base + |file|][SLOT_SIZE..];
    }
  }

  predicate AllZero(s: seq<byte>) {
    forall i :: 0 <= i < |s| ==> s[i] == 0
  }

  /**
   The comment in the source says that the last page is padded with zeros. It is if
   and only if the image fills its last page, or the page before holds zeros at the
   same places.
   */
  lemma PaddingIsZeros(device: seq<byte>, base: nat, file: seq<byte>)
    requires PAGE < |file| && base + Chunks(|file|) * PAGE <= |device|
    ensures var pages := Chunks(|file|) * PAGE;
            && |file| <= pages
            && (AllZero(Programmed(device, base, file)[base + |file|..base + pages])
                <==> |file| % PAGE == 0 || AllZero(file[|file| - PAGE..pages - PAGE]))
  {
    ChunkBounds(|file|);
    var pages := Chunks(|file|) * PAGE;
    assert |file| % PAGE == 0 ==> pages == |file|;
    hide Chunks;
    var padding := file[|file| - PAGE..pages - PAGE];
    assert Programmed(device, base, file)[base + |file|..base + pages] == padding;
  }

  /** An image of 2049 bytes, none of them zero: the last page is not padded with zeros. */
  lemma PaddingNeedNotBeZeros(device: seq<byte>, base: nat)
    requires base + 2 * PAGE <= |device|
    ensures var file := Rep(1, PAGE + 1);
            !AllZero(Programmed(device, base, file)[base + |file|..base + 2 * PAGE])
  {
    var file := Rep(1, PAGE + 1);
    assert Chunks(PAGE + 1) == 2;
    PaddingIsZeros(device, base, file);
    assert file[1..PAGE][0] == 1;
  }

  lemma WholeSlot(size: nat)
    requires size <= SLOT_SIZE
    ensures Chunks(size) * PAGE <= SLOT_SIZE
  {
  }

  // ---- The one size for which the loop never ends ----

  function After(size: nat, turns: nat): Option<Counters> {
    if turns == 0 then Some(Counters(0, 0, 0))
    else match After(size, turns - 1)
      case None => None
      case Some(t) => NextTurn(size, t)
  }

  /** An image of exactly one page is accepted, but the loop then goes on for ever. */
  lemma {:induction false} OnePageNeverEnds(turns: nat)
    ensures After(PAGE, turns).Some?
    ensures var t := After(PAGE, turns).value; t.offset == t.pos <= PAGE
  {
    if turns > 0 {
      OnePageNeverEnds(turns - 1);
    }
  }

  /** For longer images the turns count the pages. */
  lemma {:induction false} TurnsCountPages(size: nat, turns: nat)
    requires PAGE < size < UINT32 && turns < Chunks(size)
    ensures var p := if turns == 0 then 0 else (turns - 1) * PAGE;
            After(size, turns) == Some(Counters(turns, p, p))
  {
    hide NextTurn;
    if turns > 0 {
      NextTurnReads(size, turns - 1);
      TurnsCountPages(size, turns - 1);
    }
  }

  /** Of all images that are accepted, the loop goes on for ever exactly for those of one page. */
  lemma LoopEnds(size: nat)
    requires PAGE <= size < UINT32
    ensures (forall turns: nat :: After(size, turns).Some?) <==> size == PAGE
  {
    if size == PAGE {
      forall turns: nat
        ensures After(size, turns).Some?
      {
        OnePageNeverEnds(turns);
      }
    } else {
      ChunkBounds(size);
      TurnsCountPages(size, Chunks(size) - 1);
      NextTurnReads(size, Chunks(size) - 1);
      assert After(size, Chunks(size)) == None;
    }
  }
}
