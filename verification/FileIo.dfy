/**
 Buffered file input of the sender: the zgetc macro and the binary branch of
 readfile. The file system may hand out a file in pieces of any size.
 */
module FileIo {
  import opened Bytes

  const IBUFLEN: nat := 2048

  class FileSource {
    const zinbuf: array<byte>  // input buffer, one cell more for the terminator
    var zincnt: int            // bytes left in the buffer
    var zinptr: nat            // next byte in the buffer
    var file: seq<byte>        // the open input file
    var pos: nat               // how much of it has been read

    ghost predicate Valid()
      reads this
    {
      && zinbuf.Length == IBUFLEN + 1
      && 0 <= zincnt && zinptr + zincnt <= IBUFLEN
      && pos <= |file|
    }

    /** What zgetc has still to deliver. */
    ghost function Unread(): seq<byte>
      requires Valid()
      reads this, zinbuf
    {
      zinbuf[zinptr..zinptr + zincnt] + file[pos..]
    }

    constructor ()
      ensures Valid() && Unread() == [] && fresh(zinbuf)
    {
      zinbuf := new byte[IBUFLEN + 1];
      zincnt, zinptr, file, pos := 0, 0, [], 0;
    }

    /** Opens a file for reading (mode 1 of openfile). */
    method Open(contents: seq<byte>)
      modifies this, zinbuf
      requires Valid()
      ensures Valid() && Unread() == contents
    {
      file, pos := contents, 0;
      zinbuf[0] := 0;
      zinptr := 0;
      zincnt := 0;
    }

    /** The file system's read: any non-empty piece that fits, nothing at the end of the file. */
    method FsRead() returns (n: nat)
      requires Valid() && zincnt <= 0
      modifies this`pos, zinbuf
      ensures Valid() && n <= IBUFLEN && pos == old(pos) + n
      ensures n == 0 <==> old(pos) == |file|
      ensures zinbuf[..n] == file[old(pos)..pos]
    {
      if pos == |file| {
        return 0;
      }
      n :| 1 <= n <= IBUFLEN && n <= |file| - pos;
      forall i | 0 <= i < n {
        zinbuf[i] := file[pos + i];
      }
      pos := pos + n;
    }

    /** Refills the buffer when it is empty and returns its first byte, or -1 at the end. */
    method ReadFile() returns (c: int)
      requires zinbuf.Length == IBUFLEN + 1 && pos <= |file|
      requires zincnt == -1 && zinptr <= IBUFLEN
      modifies this, zinbuf
      ensures Valid() && file == old(file)
      ensures c == if old(pos) == |file| then -1 else file[old(pos)]
      ensures Unread() == if old(pos) == |file| then [] else file[old(pos) + 1..]
    {
      if zincnt < 1 {
        zincnt, zinptr := 0, 0;
        zincnt := FsRead();
        zinbuf[zincnt] := 0;
        if zincnt == 0 {
          return -1;
        }
        zinptr := 0;
      }
      assert zinbuf[0] == zinbuf[..zincnt][0] == file[old(pos)];
      assert zinbuf[..zincnt] == file[old(pos)..pos];
      c := zinbuf[zinptr];
      zincnt, zinptr := zincnt - 1, zinptr + 1;
      assert zinbuf[1..1 + zincnt] == zinbuf[..zincnt + 1][1..];
    }

    /** zgetc: the next byte of the file, or -1 at its end, whatever the buffering. */
    method ZGetc() returns (c: int)
      requires Valid()
      modifies this, zinbuf
      ensures Valid()
      ensures old(Unread()) == [] ==> c == -1 && Unread() == []
      ensures old(Unread()) != [] ==> c == old(Unread())[0] && Unread() == old(Unread())[1..]
    {
      zincnt := zincnt - 1;
      if zincnt >= 0 {
        c := zinbuf[zinptr];
        zinptr := zinptr + 1;
      } else {
        c := ReadFile();
      }
    }
  }
}
