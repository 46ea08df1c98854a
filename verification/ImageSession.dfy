/** One controller's download: the open image file, the two chunks in memory, and the progress made. */
module ImageSession {
  import opened Options
  import opened Words
  import opened CacheSpec
  import opened CacheProofs
  import opened DownloadProgress
  import opened ImageDownload

  class DownloadSession {
    const file: ImageFile
    var position: nat
    /** Both chunks: the even one, then the odd one. Null until the image is staged. */
    var chunks: array?<byte>
    var offsetEven: u32
    var offsetOdd: u32
    var bytesReadFile: u32
    var resumePending: bool
    var bytesReadController: u32
    var percentNext: u8
    var percentIncrement: u8
    var loadWaiting: bool
    var reported: seq<u8>
    var queue: seq<Message>

    ghost predicate Valid()
      reads this
    {
      |file| > 0 && (chunks != null ==> chunks.Length == 4096)
    }

    ghost function View(): (c: Cache)
      requires Valid()
      reads this, chunks
      ensures c.Shaped()
    {
      Cache(chunks != null, if chunks == null then FRESH.buf else chunks[..],
            offsetEven, offsetOdd, bytesReadFile, position, resumePending)
    }

    ghost function Made(): Progress
      reads this
    {
      Progress(bytesReadController, percentNext, percentIncrement, loadWaiting, reported)
    }

    constructor (file: ImageFile, increment: u8)
      requires |file| > 0
      ensures Valid() && this.file == file && View() == FRESH && Made() == Start(increment) && queue == []
    {
      this.file := file;
      position, chunks := 0, null;
      offsetEven, offsetOdd, bytesReadFile, resumePending := 0, 0, 0, false;
      bytesReadController, percentNext, percentIncrement, loadWaiting := 0, 0, increment, false;
      reported, queue := [], [];
    }

    /** `fread` of n bytes into the buffer from index `at` on. */
    method ReadFile(buf: array<byte>, at: nat, n: nat) returns (size: nat)
      requires at + |FileRead(file, position, n)| <= buf.Length
      modifies buf, `position
      ensures buf[..] == Stored(old(buf[..]), at, FileRead(file, old(position), n))
      ensures size == |FileRead(file, old(position), n)| && position == old(position) + size
    {
      ghost var bytes := FileRead(file, position, n);
      size := 0;
      while size < n && position < |file|
        invariant size <= |bytes| && position == old(position) + size
        invariant size < |bytes| <==> size < n && position < |file|
        invariant buf[..] == Stored(old(buf[..]), at, bytes[..size])
      {
        assert bytes[size] == file[position];
        assert bytes[..size + 1] == bytes[..size] + [bytes[size]];
        buf[at + size] := file[position];
        size, position := size + 1, position + 1;
      }
      assert bytes[..size] == bytes;
    }

    /** STAGE: the file opened anew and a new buffer with the first two chunks, kept only if both could be
        read. */
    method Stage()
      requires Valid()
      modifies this
      ensures Valid() && View() == StageStep(file, old(View()))
      ensures Made() == old(Made()) && queue == old(queue)
      ensures chunks != old(chunks) ==> chunks != null && fresh(chunks)
    {
      position := 0;
      var buf := new byte[4096];
      var size := ReadFile(buf, 0, 4096);
      if size == 4096 {
        assert buf[..] == FileRead(file, 0, 4096);
        chunks := buf;
        offsetEven, offsetOdd, bytesReadFile := 0, CHUNK, size;
      }
    }

    /** READ: the next chunk over the older one, first the bytes, then the offset. The size is that of
        the image the message names. */
    method ReadNextChunk(size: u32)
      requires Valid() && chunks != null
      requires ReadStep(file, size, View()).Done?
      modifies this, chunks
      ensures Valid() && chunks == old(chunks)
      ensures ReadStep(file, size, old(View())) == Done(View())
      ensures Made() == old(Made()) && queue == old(queue)
    {
      if offsetEven > offsetOdd {
        var request := ReadRequest(size, offsetOdd);
        var got := ReadFile(chunks, 2048, request);
        if got == request {
          offsetOdd := U32(offsetOdd + 2 * CHUNK);
          bytesReadFile := U32(bytesReadFile + got);
        }
      } else {
        var request := ReadRequest(size, offsetEven);
        var got := ReadFile(chunks, 0, request);
        if got == request {
          offsetEven := U32(offsetEven + 2 * CHUNK);
          bytesReadFile := U32(bytesReadFile + got);
        }
      }
    }

    /** RESET: both chunks from the aligned offset on. */
    method Reset(offset: u32)
      requires Valid() && chunks != null
      modifies this, chunks
      ensures Valid() && chunks == old(chunks)
      ensures View() == ResetStep(file, offset, old(View()))
      ensures Made() == old(Made()) && queue == old(queue)
    {
      var base := AlignedDown(offset);
      position := base;
      var size := ReadFile(chunks, 0, 4096);
      if size == 4096 {
        offsetEven, offsetOdd := base, U32(base + CHUNK);
        bytesReadFile, resumePending := U32(base + 2 * CHUNK), false;
      }
    }

    /** A copy out of the buffer, `Bad` where C would leave the buffer. */
    method CopyBytes(at: int, n: int) returns (reply: Reply)
      requires chunks != null
      ensures reply == Copy(chunks[..], at, n)
    {
      if 0 <= at && 0 <= n && at + n <= chunks.Length {
        assert chunks[at..at + n] == chunks[..][at..at + n];
        reply := Bytes(chunks[at..at + n]);
      } else {
        reply := Bad;
      }
    }

    /** Copies a packet out of the chunks, if they hold it. */
    method CopyPacket(offset: u32, length: u16) returns (reply: Reply)
      requires Valid() && chunks != null
      ensures reply == Lookup(View(), offset, length)
    {
      ghost var c := View();
      assert c.buf == chunks[..] && c.offsetEven == offsetEven && c.offsetOdd == offsetOdd;
      var end := U32(offset + length);
      if offset >= offsetEven && end <= U32(offsetEven + CHUNK) {
        reply := CopyBytes(U32(offset - offsetEven), length);
      } else if offset >= offsetOdd && end <= U32(offsetOdd + CHUNK) {
        reply := CopyBytes(2048 + U32(offset - offsetOdd), length);
      } else if offsetOdd > offsetEven && offset < offsetOdd && end > offsetEven {
        reply := CopyBytes(U32(offset - offsetEven), length);
      } else if offsetEven > offsetOdd && offset < offsetEven && end > offsetOdd {
        reply := CopyCrossing(offset, length);
      } else {
        reply := Miss;
      }
    }

    method CopyCrossing(offset: u32, length: u16) returns (reply: Reply)
      requires chunks != null
      ensures reply == CrossingAt(chunks[..], offsetEven, offsetOdd, offset, length)
    {
      var lengthOdd := U16(offsetEven - offset);
      var odd := CopyBytes(2048 + U32(offset - offsetOdd), lengthOdd);
      var even := CopyBytes(0, U16(length - lengthOdd));
      reply := Joined(odd, even, lengthOdd <= length);
    }

    /** A data request, answered within the size of the image that it names, if it names one. What follows a
        `Bad` copy is undefined; here it changes nothing. */
    method ReadImageData(named: Option<u32>, offset: u32, length: u16) returns (qtyRead: u16, reply: Reply)
      requires Valid() && (named.Some? ==> named.value > 0)
      modifies this
      ensures Valid() && chunks == old(chunks)
      ensures reply == if named.None? then Nothing else old(Find(named.value, View(), offset, length))
      ensures qtyRead == if reply.Bytes? then length else 0
      ensures (View(), queue) ==
              if named.None? then old((View(), queue))
              else old(var (c, asked) := Requested(named.value, View(), offset, length); (c, queue + asked))
      ensures Made() ==
              if named.None? then old(Made())
              else old(Progressed(Made(), named.value, Find(named.value, View(), offset, length),
                                  resumePending, offset, length))
    {
      qtyRead, reply := 0, Nothing;
      assert queue == queue + [];
      if named.None? {
        return;
      }
      var size := named.value;
      if offset > size || U32(offset + length) > size || chunks == null {
        return;
      }
      reply := CopyPacket(offset, length);
      match reply {
        case Bytes(_) =>
          qtyRead := length;
          if U32(U32(offset + length) + THRESHOLD) > bytesReadFile && bytesReadFile < size {
            queue := queue + [ReadNext];
          }
          CountBytes(size, qtyRead);
        case Miss =>
          if !resumePending {
            queue := queue + [Message.Reset(offset)];
            bytesReadController, resumePending := offset, true;
          }
        case _ =>
      }
    }

    /** Counts the bytes sent, broadcasts the status events due, and notices the end of the download. */
    method CountBytes(size: u32, quantity: u16)
      requires size > 0
      modifies `bytesReadController, `percentNext, `loadWaiting, `reported
      ensures Made() == Advance(old(Made()), size, quantity)
    {
      bytesReadController := U32(bytesReadController + quantity);
      var percentComplete := U8(U32(bytesReadController * 100) / size);
      if percentComplete >= percentNext {
        reported := reported + [percentComplete];
        percentNext := U8(percentNext + percentIncrement);
      } else if bytesReadController >= size {
        reported := reported + [100];
      }
      if (percentComplete == 100 || bytesReadController >= size) && !loadWaiting {
        loadWaiting := true;
      }
    }
  }
}
