/**
 * `MemoryBuffer` of Util.cpp: a byte buffer that grows on demand
 * (`GetBuffer`), changes size while keeping its contents (`Realloc`) and
 * frees its memory (`Clear`). A null `buffer` always goes with `size == 0`.
 * Freshly allocated C++ bytes are uninitialised; nothing is promised about
 * them here either.
 */
module MemBuf {

  import opened Util

  function Min(a: int, b: int): int { if a < b then a else b }

  function Max(a: int, b: int): int { if a < b then b else a }

  class MemoryBuffer {
    var size: int
    var buffer: array?<bv8>

    ghost predicate Valid()
      reads this
    {
      size >= 0 && (buffer == null ==> size == 0) && (buffer != null ==> buffer.Length == size)
    }

    /** The bytes the buffer holds; none when it is null. */
    ghost function Contents(): seq<bv8>
      reads this, buffer
    {
      if buffer == null then [] else buffer[..]
    }

    /** `MemoryBuffer()`: no memory and size 0. */
    constructor ()
      ensures Valid() && size == 0 && buffer == null
    {
      size := 0;
      buffer := null;
    }

    /**
     * `MemoryBuffer(bytesize)`: a fresh block of `bytesize` bytes. A negative
     * size makes C++'s `new[]` throw before any object exists; that outcome
     * is `None`.
     */
    static method Sized(bytesize: int) returns (m: Option<MemoryBuffer>)
      ensures m.None? <==> bytesize < 0
      ensures m.Some? ==> fresh(m.value) && m.value.Valid() && m.value.size == bytesize
      ensures m.Some? ==> m.value.buffer != null && fresh(m.value.buffer)
    {
      if bytesize < 0 {
        return None;
      }
      var mb := new MemoryBuffer();
      mb.size := bytesize;
      mb.buffer := new bv8[bytesize];
      m := Some(mb);
    }

    /** `GetSize`. */
    method GetSize() returns (n: int)
      requires Valid()
      ensures n == size && n >= 0
    {
      n := size;
    }

    /**
     * `GetBuffer(bytesize)`: only a request larger than the current size
     * replaces the block (contents not kept); the size becomes the larger of
     * the two and the block always holds at least `bytesize` bytes.
     */
    method GetBuffer(bytesize: int) returns (b: array?<bv8>)
      requires Valid()
      modifies this
      ensures Valid() && b == buffer
      ensures size == Max(old(size), bytesize)
      ensures bytesize <= old(size) ==> buffer == old(buffer)
      ensures bytesize > old(size) ==> buffer != null && fresh(buffer)
      ensures bytesize > 0 ==> buffer != null && buffer.Length >= bytesize
    {
      if bytesize > size {
        size := bytesize;
        buffer := new bv8[size];
      }
      b := buffer;
    }

    /**
     * `Realloc(bytesize)`: a fresh block of exactly `bytesize` bytes whose
     * first `min(bytesize, old size)` bytes are the old ones. A negative size
     * makes `new[]` throw before the buffer is touched: the result is null
     * and nothing changes.
     */
    method Realloc(bytesize: int) returns (b: array?<bv8>)
      requires Valid()
      modifies this
      ensures Valid() && (b == null <==> bytesize < 0)
      ensures bytesize < 0 ==> size == old(size) && buffer == old(buffer)
      ensures bytesize >= 0 ==> b == buffer && fresh(b) && size == bytesize
      ensures bytesize >= 0 ==>
        Contents()[..Min(bytesize, old(size))] == old(Contents())[..Min(bytesize, old(size))]
    {
      if bytesize < 0 {
        return null;
      }
      var copysize := Min(bytesize, size);
      var newbuffer := new bv8[bytesize];
      // memcpy
      forall i | 0 <= i < copysize {
        newbuffer[i] := buffer[i];
      }
      buffer := newbuffer;
      size := bytesize;
      b := newbuffer;
    }

    /** `Clear` (and the destructor): frees the block; size 0. */
    method Clear()
      modifies this
      ensures Valid() && size == 0 && buffer == null
    {
      buffer := null;
      size := 0;
    }
  }
}
