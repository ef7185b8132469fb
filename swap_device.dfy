/**
 * The swap device: a backing file that pages byte ranges of the memory
 * arena in and out of RAM buffers.
 *
 * The device is a state machine over the descriptor `fd` (open when
 * positive, closed when -1) and the execution mode, plus a table of the
 * buffers it has handed out and not yet taken back. The build flag
 * `USE_MMAP` picks one of two code paths; here it is the constant
 * `useMmap`, fixed when the device is built. A buffer the device hands out
 * is a fresh array: the array's identity plays the part of the pointer
 * that keys the C++ tables.
 */
module SwapDevice {
  import opened Errors
  import opened ByteFile

  /** `ml::train::ExecutionMode`. */
  datatype ExecutionMode = Train | Inference | Validate

  /** A record of `allocated`: the file range `[offset, offset + size)` a heap buffer mirrors. */
  datatype Region = Region(offset: int, size: nat)

  /**
   * A record of `mapped`: the page-aligned window `[base, base + len)` of
   * the file that was mapped, and the caller-visible range
   * `[offset, offset + size)` inside it.
   */
  datatype Mapping = Mapping(base: nat, len: nat, offset: nat, size: nat)

  /**
   * Where a mapping of `[offset, offset + size)` starts (page number `page`,
   * byte `off`), how far into it the range begins, and its length.
   */
  datatype PageWindow = PageWindow(page: nat, off: nat, diff: nat, len: nat)

  const OFF_T_MAX: int := 0x7fff_ffff_ffff_ffff
  const SIZE_T_MODULUS: int := 0x1_0000_0000_0000_0000

  /**
   * The page alignment of the mapped paths: `off` rounds `offset` down to a
   * page boundary, `diff` is what was cut off, `len` is what must be mapped
   * so that the window still ends at `offset + size`.
   */
  function MapWindow(offset: nat, size: nat, pageSize: nat): (w: PageWindow)
    requires pageSize > 0
    ensures w.off == w.page * pageSize
    ensures w.off <= offset < w.off + pageSize
    ensures w.diff == offset - w.off && w.diff < pageSize
    ensures w.off + w.len == offset + size
    ensures w.len == 0 <==> size == 0 && w.diff == 0
  {
    var page := offset / pageSize;
    var off := page * pageSize;
    PageWindow(page, off, offset - off, size + (offset - off))
  }

  /**
   * `size - 1` computed in `size_t` and handed to `lseek` as an `off_t`:
   * negative, so that the seek fails, for `size == 0` and for sizes beyond
   * the `off_t` range.
   */
  function SparseTailOffset(size: nat): (t: int)
    requires size < SIZE_T_MODULUS
    ensures t < 0 <==> size == 0 || size - 1 > OFF_T_MAX
    ensures t >= 0 ==> t == size - 1
  {
    var u := (size - 1) % SIZE_T_MODULUS;
    if u <= OFF_T_MAX then u else u - SIZE_T_MODULUS
  }

  class Device {
    /** The `USE_MMAP` build flag. */
    const useMmap: bool
    /** What `sysconf(_SC_PAGE_SIZE)` returns. */
    const pageSize: nat
    /** `weight_offset`: for a weight id, its `(file offset, length)` in a persisted file. */
    const weightOffset: map<nat, Region>

    var fd: int
    var executionMode: ExecutionMode
    /** Whether the backing file exists at `dev_path`, and its bytes. */
    var fileExists: bool
    var file: seq<byte>
    /** The file position of `fd`. */
    var pos: int
    /** `allocated` (buffered-copy path) and `mapped` (`USE_MMAP` path) of the source, keyed by the buffer handed out. */
    var allocations: map<array<byte>, Region>
    var mappings: map<array<byte>, Mapping>

    ghost predicate Valid()
      reads this
    {
      && pageSize > 0
      && (!fileExists ==> file == [])
      && (fd >= 0 ==> fileExists)
      && (forall p | p in allocations :: p.Length == allocations[p].size)
      && (forall p | p in mappings :: p.Length == mappings[p].size && IsWindowOf(mappings[p]))
      && (useMmap ==> allocations == map[])
      && (!useMmap ==> mappings == map[])
    }

    /** A `mapped` record's window is the page-aligned one its logical range needs. */
    ghost predicate IsWindowOf(m: Mapping)
      reads this
      requires pageSize > 0
    {
      var w := MapWindow(m.offset, m.size, pageSize);
      m.base == w.off && m.len == w.len
    }

    /** A closed device over whatever the file system holds at `dev_path`. */
    constructor (useMmap: bool, pageSize: nat, weightOffset: map<nat, Region>, mode: ExecutionMode,
                 fileExists: bool, file: seq<byte>)
      requires pageSize > 0
      requires !fileExists ==> file == []
      ensures Valid()
      ensures this.useMmap == useMmap && this.pageSize == pageSize && this.weightOffset == weightOffset
      ensures fd == -1 && executionMode == mode && pos == 0
      ensures this.fileExists == fileExists && this.file == file
      ensures allocations == map[] && mappings == map[]
    {
      this.useMmap := useMmap;
      this.pageSize := pageSize;
      this.weightOffset := weightOffset;
      fd := -1;
      executionMode := mode;
      this.fileExists := fileExists;
      this.file := file;
      pos := 0;
      allocations := map[];
      mappings := map[];
    }

    /**
     * `start(size, mode)`: open the backing file; in TRAIN mode truncate it
     * and make it a sparse file of exactly `size` bytes. `osFd` is what
     * `open` returns (negative when it fails).
     */
    method Start(size: nat, mode: ExecutionMode, osFd: int) returns (r: Outcome)
      requires Valid()
      requires size < SIZE_T_MODULUS
      modifies this
      ensures Valid()
      ensures allocations == old(allocations) && mappings == old(mappings)
      // already open: nothing happens
      ensures old(fd) > 0 ==>
        && r == Pass && fd == old(fd) && executionMode == old(executionMode)
        && fileExists == old(fileExists) && file == old(file) && pos == old(pos)
      // the descriptor is stored before any check; only a non-TRAIN mode is recorded
      ensures old(fd) <= 0 ==>
        && fd == osFd
        && executionMode == (if mode == Train then old(executionMode) else mode)
      ensures old(fd) <= 0 && osFd < 0 ==>
        && r == Fail(RuntimeError(OpenFile))
        && fileExists == old(fileExists) && file == old(file) && pos == old(pos)
      ensures old(fd) <= 0 && osFd >= 0 ==>
        && fileExists && pos == 0
        && r == (if SparseTailOffset(size) < 0 then Fail(RuntimeError(SeekFile)) else Pass)
      // TRAIN truncates, then writes one byte at size - 1
      ensures old(fd) <= 0 && osFd >= 0 && mode == Train ==>
        file == if SparseTailOffset(size) < 0 then [] else Zeros(size)
      // other modes open without truncating and write nothing
      ensures old(fd) <= 0 && osFd >= 0 && mode != Train ==> file == old(file)
    {
      if fd > 0 {
        return Pass;
      }
      fd := osFd;
      if mode == Train {
        if fd >= 0 {
          // O_CREAT | O_TRUNC
          fileExists, file, pos := true, [], 0;
        }
      } else {
        if fd >= 0 {
          // O_CREAT keeps an existing file
          fileExists, pos := true, 0;
        }
        executionMode := mode;
      }
      if fd < 0 {
        return Fail(RuntimeError(OpenFile));
      }
      var tail := SparseTailOffset(size);
      if tail < 0 {
        return Fail(RuntimeError(SeekFile));
      }
      pos := tail;
      if mode == Train {
        file := WriteAt(file, tail, [0]);
        pos := pos + 1;
        assert forall i | 0 <= i < size :: file[i] == 0 by {
          assert file[tail..tail + 1] == [0];
        }
        assert file == Zeros(size);
      }
      pos := 0;
      r := Pass;
    }

    /** A preload copies into `memoryPtr`; `memcpy` needs it to hold the whole weight. */
    ghost predicate PreloadFits(memoryPtr: array?<byte>, id: nat)
      reads this
    {
      useMmap && executionMode == Inference && fd > 0 && id in weightOffset ==>
        memoryPtr != null && memoryPtr.Length >= weightOffset[id].size
    }

    /** `mmap` refuses a negative file offset and an empty window. */
    predicate MapFails(offset: int, size: nat)
      reads this
      requires pageSize > 0
    {
      offset < 0 || MapWindow(offset, size, pageSize).len == 0
    }

    /** `lseek` to `offset` and a full `read` of `size` bytes both succeed. */
    predicate ReadSucceeds(offset: int, size: nat)
      reads this
    {
      offset >= 0 && (size == 0 || offset + size <= |file|)
    }

    /**
     * `getBuffer(offset, size, memory_ptr, id, alloc_only)`: hand out a
     * buffer for the file bytes `[offset, offset + size)`, or, in the mapped
     * INFERENCE path, copy weight `id` into `memoryPtr`.
     */
    method GetBuffer(offset: int, size: nat, memoryPtr: array?<byte>, id: nat, allocOnly: bool)
      returns (r: Result<array<byte>>)
      requires Valid()
      requires PreloadFits(memoryPtr, id)
      modifies this, memoryPtr
      ensures Valid()
      ensures fd == old(fd) && executionMode == old(executionMode)
      ensures fileExists == old(fileExists) && file == old(file)
      ensures old(fd) <= 0 ==>
        r == Throw(RuntimeError(NotStarted)) && unchanged(this) && (memoryPtr != null ==> unchanged(memoryPtr))
      // mapped path, INFERENCE: one-shot preload into memoryPtr, nothing recorded
      ensures old(fd) > 0 && useMmap && executionMode == Inference ==>
        && allocations == old(allocations) && mappings == old(mappings) && pos == old(pos)
        && (id !in weightOffset ==> r == Throw(OutOfRange(MissingWeight)) && (memoryPtr != null ==> unchanged(memoryPtr)))
        && (id in weightOffset && MapFails(weightOffset[id].offset, weightOffset[id].size) ==>
              r == Throw(RuntimeError(MapFile)) && unchanged(memoryPtr))
        && (id in weightOffset && !MapFails(weightOffset[id].offset, weightOffset[id].size) ==>
              var w := weightOffset[id];
              && r.Ok? && r.value == memoryPtr
              && memoryPtr[..w.size] == Window(file, w.offset, w.size)
              && memoryPtr[w.size..] == old(memoryPtr[w.size..]))
      // mapped path, other modes: a live private mapping, recorded in `mapped`
      ensures old(fd) > 0 && useMmap && executionMode != Inference ==>
        && allocations == old(allocations) && pos == old(pos) && (memoryPtr != null ==> unchanged(memoryPtr))
        && (MapFails(offset, size) ==> r == Throw(RuntimeError(MapFile)) && mappings == old(mappings))
        && (!MapFails(offset, size) ==>
              var w := MapWindow(offset, size, pageSize);
              && r.Ok? && fresh(r.value) && r.value[..] == Window(file, offset, size)
              && mappings == old(mappings)[r.value := Mapping(w.off, w.len, offset, size)])
      // buffered-copy path: a zeroed heap buffer, filled by a read unless allocOnly
      ensures old(fd) > 0 && !useMmap ==>
        && mappings == old(mappings) && (memoryPtr != null ==> unchanged(memoryPtr))
        && (r.Ok? <==> allocOnly || ReadSucceeds(offset, size))
        && (r.Ok? ==>
              && fresh(r.value) && r.value.Length == size
              && allocations == old(allocations)[r.value := Region(offset, size)])
        && (r.Ok? && allocOnly ==> r.value[..] == Zeros(size) && pos == old(pos))
        && (r.Ok? && !allocOnly ==> r.value[..] == ReadAt(file, offset, size) && pos == offset + size)
        && (r.Throw? ==> allocations == old(allocations))
        && (r.Throw? && offset < 0 ==> r == Throw(RuntimeError(SeekFile)) && pos == old(pos))
        && (r.Throw? && offset >= 0 ==>
              r == Throw(RuntimeError(ReadFile)) && pos == offset + |ReadAt(file, offset, size)|)
    {
      if fd <= 0 {
        return Throw(RuntimeError(NotStarted));
      }
      if useMmap {
        if executionMode == Inference {
          // FSU weight load
          if id !in weightOffset {
            return Throw(OutOfRange(MissingWeight));
          }
          var w := weightOffset[id];
          if MapFails(w.offset, w.size) {
            return Throw(RuntimeError(MapFile));
          }
          var window := Window(file, w.offset, w.size);
          // memcpy(memory_ptr, ptr + diff, len_offset.second)
          var dest: array<byte> := memoryPtr;
          for i := 0 to w.size
            modifies dest
            invariant dest[..i] == window[..i]
            invariant dest[w.size..] == old(dest[w.size..])
          {
            dest[i] := window[i];
          }
          assert dest[..w.size] == window;
          return Ok(dest);
        } else {
          if MapFails(offset, size) {
            return Throw(RuntimeError(MapFile));
          }
          var w := MapWindow(offset, size, pageSize);
          var window := Window(file, offset, size);
          var buf := new byte[size](i requires 0 <= i < size => window[i]);
          assert buf[..] == window;
          mappings := mappings[buf := Mapping(w.off, w.len, offset, size)];
          return Ok(buf);
        }
      } else {
        var buf := new byte[size](_ => 0);
        assert buf[..] == Zeros(size);
        if !allocOnly {
          if offset < 0 {
            return Throw(RuntimeError(SeekFile));
          }
          pos := offset;
          var got := ReadAt(file, offset, size);
          pos := pos + |got|;
          if |got| != size {
            return Throw(RuntimeError(ReadFile));
          }
          buf := new byte[size](i requires 0 <= i < size => got[i]);
          assert buf[..] == got;
        }
        allocations := allocations[buf := Region(offset, size)];
        return Ok(buf);
      }
    }

    /**
     * `putBuffer(ptr, dealloc_only)`: unless `deallocOnly`, write the buffer
     * back to the file range it was handed out for; then forget it.
     */
    method PutBuffer(ptr: array<byte>, deallocOnly: bool) returns (r: Outcome)
      requires Valid()
      modifies this
      ensures Valid()
      ensures fd == old(fd) && executionMode == old(executionMode) && fileExists == old(fileExists)
      ensures old(fd) <= 0 ==> r == Fail(RuntimeError(NotStarted)) && unchanged(this)
      // mapped path: an empty table returns silently, an unknown pointer is a runtime error
      ensures old(fd) > 0 && useMmap ==>
        && allocations == old(allocations)
        && (old(mappings) == map[] ==> r == Pass && unchanged(this))
        && (old(mappings) != map[] && ptr !in old(mappings) ==>
              r == Fail(RuntimeError(BufferNotFound)) && unchanged(this))
        && (ptr in old(mappings) ==>
              var m := old(mappings)[ptr];
              && r == Pass && mappings == old(mappings) - {ptr}
              && (deallocOnly ==> file == old(file) && pos == old(pos))
              && (!deallocOnly ==> file == WriteAt(old(file), m.offset, ptr[..]) && pos == m.offset + m.size))
      // buffered-copy path: an unknown pointer is an invalid argument
      ensures old(fd) > 0 && !useMmap ==>
        && mappings == old(mappings)
        && (ptr !in old(allocations) ==> r == Fail(InvalidArgument(BufferNotFound)) && unchanged(this))
        && (ptr in old(allocations) && deallocOnly ==>
              && r == Pass && allocations == old(allocations) - {ptr}
              && file == old(file) && pos == old(pos))
        && (ptr in old(allocations) && !deallocOnly && old(allocations)[ptr].offset < 0 ==>
              r == Fail(RuntimeError(SeekFile)) && unchanged(this))
        && (ptr in old(allocations) && !deallocOnly && old(allocations)[ptr].offset >= 0 ==>
              var g := old(allocations)[ptr];
              && r == Pass && allocations == old(allocations) - {ptr}
              && file == WriteAt(old(file), g.offset, ptr[..]) && pos == g.offset + g.size)
    {
      if fd <= 0 {
        return Fail(RuntimeError(NotStarted));
      }
      if useMmap {
        if mappings == map[] {
          return Pass;
        }
        if ptr !in mappings {
          return Fail(RuntimeError(BufferNotFound));
        }
        var m := mappings[ptr];
        if !deallocOnly {
          // the mapping succeeded, so its offset is not negative and lseek cannot fail
          pos := m.offset;
          file := WriteAt(file, m.offset, ptr[..]);
          pos := pos + m.size;
        }
        // munmap, then erase the record
        mappings := mappings - {ptr};
        return Pass;
      } else {
        if ptr !in allocations {
          return Fail(InvalidArgument(BufferNotFound));
        }
        var g := allocations[ptr];
        if !deallocOnly {
          if g.offset < 0 {
            return Fail(RuntimeError(SeekFile));
          }
          pos := g.offset;
          file := WriteAt(file, g.offset, ptr[..]);
          pos := pos + g.size;
        }
        // free, then erase the record
        allocations := allocations - {ptr};
        return Pass;
      }
    }

    /**
     * `finish()`: drop every outstanding buffer without writing it back,
     * close the descriptor and, in TRAIN mode, delete the backing file.
     */
    method Finish()
      requires Valid()
      modifies this
      ensures Valid()
      ensures old(fd) < 0 ==> unchanged(this)
      ensures old(fd) >= 0 ==>
        && fd == -1 && allocations == map[] && mappings == map[]
        && executionMode == old(executionMode) && pos == old(pos)
      ensures old(fd) >= 0 && executionMode == Train ==> !fileExists && file == []
      ensures old(fd) >= 0 && executionMode != Train ==> fileExists == old(fileExists) && file == old(file)
    {
      if fd < 0 {
        return;
      }
      // every entry is released (free or nothing) and the table cleared; no write-back
      mappings := map[];
      allocations := map[];
      fd := -1;
      if executionMode == Train {
        // std::remove of the scratch file, which exists while the device is open
        fileExists, file := false, [];
      }
    }
  }

  /**
   * The write-back round trip a caller relies on: a buffer obtained with
   * `allocOnly`, filled with `data` and released with write-back, is what
   * the next `getBuffer` of the same range returns.
   */
  method WriteBackRoundTrip(d: Device, offset: nat, data: seq<byte>) returns (r: Result<array<byte>>)
    requires d.Valid() && d.fd > 0
    requires !(d.useMmap && d.executionMode == Inference)
    requires |data| > 0
    modifies d
    ensures d.Valid() && d.fd == old(d.fd)
    ensures r.Ok? && r.value[..] == data
  {
    var first := d.GetBuffer(offset, |data|, null, 0, true);
    var buf := first.value;
    forall i | 0 <= i < |data| {
      buf[i] := data[i];
    }
    assert buf[..] == data;
    var put := d.PutBuffer(buf, false);
    ReadAfterWrite(old(d.file), offset, data);
    r := d.GetBuffer(offset, |data|, null, 0, false);
  }

  /**
   * Skipping the write-back: a buffer released with `deallocOnly` leaves
   * the file as it was, so the next `getBuffer` sees the old bytes and
   * not what was written into the buffer.
   */
  method DeallocOnlyDiscards(d: Device, offset: nat, data: seq<byte>) returns (r: Result<array<byte>>)
    requires d.Valid() && d.fd > 0
    requires !(d.useMmap && d.executionMode == Inference)
    requires |data| > 0 && offset + |data| <= |d.file|
    modifies d
    ensures d.Valid() && d.file == old(d.file)
    ensures r.Ok? && r.value[..] == old(d.file)[offset..offset + |data|]
  {
    var first := d.GetBuffer(offset, |data|, null, 0, false);
    var buf := first.value;
    forall i | 0 <= i < |data| {
      buf[i] := data[i];
    }
    var put := d.PutBuffer(buf, true);
    WindowInsideFile(d.file, offset, |data|);
    r := d.GetBuffer(offset, |data|, null, 0, false);
  }
}
