/** The buffers themselves: `tb_combine` and `handle_list_file`. */
module Reframe {
  import opened Common
  import opened Framing

  /** `struct trace_buf`; `buf` is as long as what was allocated for it. */
  class TraceBuf {
    var buf: array<Byte>
    var len: nat

    ghost predicate Valid(bufSize: nat)
      reads this
    {
      bufSize <= buf.Length && len <= buf.Length
    }

    ghost function Contents(): seq<Byte>
      reads this, buf
      requires len <= buf.Length
    {
      buf[..len]
    }
  }

  /** `tb_combine`: the buffer is made larger only if the data do not fit into the usual size. */
  method TbCombine(prev: TraceBuf, tbp: TraceBuf, bufSize: nat)
    requires prev.Valid(bufSize) && tbp.Valid(bufSize) && prev != tbp && prev.buf != tbp.buf
    modifies prev, prev.buf
    ensures prev.Valid(bufSize) && (prev.buf == old(prev.buf) || fresh(prev.buf))
    ensures prev.Contents() == old(prev.Contents() + tbp.Contents())
  {
    var totLen := prev.len + tbp.len;
    if totLen > bufSize {
      prev.buf := Realloc(prev.buf, prev.len, totLen);
    }
    forall i | 0 <= i < tbp.len {
      prev.buf[prev.len + i] := tbp.buf[i];
    }
    prev.len := totLen;
  }

  /** `realloc`, of which the first `len` bytes matter. */
  method Realloc(a: array<Byte>, len: nat, size: nat) returns (b: array<Byte>)
    requires len <= a.Length && len <= size
    ensures fresh(b) && b.Length == size && b[..len] == a[..len]
  {
    b := new Byte[size](i => 0);
    forall i | 0 <= i < len {
      b[i] := a[i];
    }
  }

  /** The length of the record whose header is at `off`. */
  method LenAt(tbp: TraceBuf, off: nat, bigEndian: bool) returns (tLen: nat)
    requires tbp.len <= tbp.buf.Length && off + TRACE_SIZE <= tbp.len
    ensures tLen == RecordLen(tbp.Contents()[off..], bigEndian)
  {
    tLen := RecordLen(tbp.buf[off..off + TRACE_SIZE], bigEndian);
    SameLen(tbp.buf[off..off + TRACE_SIZE], tbp.Contents()[off..], bigEndian);
  }

  /** The loop that finds the whole records. */
  method CountWhole(tbp: TraceBuf, bigEndian: bool) returns (off: nat, nevents: nat)
    requires tbp.len <= tbp.buf.Length
    ensures off == WholeLen(tbp.Contents(), bigEndian) && nevents == Count(tbp.Contents(), bigEndian)
  {
    ghost var data := tbp.Contents();
    ghost var w, c := WholeLen(data, bigEndian), Count(data, bigEndian);
    ghost var rest := data;
    off, nevents := 0, 0;
    while off + TRACE_SIZE <= tbp.len
      invariant off <= |data| && rest == data[off..]
      invariant w == off + WholeLen(rest, bigEndian) && c == nevents + Count(rest, bigEndian)
    {
      var tLen := LenAt(tbp, off, bigEndian);
      if off + tLen > tbp.len {
        break;
      }
      WholeStep(rest, bigEndian);
      rest := rest[tLen..];
      off := off + tLen;
      nevents := nevents + 1;
    }
    NoMore(rest, bigEndian);
  }

  /** `struct tracer_devpath_head`, with what this head has put out and counted. */
  class Head {
    const bufSize: nat
    const bigEndian: bool
    var prev: TraceBuf?
    var written: seq<Byte>
    var nevents: nat

    constructor (bufSize: nat, bigEndian: bool)
      ensures Valid() && Abs() == NOTHING && this.bufSize == bufSize && this.bigEndian == bigEndian
    {
      this.bufSize, this.bigEndian := bufSize, bigEndian;
      prev, written, nevents := null, [], 0;
    }

    ghost predicate Valid()
      reads this, prev
    {
      prev != null ==> prev.Valid(bufSize)
    }

    ghost function Abs(): Stream
      reads this, prev, if prev == null then {} else {prev.buf}
      requires Valid()
    {
      Stream(written, if prev == null then [] else prev.Contents(), nevents)
    }

    /** The new buffer, or what was left over with the new buffer at its end. */
    method Join(buf: TraceBuf)
      requires Valid() && buf.Valid(bufSize) && buf != prev && (prev != null ==> prev.buf != buf.buf)
      modifies `prev, prev, if prev == null then {} else {prev.buf}
      ensures Valid() && prev != null && Abs() == old(Abs().(kept := Abs().kept + buf.Contents()))
      ensures if old(prev) == null then prev == buf && prev.buf == old(buf.buf)
              else prev == old(prev) && (fresh(prev.buf) || prev.buf == old(prev.buf))
    {
      if prev == null {
        prev := buf;
      } else {
        TbCombine(prev, buf, bufSize);
      }
    }

    method WriteOut(off: nat, n: nat, writes: bool)
      requires Valid() && prev != null && off <= prev.len
      modifies this, prev`len, prev.buf
      ensures Valid() && Abs() == old(Written(Abs(), off, n, writes))
      ensures prev == null || (prev == old(prev) && prev.buf == old(prev.buf))
    {
      nevents := nevents + n;
      if off != 0 {
        if writes {
          written := written + prev.buf[..off];
        }
        if !writes || off == prev.len {
          prev := null;
        } else {
          DropFront(prev, off, bufSize);
        }
      }
    }

    /** Writes the whole records; `writes` tells whether `write_data` succeeds, should it be called. */
    method Emit(writes: bool)
      requires Valid() && prev != null
      modifies this, prev`len, prev.buf
      ensures Valid() && Abs() == old(Settle(Abs(), writes, bigEndian))
      ensures prev == null || (prev == old(prev) && prev.buf == old(prev.buf))
    {
      var off, n := CountWhole(prev, bigEndian);
      WriteOut(off, n, writes);
    }

    /** The loop of `handle_list_file` for one buffer. */
    method HandleOne(buf: TraceBuf, writes: bool)
      requires Valid() && buf.Valid(bufSize) && buf != prev && (prev != null ==> prev.buf != buf.buf)
      modifies this, prev, if prev == null then {} else {prev.buf}, buf, buf.buf
      ensures Valid() && Abs() == old(Take(Abs(), buf.Contents(), writes, bigEndian))
      ensures prev != null && old(prev) == null ==> prev == buf && prev.buf == old(buf.buf)
      ensures prev != null && old(prev) != null ==> prev == old(prev) && (fresh(prev.buf) || prev.buf == old(prev.buf))
    {
      Join(buf);
      Emit(writes);
    }

    /** The buffers from `i` on hold the given chunks, and share no memory with each other or `prev`. */
    ghost predicate Listed(list: seq<TraceBuf>, chunks: seq<seq<Byte>>, i: nat)
      reads this, prev, list, set b | b in list :: b.buf
    {
      && |chunks| == |list|
      && (forall k :: i <= k < |list| ==>
           list[k].Valid(bufSize) && list[k].Contents() == chunks[k]
           && list[k] != prev && (prev != null ==> prev.buf != list[k].buf))
      && forall k, l :: i <= k < l < |list| ==> list[k] != list[l] && list[k].buf != list[l].buf
    }

    method HandleNth(list: seq<TraceBuf>, i: nat, writes: bool, ghost chunks: seq<seq<Byte>>)
      requires Valid() && i < |list| && Listed(list, chunks, i)
      modifies this, prev, if prev == null then {} else {prev.buf}, list[i], list[i].buf
      ensures Valid() && Listed(list, chunks, i + 1)
      ensures Abs() == Take(old(Abs()), chunks[i], writes, bigEndian)
      ensures prev != null && old(prev) == null ==> prev == list[i] && prev.buf == old(list[i].buf)
      ensures prev != null && old(prev) != null ==> prev == old(prev) && (fresh(prev.buf) || prev.buf == old(prev.buf))
      ensures forall k :: i < k < |list| ==> list[k].buf == old(list[k].buf)
    {
      HandleOne(list[i], writes);
    }

    /** The memory of the buffers from `i` on, and of `prev`; some of that may be new. */
    ghost predicate Within(list: seq<TraceBuf>, i: nat, mem: set<object>)
      reads this, prev, list
    {
      && (forall k :: i <= k < |list| ==> list[k] in mem && list[k].buf in mem)
      && (prev != null ==> prev in mem && prev.buf in mem)
    }

    method HandleNext(list: seq<TraceBuf>, i: nat, writes: nat -> bool,
                      ghost chunks: seq<seq<Byte>>, ghost first: Stream,
                      ghost mem: set<object>)
      returns (ghost more: set<object>)
      requires Valid() && i < |list| && Listed(list, chunks, i) && Within(list, i, mem)
      requires Abs() == TakeAll(first, chunks[..i], writes, bigEndian)
      modifies this, mem
      ensures Valid() && Listed(list, chunks, i + 1) && Within(list, i + 1, more)
      ensures mem <= more && fresh(more - mem)
      ensures Abs() == TakeAll(first, chunks[..i + 1], writes, bigEndian)
    {
      TakeNext(first, chunks, i, Abs(), writes, bigEndian);
      HandleNth(list, i, writes(i), chunks);
      more := if prev == null then mem else mem + {prev.buf};
    }

    /** `handle_list_file`; `mem` is the memory of all the buffers. */
    method HandleListFile(list: seq<TraceBuf>, writes: nat -> bool, ghost chunks: seq<seq<Byte>>,
                          ghost mem: set<object>)
      returns (entriesHandled: nat)
      requires Valid() && Listed(list, chunks, 0) && Within(list, 0, mem)
      modifies this, mem
      ensures Valid() && entriesHandled == |list|
      ensures Abs() == TakeAll(old(Abs()), chunks, writes, bigEndian)
      ensures old(Abs()) == NOTHING && Smooth(chunks, writes, bigEndian) ==>
        forall records, tail :: Carry(chunks, records, tail, bigEndian) ==>
          Abs() == Stream(Flatten(BytesOf(records, bigEndian)), tail, |records|)
    {
      forall records, tail | Smooth(chunks, writes, bigEndian) && Carry(chunks, records, tail, bigEndian)
        ensures TakeAll(NOTHING, chunks, writes, bigEndian)
             == Stream(Flatten(BytesOf(records, bigEndian)), tail, |records|)
      {
        TracesComeOut(chunks, writes, records, tail, bigEndian);
      }
      ghost var first, all := Abs(), mem;
      entriesHandled := 0;
      while entriesHandled < |list|
        invariant entriesHandled <= |list| && Valid() && Listed(list, chunks, entriesHandled)
        invariant Within(list, entriesHandled, all) && mem <= all && fresh(all - mem)
        invariant Abs() == TakeAll(first, chunks[..entriesHandled], writes, bigEndian)
      {
        all := HandleNext(list, entriesHandled, writes, chunks, first, all);
        entriesHandled := entriesHandled + 1;
      }
      assert chunks[..|list|] == chunks;
    }
  }

  /** The data behind `off` are moved to the beginning of the buffer. */
  method DropFront(tbp: TraceBuf, off: nat, bufSize: nat)
    requires tbp.Valid(bufSize) && off <= tbp.len
    modifies tbp`len, tbp.buf
    ensures tbp.Valid(bufSize) && tbp.Contents() == old(tbp.Contents()[off..])
  {
    var len := tbp.len - off;
    forall i | 0 <= i < len {
      tbp.buf[i] := tbp.buf[off + i];
    }
    tbp.len := len;
  }
}
