/**
  blktrace writes a trace file through a window that is mapped onto its end and moved when
  the next read might not fit.
 */
module Mmap {
  import opened Common

  /** The sizes that stay the same: the window begins with `n` bytes less what is in the first page. */
  datatype Sizes = Sizes(bufSize: nat, bufNr: nat, pagesize: nat) {
    /** Sixteen buffers at least. */
    function N(): nat {
      Times(Max(16, bufNr), bufSize)
    }

    predicate Valid() {
      pagesize >= 1
    }
  }

  /** `struct mmap_info`, with `at` for the place of the window in the file. */
  datatype Mip = Mip(fsSize: nat, fsMaxSize: nat, fsOff: nat, fsBufLen: nat, at: nat)

  const EMPTY := Mip(0, 0, 0, 0, 0)

  predicate Fits(m: Mip, maxlen: nat) {
    m.fsOff + maxlen <= m.fsBufLen
  }

  /** `pagesize` is a power of two, so the mask leaves the remainder.  Nothing can be mapped with no length. */
  predicate CanMap(m: Mip, z: Sizes)
    requires z.Valid()
  {
    m.fsSize % z.pagesize < z.N()
  }

  function Remapped(m: Mip, z: Sizes): Mip
    requires z.Valid() && CanMap(m, z)
  {
    var off := m.fsSize % z.pagesize;
    var len := z.N() - off;
    Aligned(m.fsSize, z.pagesize);
    Mip(m.fsSize, m.fsMaxSize + len, off, len, m.fsSize - off)
  }

  /** `setup_mmap` */
  function Setup(m: Mip, maxlen: nat, z: Sizes): Mip
    requires z.Valid() && (Fits(m, maxlen) || CanMap(m, z))
  {
    if Fits(m, maxlen) then m else Remapped(m, z)
  }

  function Advanced(m: Mip, k: nat): Mip {
    m.(fsSize := m.fsSize + k, fsOff := m.fsOff + k)
  }

  // ---------- the window ----------

  /** The window lies in the file from a page boundary on, and the data end in it. */
  predicate Inv(m: Mip, z: Sizes)
    requires z.Valid()
  {
    && m.at % z.pagesize == 0 && m.at + m.fsOff == m.fsSize
    && m.fsOff <= m.fsBufLen && m.at + m.fsBufLen <= m.fsMaxSize
  }

  lemma TimesAtLeast(d: int, p: int)
    requires p >= 0
    ensures d >= 1 ==> d * p >= p
    ensures d <= -1 ==> d * p <= -p
  {
    if d >= 1 {
      assert (d - 1) * p >= 0;
    } else if d <= -1 {
      assert (-d - 1) * p >= 0;
    }
  }

  lemma Aligned(x: nat, p: nat)
    requires p >= 1
    ensures x % p <= x && (x - x % p) % p == 0
  {
    var q := x / p;
    assert x == q * p + x % p;
    assert q * p >= 0;
    ModUnique(q * p, p, q, 0);
  }

  lemma ModUnique(x: nat, p: nat, q: int, r: nat)
    requires p >= 1 && x == q * p + r && r < p
    ensures x % p == r
  {
    var d := x / p - q;
    assert x == (x / p) * p + x % p;
    assert d * p == (x / p) * p - q * p;
    TimesAtLeast(d, p);
  }

  lemma SetupKeepsInv(m: Mip, maxlen: nat, z: Sizes)
    requires z.Valid() && Inv(m, z) && (Fits(m, maxlen) || CanMap(m, z)) && Fits(Setup(m, maxlen, z), maxlen)
    ensures Inv(Setup(m, maxlen, z), z) && Setup(m, maxlen, z).fsSize == m.fsSize
  {
    Aligned(m.fsSize, z.pagesize);
  }

  /**
    When a new window has to be mapped, the next read fits into it exactly if the data in its
    first page leave room for it.
   */
  lemma FitsIff(m: Mip, maxlen: nat, z: Sizes)
    requires z.Valid() && !Fits(m, maxlen) && CanMap(m, z)
    ensures Fits(Setup(m, maxlen, z), maxlen) <==> 2 * (m.fsSize % z.pagesize) + maxlen <= z.N()
  {
  }

  // ---------- whole runs ----------

  /** One read: what `setup_mmap` was told might come, and what came. */
  datatype Get = Get(asked: nat, got: nat)

  /** The state of the window, or that a mapping failed or was too short for what might come. */
  datatype Reached = At(mip: Mip) | Overrun

  function AfterSetup(r: Reached, asked: nat, z: Sizes): Reached
    requires z.Valid()
  {
    match r
    case Overrun => Overrun
    case At(m) =>
      if !Fits(m, asked) && !CanMap(m, z) then Overrun
      else if Fits(Setup(m, asked, z), asked) then At(Setup(m, asked, z)) else Overrun
  }

  /** A `setup_mmap` before each read. */
  function AfterReads(gs: seq<Get>, z: Sizes): Reached
    requires z.Valid()
  {
    if gs == [] then At(EMPTY)
    else
      var g := gs[|gs| - 1];
      match AfterSetup(AfterReads(gs[..|gs| - 1], z), g.asked, z)
      case Overrun => Overrun
      case At(m) => At(Advanced(m, g.got))
  }

  predicate Short(gs: seq<Get>, maxlen: nat) {
    forall i :: 0 <= i < |gs| ==> gs[i].got <= gs[i].asked <= maxlen
  }

  function Sum(gs: seq<Get>): nat {
    if gs == [] then 0 else Sum(gs[..|gs| - 1]) + gs[|gs| - 1].got
  }

  /** The window is larger than a read by two pages that are not full. */
  predicate Roomy(maxlen: nat, z: Sizes)
    requires z.Valid()
  {
    2 * (z.pagesize - 1) + maxlen <= z.N()
  }

  lemma RoomySetup(m: Mip, asked: nat, maxlen: nat, z: Sizes)
    requires z.Valid() && Roomy(maxlen, z) && asked <= maxlen && Inv(m, z)
    ensures (Fits(m, asked) || CanMap(m, z)) && Fits(Setup(m, asked, z), asked)
    ensures Inv(Setup(m, asked, z), z) && Setup(m, asked, z).fsSize == m.fsSize
  {
    assert m.fsSize % z.pagesize <= z.pagesize - 1;
    if asked > 0 || Fits(m, asked) {
      SetupKeepsInv(m, asked, z);
    }
  }

  /**
    In a roomy window every read of every run has its place, whatever is asked for each
    time, and the window stays where it should be.
   */
  lemma {:induction false} RoomyNeverOverruns(gs: seq<Get>, maxlen: nat, z: Sizes)
    requires z.Valid() && Roomy(maxlen, z) && Short(gs, maxlen)
    ensures var r := AfterReads(gs, z); r.At? && Inv(r.mip, z) && r.mip.fsSize == Sum(gs)
    ensures forall asked: nat :: asked <= maxlen ==> AfterSetup(AfterReads(gs, z), asked, z).At?
  {
    if gs != [] {
      var front, g := gs[..|gs| - 1], gs[|gs| - 1];
      RoomyNeverOverruns(front, maxlen, z);
      RoomySetup(AfterReads(front, z).mip, g.asked, maxlen, z);
    }
    forall asked: nat | asked <= maxlen ensures AfterSetup(AfterReads(gs, z), asked, z).At? {
      RoomySetup(AfterReads(gs, z).mip, asked, maxlen, z);
    }
  }

  // ---------- what the callers ask for ----------

  /**
    A tracer always asks for a whole buffer and reads what there is; the server asks for
    each block by its length, which is two at least, and reads all of it.
   */
  datatype Caller = Tracer | Server

  predicate Legal(c: Caller, g: Get, maxlen: nat) {
    match c
    case Tracer => g.asked == maxlen && g.got <= maxlen
    case Server => 2 <= g.asked == g.got <= maxlen
  }

  predicate AllLegal(c: Caller, gs: seq<Get>, maxlen: nat) {
    forall i :: 0 <= i < |gs| ==> Legal(c, gs[i], maxlen)
  }

  ghost predicate NeverOverruns(c: Caller, maxlen: nat, z: Sizes)
    requires z.Valid()
  {
    forall gs :: AllLegal(c, gs, maxlen) ==> AfterReads(gs, z).At?
  }

  /** Where it matters: a longest read has more than one way to be cut. */
  predicate Cuttable(c: Caller, maxlen: nat) {
    match c
    case Tracer => maxlen >= 2
    case Server => maxlen >= 3
  }

  /** After `gs` the window behaves as `m`: it is `m`, or will be once something is asked for. */
  ghost predicate Acts(gs: seq<Get>, m: Mip, maxlen: nat, z: Sizes)
    requires z.Valid()
  {
    forall asked: nat :: 1 <= asked <= maxlen ==> AfterSetup(AfterReads(gs, z), asked, z) == AfterSetup(At(m), asked, z)
  }

  lemma OneMoreRead(gs: seq<Get>, g: Get, m: Mip, z: Sizes)
    requires z.Valid() && AfterSetup(AfterReads(gs, z), g.asked, z) == At(m)
    ensures AfterReads(gs + [g], z) == At(Advanced(m, g.got))
  {
    assert (gs + [g])[..|gs|] == gs;
  }

  lemma ReadHere(c: Caller, gs: seq<Get>, g: Get, m: Mip, maxlen: nat, z: Sizes)
    requires z.Valid() && AllLegal(c, gs, maxlen) && Legal(c, g, maxlen)
    requires Acts(gs, m, maxlen, z) && Fits(m, g.asked) && g.asked >= 1
    ensures AllLegal(c, gs + [g], maxlen) && AfterReads(gs + [g], z) == At(Advanced(m, g.got))
    ensures Acts(gs + [g], Advanced(m, g.got), maxlen, z)
  {
    OneMoreRead(gs, g, m, z);
  }

  /** Reads can fill a mapped window up to any place, but the server's not by one byte. */
  lemma {:induction false} Fill(c: Caller, gs: seq<Get>, m: Mip, v: nat, maxlen: nat, z: Sizes) returns (hs: seq<Get>)
    requires z.Valid() && Cuttable(c, maxlen) && AllLegal(c, gs, maxlen) && Acts(gs, m, maxlen, z)
    requires Fits(m, maxlen) && m.fsOff <= v <= m.fsBufLen && (c.Server? ==> v != m.fsOff + 1)
    ensures AllLegal(c, hs, maxlen) && Acts(hs, Advanced(m, v - m.fsOff), maxlen, z)
    decreases v - m.fsOff
  {
    var d := v - m.fsOff;
    if d == 0 {
      hs := gs;
    } else if c.Tracer? && d > maxlen {
      var g := Get(maxlen, 1);
      ReadHere(c, gs, g, m, maxlen, z);
      hs := Fill(c, gs + [g], Advanced(m, 1), v, maxlen, z);
    } else if c.Tracer? {
      hs := gs + [Get(maxlen, d)];
      ReadHere(c, gs, Get(maxlen, d), m, maxlen, z);
    } else {
      hs := FillByBlocks(gs, m, v, maxlen, z);
    }
  }

  lemma {:induction false} FillByBlocks(gs: seq<Get>, m: Mip, v: nat, maxlen: nat, z: Sizes) returns (hs: seq<Get>)
    requires z.Valid() && maxlen >= 3 && AllLegal(Server, gs, maxlen) && Acts(gs, m, maxlen, z)
    requires m.fsOff + 2 <= v <= m.fsBufLen
    ensures AllLegal(Server, hs, maxlen) && Acts(hs, Advanced(m, v - m.fsOff), maxlen, z)
    decreases v - m.fsOff
  {
    var d := v - m.fsOff;
    var g := Get(if d <= 3 then d else 2, if d <= 3 then d else 2);
    ReadHere(Server, gs, g, m, maxlen, z);
    hs := gs + [g];
    if d > 3 {
      hs := FillByBlocks(hs, Advanced(m, 2), v, maxlen, z);
    }
  }

  /** A full window acts as the one that is mapped next, if that holds what might come. */
  lemma NextWindow(gs: seq<Get>, m: Mip, maxlen: nat, z: Sizes)
    requires z.Valid() && Acts(gs, m, maxlen, z) && m.fsOff == m.fsBufLen && CanMap(m, z)
    requires Fits(Remapped(m, z), maxlen)
    ensures Acts(gs, Remapped(m, z), maxlen, z)
  {
  }

  lemma LastByteOfPage(n: nat, p: nat)
    requires 1 <= p && n % p < n
    ensures 2 * (n - n % p) >= 1 && (2 * (n - n % p) - 1) % p == p - 1
  {
    var q := n / p;
    assert n - n % p == q * p;
    assert 2 * (n - n % p) - 1 == (2 * q - 1) * p + (p - 1);
    ModUnique(2 * (n - n % p) - 1, p, 2 * q - 1, p - 1);
  }

  lemma AskForMost(c: Caller, gs: seq<Get>, m: Mip, maxlen: nat, z: Sizes) returns (hs: seq<Get>)
    requires z.Valid() && Cuttable(c, maxlen) && AllLegal(c, gs, maxlen) && Acts(gs, m, maxlen, z)
    requires AfterSetup(At(m), maxlen, z) == Overrun
    ensures AllLegal(c, hs, maxlen) && AfterReads(hs, z) == Overrun
  {
    hs := gs + [Get(maxlen, maxlen)];
    assert hs[..|gs|] == gs;
  }

  /** The first window, filled to its end. */
  lemma FirstFull(c: Caller, maxlen: nat, z: Sizes) returns (gs: seq<Get>)
    requires z.Valid() && Cuttable(c, maxlen) && maxlen <= z.N()
    ensures AllLegal(c, gs, maxlen) && Acts(gs, Mip(z.N(), z.N(), z.N(), z.N(), 0), maxlen, z)
  {
    NextWindow([], EMPTY, maxlen, z);
    gs := Fill(c, [], Remapped(EMPTY, z), z.N(), maxlen, z);
  }

  /** The second, filled to one byte before its end, which is the end of a page. */
  lemma SecondAlmostFull(c: Caller, gs: seq<Get>, maxlen: nat, z: Sizes) returns (hs: seq<Get>, m: Mip)
    requires z.Valid() && Cuttable(c, maxlen) && AllLegal(c, gs, maxlen)
    requires Acts(gs, Mip(z.N(), z.N(), z.N(), z.N(), 0), maxlen, z)
    requires 2 * (z.N() % z.pagesize) + maxlen <= z.N()
    ensures AllLegal(c, hs, maxlen) && Acts(hs, m, maxlen, z)
    ensures m.fsOff + 1 == m.fsBufLen && m.fsSize % z.pagesize == z.pagesize - 1
  {
    var n, e := z.N(), z.N() % z.pagesize;
    assert (2 * (n - e) - 1) % z.pagesize == z.pagesize - 1 by {
      LastByteOfPage(n, z.pagesize);
    }
    var full := Mip(n, n, n, n, 0);
    NextWindow(gs, full, maxlen, z);
    hs := Fill(c, gs, Remapped(full, z), n - e - 1, maxlen, z);
    m := Advanced(Remapped(full, z), n - 2 * e - 1);
  }

  /** If the window is not roomy, some run overruns it. */
  lemma CrampedOverruns(c: Caller, maxlen: nat, z: Sizes) returns (gs: seq<Get>)
    requires z.Valid() && Cuttable(c, maxlen) && !Roomy(maxlen, z)
    ensures AllLegal(c, gs, maxlen) && AfterReads(gs, z) == Overrun
  {
    var n := z.N();
    if n < maxlen {
      gs := AskForMost(c, [], EMPTY, maxlen, z);
    } else {
      var m := Mip(n, n, n, n, 0);
      gs := FirstFull(c, maxlen, z);
      if 2 * (n % z.pagesize) + maxlen <= n {
        gs, m := SecondAlmostFull(c, gs, maxlen, z);
      }
      gs := AskForMost(c, gs, m, maxlen, z);
    }
  }

  /** For either caller, roomy is exactly what the window has to be. */
  lemma NeverOverrunsIff(c: Caller, maxlen: nat, z: Sizes)
    requires z.Valid() && Cuttable(c, maxlen)
    ensures NeverOverruns(c, maxlen, z) <==> Roomy(maxlen, z)
  {
    if Roomy(maxlen, z) {
      forall gs | AllLegal(c, gs, maxlen) ensures AfterReads(gs, z).At? {
        RoomyNeverOverruns(gs, maxlen, z);
      }
    } else {
      var gs := CrampedOverruns(c, maxlen, z);
      assert AllLegal(c, gs, maxlen);
    }
  }

  /** A tracer's window is roomy whenever a page is not larger than a buffer. */
  lemma PageInBuffer(z: Sizes)
    requires z.Valid() && z.pagesize <= z.bufSize
    ensures Roomy(z.bufSize, z)
  {
    SixteenBuffers(z);
  }

  lemma SixteenBuffers(z: Sizes)
    ensures z.N() >= 16 * z.bufSize
  {
    assert (Max(16, z.bufNr) - 16) * z.bufSize >= 0;
  }

  /** But not with buffers of four kilobytes, which can be asked for, on pages of sixty-four. */
  lemma SmallBuffersOnLargePages()
    ensures !NeverOverruns(Tracer, 4096, Sizes(4096, 4, 65536))
  {
    NeverOverrunsIff(Tracer, 4096, Sizes(4096, 4, 65536));
  }

  // ---------- how much goes into a window ----------

  function FullReads(n: nat, size: nat): seq<Get> {
    seq(n, _ => Get(size, size))
  }

  /** A window mapped at `m`, on a page boundary, after `j` whole buffers of its `n`. */
  function Filled(m: Mip, j: nat, n: nat, size: nat): Mip {
    Mip(m.fsSize + Times(j, size), m.fsMaxSize + Times(n, size), Times(j, size), Times(n, size), m.fsSize)
  }

  lemma RoomLeft(j: nat, n: nat, size: nat)
    requires size >= 1 && j <= n
    ensures Times(j, size) + size <= Times(n, size) <==> j < n
    ensures Times(j, size) + size == Times(j + 1, size)
  {
    assert Times(n, size) == Times(j, size) + (n - j) * size;
    TimesAtLeast(n - j, size);
  }

  /** The first buffer of a window that is mapped on a page boundary. */
  lemma FirstBuffer(m: Mip, n: nat, z: Sizes)
    requires z.Valid() && z.bufSize >= 1 && n == Max(16, z.bufNr)
    requires !Fits(m, z.bufSize) && m.fsSize % z.pagesize == 0
    ensures AfterSetup(At(m), z.bufSize, z) == At(Filled(m, 0, n, z.bufSize))
  {
    RoomLeft(0, n, z.bufSize);
    assert Times(0, z.bufSize) == 0 && z.N() == Times(n, z.bufSize);
    assert CanMap(m, z);
  }

  lemma OneBufferMore(m: Mip, j: nat, n: nat, size: nat)
    requires size >= 1 && j <= n
    ensures Fits(Filled(m, j, n, size), size) <==> j < n
    ensures Advanced(Filled(m, j, n, size), size) == Filled(m, j + 1, n, size)
  {
    RoomLeft(j, n, size);
  }

  /**
    A window that begins on a page takes sixteen buffers, or as many as there are if these
    are more, and not one more.
   */
  lemma {:induction false} WindowTakes(gs: seq<Get>, m: Mip, j: nat, z: Sizes)
    requires z.Valid() && z.bufSize >= 1 && AfterReads(gs, z) == At(m)
    requires !Fits(m, z.bufSize) && m.fsSize % z.pagesize == 0
    requires 1 <= j <= Max(16, z.bufNr)
    ensures var n := Max(16, z.bufNr);
      && AfterReads(gs + FullReads(j, z.bufSize), z) == At(Filled(m, j, n, z.bufSize))
      && (Fits(Filled(m, j, n, z.bufSize), z.bufSize) <==> j < n)
    decreases j
  {
    var n, size := Max(16, z.bufNr), z.bufSize;
    var g := Get(size, size);
    OneBufferMore(m, j, n, size);
    OneBufferMore(m, j - 1, n, size);
    var front := gs + FullReads(j - 1, size);
    assert gs + FullReads(j, size) == front + [g];
    if j == 1 {
      assert front == gs;
      FirstBuffer(m, n, z);
    } else {
      WindowTakes(gs, m, j - 1, z);
    }
    OneMoreRead(front, g, Filled(m, j - 1, n, size), z);
  }

  // ---------- the file ----------

  function Gets(asked: seq<nat>, chunks: seq<seq<Byte>>): seq<Get>
    requires |asked| == |chunks|
  {
    seq(|chunks|, i requires 0 <= i < |chunks| => Get(asked[i], |chunks[i]|))
  }

  /** `struct mmap_info` with the file behind it. */
  class IoInfo {
    const z: Sizes
    var fsSize: nat
    var fsMaxSize: nat
    var fsOff: nat
    var fsBufLen: nat
    var at: nat
    var file: seq<Byte>

    function Abs(): Mip
      reads this
    {
      Mip(fsSize, fsMaxSize, fsOff, fsBufLen, at)
    }

    ghost predicate Valid()
      reads this
    {
      z.Valid() && Inv(Abs(), z) && |file| == fsMaxSize
    }

    /** What has been read so far. */
    ghost function Data(): seq<Byte>
      reads this
      requires Valid()
    {
      file[..fsSize]
    }

    constructor (z: Sizes)
      requires z.Valid()
      ensures Valid() && Abs() == EMPTY && Data() == [] && this.z == z
    {
      this.z := z;
      fsSize, fsMaxSize, fsOff, fsBufLen, at, file := 0, 0, 0, 0, 0, [];
    }

    /** `setup_mmap`; `ok` is false if nothing can be mapped, or what is mapped is too short for `maxlen`. */
    method SetupMmap(maxlen: nat) returns (ok: bool)
      requires Valid()
      modifies this
      ensures ok <==> AfterSetup(At(old(Abs())), maxlen, z).At?
      ensures ok ==> Valid() && At(Abs()) == AfterSetup(At(old(Abs())), maxlen, z) && Data() == old(Data())
    {
      if fsOff + maxlen > fsBufLen {
        if fsSize % z.pagesize >= z.N() {
          return false;
        }
        fsOff := fsSize % z.pagesize;
        fsBufLen := z.N() - fsOff;
        fsMaxSize := fsMaxSize + fsBufLen;
        file := file + seq(fsBufLen, _ => 0);
        Aligned(fsSize, z.pagesize);
        at := fsSize - fsOff;
      }
      ok := fsOff + maxlen <= fsBufLen;
    }

    /** `read` into the window, as the file sees it. */
    method Read(data: seq<Byte>)
      requires Valid() && Fits(Abs(), |data|)
      modifies this
      ensures Valid() && Abs() == Advanced(old(Abs()), |data|) && Data() == old(Data()) + data
    {
      var place := at + fsOff;
      file := file[..place] + data + file[place + |data|..];
      fsSize := fsSize + |data|;
      fsOff := fsOff + |data|;
    }

    /** `close_iop` cuts off what was never written. */
    method Close()
      requires Valid()
      modifies `file
      ensures file == old(Data())
    {
      file := file[..fsSize];
    }
  }

  /** One read of each chunk: in a roomy window the file is all that was read, and nothing else. */
  method WriteFile(asked: seq<nat>, chunks: seq<seq<Byte>>, ghost maxlen: nat, z: Sizes)
    returns (ok: bool, file: seq<Byte>)
    requires z.Valid() && |asked| == |chunks| && Short(Gets(asked, chunks), maxlen)
    ensures ok <==> AfterReads(Gets(asked, chunks), z).At?
    ensures Roomy(maxlen, z) ==> ok
    ensures ok ==> file == Flatten(chunks)
  {
    if Roomy(maxlen, z) {
      RoomyNeverOverruns(Gets(asked, chunks), maxlen, z);
    }
    var iop := new IoInfo(z);
    for i := 0 to |chunks|
      invariant iop.Valid() && iop.z == z && iop.Data() == Flatten(chunks[..i])
      invariant At(iop.Abs()) == AfterReads(Gets(asked[..i], chunks[..i]), z)
    {
      assert Gets(asked, chunks)[i] == Get(asked[i], |chunks[i]|);
      ok := iop.SetupMmap(asked[i]);
      if !ok {
        StaysOverrun(asked, chunks, i, z);
        return false, [];
      }
      NextChunk(asked, chunks, i, iop.Abs(), z);
      iop.Read(chunks[i]);
    }
    assert chunks[..|chunks|] == chunks && asked[..|chunks|] == asked;
    iop.Close();
    ok, file := true, iop.file;
  }

  lemma {:induction false} OverrunLasts(gs: seq<Get>, n: nat, z: Sizes)
    requires z.Valid() && n <= |gs| && AfterReads(gs[..n], z) == Overrun
    ensures AfterReads(gs, z) == Overrun
    decreases |gs|
  {
    if n == |gs| {
      assert gs[..n] == gs;
    } else {
      assert gs[..|gs| - 1][..n] == gs[..n];
      OverrunLasts(gs[..|gs| - 1], n, z);
    }
  }

  lemma StaysOverrun(asked: seq<nat>, chunks: seq<seq<Byte>>, i: nat, z: Sizes)
    requires z.Valid() && |asked| == |chunks| && i < |chunks|
    requires AfterSetup(AfterReads(Gets(asked[..i], chunks[..i]), z), asked[i], z) == Overrun
    ensures AfterReads(Gets(asked, chunks), z) == Overrun
  {
    var gs := Gets(asked, chunks);
    assert gs[..i + 1][..i] == gs[..i] == Gets(asked[..i], chunks[..i]);
    OverrunLasts(gs, i + 1, z);
  }

  lemma NextChunk(asked: seq<nat>, chunks: seq<seq<Byte>>, i: nat, m: Mip, z: Sizes)
    requires z.Valid() && |asked| == |chunks| && i < |chunks|
    requires AfterSetup(AfterReads(Gets(asked[..i], chunks[..i]), z), asked[i], z) == At(m)
    ensures AfterReads(Gets(asked[..i + 1], chunks[..i + 1]), z) == At(Advanced(m, |chunks[i]|))
    ensures Flatten(chunks[..i + 1]) == Flatten(chunks[..i]) + chunks[i]
  {
    var g := Get(asked[i], |chunks[i]|);
    assert Gets(asked[..i + 1], chunks[..i + 1]) == Gets(asked[..i], chunks[..i]) + [g];
    OneMoreRead(Gets(asked[..i], chunks[..i]), g, m, z);
    FlattenLast(chunks[..i + 1]);
    assert chunks[..i + 1][..i] == chunks[..i];
  }
}
