/** Loading of guest images: the ELF segment loop (load_elf_kernel in
    tools/boot/multiboot2.c) and the page window that the kernel module maps for
    a copy (hvisor_load_image in driver/hvisor_main.c). */
module ImageLoad {
  import opened Runs
  import opened Ranges
  import opened Words

  const PT_LOAD: nat := 1

  datatype Phdr = Phdr(kind: nat, offset: u64, paddr: u64, filesz: u64, memsz: u64)

  function Max(a: nat, b: nat): nat { if a < b then b else a }

  // ------------------------------------------------------------------ specification

  /** No 64-bit overflow in the segment's file range, its memory range, or its range shifted
      to host addresses. */
  predicate Fits(p: Phdr, shift: int) {
    && p.offset + p.filesz < TWO64
    && p.paddr + Max(p.filesz, p.memsz) < TWO64
    && 0 <= p.paddr + shift && p.paddr + shift + Max(p.filesz, p.memsz) <= TWO64
  }

  predicate InFile(p: Phdr, file: seq<Byte>) {
    p.offset + p.filesz <= |file|
  }

  predicate Covers(p: Phdr, shift: int, a: int) {
    p.kind == PT_LOAD && p.paddr + shift <= a < p.paddr + shift + Max(p.filesz, p.memsz)
  }

  /** The byte a segment puts at a covered address: file bytes, then zeros. */
  function SegmentByte(p: Phdr, file: seq<Byte>, shift: int, a: int): Byte
    requires Covers(p, shift, a) && InFile(p, file)
  {
    var at := a - (p.paddr + shift);
    if at < p.filesz then file[p.offset + at] else 0
  }

  /** What the segments put at an address; a later segment wins over an earlier one. */
  function Image(phdrs: seq<Phdr>, file: seq<Byte>, shift: int, a: int): Option<Byte>
    requires forall p :: p in phdrs && p.kind == PT_LOAD ==> InFile(p, file)
  {
    if phdrs == [] then None
    else
      var p := phdrs[|phdrs| - 1];
      if Covers(p, shift, a) then Some(SegmentByte(p, file, shift, a))
      else Image(phdrs[..|phdrs| - 1], file, shift, a)
  }

  /** Memory `now` is memory `before` with the image of the segments laid over it. */
  ghost predicate Laid(before: map<int, Byte>, now: map<int, Byte>, phdrs: seq<Phdr>, file: seq<Byte>, shift: int) {
    && (forall p :: p in phdrs && p.kind == PT_LOAD ==> InFile(p, file))
    && forall a: int ::
         match Image(phdrs, file, shift, a)
         case Some(b) => a in now && now[a] == b
         case None => (a in now <==> a in before) && (a in now && a in before ==> now[a] == before[a])
  }

  /** Segment `j` is the last to cover the address. */
  predicate LastCover(phdrs: seq<Phdr>, shift: int, a: int, j: nat) {
    j < |phdrs| && Covers(phdrs[j], shift, a) && forall k :: j < k < |phdrs| ==> !Covers(phdrs[k], shift, a)
  }

  predicate Uncovered(phdrs: seq<Phdr>, shift: int, a: int) {
    forall k :: 0 <= k < |phdrs| ==> !Covers(phdrs[k], shift, a)
  }

  /** Every address holds what the last segment that covers it has there, the byte of the file or,
      behind the file bytes, zero; an address that none covers is as before. */
  ghost predicate Loaded(before: map<int, Byte>, now: map<int, Byte>, phdrs: seq<Phdr>, file: seq<Byte>, shift: int) {
    && (forall a, j: nat :: LastCover(phdrs, shift, a, j) ==>
          var at := a - (phdrs[j].paddr + shift);
          && a in now
          && (at < phdrs[j].filesz ==> phdrs[j].offset + at < |file| && now[a] == file[phdrs[j].offset + at])
          && (at >= phdrs[j].filesz ==> now[a] == 0))
    && (forall a :: Uncovered(phdrs, shift, a) ==>
          (a in now <==> a in before) && (a in now && a in before ==> now[a] == before[a]))
  }

  lemma {:induction false} ImageAt(phdrs: seq<Phdr>, file: seq<Byte>, shift: int, a: int, j: nat)
    requires (forall p :: p in phdrs && p.kind == PT_LOAD ==> InFile(p, file)) && LastCover(phdrs, shift, a, j)
    ensures Image(phdrs, file, shift, a) == Some(SegmentByte(phdrs[j], file, shift, a))
    decreases phdrs
  {
    var n := |phdrs| - 1;
    if j < n { ImageAt(phdrs[..n], file, shift, a, j); }
  }

  lemma {:induction false} ImageNone(phdrs: seq<Phdr>, file: seq<Byte>, shift: int, a: int)
    requires (forall p :: p in phdrs && p.kind == PT_LOAD ==> InFile(p, file)) && Uncovered(phdrs, shift, a)
    ensures Image(phdrs, file, shift, a) == None
    decreases phdrs
  {
    if phdrs != [] { ImageNone(phdrs[..|phdrs| - 1], file, shift, a); }
  }

  lemma {:induction false} LaidIsLoaded(before: map<int, Byte>, now: map<int, Byte>, phdrs: seq<Phdr>, file: seq<Byte>,
                                        shift: int)
    requires Laid(before, now, phdrs, file, shift)
    ensures Loaded(before, now, phdrs, file, shift)
  {
    forall a, j: nat | LastCover(phdrs, shift, a, j)
      ensures Image(phdrs, file, shift, a) == Some(SegmentByte(phdrs[j], file, shift, a))
    {
      ImageAt(phdrs, file, shift, a, j);
    }
    forall a | Uncovered(phdrs, shift, a) ensures Image(phdrs, file, shift, a) == None {
      ImageNone(phdrs, file, shift, a);
    }
  }

  /** Lowest address and highest end of the loaded segments, as the loop computes them. */
  function Lowest(phdrs: seq<Phdr>): (r: nat) {
    if phdrs == [] then U64_MAX
    else
      var p, lo := phdrs[|phdrs| - 1], Lowest(phdrs[..|phdrs| - 1]);
      if p.kind == PT_LOAD && p.paddr < lo then p.paddr else lo
  }

  function Highest(phdrs: seq<Phdr>): (r: nat) {
    if phdrs == [] then 0
    else
      var p, hi := phdrs[|phdrs| - 1], Highest(phdrs[..|phdrs| - 1]);
      if p.kind == PT_LOAD && p.paddr + p.memsz > hi then p.paddr + p.memsz else hi
  }

  predicate AnyLoad(phdrs: seq<Phdr>) {
    exists p :: p in phdrs && p.kind == PT_LOAD
  }

  /** The two bounds are tight: every loaded segment lies between them and both are met. */
  lemma {:induction false} SpanIsTight(phdrs: seq<Phdr>)
    ensures forall p :: p in phdrs && p.kind == PT_LOAD ==>
              Lowest(phdrs) <= p.paddr && p.paddr + p.memsz <= Highest(phdrs)
    ensures AnyLoad(phdrs) ==> exists p :: p in phdrs && p.kind == PT_LOAD && p.paddr == Lowest(phdrs)
    ensures AnyLoad(phdrs) ==> exists p :: p in phdrs && p.kind == PT_LOAD && p.paddr + p.memsz == Highest(phdrs)
    ensures !AnyLoad(phdrs) ==> Lowest(phdrs) == U64_MAX && Highest(phdrs) == 0
  {
    if phdrs != [] {
      var init, p := phdrs[..|phdrs| - 1], phdrs[|phdrs| - 1];
      SpanIsTight(init);
      assert phdrs == init + [p];
      assert AnyLoad(phdrs) <==> AnyLoad(init) || p.kind == PT_LOAD;
      assert p in phdrs;
    }
  }

  // ------------------------------------------------------------------ the code

  predicate InBlock(a: int, at: int, len: nat) { at <= a < at + len }

  class Memory {
    var bytes: map<int, Byte>

    /** load_buffer_to_memory. */
    method Load(data: seq<Byte>, at: int)
      modifies this
      ensures forall a :: a in bytes <==> a in old(bytes) || at <= a < at + |data|
      ensures forall a :: a in bytes ==> bytes[a] == if at <= a < at + |data| then data[a - at] else old(bytes)[a]
    {
      bytes := bytes + (map a: int | at <= a < at + |data| && InBlock(a, at, |data|) :: data[a - at]);
    }

    /** One PT_LOAD segment; `zeroes` says whether the zero buffer could be allocated. */
    method LoadSegment(file: seq<Byte>, p: Phdr, shift: int, zeroes: bool) returns (ok: bool)
      requires p.kind == PT_LOAD && Fits(p, shift) && InFile(p, file)
      modifies this
      ensures ok <==> zeroes || p.memsz <= p.filesz
      ensures ok ==> Laid(old(bytes), bytes, [p], file, shift)
      ensures !ok ==> Laid(old(bytes), bytes, [p.(memsz := p.filesz)], file, shift)
    {
      var at := p.paddr + shift;
      if p.filesz > 0 {
        Load(file[p.offset..p.offset + p.filesz], at);
      }
      ghost var q := p.(memsz := p.filesz);
      forall a: int
        ensures Image([p], file, shift, a) == if Covers(p, shift, a) then Some(SegmentByte(p, file, shift, a)) else None
      {
        assert [p][..0] == [];
      }
      forall a: int
        ensures Image([q], file, shift, a) == if Covers(q, shift, a) then Some(SegmentByte(q, file, shift, a)) else None
      {
        assert [q][..0] == [];
      }
      if p.memsz > p.filesz {
        if !zeroes { return false; }
        Load(seq(p.memsz - p.filesz, _ => 0), at + p.filesz);
      }
      ok := true;
    }

    /** One pass of the segment loop. */
    method LoadPhdr(file: seq<Byte>, phdrs: seq<Phdr>, i: nat, shift: int, zeroes: bool, ghost before: map<int, Byte>)
      returns (ok: bool)
      requires i < |phdrs| && (phdrs[i].kind == PT_LOAD ==> Fits(phdrs[i], shift))
      requires Laid(before, bytes, phdrs[..i], file, shift)
      modifies this
      ensures ok <==>
                (phdrs[i].kind == PT_LOAD ==> InFile(phdrs[i], file) && (zeroes || phdrs[i].memsz <= phdrs[i].filesz))
      ensures ok ==> Laid(before, bytes, phdrs[..i + 1], file, shift)
      ensures !ok && !InFile(phdrs[i], file) ==> Laid(before, bytes, phdrs[..i], file, shift)
      ensures !ok && InFile(phdrs[i], file) ==>
                Laid(before, bytes, phdrs[..i] + [phdrs[i].(memsz := phdrs[i].filesz)], file, shift)
    {
      var p := phdrs[i];
      assert phdrs[..i + 1] == phdrs[..i] + [p];
      if p.kind != PT_LOAD {
        LaidSkip(before, bytes, phdrs[..i], p, file, shift);
        return true;
      }
      if p.offset + p.filesz > |file| { return false; }
      ghost var mid := bytes;
      ok := LoadSegment(file, p, shift, zeroes);
      LaidAppend(before, mid, bytes, phdrs[..i], if ok then p else p.(memsz := p.filesz), file, shift);
    }

    /** load_elf_kernel after the header checks. On success the memory holds the image of all
        segments and the size is the tight span; on failure it holds the image of the
        segments before the failing one (and of its file bytes, if its zeros failed). */
    method LoadElf(file: seq<Byte>, phdrs: seq<Phdr>, shift: int, zeroes: nat -> bool)
      returns (ok: bool, total: nat, ghost stop: nat)
      requires forall i :: 0 <= i < |phdrs| && phdrs[i].kind == PT_LOAD ==> Fits(phdrs[i], shift)
      modifies this
      ensures ok <==> forall i :: 0 <= i < |phdrs| && phdrs[i].kind == PT_LOAD ==>
                        InFile(phdrs[i], file) && (zeroes(i) || phdrs[i].memsz <= phdrs[i].filesz)
      ensures ok ==> Laid(old(bytes), bytes, phdrs, file, shift) && Loaded(old(bytes), bytes, phdrs, file, shift)
      ensures ok ==> total == if AnyLoad(phdrs) then Highest(phdrs) - Lowest(phdrs) else 0
      ensures !ok ==> stop < |phdrs|
      ensures !ok && !InFile(phdrs[stop], file) ==> Laid(old(bytes), bytes, phdrs[..stop], file, shift)
      ensures !ok && InFile(phdrs[stop], file) ==>
                Laid(old(bytes), bytes, phdrs[..stop] + [phdrs[stop].(memsz := phdrs[stop].filesz)], file, shift)
    {
      total, stop := 0, 0;
      var minPaddr := U64_MAX;
      var maxEnd := 0;
      var i := 0;
      while i < |phdrs|
        invariant 0 <= i <= |phdrs|
        invariant minPaddr == Lowest(phdrs[..i]) && maxEnd == Highest(phdrs[..i])
        invariant forall k :: 0 <= k < i && phdrs[k].kind == PT_LOAD ==>
                    InFile(phdrs[k], file) && (zeroes(k) || phdrs[k].memsz <= phdrs[k].filesz)
        invariant Laid(old(bytes), bytes, phdrs[..i], file, shift)
      {
        ok := LoadPhdr(file, phdrs, i, shift, zeroes(i), old(bytes));
        if !ok { return false, 0, i; }
        var p := phdrs[i];
        assert phdrs[..i + 1][..i] == phdrs[..i];
        if p.kind == PT_LOAD {
          if p.paddr < minPaddr { minPaddr := p.paddr; }
          if p.paddr + p.memsz > maxEnd { maxEnd := p.paddr + p.memsz; }
        }
        i := i + 1;
      }
      assert phdrs[..i] == phdrs;
      LaidIsLoaded(old(bytes), bytes, phdrs, file, shift);
      SpanOrdered(phdrs, shift);
      total := if minPaddr == U64_MAX then 0 else maxEnd - minPaddr;
      ok := true;
    }
  }

  /** The sentinel of the minimum is only met by a segment whose span is empty. */
  lemma {:induction false} SpanOrdered(phdrs: seq<Phdr>, shift: int)
    requires forall i :: 0 <= i < |phdrs| && phdrs[i].kind == PT_LOAD ==> Fits(phdrs[i], shift)
    ensures AnyLoad(phdrs) ==> Lowest(phdrs) <= Highest(phdrs)
    ensures AnyLoad(phdrs) && Lowest(phdrs) == U64_MAX ==> Highest(phdrs) == U64_MAX
    ensures !AnyLoad(phdrs) ==> Lowest(phdrs) == U64_MAX
  {
    SpanIsTight(phdrs);
    if AnyLoad(phdrs) {
      var q :| q in phdrs && q.kind == PT_LOAD && q.paddr + q.memsz == Highest(phdrs);
      assert Fits(q, shift);
    }
  }

  lemma {:induction false} LaidAppend(before: map<int, Byte>, mid: map<int, Byte>, now: map<int, Byte>,
                                      phdrs: seq<Phdr>, p: Phdr, file: seq<Byte>, shift: int)
    requires Laid(before, mid, phdrs, file, shift) && Laid(mid, now, [p], file, shift)
    ensures Laid(before, now, phdrs + [p], file, shift)
  {
    var all := phdrs + [p];
    assert all[..|all| - 1] == phdrs && [p][..0] == [];
    forall a: int
      ensures var last := Image([p], file, shift, a);
              Image(all, file, shift, a) == if last.Some? then last else Image(phdrs, file, shift, a)
    {
    }
  }

  lemma {:induction false} LaidSkip(before: map<int, Byte>, now: map<int, Byte>, phdrs: seq<Phdr>, p: Phdr,
                                    file: seq<Byte>, shift: int)
    requires Laid(before, now, phdrs, file, shift) && p.kind != PT_LOAD
    ensures Laid(before, now, phdrs + [p], file, shift)
  {
    var all := phdrs + [p];
    assert all[..|all| - 1] == phdrs;
  }

  // ------------------------------------------------------------------ the page window

  const PAGE: nat := 4096

  datatype Window = Window(phys: u64, offset: nat, size: u64)

  /** The window hvisor_load_image maps, or None for -EINVAL; PAGE_ALIGN wraps at 2^64. */
  function LoadWindow(userBuffer: u64, size: u64, loadPaddr: u64): Option<Window> {
    if userBuffer == 0 || size == 0 then None
    else
      var offset := loadPaddr % PAGE;
      if size > U64_MAX - offset then None
      else
        var sum := (size + offset + PAGE - 1) % TWO64;
        var mapSize := sum - sum % PAGE;
        if mapSize < size then None else Some(Window(loadPaddr - offset, offset, mapSize))
  }

  /** The request is accepted exactly when its size, rounded to the pages it touches, fits 64
      bits, and then the window is the smallest page range that contains the copy. Where the
      window lies is not checked: it passes 2^64 exactly when the copy does. */
  lemma {:induction false} WindowExact(userBuffer: u64, size: u64, loadPaddr: u64)
    ensures LoadWindow(userBuffer, size, loadPaddr).Some? <==>
              userBuffer != 0 && size != 0 && size + loadPaddr % PAGE <= TWO64 - PAGE
    ensures LoadWindow(userBuffer, size, loadPaddr).Some? ==>
              var w := LoadWindow(userBuffer, size, loadPaddr).value;
              && w.phys % PAGE == 0 && w.size % PAGE == 0
              && w.phys + w.offset == loadPaddr
              && w.phys <= loadPaddr && loadPaddr + size <= w.phys + w.size
              && loadPaddr < w.phys + PAGE && w.phys + w.size < loadPaddr + size + PAGE
              && (w.phys + w.size <= TWO64 <==> loadPaddr + size <= TWO64)
  {
    if LoadWindow(userBuffer, size, loadPaddr).Some? {
      var w := LoadWindow(userBuffer, size, loadPaddr).value;
      PagesEnd(w.phys + w.size, loadPaddr + size);
    }
  }

  lemma {:induction false} PagesEnd(end: nat, copyEnd: nat)
    requires end % PAGE == 0 && copyEnd <= end < copyEnd + PAGE
    ensures end <= TWO64 <==> copyEnd <= TWO64
  {
    assert TWO64 % PAGE == 0;
  }

  /** Such a request: two pages from the last page of the address space. */
  lemma {:induction false} WindowPastEnd()
    ensures var w := LoadWindow(1, 8192, 0xFFFF_FFFF_FFFF_F000);
            w == Some(Window(0xFFFF_FFFF_FFFF_F000, 0, 8192)) && w.value.phys + w.value.size > TWO64
  {
  }
}
