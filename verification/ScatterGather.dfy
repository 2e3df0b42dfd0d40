/** Copies between a scatter/gather list and a flat buffer (iov_to_buf_full and
    buf_to_iov_full in tools/virtio/devices/gpu/virtio_gpu_base.c, and their
    single-buffer fast paths in tools/virtio/include/virtio_gpu.h). */
module ScatterGather {
  import opened Words

  /** The bytes of each buffer of the list. */
  ghost function Parts(iov: seq<array<Byte>>): (r: seq<seq<Byte>>)
    reads iov
    ensures |r| == |iov| && forall i :: 0 <= i < |iov| ==> r[i] == iov[i][..]
  {
    if iov == [] then [] else Parts(iov[..|iov| - 1]) + [iov[|iov| - 1][..]]
  }

  function Cat(parts: seq<seq<Byte>>): seq<Byte> {
    if parts == [] then [] else Cat(parts[..|parts| - 1]) + parts[|parts| - 1]
  }

  /** The bytes of the whole list, one buffer after the other. */
  ghost function Contents(iov: seq<array<Byte>>): seq<Byte>
    reads iov
  {
    Cat(Parts(iov))
  }

  /** At most `need` bytes from `offset`; nothing when the offset is beyond the end. */
  function Slice(c: seq<Byte>, offset: nat, need: nat): (r: seq<Byte>)
    ensures |r| <= need
  {
    if offset > |c| then [] else c[offset..Min(offset + need, |c|)]
  }

  /** `c` with `data` put at `offset`. */
  function Splice(c: seq<Byte>, offset: nat, data: seq<Byte>): (r: seq<Byte>)
    requires data != [] ==> offset + |data| <= |c|
    ensures |r| == |c|
  {
    if data == [] then c else c[..offset] + data + c[offset + |data|..]
  }

  predicate Distinct(iov: seq<array<Byte>>) {
    forall i, j :: 0 <= i < j < |iov| ==> iov[i] != iov[j]
  }

  /** Writing through a slice and reading the same slice gives the data back, and nothing
      outside the slice changes. */
  lemma {:induction false} SpliceThenSlice(c: seq<Byte>, offset: nat, buf: seq<Byte>, need: nat)
    requires need <= |buf|
    ensures var n := |Slice(c, offset, need)|;
            var w := Splice(c, offset, buf[..n]);
            && Slice(w, offset, need) == buf[..n]
            && (forall k :: 0 <= k < |c| && !(offset <= k < offset + n) ==> w[k] == c[k])
  {
  }

  lemma {:induction false} CatStep(parts: seq<seq<Byte>>, i: nat)
    requires i < |parts|
    ensures Cat(parts[..i + 1]) == Cat(parts[..i]) + parts[i]
  {
    assert parts[..i + 1][..i] == parts[..i];
  }

  /** Two lists that agree from buffer `i` on have the same bytes behind it. */
  lemma {:induction false} CatSuffix(parts: seq<seq<Byte>>, q: seq<seq<Byte>>, i: nat) returns (rest: seq<Byte>)
    requires i <= |parts| == |q| && q[i..] == parts[i..]
    ensures Cat(parts) == Cat(parts[..i]) + rest
    ensures Cat(q) == Cat(q[..i]) + rest
    decreases |parts| - i
  {
    if i == |parts| {
      assert parts[..i] == parts && q[..i] == q;
      rest := [];
    } else {
      assert q[i] == q[i..][0] == parts[i..][0] == parts[i];
      assert q[i + 1..] == q[i..][1..] && parts[i + 1..] == parts[i..][1..];
      var more := CatSuffix(parts, q, i + 1);
      CatStep(parts, i);
      CatStep(q, i);
      rest := parts[i] + more;
      assert (Cat(parts[..i]) + parts[i]) + more == Cat(parts[..i]) + rest;
      assert (Cat(q[..i]) + parts[i]) + more == Cat(q[..i]) + rest;
    }
  }

  /** memcpy between distinct buffers. */
  method Copy(dst: array<Byte>, at: nat, src: array<Byte>, from: nat, len: nat)
    requires dst != src && at + len <= dst.Length && from + len <= src.Length
    modifies dst
    ensures dst[..] == old(dst[..at]) + src[from..from + len] + old(dst[at + len..])
  {
    forall k | 0 <= k < len { dst[at + k] := src[from + k]; }
  }

  /** What is left of the offset behind the buffers in `head`. */
  function Remaining(head: seq<Byte>, start: nat): nat {
    if start > |head| then start - |head| else 0
  }

  /** The next buffer adds to the slice what one pass of the loop copies. */
  lemma {:induction false} SliceGrows(head: seq<Byte>, last: seq<Byte>, start: nat, need: nat)
    ensures var offset := Remaining(head, start);
            var done := |Slice(head, start, need)|;
            && (offset < |last| ==>
                  Slice(head + last, start, need)
                  == Slice(head, start, need) + last[offset..offset + Min(|last| - offset, need - done)])
            && (offset >= |last| ==> Slice(head + last, start, need) == Slice(head, start, need))
            && Remaining(head + last, start) == (if offset < |last| then 0 else offset - |last|)
  {
  }

  /** Once the offset is used up and the slice is full, later buffers add nothing. */
  lemma {:induction false} SliceDone(head: seq<Byte>, rest: seq<Byte>, start: nat, need: nat)
    requires Remaining(head, start) == 0 && |Slice(head, start, need)| >= need
    ensures Slice(head + rest, start, need) == Slice(head, start, need)
  {
  }

  /** The reading loop has passed `i` buffers and gathered `got`. */
  ghost predicate Gathered(parts: seq<seq<Byte>>, i: nat, start: nat, need: nat, offset: nat, got: seq<Byte>) {
    && i <= |parts|
    && offset == Remaining(Cat(parts[..i]), start) && got == Slice(Cat(parts[..i]), start, need)
  }

  lemma {:induction false} GatheredNext(parts: seq<seq<Byte>>, i: nat, start: nat, need: nat, offset: nat,
                                        got: seq<Byte>)
    requires Gathered(parts, i, start, need, offset, got) && i < |parts|
    ensures if offset < |parts[i]|
            then Gathered(parts, i + 1, start, need, 0,
                          got + parts[i][offset..offset + Min(|parts[i]| - offset, need - |got|)])
            else Gathered(parts, i + 1, start, need, offset - |parts[i]|, got)
  {
    CatStep(parts, i);
    SliceGrows(Cat(parts[..i]), parts[i], start, need);
  }

  /** One pass of the reading loop, on buffer `i`. */
  method ReadPass(iov: seq<array<Byte>>, i: nat, ghost start: nat, offset: nat, buf: array<Byte>, done: nat, need: nat)
    returns (offset': nat, done': nat)
    requires i < |iov| && buf !in iov && done <= need <= buf.Length
    requires Gathered(Parts(iov), i, start, need, offset, buf[..done])
    modifies buf
    ensures done <= done' <= need && Gathered(old(Parts(iov)), i + 1, start, need, offset', buf[..done'])
    ensures buf[done'..] == old(buf[done'..])
  {
    GatheredNext(Parts(iov), i, start, need, offset, buf[..done]);
    var src := iov[i];
    if offset < src.Length {
      var len := Min(src.Length - offset, need - done);
      ghost var was, piece := buf[..done], src[offset..offset + len];
      assert piece == Parts(iov)[i][offset..offset + len];
      Copy(buf, done, src, offset, len);
      done', offset' := done + len, 0;
      assert buf[..done'] == was + piece;
    } else {
      done', offset' := done, offset - src.Length;
    }
  }

  method IovToBufFull(iov: seq<array<Byte>>, start: nat, buf: array<Byte>, need: nat) returns (done: nat)
    requires need <= buf.Length && buf !in iov
    modifies buf
    ensures done == |Slice(Contents(iov), start, need)|
    ensures buf[..done] == Slice(Contents(iov), start, need)
    ensures buf[done..] == old(buf[done..])
  {
    done := 0;
    var offset: nat := start;
    var i: nat := 0;
    ghost var parts := Parts(iov);
    assert parts[..0] == [];
    while (offset != 0 || done < need) && i < |iov|
      invariant i <= |iov| && done <= need && Parts(iov) == parts
      invariant Gathered(parts, i, start, need, offset, buf[..done])
      invariant buf[done..] == old(buf[done..])
      decreases |iov| - i
    {
      offset, done := ReadPass(iov, i, start, offset, buf, done, need);
      i := i + 1;
    }
    SliceAll(parts, i, start, need);
    if offset != 0 { return 0; }
  }

  /** When the loop stops, the slice of the buffers seen is the slice of all. */
  lemma {:induction false} SliceAll(parts: seq<seq<Byte>>, i: nat, start: nat, need: nat)
    requires i <= |parts|
    requires i == |parts| || (Remaining(Cat(parts[..i]), start) == 0 && |Slice(Cat(parts[..i]), start, need)| >= need)
    ensures Slice(Cat(parts), start, need) == Slice(Cat(parts[..i]), start, need)
    ensures Remaining(Cat(parts[..i]), start) != 0 ==> Slice(Cat(parts), start, need) == []
  {
    if i == |parts| {
      assert parts[..i] == parts;
    } else {
      var rest := CatSuffix(parts, parts, i);
      SliceDone(Cat(parts[..i]), rest, start, need);
    }
  }

  lemma {:induction false} SpliceAt(c: seq<Byte>, offset: nat, data: seq<Byte>, k: nat)
    requires data != [] ==> offset + |data| <= |c|
    requires k < |c|
    ensures Splice(c, offset, data)[k] == if offset <= k < offset + |data| then data[k - offset] else c[k]
  {}

  /** One buffer further: the part of the data that lands in the next buffer. */
  lemma {:induction false} SpliceGrows(head: seq<Byte>, last: seq<Byte>, start: nat, offset: nat, data: seq<Byte>,
                                       done: nat, len: nat)
    requires done + len <= |data|
    requires done > 0 ==> start + done <= |head|
    requires len > 0 ==> offset + len <= |last| && start + done == |head| + offset && (offset > 0 ==> done == 0)
    ensures done + len > 0 ==> start + done + len <= |head| + |last|
    ensures Splice(head + last, start, data[..done + len])
            == Splice(head, start, data[..done]) + Splice(last, offset, data[done..done + len])
  {
    var whole := Splice(head + last, start, data[..done + len]);
    var a, b := Splice(head, start, data[..done]), Splice(last, offset, data[done..done + len]);
    forall k | 0 <= k < |head| + |last| ensures whole[k] == (a + b)[k] {
      SpliceAt(head + last, start, data[..done + len], k);
      if k < |head| {
        SpliceAt(head, start, data[..done], k);
      } else {
        SpliceAt(last, offset, data[done..done + len], k - |head|);
      }
    }
  }

  /** One pass of the loop on one buffer of the list. */
  method Fill(iov: seq<array<Byte>>, i: nat, offset: nat, buf: array<Byte>, done: nat, len: nat)
    requires i < |iov| && Distinct(iov) && buf !in iov && offset + len <= iov[i].Length && done + len <= buf.Length
    modifies iov[i]
    ensures Parts(iov) == old(Parts(iov))[i := Splice(old(iov[i][..]), offset, buf[done..done + len])]
    ensures buf[..] == old(buf[..])
  {
    Copy(iov[i], offset, buf, done, len);
    ghost var now := Parts(iov);
    forall k | 0 <= k < |iov| && k != i ensures now[k] == old(Parts(iov))[k] {
      assert iov[k] != iov[i];
    }
    if len == 0 { assert iov[i][..] == old(iov[i][..]); }
  }

  /** The writing loop has passed `i` buffers: those hold the data that falls into them, and
      the others are as they were. */
  ghost predicate Wrote(parts: seq<seq<Byte>>, now: seq<seq<Byte>>, i: nat, start: nat, need: nat, data: seq<Byte>,
                        offset: nat, done: nat) {
    && i <= |parts| == |now| && now[i..] == parts[i..]
    && offset == Remaining(Cat(parts[..i]), start) && done == |Slice(Cat(parts[..i]), start, need)|
    && done <= need <= |data| && (done > 0 ==> start + done <= |Cat(parts[..i])|)
    && Cat(now[..i]) == Splice(Cat(parts[..i]), start, data[..done])
  }

  lemma {:induction false} WroteNone(parts: seq<seq<Byte>>, start: nat, need: nat, data: seq<Byte>)
    requires need <= |data|
    ensures Wrote(parts, parts, 0, start, need, data, start, 0)
  {
    assert parts[..0] == [] && data[..0] == [];
  }

  /** The offset falls into the next buffer. */
  lemma {:induction false} WroteNext(parts: seq<seq<Byte>>, now: seq<seq<Byte>>, i: nat, start: nat, need: nat,
                                     data: seq<Byte>, offset: nat, done: nat, len: nat)
    requires Wrote(parts, now, i, start, need, data, offset, done) && i < |parts|
    requires offset < |parts[i]| && len == Min(|parts[i]| - offset, need - done)
    ensures Wrote(parts, now[i := Splice(parts[i], offset, data[done..done + len])], i + 1, start, need, data,
                  0, done + len)
  {
    var head, last := Cat(parts[..i]), parts[i];
    SliceGrows(head, last, start, need);
    SpliceGrows(head, last, start, offset, data, done, len);
    var next := SetPart(parts, now, i, Splice(last, offset, data[done..done + len]));
    CatStep(parts, i);
  }

  /** The offset lies behind the next buffer. */
  lemma {:induction false} WroteSkip(parts: seq<seq<Byte>>, now: seq<seq<Byte>>, i: nat, start: nat, need: nat,
                                     data: seq<Byte>, offset: nat, done: nat)
    requires Wrote(parts, now, i, start, need, data, offset, done) && i < |parts| && offset >= |parts[i]|
    ensures Wrote(parts, now, i + 1, start, need, data, offset - |parts[i]|, done)
  {
    var head, last := Cat(parts[..i]), parts[i];
    SliceGrows(head, last, start, need);
    SpliceGrows(head, last, start, 0, data, done, 0);
    assert now[i] == now[i..][0] == last;
    var next := SetPart(parts, now, i, last);
    assert next == now;
    CatStep(parts, i);
  }

  /** When the loop stops, the data is where it belongs. */
  lemma {:induction false} WroteAll(parts: seq<seq<Byte>>, now: seq<seq<Byte>>, i: nat, start: nat, need: nat,
                                    data: seq<Byte>, offset: nat, done: nat)
    requires Wrote(parts, now, i, start, need, data, offset, done)
    requires i == |parts| || (offset == 0 && done >= need)
    ensures done == |Slice(Cat(parts), start, need)| && (offset != 0 ==> done == 0)
    ensures done > 0 ==> start + done <= |Cat(parts)|
    ensures Cat(now) == Splice(Cat(parts), start, data[..done])
  {
    SliceAll(parts, i, start, need);
    SpliceAll(parts, now, i, start, data[..done]);
  }

  /** One pass of the writing loop, on buffer `i`. */
  method WritePass(iov: seq<array<Byte>>, i: nat, ghost parts: seq<seq<Byte>>, ghost start: nat, offset: nat,
                   buf: array<Byte>, done: nat, need: nat)
    returns (offset': nat, done': nat)
    requires i < |iov| && Distinct(iov) && buf !in iov && need <= buf.Length
    requires Wrote(parts, Parts(iov), i, start, need, buf[..], offset, done)
    modifies iov[i]
    ensures buf[..] == old(buf[..])
    ensures Wrote(parts, Parts(iov), i + 1, start, need, buf[..], offset', done')
  {
    ghost var now, data := Parts(iov), buf[..];
    assert iov[i][..] == now[i..][0] == parts[i];
    if offset < iov[i].Length {
      var len := Min(iov[i].Length - offset, need - done);
      WroteNext(parts, now, i, start, need, data, offset, done, len);
      assert data[done..done + len] == buf[done..done + len];
      Fill(iov, i, offset, buf, done, len);
      done', offset' := done + len, 0;
    } else {
      WroteSkip(parts, now, i, start, need, data, offset, done);
      done', offset' := done, offset - iov[i].Length;
    }
  }

  method BufToIovFull(iov: seq<array<Byte>>, start: nat, buf: array<Byte>, need: nat) returns (done: nat)
    requires need <= buf.Length && buf !in iov && Distinct(iov)
    modifies iov
    ensures done == |Slice(old(Contents(iov)), start, need)|
    ensures Contents(iov) == Splice(old(Contents(iov)), start, buf[..done])
  {
    done := 0;
    var offset: nat := start;
    var i: nat := 0;
    ghost var parts := Parts(iov);
    WroteNone(parts, start, need, buf[..]);
    while (offset != 0 || done < need) && i < |iov|
      invariant i <= |iov| && buf[..] == old(buf[..])
      invariant Wrote(parts, Parts(iov), i, start, need, buf[..], offset, done)
      decreases |iov| - i
    {
      offset, done := WritePass(iov, i, parts, start, offset, buf, done, need);
      i := i + 1;
    }
    WroteAll(parts, Parts(iov), i, start, need, buf[..], offset, done);
    assert buf[..][..done] == buf[..done];
    if offset != 0 { return 0; }
  }

  lemma {:induction false} SpliceAll(parts: seq<seq<Byte>>, now: seq<seq<Byte>>, i: nat, start: nat, data: seq<Byte>)
    requires i <= |parts| == |now| && now[i..] == parts[i..]
    requires data != [] ==> start + |data| <= |Cat(parts[..i])|
    requires Cat(now[..i]) == Splice(Cat(parts[..i]), start, data)
    ensures data != [] ==> start + |data| <= |Cat(parts)|
    ensures Cat(now) == Splice(Cat(parts), start, data)
  {
    var rest := CatSuffix(parts, now, i);
    SpliceGrows(Cat(parts[..i]), rest, start, 0, data, |data|, 0);
    assert data[..|data|] == data;
  }

  lemma {:induction false} SetPart(parts: seq<seq<Byte>>, now: seq<seq<Byte>>, i: nat, part: seq<Byte>)
    returns (next: seq<seq<Byte>>)
    requires i < |parts| == |now| && now[i..] == parts[i..]
    ensures next == now[i := part] && next[i + 1..] == parts[i + 1..]
    ensures Cat(next[..i + 1]) == Cat(now[..i]) + part
  {
    next := now[i := part];
    CatStep(next, i);
    assert next[..i] == now[..i];
    assert parts[i + 1..] == parts[i..][1..] == now[i + 1..];
  }

  /** iov_to_buf: the single-buffer fast path, taken for a size known at compile time,
      keeps the contract of the loop. */
  method IovToBuf(constantSize: bool, iov: seq<array<Byte>>, start: nat, buf: array<Byte>, need: nat)
    returns (done: nat)
    requires need <= buf.Length && buf !in iov
    modifies buf
    ensures done == |Slice(Contents(iov), start, need)|
    ensures buf[..done] == Slice(Contents(iov), start, need)
    ensures buf[done..] == old(buf[done..])
  {
    if constantSize && |iov| > 0 && start <= iov[0].Length && need <= iov[0].Length - start {
      FirstBuffer(Parts(iov), start, need);
      Copy(buf, 0, iov[0], start, need);
      return need;
    }
    done := IovToBufFull(iov, start, buf, need);
  }

  lemma {:induction false} FirstBuffer(parts: seq<seq<Byte>>, start: nat, need: nat)
    requires parts != [] && start + need <= |parts[0]|
    ensures Slice(Cat(parts), start, need) == parts[0][start..start + need]
  {
    var rest := CatSuffix(parts, parts, 1);
    CatStep(parts, 0);
    assert Cat(parts[..1]) == parts[0];
  }

  lemma {:induction false} FirstSplice(parts: seq<seq<Byte>>, start: nat, data: seq<Byte>)
    requires parts != [] && start + |data| <= |parts[0]|
    ensures |parts[0]| <= |Cat(parts)|
    ensures Cat(parts[0 := Splice(parts[0], start, data)]) == Splice(Cat(parts), start, data)
  {
    WroteNone(parts, start, |data|, data);
    if data == [] {
      var rest := CatSuffix(parts, parts, 1);
      CatStep(parts, 0);
      assert parts[0 := parts[0]] == parts;
    } else {
      WroteNext(parts, parts, 0, start, |data|, data, start, 0, |data|);
      assert data[0..|data|] == data[..|data|] == data;
      WroteAll(parts, parts[0 := Splice(parts[0], start, data)], 1, start, |data|, data, 0, |data|);
      var rest := CatSuffix(parts, parts, 1);
      CatStep(parts, 0);
    }
  }

  method FastBufToIov(iov: seq<array<Byte>>, start: nat, buf: array<Byte>, need: nat)
    requires need <= buf.Length && buf !in iov && Distinct(iov)
    requires |iov| > 0 && start <= iov[0].Length && need <= iov[0].Length - start
    modifies iov
    ensures need == |Slice(old(Contents(iov)), start, need)|
    ensures Contents(iov) == Splice(old(Contents(iov)), start, buf[..need])
  {
    ghost var parts := Parts(iov);
    FirstBuffer(parts, start, need);
    FirstSplice(parts, start, buf[..need]);
    assert buf[0..need] == buf[..need];
    Fill(iov, 0, start, buf, 0, need);
  }

  /** buf_to_iov: likewise. */
  method BufToIov(constantSize: bool, iov: seq<array<Byte>>, start: nat, buf: array<Byte>, need: nat)
    returns (done: nat)
    requires need <= buf.Length && buf !in iov && Distinct(iov)
    modifies iov
    ensures done == |Slice(old(Contents(iov)), start, need)|
    ensures Contents(iov) == Splice(old(Contents(iov)), start, buf[..done])
  {
    if constantSize && |iov| > 0 && start <= iov[0].Length && need <= iov[0].Length - start {
      FastBufToIov(iov, start, buf, need);
      return need;
    }
    done := BufToIovFull(iov, start, buf, need);
  }

  /** The round trip: what is written at an offset, by either path, is what either path reads
      back there, as many bytes as fit. */
  method WriteThenRead(fastWrite: bool, fastRead: bool, iov: seq<array<Byte>>, start: nat, buf: array<Byte>,
                       out: array<Byte>, need: nat)
    returns (written: nat, read: nat)
    requires need <= buf.Length && need <= out.Length && buf != out
    requires buf !in iov && out !in iov && Distinct(iov)
    modifies iov, out
    ensures read == written <= need && out[..read] == buf[..written]
    ensures old(|Contents(iov)|) >= start + need ==> written == need
    ensures old(|Contents(iov)|) <= start ==> written == 0
  {
    SpliceThenSlice(Contents(iov), start, buf[..], need);
    written := BufToIov(fastWrite, iov, start, buf, need);
    assert buf[..][..written] == buf[..written];
    read := IovToBuf(fastRead, iov, start, out, need);
  }
}
