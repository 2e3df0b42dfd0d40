/** The memory map of a zone (mmap_virtio_zone_memory, find_zone_memory_region_locked
    and get_virt_addr in tools/virtio/virtio.c): any number of threads add
    regions, each dropping the lock around mmap and re-checking the slot number
    afterwards. */
module ZoneMemory {
  import opened Runs
  import opened Ranges

  const MAX_REGIONS: nat := 64
  const MAX_ZONES: nat := 32

  datatype MemConfig = MemConfig(zone0: u64, zonex: u64, size: u64)

  datatype Region = Region(virt: u64, config: MemConfig)

  datatype Found = At(i: nat) | Conflict | Absent

  /** A thread in mmap_virtio_zone_memory: outside; between the first critical section and
      mmap; holding a mapping and about to re-enter. */
  datatype Adder = Idle | Checked(mem: MemConfig, slot: nat) | Mapped(mem: MemConfig, slot: nat, virt: u64)

  datatype State = State(regions: seq<Region>, adders: seq<Adder>)

  /** `virt` is the result of mmap. */
  datatype Step = Begin(a: nat, mem: MemConfig) | Map(a: nat, virt: Option<u64>) | Commit(a: nat)

  // ------------------------------------------------------------------ specification

  predicate Overlaps(a: MemConfig, b: MemConfig) {
    RangesOverlap(a.zone0, a.size, b.zone0, b.size) || RangesOverlap(a.zonex, a.size, b.zonex, b.size)
  }

  /** The first region that is the same or overlaps decides. */
  function FindIn(regions: seq<Region>, mem: MemConfig, from: nat): Found
    requires from <= |regions|
    decreases |regions| - from
  {
    if from == |regions| then Absent
    else if regions[from].config == mem then At(from)
    else if Overlaps(mem, regions[from].config) then Conflict
    else FindIn(regions, mem, from + 1)
  }

  /** Host address ranges, as mathematical intervals. */
  predicate HostApart(v: u64, size: u64, w: u64, size': u64) {
    v + size <= w || w + size' <= v
  }

  /** What mmap guarantees: a range that fits the address space and is free. */
  predicate FreshMapping(s: State, virt: u64, size: u64) {
    && virt + size < TWO64
    && (forall i :: 0 <= i < |s.regions| ==> HostApart(virt, size, s.regions[i].virt, s.regions[i].config.size))
    && (forall b :: 0 <= b < |s.adders| && s.adders[b].Mapped? ==>
          HostApart(virt, size, s.adders[b].virt, s.adders[b].mem.size))
  }

  function StepOf(s: State, step: Step): Option<State> {
    if step.a >= |s.adders| then None
    else
      var me := s.adders[step.a];
      match step
      case Begin(a, mem) =>
        if me != Idle then None
        else if FindIn(s.regions, mem, 0) != Absent || mem.size == 0 || |s.regions| >= MAX_REGIONS then Some(s)
        else Some(s.(adders := s.adders[a := Checked(mem, |s.regions|)]))
      case Map(a, virt) =>
        if !me.Checked? then None
        else if virt.None? then Some(s.(adders := s.adders[a := Idle]))
        else if !FreshMapping(s, virt.value, me.mem.size) then None
        else Some(s.(adders := s.adders[a := Mapped(me.mem, me.slot, virt.value)]))
      case Commit(a) =>
        if !me.Mapped? then None
        else if me.slot != |s.regions| then Some(s.(adders := s.adders[a := Idle]))
        else Some(State(s.regions + [Region(me.virt, me.mem)], s.adders[a := Idle]))
  }

  function System(): (State, Step) -> Option<State> {
    (s, step) => StepOf(s, step)
  }

  predicate Init(s: State) {
    s.regions == [] && forall a :: 0 <= a < |s.adders| ==> s.adders[a] == Idle
  }

  // ------------------------------------------------------------------ invariant over all interleavings

  /** Non-empty, and disjoint in both guest address spaces. */
  predicate GuestApart(regions: seq<Region>) {
    && |regions| <= MAX_REGIONS
    && (forall i :: 0 <= i < |regions| ==> regions[i].config.size != 0)
    && (forall i, j :: 0 <= i < j < |regions| ==> !Overlaps(regions[j].config, regions[i].config))
  }

  predicate HostsApart(regions: seq<Region>) {
    && (forall i :: 0 <= i < |regions| ==> regions[i].virt + regions[i].config.size < TWO64)
    && (forall i, j :: 0 <= i < j < |regions| ==>
          HostApart(regions[i].virt, regions[i].config.size, regions[j].virt, regions[j].config.size))
  }

  /** What a thread learnt in its first critical section stays true of the slots below. */
  predicate AdderInv(regions: seq<Region>, me: Adder) {
    me != Idle ==>
      && me.slot <= |regions| && me.slot < MAX_REGIONS && me.mem.size != 0
      && (forall i :: 0 <= i < me.slot ==> !Overlaps(me.mem, regions[i].config))
      && (me.Mapped? ==>
            && me.virt + me.mem.size < TWO64
            && forall i :: 0 <= i < |regions| ==>
                 HostApart(me.virt, me.mem.size, regions[i].virt, regions[i].config.size))
  }

  predicate MappingsApart(adders: seq<Adder>) {
    forall a, b :: 0 <= a < |adders| && 0 <= b < |adders| && a != b && adders[a].Mapped? && adders[b].Mapped? ==>
      HostApart(adders[a].virt, adders[a].mem.size, adders[b].virt, adders[b].mem.size)
  }

  predicate Inv(s: State) {
    && GuestApart(s.regions) && HostsApart(s.regions) && MappingsApart(s.adders)
    && forall a :: 0 <= a < |s.adders| ==> AdderInv(s.regions, s.adders[a])
  }

  lemma {:induction false} AbsentMeansApart(regions: seq<Region>, mem: MemConfig, from: nat)
    requires from <= |regions| && FindIn(regions, mem, from) == Absent
    ensures forall i :: from <= i < |regions| ==> !Overlaps(mem, regions[i].config)
    decreases |regions| - from
  {
    if from < |regions| { AbsentMeansApart(regions, mem, from + 1); }
  }

  lemma {:induction false} AppendKeeps(regions: seq<Region>, r: Region)
    requires GuestApart(regions) && HostsApart(regions) && |regions| < MAX_REGIONS
    requires AdderInv(regions, Mapped(r.config, |regions|, r.virt))
    ensures GuestApart(regions + [r]) && HostsApart(regions + [r])
  {}

  /** Another adder does not mind a region that is apart from its own mapping. */
  lemma {:induction false} OtherAdderKeeps(regions: seq<Region>, r: Region, other: Adder)
    requires AdderInv(regions, other)
    requires other.Mapped? ==> HostApart(other.virt, other.mem.size, r.virt, r.config.size)
    ensures AdderInv(regions + [r], other)
  {}

  lemma {:induction false} CommitKeeps(s: State, a: nat)
    requires Inv(s) && StepOf(s, Commit(a)).Some?
    ensures Inv(StepOf(s, Commit(a)).value)
  {
    var me := s.adders[a];
    var t := StepOf(s, Commit(a)).value;
    if me.slot == |s.regions| {
      var r := Region(me.virt, me.mem);
      AppendKeeps(s.regions, r);
      forall b | 0 <= b < |t.adders| ensures AdderInv(t.regions, t.adders[b]) {
        if b != a { OtherAdderKeeps(s.regions, r, s.adders[b]); }
      }
    }
  }

  lemma {:induction false} StepKeeps(s: State, step: Step)
    requires Inv(s) && StepOf(s, step).Some?
    ensures Inv(StepOf(s, step).value)
  {
    match step
    case Begin(a, mem) =>
      if FindIn(s.regions, mem, 0) == Absent { AbsentMeansApart(s.regions, mem, 0); }
    case Map(a, virt) =>
    case Commit(a) => CommitKeeps(s, a);
  }

  /** Every interleaving of any number of adders keeps the regions of the zone non-empty and
      pairwise disjoint in both guest address spaces and in the host's. */
  lemma {:induction false} RegionsOverAllRuns(s: State, run: seq<Step>)
    requires Init(s) && Exec(System(), s, run).Some?
    ensures var t := Exec(System(), s, run).value;
            Inv(t) && GuestApart(t.regions) && HostsApart(t.regions)
  {
    forall t, step | Inv(t) && System()(t, step).Some? ensures Inv(System()(t, step).value) {
      StepKeeps(t, step);
    }
    Invariant(System(), Inv, s, run);
  }

  /** An adder that nobody overtakes succeeds, with any fresh mapping: a new region that
      overlaps nothing ends up last in the map. */
  lemma {:induction false} UncontendedAdd(s: State, a: nat, mem: MemConfig, virt: u64)
    requires Inv(s) && a < |s.adders| && s.adders[a] == Idle
    requires mem.size != 0 && |s.regions| < MAX_REGIONS && FreshMapping(s, virt, mem.size)
    requires forall i :: 0 <= i < |s.regions| ==> s.regions[i].config != mem && !Overlaps(mem, s.regions[i].config)
    ensures Reach(System(), s, s.(regions := s.regions + [Region(virt, mem)]))
  {
    FindExactFrom(s.regions, mem, 0);
    ReachSelf<State, Step>(System(), s);
    ReachStep(System(), s, s, Begin(a, mem));
    var t := StepOf(s, Begin(a, mem)).value;
    assert t.adders == s.adders[a := Checked(mem, |s.regions|)] && FreshMapping(t, virt, mem.size);
    ReachStep(System(), s, t, Map(a, Some(virt)));
    var u := StepOf(t, Map(a, Some(virt))).value;
    ReachStep(System(), s, u, Commit(a));
    assert StepOf(u, Commit(a)).value.adders == s.adders;
  }

  // ------------------------------------------------------------------ the search is exact

  lemma {:induction false} FindExactFrom(regions: seq<Region>, mem: MemConfig, from: nat)
    requires GuestApart(regions) && from <= |regions|
    ensures var f := FindIn(regions, mem, from);
            && (f.At? <==> exists i :: from <= i < |regions| && regions[i].config == mem)
            && (f.At? ==> from <= f.i < |regions| && regions[f.i].config == mem)
            && (f == Absent <==> forall i :: from <= i < |regions| ==>
                  regions[i].config != mem && !Overlaps(mem, regions[i].config))
    decreases |regions| - from
  {
    if from < |regions| {
      FindExactFrom(regions, mem, from + 1);
      if Overlaps(mem, regions[from].config) && regions[from].config != mem {
        forall i | from < i < |regions| ensures regions[i].config != mem {
          assert !Overlaps(regions[i].config, regions[from].config);
        }
      }
    }
  }

  // ------------------------------------------------------------------ translation

  predicate Holds(r: Region, ipa: u64) {
    InRange(ipa, r.config.zonex, r.config.size)
  }

  function HostOf(r: Region, ipa: u64): (h: u64)
  {
    (ipa - r.config.zonex + r.virt) % TWO64
  }

  /** The first region that holds the address. */
  function Translate(regions: seq<Region>, ipa: u64): Option<u64> {
    if regions == [] then None
    else if Holds(regions[0], ipa) then Some(HostOf(regions[0], ipa))
    else Translate(regions[1..], ipa)
  }

  lemma {:induction false} OneHolder(regions: seq<Region>, ipa: u64, i: nat, j: nat)
    requires GuestApart(regions) && i < |regions| && j < |regions| && Holds(regions[i], ipa) && Holds(regions[j], ipa)
    ensures i == j
  {
    var a, b := regions[i].config, regions[j].config;
    DisjointRoutes(ipa, a.zonex, a.size, b.zonex, b.size);
    DisjointRoutes(ipa, b.zonex, b.size, a.zonex, a.size);
  }

  lemma {:induction false} TranslateFirst(regions: seq<Region>, ipa: u64) returns (i: nat)
    ensures Translate(regions, ipa).None? <==> forall k :: 0 <= k < |regions| ==> !Holds(regions[k], ipa)
    ensures Translate(regions, ipa).Some? ==>
              i < |regions| && Holds(regions[i], ipa) && Translate(regions, ipa) == Some(HostOf(regions[i], ipa))
  {
    i := 0;
    if regions != [] && !Holds(regions[0], ipa) {
      var k := TranslateFirst(regions[1..], ipa);
      i := k + 1;
      assert forall j :: 0 < j < |regions| ==> regions[j] == regions[1..][j - 1];
    }
  }

  /** Whichever region holds the address gives its translation. */
  lemma {:induction false} TranslateExact(regions: seq<Region>, ipa: u64, i: nat)
    requires GuestApart(regions) && i < |regions| && Holds(regions[i], ipa)
    ensures Translate(regions, ipa) == Some(HostOf(regions[i], ipa))
  {
    var k := TranslateFirst(regions, ipa);
    OneHolder(regions, ipa, i, k);
  }

  lemma {:induction false} TranslateSubset(a: seq<Region>, b: seq<Region>, ipa: u64)
    requires GuestApart(b) && (forall r :: r in a ==> r in b) && Translate(a, ipa).Some?
    ensures Translate(b, ipa) == Translate(a, ipa)
  {
    var i := TranslateFirst(a, ipa);
    assert a[i] in a;
    var k :| 0 <= k < |b| && b[k] == a[i];
    TranslateExact(b, ipa, k);
  }

  /** The order in which the regions were added does not matter. */
  lemma {:induction false} OrderIndependent(a: seq<Region>, b: seq<Region>, ipa: u64)
    requires GuestApart(a) && GuestApart(b) && forall r :: r in a <==> r in b
    ensures Translate(a, ipa) == Translate(b, ipa)
  {
    if Translate(a, ipa).Some? {
      TranslateSubset(a, b, ipa);
    } else if Translate(b, ipa).Some? {
      TranslateSubset(b, a, ipa);
    }
  }

  /** A held address keeps its offset and lands inside the mapping, without wrap-around. */
  lemma {:induction false} OffsetKept(r: Region, ipa: u64)
    requires Holds(r, ipa) && r.virt + r.config.size < TWO64
    ensures HostOf(r, ipa) == r.virt + (ipa - r.config.zonex)
    ensures Inside(HostOf(r, ipa), r.virt, r.config.size)
  {
    InRangeExact(ipa, r.config.zonex, r.config.size);
  }

  /** Different guest addresses never share a host address. */
  lemma {:induction false} TranslateInjective(regions: seq<Region>, x: u64, y: u64)
    requires GuestApart(regions) && HostsApart(regions)
    requires Translate(regions, x).Some? && Translate(regions, x) == Translate(regions, y)
    ensures x == y
  {
    var i := TranslateFirst(regions, x);
    var j := TranslateFirst(regions, y);
    OffsetKept(regions[i], x);
    OffsetKept(regions[j], y);
  }

  // ------------------------------------------------------------------ the code

  class ZoneMaps {
    var zones: seq<seq<Region>>

    ghost predicate Valid()
      reads this
    {
      |zones| == MAX_ZONES
    }

    constructor ()
      ensures Valid() && forall z :: 0 <= z < MAX_ZONES ==> zones[z] == []
    {
      zones := seq(MAX_ZONES, _ => []);
    }

    /** get_virt_addr. */
    method GetVirtAddr(ipa: u64, zone: int) returns (r: Option<u64>)
      requires Valid()
      ensures r == if 0 <= zone < MAX_ZONES then Translate(zones[zone], ipa) else None
    {
      if zone < 0 || zone >= MAX_ZONES { return None; }
      var z := zones[zone];
      var i := 0;
      assert z[0..] == z;
      while i < |z|
        invariant 0 <= i <= |z|
        invariant Translate(z, ipa) == Translate(z[i..], ipa)
      {
        assert z[i..][0] == z[i] && z[i..][1..] == z[i + 1..];
        var lef := z[i].config.zonex;
        var rig := (lef + z[i].config.size) % TWO64;
        if lef <= ipa && ipa < rig {
          return Some((ipa - lef + z[i].virt) % TWO64);
        }
        i := i + 1;
      }
      r := None;
    }

    /** find_zone_memory_region_locked. */
    method FindRegion(zone: nat, mem: MemConfig) returns (r: Found)
      requires Valid() && zone < MAX_ZONES
      ensures r == FindIn(zones[zone], mem, 0)
    {
      var z := zones[zone];
      var i := 0;
      while i < |z|
        invariant 0 <= i <= |z|
        invariant FindIn(z, mem, 0) == FindIn(z, mem, i)
      {
        var current := z[i].config;
        if current == mem { return At(i); }
        if Overlaps(mem, current) { return Conflict; }
        i := i + 1;
      }
      r := Absent;
    }

    /** One region of mmap_virtio_zone_memory; `grown` is what the zone has become while the
        lock was dropped, `virt` what mmap returned. */
    method AddRegion(zone: nat, mem: MemConfig, grown: seq<Region>, virt: Option<u64>) returns (ok: bool)
      requires Valid() && zone < MAX_ZONES && zones[zone] <= grown
      modifies this
      ensures Valid() && forall z :: 0 <= z < MAX_ZONES && z != zone ==> zones[z] == old(zones[z])
      ensures var before := old(zones[zone]);
              var f := FindIn(before, mem, 0);
              var stop := f != Absent || mem.size == 0 || |before| >= MAX_REGIONS;
              && (stop ==> zones == old(zones) && (ok <==> f.At?))
              && (!stop && virt.Some? && grown == before ==> ok && zones[zone] == before + [Region(virt.value, mem)])
              && (!stop && (virt.None? || grown != before) ==> !ok && zones[zone] == grown)
    {
      var found := FindRegion(zone, mem);
      if found.At? { return true; }
      if found == Conflict || mem.size == 0 || |zones[zone]| >= MAX_REGIONS { return false; }
      var slot := |zones[zone]|;
      zones := zones[zone := grown];
      if virt.None? { return false; }
      if slot != |zones[zone]| { return false; }
      assert grown == old(zones[zone]);
      zones := zones[zone := zones[zone] + [Region(virt.value, mem)]];
      ok := true;
    }
  }
}
