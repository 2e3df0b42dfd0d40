/** Bookkeeping of the virtio-gpu device (tools/virtio/devices/gpu/virtio_gpu.c):
    the resource list, the host memory account and the binding between resources
    and scanouts, over every run of 2D commands (section 5.7.6 of VirtIO 1.2). */
module Gpu {
  import opened Runs
  import Ranges

  const MAX_HOSTMEM: nat := 536870912
  const TWO32: nat := 0x1_0000_0000

  type u32 = x: int | 0 <= x < TWO32

  datatype Rect = Rect(x: u32, y: u32, width: u32, height: u32)

  /** `bits` are the one bits of scanout_bitmask; `backed` says that an iov is attached. */
  datatype Resource = Resource(
    id: u32, width: u32, height: u32, hostmem: nat, bits: set<nat>, backed: bool,
    transfer: Rect, transferOffset: nat)

  datatype Scanout = Scanout(resource: u32, rect: Rect)

  datatype Device = Device(resources: seq<Resource>, scanouts: seq<Scanout>, hostmem: nat)

  datatype Response = Ok | InvalidResource | InvalidScanout | InvalidParameter | Unspec

  /** `mapped` is the result of reading and mapping the guest's memory entries. */
  datatype Command =
    | Create2d(id: u32, width: u32, height: u32)
    | Unref(id: u32)
    | Attach(id: u32, entries: nat, mapped: bool)
    | Detach(id: u32)
    | SetScanout(scanout: nat, id: u32, rect: Rect)
    | Transfer(id: u32, rect: Rect, offset: nat)
    | Other  // display info, edid, flush, unknown: no bookkeeping

  // ------------------------------------------------------------------ image size

  /** calc_image_hostmem at 32 bits per pixel, in its 32-bit arithmetic. */
  function ImageSize(width: u32, height: u32): (r: u32) {
    var stride := ((width * 32 + 0x1f) % TWO32) / 32 * 4;
    (height * stride) % TWO32
  }

  /** The size is four bytes per pixel exactly when nothing wraps: the row fits 2^27 pixels
      and the image 2^32 bytes (or there are no rows). */
  lemma {:induction false} ImageSizeExact(width: u32, height: u32)
    ensures ImageSize(width, height) == height * (width * 4)
            <==> height == 0 || (width < 0x800_0000 && height * (width * 4) < TWO32)
  {
    RowPixels(width);
    var row := width % 0x800_0000;
    if height != 0 && width >= 0x800_0000 {
      MulLess(row * 4, width * 4, height);
      ModAtMost(height * (row * 4));
    } else {
      assert row == width || height == 0;
      ModExact(height * (row * 4));
    }
  }

  lemma {:induction false} RowPixels(width: u32)
    ensures ((width * 32 + 0x1f) % TWO32) / 32 == width % 0x800_0000
  {
    var q, m := width / 0x800_0000, width % 0x800_0000;
    assert width * 32 + 0x1f == q * TWO32 + (m * 32 + 0x1f);
  }

  lemma {:induction false} ModAtMost(p: nat)
    ensures p % TWO32 <= p
  {}

  lemma {:induction false} ModExact(p: nat)
    ensures p % TWO32 == p <==> p < TWO32
  {}

  lemma {:induction false} MulLess(a: nat, b: nat, k: nat)
    requires a < b && k > 0
    ensures k * a < k * b
  {}

  // ------------------------------------------------------------------ specification

  /** Position of the first resource with the id, or the length of the list. */
  function Find(rs: seq<Resource>, id: u32): (r: nat)
    ensures r <= |rs|
    ensures r < |rs| ==> rs[r].id == id
    ensures forall k :: 0 <= k < r ==> rs[k].id != id
  {
    if rs == [] then 0 else if rs[0].id == id then 0 else 1 + Find(rs[1..], id)
  }

  /** Clear bit `k` of the resource with the id, if there is one. */
  function Unbind(rs: seq<Resource>, id: u32, k: nat): (r: seq<Resource>)
    ensures |r| == |rs|
  {
    var i := Find(rs, id);
    if i < |rs| then rs[i := rs[i].(bits := rs[i].bits - {k})] else rs
  }

  function DisableScanout(g: Device, k: nat): (r: Device)
    requires k < |g.scanouts|
    ensures |r.resources| == |g.resources| && |r.scanouts| == |g.scanouts|
  {
    var s := g.scanouts[k];
    if s.resource == 0 then g
    else g.(resources := Unbind(g.resources, s.resource, k),
            scanouts := g.scanouts[k := Scanout(0, s.rect.(width := 0, height := 0))])
  }

  /** The loop of virtio_gpu_resource_destory over the scanouts from `k` on. */
  function DisableAll(g: Device, i: nat, k: nat): (r: Device)
    requires i < |g.resources| && k <= |g.scanouts|
    ensures |r.resources| == |g.resources|
    decreases |g.scanouts| - k
  {
    if k == |g.scanouts| then g
    else DisableAll(if k in g.resources[i].bits then DisableScanout(g, k) else g, i, k + 1)
  }

  /** TAILQ_REMOVE. */
  function Without(rs: seq<Resource>, i: nat): (r: seq<Resource>)
    requires i < |rs|
    ensures |r| == |rs| - 1
    ensures forall j :: 0 <= j < |r| ==> r[j] == rs[if j < i then j else j + 1]
  {
    rs[..i] + rs[i + 1..]
  }

  function Destroy(g: Device, i: nat): (r: Device)
    requires i < |g.resources|
  {
    var d := DisableAll(g, i, 0);
    var mem := d.resources[i].hostmem;
    Device(Without(d.resources, i), d.scanouts, (d.hostmem - mem) % Ranges.TWO64)
  }

  predicate RectRefused(r: Rect, res: Resource) {
    || r.x > res.width || r.y > res.width || r.width < 16 || r.height < 16
    || r.width > res.width || r.height > res.height
    || (r.x + r.width) % TWO32 > res.width || (r.y + r.height) % TWO32 > res.height
  }

  predicate TransferRefused(r: Rect, res: Resource) {
    || r.x > res.width || r.y > res.height || r.width > res.width || r.height > res.height
    || (r.x + r.width) % TWO32 > res.width || (r.y + r.height) % TWO32 > res.height
  }

  function UpdateScanout(g: Device, k: nat, i: nat, rect: Rect): (r: Device)
    requires k < |g.scanouts| && i < |g.resources|
  {
    var rs := Unbind(g.resources, g.scanouts[k].resource, k);
    g.(resources := rs[i := rs[i].(bits := rs[i].bits + {k})],
       scanouts := g.scanouts[k := Scanout(g.resources[i].id, rect)])
  }

  /** The rectangle lies inside the resource. */
  predicate Within(r: Rect, res: Resource) {
    r.x + r.width <= res.width && r.y + r.height <= res.height
  }

  /** A start and an extent that pass the tests against `max`: they fit, or their 32-bit sum wraps. */
  predicate Passes(start: u32, extent: u32, max: u32) {
    start <= max && extent <= max && (start + extent <= max || start + extent >= TWO32)
  }

  /** 16 by 16 pixels or more and both directions pass, the top being compared with the width. */
  predicate Displayable(r: Rect, width: u32, height: u32) {
    && r.width >= 16 && r.height >= 16 && Passes(r.x, r.width, width)
    && r.y <= width && r.height <= height && (r.y + r.height <= height || r.y + r.height >= TWO32)
  }

  /** A display rectangle is accepted exactly when it is displayable. An accepted one lies inside
      the resource exactly when neither sum wraps. */
  lemma {:induction false} RectExact(r: Rect, res: Resource)
    ensures !RectRefused(r, res) <==> Displayable(r, res.width, res.height)
    ensures !RectRefused(r, res) ==> (Within(r, res) <==> r.x + r.width < TWO32 && r.y + r.height < TWO32)
  {
    WrapsOnce(r.x, r.width);
    WrapsOnce(r.y, r.height);
  }

  /** A transfer, of any size, is accepted exactly when both directions pass. */
  lemma {:induction false} TransferExact(r: Rect, res: Resource)
    ensures !TransferRefused(r, res) <==> Passes(r.x, r.width, res.width) && Passes(r.y, r.height, res.height)
    ensures !TransferRefused(r, res) ==> (Within(r, res) <==> r.x + r.width < TWO32 && r.y + r.height < TWO32)
  {
    WrapsOnce(r.x, r.width);
    WrapsOnce(r.y, r.height);
  }

  lemma {:induction false} WrapsOnce(a: u32, b: u32)
    ensures (a + b) % TWO32 == if a + b < TWO32 then a + b else a + b - TWO32
  {}

  /** A found, backed resource, or the error that virtio_gpu_check_resource reports. */
  function CheckResource(g: Device, id: u32): (nat, Response) {
    var i := Find(g.resources, id);
    if i == |g.resources| then (i, InvalidResource)
    else if !g.resources[i].backed || g.resources[i].hostmem == 0 then (i, Unspec)
    else (i, Ok)
  }

  function Fresh(c: Command): Resource
    requires c.Create2d?
  {
    Resource(c.id, c.width, c.height, ImageSize(c.width, c.height), {}, false, Rect(0, 0, 0, 0), 0)
  }

  /** One command: the new bookkeeping and the response type. A creation that exceeds the
      host memory leaves everything as it was but is answered like a success. */
  function Serve(g: Device, c: Command): (Device, Response) {
    match c
    case Create2d(id, width, height) =>
      if id == 0 || Find(g.resources, id) < |g.resources| then (g, InvalidResource)
      else if Fresh(c).hostmem + g.hostmem >= MAX_HOSTMEM then (g, Ok)
      else (g.(resources := [Fresh(c)] + g.resources, hostmem := g.hostmem + Fresh(c).hostmem), Ok)
    case Unref(id) =>
      var i := Find(g.resources, id);
      if i == |g.resources| then (g, InvalidResource) else (Destroy(g, i), Ok)
    case Attach(id, entries, mapped) =>
      var i := Find(g.resources, id);
      if i == |g.resources| then (g, InvalidResource)
      else if g.resources[i].backed then (g, Unspec)
      else if entries > 16384 || !mapped then (g, Unspec)
      else (g.(resources := g.resources[i := g.resources[i].(backed := entries > 0)]), Ok)
    case Detach(id) =>
      var (i, resp) := CheckResource(g, id);
      if resp != Ok then (g, resp) else (g.(resources := g.resources[i := g.resources[i].(backed := false)]), Ok)
    case SetScanout(k, id, rect) =>
      if k >= |g.scanouts| then (g, InvalidScanout)
      else
        var (i, resp) := CheckResource(g, id);
        if resp != Ok then (g, resp)
        else if RectRefused(rect, g.resources[i]) then (g, InvalidParameter)
        else (UpdateScanout(g, k, i, rect), Ok)
    case Transfer(id, rect, offset) =>
      var (i, resp) := CheckResource(g, id);
      if resp != Ok then (g, resp)
      else if TransferRefused(rect, g.resources[i]) then (g, InvalidParameter)
      else (g.(resources := g.resources[i := g.resources[i].(transfer := rect, transferOffset := offset)]), Ok)
    case Other => (g, Ok)
  }

  // ------------------------------------------------------------------ invariant over all runs

  function Total(rs: seq<Resource>): nat {
    if rs == [] then 0 else rs[0].hostmem + Total(rs[1..])
  }

  predicate UniqueIds(rs: seq<Resource>) {
    && (forall i :: 0 <= i < |rs| ==> rs[i].id != 0)
    && (forall i, j :: 0 <= i < j < |rs| ==> rs[i].id != rs[j].id)
  }

  predicate SizesRight(rs: seq<Resource>) {
    forall i :: 0 <= i < |rs| ==> rs[i].hostmem == ImageSize(rs[i].width, rs[i].height)
  }

  /** A resource has bit `k` exactly when scanout `k` shows it. */
  predicate Bound(rs: seq<Resource>, ss: seq<Scanout>) {
    forall i :: 0 <= i < |rs| ==> rs[i].bits == Shown(ss, rs[i].id)
  }

  /** The scanouts that show a resource. */
  function Shown(ss: seq<Scanout>, id: u32): set<nat> {
    set k: nat | k < |ss| && ss[k].resource == id
  }

  /** No scanout shows a resource that does not exist. */
  predicate NoDangling(rs: seq<Resource>, ss: seq<Scanout>) {
    forall k :: 0 <= k < |ss| && ss[k].resource != 0 ==> Find(rs, ss[k].resource) < |rs|
  }

  predicate Inv(g: Device) {
    && UniqueIds(g.resources) && SizesRight(g.resources)
    && g.hostmem == Total(g.resources) < MAX_HOSTMEM
    && Bound(g.resources, g.scanouts) && NoDangling(g.resources, g.scanouts)
  }

  lemma {:induction false} FindUnique(rs: seq<Resource>, i: nat)
    requires UniqueIds(rs) && i < |rs|
    ensures Find(rs, rs[i].id) == i
  {
  }

  /** Replacing a resource by one with the same id and size keeps the account and the ids. */
  lemma {:induction false} SameAccount(a: seq<Resource>, b: seq<Resource>)
    requires |a| == |b|
    requires forall i :: 0 <= i < |a| ==> a[i].id == b[i].id && a[i].hostmem == b[i].hostmem
    ensures Total(a) == Total(b)
    ensures forall id: u32 :: Find(a, id) == Find(b, id)
  {
    if a != [] {
      SameAccount(a[1..], b[1..]);
      forall id: u32 ensures Find(a, id) == Find(b, id) {
        assert Find(a[1..], id) == Find(b[1..], id);
      }
    }
  }

  lemma {:induction false} TotalWithout(rs: seq<Resource>, i: nat)
    requires i < |rs|
    ensures Total(rs) == rs[i].hostmem + Total(Without(rs, i))
    decreases i
  {
    var rest := Without(rs, i);
    if i == 0 {
      assert rest == rs[1..];
    } else {
      TotalWithout(rs[1..], i - 1);
      assert rest[0] == rs[0] && rest[1..] == Without(rs[1..], i - 1);
    }
  }

  function Blank(s: Scanout): Scanout { Scanout(0, s.rect.(width := 0, height := 0)) }

  /** The scanouts with those from `k` on that show the resource blanked. */
  function Cleared(ss: seq<Scanout>, id: u32, k: nat): (r: seq<Scanout>)
    ensures |r| == |ss|
    ensures forall m :: 0 <= m < |ss| ==> r[m] == if m >= k && ss[m].resource == id then Blank(ss[m]) else ss[m]
  {
    seq(|ss|, m requires 0 <= m < |ss| => if m >= k && ss[m].resource == id then Blank(ss[m]) else ss[m])
  }

  lemma {:induction false} ShownUpdate(ss: seq<Scanout>, k: nat, s: Scanout, id: u32)
    requires k < |ss|
    ensures Shown(ss[k := s], id) == Shown(ss, id) - {k} + (if s.resource == id then {k} else {})
  {
  }

  lemma {:induction false} DisableOne(g: Device, i: nat, k: nat)
    requires UniqueIds(g.resources) && i < |g.resources| && k < |g.scanouts|
    requires g.scanouts[k].resource == g.resources[i].id
    ensures DisableScanout(g, k) == Device(g.resources[i := g.resources[i].(bits := g.resources[i].bits - {k})],
                                           g.scanouts[k := Blank(g.scanouts[k])], g.hostmem)
  {
    FindUnique(g.resources, i);
  }

  /** The destroy loop in closed form: exactly the scanouts that show the resource are blanked. */
  lemma {:induction false} DisableAllMeans(g: Device, i: nat, k: nat)
    requires UniqueIds(g.resources) && i < |g.resources| && k <= |g.scanouts|
    requires g.resources[i].bits == Shown(g.scanouts, g.resources[i].id)
    ensures var ss := Cleared(g.scanouts, g.resources[i].id, k);
            DisableAll(g, i, k)
            == Device(g.resources[i := g.resources[i].(bits := Shown(ss, g.resources[i].id))], ss, g.hostmem)
    decreases |g.scanouts| - k
  {
    var id := g.resources[i].id;
    var ss := Cleared(g.scanouts, id, k);
    if k == |g.scanouts| {
      assert ss == g.scanouts;
      assert g.resources[i := g.resources[i]] == g.resources;
    } else if k in g.resources[i].bits {
      DisableOne(g, i, k);
      var d := DisableScanout(g, k);
      ShownUpdate(g.scanouts, k, Blank(g.scanouts[k]), id);
      DisableAllMeans(d, i, k + 1);
      assert ss == Cleared(d.scanouts, id, k + 1);
      assert d.resources[i := d.resources[i].(bits := Shown(ss, id))]
          == g.resources[i := g.resources[i].(bits := Shown(ss, id))];
    } else {
      assert ss == Cleared(g.scanouts, id, k + 1);
      DisableAllMeans(g, i, k + 1);
    }
  }

  lemma {:induction false} WithoutUnique(rs: seq<Resource>, i: nat)
    requires i < |rs| && UniqueIds(rs) && SizesRight(rs)
    ensures UniqueIds(Without(rs, i)) && SizesRight(Without(rs, i))
  {
  }

  /** The other resources keep their bits and their scanouts. */
  lemma {:induction false} ClearedBound(rs: seq<Resource>, ss: seq<Scanout>, i: nat)
    requires i < |rs| && UniqueIds(rs) && Bound(rs, ss) && NoDangling(rs, ss)
    ensures Bound(Without(rs, i), Cleared(ss, rs[i].id, 0)) && NoDangling(Without(rs, i), Cleared(ss, rs[i].id, 0))
  {
    var r, cs := Without(rs, i), Cleared(ss, rs[i].id, 0);
    forall j | 0 <= j < |r| ensures r[j].bits == Shown(cs, r[j].id) {
      var o := if j < i then j else j + 1;
      assert r[j] == rs[o] && rs[o].id != rs[i].id && rs[o].id != 0;
      assert Shown(cs, rs[o].id) == Shown(ss, rs[o].id);
    }
    forall k | 0 <= k < |cs| && cs[k].resource != 0 ensures Find(r, cs[k].resource) < |r| {
      var j := Find(rs, ss[k].resource);
      assert r[if j < i then j else j - 1] == rs[j];
    }
  }

  lemma {:induction false} MemoryHeld(g: Device, i: nat)
    requires g.hostmem == Total(g.resources) < MAX_HOSTMEM && i < |g.resources|
    ensures g.resources[i].hostmem <= g.hostmem
    ensures (g.hostmem - g.resources[i].hostmem) % Ranges.TWO64 == Total(Without(g.resources, i))
    ensures Total(Without(g.resources, i)) == g.hostmem - g.resources[i].hostmem
  {
    TotalWithout(g.resources, i);
    SmallMod(g.hostmem - g.resources[i].hostmem);
  }

  lemma {:induction false} SmallMod(x: nat)
    requires x < MAX_HOSTMEM
    ensures x % Ranges.TWO64 == x
  {}

  /** Destroying a resource removes exactly it, blanks exactly the scanouts that show it and
      gives back exactly its memory. */
  lemma {:induction false} DestroyMeans(g: Device, i: nat)
    requires Inv(g) && i < |g.resources|
    ensures g.resources[i].hostmem <= g.hostmem
    ensures Destroy(g, i) == Device(Without(g.resources, i), Cleared(g.scanouts, g.resources[i].id, 0),
                                    g.hostmem - g.resources[i].hostmem)
  {
    DisableAllMeans(g, i, 0);
    var e := DisableAll(g, i, 0);
    assert Without(e.resources, i) == Without(g.resources, i);
    MemoryHeld(g, i);
  }

  lemma {:induction false} DestroyKeeps(g: Device, i: nat)
    requires Inv(g) && i < |g.resources|
    ensures Inv(Destroy(g, i)) && Shown(Destroy(g, i).scanouts, g.resources[i].id) == {}
  {
    DestroyMeans(g, i);
    MemoryHeld(g, i);
    WithoutUnique(g.resources, i);
    ClearedBound(g.resources, g.scanouts, i);
  }

  /** Binding moves bit `k` from wherever it was to resource `i`, and nothing else. */
  lemma {:induction false} UpdateMeans(g: Device, k: nat, i: nat, rect: Rect)
    requires Inv(g) && k < |g.scanouts| && i < |g.resources|
    ensures var d := UpdateScanout(g, k, i, rect);
            && |d.resources| == |g.resources| && d.hostmem == g.hostmem
            && d.scanouts == g.scanouts[k := Scanout(g.resources[i].id, rect)]
            && forall j :: 0 <= j < |g.resources| ==>
                 d.resources[j] == g.resources[j].(bits := g.resources[j].bits - {k} + (if j == i then {k} else {}))
  {
    var o := Find(g.resources, g.scanouts[k].resource);
    var d := UpdateScanout(g, k, i, rect);
    forall j | 0 <= j < |g.resources|
      ensures d.resources[j] == g.resources[j].(bits := g.resources[j].bits - {k} + (if j == i then {k} else {}))
    {
      if j != o {
        FindUnique(g.resources, j);
        assert k !in g.resources[j].bits;
        assert g.resources[j].bits - {k} == g.resources[j].bits;
      }
    }
  }

  lemma {:induction false} UpdateBinds(g: Device, k: nat, i: nat, rect: Rect)
    requires Inv(g) && k < |g.scanouts| && i < |g.resources|
    ensures var d := UpdateScanout(g, k, i, rect); Bound(d.resources, d.scanouts)
  {
    var d := UpdateScanout(g, k, i, rect);
    UpdateMeans(g, k, i, rect);
    forall j | 0 <= j < |d.resources| ensures d.resources[j].bits == Shown(d.scanouts, d.resources[j].id) {
      ShownUpdate(g.scanouts, k, d.scanouts[k], g.resources[j].id);
      FindUnique(g.resources, j);
      FindUnique(g.resources, i);
    }
  }

  lemma {:induction false} UpdateKeeps(g: Device, k: nat, i: nat, rect: Rect)
    requires Inv(g) && k < |g.scanouts| && i < |g.resources|
    ensures Inv(UpdateScanout(g, k, i, rect))
  {
    var d := UpdateScanout(g, k, i, rect);
    UpdateBinds(g, k, i, rect);
    UpdateMeans(g, k, i, rect);
    SameAccount(g.resources, d.resources);
    FindUnique(g.resources, i);
    assert NoDangling(d.resources, d.scanouts);
    assert UniqueIds(d.resources) && SizesRight(d.resources);
  }

  lemma {:induction false} CreateKeeps(g: Device, c: Command)
    requires Inv(g) && c.Create2d?
    ensures Inv(Serve(g, c).0)
  {
    var d := Serve(g, c).0;
    if d != g {
      assert d.resources[1..] == g.resources;
      assert forall j :: 0 < j < |d.resources| ==> d.resources[j] == g.resources[j - 1];
      forall k | 0 <= k < |g.scanouts| ensures g.scanouts[k].resource != c.id {
        assert Find(g.resources, c.id) == |g.resources|;
      }
    }
  }

  /** A change that leaves id, size and bits of every resource alone. */
  lemma {:induction false} TouchKeeps(g: Device, i: nat, r: Resource)
    requires Inv(g) && i < |g.resources|
    requires r == g.resources[i].(backed := r.backed, transfer := r.transfer, transferOffset := r.transferOffset)
    ensures Inv(g.(resources := g.resources[i := r]))
  {
    SameAccount(g.resources, g.resources[i := r]);
  }

  lemma {:induction false} ServeKeeps(g: Device, c: Command)
    requires Inv(g)
    ensures Inv(Serve(g, c).0)
  {
    var i := if c.Other? then 0 else Find(g.resources, c.id);
    match c
    case Create2d(_, _, _) => CreateKeeps(g, c);
    case Unref(_) => if i < |g.resources| { DestroyKeeps(g, i); }
    case SetScanout(k, _, rect) => if k < |g.scanouts| && i < |g.resources| { UpdateKeeps(g, k, i, rect); }
    case Attach(_, entries, _) => if i < |g.resources| { TouchKeeps(g, i, g.resources[i].(backed := entries > 0)); }
    case Detach(_) => if i < |g.resources| { TouchKeeps(g, i, g.resources[i].(backed := false)); }
    case Transfer(_, rect, offset) =>
      if i < |g.resources| { TouchKeeps(g, i, g.resources[i].(transfer := rect, transferOffset := offset)); }
    case Other =>
  }

  function Machine(): (Device, Command) -> Option<Device> {
    (g, c) => Some(Serve(g, c).0)
  }

  /** Initially nothing is bound. */
  predicate Init(g: Device) {
    g.resources == [] && g.hostmem == 0 && forall k :: 0 <= k < |g.scanouts| ==> g.scanouts[k].resource == 0
  }

  /** Over every run of commands, for any number of scanouts: ids are unique and non-zero,
      the account is the sum over the live resources and below the cap, and bits and
      scanouts agree, so no scanout dangles. */
  lemma {:induction false} BookkeepingOverAllRuns(g: Device, commands: seq<Command>)
    requires Init(g) && Exec(Machine(), g, commands).Some?
    ensures Inv(Exec(Machine(), g, commands).value)
  {
    forall d, c | Inv(d) && Machine()(d, c).Some? ensures Inv(Machine()(d, c).value) {
      ServeKeeps(d, c);
    }
    Invariant(Machine(), Inv, g, commands);
  }

  /** Over every run, wherever the code divides the size of a resource by its height, it has
      rows: a resource that passes virtio_gpu_check_resource is one. */
  lemma {:induction false} StrideDefined(g: Device, commands: seq<Command>, id: u32)
    requires Init(g) && Exec(Machine(), g, commands).Some?
    ensures var d := Exec(Machine(), g, commands).value;
            var (i, resp) := CheckResource(d, id);
            resp == Ok ==> i < |d.resources| && d.resources[i].height > 0
  {
    BookkeepingOverAllRuns(g, commands);
    var d := Exec(Machine(), g, commands).value;
    var i := Find(d.resources, id);
    if i < |d.resources| && d.resources[i].height == 0 { NoRows(d.resources[i].width); }
  }

  lemma {:induction false} NoRows(width: u32)
    ensures ImageSize(width, 0) == 0
  {}

  // ------------------------------------------------------------------ the answers

  /** Creation with a fresh id is always answered as a success, and the resource exists
      afterwards exactly if it stays below the host memory cap. */
  lemma {:induction false} CreateExact(g: Device, id: u32, width: u32, height: u32)
    requires id != 0 && Find(g.resources, id) == |g.resources|
    ensures var (d, resp) := Serve(g, Create2d(id, width, height));
            && resp == Ok
            && (Find(d.resources, id) < |d.resources| <==> ImageSize(width, height) + g.hostmem < MAX_HOSTMEM)
            && (Find(d.resources, id) == |d.resources| ==> d == g)
  {
    assert Fresh(Create2d(id, width, height)).hostmem == ImageSize(width, height);
  }

  /** An image of exactly the cap on an empty device: answered as a success, and not created. */
  lemma {:induction false} CreateAtCap(scanouts: seq<Scanout>)
    ensures var g := Device([], scanouts, 0);
            ImageSize(16384, 8192) == MAX_HOSTMEM && Serve(g, Create2d(1, 16384, 8192)) == (g, Ok)
  {
  }

  /** A display rectangle outside its resource that the code accepts, on a device the guest can
      bring about: both the size of the resource and the sum of the rectangle wrap. */
  lemma {:induction false} RectOutside(rect: Rect)
    ensures var g := Device([], [Scanout(0, rect)], 0);
            var g1 := Serve(g, Create2d(1, 0x8000_0001, 16)).0;
            var g2 := Serve(g1, Attach(1, 1, true)).0;
            var r := Rect(0x8000_0000, 0, 0x8000_0000, 16);
            && Serve(g2, SetScanout(0, 1, r)).1 == Ok
            && |g2.resources| == 1 && !Within(r, g2.resources[0])
  {
    var g := Device([], [Scanout(0, rect)], 0);
    assert ImageSize(0x8000_0001, 16) == 64;
    var g1 := Serve(g, Create2d(1, 0x8000_0001, 16)).0;
    assert g1.resources == [Fresh(Create2d(1, 0x8000_0001, 16))];
    var g2 := Serve(g1, Attach(1, 1, true)).0;
    assert g2.resources == [g1.resources[0].(backed := true)];
    RectExact(Rect(0x8000_0000, 0, 0x8000_0000, 16), g2.resources[0]);
  }

  // ------------------------------------------------------------------ device reset

  const BLANK := Scanout(0, Rect(0, 0, 0, 0))

  /** virtio_gpu_reset clears the scanouts and leaves the resources alone. */
  function Reset(g: Device): Device {
    g.(scanouts := seq(|g.scanouts|, _ => BLANK))
  }

  lemma {:induction false} BlankShowsNothing(n: nat, id: u32)
    requires id != 0
    ensures Shown(seq(n, _ => BLANK), id) == {}
  {}

  /** Device reset keeps the bookkeeping exactly when no scanout was showing anything. */
  lemma {:induction false} ResetExact(g: Device)
    requires Inv(g)
    ensures Inv(Reset(g)) <==> forall k :: 0 <= k < |g.scanouts| ==> g.scanouts[k].resource == 0
  {
    var rs, blank := g.resources, Reset(g).scanouts;
    forall i | 0 <= i < |rs| ensures Shown(blank, rs[i].id) == {} { BlankShowsNothing(|g.scanouts|, rs[i].id); }
    if k :| 0 <= k < |g.scanouts| && g.scanouts[k].resource != 0 {
      var i := Find(rs, g.scanouts[k].resource);
      assert k in Shown(g.scanouts, rs[i].id);
      assert rs[i].bits != Shown(blank, rs[i].id);
    } else {
      forall i | 0 <= i < |rs| ensures rs[i].bits == {} { assert Shown(g.scanouts, rs[i].id) == {}; }
    }
  }

  lemma {:induction false} NothingToDisable(g: Device, i: nat, k: nat)
    requires i < |g.resources| && k <= |g.scanouts| && g.resources[i].bits == {}
    ensures DisableAll(g, i, k) == g
    decreases |g.scanouts| - k
  {
    if k < |g.scanouts| { NothingToDisable(g, i, k + 1); }
  }

  // ------------------------------------------------------------------ what each command does

  /** What a guest knows of a resource. */
  datatype Entry = Entry(width: u32, height: u32, backed: bool, transfer: Rect, offset: nat)

  function EntryOf(r: Resource): Entry { Entry(r.width, r.height, r.backed, r.transfer, r.transferOffset) }

  /** The resource with an id. */
  function Lookup(rs: seq<Resource>, id: u32): Option<Entry> {
    var i := Find(rs, id);
    if i < |rs| then Some(EntryOf(rs[i])) else None
  }

  /** The resource with the id is now `e`, and no other has changed. */
  ghost predicate Changed(a: seq<Resource>, b: seq<Resource>, id: u32, e: Option<Entry>) {
    Lookup(b, id) == e && forall x: u32 :: x != id ==> Lookup(b, x) == Lookup(a, x)
  }

  /** Backed, and of a size other than 0. */
  predicate Usable(e: Option<Entry>) {
    e.Some? && e.value.backed && ImageSize(e.value.width, e.value.height) != 0
  }

  /** What every command on an existing resource answers: success exactly if `ok`, and otherwise
      that there is none, or `error`; an error changes nothing. */
  predicate Answers(g: Device, d: Device, resp: Response, e: Option<Entry>, ok: bool, error: Response) {
    && (ok ==> e.Some?) && (resp != Ok ==> d == g)
    && resp == if e.None? then InvalidResource else if ok then Ok else error
  }

  lemma {:induction false} LookupAt(rs: seq<Resource>, i: nat)
    requires UniqueIds(rs) && i < |rs|
    ensures Lookup(rs, rs[i].id) == Some(EntryOf(rs[i]))
  {
    FindUnique(rs, i);
  }

  lemma {:induction false} LookupUpdate(rs: seq<Resource>, i: nat, r: Resource)
    requires UniqueIds(rs) && i < |rs| && r.id == rs[i].id
    ensures Changed(rs, rs[i := r], r.id, Some(EntryOf(r)))
  {
    var b := rs[i := r];
    assert UniqueIds(b) && b[i] == r;
    LookupAt(b, i);
    forall x: u32 | x != r.id ensures Lookup(b, x) == Lookup(rs, x) {
      var j := Find(rs, x);
      if j < |rs| {
        assert b[j] == rs[j];
        LookupAt(b, j);
      }
    }
  }

  lemma {:induction false} CheckMeans(g: Device, id: u32)
    requires Inv(g)
    ensures var (i, resp), e := CheckResource(g, id), Lookup(g.resources, id);
            && i == Find(g.resources, id) && (i < |g.resources| <==> e.Some?)
            && resp == if e.None? then InvalidResource else if Usable(e) then Ok else Unspec
  {
  }

  /** A detached resource is no longer backed. */
  lemma {:induction false} DetachMeans(g: Device, id: u32)
    requires Inv(g)
    ensures var (d, resp), e := Serve(g, Detach(id)), Lookup(g.resources, id);
            && Answers(g, d, resp, e, Usable(e), Unspec) && d.scanouts == g.scanouts
            && (resp == Ok ==> Changed(g.resources, d.resources, id, Some(e.value.(backed := false))))
  {
    CheckMeans(g, id);
    var i := Find(g.resources, id);
    if i < |g.resources| { LookupUpdate(g.resources, i, g.resources[i].(backed := false)); }
  }

  /** Memory is attached exactly once; an empty list of entries attaches nothing. */
  lemma {:induction false} AttachMeans(g: Device, id: u32, entries: nat, mapped: bool)
    requires Inv(g)
    ensures var (d, resp), e := Serve(g, Attach(id, entries, mapped)), Lookup(g.resources, id);
            && Answers(g, d, resp, e, e.Some? && !e.value.backed && entries <= 16384 && mapped, Unspec)
            && d.scanouts == g.scanouts
            && (resp == Ok ==> Changed(g.resources, d.resources, id, Some(e.value.(backed := entries > 0))))
  {
    var i := Find(g.resources, id);
    if i < |g.resources| { LookupUpdate(g.resources, i, g.resources[i].(backed := entries > 0)); }
  }

  /** A transfer is remembered with its rectangle and offset, or refused as invalid exactly when
      one of its directions does not pass. */
  lemma {:induction false} TransferMeans(g: Device, id: u32, rect: Rect, offset: nat)
    requires Inv(g)
    ensures var (d, resp), e := Serve(g, Transfer(id, rect, offset)), Lookup(g.resources, id);
            var fits := e.Some? && Passes(rect.x, rect.width, e.value.width)
                        && Passes(rect.y, rect.height, e.value.height);
            && Answers(g, d, resp, e, Usable(e) && fits, if Usable(e) then InvalidParameter else Unspec)
            && d.scanouts == g.scanouts
            && (resp == Ok ==>
                  Changed(g.resources, d.resources, id, Some(e.value.(transfer := rect, offset := offset))))
  {
    CheckMeans(g, id);
    var i := Find(g.resources, id);
    if i < |g.resources| {
      TransferExact(rect, g.resources[i]);
      LookupUpdate(g.resources, i, g.resources[i].(transfer := rect, transferOffset := offset));
    }
  }

  /** Two lists that differ only in the scanout bits tell a guest the same. */
  lemma {:induction false} SameLookup(a: seq<Resource>, b: seq<Resource>, x: u32)
    requires UniqueIds(a) && |a| == |b| && forall j :: 0 <= j < |a| ==> b[j] == a[j].(bits := b[j].bits)
    ensures Lookup(b, x) == Lookup(a, x)
  {
    assert UniqueIds(b);
    var j := Find(a, x);
    if j < |a| { LookupAt(b, j); }
  }

  /** A scanout shows the rectangle of the resource asked for, and no other scanout and no
      resource changes; a rectangle is refused as invalid exactly when it is not displayable. */
  lemma {:induction false} SetScanoutMeans(g: Device, k: nat, id: u32, rect: Rect)
    requires Inv(g)
    ensures var (d, resp), e := Serve(g, SetScanout(k, id, rect)), Lookup(g.resources, id);
            if k >= |g.scanouts| then resp == InvalidScanout && d == g
            else
              && Answers(g, d, resp, e, Usable(e) && Displayable(rect, e.value.width, e.value.height),
                         if Usable(e) then InvalidParameter else Unspec)
              && (resp == Ok ==> d.scanouts == g.scanouts[k := Scanout(id, rect)])
              && forall x: u32 :: Lookup(d.resources, x) == Lookup(g.resources, x)
  {
    CheckMeans(g, id);
    var i := Find(g.resources, id);
    var d := Serve(g, SetScanout(k, id, rect)).0;
    if k < |g.scanouts| && i < |g.resources| {
      RectExact(rect, g.resources[i]);
      UpdateMeans(g, k, i, rect);
      forall x: u32 ensures Lookup(d.resources, x) == Lookup(g.resources, x) {
        SameLookup(g.resources, d.resources, x);
      }
    }
  }

  /** An unreferenced resource is gone, and every scanout that showed it is blank. */
  lemma {:induction false} UnrefMeans(g: Device, id: u32)
    requires Inv(g)
    ensures var (d, resp), e := Serve(g, Unref(id)), Lookup(g.resources, id);
            && Answers(g, d, resp, e, e.Some?, Unspec)
            && (resp == Ok ==>
                  && Changed(g.resources, d.resources, id, None) && |d.scanouts| == |g.scanouts|
                  && forall m :: 0 <= m < |g.scanouts| ==>
                       d.scanouts[m] == if g.scanouts[m].resource == id then Blank(g.scanouts[m]) else g.scanouts[m])
  {
    var i := Find(g.resources, id);
    if i < |g.resources| {
      DestroyMeans(g, i);
      LookupWithout(g.resources, i);
    }
  }

  lemma {:induction false} LookupWithout(rs: seq<Resource>, i: nat)
    requires UniqueIds(rs) && i < |rs|
    ensures Changed(rs, Without(rs, i), rs[i].id, None)
  {
    var b := Without(rs, i);
    assert UniqueIds(b);
    forall x: u32 | x != rs[i].id ensures Lookup(b, x) == Lookup(rs, x) {
      var j := Find(rs, x);
      if j < |rs| {
        var m := if j < i then j else j - 1;
        assert b[m] == rs[j];
        LookupAt(b, m);
      }
    }
  }

  /** A created resource is not backed; a creation under a used id or id 0 is refused. */
  lemma {:induction false} CreateMeans(g: Device, id: u32, width: u32, height: u32)
    requires Inv(g)
    ensures var (d, resp), e := Serve(g, Create2d(id, width, height)), Lookup(g.resources, id);
            && resp == (if id == 0 || e.Some? then InvalidResource else Ok) && d.scanouts == g.scanouts
            && if resp == Ok && ImageSize(width, height) + g.hostmem < MAX_HOSTMEM
               then Changed(g.resources, d.resources, id, Some(Entry(width, height, false, Rect(0, 0, 0, 0), 0)))
               else d == g
  {
    var d := Serve(g, Create2d(id, width, height)).0;
    if d != g {
      forall x: u32 | x != id ensures Lookup(d.resources, x) == Lookup(g.resources, x) {
        assert d.resources[1..] == g.resources;
      }
    }
  }

  // ------------------------------------------------------------------ the code

  class GpuDev {
    var resources: seq<Resource>
    var scanouts: seq<Scanout>
    var hostmem: nat

    function Contents(): Device
      reads this
    {
      Device(resources, scanouts, hostmem)
    }

    /** init_gpu_dev; `rects` are the default sizes of the scanouts. */
    constructor (rects: seq<Rect>)
      ensures Init(Contents()) && |scanouts| == |rects|
      ensures forall k :: 0 <= k < |rects| ==> scanouts[k].rect == rects[k]
    {
      resources, hostmem := [], 0;
      scanouts := seq(|rects|, k requires 0 <= k < |rects| => Scanout(0, rects[k]));
    }

    /** virtio_gpu_find_resource. */
    method FindResource(id: u32) returns (i: nat)
      ensures i == Find(resources, id)
    {
      i := 0;
      while i < |resources|
        invariant 0 <= i <= |resources|
        invariant forall k :: 0 <= k < i ==> resources[k].id != id
      {
        if resources[i].id == id { return; }
        i := i + 1;
      }
    }

    /** virtio_gpu_check_resource. */
    method Checked(id: u32) returns (i: nat, resp: Response)
      ensures (i, resp) == CheckResource(Contents(), id)
    {
      i := FindResource(id);
      if i == |resources| { return i, InvalidResource; }
      if !resources[i].backed || resources[i].hostmem == 0 { return i, Unspec; }
      resp := Ok;
    }

    /** virtio_gpu_disable_scanout. */
    method Disable(k: nat)
      requires k < |scanouts|
      modifies this
      ensures Contents() == DisableScanout(old(Contents()), k)
    {
      var s := scanouts[k];
      if s.resource == 0 { return; }
      var i := FindResource(s.resource);
      if i < |resources| {
        resources := resources[i := resources[i].(bits := resources[i].bits - {k})];
      }
      scanouts := scanouts[k := Scanout(0, s.rect.(width := 0, height := 0))];
    }

    /** virtio_gpu_resource_destory. */
    method DestroyResource(i: nat)
      requires i < |resources|
      modifies this
      ensures Contents() == Destroy(old(Contents()), i)
    {
      if resources[i].bits != {} {
        var k := 0;
        while k < |scanouts|
          invariant 0 <= k <= |scanouts| == old(|scanouts|) && |resources| == old(|resources|)
          invariant DisableAll(Contents(), i, k) == DisableAll(old(Contents()), i, 0)
        {
          if k in resources[i].bits { Disable(k); }
          k := k + 1;
        }
      } else {
        NothingToDisable(Contents(), i, 0);
      }
      hostmem := (hostmem - resources[i].hostmem) % Ranges.TWO64;
      resources := resources[..i] + resources[i + 1..];
    }

    /** virtio_gpu_resource_create_2d. */
    method Create(id: u32, width: u32, height: u32) returns (resp: Response)
      modifies this
      ensures (Contents(), resp) == Serve(old(Contents()), Create2d(id, width, height))
    {
      if id == 0 { return InvalidResource; }
      var i := FindResource(id);
      if i < |resources| { return InvalidResource; }
      var res := Resource(id, width, height, ImageSize(width, height), {}, false, Rect(0, 0, 0, 0), 0);
      if res.hostmem + hostmem >= MAX_HOSTMEM { return Ok; }
      resources := [res] + resources;
      hostmem := hostmem + res.hostmem;
      resp := Ok;
    }

    /** virtio_gpu_resource_unref. */
    method UnrefResource(id: u32) returns (resp: Response)
      modifies this
      ensures (Contents(), resp) == Serve(old(Contents()), Unref(id))
    {
      var i := FindResource(id);
      if i == |resources| { return InvalidResource; }
      DestroyResource(i);
      resp := Ok;
    }

    /** virtio_gpu_resource_attach_backing. */
    method AttachBacking(id: u32, entries: nat, mapped: bool) returns (resp: Response)
      modifies this
      ensures (Contents(), resp) == Serve(old(Contents()), Attach(id, entries, mapped))
    {
      var i := FindResource(id);
      if i == |resources| { return InvalidResource; }
      if resources[i].backed { return Unspec; }
      if entries > 16384 || !mapped { return Unspec; }
      resources := resources[i := resources[i].(backed := entries > 0)];
      resp := Ok;
    }

    /** virtio_gpu_resource_detach_backing. */
    method DetachBacking(id: u32) returns (resp: Response)
      modifies this
      ensures (Contents(), resp) == Serve(old(Contents()), Detach(id))
    {
      var i;
      i, resp := Checked(id);
      if resp != Ok { return; }
      resources := resources[i := resources[i].(backed := false)];
    }

    /** virtio_gpu_set_scanout with virtio_gpu_do_set_scanout and virtio_gpu_update_scanout. */
    method BindScanout(k: nat, id: u32, rect: Rect) returns (resp: Response)
      modifies this
      ensures (Contents(), resp) == Serve(old(Contents()), SetScanout(k, id, rect))
    {
      if k >= |scanouts| { return InvalidScanout; }
      var i;
      i, resp := Checked(id);
      if resp != Ok { return; }
      if RectRefused(rect, resources[i]) { return InvalidParameter; }
      var o := FindResource(scanouts[k].resource);
      if o < |resources| {
        resources := resources[o := resources[o].(bits := resources[o].bits - {k})];
      }
      resources := resources[i := resources[i].(bits := resources[i].bits + {k})];
      scanouts := scanouts[k := Scanout(resources[i].id, rect)];
    }

    /** virtio_gpu_transfer_to_host_2d. */
    method TransferToHost(id: u32, rect: Rect, offset: nat) returns (resp: Response)
      modifies this
      ensures (Contents(), resp) == Serve(old(Contents()), Transfer(id, rect, offset))
    {
      var i;
      i, resp := Checked(id);
      if resp != Ok { return; }
      if TransferRefused(rect, resources[i]) { return InvalidParameter; }
      resources := resources[i := resources[i].(transfer := rect, transferOffset := offset)];
    }

    /** virtio_gpu_reset. */
    method ResetScanouts()
      modifies this
      ensures Contents() == Reset(old(Contents()))
    {
      var i := 0;
      while i < |scanouts|
        invariant 0 <= i <= |scanouts| == old(|scanouts|) && resources == old(resources) && hostmem == old(hostmem)
        invariant forall k :: 0 <= k < i ==> scanouts[k] == BLANK
      {
        scanouts := scanouts[i := BLANK];
        i := i + 1;
      }
    }
  }
}
