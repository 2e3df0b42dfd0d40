/** The published device table (vdevs in tools/virtio/virtio.c): validation of a
    start or add request, creation of its devices with arbitrary failures,
    all-or-nothing publication, and routing of an access to a device. */
module DeviceTable {
  import opened Runs
  import opened Ranges

  const MAX_DEVS: nat := 8

  /** A device object; `id` is its identity, the order in which it was allocated. */
  datatype Device = Device(id: nat, zone: nat, base: u64, len: u64)

  datatype DeviceConfig = DeviceConfig(zone: nat, addr: u64, len: u64, enabled: bool)

  datatype ZoneConfig = ZoneConfig(devices: seq<DeviceConfig>)

  /** What create_virtio_device_unpublished can do: reject the type or run out of memory
      before there is an object, allocate and close it again, or return it. */
  datatype Outcome = NotAllocated | InitFailed | Ready

  /** A whole start or add request. `mapped` is the result of mapping the zone memory,
      `outcomes` are those of the device initialisations, in order. */
  datatype Request = Request(zones: seq<ZoneConfig>, mapped: bool, outcomes: nat -> Outcome)

  /** The table, with the number of devices ever allocated and those closed again. */
  datatype Table = Table(devs: seq<Device>, made: nat, closed: multiset<nat>)

  // ------------------------------------------------------------------ specification

  function EnabledOf(ds: seq<DeviceConfig>): (r: seq<DeviceConfig>) {
    if ds == [] then []
    else EnabledOf(ds[..|ds| - 1]) + (if ds[|ds| - 1].enabled then [ds[|ds| - 1]] else [])
  }

  /** The enabled devices of a request in the order in which the code visits them. */
  function Enabled(zones: seq<ZoneConfig>): (r: seq<DeviceConfig>) {
    if zones == [] then []
    else Enabled(zones[..|zones| - 1]) + EnabledOf(zones[|zones| - 1].devices)
  }

  predicate Clash(c: DeviceConfig, zone: nat, base: u64, len: u64) {
    c.zone == zone && RangesOverlap(c.addr, c.len, base, len)
  }

  predicate ClashesTable(c: DeviceConfig, devs: seq<Device>) {
    exists d :: d in devs && Clash(c, d.zone, d.base, d.len)
  }

  predicate ClashesConfig(c: DeviceConfig, earlier: seq<DeviceConfig>) {
    exists e :: e in earlier && Clash(c, e.zone, e.addr, e.len)
  }

  /** The request fits the table: enough room, and no overlap with the table or within
      the request. */
  predicate Acceptable(devs: seq<Device>, news: seq<DeviceConfig>) {
    && |devs| + |news| <= MAX_DEVS
    && forall i :: 0 <= i < |news| ==> !ClashesTable(news[i], devs) && !ClashesConfig(news[i], news[..i])
  }

  datatype Built = Built(devs: seq<Device>, made: nat, ok: bool)

  /** Creation of the devices, `count` of which exist already, up to the first failure. */
  function Build(news: seq<DeviceConfig>, outcomes: nat -> Outcome, count: nat, made: nat): (r: Built)
    ensures r.made >= made
  {
    if news == [] then Built([], made, true)
    else match outcomes(count)
      case NotAllocated => Built([], made, false)
      case InitFailed => Built([], made + 1, false)
      case Ready =>
        if count >= MAX_DEVS then Built([], made + 1, false)
        else
          var c := news[0];
          var r := Build(news[1..], outcomes, count + 1, made + 1);
          r.(devs := [Device(made, c.zone, c.addr, c.len)] + r.devs)
  }

  function IdRange(lo: nat, hi: nat): (r: multiset<nat>)
    requires lo <= hi
    decreases hi - lo
  {
    if lo == hi then multiset{} else multiset{lo} + IdRange(lo + 1, hi)
  }

  /** create_virtio_config_devices: publish everything or close everything. */
  function Create(t: Table, news: seq<DeviceConfig>, outcomes: nat -> Outcome): (r: (Table, bool)) {
    var b := Build(news, outcomes, 0, t.made);
    if b.ok && |b.devs| <= MAX_DEVS - |t.devs| then
      (Table(t.devs + b.devs, b.made, t.closed), true)
    else
      (Table(t.devs, b.made, t.closed + IdRange(t.made, b.made)), false)
  }

  /** virtio_start_from_json after parsing: the new table and whether it succeeded. */
  function Serve(t: Table, req: Request): (r: (Table, bool)) {
    var news := Enabled(req.zones);
    if !Acceptable(t.devs, news) || !req.mapped then (t, false) else Create(t, news, req.outcomes)
  }

  // ------------------------------------------------------------------ invariant over all request sequences

  function IdList(devs: seq<Device>): (r: seq<nat>) {
    seq(|devs|, i requires 0 <= i < |devs| => devs[i].id)
  }

  function Ids(devs: seq<Device>): (r: multiset<nat>) {
    multiset(IdList(devs))
  }

  predicate Apart(devs: seq<Device>) {
    forall i, j :: 0 <= i < j < |devs| && devs[i].zone == devs[j].zone ==>
      !RangesOverlap(devs[i].base, devs[i].len, devs[j].base, devs[j].len)
  }

  /** Every allocated device is in the table or closed, once. */
  ghost predicate Accounted(t: Table) {
    Ids(t.devs) + t.closed == IdRange(0, t.made)
  }

  ghost predicate Inv(t: Table) {
    |t.devs| <= MAX_DEVS && Apart(t.devs) && Accounted(t)
  }

  lemma {:induction false} IdRangeSplit(lo: nat, mid: nat, hi: nat)
    requires lo <= mid <= hi
    ensures IdRange(lo, hi) == IdRange(lo, mid) + IdRange(mid, hi)
    decreases mid - lo
  {
    if lo < mid { IdRangeSplit(lo + 1, mid, hi); }
  }

  lemma {:induction false} IdsConcat(a: seq<Device>, b: seq<Device>)
    ensures Ids(a + b) == Ids(a) + Ids(b)
  {
    assert IdList(a + b) == IdList(a) + IdList(b);
  }

  lemma {:induction false} IdsOne(d: Device)
    ensures Ids([d]) == multiset{d.id}
  {
    assert IdList([d]) == [d.id];
  }

  lemma {:induction false} BuildEach(news: seq<DeviceConfig>, outcomes: nat -> Outcome, count: nat, made: nat)
    ensures var b := Build(news, outcomes, count, made);
            && |b.devs| <= |news| && (b.ok ==> |b.devs| == |news|)
            && forall i :: 0 <= i < |b.devs| ==> b.devs[i] == Device(made + i, news[i].zone, news[i].addr, news[i].len)
    decreases news
  {
    if news != [] && outcomes(count) == Ready && count < MAX_DEVS {
      BuildEach(news[1..], outcomes, count + 1, made + 1);
      var b := Build(news, outcomes, count, made);
      var rest := Build(news[1..], outcomes, count + 1, made + 1);
      forall i | 0 <= i < |b.devs| ensures b.devs[i] == Device(made + i, news[i].zone, news[i].addr, news[i].len) {
        if i > 0 { assert b.devs[i] == rest.devs[i - 1] && news[1..][i - 1] == news[i]; }
      }
    }
  }

  lemma {:induction false} PrependIds(d: Device, rest: seq<Device>, hi: nat)
    requires d.id < hi && Ids(rest) == IdRange(d.id + 1, hi)
    ensures Ids([d] + rest) == IdRange(d.id, hi)
  {
    IdsConcat([d], rest);
    IdsOne(d);
  }

  lemma {:induction false} BuildIds(news: seq<DeviceConfig>, outcomes: nat -> Outcome, count: nat, made: nat)
    ensures var b := Build(news, outcomes, count, made); b.ok ==> Ids(b.devs) == IdRange(made, b.made)
    decreases news
  {
    if news == [] {
      assert IdList([]) == [];
    } else if outcomes(count) == Ready && count < MAX_DEVS {
      BuildIds(news[1..], outcomes, count + 1, made + 1);
      var rest := Build(news[1..], outcomes, count + 1, made + 1);
      if rest.ok { PrependIds(Device(made, news[0].zone, news[0].addr, news[0].len), rest.devs, rest.made); }
    }
  }

  /** A successful creation makes one device per configuration, with fresh identities. */
  lemma {:induction false} BuildDevices(news: seq<DeviceConfig>, outcomes: nat -> Outcome, count: nat, made: nat)
    ensures var b := Build(news, outcomes, count, made);
            b.ok ==> |b.devs| == |news| && Ids(b.devs) == IdRange(made, b.made)
    ensures var b := Build(news, outcomes, count, made);
            && |b.devs| <= |news|
            && forall i :: 0 <= i < |b.devs| ==> b.devs[i] == Device(made + i, news[i].zone, news[i].addr, news[i].len)
  {
    BuildEach(news, outcomes, count, made);
    BuildIds(news, outcomes, count, made);
  }

  lemma {:induction false} AppendApart(devs: seq<Device>, news: seq<DeviceConfig>, built: seq<Device>)
    requires Apart(devs) && Acceptable(devs, news) && |built| == |news|
    requires forall i :: 0 <= i < |news| ==>
               built[i].zone == news[i].zone && built[i].base == news[i].addr && built[i].len == news[i].len
    ensures Apart(devs + built)
  {
    var all := devs + built;
    forall i, j | 0 <= i < j < |all| && all[i].zone == all[j].zone
      ensures !RangesOverlap(all[i].base, all[i].len, all[j].base, all[j].len)
    {
      if j >= |devs| {
        var n := j - |devs|;
        if i < |devs| {
          assert !ClashesTable(news[n], devs) && devs[i] in devs;
        } else {
          var m := i - |devs|;
          assert news[..n][m] == news[m] && news[m] in news[..n];
          assert !ClashesConfig(news[n], news[..n]);
        }
      }
    }
  }

  /** One request: the table keeps its invariant and only grows at the end; it grows by
      exactly the enabled devices when the request succeeds and stays identical when it fails. */
  lemma {:induction false} ServeKeeps(t: Table, req: Request)
    requires Inv(t)
    ensures var (t', ok) := Serve(t, req);
            && Inv(t')
            && t.devs <= t'.devs
            && (!ok ==> t'.devs == t.devs)
            && (ok ==> |t'.devs| == |t.devs| + |Enabled(req.zones)|)
            && t.closed <= t'.closed
  {
    var news := Enabled(req.zones);
    if Acceptable(t.devs, news) && req.mapped {
      var b := Build(news, req.outcomes, 0, t.made);
      BuildDevices(news, req.outcomes, 0, t.made);
      IdRangeSplit(0, t.made, b.made);
      if b.ok {
        IdsConcat(t.devs, b.devs);
        AppendApart(t.devs, news, b.devs);
      }
    }
  }

  lemma {:induction false} BuildOk(news: seq<DeviceConfig>, outcomes: nat -> Outcome, count: nat, made: nat)
    requires count + |news| <= MAX_DEVS
    ensures Build(news, outcomes, count, made).ok <==>
              forall k: nat :: count <= k < count + |news| ==> outcomes(k) == Ready
    decreases news
  {
    if news != [] { BuildOk(news[1..], outcomes, count + 1, made + 1); }
  }

  /** A request succeeds exactly when it fits the table, its memory was mapped and every one of
      its devices initialised. It then appends one device for each enabled configuration, in
      order, with its zone and range and a new identity; a request that fails closes every device
      it made. */
  lemma {:induction false} ServeExact(t: Table, req: Request)
    requires Inv(t)
    ensures var (t', ok), news := Serve(t, req), Enabled(req.zones);
            && (ok <==> && Acceptable(t.devs, news) && req.mapped
                        && forall k: nat :: k < |news| ==> req.outcomes(k) == Ready)
            && (ok ==>
                  && |t'.devs| == |t.devs| + |news| && t'.devs[..|t.devs|] == t.devs && t'.closed == t.closed
                  && forall i :: 0 <= i < |news| ==>
                       t'.devs[|t.devs| + i] == Device(t.made + i, news[i].zone, news[i].addr, news[i].len))
            && (!ok ==> t'.devs == t.devs && t.made <= t'.made && t'.closed == t.closed + IdRange(t.made, t'.made))
  {
    var news := Enabled(req.zones);
    if Acceptable(t.devs, news) {
      BuildOk(news, req.outcomes, 0, t.made);
      BuildEach(news, req.outcomes, 0, t.made);
    }
  }

  function Daemon(): (Table, Request) -> Option<Table> {
    (t, req) => Some(Serve(t, req).0)
  }

  const EMPTY: Table := Table([], 0, multiset{})

  /** Over every sequence of requests with arbitrary failures: within MAX_DEVS, pairwise
      disjoint per zone, every device ever allocated published once or closed once. */
  lemma {:induction false} TableOverAllRuns(requests: seq<Request>)
    ensures Exec(Daemon(), EMPTY, requests).Some?
    ensures Inv(Exec(Daemon(), EMPTY, requests).value)
    decreases |requests|
  {
    assert Ids([]) == multiset{};
    forall t, req | Inv(t) && Daemon()(t, req).Some? ensures Inv(Daemon()(t, req).value) {
      ServeKeeps(t, req);
    }
    Invariant(Daemon(), Inv, EMPTY, requests);
    AlwaysEnabled(EMPTY, requests);
  }

  lemma {:induction false} AlwaysEnabled(t: Table, requests: seq<Request>)
    ensures Exec(Daemon(), t, requests).Some?
    decreases |requests|
  {
    if requests != [] { AlwaysEnabled(Serve(t, requests[0]).0, requests[1..]); }
  }

  /** Append-only over whole runs. */
  lemma {:induction false} AppendOnly(t: Table, requests: seq<Request>)
    requires Inv(t)
    ensures Exec(Daemon(), t, requests).Some? ==> t.devs <= Exec(Daemon(), t, requests).value.devs
    decreases |requests|
  {
    if requests != [] {
      ServeKeeps(t, requests[0]);
      AppendOnly(Serve(t, requests[0]).0, requests[1..]);
    }
  }

  // ------------------------------------------------------------------ routing

  predicate Matches(d: Device, zone: nat, address: u64) {
    d.zone == zone && InRange(address, d.base, d.len)
  }

  /** In a disjoint table an access has at most one match. */
  lemma {:induction false} RouteUnique(devs: seq<Device>, zone: nat, address: u64, i: nat, j: nat)
    requires Apart(devs) && i < |devs| && j < |devs|
    requires Matches(devs[i], zone, address) && Matches(devs[j], zone, address)
    ensures i == j
  {
    if i != j {
      DisjointRoutes(address, devs[i].base, devs[i].len, devs[j].base, devs[j].len);
    }
  }

  // ------------------------------------------------------------------ the code

  lemma {:induction false} AcceptablePrefix(devs: seq<Device>, news: seq<DeviceConfig>, more: seq<DeviceConfig>)
    requires Acceptable(devs, news + more)
    ensures Acceptable(devs, news)
  {
    var all := news + more;
    forall i | 0 <= i < |news| ensures !ClashesTable(news[i], devs) && !ClashesConfig(news[i], news[..i]) {
      assert all[i] == news[i] && all[..i] == news[..i];
    }
  }

  lemma {:induction false} AcceptableExtend(devs: seq<Device>, news: seq<DeviceConfig>, c: DeviceConfig)
    ensures Acceptable(devs, news + [c]) <==>
            Acceptable(devs, news) && |devs| + |news| < MAX_DEVS && !ClashesTable(c, devs) && !ClashesConfig(c, news)
  {
    var all := news + [c];
    assert all[|news|] == c && all[..|news|] == news;
    assert forall i :: 0 <= i < |news| ==> all[i] == news[i] && all[..i] == news[..i];
  }

  /** The rest of a request cannot repair a rejected prefix. */
  lemma {:induction false} RejectedPrefix(devs: seq<Device>, zones: seq<ZoneConfig>, zi: nat, di: nat)
    requires zi < |zones| && di <= |zones[zi].devices|
    requires !Acceptable(devs, Enabled(zones[..zi]) + EnabledOf(zones[zi].devices[..di]))
    ensures !Acceptable(devs, Enabled(zones))
  {
    var ds := zones[zi].devices;
    var m1 := EnabledSuffix(ds, di);
    var m2 := ZonesSuffix(zones, zi + 1);
    assert zones[..zi + 1][..zi] == zones[..zi];
    var head := Enabled(zones[..zi]) + EnabledOf(ds[..di]);
    assert Enabled(zones) == head + (m1 + m2);
    if Acceptable(devs, Enabled(zones)) { AcceptablePrefix(devs, head, m1 + m2); }
  }

  lemma {:induction false} EnabledSuffix(ds: seq<DeviceConfig>, di: nat) returns (more: seq<DeviceConfig>)
    requires di <= |ds|
    ensures EnabledOf(ds) == EnabledOf(ds[..di]) + more
    decreases |ds|
  {
    if di == |ds| {
      assert ds[..di] == ds;
      more := [];
    } else {
      more := EnabledSuffix(ds[..|ds| - 1], di);
      assert ds[..|ds| - 1][..di] == ds[..di];
      more := more + (if ds[|ds| - 1].enabled then [ds[|ds| - 1]] else []);
    }
  }

  lemma {:induction false} ZonesSuffix(zones: seq<ZoneConfig>, zi: nat) returns (more: seq<DeviceConfig>)
    requires zi <= |zones|
    ensures Enabled(zones) == Enabled(zones[..zi]) + more
    decreases |zones|
  {
    if zi == |zones| {
      assert zones[..zi] == zones;
      more := [];
    } else {
      more := ZonesSuffix(zones[..|zones| - 1], zi);
      assert zones[..|zones| - 1][..zi] == zones[..zi];
      more := more + EnabledOf(zones[|zones| - 1].devices);
    }
  }

  lemma {:induction false} EnabledOfMember(ds: seq<DeviceConfig>, c: DeviceConfig)
    ensures c in EnabledOf(ds) <==> c in ds && c.enabled
  {
    if ds != [] {
      EnabledOfMember(ds[..|ds| - 1], c);
      assert ds == ds[..|ds| - 1] + [ds[|ds| - 1]];
    }
  }

  lemma {:induction false} ClashesConcat(c: DeviceConfig, a: seq<DeviceConfig>, b: seq<DeviceConfig>)
    ensures ClashesConfig(c, a + b) <==> ClashesConfig(c, a) || ClashesConfig(c, b)
  {
    if ClashesConfig(c, a) {
      var e :| e in a && Clash(c, e.zone, e.addr, e.len);
      assert e in a + b;
    }
    if ClashesConfig(c, b) {
      var e :| e in b && Clash(c, e.zone, e.addr, e.len);
      assert e in a + b;
    }
  }

  /** A clash with the first `p` zones is one with all that comes before. */
  lemma {:induction false} ClashesLater(c: DeviceConfig, zones: seq<ZoneConfig>, p: nat, zi: nat,
                                        rest: seq<DeviceConfig>)
    requires p <= zi <= |zones| && ClashesConfig(c, Enabled(zones[..p]))
    ensures ClashesConfig(c, Enabled(zones[..zi]) + rest)
  {
    var more := ZonesSuffix(zones[..zi], p);
    assert zones[..zi][..p] == zones[..p];
    ClashesConcat(c, Enabled(zones[..p]), more);
    ClashesConcat(c, Enabled(zones[..zi]), rest);
  }

  lemma {:induction false} EnabledNext(head: seq<DeviceConfig>, ds: seq<DeviceConfig>, di: nat)
    requires di < |ds|
    ensures EnabledOf(ds[..di + 1]) == EnabledOf(ds[..di]) + if ds[di].enabled then [ds[di]] else []
    ensures head + EnabledOf(ds[..di + 1]) == (head + EnabledOf(ds[..di])) + if ds[di].enabled then [ds[di]] else []
  {
    assert ds[..di + 1][..di] == ds[..di];
  }

  class Registry {
    var vdevs: seq<Device>
    var made: nat  // identities handed out so far, one per allocated object
    ghost var closed: multiset<nat>

    ghost function Contents(): Table
      reads this
    {
      Table(vdevs, made, closed)
    }

    constructor ()
      ensures Contents() == EMPTY
    {
      vdevs, made, closed := [], 0, multiset{};
    }

    /** The device loop of virtio_handle_req. */
    method Route(zone: nat, address: u64) returns (r: Option<Device>)
      ensures r.None? ==> forall d :: d in vdevs ==> !Matches(d, zone, address)
      ensures r.Some? ==> r.value in vdevs && Matches(r.value, zone, address)
      ensures r.Some? && Apart(vdevs) ==>
                forall i :: 0 <= i < |vdevs| && Matches(vdevs[i], zone, address) ==> vdevs[i] == r.value
    {
      r := None;
      var i := 0;
      while i < |vdevs|
        invariant 0 <= i <= |vdevs|
        invariant r.None?
        invariant forall k :: 0 <= k < i ==> !Matches(vdevs[k], zone, address)
      {
        if Matches(vdevs[i], zone, address) {
          r := Some(vdevs[i]);
          if Apart(vdevs) {
            forall k | 0 <= k < |vdevs| && Matches(vdevs[k], zone, address) ensures vdevs[k] == r.value {
              RouteUnique(vdevs, zone, address, i, k);
            }
          }
          return;
        }
        i := i + 1;
      }
    }

    method ClashWithTable(c: DeviceConfig) returns (clash: bool)
      ensures clash <==> ClashesTable(c, vdevs)
    {
      clash := false;
      var i := 0;
      while i < |vdevs|
        invariant 0 <= i <= |vdevs|
        invariant forall k :: 0 <= k < i ==> !Clash(c, vdevs[k].zone, vdevs[k].base, vdevs[k].len)
      {
        if Clash(c, vdevs[i].zone, vdevs[i].base, vdevs[i].len) { return true; }
        i := i + 1;
      }
    }

    /** The loop over the first `limit` devices of one zone. */
    static method ClashWithin(ds: seq<DeviceConfig>, limit: nat, c: DeviceConfig) returns (clash: bool)
      requires limit <= |ds|
      ensures clash <==> ClashesConfig(c, EnabledOf(ds[..limit]))
    {
      var k := 0;
      while k < limit
        invariant 0 <= k <= limit
        invariant !ClashesConfig(c, EnabledOf(ds[..k]))
      {
        assert ds[..k + 1][..k] == ds[..k];
        if ds[k].enabled && Clash(c, ds[k].zone, ds[k].addr, ds[k].len) {
          EnabledOfMember(ds[..limit], ds[k]);
          assert ds[..limit][k] == ds[k];
          return true;
        }
        k := k + 1;
      }
      clash := false;
    }

    /** The loop over earlier devices of the same request. */
    static method ClashWithEarlier(zones: seq<ZoneConfig>, zi: nat, di: nat, c: DeviceConfig) returns (clash: bool)
      requires zi < |zones| && di <= |zones[zi].devices|
      ensures clash <==> ClashesConfig(c, Enabled(zones[..zi]) + EnabledOf(zones[zi].devices[..di]))
    {
      var p := 0;
      while p < zi
        invariant 0 <= p <= zi
        invariant !ClashesConfig(c, Enabled(zones[..p]))
      {
        var ds := zones[p].devices;
        clash := ClashWithin(ds, |ds|, c);
        assert ds[..|ds|] == ds && zones[..p + 1][..p] == zones[..p];
        ClashesConcat(c, Enabled(zones[..p]), EnabledOf(ds));
        if clash {
          ClashesLater(c, zones, p + 1, zi, EnabledOf(zones[zi].devices[..di]));
          return;
        }
        p := p + 1;
      }
      clash := ClashWithin(zones[zi].devices, di, c);
      ClashesConcat(c, Enabled(zones[..zi]), EnabledOf(zones[zi].devices[..di]));
    }

    /** The devices of zone `zi`, when those of the earlier zones are acceptable. */
    method ValidateZone(zones: seq<ZoneConfig>, zi: nat, start: nat) returns (ok: bool, total: nat)
      requires zi < |zones| && start == |vdevs| + |Enabled(zones[..zi])| && Acceptable(vdevs, Enabled(zones[..zi]))
      ensures ok <==> Acceptable(vdevs, Enabled(zones[..zi + 1]))
      ensures ok ==> total == |vdevs| + |Enabled(zones[..zi + 1])|
    {
      var ds := zones[zi].devices;
      ghost var head := Enabled(zones[..zi]);
      ghost var whole := zones[..zi + 1];
      assert whole[..zi] == zones[..zi] && head + EnabledOf(ds[..0]) == head;
      total := start;
      var di := 0;
      while di < |ds|
        invariant 0 <= di <= |ds|
        invariant total == |vdevs| + |head| + |EnabledOf(ds[..di])|
        invariant Acceptable(vdevs, head + EnabledOf(ds[..di]))
      {
        var dev := ds[di];
        EnabledNext(head, ds, di);
        if dev.enabled {
          AcceptableExtend(vdevs, head + EnabledOf(ds[..di]), dev);
          total := total + 1;
          var c1, c2 := false, false;
          if total <= MAX_DEVS {
            c1 := ClashWithTable(dev);
            c2 := ClashWithEarlier(zones, zi, di, dev);
          }
          if total > MAX_DEVS || c1 || c2 {
            RejectedPrefix(vdevs, whole, zi, di + 1);
            return false, total;
          }
        }
        di := di + 1;
      }
      assert ds[..|ds|] == ds;
      ok := true;
    }

    /** validate_virtio_config_devices. */
    method Validate(zones: seq<ZoneConfig>) returns (ok: bool)
      requires |vdevs| <= MAX_DEVS
      ensures ok <==> Acceptable(vdevs, Enabled(zones))
    {
      var total := |vdevs|;
      var zi := 0;
      while zi < |zones|
        invariant 0 <= zi <= |zones|
        invariant total == |vdevs| + |Enabled(zones[..zi])|
        invariant Acceptable(vdevs, Enabled(zones[..zi]))
      {
        ok, total := ValidateZone(zones, zi, total);
        if !ok {
          var more := ZonesSuffix(zones, zi + 1);
          if Acceptable(vdevs, Enabled(zones)) { AcceptablePrefix(vdevs, Enabled(zones[..zi + 1]), more); }
          return;
        }
        zi := zi + 1;
      }
      assert zones[..|zones|] == zones;
      ok := true;
    }

    /** destroy_unpublished_virtio_device over the devices of a failed request. */
    method Destroy(devs: seq<Device>)
      modifies this`closed
      ensures closed == old(closed) + Ids(devs)
    {
      var i := 0;
      assert devs[0..] == devs;
      while i < |devs|
        invariant 0 <= i <= |devs|
        invariant closed + Ids(devs[i..]) == old(closed) + Ids(devs)
      {
        assert devs[i..] == [devs[i]] + devs[i + 1..];
        IdsConcat([devs[i]], devs[i + 1..]);
        IdsOne(devs[i]);
        closed := closed + multiset{devs[i].id};
        i := i + 1;
      }
    }

    /** The failure exit of the creation loop: close the object that just failed, if there
        is one, and the devices created before it. */
    method Abandon(devs: seq<Device>, failedObject: bool, ghost first: nat)
      requires first <= made && Ids(devs) == IdRange(first, made)
      modifies this`closed, this`made
      ensures made == old(made) + (if failedObject then 1 else 0)
      ensures closed == old(closed) + IdRange(first, made)
    {
      Destroy(devs);
      if failedObject {
        IdRangeSplit(first, made, made + 1);
        closed := closed + multiset{made};
        made := made + 1;
      }
    }

    /** publish_virtio_devices. */
    method Publish(devs: seq<Device>) returns (ok: bool)
      requires |vdevs| <= MAX_DEVS
      modifies this`vdevs
      ensures ok <==> |devs| <= MAX_DEVS - old(|vdevs|)
      ensures vdevs == if ok then old(vdevs) + devs else old(vdevs)
    {
      if |devs| == 0 {
        assert old(vdevs) + devs == old(vdevs);
        return true;
      }
      if |devs| > MAX_DEVS - |vdevs| { return false; }
      var i := 0;
      while i < |devs|
        invariant 0 <= i <= |devs|
        invariant vdevs == old(vdevs) + devs[..i]
      {
        vdevs := vdevs + [devs[i]];
        i := i + 1;
      }
      ok := true;
    }

    /** The failure exit: everything created so far is closed. */
    method Fail(newDevs: seq<Device>, outcomes: nat -> Outcome, ghost whole: Built, ghost all: seq<DeviceConfig>,
                ghost first: nat)
      requires first <= made && Halfway(whole, all, outcomes, newDevs, first, made) && |newDevs| < |all|
      requires outcomes(|newDevs|) != Ready || |newDevs| >= MAX_DEVS
      modifies this`closed, this`made
      ensures old(made) <= made == whole.made && !whole.ok && closed == old(closed) + IdRange(first, made)
    {
      HalfwayFails(whole, all, outcomes, newDevs, first, made);
      Abandon(newDevs, outcomes(|newDevs|) != NotAllocated, first);
    }

    /** One device of the creation loop; on failure everything created so far is closed. */
    method CreateOne(dev: DeviceConfig, newDevs: seq<Device>, outcomes: nat -> Outcome,
                     ghost whole: Built, ghost all: seq<DeviceConfig>, ghost first: nat)
      returns (devs: seq<Device>, ok: bool)
      requires first <= made && Halfway(whole, all, outcomes, newDevs, first, made)
      requires |newDevs| < |all| && all[|newDevs|] == dev
      modifies this`closed, this`made
      ensures made >= old(made)
      ensures ok ==> |devs| == |newDevs| + 1 && closed == old(closed)
      ensures ok ==> Halfway(whole, all, outcomes, devs, first, made)
      ensures !ok ==> !whole.ok && made == whole.made && closed == old(closed) + IdRange(first, made)
    {
      if outcomes(|newDevs|) != Ready || |newDevs| >= MAX_DEVS {
        Fail(newDevs, outcomes, whole, all, first);
        return newDevs, false;
      }
      GrowHalfway(whole, all, outcomes, newDevs, first, made);
      devs := newDevs + [Device(made, dev.zone, dev.addr, dev.len)];
      made := made + 1;
      ok := true;
    }

    /** The devices of one zone. */
    method CreateZone(ds: seq<DeviceConfig>, newDevs: seq<Device>, outcomes: nat -> Outcome,
                      ghost whole: Built, ghost all: seq<DeviceConfig>, ghost first: nat)
      returns (devs: seq<Device>, ok: bool)
      requires first <= made && Halfway(whole, all, outcomes, newDevs, first, made)
      requires EnabledOf(ds) <= all[|newDevs|..]
      modifies this`closed, this`made
      ensures made >= old(made)
      ensures ok ==> |devs| == |newDevs| + |EnabledOf(ds)| && closed == old(closed)
      ensures ok ==> Halfway(whole, all, outcomes, devs, first, made)
      ensures !ok ==> !whole.ok && made == whole.made && closed == old(closed) + IdRange(first, made)
    {
      devs, ok := newDevs, true;
      var di := 0;
      while di < |ds|
        invariant 0 <= di <= |ds|
        invariant closed == old(closed) && made >= old(made)
        invariant ok && |devs| == |newDevs| + |EnabledOf(ds[..di])|
        invariant Halfway(whole, all, outcomes, devs, first, made)
      {
        assert ds[..di + 1][..di] == ds[..di];
        if ds[di].enabled {
          EnabledAt(ds, di);
          devs, ok := CreateOne(ds[di], devs, outcomes, whole, all, first);
          if !ok { return; }
        }
        di := di + 1;
      }
      assert ds[..|ds|] == ds;
    }

    /** The creation loop. */
    method CreateAll(zones: seq<ZoneConfig>, outcomes: nat -> Outcome, ghost whole: Built, ghost all: seq<DeviceConfig>)
      returns (devs: seq<Device>, ok: bool)
      requires all == Enabled(zones) && whole == Build(all, outcomes, 0, made)
      modifies this`closed, this`made
      ensures made >= old(made) && made == whole.made && ok == whole.ok
      ensures ok ==> devs == whole.devs && Ids(devs) == IdRange(old(made), made) && closed == old(closed)
      ensures !ok ==> closed == old(closed) + IdRange(old(made), made)
    {
      ghost var first := made;
      devs := [];
      HalfwayBegins(whole, all, outcomes, first);
      var zi := 0;
      while zi < |zones|
        invariant 0 <= zi <= |zones|
        invariant closed == old(closed) && made >= first
        invariant |devs| == |Enabled(zones[..zi])|
        invariant Halfway(whole, all, outcomes, devs, first, made)
      {
        ZoneIsNext(zones, zi);
        devs, ok := CreateZone(zones[zi].devices, devs, outcomes, whole, all, first);
        if !ok { return; }
        zi := zi + 1;
      }
      assert zones[..|zones|] == zones;
      HalfwayEnds(whole, all, outcomes, devs, first, made);
      ok := true;
    }

    /** create_virtio_config_devices. */
    method CreateDevices(zones: seq<ZoneConfig>, outcomes: nat -> Outcome) returns (ok: bool)
      requires |vdevs| <= MAX_DEVS
      modifies this
      ensures (Contents(), ok) == Create(old(Contents()), Enabled(zones), outcomes)
    {
      ghost var all := Enabled(zones);
      ghost var whole := Build(all, outcomes, 0, made);
      var newDevs;
      newDevs, ok := CreateAll(zones, outcomes, whole, all);
      if !ok { return; }
      ok := Publish(newDevs);
      if !ok { Destroy(newDevs); }
    }

    /** virtio_start_from_json after parsing. */
    method Start(req: Request) returns (ok: bool)
      requires |vdevs| <= MAX_DEVS
      modifies this
      ensures (Contents(), ok) == Serve(old(Contents()), req)
    {
      ok := Validate(req.zones);
      if !ok || !req.mapped { return false; }
      ok := CreateDevices(req.zones, req.outcomes);
    }
  }

  /** A request of which `done` are created: the rest of the construction is what remains. */
  ghost predicate Halfway(whole: Built, all: seq<DeviceConfig>, outcomes: nat -> Outcome, done: seq<Device>,
                          first: nat, made: nat)
    requires first <= made
  {
    && |done| <= |all|
    && Ids(done) == IdRange(first, made)
    && var rest := Build(all[|done|..], outcomes, |done|, made);
       whole == Built(done + rest.devs, rest.made, rest.ok)
  }

  lemma {:induction false} HalfwayBegins(whole: Built, all: seq<DeviceConfig>, outcomes: nat -> Outcome, first: nat)
    requires whole == Build(all, outcomes, 0, first)
    ensures Halfway(whole, all, outcomes, [], first, first)
  {
    assert all[0..] == all && [] + whole.devs == whole.devs && IdList([]) == [];
  }

  lemma {:induction false} HalfwayEnds(whole: Built, all: seq<DeviceConfig>, outcomes: nat -> Outcome,
                                       done: seq<Device>, first: nat, made: nat)
    requires first <= made && Halfway(whole, all, outcomes, done, first, made) && |done| == |all|
    ensures whole == Built(done, made, true) && Ids(done) == IdRange(first, made)
  {
    assert all[|done|..] == [] && done + [] == done;
  }

  /** The enabled devices of zone `zi` come next. */
  lemma {:induction false} ZoneIsNext(zones: seq<ZoneConfig>, zi: nat)
    requires zi < |zones|
    ensures var n := |Enabled(zones[..zi])|;
            && n <= |Enabled(zones)| && EnabledOf(zones[zi].devices) <= Enabled(zones)[n..]
            && |Enabled(zones[..zi + 1])| == n + |EnabledOf(zones[zi].devices)|
  {
    assert zones[..zi + 1][..zi] == zones[..zi];
    var more := ZonesSuffix(zones, zi + 1);
    var a, b := Enabled(zones[..zi]), EnabledOf(zones[zi].devices);
    assert (a + b) + more == a + (b + more);
    assert Enabled(zones)[|a|..] == b + more;
  }

  /** A device that cannot be created ends the construction there. */
  lemma {:induction false} HalfwayFails(whole: Built, all: seq<DeviceConfig>, outcomes: nat -> Outcome,
                                        done: seq<Device>, first: nat, made: nat)
    requires first <= made && Halfway(whole, all, outcomes, done, first, made) && |done| < |all|
    requires outcomes(|done|) != Ready || |done| >= MAX_DEVS
    ensures !whole.ok && whole.made == made + (if outcomes(|done|) == NotAllocated then 0 else 1)
  {
    assert all[|done|..] != [];
  }

  lemma {:induction false} IdsGrow(done: seq<Device>, d: Device, first: nat)
    requires first <= d.id && Ids(done) == IdRange(first, d.id)
    ensures Ids(done + [d]) == IdRange(first, d.id + 1)
  {
    IdsConcat(done, [d]);
    IdsOne(d);
    IdRangeSplit(first, d.id, d.id + 1);
    assert IdRange(d.id, d.id + 1) == multiset{d.id} + IdRange(d.id + 1, d.id + 1);
  }

  lemma {:induction false} GrowHalfway(whole: Built, all: seq<DeviceConfig>, outcomes: nat -> Outcome,
                                       done: seq<Device>, first: nat, made: nat)
    requires first <= made && Halfway(whole, all, outcomes, done, first, made)
    requires |done| < |all| && |done| < MAX_DEVS && outcomes(|done|) == Ready
    ensures var c := all[|done|];
            Halfway(whole, all, outcomes, done + [Device(made, c.zone, c.addr, c.len)], first, made + 1)
  {
    var c := all[|done|];
    var d := Device(made, c.zone, c.addr, c.len);
    IdsGrow(done, d, first);
    assert all[|done|..][1..] == all[|done| + 1..] && all[|done|..][0] == c;
    var rest := Build(all[|done| + 1..], outcomes, |done| + 1, made + 1);
    assert Build(all[|done|..], outcomes, |done|, made) == Built([d] + rest.devs, rest.made, rest.ok);
    assert done + ([d] + rest.devs) == (done + [d]) + rest.devs;
  }

  /** An enabled device stands right after the enabled ones before it. */
  lemma {:induction false} EnabledAt(ds: seq<DeviceConfig>, di: nat)
    requires di < |ds| && ds[di].enabled
    ensures |EnabledOf(ds[..di])| < |EnabledOf(ds)| && EnabledOf(ds)[|EnabledOf(ds[..di])|] == ds[di]
  {
    assert ds[..di + 1][..di] == ds[..di];
    var more := EnabledSuffix(ds, di + 1);
  }
}
