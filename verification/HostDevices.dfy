/** Disks, USB devices and GPUs of a host: what identifies each, what its update mask covers, what is rejected. */
module HostDevices {
  import opened Wrappers
  import opened Devices
  import opened DeviceReconciliation
  import opened Texts

  // ---------- What a host reports; a missing message is None ----------

  datatype SystemDisk = SystemDisk(name: string, wwid: string, serial: string, vendor: string, model: string, size: nat)

  datatype SystemUsb = SystemUsb(idVendor: string, idProduct: string, bus: nat, addr: nat, class_: string,
                                 description: string, serial: string)

  datatype SystemGpu = SystemGpu(pciId: string, product: string, vendor: string, description: string, name: string,
                                 features: seq<string>)

  // ---------- The masked fields of the resources beside their keys ----------

  datatype DiskFields = DiskFields(kind: string, wwid: string, serial: string, vendor: string, model: string,
                                   capacity: nat)

  datatype UsbFields = UsbFields(kind: string, idVendor: string, idProduct: string, class_: string,
                                 deviceName: string, serial: string)

  datatype UsbPort = UsbPort(bus: nat, addr: nat)

  datatype GpuFields = GpuFields(product: string, vendor: string, description: string, deviceName: string,
                                 features: string)

  /** Reports never fill the kind, which the mask covers: one that is stored is cleared. */
  const NO_KIND := ""

  function DiskResource(disk: Option<SystemDisk>): (r: Reported<string, DiskFields>)
    ensures r.Valid? <==> disk.Some?
    ensures r.Valid? ==> r.key == disk.value.name
  {
    match disk
    case None => Invalid
    case Some(d) => Valid(d.name, DiskFields(NO_KIND, d.wwid, d.serial, d.vendor, d.model, d.size))
  }

  function UsbResource(usb: Option<SystemUsb>): (r: Reported<UsbPort, UsbFields>)
    ensures r.Valid? <==> usb.Some?
    ensures r.Valid? ==> r.key.bus == usb.value.bus && r.key.addr == usb.value.addr
  {
    match usb
    case None => Invalid
    case Some(u) =>
      var fields := UsbFields(NO_KIND, u.idVendor, u.idProduct, u.class_, u.description, u.serial);
      Valid(UsbPort(u.bus, u.addr), fields)
  }

  /** A GPU without PCI identifier cannot be told apart from others and is rejected. */
  function GpuResource(gpu: Option<SystemGpu>): (r: Reported<string, GpuFields>)
    ensures r.Valid? <==> gpu.Some? && gpu.value.pciId != ""
    ensures r.Valid? ==> r.key == gpu.value.pciId
  {
    match gpu
    case None => Invalid
    case Some(g) =>
      if g.pciId == "" then Invalid
      else Valid(g.pciId, GpuFields(g.product, g.vendor, g.description, g.name, Join(g.features, ',')))
  }

  function Translate<S, K, F>(hw: seq<Option<S>>, resource: Option<S> -> Reported<K, F>): (report: seq<Reported<K, F>>)
    ensures |report| == |hw| && forall i | 0 <= i < |hw| :: report[i] == resource(hw[i])
  {
    seq(|hw|, i requires 0 <= i < |hw| => resource(hw[i]))
  }

  // ---------- Rows that show a device ----------

  predicate IsDisk(row: Row<string, string, DiskFields>, d: SystemDisk) {
    && row.key == d.name && row.fields.kind == ""
    && row.fields.wwid == d.wwid && row.fields.serial == d.serial
    && row.fields.vendor == d.vendor && row.fields.model == d.model && row.fields.capacity == d.size
  }

  predicate IsUsb(row: Row<string, UsbPort, UsbFields>, u: SystemUsb) {
    && row.key.bus == u.bus && row.key.addr == u.addr && row.fields.kind == ""
    && row.fields.idVendor == u.idVendor && row.fields.idProduct == u.idProduct && row.fields.class_ == u.class_
    && row.fields.deviceName == u.description && row.fields.serial == u.serial
  }

  predicate IsGpu(row: Row<string, string, GpuFields>, g: SystemGpu) {
    && row.key == g.pciId && row.fields.product == g.product && row.fields.vendor == g.vendor
    && row.fields.description == g.description && row.fields.deviceName == g.name
    && row.fields.features == Join(g.features, ',')
  }

  /** The rows of the owner are, one by one, what is reported; `same` says when a row shows a device. */
  ghost predicate Shows<S(!new), O, K, F>(t: Table<O, K, F>, o: O, hw: seq<Option<S>>,
                                          same: (Row<O, K, F>, S) -> bool)
  {
    && (forall s | Some(s) in hw :: exists id :: Owned(t, o, id) && same(t[id], s))
    && (forall id | Owned(t, o, id) :: exists s :: Some(s) in hw && same(t[id], s))
  }

  /** Field by field translation carries over from one device to all. */
  lemma MatchingShows<S(!new), O(!new), K(!new), F(!new)>(t: Table<O, K, F>, o: O, hw: seq<Option<S>>,
                                                          resource: Option<S> -> Reported<K, F>,
                                                          same: (Row<O, K, F>, S) -> bool)
    requires Matches(t, o, Translate(hw, resource)) && None !in hw
    requires forall s, row: Row<O, K, F> | resource(Some(s)).Valid? && row.key == resource(Some(s)).key
                             && row.fields == resource(Some(s)).fields :: same(row, s)
    ensures Shows(t, o, hw, same)
  {
    var report := Translate(hw, resource);
    forall s | Some(s) in hw ensures exists id :: Owned(t, o, id) && same(t[id], s) {
      var i :| 0 <= i < |hw| && hw[i] == Some(s);
      assert report[i] in report && report[i] == resource(Some(s));
      var id :| Owned(t, o, id) && t[id].key == report[i].key && t[id].fields == report[i].fields;
      assert same(t[id], s);
    }
    forall id | Owned(t, o, id) ensures exists s :: Some(s) in hw && same(t[id], s) {
      assert Reports(report, t[id].key, t[id].fields);
      var i :| 0 <= i < |report| && report[i] == Valid(t[id].key, t[id].fields);
      assert hw[i] in hw && hw[i] == Some(hw[i].value);
      assert same(t[id], hw[i].value);
    }
  }

  // ---------- The three reconciliations ----------

  ghost predicate DistinctPorts(hw: seq<Option<SystemUsb>>) {
    forall i, j | 0 <= i < j < |hw| :: hw[i].Some? && hw[j].Some? ==>
      hw[i].value.bus != hw[j].value.bus || hw[i].value.addr != hw[j].value.addr
  }

  /** USB devices are told apart by bus and address; same bus or same address alone does not make them one. */
  method UpdateHostusbs(inv: Inventory<string, UsbPort, UsbFields>, host: string,
                        snapshot: seq<Device<string, UsbPort, UsbFields>>, hw: seq<Option<SystemUsb>>)
    returns (ok: bool)
    requires inv.Valid() && Snapshot(snapshot, inv.table, host)
    modifies inv
    ensures inv.Valid() && OthersKept(old(inv.table), host, inv.table)
    ensures ok ==> None !in hw
    ensures inv.Reliable() && None !in hw ==> ok
    ensures ok && DistinctPorts(hw) && UniqueKeys(old(inv.table), host) ==> Shows(inv.table, host, hw, IsUsb)
    ensures ok && DistinctPorts(hw) && UniqueKeys(old(inv.table), host) ==>
              && Matches(inv.table, host, Translate(hw, UsbResource)) && UniqueKeys(inv.table, host)
    ensures DistinctPorts(hw) && UniqueKeys(old(inv.table), host) ==>
              Between(old(inv.table), old(inv.nextId), host, Translate(hw, UsbResource), inv.table)
    ensures DistinctPorts(hw) && UniqueKeys(old(inv.table), host)
            && Matches(old(inv.table), host, Translate(hw, UsbResource)) ==>
              ok && inv.table == old(inv.table) && inv.writes == old(inv.writes)
  {
    var report := Translate(hw, UsbResource);
    assert DistinctPorts(hw) ==> UniqueReport(report);
    ghost var exact := DistinctPorts(hw) && UniqueKeys(inv.table, host);
    ok := Reconcile(inv, host, snapshot, report);
    AllThere(hw, report);
    if ok && exact { MatchingShows(inv.table, host, hw, UsbResource, IsUsb); }
  }

  ghost predicate DistinctPciIds(hw: seq<Option<SystemGpu>>) {
    forall i, j | 0 <= i < j < |hw| :: hw[i].Some? && hw[j].Some? ==> hw[i].value.pciId != hw[j].value.pciId
  }

  ghost predicate Identified(hw: seq<Option<SystemGpu>>) {
    forall g | g in hw :: g.Some? && g.value.pciId != ""
  }

  /** A report with a missing or unidentified GPU never succeeds. */
  method UpdateHostgpus(inv: Inventory<string, string, GpuFields>, host: string,
                        snapshot: seq<Device<string, string, GpuFields>>, hw: seq<Option<SystemGpu>>)
    returns (ok: bool)
    requires inv.Valid() && Snapshot(snapshot, inv.table, host)
    modifies inv
    ensures inv.Valid() && OthersKept(old(inv.table), host, inv.table)
    ensures ok ==> Identified(hw)
    ensures inv.Reliable() && Identified(hw) ==> ok
    ensures ok && DistinctPciIds(hw) && UniqueKeys(old(inv.table), host) ==> Shows(inv.table, host, hw, IsGpu)
    ensures ok && DistinctPciIds(hw) && UniqueKeys(old(inv.table), host) ==>
              && Matches(inv.table, host, Translate(hw, GpuResource)) && UniqueKeys(inv.table, host)
    ensures DistinctPciIds(hw) && UniqueKeys(old(inv.table), host) ==>
              Between(old(inv.table), old(inv.nextId), host, Translate(hw, GpuResource), inv.table)
    ensures DistinctPciIds(hw) && UniqueKeys(old(inv.table), host)
            && Matches(old(inv.table), host, Translate(hw, GpuResource)) ==>
              ok && inv.table == old(inv.table) && inv.writes == old(inv.writes)
  {
    var report := Translate(hw, GpuResource);
    assert DistinctPciIds(hw) ==> UniqueReport(report);
    ghost var exact := DistinctPciIds(hw) && UniqueKeys(inv.table, host);
    ok := Reconcile(inv, host, snapshot, report);
    AllIdentified(hw);
    if ok && exact { MatchingShows(inv.table, host, hw, GpuResource, IsGpu); }
  }

  lemma AllIdentified(hw: seq<Option<SystemGpu>>)
    ensures AllValid(Translate(hw, GpuResource)) <==> Identified(hw)
    ensures Identified(hw) ==> None !in hw
  {
    var report := Translate(hw, GpuResource);
    forall g | g in hw && AllValid(report) ensures g.Some? && g.value.pciId != "" {
      var i :| 0 <= i < |hw| && hw[i] == g;
      assert report[i] in report;
    }
  }

  ghost predicate DistinctNames(hw: seq<Option<SystemDisk>>) {
    forall i, j | 0 <= i < j < |hw| :: hw[i].Some? && hw[j].Some? ==> hw[i].value.name != hw[j].value.name
  }

  /** Disks are told apart by device name, whatever their serial number or WWID. */
  method UpdateHoststorage(inv: Inventory<string, string, DiskFields>, host: string,
                           snapshot: seq<Device<string, string, DiskFields>>, hw: seq<Option<SystemDisk>>)
    returns (ok: bool)
    requires inv.Valid() && Snapshot(snapshot, inv.table, host)
    modifies inv
    ensures inv.Valid() && OthersKept(old(inv.table), host, inv.table)
    ensures ok ==> None !in hw
    ensures inv.Reliable() && None !in hw ==> ok
    ensures ok && DistinctNames(hw) && UniqueKeys(old(inv.table), host) ==> Shows(inv.table, host, hw, IsDisk)
    ensures ok && DistinctNames(hw) && UniqueKeys(old(inv.table), host) ==>
              && Matches(inv.table, host, Translate(hw, DiskResource)) && UniqueKeys(inv.table, host)
    ensures DistinctNames(hw) && UniqueKeys(old(inv.table), host) ==>
              Between(old(inv.table), old(inv.nextId), host, Translate(hw, DiskResource), inv.table)
    ensures DistinctNames(hw) && UniqueKeys(old(inv.table), host)
            && Matches(old(inv.table), host, Translate(hw, DiskResource)) ==>
              ok && inv.table == old(inv.table) && inv.writes == old(inv.writes)
  {
    var report := Translate(hw, DiskResource);
    assert DistinctNames(hw) ==> UniqueReport(report);
    ghost var exact := DistinctNames(hw) && UniqueKeys(inv.table, host);
    ok := Reconcile(inv, host, snapshot, report);
    AllThere(hw, report);
    if ok && exact { MatchingShows(inv.table, host, hw, DiskResource, IsDisk); }
  }

  lemma AllThere<S, K, F>(hw: seq<Option<S>>, report: seq<Reported<K, F>>)
    requires |report| == |hw| && forall i | 0 <= i < |hw| :: report[i].Valid? ==> hw[i].Some?
    ensures AllValid(report) ==> None !in hw
  {
  }
}
