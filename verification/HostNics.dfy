/** What a host reports about its network, and how it is told in interfaces and addresses of the inventory. */
module HostNics {
  import opened Wrappers
  import opened Decimals
  import opened Devices
  import opened DeviceReconciliation
  import opened HostDevices
  import opened Nics
  import opened Texts

  // ---------- What a host reports; a missing message is None ----------

  datatype ConfigMode = ModeUnspecified | ModeStatic | ModeDynamic | ModeUnknown

  /** `parses` tells whether address and prefix length read as a prefix. */
  datatype SystemAddress = SystemAddress(ip: string, bits: nat, mode: ConfigMode, parses: bool)

  datatype SystemNetwork = SystemNetwork(name: string, pciId: string, mac: string, sriovEnabled: bool, sriovVfs: nat,
                                         sriovVfsTotal: nat, peerName: string, peerDescription: string,
                                         peerMac: string, peerMgmtIp: string, peerPort: string,
                                         supported: seq<string>, advertising: seq<string>, speed: nat, duplex: string,
                                         features: seq<string>, mtu: nat, linkUp: bool, bmcNet: bool,
                                         addresses: seq<Option<SystemAddress>>)

  // ---------- The masked fields beside the keys ----------

  datatype LinkState = Up | Down

  datatype ConfigMethod = MethodUnspecified | MethodStatic | MethodDynamic

  datatype AddressState = Configured | NotConfigured

  datatype NicFields = NicFields(kind: string, pciId: string, mac: string, sriovEnabled: bool, sriovVfs: nat,
                                 sriovVfsTotal: nat, peerName: string, peerDescription: string, peerMac: string,
                                 peerMgmtIp: string, peerPort: string, supported: string, advertising: string,
                                 speed: nat, duplex: string, features: string, mtu: nat, link: LinkState, bmc: bool)

  datatype AddressFields = AddressFields(configMethod: ConfigMethod, status: AddressState, detail: string,
                                         state: AddressState)

  function NicResource(nic: Option<SystemNetwork>): (r: Reported<string, NicFields>)
    ensures r.Valid? <==> nic.Some?
    ensures r.Valid? ==> r.key == nic.value.name
  {
    match nic
    case None => Invalid
    case Some(n) =>
      Valid(n.name, NicFields(NO_KIND, n.pciId, n.mac, n.sriovEnabled, n.sriovVfs, n.sriovVfsTotal, n.peerName,
                              n.peerDescription, n.peerMac, n.peerMgmtIp, n.peerPort, Join(n.supported, ','),
                              Join(n.advertising, ','), n.speed, n.duplex, Join(n.features, ','), n.mtu,
                              if n.linkUp then Up else Down, n.bmcNet))
  }

  function MethodOf(mode: ConfigMode): ConfigMethod {
    match mode
    case ModeStatic => MethodStatic
    case ModeDynamic => MethodDynamic
    case _ => MethodUnspecified
  }

  /** Addresses are told apart in this notation. */
  function Cidr(a: SystemAddress): string {
    a.ip + "/" + Itoa(a.bits)
  }

  function AddressResource(address: Option<SystemAddress>): (r: Reported<string, AddressFields>)
    ensures r.Valid? <==> address.Some? && address.value.parses
    ensures r.Valid? ==> r.key == Cidr(address.value)
  {
    match address
    case None => Invalid
    case Some(a) =>
      if !a.parses then Invalid
      else Valid(Cidr(a), AddressFields(MethodOf(a.mode), Configured, "IPAddress is configured", Configured))
  }

  function AddressesOf(network: Option<SystemNetwork>): seq<Option<SystemAddress>> {
    if network.Some? then network.value.addresses else []
  }

  function NetworkReport(hw: seq<Option<SystemNetwork>>): (report: seq<NicReport<NicFields, AddressFields>>)
    ensures |report| == |hw|
    ensures forall i | 0 <= i < |hw| ::
              && report[i].nic == NicResource(hw[i])
              && report[i].ips == Translate(AddressesOf(hw[i]), AddressResource)
  {
    seq(|hw|, i requires 0 <= i < |hw| =>
      NicReport(NicResource(hw[i]), Translate(AddressesOf(hw[i]), AddressResource)))
  }

  // ---------- Rows that show an interface or an address ----------

  predicate IsNic(row: Row<string, string, NicFields>, n: SystemNetwork) {
    var f := row.fields;
    && row.key == n.name && f.kind == "" && f.pciId == n.pciId && f.mac == n.mac
    && f.sriovEnabled == n.sriovEnabled && f.sriovVfs == n.sriovVfs && f.sriovVfsTotal == n.sriovVfsTotal
    && f.peerName == n.peerName && f.peerDescription == n.peerDescription && f.peerMac == n.peerMac
    && f.peerMgmtIp == n.peerMgmtIp && f.peerPort == n.peerPort
    && f.supported == Join(n.supported, ',') && f.advertising == Join(n.advertising, ',')
    && f.speed == n.speed && f.duplex == n.duplex && f.features == Join(n.features, ',')
    && f.mtu == n.mtu && (f.link == Up <==> n.linkUp) && f.bmc == n.bmcNet
  }

  predicate IsAddress(row: Row<nat, string, AddressFields>, a: SystemAddress) {
    && row.key == a.ip + "/" + Itoa(a.bits) && row.fields.status == row.fields.state == Configured
    && row.fields.detail == "IPAddress is configured"
    && (row.fields.configMethod == MethodStatic <==> a.mode == ModeStatic)
    && (row.fields.configMethod == MethodDynamic <==> a.mode == ModeDynamic)
  }

  /** The interfaces of the host, and under each of them its addresses, are one by one what is reported. */
  ghost predicate ShowsNetwork(nics: NicTable<NicFields>, ips: IpTable<AddressFields>, host: string,
                               hw: seq<Option<SystemNetwork>>)
  {
    && Shows(nics, host, hw, IsNic)
    && (forall n, nic {:trigger ShowsAddresses(nics, ips, host, n, nic)} | Some(n) in hw ::
          ShowsAddresses(nics, ips, host, n, nic))
  }

  /** If `nic` is the interface of that name, its addresses are the reported ones. */
  ghost predicate ShowsAddresses(nics: NicTable<NicFields>, ips: IpTable<AddressFields>, host: string,
                                 n: SystemNetwork, nic: nat)
  {
    Owned(nics, host, nic) && nics[nic].key == n.name ==> Shows(ips, nic, n.addresses, IsAddress)
  }

  ghost predicate DistinctNetworks(hw: seq<Option<SystemNetwork>>) {
    && (forall i, j | 0 <= i < j < |hw| :: hw[i].Some? && hw[j].Some? ==> hw[i].value.name != hw[j].value.name)
    && (forall n | Some(n) in hw :: DistinctAddresses(n.addresses))
  }

  ghost predicate DistinctAddresses(addresses: seq<Option<SystemAddress>>) {
    forall i, j | 0 <= i < j < |addresses| :: addresses[i].Some? && addresses[j].Some? ==>
      Cidr(addresses[i].value) != Cidr(addresses[j].value)
  }

  ghost predicate UniqueNetwork(nics: NicTable<NicFields>, ips: IpTable<AddressFields>, host: string) {
    UniqueKeys(nics, host) && forall nic | Owned(nics, host, nic) :: UniqueKeys(ips, nic)
  }

  lemma DistinctReport(nics: NicTable<NicFields>, ips: IpTable<AddressFields>, host: string,
                       hw: seq<Option<SystemNetwork>>)
    requires DistinctNetworks(hw) && UniqueNetwork(nics, ips, host)
    ensures AllDistinct(nics, ips, host, NetworkReport(hw))
  {
    var report := NetworkReport(hw);
    forall i | 0 <= i < |report| ensures UniqueReport(report[i].ips) {
      assert hw[i].Some? ==> Some(hw[i].value) in hw;
      assert DistinctAddresses(AddressesOf(hw[i]));
    }
  }

  lemma NicsShown(nics: NicTable<NicFields>, host: string, hw: seq<Option<SystemNetwork>>)
    requires Matches(nics, host, NicsOf(NetworkReport(hw)))
    ensures Shows(nics, host, hw, IsNic)
  {
    var report := Translate(hw, NicResource);
    assert NicsOf(NetworkReport(hw)) == report;
    forall i | 0 <= i < |hw| ensures hw[i].Some? {
      assert report[i] in report;
    }
    MatchingShows(nics, host, hw, NicResource, IsNic);
  }

  lemma AddressesShown(ips: IpTable<AddressFields>, nic: nat, addresses: seq<Option<SystemAddress>>)
    requires Matches(ips, nic, Translate(addresses, AddressResource))
    ensures Shows(ips, nic, addresses, IsAddress)
  {
    AllParse(addresses);
    MatchingShows(ips, nic, addresses, AddressResource, IsAddress);
  }

  lemma MatchingShowsNetwork(nics: NicTable<NicFields>, ips: IpTable<AddressFields>, host: string,
                             hw: seq<Option<SystemNetwork>>)
    requires AllMatch(nics, ips, host, NetworkReport(hw))
    ensures ShowsNetwork(nics, ips, host, hw)
  {
    NicsShown(nics, host, hw);
    forall n, nic | Some(n) in hw ensures ShowsAddresses(nics, ips, host, n, nic) {
      OwnAddressesShown(nics, ips, host, hw, n, nic);
    }
  }

  lemma OwnAddressesShown(nics: NicTable<NicFields>, ips: IpTable<AddressFields>, host: string,
                          hw: seq<Option<SystemNetwork>>, n: SystemNetwork, nic: nat)
    requires AllMatch(nics, ips, host, NetworkReport(hw)) && Some(n) in hw
    ensures ShowsAddresses(nics, ips, host, n, nic)
  {
    var i :| 0 <= i < |hw| && hw[i] == Some(n);
    if Owned(nics, host, nic) && nics[nic].key == n.name {
      assert About(nics, host, NetworkReport(hw), i, nic);
      AddressesShown(ips, nic, n.addresses);
    }
  }

  lemma AllParse(addresses: seq<Option<SystemAddress>>)
    ensures AllValid(Translate(addresses, AddressResource)) <==>
              forall a | a in addresses :: a.Some? && a.value.parses
    ensures AllValid(Translate(addresses, AddressResource)) ==> None !in addresses
  {
    var report := Translate(addresses, AddressResource);
    forall a | a in addresses && AllValid(report) ensures a.Some? && a.value.parses {
      var i :| 0 <= i < |addresses| && addresses[i] == a;
      assert report[i] in report;
    }
  }

  /** No message is missing and every address reads as a prefix. */
  ghost predicate Legible(hw: seq<Option<SystemNetwork>>) {
    forall i | 0 <= i < |hw| :: hw[i].Some? && forall a | a in hw[i].value.addresses :: a.Some? && a.value.parses
  }

  lemma LegibleTranslates(hw: seq<Option<SystemNetwork>>)
    requires Legible(hw)
    ensures AllTranslate(NetworkReport(hw))
  {
    forall i | 0 <= i < |hw| ensures AllValid(NetworkReport(hw)[i].ips) {
      AllParse(AddressesOf(hw[i]));
    }
  }

  // ---------- The reconciliation ----------

  /** On success, under distinct names and addresses, the network of the host is shown field by field. */
  method UpdateHostNetwork(nics: Inventory<string, string, NicFields>, ips: Inventory<nat, string, AddressFields>,
                           host: string, snapshot: seq<Device<string, string, NicFields>>,
                           hw: seq<Option<SystemNetwork>>)
    returns (ok: bool)
    requires (nics as object) != (ips as object)
    requires WellStarted(Now(nics, ips)) && Snapshot(snapshot, nics.table, host)
    modifies nics, ips
    ensures Linked(nics.table, ips.table)
    ensures NicsBetween(old(Now(nics, ips)), host, NetworkReport(hw), Now(nics, ips))
    ensures ok && DistinctNetworks(hw) && UniqueNetwork(old(nics.table), old(ips.table), host) ==>
              ShowsNetwork(nics.table, ips.table, host, hw)
    ensures nics.Reliable() && ips.Reliable() && Legible(hw) ==> ok
  {
    if Legible(hw) { LegibleTranslates(hw); }
    ghost var exact := DistinctNetworks(hw) && UniqueNetwork(nics.table, ips.table, host);
    if exact { DistinctReport(nics.table, ips.table, host, hw); }
    ok := UpdateHostnics(nics, ips, host, snapshot, NetworkReport(hw));
    if ok && exact { MatchingShowsNetwork(nics.table, ips.table, host, hw); }
  }
}
