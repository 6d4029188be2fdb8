/** The configuration and relation snapshot the resolver reads, and the
    release thresholds it compares against. */
module Config {
  import opened PyText

  /** Host releases are positions in the Ubuntu series order
      (lucid = 0, ..., wily = 11, xenial = 12, yakkety = 13, ...). */
  const Wily: nat := 11
  const Yakkety: nat := 13

  /** OpenStack releases are positions in the OpenStack series order
      (diablo = 0, ..., newton = 10, ocata = 11, ...). */
  const Ocata: nat := 11

  /** What `resource_map` and `determine_packages` look up through `config`,
      `network_manager`, `lsb_release`, `os_release`, `relation_ids('ceph')`,
      `nova_metadata_requirement` and `platform.machine`. */
  datatype Snapshot = Snapshot(
    virtType: string,
    multiHost: string,
    netManager: Option<string>,
    hostRelease: nat,
    osRelease: nat,
    cephRelated: bool,
    metadataRequired: bool,
    machine: string)

  /** Legacy nova-network: a flat manager, multi-host and a release before ocata. */
  predicate LegacyNetworking(s: Snapshot)
  {
    && (s.netManager == Some("flatmanager") || s.netManager == Some("flatdhcpmanager"))
    && Lower(s.multiHost) == "yes"
    && s.osRelease < Ocata
  }

  /** The libvirt daemon was renamed from libvirt-bin to libvirtd in yakkety and ocata. */
  predicate DaemonRenamed(hostRelease: nat, osRelease: nat)
  {
    hostRelease >= Yakkety || osRelease >= Ocata
  }

  predicate NeutronManaged(s: Snapshot)
  {
    s.netManager == Some("neutron") || s.netManager == Some("quantum")
  }

  predicate IsLxd(s: Snapshot)
  {
    Lower(s.virtType) == "lxd"
  }

  /** The six decisions `resource_map` takes from the snapshot before it
      edits its table. */
  datatype Flags = Flags(
    lxd: bool,
    legacy: bool,
    renamed: bool,
    neutron: bool,
    ceph: bool,
    metadata: bool)

  function FlagsOf(s: Snapshot): Flags
  {
    Flags(IsLxd(s), LegacyNetworking(s), DaemonRenamed(s.hostRelease, s.osRelease),
          NeutronManaged(s), s.cephRelated, s.metadataRequired)
  }
}

