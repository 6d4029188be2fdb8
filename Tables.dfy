/** The constant tables of hooks/nova_compute_utils.py: the managed files and
    the services they restart, the base resource maps, the Ceph resources'
    initial contents, the virt-type package table, the libvirt URIs, the base
    packages and the required interfaces. */
module Tables {

  /** Context providers, as opaque tags: only their identity and their order
      in a context list matter here. */
  datatype Context =
    | AMQP | SharedDB | ImageService | OSConfigFlag | CloudCompute | Lxd
    | NovaComputeLibvirt | NovaComputeCeph | Syslog | SubordinateConfig
    | InstanceConsole | ZeroMQ | NotificationDriver | MetadataService | HostIP
    | NovaComputeVirt | LogLevel | InternalEndpoint | VolumeAPI | SerialConsole
    | NovaComputeAvailabilityZone | WorkerConfig
    | NovaAPIAppArmor | NovaComputeAppArmor | NovaNetworkAppArmor
    | NovaComputeLibvirtOverride | NeutronCompute

  /** The configuration files a compute node can manage, by path:
      NovaConf is /etc/nova/nova.conf, QemuConf /etc/libvirt/qemu.conf,
      LibvirtdConf /etc/libvirt/libvirtd.conf, LibvirtBinDefaults
      /etc/default/libvirt-bin, LibvirtBinOverrides
      /etc/init/libvirt-bin.override, QemuKvmDefaults /etc/default/qemu-kvm,
      the three profiles live under /etc/apparmor.d/, CephSecret is
      /etc/ceph/secret.xml and CephConfig is the path `ceph_config_file()`
      returns (a file under /var/lib/charm/, so never one of the others). */
  datatype File =
    | NovaConf | QemuConf | LibvirtdConf | LibvirtBinDefaults | LibvirtBinOverrides
    | QemuKvmDefaults | NovaApiProfile | NovaComputeProfile | NovaNetworkProfile
    | CephSecret | CephConfig

  /** The services a file change restarts: nova-compute, nova-api,
      nova-network, nova-api-metadata, libvirt-bin, libvirtd and qemu-kvm. */
  datatype Service =
    | NovaCompute | NovaApi | NovaNetwork | NovaApiMetadata | LibvirtBin | Libvirtd | QemuKvm

  /** One managed configuration file: the services it restarts and the
      contexts that render it. */
  datatype Resource = Resource(services: seq<Service>, contexts: seq<Context>)

  type ResourceMap = map<File, Resource>

  /** The five files only a libvirt-backed compute node manages. */
  const LibvirtFiles: set<File> :=
    {QemuConf, QemuKvmDefaults, LibvirtdConf, LibvirtBinDefaults, LibvirtBinOverrides}

  const NovaConfContexts: seq<Context> :=
    [AMQP, SharedDB, ImageService, OSConfigFlag, CloudCompute, Lxd,
     NovaComputeLibvirt, NovaComputeCeph, Syslog, SubordinateConfig,
     InstanceConsole, ZeroMQ, NotificationDriver, MetadataService, HostIP,
     NovaComputeVirt, LogLevel, InternalEndpoint, VolumeAPI, SerialConsole,
     NovaComputeAvailabilityZone, WorkerConfig]

  const BaseResourceMap: ResourceMap := map[
    NovaConf := Resource([NovaCompute], NovaConfContexts),
    NovaApiProfile := Resource([NovaApi], [NovaAPIAppArmor]),
    NovaComputeProfile := Resource([NovaCompute], [NovaComputeAppArmor]),
    NovaNetworkProfile := Resource([NovaNetwork], [NovaNetworkAppArmor])
  ]

  /** LIBVIRT_RESOURCE_MAP as written, before the module updates it. */
  const LibvirtOnlyResourceMap: ResourceMap := map[
    QemuConf := Resource([LibvirtBin], [NovaComputeLibvirt]),
    QemuKvmDefaults := Resource([QemuKvm], [NovaComputeLibvirt]),
    LibvirtdConf := Resource([LibvirtBin], [NovaComputeLibvirt]),
    LibvirtBinDefaults := Resource([LibvirtBin], [NovaComputeLibvirt]),
    LibvirtBinOverrides := Resource([LibvirtBin], [NovaComputeLibvirtOverride])
  ]

  /** LIBVIRT_RESOURCE_MAP after its module-level `update(BASE_RESOURCE_MAP)`. */
  const LibvirtResourceMap: ResourceMap := LibvirtOnlyResourceMap + BaseResourceMap

  const CephSecretResource := Resource([], [NovaComputeCeph])
  const CephConfResource := Resource([NovaCompute], [NovaComputeCeph])

  /** CEPH_RESOURCES as the module defines it, before any call adds to it. */
  const InitialCephResources: ResourceMap := map[CephSecret := CephSecretResource]

  const VirtTypes: map<string, seq<string>> := map[
    "kvm" := ["nova-compute-kvm"],
    "qemu" := ["nova-compute-qemu"],
    "uml" := ["nova-compute-uml"],
    "lxc" := ["nova-compute-lxc"],
    "lxd" := ["nova-compute-lxd"]
  ]

  const LibvirtUris: map<string, string> := map[
    "kvm" := "qemu:///system",
    "qemu" := "qemu:///system",
    "uml" := "uml:///system",
    "lxc" := "lxc:///"
  ]

  const BasePackages: seq<string> :=
    ["nova-compute", "genisoimage", "librbd1", "python-six", "python-psutil"]

  const RequiredInterfaces: map<string, seq<string>> := map[
    "messaging" := ["amqp"],
    "image" := ["image-service"]
  ]
}
