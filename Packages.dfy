/** `determine_packages` and `determine_packages_arch`: the packages a compute
    node installs for a configuration snapshot. */
module Packages {
  import opened PyText
  import opened Tables
  import opened Config

  const QemuEfi := "qemu-efi"
  const CephCommon := "ceph-common"
  const NovaApiPackage := "nova-api"
  const NovaNetworkPackage := "nova-network"
  const NovaApiMetadataPackage := "nova-api-metadata"

  /** Architecture packages: AArch64 cloud images need UEFI firmware from wily on. */
  function PackagesArch(machine: string, hostRelease: nat): (r: seq<string>)
    ensures QemuEfi in r <==> machine == "aarch64" && hostRelease >= Wily
    ensures forall p :: p in r ==> p == QemuEfi
  {
    if machine == "aarch64" && hostRelease >= Wily then [QemuEfi] else []
  }

  function LegacyPackages(legacy: bool): seq<string>
  {
    if legacy then [NovaApiPackage, NovaNetworkPackage] else []
  }

  function CephPackages(ceph: bool): seq<string>
  {
    if ceph then [CephCommon] else []
  }

  function MetadataPackages(metadata: bool): seq<string>
  {
    if metadata then [NovaApiMetadataPackage] else []
  }

  /** The list `determine_packages` returns, section by section; an unknown
      virt type is the KeyError it re-raises, carrying the missing key. */
  function PackageList(s: Snapshot): Result<seq<string>, string>
  {
    if s.virtType !in VirtTypes then Err(s.virtType)
    else Ok(BasePackages + LegacyPackages(LegacyNetworking(s)) + CephPackages(s.cephRelated)
            + VirtTypes[s.virtType] + MetadataPackages(s.metadataRequired)
            + PackagesArch(s.machine, s.hostRelease))
  }

  /** `determine_packages`: start from BASE_PACKAGES and extend or append in
      the source's order; the virt-type lookup is case-sensitive. */
  method DeterminePackages(s: Snapshot) returns (r: Result<seq<string>, string>)
    ensures r.Err? <==> s.virtType !in VirtTypes
    ensures r.Err? ==> r.error == s.virtType
    ensures r == PackageList(s)
  {
    var packages := [] + BasePackages;
    if LegacyNetworking(s) {
      packages := packages + [NovaApiPackage, NovaNetworkPackage];
    }
    if s.cephRelated {
      packages := packages + [CephCommon];
    }
    assert packages == BasePackages + LegacyPackages(LegacyNetworking(s)) + CephPackages(s.cephRelated);
    if s.virtType !in VirtTypes {
      return Err(s.virtType);
    }
    packages := packages + VirtTypes[s.virtType];
    if s.metadataRequired {
      packages := packages + [NovaApiMetadataPackage];
    }
    assert packages == BasePackages + LegacyPackages(LegacyNetworking(s)) + CephPackages(s.cephRelated)
                       + VirtTypes[s.virtType] + MetadataPackages(s.metadataRequired);
    var arch := PackagesArch(s.machine, s.hostRelease);
    packages := packages + arch;
    return Ok(packages);
  }

  /** No virt type's packages include the optional packages the other
      sections add, so each of those is present only through its own section. */
  lemma VirtPackagesDistinct(v: string)
    requires v in VirtTypes
    ensures NovaApiPackage !in VirtTypes[v] && NovaNetworkPackage !in VirtTypes[v]
    ensures CephCommon !in VirtTypes[v] && NovaApiMetadataPackage !in VirtTypes[v]
    ensures QemuEfi !in VirtTypes[v]
  {
  }

  /** A successful list is, by membership, BASE_PACKAGES, the legacy pair under
      the legacy condition, ceph-common under a ceph relation, the virt type's
      packages, nova-api-metadata when metadata is required and qemu-efi on
      AArch64 from wily on. */
  lemma {:induction false} PackageMembership(s: Snapshot, p: string)
    requires PackageList(s).Ok?
    ensures p in PackageList(s).value <==>
      || p in BasePackages
      || (LegacyNetworking(s) && (p == NovaApiPackage || p == NovaNetworkPackage))
      || (s.cephRelated && p == CephCommon)
      || p in VirtTypes[s.virtType]
      || (s.metadataRequired && p == NovaApiMetadataPackage)
      || (s.machine == "aarch64" && s.hostRelease >= Wily && p == QemuEfi)
  {
    var parts := [BasePackages, LegacyPackages(LegacyNetworking(s)), CephPackages(s.cephRelated),
                  VirtTypes[s.virtType], MetadataPackages(s.metadataRequired),
                  PackagesArch(s.machine, s.hostRelease)];
    var r := PackageList(s).value;
    assert r == parts[0] + parts[1] + parts[2] + parts[3] + parts[4] + parts[5];
    assert p in r <==> p in parts[0] || p in parts[1] || p in parts[2] || p in parts[3]
                        || p in parts[4] || p in parts[5];
  }

  /** The list starts with BASE_PACKAGES, unchanged. */
  lemma StartsWithBasePackages(s: Snapshot)
    requires PackageList(s).Ok?
    ensures |BasePackages| <= |PackageList(s).value|
    ensures PackageList(s).value[..|BasePackages|] == BasePackages
  {
  }

  /** `part` appears in `r` as a contiguous run starting at `i`. */
  predicate RunAt(r: seq<string>, part: seq<string>, i: int)
  {
    0 <= i <= |r| - |part| && r[i..i + |part|] == part
  }

  /** The virt type's own packages follow the earlier sections, in order. */
  lemma VirtTypePackagesIncluded(s: Snapshot)
    requires s.virtType in VirtTypes
    ensures PackageList(s).Ok?
    ensures exists i :: RunAt(PackageList(s).value, VirtTypes[s.virtType], i)
  {
    var head := BasePackages + LegacyPackages(LegacyNetworking(s)) + CephPackages(s.cephRelated);
    var v := VirtTypes[s.virtType];
    var r := PackageList(s).value;
    assert r == head + v + (MetadataPackages(s.metadataRequired) + PackagesArch(s.machine, s.hostRelease));
    assert r[|head|..|head| + |v|] == v;
    assert RunAt(r, v, |head|);
  }

  /** nova-api and nova-network are installed exactly under the legacy
      networking condition `resource_map` also uses. */
  lemma LegacyPackagesIff(s: Snapshot)
    requires PackageList(s).Ok?
    ensures NovaApiPackage in PackageList(s).value <==> LegacyNetworking(s)
    ensures NovaNetworkPackage in PackageList(s).value <==> LegacyNetworking(s)
  {
    PackageMembership(s, NovaApiPackage);
    PackageMembership(s, NovaNetworkPackage);
    VirtPackagesDistinct(s.virtType);
  }

  /** ceph-common is installed exactly when a ceph relation exists. */
  lemma CephCommonIff(s: Snapshot)
    requires PackageList(s).Ok?
    ensures CephCommon in PackageList(s).value <==> s.cephRelated
  {
    PackageMembership(s, CephCommon);
    VirtPackagesDistinct(s.virtType);
  }

  /** nova-api-metadata is installed exactly when metadata is required. */
  lemma MetadataPackageIff(s: Snapshot)
    requires PackageList(s).Ok?
    ensures NovaApiMetadataPackage in PackageList(s).value <==> s.metadataRequired
  {
    PackageMembership(s, NovaApiMetadataPackage);
    VirtPackagesDistinct(s.virtType);
  }

  /** qemu-efi is installed exactly on AArch64 hosts from wily on. */
  lemma QemuEfiIff(s: Snapshot)
    requires PackageList(s).Ok?
    ensures QemuEfi in PackageList(s).value <==> s.machine == "aarch64" && s.hostRelease >= Wily
  {
    PackageMembership(s, QemuEfi);
    VirtPackagesDistinct(s.virtType);
  }

  /** The lookup does not lower the virt type, unlike `resource_map`'s lxd
      test: "LXD" selects the lxd resource table but fails here. */
  lemma VirtTypeCaseSensitive()
    ensures PackageList(Snapshot("LXD", "no", None, 16, 14, false, false, "x86_64")).Err?
    ensures IsLxd(Snapshot("LXD", "no", None, 16, 14, false, false, "x86_64"))
  {
    assert Lower("LXD") == "lxd";
  }
}
