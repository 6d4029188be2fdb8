/** `resource_map`, `restart_map`, `services` and `libvirt_daemon`: which
    configuration files a compute node manages, which services each one
    restarts and which contexts render it. */
module Resources {
  import opened PyText
  import opened Tables
  import opened Config

  /** The libvirt daemon's service name, given whether it has been renamed. */
  function DaemonFor(renamed: bool): Service
  {
    if renamed then Libvirtd else LibvirtBin
  }

  /** `libvirt_daemon()`: the service name of the libvirt daemon. */
  function LibvirtDaemon(hostRelease: nat, osRelease: nat): (d: Service)
    ensures d == Libvirtd <==> DaemonRenamed(hostRelease, osRelease)
    ensures d == LibvirtBin <==> !DaemonRenamed(hostRelease, osRelease)
  {
    DaemonFor(DaemonRenamed(hostRelease, osRelease))
  }

  /** The position of the first occurrence of `x`. */
  function FirstIndex<T(==)>(s: seq<T>, x: T): (i: nat)
    requires x in s
    ensures i < |s| && s[i] == x && x !in s[..i]
  {
    if s[0] == x then 0
    else
      var j := FirstIndex(s[1..], x);
      assert s[..j + 1] == [s[0]] + s[1..][..j];
      j + 1
  }

  /** `list.remove(x)`: drops the first occurrence of `x` and keeps the rest in order. */
  function RemoveFirst<T(==)>(s: seq<T>, x: T): seq<T>
    requires x in s
  {
    var i := FirstIndex(s, x);
    s[..i] + s[i + 1..]
  }

  /** The body of the rename loop for one entry's service list. */
  function RenamedServices(svcs: seq<Service>): seq<Service>
  {
    if LibvirtBin in svcs then RemoveFirst(svcs, LibvirtBin) + [Libvirtd] else svcs
  }

  /** Renaming trades exactly one libvirt-bin for a libvirtd at the end and
      leaves every other service in place; a list that named libvirt-bin at
      most once no longer names it. */
  lemma RenamedServicesSpec(svcs: seq<Service>)
    ensures LibvirtBin !in svcs ==> RenamedServices(svcs) == svcs
    ensures LibvirtBin in svcs ==>
      && multiset(RenamedServices(svcs)) ==
         multiset(svcs) - multiset{LibvirtBin} + multiset{Libvirtd}
      && RenamedServices(svcs)[|RenamedServices(svcs)| - 1] == Libvirtd
    ensures multiset(svcs)[LibvirtBin] <= 1 ==> LibvirtBin !in RenamedServices(svcs)
  {
    if LibvirtBin in svcs {
      var r := RemoveFirst(svcs, LibvirtBin);
      var i := FirstIndex(svcs, LibvirtBin);
      assert svcs == svcs[..i] + [svcs[i]] + svcs[i + 1..];
      assert multiset(svcs) == multiset(svcs[..i]) + multiset{LibvirtBin} + multiset(svcs[i + 1..]);
      assert multiset(r) == multiset(svcs[..i]) + multiset(svcs[i + 1..]);
      if multiset(svcs)[LibvirtBin] <= 1 {
        assert multiset(r)[LibvirtBin] == 0;
      }
    }
  }

  /** The rename loop touches only service lists: an entry that restarted
      libvirt-bin restarts libvirtd instead, appended at the end, with its other
      services as they were; every other entry is unchanged. */
  lemma DaemonRenamedEntries(m: ResourceMap)
    ensures WithDaemonRenamed(m).Keys == m.Keys
    ensures forall k :: k in m ==>
      var r := WithDaemonRenamed(m)[k];
      && r.contexts == m[k].contexts
      && (LibvirtBin !in m[k].services ==> r == m[k])
      && (LibvirtBin in m[k].services ==>
            && multiset(r.services) ==
               multiset(m[k].services) - multiset{LibvirtBin} + multiset{Libvirtd}
            && r.services[|r.services| - 1] == Libvirtd)
  {
    forall k | k in m {
      RenamedServicesSpec(m[k].services);
    }
  }

  /** The table `resource_map` deep-copies: the reduced one for lxd, the
      libvirt one otherwise. */
  function BaseTable(f: Flags): ResourceMap
  {
    if f.lxd then BaseResourceMap else LibvirtResourceMap
  }

  function AppendServices(r: Resource, extra: seq<Service>): Resource
  {
    r.(services := r.services + extra)
  }

  /** Legacy networking adds nova-api and nova-network to nova.conf's services;
      otherwise the two AppArmor profiles of those services are dropped. */
  function WithLegacy(m: ResourceMap, f: Flags): (r: ResourceMap)
    requires NovaConf in m
    ensures NovaConf in r
  {
    if f.legacy then m[NovaConf := AppendServices(m[NovaConf], [NovaApi, NovaNetwork])]
    else m - {NovaApiProfile, NovaNetworkProfile}
  }

  function WithDaemonRenamed(m: ResourceMap): (r: ResourceMap)
    ensures r.Keys == m.Keys
  {
    map k | k in m :: m[k].(services := RenamedServices(m[k].services))
  }

  function WithRename(m: ResourceMap, f: Flags): (r: ResourceMap)
    ensures r.Keys == m.Keys
  {
    if f.renamed then WithDaemonRenamed(m) else m
  }

  function WithNeutron(m: ResourceMap, f: Flags): (r: ResourceMap)
    requires NovaConf in m
    ensures r.Keys == m.Keys
  {
    if f.neutron then m[NovaConf := m[NovaConf].(contexts := m[NovaConf].contexts + [NeutronCompute])]
    else m
  }

  /** `resource_map.update(CEPH_RESOURCES)` when a ceph relation exists. */
  function WithCeph(m: ResourceMap, f: Flags, cephTable: ResourceMap): (r: ResourceMap)
    ensures m.Keys <= r.Keys
  {
    if f.ceph then m + cephTable else m
  }

  function WithMetadata(m: ResourceMap, f: Flags): ResourceMap
    requires NovaConf in m
  {
    if f.metadata then m[NovaConf := AppendServices(m[NovaConf], [NovaApiMetadata])] else m
  }

  /** CEPH_RESOURCES once a call has stored its Ceph config entry; the call
      leaves it so. */
  function CephInserted(table: ResourceMap, f: Flags): ResourceMap
  {
    if f.ceph then table[CephConfig := CephConfResource] else table
  }

  /** The map `resource_map` returns, given CEPH_RESOURCES as the call sees it
      after storing its own Ceph config entry. */
  function ResourceMapOf(f: Flags, cephTable: ResourceMap): ResourceMap
  {
    Edited(BaseTable(f), f, cephTable)
  }

  /** The edits `resource_map` makes to its copy of the base table, in order. */
  function Edited(m: ResourceMap, f: Flags, cephTable: ResourceMap): ResourceMap
    requires NovaConf in m
  {
    WithMetadata(WithCeph(WithNeutron(WithRename(WithLegacy(m, f), f), f), f, cephTable), f)
  }

  /** What CEPH_RESOURCES can hold: the secret entry, and the config entry
      once a call has stored it. */
  predicate CephTableOk(t: ResourceMap)
  {
    && t.Keys <= {CephSecret, CephConfig}
    && CephSecret in t && t[CephSecret] == CephSecretResource
    && (CephConfig in t ==> t[CephConfig] == CephConfResource)
  }

  /** The module state of hooks/nova_compute_utils.py that `resource_map`
      touches: the two base tables it only copies and CEPH_RESOURCES, which
      it writes into. */
  class Resolver {
    var baseResourceMap: ResourceMap
    var libvirtResourceMap: ResourceMap
    var cephResources: ResourceMap

    ghost predicate Valid()
      reads this
    {
      && baseResourceMap == BaseResourceMap
      && libvirtResourceMap == LibvirtResourceMap
      && CephTableOk(cephResources)
    }

    /** The module as imported. */
    constructor ()
      ensures Valid()
      ensures cephResources == InitialCephResources
    {
      baseResourceMap := BaseResourceMap;
      libvirtResourceMap := LibvirtResourceMap;
      cephResources := InitialCephResources;
    }

    /** `resource_map()`: copy a base table, then edit the copy in place;
        CEPH_RESOURCES keeps the entry the call stores into it. */
    method ResourceMap(s: Snapshot) returns (rm: ResourceMap)
      requires Valid()
      modifies this
      ensures Valid()
      ensures baseResourceMap == old(baseResourceMap) && libvirtResourceMap == old(libvirtResourceMap)
      ensures cephResources == CephInserted(old(cephResources), FlagsOf(s))
      ensures rm == ResourceMapOf(FlagsOf(s), cephResources)
    {
      if Lower(s.virtType) == "lxd" {
        rm := baseResourceMap;
      } else {
        rm := libvirtResourceMap;
      }
      assert rm == BaseTable(FlagsOf(s));
      rm, cephResources := EditResourceMap(rm, s, cephResources);
    }
  }

  /** The in-place edits of `resource_map()` to its copy `m` of a base table;
      `ceph` is CEPH_RESOURCES before the call and `cephAfter` after it. */
  method EditResourceMap(m: ResourceMap, s: Snapshot, ceph: ResourceMap)
    returns (rm: ResourceMap, cephAfter: ResourceMap)
    requires NovaConf in m
    ensures cephAfter == CephInserted(ceph, FlagsOf(s))
    ensures rm == Edited(m, FlagsOf(s), cephAfter)
  {
    ghost var f := FlagsOf(s);
    cephAfter := ceph;
    var netManager := s.netManager;
    rm := ApplyNetworkManager(m, s);
    ghost var m1 := WithLegacy(m, f);

    if s.hostRelease >= Yakkety || s.osRelease >= Ocata {
      rm := RenameDaemonInPlace(rm);
    }
    ghost var m2 := WithRename(m1, f);
    assert rm == m2;

    if netManager == Some("neutron") || netManager == Some("quantum") {
      rm := rm[NovaConf := rm[NovaConf].(contexts := rm[NovaConf].contexts + [NeutronCompute])];
    }
    ghost var m3 := WithNeutron(m2, f);
    assert rm == m3;

    if s.cephRelated {
      cephAfter := cephAfter[CephConfig := CephConfResource];
      rm := rm + cephAfter;
    }
    assert rm == WithCeph(m3, f, cephAfter);

    if s.metadataRequired {
      rm := rm[NovaConf := rm[NovaConf].(services := rm[NovaConf].services + [NovaApiMetadata])];
    }
  }

  /** The flat-networking branch: nova.conf restarts nova-api and nova-network
      too, or else the AppArmor profiles of those two services are dropped. */
  method ApplyNetworkManager(m: ResourceMap, s: Snapshot) returns (rm: ResourceMap)
    requires NovaConf in m
    ensures rm == WithLegacy(m, FlagsOf(s))
  {
    rm := m;
    var netManager := s.netManager;
    if (netManager == Some("flatmanager") || netManager == Some("flatdhcpmanager"))
      && Lower(s.multiHost) == "yes" && s.osRelease < Ocata
    {
      rm := rm[NovaConf := rm[NovaConf].(services := rm[NovaConf].services + [NovaApi, NovaNetwork])];
    } else {
      rm := rm - {NovaApiProfile};
      rm := rm - {NovaNetworkProfile};
    }
  }

  /** The loop over the map's values that swaps libvirt-bin for libvirtd. */
  method RenameDaemonInPlace(m: ResourceMap) returns (rm: ResourceMap)
    ensures rm == WithDaemonRenamed(m)
  {
    rm := m;
    var pending := rm.Keys;
    while pending != {}
      invariant pending <= rm.Keys && rm.Keys == m.Keys
      invariant forall k :: k in rm && k !in pending ==>
        rm[k] == m[k].(services := RenamedServices(m[k].services))
      invariant forall k :: k in pending ==> rm[k] == m[k]
      decreases pending
    {
      var k :| k in pending;
      if LibvirtBin in rm[k].services {
        var svcs := RemoveFirst(rm[k].services, LibvirtBin) + [Libvirtd];
        rm := rm[k := rm[k].(services := svcs)];
      }
      pending := pending - {k};
    }
  }

  /** `restart_map()`: each managed file with the services it restarts. */
  function RestartMap(rm: ResourceMap): (r: map<File, seq<Service>>)
    ensures r.Keys == rm.Keys
    ensures forall k :: k in r ==> r[k] == rm[k].services
  {
    map k | k in rm :: rm[k].services
  }

  /** `services()`: every service some managed file restarts, each once. */
  function ServiceSet(restart: map<File, seq<Service>>): (r: set<Service>)
    ensures forall x :: x in r <==> exists k :: k in restart && x in restart[k]
  {
    set k, x | k in restart && x in restart[k] :: x
  }


  // ---------------------------------------------------------------------
  // A reference description of the result, for every combination of decisions

  /** The files managed from the base tables: nova.conf and the nova-compute
      profile always, the nova-api and nova-network profiles under legacy
      networking, the five libvirt files unless the node runs lxd. */
  predicate Expected(f: Flags, k: File)
  {
    match k
    case NovaConf => true
    case NovaComputeProfile => true
    case NovaApiProfile => f.legacy
    case NovaNetworkProfile => f.legacy
    case CephSecret => false
    case CephConfig => false
    case _ => !f.lxd
  }

  /** The files of the table `resource_map` copies. */
  predicate InBaseTable(f: Flags, k: File)
  {
    match k
    case NovaConf => true
    case NovaComputeProfile => true
    case NovaApiProfile => true
    case NovaNetworkProfile => true
    case CephSecret => false
    case CephConfig => false
    case _ => !f.lxd
  }

  /** The services each file of the base tables restarts before any edit. */
  function BaseRestarts(k: File): seq<Service>
  {
    match k
    case NovaConf => [NovaCompute]
    case NovaApiProfile => [NovaApi]
    case NovaComputeProfile => [NovaCompute]
    case NovaNetworkProfile => [NovaNetwork]
    case QemuKvmDefaults => [QemuKvm]
    case CephSecret => []
    case CephConfig => [NovaCompute]
    case _ => [LibvirtBin]
  }

  /** The contexts that render each file, before any edit. */
  function BaseContexts(k: File): seq<Context>
  {
    match k
    case NovaConf => NovaConfContexts
    case NovaApiProfile => [NovaAPIAppArmor]
    case NovaComputeProfile => [NovaComputeAppArmor]
    case NovaNetworkProfile => [NovaNetworkAppArmor]
    case LibvirtBinOverrides => [NovaComputeLibvirtOverride]
    case CephSecret => [NovaComputeCeph]
    case CephConfig => [NovaComputeCeph]
    case _ => [NovaComputeLibvirt]
  }

  /** The services each expected file restarts after the edits. */
  function ExpectedRestarts(f: Flags, k: File): seq<Service>
  {
    match k
    case NovaConf =>
      [NovaCompute]
      + (if f.legacy then [NovaApi, NovaNetwork] else [])
      + (if f.metadata then [NovaApiMetadata] else [])
    case QemuConf => [DaemonFor(f.renamed)]
    case LibvirtdConf => [DaemonFor(f.renamed)]
    case LibvirtBinDefaults => [DaemonFor(f.renamed)]
    case LibvirtBinOverrides => [DaemonFor(f.renamed)]
    case _ => BaseRestarts(k)
  }

  /** The contexts that render each expected file after the edits. */
  function ExpectedContexts(f: Flags, k: File): seq<Context>
  {
    if k == NovaConf && f.neutron then NovaConfContexts + [NeutronCompute] else BaseContexts(k)
  }

  /** `m` is a table as `resource_map` copies it: its files and each file's
      services and contexts. */
  predicate BaseShape(m: ResourceMap, f: Flags)
  {
    && (forall k :: k in m <==> InBaseTable(f, k))
    && forall k :: k in m ==> m[k] == Resource(BaseRestarts(k), BaseContexts(k))
  }

  /** BASE_RESOURCE_MAP and LIBVIRT_RESOURCE_MAP have that shape. */
  lemma BaseTableShape(f: Flags)
    ensures BaseShape(BaseTable(f), f)
  {
    if f.lxd {
      BaseResourceMapShape(f);
    } else {
      LibvirtResourceMapShape(f);
    }
  }

  lemma BaseResourceMapShape(f: Flags)
    requires f.lxd
    ensures BaseShape(BaseResourceMap, f)
  {
    BaseEntries();
  }

  lemma BaseEntries()
    ensures forall k :: k in BaseResourceMap ==> BaseResourceMap[k] == Resource(BaseRestarts(k), BaseContexts(k))
  {
  }

  lemma LibvirtOnlyEntries()
    ensures forall k :: k in LibvirtOnlyResourceMap ==>
      && k != CephSecret && k != CephConfig
      && LibvirtOnlyResourceMap[k] == Resource(BaseRestarts(k), BaseContexts(k))
  {
  }

  lemma LibvirtResourceMapShape(f: Flags)
    requires !f.lxd
    ensures BaseShape(LibvirtResourceMap, f)
  {
    BaseEntries();
    LibvirtOnlyEntries();
    var m := LibvirtResourceMap;
    assert m == LibvirtOnlyResourceMap + BaseResourceMap;
    forall k | k in m
      ensures m[k] == Resource(BaseRestarts(k), BaseContexts(k))
    {
      if k in BaseResourceMap {
        assert m[k] == BaseResourceMap[k];
      } else {
        assert m[k] == LibvirtOnlyResourceMap[k];
      }
    }
    forall k | InBaseTable(f, k)
      ensures k in m
    {
      if k !in BaseResourceMap {
        assert k in LibvirtOnlyResourceMap;
      }
    }
  }

  /** The first two edits: the legacy-networking choice, then the rename. */
  lemma LegacyStep(m: ResourceMap, f: Flags)
    requires BaseShape(m, f)
    ensures forall k :: k in WithLegacy(m, f) <==> Expected(f, k)
    ensures forall k :: k in WithLegacy(m, f) && k != NovaConf ==> WithLegacy(m, f)[k] == m[k]
    ensures WithLegacy(m, f)[NovaConf] ==
      Resource([NovaCompute] + (if f.legacy then [NovaApi, NovaNetwork] else []), NovaConfContexts)
  {
  }

  lemma RenameStep(m1: ResourceMap, f: Flags)
    requires forall k :: k in m1 && k != NovaConf ==> m1[k] == Resource(BaseRestarts(k), BaseContexts(k))
    requires NovaConf in m1 && LibvirtBin !in m1[NovaConf].services
    ensures WithRename(m1, f).Keys == m1.Keys
    ensures WithRename(m1, f)[NovaConf] == m1[NovaConf]
    ensures forall k :: k in m1 && k != NovaConf ==>
      WithRename(m1, f)[k] == Resource(ExpectedRestarts(f, k), BaseContexts(k))
  {
    var m2 := WithRename(m1, f);
    forall k | k in m1 && k != NovaConf
      ensures m2[k] == Resource(ExpectedRestarts(f, k), BaseContexts(k))
    {
      if f.renamed && BaseRestarts(k) == [LibvirtBin] {
        assert RemoveFirst([LibvirtBin], LibvirtBin) == [];
      }
    }
  }

  /** The last three edits: the neutron context, the Ceph merge and the
      metadata service. */
  lemma LastSteps(m2: ResourceMap, f: Flags, t: ResourceMap)
    requires forall k :: k in m2 <==> Expected(f, k)
    requires forall k :: k in m2 && k != NovaConf ==>
      m2[k] == Resource(ExpectedRestarts(f, k), ExpectedContexts(f, k))
    requires NovaConf in m2 && m2[NovaConf] ==
      Resource([NovaCompute] + (if f.legacy then [NovaApi, NovaNetwork] else []), NovaConfContexts)
    requires CephTableOk(t)
    ensures var rm := WithMetadata(WithCeph(WithNeutron(m2, f), f, t), f);
      && (forall k :: k in rm <==> Expected(f, k) || (f.ceph && k in t))
      && (forall k :: Expected(f, k) ==> rm[k] == Resource(ExpectedRestarts(f, k), ExpectedContexts(f, k)))
      && (f.ceph ==> forall k :: k in t ==> rm[k] == t[k])
  {
    var m3 := WithNeutron(m2, f);
    assert m3[NovaConf] == Resource(m2[NovaConf].services, ExpectedContexts(f, NovaConf));
    var m4 := WithCeph(m3, f, t);
    assert f.ceph ==> m4 == m3 + t;
    var rm := WithMetadata(m4, f);
    assert rm[NovaConf] == Resource(ExpectedRestarts(f, NovaConf), ExpectedContexts(f, NovaConf));
    forall k | Expected(f, k) && k != NovaConf
      ensures rm[k] == Resource(ExpectedRestarts(f, k), ExpectedContexts(f, k))
    {
      assert k !in t;
      assert m4[k] == m3[k];
      assert rm[k] == m4[k];
    }
  }

  /** The edits, applied to any table of that shape, manage exactly the
      expected files with exactly their expected services and contexts, plus
      the CEPH_RESOURCES entries as they are. */
  lemma EditedExact(m: ResourceMap, f: Flags, t: ResourceMap)
    requires BaseShape(m, f)
    requires CephTableOk(t)
    ensures forall k :: k in Edited(m, f, t) <==> Expected(f, k) || (f.ceph && k in t)
    ensures forall k :: Expected(f, k) ==>
      Edited(m, f, t)[k] == Resource(ExpectedRestarts(f, k), ExpectedContexts(f, k))
    ensures f.ceph ==> forall k :: k in t ==> Edited(m, f, t)[k] == t[k]
  {
    LegacyStep(m, f);
    var m1 := WithLegacy(m, f);
    RenameStep(m1, f);
    LastSteps(WithRename(m1, f), f, t);
  }

  /** `rm` is the reference description of the result: exactly the expected
      files, each with its expected services and contexts, plus the
      CEPH_RESOURCES entries as they are when a ceph relation exists. */
  predicate MatchesReference(rm: ResourceMap, f: Flags, t: ResourceMap)
  {
    && (forall k :: k in rm <==> Expected(f, k) || (f.ceph && k in t))
    && (forall k :: Expected(f, k) ==>
          k in rm && rm[k] == Resource(ExpectedRestarts(f, k), ExpectedContexts(f, k)))
    && (f.ceph ==> forall k :: k in t ==> k in rm && rm[k] == t[k])
  }

  /** `resource_map()` agrees with the reference description. */
  lemma ResourceMapExact(f: Flags, t: ResourceMap)
    requires CephTableOk(t)
    ensures MatchesReference(ResourceMapOf(f, t), f, t)
  {
    BaseTableShape(f);
    EditedExact(BaseTable(f), f, t);
  }

  // ---------------------------------------------------------------------
  // Consequences for any map that matches the reference description

  /** Base table choice: with virt-type lxd none of the five libvirt files is
      managed; with any other virt-type all five are. */
  lemma LibvirtFilesManaged(rm: ResourceMap, f: Flags, t: ResourceMap)
    requires CephTableOk(t) && MatchesReference(rm, f, t)
    ensures forall k :: k in LibvirtFiles ==> (k in rm <==> !f.lxd)
  {
  }

  /** Legacy networking keeps the nova-api and nova-network profiles, and
      otherwise neither is managed; nova.conf and the nova-compute profile
      always are. */
  lemma AppArmorProfilesManaged(rm: ResourceMap, f: Flags, t: ResourceMap)
    requires CephTableOk(t) && MatchesReference(rm, f, t)
    ensures NovaConf in rm && NovaComputeProfile in rm
    ensures NovaApiProfile in rm <==> f.legacy
    ensures NovaNetworkProfile in rm <==> f.legacy
  {
    assert Expected(f, NovaConf) && Expected(f, NovaComputeProfile);
  }

  /** nova.conf restarts nova-compute, then nova-api and nova-network under
      legacy networking, then nova-api-metadata when metadata is required; its
      contexts are the base list with one NeutronComputeContext appended
      exactly when the manager is neutron or quantum. */
  lemma NovaConfEntry(rm: ResourceMap, f: Flags, t: ResourceMap)
    requires MatchesReference(rm, f, t)
    ensures NovaConf in rm
    ensures rm[NovaConf].services ==
      [NovaCompute]
      + (if f.legacy then [NovaApi, NovaNetwork] else [])
      + (if f.metadata then [NovaApiMetadata] else [])
    ensures rm[NovaConf].contexts == NovaConfContexts + (if f.neutron then [NeutronCompute] else [])
  {
    assert Expected(f, NovaConf);
  }

  /** The four libvirt-daemon files restart exactly the daemon the release
      calls for, and qemu-kvm's defaults restart qemu-kvm, whenever the
      libvirt table is used. */
  lemma LibvirtEntriesRestartDaemon(rm: ResourceMap, f: Flags, t: ResourceMap)
    requires !f.lxd
    requires MatchesReference(rm, f, t)
    ensures forall k :: k in LibvirtFiles && k != QemuKvmDefaults ==>
      k in rm && rm[k].services == [if f.renamed then Libvirtd else LibvirtBin]
    ensures QemuKvmDefaults in rm && rm[QemuKvmDefaults].services == [QemuKvm]
  {
    assert Expected(f, QemuKvmDefaults);
    forall k | k in LibvirtFiles && k != QemuKvmDefaults
      ensures k in rm && rm[k].services == [if f.renamed then Libvirtd else LibvirtBin]
    {
      assert Expected(f, k);
    }
  }

  /** The rename in `resource_map` agrees with `libvirt_daemon()`: on a
      libvirt node, each of the four libvirt-daemon files restarts exactly
      the daemon `libvirt_daemon()` names for the same releases. */
  lemma LibvirtDaemonAgreesWithResourceMap(s: Snapshot, t: ResourceMap)
    requires !IsLxd(s) && CephTableOk(t)
    ensures forall k :: k in LibvirtFiles && k != QemuKvmDefaults ==>
      && k in ResourceMapOf(FlagsOf(s), t)
      && ResourceMapOf(FlagsOf(s), t)[k].services == [LibvirtDaemon(s.hostRelease, s.osRelease)]
  {
    var f := FlagsOf(s);
    ResourceMapExact(f, t);
    LibvirtEntriesRestartDaemon(ResourceMapOf(f, t), f, t);
  }

  /** Once the daemon is renamed, no managed file restarts libvirt-bin. */
  lemma NoLibvirtBinWhenRenamed(rm: ResourceMap, f: Flags, t: ResourceMap)
    requires CephTableOk(t) && MatchesReference(rm, f, t)
    requires f.renamed
    ensures forall k :: k in rm ==> LibvirtBin !in rm[k].services
  {
    forall k | k in rm
      ensures LibvirtBin !in rm[k].services
    {
      if !Expected(f, k) {
        assert k in t;
      }
    }
  }

  /** With a ceph relation the secret and the Ceph config file are managed as
      CEPH_RESOURCES describes them; without one neither is, and
      CEPH_RESOURCES is left alone. */
  lemma CephResourcesMerged(f: Flags, table: ResourceMap)
    requires CephTableOk(table)
    ensures CephTableOk(CephInserted(table, f))
    ensures f.ceph ==>
      var rm := ResourceMapOf(f, CephInserted(table, f));
      && CephSecret in rm && rm[CephSecret] == CephSecretResource
      && CephConfig in rm && rm[CephConfig] == CephConfResource
    ensures !f.ceph ==>
      && CephInserted(table, f) == table
      && CephSecret !in ResourceMapOf(f, table)
      && CephConfig !in ResourceMapOf(f, table)
  {
    ResourceMapExact(f, CephInserted(table, f));
  }

  /** The map a call returns depends only on its decisions: whatever earlier
      calls stored in CEPH_RESOURCES, the result is the one the first call
      would give. */
  lemma ResultIndependentOfHistory(f: Flags, t1: ResourceMap, t2: ResourceMap)
    requires CephTableOk(t1) && CephTableOk(t2)
    ensures ResourceMapOf(f, CephInserted(t1, f)) == ResourceMapOf(f, CephInserted(t2, f))
  {
    if f.ceph {
      assert CephInserted(t1, f) == CephInserted(t2, f);
    } else {
      var m3 := WithNeutron(WithRename(WithLegacy(BaseTable(f), f), f), f);
      assert WithCeph(m3, f, t1) == WithCeph(m3, f, t2);
    }
  }

  /** The services a node with these decisions runs: nova-compute always,
      nova-api and nova-network under legacy networking, the libvirt daemon
      and qemu-kvm unless the node runs lxd, nova-api-metadata when metadata
      is required. */
  predicate ExpectedService(f: Flags, x: Service)
  {
    || x == NovaCompute
    || (f.legacy && (x == NovaApi || x == NovaNetwork))
    || (!f.lxd && (x == DaemonFor(f.renamed) || x == QemuKvm))
    || (f.metadata && x == NovaApiMetadata)
  }

  /** `services()` of a map that matches the reference lists exactly the
      expected services. */
  lemma ServicesOfReference(rm: ResourceMap, f: Flags, t: ResourceMap)
    requires CephTableOk(t) && MatchesReference(rm, f, t)
    ensures forall x :: x in ServiceSet(RestartMap(rm)) <==> ExpectedService(f, x)
  {
    ExpectedServicesListed(rm, f, t);
    ListedServicesExpected(rm, f, t);
  }

  lemma ExpectedServicesListed(rm: ResourceMap, f: Flags, t: ResourceMap)
    requires MatchesReference(rm, f, t)
    ensures forall x :: ExpectedService(f, x) ==> x in ServiceSet(RestartMap(rm))
  {
    var r := RestartMap(rm);
    if !f.lxd {
      assert Expected(f, QemuConf) && Expected(f, QemuKvmDefaults);
      assert DaemonFor(f.renamed) in r[QemuConf];
      assert QemuKvm in r[QemuKvmDefaults];
    }
    if f.legacy {
      assert Expected(f, NovaApiProfile) && Expected(f, NovaNetworkProfile);
      assert NovaApi in r[NovaApiProfile];
      assert NovaNetwork in r[NovaNetworkProfile];
    }
    assert Expected(f, NovaConf);
    if f.metadata {
      assert NovaApiMetadata in r[NovaConf];
    }
    assert NovaCompute in r[NovaConf];
  }

  lemma ListedServicesExpected(rm: ResourceMap, f: Flags, t: ResourceMap)
    requires CephTableOk(t) && MatchesReference(rm, f, t)
    ensures forall x :: x in ServiceSet(RestartMap(rm)) ==> ExpectedService(f, x)
  {
    var r := RestartMap(rm);
    forall k, x | k in r && x in r[k]
      ensures ExpectedService(f, x)
    {
      if !Expected(f, k) {
        assert rm[k] == t[k];
      }
    }
  }
}
