# nova-compute charm: resource, service and package resolution

This project models the decision core of the nova-compute charm's
`hooks/nova_compute_utils.py`.
Given the unit's configuration, its relations and the host and OpenStack releases, the charm decides:

- which configuration files it manages (`resource_map`);
- which services a change to each file restarts (`restart_map`, `services`);
- which context providers render each file;
- which packages it installs (`determine_packages`, `determine_packages_arch`).

Alongside these sit several small decisions, each made over the output of an external command, which is passed in as a value:

- reading the network manager from the cloud-compute relations (`_network_config`, `network_manager`, `neutron_plugin`);
- importing SSH keys, all or nothing (`import_authorized_keys`);
- defining a libvirt secret only when it is missing or changed (`create_libvirt_secret`);
- destroying a libvirt network (`destroy_libvirt_network`);
- setting the ppc64 SMT state (`set_ppc64_cpu_smt_state`);
- reading the hugepages setting (`get_hugepage_number`);
- collecting the optional relations the workload status requires (`get_optional_relations`).

Modules:

- `PyText`: the Python string and integer primitives the decisions rest on. These are `str.lower`, `str.strip`, the `in` substring test, `int(str)` and `'{}'.format(n)`, with the round trip between the last two.
- `Tables`: the module's constant tables. Files, services and context providers are enumerations, so context order stays visible.
- `Config`: the configuration snapshot, the release thresholds (wily, yakkety, ocata as positions in their series) and the six decisions `resource_map` takes (`Flags`).
- `Resources`: `resource_map` as a class over the module state it touches (`Resolver`). The base tables are only copied; `CEPH_RESOURCES` is written into. The class has one method, `ResourceMap`. The edits it applies are module-level methods (`EditResourceMap`, `ApplyNetworkManager`, `RenameDaemonInPlace`) that rebuild the map values step by step, in source order. A reference description (`MatchesReference`) states, file by file, what the result holds, and the properties below follow from it.
- `Packages`, `Network`, `SshKeys`, `Virsh`, `Host`, `Status`: the remaining operations.

## Model

| member | source | states |
|---|---|---|
| Resources.LibvirtDaemon | hooks/nova_compute_utils.py:238-245 | the daemon is libvirtd exactly when the host is at or after yakkety or OpenStack is at or after ocata, and libvirt-bin otherwise |
| Resources.LibvirtDaemonAgreesWithResourceMap | hooks/nova_compute_utils.py:236-279 | on a libvirt node, each of the four libvirt-daemon files in `resource_map()` restarts exactly the daemon `libvirt_daemon()` names for the same releases |
| Resources.RenamedServicesSpec | hooks/nova_compute_utils.py:276-279 | renaming removes one libvirt-bin and appends libvirtd, as multisets, leaving other services alone; a list that held libvirt-bin at most once no longer names it; a list without it is unchanged |
| Resources.DaemonRenamedEntries | hooks/nova_compute_utils.py:273-279 | the rename keeps every file and every context list; only entries that restarted libvirt-bin change, and they end with libvirtd |
| Resources.Resolver.constructor | hooks/nova_compute_utils.py:203-211 | at import, CEPH_RESOURCES holds only the secret entry and the base tables are as declared |
| Resources.Resolver.ResourceMap | hooks/nova_compute_utils.py:248-297 | the base tables stay unchanged; CEPH_RESOURCES gains the Ceph config entry exactly when a ceph relation exists; the result is the edit chain applied to the table chosen by the lowercased virt type |
| Resources.EditResourceMap | hooks/nova_compute_utils.py:259-296 | the in-place edits in source order give the legacy, rename, neutron, ceph and metadata edits of the copied table, and CEPH_RESOURCES after the call |
| Resources.ApplyNetworkManager | hooks/nova_compute_utils.py:262-271 | legacy networking extends nova.conf's services with nova-api and nova-network; otherwise the two AppArmor profiles are popped |
| Resources.RenameDaemonInPlace | hooks/nova_compute_utils.py:273-279 | the loop over all entries yields every entry with libvirt-bin replaced by libvirtd at the end and nothing else changed |
| Resources.RestartMap | hooks/nova_compute_utils.py:300-305 | the restart map has exactly the keys of the resource map, each mapped to that entry's service list |
| Resources.ServiceSet | hooks/nova_compute_utils.py:308-310 | a service is listed exactly when some entry restarts it, and only once |
| Resources.BaseTableShape | hooks/nova_compute_utils.py:129-201 | the copied table holds the four base files, plus the five libvirt files unless the virt type is lxd, each with its declared services and contexts |
| Resources.LibvirtResourceMapShape | hooks/nova_compute_utils.py:179-201 | LIBVIRT_RESOURCE_MAP, after its module-level update with BASE_RESOURCE_MAP, holds all nine files with their declared entries |
| Resources.LegacyStep | hooks/nova_compute_utils.py:262-271 | after the network-manager edit, the files are exactly the expected ones; nova.conf restarts nova-compute then, under legacy networking, nova-api and nova-network |
| Resources.RenameStep | hooks/nova_compute_utils.py:273-279 | after the rename, every file but nova.conf restarts exactly its expected services, and nova.conf is untouched |
| Resources.LastSteps | hooks/nova_compute_utils.py:284-296 | the neutron context, the Ceph merge and the metadata service give the expected entries, plus the CEPH_RESOURCES entries as they are |
| Resources.EditedExact | hooks/nova_compute_utils.py:259-296 | the whole edit chain, applied to a copied table, manages exactly the expected files with the expected services and contexts, plus the Ceph entries under a ceph relation |
| Resources.ResourceMapExact | hooks/nova_compute_utils.py:248-297 | `resource_map` agrees with the reference description for every combination of the six decisions |
| Resources.LibvirtFilesManaged | hooks/nova_compute_utils.py:254-257 | with virt type lxd none of the five libvirt files is managed; with any other virt type all five are |
| Resources.AppArmorProfilesManaged | hooks/nova_compute_utils.py:262-271 | the nova-api and nova-network profiles are managed exactly under legacy networking; nova.conf and the nova-compute profile always are |
| Resources.NovaConfEntry | hooks/nova_compute_utils.py:262-296 | nova.conf restarts nova-compute, then nova-api and nova-network under legacy networking, then nova-api-metadata when required; its contexts are the base list plus exactly one neutron context at the end exactly when the manager is neutron or quantum |
| Resources.LibvirtEntriesRestartDaemon | hooks/nova_compute_utils.py:273-279 | on a libvirt node, the four libvirt-daemon files restart exactly the daemon the releases call for, and qemu-kvm's defaults restart qemu-kvm |
| Resources.NoLibvirtBinWhenRenamed | hooks/nova_compute_utils.py:273-279 | once the daemon is renamed, no managed file restarts libvirt-bin |
| Resources.CephResourcesMerged | hooks/nova_compute_utils.py:287-292 | with a ceph relation, the secret (no services) and the Ceph config file (nova-compute) are managed and CEPH_RESOURCES keeps the config entry; without one, neither is managed and CEPH_RESOURCES is unchanged |
| Resources.ResultIndependentOfHistory | hooks/nova_compute_utils.py:287-292 | whatever earlier calls stored in CEPH_RESOURCES, a call with the same decisions returns the same map |
| Resources.ServicesOfReference | hooks/nova_compute_utils.py:308-310 | `services()` is exactly nova-compute, plus nova-api and nova-network under legacy networking, the libvirt daemon and qemu-kvm off lxd, and nova-api-metadata when required |
| Resources.ExpectedServicesListed | hooks/nova_compute_utils.py:308-310 | every expected service is among those `services()` returns |
| Resources.ListedServicesExpected | hooks/nova_compute_utils.py:308-310 | `services()` returns no service beyond the expected ones |
| Packages.PackagesArch | hooks/nova_compute_utils.py:340-348 | the architecture list names qemu-efi exactly on aarch64 at or after wily, and nothing else |
| Packages.DeterminePackages | hooks/nova_compute_utils.py:351-375 | the KeyError is raised exactly when the virt type, as written, is not a VIRT_TYPES key; otherwise the list is built section by section in source order |
| Packages.VirtPackagesDistinct | hooks/nova_compute_utils.py:214-220 | no virt type's packages include nova-api, nova-network, ceph-common, nova-api-metadata or qemu-efi |
| Packages.PackageMembership | hooks/nova_compute_utils.py:351-375 | a package is listed exactly when it is a base package or belongs to one of the conditional sections whose condition holds |
| Packages.StartsWithBasePackages | hooks/nova_compute_utils.py:352 | the list starts with BASE_PACKAGES, unchanged |
| Packages.VirtTypePackagesIncluded | hooks/nova_compute_utils.py:364-368 | for a known virt type the list succeeds and contains VIRT_TYPES[virt_type] as a contiguous run |
| Packages.LegacyPackagesIff | hooks/nova_compute_utils.py:355-359 | nova-api and nova-network are listed exactly under the legacy networking condition `resource_map` uses |
| Packages.CephCommonIff | hooks/nova_compute_utils.py:361-362 | ceph-common is listed exactly when a ceph relation exists |
| Packages.MetadataPackageIff | hooks/nova_compute_utils.py:369-371 | nova-api-metadata is listed exactly when metadata is required |
| Packages.QemuEfiIff | hooks/nova_compute_utils.py:340-348 | qemu-efi is listed exactly on aarch64 at or after wily |
| Packages.VirtTypeCaseSensitive | hooks/nova_compute_utils.py:364-368 | the lookup is case-sensitive: virt type "LXD" selects the lxd resource table but fails the package lookup |
| Network.NetworkConfig | hooks/nova_compute_utils.py:383-396 | the nested loops over relation ids, units and the three settings compute the fold of truthy stores over all units in visiting order |
| Network.StoreSettingsEffect | hooks/nova_compute_utils.py:391-395 | one unit's stores set exactly the settings it supplies truthy values for, to those values, and leave the rest as they were |
| Network.LastValueWins | hooks/nova_compute_utils.py:383-396 | a key is stored exactly when it is one of the three settings and some unit supplies it, and its value is the one the last supplying unit gave |
| Network.StoredValuesNonEmpty | hooks/nova_compute_utils.py:394-395 | no stored value is empty |
| Network.NetworkManager | hooks/nova_compute_utils.py:404-416 | the manager is None exactly when none is stored; a truthy stored manager comes back non-empty and in lower case |
| Network.NetworkManagerOfRelations | hooks/nova_compute_utils.py:404-416 | there is no manager exactly when no unit advertises one; otherwise it is the lowercased value of the last unit that does |
| Network.NeutronPlugin | hooks/nova_compute_utils.py:399-401 | a truthy neutron plugin setting is returned; otherwise the quantum plugin setting, or None when absent |
| Network.NeutronPluginOfRelations | hooks/nova_compute_utils.py:383-401 | over the relations: None exactly when no unit advertises either plugin; otherwise the value of the last unit advertising a neutron plugin, or failing any, of the last unit advertising a quantum plugin |
| SshKeys.Entries | hooks/nova_compute_utils.py:486-507 | entry i of the fetched list is the value of the i-th indexed key, with one entry per index up to the count |
| SshKeys.FetchEntries | hooks/nova_compute_utils.py:486-497 | fetching fails exactly when the count is present, non-empty and not an integer; otherwise it returns the entries for indices 0 up to the count |
| SshKeys.WriteLines | hooks/nova_compute_utils.py:522-527 | writing line by line produces the text with one line per entry in order |
| SshKeys.ImportAuthorizedKeys | hooks/nova_compute_utils.py:478-527 | the method's outcome is the all-or-nothing import: the failure, no write, or both files' full text |
| SshKeys.SkippedIff | hooks/nova_compute_utils.py:513-514 | nothing is written exactly when both counts read as integers and one of them yields no entries |
| SshKeys.FailsIff | hooks/nova_compute_utils.py:486-507 | the import fails exactly when one of the two counts is present, non-empty and not an integer |
| SshKeys.LinesRoundTrip | hooks/nova_compute_utils.py:522-527 | the written text splits back into one line per entry, in order, when no entry holds a newline |
| SshKeys.WrittenFilesHoldEntries | hooks/nova_compute_utils.py:513-527 | when both counts are positive, both files are written; each holds exactly its count of lines, line i being entry i (a missing entry written as None), as long as the fetched entries hold no newline |
| Virsh.SecretCommands | hooks/nova_compute_utils.py:570-589 | the URI lookup fails exactly for virt types without a libvirt URI, before any command; otherwise the secret list comes first; the call raises exactly when the last command issued failed, and no earlier command failed |
| Virsh.SecretWrittenIff | hooks/nova_compute_utils.py:573-589 | when the queries succeed: the stored value is read exactly when the uuid is listed; the secret is defined exactly when the uuid is not listed or its stripped stored value differs from the key; its value is set, last and right after the define, exactly when the define succeeded |
| Virsh.SecretSettles | hooks/nova_compute_utils.py:573-580 | once the uuid is listed and the stored value is the key plus trailing whitespace, a call only queries and completes, whatever define and set-value would do |
| Virsh.SecretFailsForLxd | hooks/nova_compute_utils.py:223-228 | LIBVIRT_URIS has no lxd entry, so the lookup fails for lxd before any command runs |
| Virsh.DestroyLibvirtNetwork | hooks/nova_compute_utils.py:592-614 | destroy is issued exactly when the listing succeeds, has at least three lines and some line from the third on names the network; failures end as a warning, a skip for errno 2, or a re-raise |
| Virsh.NetListExample | hooks/nova_compute_utils.py:599-602 | an indented row naming the network matches, and an unindented one does not |
| Host.SmtDecision | hooks/nova_compute_utils.py:451-475 | nothing is done exactly when the output shows `SMT=<state>`, or the state is off and the output says SMT is off; otherwise the set command is issued, and its failure blocks the unit with the message |
| Host.SmtSettles | hooks/nova_compute_utils.py:461-462 | an output that shows the requested state anywhere leaves it unchanged |
| Host.SmtOffReport | hooks/nova_compute_utils.py:461-466 | "SMT is off" satisfies a request for off whatever a set would do; any other state is set, because that report shows no `SMT=` |
| Host.HugepageNumber | hooks/nova_compute_utils.py:662-680 | an unset or empty setting gives None; a trailing '%' selects the memory-share branch; anything else is read by `int()`, whose failure carries the setting |
| Host.HugepageRoundTrip | hooks/nova_compute_utils.py:678-679 | any integer written as the setting reads back as that page count |
| Status.OptionalRelations | hooks/nova_compute_utils.py:708-720 | the storage-backend, neutron-plugin and database interfaces are present exactly when their relations have ids, and no other key is |
| Status.MergedInterfaces | hooks/nova_compute_utils.py:751-752 | the merged interfaces keep messaging and image with their declared values, and add exactly the optional interfaces whose relations exist, each naming its relation |

## Left out

- Commands, files and the network. Every `check_call`, `check_output`, `subprocess` call, file write, `relation_get`, `config` and `lsb_release` lookup becomes a parameter or a result value. This covers:
  - `initialize_ssh_keys`, `public_ssh_key`, `import_keystone_ca_cert`;
  - `configure_lxd`, `configure_subuid`, `enable_shell`, `disable_shell`, `fix_path_ownership`, `assert_charm_supports_ipv6`;
  - `install_hugepages`, `register_configs`, `migration_enabled`.
- `do_openstack_upgrade`: a fixed sequence of package, templating and restart calls into library code; it has no decisions of its own.
- The retry and back-off decorator on `lxc_list`: it is timing behaviour of a library.
- The memory-share branch of `get_hugepage_number`: it computes with floating point from the host's memory total. Host.HugepageNumber stops at `MemoryShare`.
- `assess_status`, `assess_status_func` and the pause and resume helpers: thin wrappers over library status functions. Only the interface merge they perform is modelled (Status.MergedInterfaces).
- Context providers, the templating renderer, release comparison and relation access. Contexts are opaque tags. Releases are positions in their series.
- `ceph_config_file()` belongs to a module that is not part of this model. Its path lies under the charm's own directory, so it is the distinct tag `CephConfig`. As a consequence, CEPH_RESOURCES holds at most the secret and that one config entry. The nova-api-metadata append at line 296 can therefore never reach a list shared with CEPH_RESOURCES.
- Dictionary iteration order and the order of `list(set(...))` in `services()`: both are modelled as sets or maps. The order of service and context lists is kept.
- Python's full Unicode `lower()` and `strip()`, and underscores in `int()` literals. Text is ASCII plus the Latin-1 whitespace characters.
- `str.splitlines` of the net-list output: the listing is given as its lines.
- Virsh.NamesNetwork: a network name containing regular-expression metacharacters is matched literally, not as a pattern.
- Resources.ServicesOfReference: the service set is characterised per decision set (`Flags`), not restated per raw configuration snapshot.
- Network.NetworkManager: the source's second comparison against 'neutron' returns the same value on both branches, so it is not modelled separately.
- SshKeys.ImportAuthorizedKeys: the destination paths (the `authorized-keys-path` template and the user's home directory) are not modelled. The outcome is the text of the two files. A non-integer count string is the only error modelled.
- Host.SmtDecision: the blocked status message is modelled; the log lines are not.
- Dictionary aliasing. `resource_map` deep-copies its base table, but the shallow `update` at line 292 makes the result share CEPH_RESOURCES's entry dictionaries. The model works on values, so this sharing is not modelled. Under value semantics, Resources.Resolver.ResourceMap's promise that the base tables stay unchanged holds by construction.

`resource_map` writes into the module-level CEPH_RESOURCES table, so the table is not built fresh on each call. The model keeps that table as a field of `Resources.Resolver`. Resources.ResultIndependentOfHistory shows that the accumulation never changes a later call's result.
