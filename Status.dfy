/** `get_optional_relations` and the interfaces the workload status requires
    once those are merged into REQUIRED_INTERFACES. */
module Status {
  import opened Tables

  const StorageBackend := "storage-backend"
  const NeutronPluginInterface := "neutron-plugin"
  const Database := "database"

  /** `get_optional_relations`: an interface for each optional relation that
      has at least one relation id. */
  function OptionalRelations(cephIds: seq<string>, neutronPluginIds: seq<string>,
                             sharedDbIds: seq<string>): (r: map<string, seq<string>>)
    ensures forall k :: k in r ==> k == StorageBackend || k == NeutronPluginInterface || k == Database
    ensures StorageBackend in r <==> cephIds != []
    ensures NeutronPluginInterface in r <==> neutronPluginIds != []
    ensures Database in r <==> sharedDbIds != []
  {
    var withCeph: map<string, seq<string>> := if cephIds != [] then map[StorageBackend := ["ceph"]] else map[];
    var withNeutron := if neutronPluginIds != [] then withCeph[NeutronPluginInterface := ["neutron-plugin"]] else withCeph;
    if sharedDbIds != [] then withNeutron[Database := ["shared-db"]] else withNeutron
  }

  /** The interfaces passed to the status check: a copy of
      REQUIRED_INTERFACES updated with the optional ones. */
  function RequiredWith(optional: map<string, seq<string>>): map<string, seq<string>>
  {
    RequiredInterfaces + optional
  }

  /** The merge keeps messaging and image as required, adds exactly the
      optional interfaces whose relations exist, each naming its relation,
      and adds nothing else. */
  lemma {:induction false} MergedInterfaces(cephIds: seq<string>, neutronPluginIds: seq<string>,
                                            sharedDbIds: seq<string>, k: string)
    ensures var m := RequiredWith(OptionalRelations(cephIds, neutronPluginIds, sharedDbIds));
            && (k in m <==> k == "messaging" || k == "image"
                            || (k == StorageBackend && cephIds != [])
                            || (k == NeutronPluginInterface && neutronPluginIds != [])
                            || (k == Database && sharedDbIds != []))
            && m["messaging"] == ["amqp"] && m["image"] == ["image-service"]
            && (k == StorageBackend && k in m ==> m[k] == ["ceph"])
            && (k == NeutronPluginInterface && k in m ==> m[k] == ["neutron-plugin"])
            && (k == Database && k in m ==> m[k] == ["shared-db"])
  {
    var opt := OptionalRelations(cephIds, neutronPluginIds, sharedDbIds);
    assert "messaging" !in opt && "image" !in opt;
  }
}
