/** `_network_config`, `network_manager` and `neutron_plugin`: the network
    settings a compute node reads from its cloud-compute relations. */
module Network {
  import opened PyText

  const NetworkManagerKey := "network_manager"
  const NeutronPluginKey := "neutron_plugin"
  const QuantumPluginKey := "quantum_plugin"

  /** The settings read from every related unit, in the order they are read. */
  const Settings: seq<string> := [NetworkManagerKey, NeutronPluginKey, QuantumPluginKey]

  /** One remote unit's relation data: `relation_get` of a missing key is None. */
  type UnitData = map<string, string>

  /** The cloud-compute relations: for each relation id, its related units in order. */
  type Relations = seq<seq<UnitData>>

  /** The unit supplies a truthy (present and non-empty) value for `key`. */
  predicate Supplies(u: UnitData, key: string)
  {
    key in u && u[key] != ""
  }

  /** All related units, relation by relation, in the order the loops visit them. */
  function Units(rels: Relations): seq<UnitData>
  {
    if rels == [] then [] else Units(rels[..|rels| - 1]) + rels[|rels| - 1]
  }

  /** The store of one setting from one unit: only a truthy value overwrites. */
  function Store(cfg: map<string, string>, u: UnitData, key: string): map<string, string>
  {
    if Supplies(u, key) then cfg[key := u[key]] else cfg
  }

  /** The stores for the first `n` settings from one unit. */
  function StoreSettings(cfg: map<string, string>, u: UnitData, n: nat): map<string, string>
    requires n <= |Settings|
  {
    if n == 0 then cfg else Store(StoreSettings(cfg, u, n - 1), u, Settings[n - 1])
  }

  /** The configuration after visiting `units` in order. */
  function ConfigOf(units: seq<UnitData>): map<string, string>
  {
    if units == [] then map[]
    else StoreSettings(ConfigOf(units[..|units| - 1]), units[|units| - 1], |Settings|)
  }

  /** `_network_config`: for every relation id, every related unit and every
      setting, a truthy value overwrites the one stored before. */
  method NetworkConfig(rels: Relations) returns (cfg: map<string, string>)
    ensures cfg == ConfigOf(Units(rels))
  {
    cfg := map[];
    var r := 0;
    while r < |rels|
      invariant 0 <= r <= |rels|
      invariant cfg == ConfigOf(Units(rels[..r]))
    {
      var units := rels[r];
      var i := 0;
      assert rels[..r + 1][..r] == rels[..r];
      assert Units(rels[..r]) + units[..0] == Units(rels[..r]);
      while i < |units|
        invariant 0 <= i <= |units|
        invariant cfg == ConfigOf(Units(rels[..r]) + units[..i])
      {
        var before := cfg;
        var k := 0;
        while k < |Settings|
          invariant 0 <= k <= |Settings|
          invariant cfg == StoreSettings(before, units[i], k)
        {
          var setting := Settings[k];
          if setting in units[i] && units[i][setting] != "" {
            cfg := cfg[setting := units[i][setting]];
          }
          k := k + 1;
        }
        assert (Units(rels[..r]) + units[..i + 1])[..|Units(rels[..r]) + units[..i]|]
               == Units(rels[..r]) + units[..i];
        i := i + 1;
      }
      assert units[..i] == units;
      r := r + 1;
    }
    assert rels[..r] == rels;
  }

  /** The stores of the first `n` settings touch only those settings, and
      each of them ends up with the unit's value exactly when it supplies one. */
  lemma {:induction false} StoreSettingsEffect(cfg: map<string, string>, u: UnitData, n: nat, key: string)
    requires n <= |Settings|
    ensures key in StoreSettings(cfg, u, n) <==> key in cfg || (key in Settings[..n] && Supplies(u, key))
    ensures key in Settings[..n] && Supplies(u, key) ==> StoreSettings(cfg, u, n)[key] == u[key]
    ensures !(key in Settings[..n] && Supplies(u, key)) && key in cfg ==>
              StoreSettings(cfg, u, n)[key] == cfg[key]
  {
    if n > 0 {
      StoreSettingsEffect(cfg, u, n - 1, key);
      assert Settings[..n] == Settings[..n - 1] + [Settings[n - 1]];
    }
  }

  /** `key` is a setting the unit at index `j` supplies, and no later unit does. */
  predicate LastSupplier(units: seq<UnitData>, key: string, j: int)
  {
    && 0 <= j < |units|
    && Supplies(units[j], key)
    && forall i :: j < i < |units| ==> !Supplies(units[i], key)
  }

  /** The last truthy value wins: a key is stored exactly when it is one of
      the three settings and some unit supplies it, and then its value is
      the one the last supplying unit gave. */
  lemma {:induction false} LastValueWins(units: seq<UnitData>, key: string)
    ensures key in ConfigOf(units) <==>
              key in Settings && exists i :: 0 <= i < |units| && Supplies(units[i], key)
    ensures key in ConfigOf(units) ==>
              exists j :: LastSupplier(units, key, j) && ConfigOf(units)[key] == units[j][key]
  {
    if units != [] {
      var n := |units| - 1;
      var prefix := units[..n];
      LastValueWins(prefix, key);
      StoreSettingsEffect(ConfigOf(prefix), units[n], |Settings|, key);
      assert Settings[..|Settings|] == Settings;
      if key in Settings && Supplies(units[n], key) {
        assert LastSupplier(units, key, n);
      } else if key in ConfigOf(prefix) {
        var j :| LastSupplier(prefix, key, j) && ConfigOf(prefix)[key] == prefix[j][key];
        assert LastSupplier(units, key, j);
      }
      if exists i :: 0 <= i < |units| && Supplies(units[i], key) {
        var i :| 0 <= i < |units| && Supplies(units[i], key);
        if i < n {
          assert Supplies(prefix[i], key);
        }
      }
    }
  }

  /** Every stored value is truthy. */
  lemma {:induction false} StoredValuesNonEmpty(units: seq<UnitData>, key: string)
    requires key in ConfigOf(units)
    ensures ConfigOf(units)[key] != ""
  {
    LastValueWins(units, key);
  }

  /** `network_manager`: the stored manager lowered when truthy, otherwise
      whatever was stored (None when absent). */
  function NetworkManager(cfg: map<string, string>): (r: Option<string>)
    ensures r == None <==> NetworkManagerKey !in cfg
    ensures r.Some? && cfg[NetworkManagerKey] != "" ==> r.value != "" && Lower(r.value) == r.value
  {
    if NetworkManagerKey !in cfg then None
    else if cfg[NetworkManagerKey] == "" then Some(cfg[NetworkManagerKey])
    else
      LowerIdempotent(cfg[NetworkManagerKey]);
      Some(Lower(cfg[NetworkManagerKey]))
  }

  /** Over the relations: no manager when no unit advertises one, otherwise
      the lowered value the last advertising unit gave. */
  lemma NetworkManagerOfRelations(rels: Relations)
    ensures NetworkManager(ConfigOf(Units(rels))) == None <==>
              forall i :: 0 <= i < |Units(rels)| ==> !Supplies(Units(rels)[i], NetworkManagerKey)
    ensures NetworkManager(ConfigOf(Units(rels))).Some? ==>
              exists j :: LastSupplier(Units(rels), NetworkManagerKey, j)
                && NetworkManager(ConfigOf(Units(rels))) == Some(Lower(Units(rels)[j][NetworkManagerKey]))
  {
    LastValueWins(Units(rels), NetworkManagerKey);
  }

  /** `neutron_plugin`: the neutron plugin setting when truthy, else the
      quantum plugin setting (None when absent). */
  function NeutronPlugin(cfg: map<string, string>): (r: Option<string>)
    ensures Supplies(cfg, NeutronPluginKey) ==> r == Some(cfg[NeutronPluginKey])
    ensures !Supplies(cfg, NeutronPluginKey) ==>
              (r == None <==> QuantumPluginKey !in cfg) && (r.Some? ==> r.value == cfg[QuantumPluginKey])
  {
    if Supplies(cfg, NeutronPluginKey) then Some(cfg[NeutronPluginKey])
    else if QuantumPluginKey in cfg then Some(cfg[QuantumPluginKey])
    else None
  }

  /** Over the relations: the last truthy neutron plugin any unit gave;
      failing that, the last truthy quantum plugin; None when no unit gives
      either. */
  lemma NeutronPluginOfRelations(units: seq<UnitData>)
    ensures NeutronPlugin(ConfigOf(units)) == None <==>
              forall i :: 0 <= i < |units| ==>
                !Supplies(units[i], NeutronPluginKey) && !Supplies(units[i], QuantumPluginKey)
    ensures (exists i :: 0 <= i < |units| && Supplies(units[i], NeutronPluginKey)) ==>
              exists j :: LastSupplier(units, NeutronPluginKey, j)
                && NeutronPlugin(ConfigOf(units)) == Some(units[j][NeutronPluginKey])
    ensures (forall i :: 0 <= i < |units| ==> !Supplies(units[i], NeutronPluginKey))
            && (exists i :: 0 <= i < |units| && Supplies(units[i], QuantumPluginKey)) ==>
              exists j :: LastSupplier(units, QuantumPluginKey, j)
                && NeutronPlugin(ConfigOf(units)) == Some(units[j][QuantumPluginKey])
  {
    var cfg := ConfigOf(units);
    assert NeutronPluginKey in Settings && QuantumPluginKey in Settings by {
      assert Settings[1] == NeutronPluginKey && Settings[2] == QuantumPluginKey;
    }
    LastValueWins(units, NeutronPluginKey);
    LastValueWins(units, QuantumPluginKey);
    if NeutronPluginKey in cfg {
      StoredValuesNonEmpty(units, NeutronPluginKey);
    }
  }
}
