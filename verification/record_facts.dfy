/** Properties of the node records built for guests: which keys a record can
    hold, where each value comes from, and what a stopped guest lacks. */
module RecordFacts {
  import opened Results
  import opened Text
  import opened Dicts
  import opened Values
  import opened IpAddress
  import opened OsInfo
  import opened NodeRecords

  /** The attribute tables never name a base key, the IP attribute or the
      OS name and family, and list each attribute once. */
  lemma AttributeNames(kind: GuestKind)
    ensures forall k | HasKey(AttributesOf(kind), k) :: k !in BaseKeys && k != "ip_address"
    ensures forall k | HasKey(AttributesOf(kind), k) :: k != "os_name" && k != "os_family"
    ensures DistinctKeys(AttributesOf(kind))
  {
    match kind
    case Qemu => TableNames(QemuAttributes);
    case Lxc => TableNames(LxcAttributes);
  }

  lemma TableNames(table: AttributeTable)
    requires table == QemuAttributes || table == LxcAttributes
    ensures forall k | HasKey(table, k) :: k !in BaseKeys && k != "ip_address"
    ensures forall k | HasKey(table, k) :: k != "os_name" && k != "os_family"
    ensures DistinctKeys(table)
  {
    if table == QemuAttributes {
      QemuNames();
    } else {
      LxcNames();
    }
  }

  lemma QemuNames()
    ensures forall k | HasKey(QemuAttributes, k) :: k !in BaseKeys && k != "ip_address" && k != "os_name" && k != "os_family"
    ensures DistinctKeys(QemuAttributes)
  {
  }

  lemma LxcNames()
    ensures forall k | HasKey(LxcAttributes, k) :: k !in BaseKeys && k != "ip_address" && k != "os_name" && k != "os_family"
    ensures DistinctKeys(LxcAttributes)
  {
  }

  /** The metric attributes never name a base key, the IP attribute or an
      OS key. */
  lemma MetricNames()
    ensures forall k | HasKey(Metrics, k) :: k !in BaseKeys && k != "ip_address" && k !in OsKeys
  {
  }

  /** The only metric attribute the configuration can also supply is
      `proxmox_maxmem_bytes`. */
  lemma MetricsOutsideConfig(kind: GuestKind)
    ensures forall i | 0 <= i < |Metrics| && Metrics[i].0 != "proxmox_maxmem_bytes" ::
      !HasKey(AttributesOf(kind), Metrics[i].0)
  {
  }

  /** OS keys are never base keys. */
  lemma OsNames()
    ensures forall k | k in OsKeys :: k !in BaseKeys && k != "ip_address"
  {
  }

  /** Where the added attributes come from: the IP address, the
      configuration table, the OS information, and the metrics only when the
      guest runs and reported status. No key is repeated. */
  lemma ExtrasKeys(kind: GuestKind, ip: string, config: Config, os: OsDetails,
                   running: bool, status: map<string, string>)
    ensures DistinctKeys(Extras(kind, ip, config, os, running, status))
    ensures forall k | HasKey(Extras(kind, ip, config, os, running, status), k) ::
      k == "ip_address" || HasKey(AttributesOf(kind), k) || k in OsKeys
        || (running && |status| > 0 && HasKey(Metrics, k))
  {
    var withIp: Dict<string> := if ip != "" then [("ip_address", ip)] else [];
    var configured := ConfigAttributes(config, AttributesOf(kind));
    var withConfig := PutAll(withIp, configured);
    var osPairs := OsPairs(os);
    var withOs := PutAll(withConfig, osPairs);
    OsPairsKeys(os);
    PutAllKeys(withIp, configured);
    PutAllKeys(withConfig, osPairs);
    assert forall k | HasKey(withIp, k) :: k == "ip_address";
    if running && |status| > 0 {
      PutAllKeys(withOs, MetricAttributes(status));
    }
  }

  /** The added attributes repeat no key and never shadow a base key; with
      no metrics added they are only the IP, configuration and OS keys. */
  lemma ExtrasShape(kind: GuestKind, ip: string, config: Config, os: OsDetails,
                    running: bool, status: map<string, string>)
    ensures DistinctKeys(Extras(kind, ip, config, os, running, status))
    ensures forall k | HasKey(Extras(kind, ip, config, os, running, status), k) :: k !in BaseKeys
  {
    var extra := Extras(kind, ip, config, os, running, status);
    ExtrasKeys(kind, ip, config, os, running, status);
    forall k | HasKey(extra, k)
      ensures k !in BaseKeys
    {
      AddedNotBase(kind, k);
    }
  }

  /** No name an added attribute can have is a base key. */
  lemma AddedNotBase(kind: GuestKind, k: string)
    requires k == "ip_address" || HasKey(AttributesOf(kind), k) || k in OsKeys || HasKey(Metrics, k)
    ensures k !in BaseKeys
  {
    if HasKey(AttributesOf(kind), k) {
      AttributeNames(kind);
    } else if k in OsKeys {
      OsNames();
    } else if k != "ip_address" {
      MetricNames();
    }
  }

  /** A successful record is the assembly of the guest's derivations. */
  lemma BuildRecordParts(kind: GuestKind, node: string, guest: Guest, probe: Probe)
    requires Buildable(kind, guest, probe)
    ensures Inspect(kind, node, guest.vmid, Running(guest), probe).Ok?
    ensures var d := Inspect(kind, node, guest.vmid, Running(guest), probe).value;
      BuildRecord(kind, node, guest, probe).value
        == Assemble(kind, node, guest, d, Extras(kind, d.ip, probe.config, d.os, Running(guest), probe.status))
  {
  }

  /** No key occurs twice in a record. */
  lemma RecordKeysDistinct(kind: GuestKind, node: string, guest: Guest, probe: Probe)
    requires Buildable(kind, guest, probe)
    ensures DistinctKeys(Flatten(BuildRecord(kind, node, guest, probe).value))
  {
    BuildRecordParts(kind, node, guest, probe);
    var d := Inspect(kind, node, guest.vmid, Running(guest), probe).value;
    ExtrasShape(kind, d.ip, probe.config, d.os, Running(guest), probe.status);
  }

  /** A guest that is not running, or that reported no status, gets none of
      the metric attributes except `proxmox_maxmem_bytes`, which its
      configuration may also supply. */
  lemma StoppedRecordHasNoMetrics(kind: GuestKind, node: string, guest: Guest, probe: Probe)
    requires Buildable(kind, guest, probe)
    requires !Running(guest) || |probe.status| == 0
    ensures forall i | 0 <= i < |Metrics| && Metrics[i].0 != "proxmox_maxmem_bytes" ::
      !HasKey(Flatten(BuildRecord(kind, node, guest, probe).value), Metrics[i].0)
  {
    forall i | 0 <= i < |Metrics| && Metrics[i].0 != "proxmox_maxmem_bytes"
      ensures !HasKey(Flatten(BuildRecord(kind, node, guest, probe).value), Metrics[i].0)
    {
      MetricOnlyFromStatus(kind, i);
      RecordExtra(kind, node, guest, probe, Metrics[i].0);
      var d := Inspect(kind, node, guest.vmid, Running(guest), probe).value;
      ExtrasKeys(kind, d.ip, probe.config, d.os, Running(guest), probe.status);
    }
  }

  /** A metric attribute other than `proxmox_maxmem_bytes` has a name that
      neither the base keys, the IP attribute, the configuration table nor
      the OS information uses. */
  lemma MetricOnlyFromStatus(kind: GuestKind, i: nat)
    requires i < |Metrics| && Metrics[i].0 != "proxmox_maxmem_bytes"
    ensures Metrics[i].0 !in BaseKeys && Metrics[i].0 != "ip_address" && Metrics[i].0 !in OsKeys
    ensures !HasKey(AttributesOf(kind), Metrics[i].0)
  {
    MetricNames();
    MetricsOutsideConfig(kind);
    assert HasKey(Metrics, Metrics[i].0);
  }

  /** A running guest that reported status carries each reported metric
      under its attribute name. */
  lemma RunningRecordMetrics(kind: GuestKind, node: string, guest: Guest, probe: Probe, i: nat)
    requires Buildable(kind, guest, probe)
    requires Running(guest) && |probe.status| > 0
    requires i < |Metrics| && Metrics[i].1 in probe.status
    ensures Get(Flatten(BuildRecord(kind, node, guest, probe).value), Metrics[i].0)
      == Some(probe.status[Metrics[i].1])
  {
    RecordExtra(kind, node, guest, probe, Metrics[i].0);
    var d := Inspect(kind, node, guest.vmid, Running(guest), probe).value;
    ExtrasMetric(kind, d.ip, probe.config, d.os, probe.status, i);
    assert HasKey(Metrics, Metrics[i].0);
    AddedNotBase(kind, Metrics[i].0);
  }

  /** The added attributes of a running guest hold each reported metric. */
  lemma ExtrasMetric(kind: GuestKind, ip: string, config: Config, os: OsDetails, status: map<string, string>, i: nat)
    requires |status| > 0
    requires i < |Metrics| && Metrics[i].1 in status
    ensures Get(Extras(kind, ip, config, os, true, status), Metrics[i].0) == Some(status[Metrics[i].1])
  {
    var withIp: Dict<string> := if ip != "" then [("ip_address", ip)] else [];
    var withOs := PutAll(PutAll(withIp, ConfigAttributes(config, AttributesOf(kind))), OsPairs(os));
    var metrics := MetricAttributes(status);
    var j :| 0 <= j < |metrics| && metrics[j] == (Metrics[i].0, status[Metrics[i].1]);
    PutAllStores(withOs, metrics, j);
  }

  /** A truthy configuration value listed in the guest kind's table is
      carried under its attribute name, unless the OS information or a
      reported metric writes the same name afterwards. */
  lemma ConfigAttributeInRecord(kind: GuestKind, node: string, guest: Guest, probe: Probe, i: nat)
    requires Buildable(kind, guest, probe)
    requires i < |AttributesOf(kind)| && IsSet(probe.config, AttributesOf(kind)[i].1.0)
    requires AttributesOf(kind)[i].0 !in OsKeys
    requires !(Running(guest) && |probe.status| > 0) || !HasKey(Metrics, AttributesOf(kind)[i].0)
    ensures Get(Flatten(BuildRecord(kind, node, guest, probe).value), AttributesOf(kind)[i].0)
      == Some(RenderAttribute(AttributesOf(kind)[i].1.1, Get(probe.config, AttributesOf(kind)[i].1.0).value))
  {
    var name := AttributesOf(kind)[i].0;
    RecordExtra(kind, node, guest, probe, name);
    var d := Inspect(kind, node, guest.vmid, Running(guest), probe).value;
    ExtrasConfigAttribute(kind, d.ip, probe.config, d.os, Running(guest), probe.status, i);
    assert HasKey(AttributesOf(kind), name);
    AddedNotBase(kind, name);
  }

  /** The added attributes hold each truthy configured value under its
      attribute name, unless OS information or a metric takes that name. */
  lemma ExtrasConfigAttribute(kind: GuestKind, ip: string, config: Config, os: OsDetails,
                              running: bool, status: map<string, string>, i: nat)
    requires i < |AttributesOf(kind)| && IsSet(config, AttributesOf(kind)[i].1.0)
    requires AttributesOf(kind)[i].0 !in OsKeys
    requires !(running && |status| > 0) || !HasKey(Metrics, AttributesOf(kind)[i].0)
    ensures Get(Extras(kind, ip, config, os, running, status), AttributesOf(kind)[i].0)
      == Some(RenderAttribute(AttributesOf(kind)[i].1.1, Get(config, AttributesOf(kind)[i].1.0).value))
  {
    var name := AttributesOf(kind)[i].0;
    var withIp: Dict<string> := if ip != "" then [("ip_address", ip)] else [];
    var withConfig := PutAll(withIp, ConfigAttributes(config, AttributesOf(kind)));
    var withOs := PutAll(withConfig, OsPairs(os));
    ConfigStage(AttributesOf(kind), withIp, config, i);
    OsPairsKeys(os);
    PutAllOther(withConfig, OsPairs(os), name);
    if running && |status| > 0 {
      PutAllOther(withOs, MetricAttributes(status), name);
    }
  }

  /** Copying the configuration attributes onto any dictionary stores each
      truthy configured value under its attribute name. */
  lemma ConfigStage(table: AttributeTable, d: Dict<string>, config: Config, i: nat)
    requires table == QemuAttributes || table == LxcAttributes
    requires i < |table| && IsSet(config, table[i].1.0)
    ensures Get(PutAll(d, ConfigAttributes(config, table)), table[i].0)
      == Some(RenderAttribute(table[i].1.1, Get(config, table[i].1.0).value))
  {
    var configured := ConfigAttributes(config, table);
    var value := RenderAttribute(table[i].1.1, Get(config, table[i].1.0).value);
    TableNames(table);
    assert (table[i].0, value) in configured;
    var j :| 0 <= j < |configured| && configured[j] == (table[i].0, value);
    PutAllStores(d, configured, j);
  }

  /** The IP attribute is written only once, before anything else. */
  lemma IpNameUnused(kind: GuestKind)
    ensures !HasKey(AttributesOf(kind), "ip_address") && !HasKey(Metrics, "ip_address")
    ensures "ip_address" !in OsKeys && "ip_address" !in BaseKeys
  {
    AttributeNames(kind);
    MetricNames();
  }

  /** The record's `ip_address` attribute is the guest's IP address when one
      was found, and is absent otherwise. */
  lemma RecordIpAddress(kind: GuestKind, node: string, guest: Guest, probe: Probe)
    requires Buildable(kind, guest, probe)
    ensures var ip := VmIp(kind, Running(guest), probe.config, probe.agentNet);
      Get(Flatten(BuildRecord(kind, node, guest, probe).value), "ip_address") == (if ip != "" then Some(ip) else None)
  {
    RecordExtra(kind, node, guest, probe, "ip_address");
    var d := Inspect(kind, node, guest.vmid, Running(guest), probe).value;
    IpNameUnused(kind);
    ExtrasIp(kind, d.ip, probe.config, d.os, Running(guest), probe.status);
  }

  /** The hostname is the guest's IP address when one was found, or else the
      node name with `.local` appended. */
  lemma RecordHostname(kind: GuestKind, node: string, guest: Guest, probe: Probe)
    requires Buildable(kind, guest, probe)
    ensures var ip := VmIp(kind, Running(guest), probe.config, probe.agentNet);
      var rec := BuildRecord(kind, node, guest, probe).value;
      rec.hostname == if ip != "" then ip else rec.nodename + ".local"
  {
    BuildRecordParts(kind, node, guest, probe);
  }

  /** The added attributes hold the IP address under `ip_address` exactly
      when it is non-empty. */
  lemma ExtrasIp(kind: GuestKind, ip: string, config: Config, os: OsDetails, running: bool, status: map<string, string>)
    ensures Get(Extras(kind, ip, config, os, running, status), "ip_address") == if ip != "" then Some(ip) else None
  {
    var withIp: Dict<string> := if ip != "" then [("ip_address", ip)] else [];
    var configured := ConfigAttributes(config, AttributesOf(kind));
    var withConfig := PutAll(withIp, configured);
    var withOs := PutAll(withConfig, OsPairs(os));
    IpNameUnused(kind);
    OsPairsKeys(os);
    PutAllOther(withIp, configured, "ip_address");
    PutAllOther(withConfig, OsPairs(os), "ip_address");
    if running && |status| > 0 {
      PutAllOther(withOs, MetricAttributes(status), "ip_address");
    }
  }

  /** The record carries every key of `os_info` exactly as the OS
      information for the guest has it, and lacks the keys it leaves unset;
      in particular its OS name and family. */
  lemma RecordOsInfo(kind: GuestKind, node: string, guest: Guest, probe: Probe)
    requires Buildable(kind, guest, probe)
    ensures GuestOsInfo(kind, Running(guest), probe.config, probe.agentOs).Ok?
    ensures var os := GuestOsInfo(kind, Running(guest), probe.config, probe.agentOs).value;
      forall key | key in OsKeys :: Get(Flatten(BuildRecord(kind, node, guest, probe).value), key) == Get(OsPairs(os), key)
    ensures var os := GuestOsInfo(kind, Running(guest), probe.config, probe.agentOs).value;
      var flat := Flatten(BuildRecord(kind, node, guest, probe).value);
      Get(flat, "os_name") == os.name && Get(flat, "os_family") == os.family
  {
    var os := GuestOsInfo(kind, Running(guest), probe.config, probe.agentOs).value;
    forall key | key in OsKeys
      ensures Get(Flatten(BuildRecord(kind, node, guest, probe).value), key) == Get(OsPairs(os), key)
    {
      RecordOsField(kind, node, guest, probe, key);
    }
    OsPairsFields(os);
  }

  /** One key of `os_info`, as the record carries it. */
  lemma RecordOsField(kind: GuestKind, node: string, guest: Guest, probe: Probe, key: string)
    requires Buildable(kind, guest, probe)
    requires key in OsKeys
    ensures GuestOsInfo(kind, Running(guest), probe.config, probe.agentOs).Ok?
    ensures Get(Flatten(BuildRecord(kind, node, guest, probe).value), key)
      == Get(OsPairs(GuestOsInfo(kind, Running(guest), probe.config, probe.agentOs).value), key)
  {
    var d := Inspect(kind, node, guest.vmid, Running(guest), probe).value;
    RecordExtra(kind, node, guest, probe, key);
    OsNames();
    RecordOsKey(kind, d, probe, Running(guest), key);
  }

  /** Outside the standard attributes, the record holds what the extra
      attributes hold. */
  lemma RecordExtra(kind: GuestKind, node: string, guest: Guest, probe: Probe, key: string)
    requires Buildable(kind, guest, probe)
    ensures Inspect(kind, node, guest.vmid, Running(guest), probe).Ok?
    ensures var d := Inspect(kind, node, guest.vmid, Running(guest), probe).value;
      key !in BaseKeys ==>
        Get(Flatten(BuildRecord(kind, node, guest, probe).value), key)
          == Get(Extras(kind, d.ip, probe.config, d.os, Running(guest), probe.status), key)
  {
    BuildRecordParts(kind, node, guest, probe);
  }

  /** In the added attributes, each key of `os_info` reads as the OS
      information has it: the OS stage overwrites the configuration's
      `proxmox_ostype`, and nothing after it writes an OS key. */
  lemma RecordOsKey(kind: GuestKind, d: Details, probe: Probe, running: bool, key: string)
    requires key in OsKeys
    requires d.os.ostype.Some? <==> IsSet(probe.config, "ostype")
    ensures Get(Extras(kind, d.ip, probe.config, d.os, running, probe.status), key) == Get(OsPairs(d.os), key)
  {
    var withIp: Dict<string> := if d.ip != "" then [("ip_address", d.ip)] else [];
    var withConfig := PutAll(withIp, ConfigAttributes(probe.config, AttributesOf(kind)));
    var withOs := PutAll(withConfig, OsPairs(d.os));
    ConfigBeforeOs(kind, withIp, probe.config, d.os, key);
    OsStage(withConfig, d.os, key);
    if running && |probe.status| > 0 {
      MetricNames();
      PutAllOther(withOs, MetricAttributes(probe.status), key);
    }
  }

  /** After the OS stage, an OS key reads as the OS information has it,
      whenever what came before holds that key only if the OS information
      sets it too. */
  lemma OsStage(before: Dict<string>, os: OsDetails, key: string)
    requires HasKey(before, key) ==> HasKey(OsPairs(os), key)
    ensures Get(PutAll(before, OsPairs(os)), key) == Get(OsPairs(os), key)
  {
    OsPairsFields(os);
    PutAllGet(before, OsPairs(os), key);
  }

  /** Before the OS stage, an OS key is held only as `proxmox_ostype`, which
      the OS information also sets when the configuration's `ostype` is
      truthy. */
  lemma ConfigBeforeOs(kind: GuestKind, withIp: Dict<string>, config: Config, os: OsDetails, key: string)
    requires withIp == [] || withIp == [("ip_address", withIp[0].1)]
    requires key in OsKeys
    requires os.ostype.Some? <==> IsSet(config, "ostype")
    ensures HasKey(PutAll(withIp, ConfigAttributes(config, AttributesOf(kind))), key) ==> HasKey(OsPairs(os), key)
  {
    var configured := ConfigAttributes(config, AttributesOf(kind));
    ConfigOsKey(kind, config, key);
    OsTypeStored(os);
    if !HasKey(configured, key) {
      IpBeforeOs(withIp, key);
      PutAllOther(withIp, configured, key);
    }
  }

  /** The IP stage writes no OS key. */
  lemma IpBeforeOs(withIp: Dict<string>, key: string)
    requires withIp == [] || withIp == [("ip_address", withIp[0].1)]
    requires key in OsKeys
    ensures !HasKey(withIp, key)
  {
    OsNames();
  }

  /** The OS information sets `proxmox_ostype` exactly when it has an OS type. */
  lemma OsTypeStored(os: OsDetails)
    ensures HasKey(OsPairs(os), "proxmox_ostype") <==> os.ostype.Some?
  {
    OsPairsFields(os);
    assert OsEntries(os)[0] == ("proxmox_ostype", os.ostype);
  }

  /** The only OS key a configuration table writes is `proxmox_ostype`, and
      only when `ostype` is truthy. */
  lemma ConfigOsKey(kind: GuestKind, config: Config, key: string)
    requires key in OsKeys
    ensures HasKey(ConfigAttributes(config, AttributesOf(kind)), key) ==> key == "proxmox_ostype" && IsSet(config, "ostype")
  {
    var table := AttributesOf(kind);
    var configured := ConfigAttributes(config, table);
    if HasKey(configured, key) {
      var m :| 0 <= m < |configured| && configured[m].0 == key;
      assert RowEntry(config, table, configured[m]);
      var j :| 0 <= j < |table| && IsSet(config, table[j].1.0) && configured[m].0 == table[j].0;
      OsKeyRows(kind, j);
    }
  }

  /** The only OS key a configuration table names is `proxmox_ostype`, and
      it copies `ostype`. */
  lemma OsKeyRows(kind: GuestKind, j: nat)
    requires j < |AttributesOf(kind)| && AttributesOf(kind)[j].0 in OsKeys
    ensures AttributesOf(kind)[j].0 == "proxmox_ostype" && AttributesOf(kind)[j].1.0 == "ostype"
  {
  }

  /** A container whose configuration names a string `ostype` has the
      distribution name as its `os_name` and no `os_family`. */
  lemma ContainerRecordOsName(node: string, guest: Guest, probe: Probe, t: string)
    requires Buildable(Lxc, guest, probe)
    requires Get(probe.config, "ostype") == Some(Str(t))
    ensures Get(Flatten(BuildRecord(Lxc, node, guest, probe).value), "os_name") == Some(DistributionName(t))
    ensures !HasKey(Flatten(BuildRecord(Lxc, node, guest, probe).value), "os_family")
  {
    RecordOsInfo(Lxc, node, guest, probe);
  }

  /** A virtual machine with a non-empty string `ostype` and no OS name from
      its agent has the family name as its `os_family`. */
  lemma VmRecordOsFamily(node: string, guest: Guest, probe: Probe, t: string)
    requires Buildable(Qemu, guest, probe)
    requires Get(probe.config, "ostype") == Some(Str(t)) && t != ""
    requires !(Running(guest) && AgentEnabled(probe.config) && probe.agentOs.Some? && "name" in probe.agentOs.value)
    ensures Get(Flatten(BuildRecord(Qemu, node, guest, probe).value), "os_family") == Some(FamilyName(t))
  {
    RecordOsInfo(Qemu, node, guest, probe);
  }

  /** The record's description is the configured one stripped, or the
      default one when that is missing or blank. */
  lemma RecordDescription(kind: GuestKind, node: string, guest: Guest, probe: Probe)
    requires Buildable(kind, guest, probe)
    ensures Description(kind, guest.vmid, node, Get(probe.config, "description"))
      == Ok(BuildRecord(kind, node, guest, probe).value.description)
  {
    BuildRecordParts(kind, node, guest, probe);
  }

  /** The record's tag string starts with the base tags; when the
      configuration holds a string of tags, it is the base tags and the
      cleaned configured tags joined with commas, and splitting it on commas
      gives that list back if the node name has no comma. */
  lemma RecordTags(kind: GuestKind, node: string, guest: Guest, probe: Probe)
    requires Buildable(kind, guest, probe)
    ensures StartsWith(BuildRecord(kind, node, guest, probe).value.tags, BaseTagText(kind, node))
    ensures forall t | Get(probe.config, "tags") == Some(Str(t)) ::
      BuildRecord(kind, node, guest, probe).value.tags == Join(BaseTags(kind, node) + CleanTags(t), ',')
    ensures forall t | Get(probe.config, "tags") == Some(Str(t)) && ',' !in node ::
      Split(BuildRecord(kind, node, guest, probe).value.tags, ',') == BaseTags(kind, node) + CleanTags(t)
  {
    RecordTagsJoined(kind, node, guest, probe);
    TagText(kind, node, Get(probe.config, "tags"), BuildRecord(kind, node, guest, probe).value.tags);
  }

  /** The tag string made from a tag list, whatever record carries it. */
  lemma TagText(kind: GuestKind, node: string, configured: Option<Value>, tags: string)
    requires TagList(kind, node, configured).Ok? && tags == Join(TagList(kind, node, configured).value, ',')
    ensures StartsWith(tags, BaseTagText(kind, node))
    ensures forall t | configured == Some(Str(t)) :: tags == Join(BaseTags(kind, node) + CleanTags(t), ',')
    ensures forall t | configured == Some(Str(t)) && ',' !in node :: Split(tags, ',') == BaseTags(kind, node) + CleanTags(t)
  {
    match configured
    case Some(Str(t)) =>
      TagStringPrefix(kind, node, CleanTags(t));
      if ',' !in node {
        TagStringSplits(kind, node, t);
      }
    case _ =>
      TagStringPrefix(kind, node, []);
      assert BaseTags(kind, node) + [] == BaseTags(kind, node);
  }

  /** The record's tag string is its tag list joined with commas. */
  lemma RecordTagsJoined(kind: GuestKind, node: string, guest: Guest, probe: Probe)
    requires Buildable(kind, guest, probe)
    ensures TagList(kind, node, Get(probe.config, "tags")).Ok?
    ensures BuildRecord(kind, node, guest, probe).value.tags == Join(TagList(kind, node, Get(probe.config, "tags")).value, ',')
  {
    BuildRecordParts(kind, node, guest, probe);
  }
}
