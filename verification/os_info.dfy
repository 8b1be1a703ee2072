/** Operating-system information for a guest (`get_vm_os_info`): the
    configured `ostype`, the QEMU guest agent's `get-osinfo` reply, and the
    lookup tables that turn an `ostype` into a distribution or family name. */
module OsInfo {
  import opened Results
  import opened Text
  import opened Dicts
  import opened Values

  /** LXC `ostype` values with a known distribution name, keyed in lower case. */
  const Distributions: map<string, string> := map[
    "ubuntu" := "Ubuntu", "debian" := "Debian", "centos" := "CentOS",
    "fedora" := "Fedora", "archlinux" := "Arch Linux", "alpine" := "Alpine Linux",
    "opensuse" := "openSUSE", "gentoo" := "Gentoo"]

  /** `ostype` values with a known family name, keyed in lower case. */
  const Families: map<string, string> := map[
    "l26" := "Linux", "win7" := "Windows 7", "win8" := "Windows 8",
    "win10" := "Windows 10", "win11" := "Windows 11", "w2k" := "Windows 2000",
    "w2k3" := "Windows 2003", "w2k8" := "Windows 2008", "wvista" := "Windows Vista",
    "winxp" := "Windows XP", "other" := "Other"]

  /** The distribution table entry for `ostype.lower()`, else `ostype.capitalize()`. */
  function DistributionName(ostype: string): string {
    if Lower(ostype) in Distributions then Distributions[Lower(ostype)] else Capitalize(ostype)
  }

  /** The family table entry for `ostype.lower()`, else `ostype.upper()`. */
  function FamilyName(ostype: string): string {
    if Lower(ostype) in Families then Families[Lower(ostype)] else Upper(ostype)
  }

  /** Both mappings see only the lower-case form of the `ostype`: the lookup
      is case-insensitive, and so are the `capitalize()`/`upper()` fallbacks. */
  lemma NamesIgnoreCase(a: string, b: string)
    requires Lower(a) == Lower(b)
    ensures DistributionName(a) == DistributionName(b)
    ensures FamilyName(a) == FamilyName(b)
  {
    CaseFolding(a, b);
  }

  /** The `os_info` dictionary, one field per key it can hold:
      `proxmox_ostype`, the agent's `os_name` ... `os_kernel_version`,
      `os_hostname` and `os_family`. */
  datatype OsDetails = OsDetails(
    ostype: Option<string>,
    name: Option<string>,
    version: Option<string>,
    versionId: Option<string>,
    prettyName: Option<string>,
    id: Option<string>,
    kernel: Option<string>,
    kernelVersion: Option<string>,
    hostname: Option<string>,
    family: Option<string>)

  function Lookup(info: map<string, string>, key: string): Option<string> {
    if key in info then Some(info[key]) else None
  }

  /** The fields copied from the agent's `get-osinfo` reply. */
  function WithAgentReply(details: OsDetails, info: map<string, string>): OsDetails {
    details.(
      name := Lookup(info, "name"),
      version := Lookup(info, "version"),
      versionId := Lookup(info, "version-id"),
      prettyName := Lookup(info, "pretty-name"),
      id := Lookup(info, "id"),
      kernel := Lookup(info, "kernel-release"),
      kernelVersion := Lookup(info, "kernel-version"))
  }

  /** The LXC branch: a distribution name whenever the `ostype` key exists,
      and the configured hostname when it is truthy. */
  function WithContainerConfig(details: OsDetails, config: Config): Result<OsDetails, Fault> {
    var ostype: Option<Value> := Get(config, "ostype");
    var named :- match ostype
      case None => Ok(details)
      case Some(Str(t)) => Ok(details.(name := Some(DistributionName(t))))
      case Some(Num(_)) => Err(NotAString("ostype"));
    var hostname: Option<Value> := Get(config, "hostname");
    if hostname.Some? && Truthy(hostname.value)
    then Ok(named.(hostname := Some(Render(hostname.value))))
    else Ok(named)
  }

  /** A running virtual machine with the agent enabled, whose agent answered
      `get-osinfo`. */
  predicate AgentReplied(kind: GuestKind, running: bool, config: Config, agentOs: Option<map<string, string>>) {
    kind == Qemu && running && AgentEnabled(config) && agentOs.Some?
  }

  /** The agent reported an OS name, which the script then keeps. */
  predicate AgentNamed(kind: GuestKind, running: bool, config: Config, agentOs: Option<map<string, string>>) {
    AgentReplied(kind, running, config, agentOs) && "name" in agentOs.value
  }

  /** A number under `ostype` reaches `.lower()`: always for a container,
      and for a virtual machine when it is non-zero and no agent OS name
      came first. */
  predicate OsFails(kind: GuestKind, running: bool, config: Config, agentOs: Option<map<string, string>>) {
    var ostype: Option<Value> := Get(config, "ostype");
    match ostype
    case Some(Num(n)) => kind == Lxc || (n != 0 && !AgentNamed(kind, running, config, agentOs))
    case _ => false
  }

  /** `get_vm_os_info` with the agent's `get-osinfo` reply as an input (None
      when the call failed). `.lower()` on a numeric `ostype` raises, which
      the script does not catch: that is the error result. */
  function GuestOsInfo(kind: GuestKind, running: bool, config: Config, agentOs: Option<map<string, string>>)
    : (r: Result<OsDetails, Fault>)
    ensures r.Err? <==> OsFails(kind, running, config, agentOs)
    ensures r.Ok? ==> (r.value.ostype.Some? <==> IsSet(config, "ostype"))
    ensures r.Ok? && r.value.ostype.Some? ==> r.value.ostype.value == Render(Get(config, "ostype").value)
    ensures r.Ok? ==> r.value.name.None? || r.value.family.None?
    ensures kind == Lxc && Get(config, "ostype").Some? && Get(config, "ostype").value.Str?
      ==> r.Ok? && r.value.name == Some(DistributionName(Get(config, "ostype").value.s)) && r.value.family.None?
    ensures kind == Qemu && Get(config, "ostype").Some? && Get(config, "ostype").value.Str?
      && Get(config, "ostype").value.s != ""
      && !AgentNamed(kind, running, config, agentOs)
      ==> r.Ok? && r.value.family == Some(FamilyName(Get(config, "ostype").value.s))
    ensures r.Ok? && r.value.family.Some? ==> IsSet(config, "ostype")
    ensures r.Ok? && kind == Lxc && Get(config, "ostype").None? ==> r.value.name.None?
    ensures r.Ok? && r.value.family.Some? ==> exists t | Get(config, "ostype") == Some(Str(t)) :: r.value.family == Some(FamilyName(t))
    ensures r.Ok? && r.value.version.Some? ==> kind == Qemu && running && AgentEnabled(config)
    ensures r.Ok? && AgentReplied(kind, running, config, agentOs) ==>
      var info := agentOs.value;
      r.value.name == Lookup(info, "name") && r.value.version == Lookup(info, "version")
      && r.value.versionId == Lookup(info, "version-id") && r.value.prettyName == Lookup(info, "pretty-name")
      && r.value.id == Lookup(info, "id") && r.value.kernel == Lookup(info, "kernel-release")
      && r.value.kernelVersion == Lookup(info, "kernel-version")
    ensures r.Ok? && !AgentReplied(kind, running, config, agentOs) ==>
      r.value.version.None? && r.value.versionId.None? && r.value.prettyName.None?
      && r.value.id.None? && r.value.kernel.None? && r.value.kernelVersion.None?
    ensures r.Ok? && kind == Qemu && !AgentReplied(kind, running, config, agentOs) ==> r.value.name.None?
    ensures r.Ok? && r.value.hostname.Some? ==> kind == Lxc
    ensures r.Ok? && kind == Lxc ==>
      var hostname: Option<Value> := Get(config, "hostname");
      r.value.hostname == if hostname.Some? && Truthy(hostname.value) then Some(Render(hostname.value)) else None
  {
    var ostype: Value := Get(config, "ostype").GetOr(Str(""));
    var base := OsDetails(if Truthy(ostype) then Some(Render(ostype)) else None,
      None, None, None, None, None, None, None, None, None);
    var detailed :-
      if kind == Qemu && running then
        Ok(if AgentEnabled(config) && agentOs.Some? then WithAgentReply(base, agentOs.value) else base)
      else if kind == Lxc then WithContainerConfig(base, config)
      else Ok(base);
    if detailed.name.None? && Truthy(ostype) then
      match ostype
      case Str(t) => Ok(detailed.(family := Some(FamilyName(t))))
      case Num(_) => Err(NotAString("ostype"))
    else Ok(detailed)
  }

  /** The keys of `os_info`, in the order the script inserts them. */
  function OsPairs(details: OsDetails): Dict<string> {
    Present(OsEntries(details))
  }

  function OsEntries(details: OsDetails): Dict<Option<string>> {
    [
      ("proxmox_ostype", details.ostype), ("os_name", details.name),
      ("os_version", details.version), ("os_version_id", details.versionId),
      ("os_pretty_name", details.prettyName), ("os_id", details.id),
      ("os_kernel", details.kernel), ("os_kernel_version", details.kernelVersion),
      ("os_hostname", details.hostname), ("os_family", details.family)]
  }

  /** Every key `os_info` can hold. */
  const OsKeys: set<string> := {"proxmox_ostype", "os_name", "os_version", "os_version_id",
    "os_pretty_name", "os_id", "os_kernel", "os_kernel_version", "os_hostname", "os_family"}

  /** `os_info` holds only its own keys. */
  lemma OsPairsKeys(details: OsDetails)
    ensures forall k | HasKey(OsPairs(details), k) :: k in OsKeys
  {
  }

  /** No key of `os_info` is repeated. */
  lemma OsEntriesDistinct(details: OsDetails)
    ensures DistinctKeys(OsEntries(details))
  {
  }

  /** Every field of the OS information is found in `os_info` under its
      key exactly as set, and absent when unset. */
  lemma OsPairsFields(details: OsDetails)
    ensures DistinctKeys(OsPairs(details))
    ensures forall i | 0 <= i < |OsEntries(details)| :: Get(OsPairs(details), OsEntries(details)[i].0) == OsEntries(details)[i].1
    ensures Get(OsPairs(details), "os_name") == details.name
    ensures Get(OsPairs(details), "os_family") == details.family
  {
    var entries := OsEntries(details);
    OsEntriesDistinct(details);
    forall i | 0 <= i < |entries|
      ensures Get(Present(entries), entries[i].0) == entries[i].1
    {
      PresentGet(entries, i);
    }
    assert entries[1] == ("os_name", details.name);
    assert entries[9] == ("os_family", details.family);
  }
}
