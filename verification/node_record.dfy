/** The Rundeck node record built for one guest: the loop bodies of
    `fetch_proxmox_nodes` for QEMU virtual machines and LXC containers, which
    differ only in their labels and attribute tables. */
module NodeRecords {
  import opened Results
  import opened Text
  import opened Dicts
  import opened Values
  import opened IpAddress
  import opened OsInfo

  /** One entry of a cluster node's `qemu` or `lxc` listing. */
  datatype Guest = Guest(vmid: int, name: Option<string>, status: Option<string>)

  /** What the API returned about one guest: its configuration (empty when
      the call failed), its `status/current` reply with values already
      rendered as text (empty when the guest is stopped or the call failed),
      and the guest agent's `get-osinfo` and `network-get-interfaces` replies
      (None when the call failed). */
  datatype Probe = Probe(
    config: Config,
    status: map<string, string>,
    agentOs: Option<map<string, string>>,
    agentNet: Option<seq<AgentInterface>>)

  /** A node record: the eleven keys every record starts with, in order,
      followed by the attributes added afterwards. */
  datatype NodeRecord = NodeRecord(
    nodename: string,
    hostname: string,
    username: string,
    osFamily: string,
    tags: string,
    description: string,
    proxmoxNode: string,
    proxmoxVmid: string,
    proxmoxType: string,
    proxmoxStatus: string,
    runningStatus: string,
    extra: Dict<string>)

  const BaseKeys: set<string> := {"nodename", "hostname", "username", "osFamily", "tags",
    "description", "proxmox_node", "proxmox_vmid", "proxmox_type", "proxmox_status",
    "proxmox_running_status"}

  function BaseEntries(n: NodeRecord): Dict<string> {
    [("nodename", n.nodename), ("hostname", n.hostname), ("username", n.username),
     ("osFamily", n.osFamily), ("tags", n.tags), ("description", n.description),
     ("proxmox_node", n.proxmoxNode), ("proxmox_vmid", n.proxmoxVmid),
     ("proxmox_type", n.proxmoxType), ("proxmox_status", n.proxmoxStatus),
     ("proxmox_running_status", n.runningStatus)]
  }

  /** The record as the flat dictionary the script emits. The added
      attributes are looked up as if the base keys were not there. */
  function Flatten(n: NodeRecord): (r: Dict<string>)
    ensures forall k | HasKey(r, k) :: k in BaseKeys || HasKey(n.extra, k)
    ensures forall k | k !in BaseKeys :: Get(r, k) == Get(n.extra, k)
    ensures DistinctKeys(n.extra) && (forall k | HasKey(n.extra, k) :: k !in BaseKeys) ==> DistinctKeys(r)
  {
    var base := BaseEntries(n);
    BaseEntryKeys(n);
    assert forall k | k !in BaseKeys :: Get(base + n.extra, k) == Get(n.extra, k) by {
      forall k | k !in BaseKeys {
        GetConcat(base, n.extra, k);
      }
    }
    assert DistinctKeys(n.extra) && (forall k | HasKey(n.extra, k) :: k !in BaseKeys) ==> DistinctKeys(base + n.extra) by {
      if DistinctKeys(n.extra) && (forall k | HasKey(n.extra, k) :: k !in BaseKeys) {
        DistinctConcat(base, n.extra);
      }
    }
    base + n.extra
  }

  /** The base entries hold exactly the base keys, each once. */
  lemma BaseEntryKeys(n: NodeRecord)
    ensures forall k | HasKey(BaseEntries(n), k) :: k in BaseKeys
    ensures forall k | k !in BaseKeys :: !HasKey(BaseEntries(n), k)
    ensures DistinctKeys(BaseEntries(n))
  {
    var base := BaseEntries(n);
    forall k | HasKey(base, k)
      ensures k in BaseKeys
    {
      var i :| 0 <= i < |base| && base[i].0 == k;
    }
  }

  /** `proxmox_type`. */
  function TypeName(kind: GuestKind): string {
    match kind
    case Qemu => "qemu"
    case Lxc => "lxc"
  }

  /** The second tag. */
  function KindTag(kind: GuestKind): string {
    match kind
    case Qemu => "vm"
    case Lxc => "container"
  }

  /** `vm-<vmid>` or `ct-<vmid>`: the name of a guest the listing left unnamed. */
  function DefaultName(kind: GuestKind, vmid: int): string {
    (match kind case Qemu => "vm-" case Lxc => "ct-") + IntToString(vmid)
  }

  /** `Proxmox VM <vmid> on node <node>` or `Proxmox Container <vmid> on node <node>`. */
  function DefaultDescription(kind: GuestKind, vmid: int, node: string): string {
    "Proxmox " + (match kind case Qemu => "VM" case Lxc => "Container")
      + " " + IntToString(vmid) + " on node " + node
  }

  /** The record's description: the configured one stripped when that is not
      blank, otherwise the default. `.strip()` on a number raises. */
  function Description(kind: GuestKind, vmid: int, node: string, configured: Option<Value>)
    : (r: Result<string, Fault>)
    ensures r.Err? <==> configured.Some? && configured.value.Num?
    ensures r.Ok? ==> r.value != ""
    ensures forall d | configured == Some(Str(d)) && !IsBlank(d) :: r == Ok(Strip(d)) && IsStripped(r.value)
    ensures configured.None? || (configured.Some? && configured.value.Str? && IsBlank(configured.value.s))
      ==> r == Ok(DefaultDescription(kind, vmid, node))
  {
    var text :- match configured
      case None => Ok("")
      case Some(Str(d)) => Ok(d)
      case Some(Num(_)) => Err(NotAString("description"));
    var stripped := Strip(text);
    if stripped != "" then Ok(stripped) else Ok(DefaultDescription(kind, vmid, node))
  }

  /** A tag as the script keeps it: non-empty and stripped. */
  predicate CleanTag(tag: string) {
    tag != "" && IsStripped(tag)
  }

  /** `[tag.strip() for tag in pieces if tag.strip()]`. */
  function CleanPieces(pieces: seq<string>): seq<string>
    decreases |pieces|
  {
    if |pieces| == 0 then []
    else
      var head := Strip(pieces[0]);
      (if head != "" then [head] else []) + CleanPieces(pieces[1..])
  }

  /** Every kept piece is clean, and no comma appears that was not there. */
  lemma {:induction false} CleanPiecesAreClean(pieces: seq<string>)
    decreases |pieces|
    ensures forall i | 0 <= i < |CleanPieces(pieces)| :: CleanTag(CleanPieces(pieces)[i])
    ensures CommaFree(pieces) ==> CommaFree(CleanPieces(pieces))
  {
    if |pieces| > 0 {
      var head := Strip(pieces[0]);
      var kept: seq<string> := if head != "" then [head] else [];
      var rest := CleanPieces(pieces[1..]);
      CleanPiecesAreClean(pieces[1..]);
      assert CleanPieces(pieces) == kept + rest;
      assert forall i | |kept| <= i < |kept + rest| :: (kept + rest)[i] == rest[i - |kept|];
      if CommaFree(pieces) {
        assert ',' !in pieces[0];
        assert forall j | 0 <= j < |pieces[1..]| :: pieces[1..][j] == pieces[j + 1];
      }
    }
  }

  /** No piece holds a comma. */
  predicate CommaFree(pieces: seq<string>) {
    forall i | 0 <= i < |pieces| :: ',' !in pieces[i]
  }

  /** The configured tags: split on commas, each stripped, blanks dropped,
      order kept. */
  function CleanTags(tags: string): (r: seq<string>)
    ensures forall i | 0 <= i < |r| :: CleanTag(r[i])
    ensures CommaFree(r)
    ensures forall i | 0 <= i < |Split(tags, ',')| && !IsBlank(Split(tags, ',')[i]) :: Strip(Split(tags, ',')[i]) in r
    ensures forall t | t in r :: KeptFrom(Split(tags, ','), t)
  {
    CleanPiecesAreClean(Split(tags, ','));
    CleanPiecesMembers(Split(tags, ','));
    CleanPieces(Split(tags, ','))
  }

  /** `t` is one of the pieces, stripped, and that piece is not blank. */
  predicate KeptFrom(pieces: seq<string>, t: string) {
    exists i | 0 <= i < |pieces| :: !IsBlank(pieces[i]) && t == Strip(pieces[i])
  }

  /** Every non-blank piece is kept, stripped, and nothing else is. */
  lemma {:induction false} CleanPiecesMembers(pieces: seq<string>)
    decreases |pieces|
    ensures forall i | 0 <= i < |pieces| && !IsBlank(pieces[i]) :: Strip(pieces[i]) in CleanPieces(pieces)
    ensures forall t | t in CleanPieces(pieces) :: KeptFrom(pieces, t)
  {
    if |pieces| > 0 {
      CleanPiecesMembers(pieces[1..]);
      var head := Strip(pieces[0]);
      var kept: seq<string> := if head != "" then [head] else [];
      var rest := CleanPieces(pieces[1..]);
      assert CleanPieces(pieces) == kept + rest;
      forall i | 0 <= i < |pieces| && !IsBlank(pieces[i])
        ensures Strip(pieces[i]) in kept + rest
      {
        if i > 0 {
          assert pieces[i] == pieces[1..][i - 1];
        }
      }
      forall t | t in CleanPieces(pieces)
        ensures KeptFrom(pieces, t)
      {
        if t in kept {
          assert !IsBlank(pieces[0]) && t == Strip(pieces[0]);
        } else {
          assert KeptFrom(pieces[1..], t);
          var j :| 0 <= j < |pieces[1..]| && !IsBlank(pieces[1..][j]) && t == Strip(pieces[1..][j]);
          assert pieces[j + 1] == pieces[1..][j];
          assert !IsBlank(pieces[j + 1]) && t == Strip(pieces[j + 1]);
        }
      }
    }
  }

  /** One piece is kept, stripped, exactly when it is not blank. */
  lemma CleanPiecesSingle(piece: string)
    ensures CleanPieces([piece]) == if IsBlank(piece) then [] else [Strip(piece)]
  {
    assert CleanPieces([piece]) == (if Strip(piece) != "" then [Strip(piece)] else []) + CleanPieces([]);
  }

  /** Each piece of the tags text stands, stripped, in its own place among
      the kept tags, unless it is blank. */
  lemma CleanTagsPiece(tags: string, before: seq<string>, piece: string, after: seq<string>)
    requires Split(tags, ',') == before + [piece] + after
    ensures CleanTags(tags) == CleanPieces(before) + (if IsBlank(piece) then [] else [Strip(piece)]) + CleanPieces(after)
  {
    CleanPiecesAppend(before + [piece], after);
    CleanPiecesAppend(before, [piece]);
    CleanPiecesSingle(piece);
  }

  /** Cleaning works piece by piece: it keeps the order of the pieces. */
  lemma {:induction false} CleanPiecesAppend(a: seq<string>, b: seq<string>)
    decreases |a|
    ensures CleanPieces(a + b) == CleanPieces(a) + CleanPieces(b)
  {
    if |a| > 0 {
      CleanPiecesAppend(a[1..], b);
      DropFirst(a, b);
      var head := Strip(a[0]);
      var kept: seq<string> := if head != "" then [head] else [];
      assert CleanPieces(a + b) == kept + CleanPieces(a[1..] + b);
      assert CleanPieces(a) == kept + CleanPieces(a[1..]);
      Associative(kept, CleanPieces(a[1..]), CleanPieces(b));
    } else {
      assert a + b == b;
    }
  }

  lemma DropFirst<T>(a: seq<T>, b: seq<T>)
    requires |a| > 0
    ensures (a + b)[0] == a[0] && (a + b)[1..] == a[1..] + b
  {
  }

  lemma Associative<T>(x: seq<T>, y: seq<T>, z: seq<T>)
    ensures x + (y + z) == (x + y) + z
  {
  }

  /** Pieces that are already stripped and non-empty are kept as they are. */
  lemma {:induction false} CleanPiecesKeepsClean(xs: seq<string>)
    requires forall i | 0 <= i < |xs| :: CleanTag(xs[i])
    decreases |xs|
    ensures CleanPieces(xs) == xs
  {
    if |xs| > 0 {
      StripStripped(xs[0]);
      CleanPiecesKeepsClean(xs[1..]);
      assert xs == [xs[0]] + xs[1..];
    }
  }

  /** Joining clean tags with commas and cleaning the result gives the tags
      back. */
  lemma CleanTagsRoundTrip(xs: seq<string>)
    requires forall i | 0 <= i < |xs| :: CleanTag(xs[i])
    requires CommaFree(xs)
    ensures CleanTags(Join(xs, ',')) == xs
  {
    if |xs| == 0 {
      assert Split("", ',') == [""];
      assert Strip("") == "";
      assert CleanPieces([""]) == [] + CleanPieces([""][1..]);
    } else {
      SplitJoin(xs, ',');
      CleanPiecesKeepsClean(xs);
    }
  }

  /** Cleaning the tag string a record carries changes nothing more. */
  lemma CleanTagsIdempotent(tags: string)
    ensures CleanTags(Join(CleanTags(tags), ',')) == CleanTags(tags)
  {
    CleanTagsRoundTrip(CleanTags(tags));
  }

  /** The four tags every record starts with. */
  function BaseTags(kind: GuestKind, node: string): seq<string> {
    ["proxmox", KindTag(kind), TypeName(kind), node]
  }

  /** The record's tag list: the base tags, then the configured tags when the
      `tags` value is truthy. `.split()` on a number raises. */
  function TagList(kind: GuestKind, node: string, configured: Option<Value>): (r: Result<seq<string>, Fault>)
    ensures r.Err? <==> configured.Some? && configured.value.Num? && configured.value.n != 0
    ensures configured.None? || configured == Some(Num(0)) ==> r == Ok(BaseTags(kind, node))
    ensures forall t | configured == Some(Str(t)) :: r == Ok(BaseTags(kind, node) + CleanTags(t))
  {
    assert CleanTags("") == [] by {
      assert Split("", ',') == [""];
      assert Strip("") == "";
      assert CleanPieces([""]) == [] + CleanPieces([""][1..]);
    }
    match configured
    case Some(v) =>
      if Truthy(v) then
        match v
        case Str(t) => Ok(BaseTags(kind, node) + CleanTags(t))
        case Num(_) => Err(NotAString("tags"))
      else
        assert BaseTags(kind, node) + [] == BaseTags(kind, node);
        Ok(BaseTags(kind, node))
    case None => Ok(BaseTags(kind, node))
  }

  /** `proxmox,vm,qemu,<node>` or `proxmox,container,lxc,<node>`. */
  function BaseTagText(kind: GuestKind, node: string): string {
    "proxmox," + KindTag(kind) + "," + TypeName(kind) + "," + node
  }

  /** The base tags joined with commas. */
  lemma BaseTagString(kind: GuestKind, node: string)
    ensures Join(BaseTags(kind, node), ',') == BaseTagText(kind, node)
  {
    JoinFour("proxmox", KindTag(kind), TypeName(kind), node, ',');
    assert "proxmox," == "proxmox" + [','];
  }

  /** Every tag string is the base tag text, followed by a comma and the
      configured tags when there are any. */
  lemma TagStringShape(kind: GuestKind, node: string, more: seq<string>)
    ensures Join(BaseTags(kind, node) + more, ',')
      == BaseTagText(kind, node) + (if |more| > 0 then "," + Join(more, ',') else "")
  {
    BaseTagString(kind, node);
    if |more| > 0 {
      JoinAppend(BaseTags(kind, node), more, ',');
      Associative(BaseTagText(kind, node), [','], Join(more, ','));
    } else {
      assert BaseTags(kind, node) + more == BaseTags(kind, node);
      assert BaseTagText(kind, node) + "" == BaseTagText(kind, node);
    }
  }

  /** Every tag string starts with the base tag text. */
  lemma TagStringPrefix(kind: GuestKind, node: string, more: seq<string>)
    ensures StartsWith(Join(BaseTags(kind, node) + more, ','), BaseTagText(kind, node))
  {
    TagStringShape(kind, node, more);
    PrefixStartsWith(BaseTagText(kind, node), if |more| > 0 then "," + Join(more, ',') else "");
  }

  /** When the node name has no comma, splitting the tag string on commas
      gives the tag list back. */
  lemma TagStringSplits(kind: GuestKind, node: string, tags: string)
    requires ',' !in node
    ensures Split(Join(BaseTags(kind, node) + CleanTags(tags), ','), ',') == BaseTags(kind, node) + CleanTags(tags)
  {
    BaseTagsCommaFree(kind, node);
    var more := CleanTags(tags);
    assert CommaFree(more);
    CommaFreeSplitsBack(BaseTags(kind, node), more);
  }

  /** The base tags hold no comma when the node name holds none. */
  lemma BaseTagsCommaFree(kind: GuestKind, node: string)
    requires ',' !in node
    ensures CommaFree(BaseTags(kind, node))
  {
  }

  /** Comma-free pieces, at least one, joined with commas split back. */
  lemma CommaFreeSplitsBack(base: seq<string>, more: seq<string>)
    requires |base| >= 1 && CommaFree(base) && CommaFree(more)
    ensures Split(Join(base + more, ','), ',') == base + more
  {
    var all := base + more;
    assert forall i | 0 <= i < |all| :: all[i] == if i < |base| then base[i] else more[i - |base|];
    SplitJoin(all, ',');
  }

  /** How a configuration value is rendered as an attribute: `str(value)`,
      or a two-way label where only the number 1 counts as on. */
  datatype Rendering = AsText | TemplateFlag | AgentFlag

  function RenderAttribute(rendering: Rendering, v: Value): string {
    match rendering
    case AsText => Render(v)
    case TemplateFlag => if v == Num(1) then "true" else "false"
    case AgentFlag => if v == Num(1) then "enabled" else "disabled"
  }

  /** Attribute name, then the configuration key it copies and how. */
  type AttributeTable = Dict<(string, Rendering)>

  const QemuAttributes: AttributeTable := [
    ("proxmox_cores", ("cores", AsText)),
    ("proxmox_sockets", ("sockets", AsText)),
    ("proxmox_memory_mb", ("memory", AsText)),
    ("proxmox_maxmem_bytes", ("maxmem", AsText)),
    ("proxmox_maxdisk_bytes", ("maxdisk", AsText)),
    ("proxmox_template", ("template", TemplateFlag)),
    ("proxmox_agent", ("agent", AgentFlag)),
    ("proxmox_ostype", ("ostype", AsText)),
    ("proxmox_description", ("description", AsText))]

  const LxcAttributes: AttributeTable := [
    ("proxmox_cores", ("cores", AsText)),
    ("proxmox_memory_mb", ("memory", AsText)),
    ("proxmox_maxmem_bytes", ("maxmem", AsText)),
    ("proxmox_maxdisk_bytes", ("maxdisk", AsText)),
    ("proxmox_swap_mb", ("swap", AsText)),
    ("proxmox_ostype", ("ostype", AsText)),
    ("proxmox_description", ("description", AsText)),
    ("proxmox_hostname", ("hostname", AsText))]

  function AttributesOf(kind: GuestKind): AttributeTable {
    match kind
    case Qemu => QemuAttributes
    case Lxc => LxcAttributes
  }

  /** `entry` is the attribute of a table row whose configuration value is
      truthy, rendered as that row says. */
  predicate RowEntry(config: Config, table: AttributeTable, entry: (string, string)) {
    exists j | 0 <= j < |table| ::
      IsSet(config, table[j].1.0) && entry == (table[j].0, RenderAttribute(table[j].1.1, Get(config, table[j].1.0).value))
  }

  /** Each table row with its rendered value, or None when the configuration
      value is missing or falsy. */
  function RowValues(config: Config, table: AttributeTable): (r: Dict<Option<string>>)
    ensures |r| == |table|
    ensures forall i | 0 <= i < |table| ::
      r[i].0 == table[i].0
      && (r[i].1.Some? <==> IsSet(config, table[i].1.0))
      && (r[i].1.Some? ==> r[i].1.value == RenderAttribute(table[i].1.1, Get(config, table[i].1.0).value))
  {
    seq(|table|, i requires 0 <= i < |table| =>
      (table[i].0, if IsSet(config, table[i].1.0)
        then Some(RenderAttribute(table[i].1.1, Get(config, table[i].1.0).value)) else None))
  }

  /** The configuration attributes of a record: one per table row whose
      configuration value is truthy, and nothing else. */
  function ConfigAttributes(config: Config, table: AttributeTable): (r: Dict<string>)
    ensures forall k | HasKey(r, k) :: HasKey(table, k)
    ensures forall i | 0 <= i < |table| && IsSet(config, table[i].1.0) ::
      (table[i].0, RenderAttribute(table[i].1.1, Get(config, table[i].1.0).value)) in r
    ensures forall i | 0 <= i < |r| :: RowEntry(config, table, r[i])
    ensures DistinctKeys(table) ==> DistinctKeys(r)
  {
    var entries := RowValues(config, table);
    KeysAlong(entries, table);
    RowOrigins(config, table);
    Present(entries)
  }

  /** The script's run of `if config.get(key): node[name] = …` lines, one
      per table row, in table order. */
  function RowsFrom(config: Config, table: AttributeTable): Dict<string>
    decreases |table|
  {
    if |table| == 0 then []
    else
      var row := table[0];
      (if IsSet(config, row.1.0) then [(row.0, RenderAttribute(row.1.1, Get(config, row.1.0).value))] else [])
        + RowsFrom(config, table[1..])
  }

  /** The configuration attributes are the rows' attributes in table order. */
  lemma ConfigAttributesListed(config: Config, table: AttributeTable)
    ensures ConfigAttributes(config, table) == RowsFrom(config, table)
  {
    RowValuesListed(config, table, RowValues(config, table));
  }

  /** Keeping the present values of row-by-row results, one per table row,
      gives the rows with a truthy value in table order. */
  lemma {:induction false} RowValuesListed(config: Config, table: AttributeTable, entries: Dict<Option<string>>)
    requires |entries| == |table|
    requires forall i | 0 <= i < |table| ::
      entries[i] == (table[i].0, if IsSet(config, table[i].1.0)
        then Some(RenderAttribute(table[i].1.1, Get(config, table[i].1.0).value)) else None)
    decreases |table|
    ensures Present(entries) == RowsFrom(config, table)
  {
    if |table| > 0 {
      PresentUncons(entries);
      assert forall i | 0 <= i < |table[1..]| :: table[1..][i] == table[i + 1] && entries[1..][i] == entries[i + 1];
      RowValuesListed(config, table[1..], entries[1..]);
    }
  }

  /** Each kept row came from a row whose value is truthy. */
  lemma RowOrigins(config: Config, table: AttributeTable)
    ensures forall i | 0 <= i < |Present(RowValues(config, table))| :: RowEntry(config, table, Present(RowValues(config, table))[i])
  {
    var entries := RowValues(config, table);
    var r := Present(entries);
    forall i | 0 <= i < |r|
      ensures RowEntry(config, table, r[i])
    {
      var j :| 0 <= j < |entries| && entries[j] == (r[i].0, Some(r[i].1));
      assert IsSet(config, table[j].1.0) && r[i] == (table[j].0, RenderAttribute(table[j].1.1, Get(config, table[j].1.0).value));
    }
  }

  /** Two dicts whose keys match position by position have the same keys,
      repeated or not alike. */
  lemma KeysAlong<U, V>(a: Dict<U>, b: Dict<V>)
    requires |a| == |b| && forall i | 0 <= i < |a| :: a[i].0 == b[i].0
    ensures forall k | HasKey(a, k) :: HasKey(b, k)
    ensures DistinctKeys(b) ==> DistinctKeys(a)
  {
    forall k | HasKey(a, k) ensures HasKey(b, k) {
      var i :| 0 <= i < |a| && a[i].0 == k;
      assert b[i].0 == k;
    }
  }

  /** Record attribute name, then the `status/current` field it copies. */
  const Metrics: Dict<string> := [
    ("proxmox_uptime_seconds", "uptime"),
    ("proxmox_cpu_usage", "cpu"),
    ("proxmox_mem_used_bytes", "mem"),
    ("proxmox_maxmem_bytes", "maxmem"),
    ("proxmox_cpus", "cpus"),
    ("proxmox_maxcpu", "maxcpu"),
    ("proxmox_netin_bytes", "netin"),
    ("proxmox_netout_bytes", "netout"),
    ("proxmox_diskread_bytes", "diskread"),
    ("proxmox_diskwrite_bytes", "diskwrite"),
    ("proxmox_disk_used_bytes", "disk")]

  /** `entry` is a metric attribute with the value of its field in the
      status reply. */
  predicate MetricEntry(status: map<string, string>, entry: (string, string)) {
    exists j | 0 <= j < |Metrics| :: Metrics[j].1 in status && entry == (Metrics[j].0, status[Metrics[j].1])
  }

  /** Each metric with its field's value, or None when the field is absent. */
  function MetricValues(status: map<string, string>): (r: Dict<Option<string>>)
    ensures |r| == |Metrics|
    ensures forall i | 0 <= i < |Metrics| ::
      r[i].0 == Metrics[i].0
      && (r[i].1.Some? <==> Metrics[i].1 in status)
      && (r[i].1.Some? ==> r[i].1.value == status[Metrics[i].1])
  {
    seq(|Metrics|, i requires 0 <= i < |Metrics| =>
      (Metrics[i].0, if Metrics[i].1 in status then Some(status[Metrics[i].1]) else None))
  }

  /** The metric attributes: one per field present in the status reply, and
      nothing else. */
  function MetricAttributes(status: map<string, string>): (r: Dict<string>)
    ensures forall k | HasKey(r, k) :: HasKey(Metrics, k)
    ensures forall i | 0 <= i < |Metrics| && Metrics[i].1 in status :: (Metrics[i].0, status[Metrics[i].1]) in r
    ensures forall i | 0 <= i < |r| :: MetricEntry(status, r[i])
    ensures DistinctKeys(r)
  {
    var entries := MetricValues(status);
    KeysAlong(entries, Metrics);
    MetricsDistinct();
    MetricOrigins(status);
    Present(entries)
  }

  /** The script's run of `if field in status: node[name] = …` lines, one
      per metric, in the order listed. */
  function MetricsFrom(status: map<string, string>, table: Dict<string>): Dict<string>
    decreases |table|
  {
    if |table| == 0 then []
    else
      (if table[0].1 in status then [(table[0].0, status[table[0].1])] else []) + MetricsFrom(status, table[1..])
  }

  /** The metric attributes are the reported metrics in the script's order. */
  lemma MetricAttributesListed(status: map<string, string>)
    ensures MetricAttributes(status) == MetricsFrom(status, Metrics)
  {
    MetricValuesListed(status, Metrics, MetricValues(status));
  }

  /** Keeping the present values of field-by-field results, one per
      metric, gives the reported metrics in table order. */
  lemma {:induction false} MetricValuesListed(status: map<string, string>, table: Dict<string>, entries: Dict<Option<string>>)
    requires |entries| == |table|
    requires forall i | 0 <= i < |table| ::
      entries[i] == (table[i].0, if table[i].1 in status then Some(status[table[i].1]) else None)
    decreases |table|
    ensures Present(entries) == MetricsFrom(status, table)
  {
    if |table| > 0 {
      PresentUncons(entries);
      assert forall i | 0 <= i < |table[1..]| :: table[1..][i] == table[i + 1] && entries[1..][i] == entries[i + 1];
      MetricValuesListed(status, table[1..], entries[1..]);
    }
  }

  /** Each kept metric came from a field present in the reply. */
  lemma MetricOrigins(status: map<string, string>)
    ensures forall i | 0 <= i < |Present(MetricValues(status))| :: MetricEntry(status, Present(MetricValues(status))[i])
  {
    var entries := MetricValues(status);
    var r := Present(entries);
    forall i | 0 <= i < |r|
      ensures MetricEntry(status, r[i])
    {
      var j :| 0 <= j < |entries| && entries[j] == (r[i].0, Some(r[i].1));
      assert Metrics[j].1 in status && r[i] == (Metrics[j].0, status[Metrics[j].1]);
    }
  }

  /** No metric attribute is listed twice. */
  lemma MetricsDistinct()
    ensures DistinctKeys(Metrics)
  {
  }

  /** The attributes added after the base keys, in the order the script
      assigns them: the IP address, the configuration attributes, the OS
      information, then the metrics when the guest runs and reported any. */
  function Extras(kind: GuestKind, ip: string, config: Config, os: OsDetails,
                  running: bool, status: map<string, string>): Dict<string>
  {
    var withIp: Dict<string> := if ip != "" then [("ip_address", ip)] else [];
    var withConfig := PutAll(withIp, ConfigAttributes(config, AttributesOf(kind)));
    var withOs := PutAll(withConfig, OsPairs(os));
    if running && |status| > 0 then PutAll(withOs, MetricAttributes(status)) else withOs
  }

  /** What the script derives from a guest's probe before building its
      record: the OS information, the IP address, the description and the
      tag list. */
  datatype Details = Details(os: OsDetails, ip: string, description: string, tags: seq<string>)

  /** The derivations, in the order the script makes them. A numeric `ostype`
      reaching a string method, a numeric description, or a truthy numeric
      tags value raises. */
  function Inspect(kind: GuestKind, node: string, vmid: int, running: bool, probe: Probe): (r: Result<Details, Fault>)
    ensures r.Err? <==> OsFails(kind, running, probe.config, probe.agentOs) || TextFails(probe.config)
    ensures r.Ok? ==> r.value.description != ""
    ensures r.Ok? ==> Description(kind, vmid, node, Get(probe.config, "description")) == Ok(r.value.description)
    ensures r.Ok? ==> r.value.ip == VmIp(kind, running, probe.config, probe.agentNet)
    ensures r.Ok? ==> GuestOsInfo(kind, running, probe.config, probe.agentOs) == Ok(r.value.os)
    ensures r.Ok? ==> TagList(kind, node, Get(probe.config, "tags")) == Ok(r.value.tags)
  {
    TextFailsExactly(kind, vmid, node, probe.config);
    var os :- GuestOsInfo(kind, running, probe.config, probe.agentOs);
    var ip := VmIp(kind, running, probe.config, probe.agentNet);
    var description :- Description(kind, vmid, node, Get(probe.config, "description"));
    var tags :- TagList(kind, node, Get(probe.config, "tags"));
    Ok(Details(os, ip, description, tags))
  }

  /** `status == 'running'` for the listed status, `unknown` when missing. */
  predicate Running(guest: Guest) {
    guest.status.GetOr("unknown") == "running"
  }

  /** The record once the derivations succeeded, with the attributes added
      after the base keys. */
  function Assemble(kind: GuestKind, node: string, guest: Guest, details: Details, extra: Dict<string>): (r: NodeRecord)
    ensures guest.name.Some? ==> r.nodename == guest.name.value
    ensures guest.name.None? ==> r.nodename == DefaultName(kind, guest.vmid)
    ensures r.runningStatus == "running" <==> guest.status == Some("running")
    ensures r.runningStatus in {"running", "stopped"}
    ensures r.proxmoxStatus == guest.status.GetOr("unknown")
    ensures r.username == "root" && r.osFamily == "unix"
    ensures r.proxmoxNode == node && r.proxmoxVmid == IntToString(guest.vmid)
    ensures r.proxmoxType == TypeName(kind)
  {
    var name := guest.name.GetOr(DefaultName(kind, guest.vmid));
    var running := Running(guest);
    assert "unknown"[0] != "running"[0] && "stopped"[0] != "running"[0];
    NodeRecord(
      name, if details.ip != "" then details.ip else name + ".local", "root", "unix",
      Join(details.tags, ','), details.description, node, IntToString(guest.vmid), TypeName(kind),
      guest.status.GetOr("unknown"), if running then "running" else "stopped",
      extra)
  }

  /** The record for one guest of `node`; an error ends the whole run. */
  function BuildRecord(kind: GuestKind, node: string, guest: Guest, probe: Probe): (r: Result<NodeRecord, Fault>)
    ensures r.Ok? <==> Buildable(kind, guest, probe)
    ensures r.Ok? ==> r.value.description != ""
    ensures r.Ok? ==> r.value.proxmoxNode == node && r.value.proxmoxType == TypeName(kind) && r.value.username == "root"
  {
    var details :- Inspect(kind, node, guest.vmid, Running(guest), probe);
    var running := Running(guest);
    Ok(Assemble(kind, node, guest, details, Extras(kind, details.ip, probe.config, details.os, running, probe.status)))
  }

  /** `.strip()` meets a numeric description, or `.split()` a truthy
      numeric tags value. */
  predicate TextFails(config: Config) {
    NumberAt(config, "description") || (NumberAt(config, "tags") && IsSet(config, "tags"))
  }

  /** The description or the tag list fails exactly when `TextFails` says. */
  lemma TextFailsExactly(kind: GuestKind, vmid: int, node: string, config: Config)
    ensures Description(kind, vmid, node, Get(config, "description")).Err? || TagList(kind, node, Get(config, "tags")).Err?
      <==> TextFails(config)
  {
  }

  /** The record of a guest can be built: no string method of the script
      meets a number in its configuration. */
  predicate Buildable(kind: GuestKind, guest: Guest, probe: Probe) {
    !OsFails(kind, Running(guest), probe.config, probe.agentOs) && !TextFails(probe.config)
  }

  /** The configuration holds a number under `key`. */
  predicate NumberAt(config: Config, key: string) {
    Get(config, key).Some? && Get(config, key).value.Num?
  }
}
