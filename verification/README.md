# Proxmox node source for Rundeck, modelled in Dafny

`proxmox-node-source.py` is a Rundeck resource-model plugin. It asks a
Proxmox VE cluster for its QEMU virtual machines and LXC containers, builds
one flat Rundeck node dictionary per guest, and prints the list as JSON, YAML
or `resource-xml`. This project models the part of the script that decides
what is printed, once the API replies are inputs:

- `IpAddress` (`ip_address.dfy`): `get_vm_ip_address`. The first acceptable
  guest-agent address is taken, in interface order and then address order.
  Otherwise the address comes from `ipconfig0`, and after that from the least
  `net*`/`ipconfig*` key.
- `OsInfo` (`os_info.dfy`): `get_vm_os_info`. It covers the `ostype` tables
  and their fallbacks, and the agent's `get-osinfo` fields.
- `NodeRecords` (`node_record.dfy`): one record per guest. This covers the
  default name, hostname, description and tags, the configuration
  attributes, and the status metrics.
- `RecordFacts` (`record_facts.dfy`): what a built record holds, key by key.
- `Fetch` (`fetch.dfy`): the walk over the cluster nodes in
  `fetch_proxmox_nodes`. Per node, VMs come before containers. Each guest
  kind is gated by its include flag. A refused listing is skipped, and any
  other failure ends the run.
- `XmlOutput` (`xml_output.dfy`): `output_xml`, as a tree of `<node>`
  elements rather than text.
- `Settings` (`settings.dfy`): how `main` resolves its settings from the
  environment and the command line. It also covers the default-username
  override and the output-format dispatch.
- `Results`, `Text`, `Dicts` and `Values` are the support modules. They hold
  Option/Result, Python's `strip`/`split`/`join`/`lower` on ASCII, Python
  dictionaries as ordered association lists (assignment updates in place or
  appends), and configuration values (a string or a number).

Python exceptions that escape to the handler at
`proxmox-node-source.py:569-571` become error results. A string method
called on a numeric configuration value is one such case
(`Values.Fault`). Exceptions that the script catches locally are modelled
as the value the handler produces.

Some behaviours of the code are modelled as written:

- The agent scan returns the first acceptable address of either family. It
  does not prefer IPv4, despite its comments.
- A configuration address is the text after the first `ip=`, cut only at a
  second `ip=` and at the first `/`. So `ip=dhcp,ip6=dhcp` gives the address
  `dhcp,ip6=dhcp`, and `ip=1.1.1.1,ip=2.2.2.2/24` gives `1.1.1.1,`.
- A Rundeck boolean flag is lower-cased but not stripped before the
  comparison, so `" true"` and `"yes "` count as false.
- A running guest's `maxmem` status overwrites the `proxmox_maxmem_bytes`
  value taken from its configuration.
- The node filter functions that the tests call (`parse_node_filter`,
  `evaluate_node_filter`, `filter_nodes`) are not defined in
  `proxmox-node-source.py`, and they are not part of this model.

## Model

| member | source | states |
|---|---|---|
| IpAddress.FirstAcceptableFrom | proxmox-node-source.py:268-290 | the nested interface/address scan finds an acceptable address with none acceptable before it, or reports that none exists |
| IpAddress.AgentIp | proxmox-node-source.py:264-290 | the agent address is absent exactly when no address qualifies; otherwise it is the first qualifying one (non-`lo` interface, IPv4 outside `127.`/`169.254.` or IPv6 outside `::1`/`fe80:`), whatever its family |
| IpAddress.ParseIpField | proxmox-node-source.py:309-313 | no `ip=` gives nothing; a parsed address is non-empty, stripped and free of `/`; `IpAddress.UpToMarker` states where a second `ip=` cuts, and `IpAddress.ParseIpFieldPiece` pins which address it is |
| IpAddress.UpToMarker | proxmox-node-source.py:312 | `split('ip=')[1]` keeps the text after the first `ip=` up to the next one: no `ip=` starts before the cut, and the cut is at the end of the text or at an `ip=` |
| IpAddress.NoMarkerInAddress | proxmox-node-source.py:312 | text free of `ip=` followed by nothing, by `/` or by `ip=` survives the cut whole, and a following `ip=` is exactly where the cut falls |
| IpAddress.ParseIpFieldPiece | proxmox-node-source.py:309-313 | after text without `ip=`, the field written after `ip=` (free of `/` and of `ip=`, followed by nothing, by `/` or by a second `ip=`) reads back as that field stripped, or as nothing when it is blank |
| IpAddress.ParseIpFieldWhole | proxmox-node-source.py:309-313 | `ip=` followed by a field free of `/` and of `ip=` reads as that field stripped, or as nothing when it is blank |
| IpAddress.ParseIpFieldKeepsIp6 | proxmox-node-source.py:309-313 | `ip=<v4>,ip6=<v6>` (as in `ip=dhcp,ip6=dhcp`) reads as `<v4>,ip6=<v6>`: only `ip=` and `/` end the address, not `ip6=` or a comma |
| IpAddress.ParseIpFieldCutsAtSecondMarker | proxmox-node-source.py:309-313 | `ip=<address>,ip=<anything>` (as in `ip=1.1.1.1,ip=2.2.2.2/24`) reads as `<address>,`: the second `ip=` ends the address and the comma stays |
| IpAddress.ParseIpFieldRoundTrip | proxmox-node-source.py:309-313 | an address written as `ip=<address>` with blank padding around it, after text without `ip=`, followed by nothing, by `/prefix…` or by a second `ip=`, parses back to itself |
| IpAddress.LeastMarked | proxmox-node-source.py:316-324 | the chosen position is marked and its key is at most every other marked key under Python's string order; none means nothing is marked |
| IpAddress.LeastNetworkEntry | proxmox-node-source.py:316-324 | the chosen entry yields an address and has the least key among all entries that do, as the sorted scan meets it first; none means no entry yields one |
| IpAddress.ConfigIp | proxmox-node-source.py:306-328 | `ipconfig0` wins when it parses; a number there gives ""; otherwise the result is "" exactly when no network entry qualifies, else the address of the least qualifying key |
| IpAddress.VmIp | proxmox-node-source.py:251-328 | a running QEMU guest with `agent == 1` and a qualifying agent address gets the first such address; every other case falls back to the configuration address |
| OsInfo.NamesIgnoreCase | proxmox-node-source.py:189-229 | distribution and family names depend only on the lower-cased `ostype` |
| OsInfo.GuestOsInfo | proxmox-node-source.py:147-231 | `proxmox_ostype` present exactly when `ostype` is truthy; for a running QEMU guest with the agent on whose agent replied, each of the seven agent fields (`name`, `version`, `version-id`, `pretty-name`, `id`, `kernel-release`, `kernel-version`) holds exactly the reply's value under its key, and without such a reply none is set; an LXC guest with a string `ostype` gets the distribution name, an LXC guest without `ostype` gets no name, and LXC never gets a family; its hostname is the configured one exactly when that is truthy; QEMU without an agent name gets the family name of a string `ostype`, and a family is only ever set when `ostype` is truthy; never both name and family; fails exactly when a numeric `ostype` reaches `.lower()` (any number for a container, a non-zero one for a VM without an agent name) |
| OsInfo.OsPairsKeys | proxmox-node-source.py:147-231 | `os_info` holds only the ten OS keys |
| OsInfo.OsPairsFields | proxmox-node-source.py:147-231 | `os_info` repeats no key, and each of its ten keys reads as the OS information determines it, absent when unset; in particular `os_name` and `os_family` |
| NodeRecords.Flatten | proxmox-node-source.py:390-403 | the dictionary starts with the eleven base keys; any other key reads as the added attributes have it; distinct added keys outside the base keys give a dictionary without repeated keys |
| NodeRecords.Description | proxmox-node-source.py:376-380 | a non-blank configured description is used stripped; a missing or blank one gives `Proxmox VM/Container <vmid> on node <node>`; a numeric one is an error; the result is never empty |
| NodeRecords.CleanTags | proxmox-node-source.py:386 | every kept tag is non-empty, stripped and comma-free; every non-blank comma-separated piece is kept, stripped; every kept tag is such a piece stripped |
| NodeRecords.CleanPiecesMembers | proxmox-node-source.py:386 | the list comprehension keeps every non-blank piece stripped, and keeps nothing that is not a non-blank piece stripped |
| NodeRecords.CleanPiecesSingle | proxmox-node-source.py:386 | one piece is kept, stripped, exactly when it is not blank |
| NodeRecords.CleanTagsPiece | proxmox-node-source.py:386 | each comma-separated piece stands, stripped, in its own place between the tags cleaned from the pieces before it and those after it, unless it is blank |
| NodeRecords.CleanPiecesAppend | proxmox-node-source.py:386 | cleaning keeps the order of the comma-separated pieces |
| NodeRecords.CleanTagsRoundTrip | proxmox-node-source.py:384-387 | clean comma-free tags joined with `,` clean back to the same list |
| NodeRecords.CleanTagsIdempotent | proxmox-node-source.py:386-387 | cleaning an already cleaned and joined tag string changes nothing |
| NodeRecords.TagList | proxmox-node-source.py:383-386 | the four base tags, followed by the cleaned configured tags when the value is a truthy string; a falsy or missing value adds nothing; a truthy number is an error |
| NodeRecords.BaseTagString | proxmox-node-source.py:383-387 | the base tags join to `proxmox,vm,qemu,<node>` or `proxmox,container,lxc,<node>` |
| NodeRecords.TagStringShape | proxmox-node-source.py:383-387 | a tag string is the base tag text, then a comma and the extra tags when there are any |
| NodeRecords.TagStringPrefix | proxmox-node-source.py:383-387 | every tag string starts with the base tag text |
| NodeRecords.TagStringSplits | proxmox-node-source.py:383-387 | with a comma-free node name, splitting the tag string on `,` gives the tag list back |
| NodeRecords.ConfigAttributes | proxmox-node-source.py:410-427 | every table row with a truthy configuration value yields its rendered attribute; every attribute is the rendered attribute of such a row; distinct table names give distinct keys; `NodeRecords.ConfigAttributesListed` gives the order |
| NodeRecords.ConfigAttributesListed | proxmox-node-source.py:410-427 | the configuration attributes are the table rows in table order, each present exactly when its value is truthy, rendered |
| NodeRecords.RowValuesListed | proxmox-node-source.py:410-427 | keeping the present values of the row-by-row results gives the table rows with a truthy value, in table order |
| NodeRecords.MetricAttributes | proxmox-node-source.py:435-456 | each status field present yields its metric attribute with that field's value; every attribute is a metric whose field is present, carrying that field's value; no name repeats; `NodeRecords.MetricAttributesListed` gives the order |
| NodeRecords.MetricAttributesListed | proxmox-node-source.py:435-456 | the metric attributes are the metric table's entries in table order, each present exactly when its field is in the status reply |
| NodeRecords.MetricValuesListed | proxmox-node-source.py:435-456 | keeping the present values of the field-by-field results gives the metrics whose field is reported, in table order |
| NodeRecords.Inspect | proxmox-node-source.py:364-387 | the OS information, IP, description and tags are those `get_vm_os_info`, `get_vm_ip_address`, the description rule and the tag rule give; it fails exactly when a numeric `ostype` reaches `.lower()`, the description is a number, or the tags value is a non-zero number |
| NodeRecords.Assemble | proxmox-node-source.py:389-403 | `nodename` is the listed name or `vm-`/`ct-<vmid>`; `proxmox_running_status` is `running` exactly when the status is `running`, else `stopped`; the status defaults to `unknown`; the user is `root`, the family `unix`, and node, vmid and type are as listed |
| NodeRecords.BuildRecord | proxmox-node-source.py:357-458 | the record for one guest is built exactly when no string method of the script meets a number in its configuration; a built record has a description, the right node and type, and user `root` |
| RecordFacts.AttributeNames | proxmox-node-source.py:410-427 | the configuration attribute names are distinct and never a base key, `ip_address`, `os_name` or `os_family` |
| RecordFacts.MetricNames | proxmox-node-source.py:435-456 | metric names are never base, IP or OS keys |
| RecordFacts.MetricsOutsideConfig | proxmox-node-source.py:409-456 | `proxmox_maxmem_bytes` is the only name both the configuration table and the metrics write |
| RecordFacts.ExtrasKeys | proxmox-node-source.py:405-456 | every added key is the IP key, a configuration attribute, an OS key, or a metric of a running guest with status; none repeats |
| RecordFacts.ExtrasShape | proxmox-node-source.py:405-456 | added attributes never shadow a base key |
| RecordFacts.RecordKeysDistinct | proxmox-node-source.py:389-456 | no key appears twice in a record |
| RecordFacts.StoppedRecordHasNoMetrics | proxmox-node-source.py:433-456 | a stopped guest, or one without status data, has no metric attribute except the configuration's `proxmox_maxmem_bytes` |
| RecordFacts.MetricOnlyFromStatus | proxmox-node-source.py:409-456 | a metric other than `proxmox_maxmem_bytes` is written by nothing but the status reply |
| RecordFacts.RunningRecordMetrics | proxmox-node-source.py:433-456 | a running guest with status data carries each reported metric under its name |
| RecordFacts.ExtrasMetric | proxmox-node-source.py:433-456 | after the IP, configuration and OS attributes, copying a running guest's metrics in leaves each reported metric under its name |
| RecordFacts.ConfigAttributeInRecord | proxmox-node-source.py:409-431 | a truthy configured value is in the record under its attribute name, rendered, unless OS information or a metric overwrites it |
| RecordFacts.ExtrasConfigAttribute | proxmox-node-source.py:409-456 | the added attributes hold each truthy configured value under its attribute name, rendered, unless an OS key or a reported metric takes that name afterwards |
| RecordFacts.ConfigStage | proxmox-node-source.py:410-427 | copying the configuration attributes onto any dictionary stores each truthy configured value under its attribute name |
| RecordFacts.RecordIpAddress | proxmox-node-source.py:405-407 | `ip_address` is present exactly when an IP was found, and holds it |
| RecordFacts.RecordHostname | proxmox-node-source.py:392 | the hostname is the IP when one was found, otherwise `<nodename>.local` |
| RecordFacts.ExtrasIp | proxmox-node-source.py:405-456 | later attributes never overwrite `ip_address` |
| RecordFacts.RecordOsInfo | proxmox-node-source.py:429-431 | each of the ten `os_info` keys reads in the record exactly as in `os_info`, absent when `os_info` leaves it unset; in particular `os_name` and `os_family` |
| RecordFacts.RecordOsField | proxmox-node-source.py:429-431 | one `os_info` key reads in a built record as `os_info` has it |
| RecordFacts.RecordOsKey | proxmox-node-source.py:405-456 | in the added attributes, each `os_info` key reads as `os_info` has it: the OS stage overwrites the configuration's `proxmox_ostype`, and no metric writes an OS key |
| RecordFacts.OsStage | proxmox-node-source.py:430-431 | after the OS loop, an OS key reads as `os_info` has it whenever the dictionary before held it only if `os_info` sets it too |
| RecordFacts.ConfigBeforeOs | proxmox-node-source.py:405-427 | before the OS loop, an OS key is held only if `os_info` also sets it |
| RecordFacts.ConfigOsKey | proxmox-node-source.py:425-426 | the only OS key the configuration lines write is `proxmox_ostype`, and only when `ostype` is truthy |
| RecordFacts.OsTypeStored | proxmox-node-source.py:150-152 | `os_info` holds `proxmox_ostype` exactly when it has an OS type |
| RecordFacts.RecordExtra | proxmox-node-source.py:389-456 | outside the base keys, the record reads as its added attributes |
| RecordFacts.ContainerRecordOsName | proxmox-node-source.py:184-229 | a container with a string `ostype` has the distribution name and no `os_family` |
| RecordFacts.VmRecordOsFamily | proxmox-node-source.py:211-229 | a VM with a non-empty string `ostype` and no agent OS name has the family name |
| RecordFacts.RecordTags | proxmox-node-source.py:382-396 | the tag string starts with the base tags, is the base and cleaned tags joined by `,`, and splits back when the node name has no comma |
| RecordFacts.TagText | proxmox-node-source.py:383-387 | any tag string joined from a tag list starts with the base tags, is the base and cleaned configured tags joined by `,`, and splits back when the node name has no comma |
| RecordFacts.RecordDescription | proxmox-node-source.py:376-380 | a built record's description is the configured one stripped when it is not blank, otherwise `Proxmox VM/Container <vmid> on node <node>` |
| Fetch.GuestRecords | proxmox-node-source.py:357-458 | a listing yields records exactly when every guest's record builds, one per guest, in listing order |
| Fetch.FirstFailureReported | proxmox-node-source.py:569-571 | a failed listing reports the first guest, in listing order, whose record fails |
| Fetch.ListingRecords | proxmox-node-source.py:354-460 | a refused listing gives no records and no failure; a broken one or a failing guest fails; records carry the node, type and user `root`; record `i` of a listed node is the record built for guest `i` of the listing |
| Fetch.NodeListing | proxmox-node-source.py:350-567 | a node contributes one record per guest of each included kind, each of an included kind on that node, unless an included listing fails |
| Fetch.NodeListingParts | proxmox-node-source.py:350-567 | a node's records are its VM listing's records followed by its container listing's records, each taken only when included |
| Fetch.NodeListingRecords | proxmox-node-source.py:353-458 | on a node, record `i` is the one built for VM `i` of its listing, and container `j`'s record follows all VM records, at position `j` after them |
| Fetch.NodeVmRecord | proxmox-node-source.py:353-458 | on a node, record `i` is the one built for VM `i` of its listing |
| Fetch.NodeContainerRecord | proxmox-node-source.py:353-458 | on a node, the record of container `j` stands `j` places after the included VM records and is the one built for that container |
| Fetch.ListedRecord | proxmox-node-source.py:357-458 | a successful listing has one record per guest, and record `i` is the one built for guest `i` |
| Fetch.VmsBeforeContainers | proxmox-node-source.py:353-567 | within a node all VM records come before all container records |
| Fetch.AllNodes | proxmox-node-source.py:350-567 | the walk fails exactly when some node fails; otherwise it gives the expected count; `Fetch.AllNodesAppend` states the node-after-node order |
| Fetch.AllNodesAppend | proxmox-node-source.py:350-567 | walking two runs of nodes one after the other succeeds exactly when both do, and gives the first run's records followed by the second's |
| Fetch.AllNodesSingle | proxmox-node-source.py:350-567 | a single node's walk is its own listing |
| Fetch.WalkedRecord | proxmox-node-source.py:350-567 | every record of the walk belongs to some cluster node, has an included kind, and has user `root` |
| Fetch.ListedGuestAppears | proxmox-node-source.py:350-567 | every guest of an included listing has its record in the output |
| Fetch.BuildRecordLabelled | proxmox-node-source.py:389-403 | every built record names its node and type, with user `root` |
| Fetch.FetchNodes | proxmox-node-source.py:344-573 | fetching fails exactly when the node list is unavailable or some node fails, and otherwise gives the expected count; `Fetch.FetchedInClusterOrder` states the cluster order |
| Fetch.FetchedInClusterOrder | proxmox-node-source.py:344-573 | the records of a run follow the cluster's node order: a run over two node lists is the run over the first followed by the run over the second |
| Fetch.FetchedSingleNode | proxmox-node-source.py:344-573 | a one-node cluster yields that node's own listing: record `i` is the one built for VM `i`, and the container records follow, each the one built for the container at that position of its listing |
| Fetch.FetchedKinds | proxmox-node-source.py:350-567 | every fetched record is of an included kind, with user `root` |
| XmlOutput.OutputXml | proxmox-node-source.py:596-617 | one `<node>` element per record, with the standard attributes and the children of that record |
| XmlOutput.ChildrenFields | proxmox-node-source.py:611-617 | no child carries a standard field; every child is a field of the node; every non-standard field is a child |
| XmlOutput.ChildrenConcat | proxmox-node-source.py:613-617 | children follow the node's field order |
| XmlOutput.FirstChildFinds | proxmox-node-source.py:611-617 | a non-standard field reads back from the children exactly as `get` finds it |
| XmlOutput.FieldRoundTrip | proxmox-node-source.py:596-617 | reading any field back from the element gives the node's value; the four fixed fields read as `""` when missing |
| XmlOutput.BaseFieldFound | proxmox-node-source.py:390-403 | each base field of a record is what `get` finds |
| XmlOutput.RecordAttributes | proxmox-node-source.py:598-609 | a record's element has exactly name, hostname, username, osFamily, description and tags, in that order |
| XmlOutput.RecordChildren | proxmox-node-source.py:611-617 | a record's children are its five `proxmox_*` base fields, then its non-standard added attributes |
| Settings.Either | proxmox-node-source.py:720-721 | `a or b`: the first non-empty value |
| Settings.FirstNonEmpty | proxmox-node-source.py:720-725 | `a or b or …` over strings: empty exactly when every option is empty; otherwise an option with only empty options before it |
| Settings.EitherChain | proxmox-node-source.py:720-721 | `a or b`, when non-empty, is the first non-empty of the two |
| Settings.PasswordOf | proxmox-node-source.py:722-725 | the password is the storage-path variable if non-empty, else the password variable if non-empty, else the stripped storage-path argument if non-blank, else the stripped password argument; empty exactly when all four are empty or blank |
| Settings.PasswordChain | proxmox-node-source.py:722-725 | the password is the first non-empty of the four sources in the order the `or` chain lists them |
| Settings.FlagValue | proxmox-node-source.py:756-757 | a blank flag gives no answer; otherwise true exactly when its lower-cased text is `true`, `1` or `yes` |
| Settings.FlagIgnoresCase | proxmox-node-source.py:757 | the flag's answer ignores letter case |
| Settings.PaddedFlagIsFalse | proxmox-node-source.py:756-757 | a flag whose first character is whitespace (as in `" true"`) is never read as true |
| Settings.TrailingPaddedFlagIsFalse | proxmox-node-source.py:756-757 | a flag whose last character is whitespace (as in `"yes "`) is never read as true |
| Settings.KindIncluded | proxmox-node-source.py:746-766 | `--no-*` excludes, `--include-*` includes, else the flag decides and a blank flag includes |
| Settings.VerifySsl | proxmox-node-source.py:769-773 | SSL is verified exactly when `--verify-ssl` is given or the flag is true |
| Settings.PortOf | proxmox-node-source.py:726 | the environment port wins, then a non-zero argument, then 8006 |
| Settings.Resolve | proxmox-node-source.py:720-773 | host, user and password are checked in that order, exactly when empty; host and user are the first non-empty of the environment value and the argument, and the password is the four-source chain; for the three flags any set variable, even empty, replaces the argument; username and format fall back to `root` and `yaml`; `--no-vms`/`--no-containers` exclude and `--verify-ssl` forces verification |
| Settings.FormatOf | proxmox-node-source.py:797-804 | `yaml` and `xml` select their formats; anything else falls back to JSON |
| Settings.ApplyUsername | proxmox-node-source.py:792-794 | every record gets the default username unless it is `root`; the count is kept |
| Settings.UsernameOverride | proxmox-node-source.py:794 | setting the username replaces the `username` entry in place |
| Settings.Publish | proxmox-node-source.py:791-804 | `yaml` gives YAML output, `xml` gives XML output, and every other format name (`json` included) gives JSON output; one entry per record; entry `i` is record `i`'s dictionary, with `username` replaced when the default is not `root`, and for XML the element carrying that dictionary's standard attributes and children |
| Settings.PublishedUsername | proxmox-node-source.py:791-804 | every published node, in any format, carries the resolved default username |
| Settings.Run | proxmox-node-source.py:716-804 | a configuration error ends the run before fetching; with settings resolved, a failed fetch ends the run with that failure, and a successful one is published with the resolved settings |
| Settings.RunUsername | proxmox-node-source.py:784-804 | after a successful run, every printed node has the resolved default username |
| Dicts.Put | proxmox-node-source.py:430-431 | assignment makes the key read as the value, leaves other keys alone, keeps existing positions, and appends new keys |
| Dicts.Present | proxmox-node-source.py:147-231 | only entries that hold a value are kept, each with that value; no kept key is missing from the entries; distinct keys stay distinct |
| Dicts.PresentSingle | proxmox-node-source.py:150-152 | one entry is kept, unwrapped, exactly when it holds a value |
| Dicts.PresentAppend | proxmox-node-source.py:147-231 | keeping the present entries keeps their order: entries one after the other give their kept entries one after the other |
| Dicts.PresentGet | proxmox-node-source.py:147-231 | with distinct keys, `get` on the kept entries finds each entry's value, and nothing for an entry without one |
| Dicts.PutAllGet | proxmox-node-source.py:430-431 | after copying a dictionary in, its keys read as it has them and the others are unchanged |
| Text.Strip | proxmox-node-source.py:376 | the result is stripped, made of the input's characters, empty exactly when the input is blank, and what remains of the input once a blank prefix and a blank suffix are cut |
| Text.StripPadded | proxmox-node-source.py:376 | stripping blank padding from around a stripped text gives exactly that text |
| Text.StripTrims | proxmox-node-source.py:376 | when the blank padding around a non-empty core is known, stripping gives that core |
| Text.SplitJoin | proxmox-node-source.py:386-387 | one or more pieces free of the separator, joined with it, split back to themselves |
| Text.JoinSplit | proxmox-node-source.py:386-387 | joining the pieces of a split gives the text back |
| Text.LexLeTotal | proxmox-node-source.py:316 | any two strings are ordered one way or the other under Python's string order |
| Text.LexLeTransitive | proxmox-node-source.py:316 | Python's string order, which `sorted` uses, is transitive |

## Left out

- All ProxmoxAPI traffic (`get_proxmox_connection`, `get_vm_config`, `get_vm_status`, the agent calls) is left out. Each reply is an input: `Probe` for one guest, `Listing` for one node's listing, and `Option<seq<ClusterNode>>` for the cluster.
- The LXC status probe inside `get_vm_ip_address` (proxmox-node-source.py:295-304) is left out. It changes nothing.
- Printing to stderr and `sys.exit` are not modelled; they become error results.
- Serialisation is left out: `json.dumps`, `yaml.dump`, ElementTree `indent`/`tostring` and the final `print`. The output is the structure before it is turned into text.
- The exit when PyYAML is missing (proxmox-node-source.py:583-585) is left out. It depends on the installation.
- `int()` parsing of the port is left out, including its failure. The port is an integer input.
- argparse (choices for `--output-format`, the defaults) is left out. The parsed arguments are an input.
- Status values are text. `str()` of floats and other numbers is taken as given.
- `strip`, `lower`, `upper` and `capitalize` cover ASCII only. Full Unicode case mapping and whitespace are not modelled.
- Configuration values are strings or integers. Other JSON types (lists, floats, booleans) are not modelled. A listing entry missing `vmid` is not modelled.
- A cluster entry without a `node` key is not modelled: a `ClusterNode` always has a name. In the script, `cluster_node['node']` (proxmox-node-source.py:351) raises KeyError, and the handler at proxmox-node-source.py:569-571 ends the run with exit status 1.
- Agent replies that are not lists or dictionaries are modelled the way the script skips them: as an absent reply or as entries with missing fields.
- The node filter engine exercised by the tests has no definition in the script, so there is nothing to model.
- IpAddress.AgentIp: agent interface names and addresses are strings in the model. A truthy name or `ip-address` that is not a string makes `.startswith` raise (proxmox-node-source.py:272, 284, 287). The handler at proxmox-node-source.py:291-293 then abandons the agent scan, and the configuration address is used. That path is not modelled.
