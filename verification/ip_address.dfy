/** Choosing a guest's IP address: from the QEMU guest agent's interface
    list when the agent answers, otherwise from the `ipconfigN`/`netN`
    entries of the configuration. */
module IpAddress {
  import opened Results
  import opened Text
  import opened Dicts
  import opened Values

  /** One entry of an interface's `ip-addresses` list; a missing
      `ip-address` or `ip-address-type` field reads as "". */
  datatype AgentAddress = AgentAddress(address: string, family: string)

  /** One interface reported by `network-get-interfaces`; a missing `name`
      reads as "" and a missing address list as the empty list. */
  datatype AgentInterface = AgentInterface(name: string, addresses: seq<AgentAddress>)

  /** Interfaces whose name starts with `lo` are skipped whole. */
  predicate LoopbackInterface(iface: AgentInterface) {
    StartsWith(iface.name, "lo")
  }

  /** A non-empty IPv4 address outside the `127.` and `169.254.` prefixes, or
      a non-empty IPv6 address outside the `::1` and `fe80:` prefixes. */
  predicate UsableAddress(a: AgentAddress) {
    a.address != ""
    && ((a.family == "ipv4" && !StartsWith(a.address, "127.") && !StartsWith(a.address, "169.254."))
        || (a.family == "ipv6" && !StartsWith(a.address, "::1") && !StartsWith(a.address, "fe80:")))
  }

  /** Address `j` of interface `i` would be returned if the scan reached it. */
  predicate Acceptable(ifaces: seq<AgentInterface>, i: int, j: int) {
    0 <= i < |ifaces| && 0 <= j < |ifaces[i].addresses|
    && !LoopbackInterface(ifaces[i]) && UsableAddress(ifaces[i].addresses[j])
  }

  /** No address before position (i, j), in interface order and then address
      order, is acceptable. */
  predicate NoneAcceptableBefore(ifaces: seq<AgentInterface>, i: int, j: int) {
    forall a, b | 0 <= a < |ifaces| && 0 <= b < |ifaces[a].addresses| && (a < i || (a == i && b < j))
      :: !Acceptable(ifaces, a, b)
  }

  /** The nested scan over interfaces and their addresses, resumed at
      position (i, j). */
  function FirstAcceptableFrom(ifaces: seq<AgentInterface>, i: nat, j: nat): (r: Option<(nat, nat)>)
    requires NoneAcceptableBefore(ifaces, i, j)
    decreases |ifaces| - i, if i < |ifaces| then |ifaces[i].addresses| - j else 0
    ensures r.Some? ==> Acceptable(ifaces, r.value.0, r.value.1)
    ensures r.Some? ==> NoneAcceptableBefore(ifaces, r.value.0, r.value.1)
    ensures r.None? ==> NoneAcceptableBefore(ifaces, |ifaces|, 0)
  {
    if i >= |ifaces| then None
    else if j >= |ifaces[i].addresses| || LoopbackInterface(ifaces[i]) then FirstAcceptableFrom(ifaces, i + 1, 0)
    else if UsableAddress(ifaces[i].addresses[j]) then Some((i, j))
    else FirstAcceptableFrom(ifaces, i, j + 1)
  }

  /** The address the guest agent branch returns: the first acceptable one
      in interface order and then address order, whatever its family (an
      IPv6 address listed before an IPv4 one wins), or None when no address
      is acceptable. */
  function AgentIp(ifaces: seq<AgentInterface>): (r: Option<string>)
    ensures r.None? <==> NoneAcceptableBefore(ifaces, |ifaces|, 0)
    ensures r.Some? ==> exists i, j | Acceptable(ifaces, i, j)
      :: NoneAcceptableBefore(ifaces, i, j) && ifaces[i].addresses[j].address == r.value
  {
    match FirstAcceptableFrom(ifaces, 0, 0)
    case Some((i, j)) =>
      assert !NoneAcceptableBefore(ifaces, |ifaces|, 0) by {
        assert Acceptable(ifaces, i, j);
      }
      Some(ifaces[i].addresses[j].address)
    case None => None
  }

  /** `rest.split('ip=')[0]`: the text before any further `ip=`. No `ip=`
      starts before the cut, and the cut is at the end or at an `ip=`. */
  function UpToMarker(rest: string): (r: string)
    ensures r <= rest
    ensures forall k: nat | k < |r| :: !OccursAt(rest, "ip=", k)
    ensures r == rest || OccursAt(rest, "ip=", |r|)
    ensures !Contains(r, "ip=")
  {
    match FindFrom(rest, "ip=", 0)
    case Some(j) =>
      MarkerFreePrefix(rest, j);
      rest[..j]
    case None =>
      MarkerFreePrefix(rest, |rest|);
      rest
  }

  /** A prefix of `s` before which no `ip=` starts holds no `ip=`. */
  lemma MarkerFreePrefix(s: string, n: nat)
    requires n <= |s|
    requires forall k: nat | k < n :: !OccursAt(s, "ip=", k)
    ensures !Contains(s[..n], "ip=")
  {
    forall k: nat | k <= n
      ensures !OccursAt(s[..n], "ip=", k)
    {
      if k + 3 <= n {
        assert s[..n][k..k + 3] == s[k..k + 3];
        assert !OccursAt(s, "ip=", k);
      }
    }
  }

  /** `value.split('ip=')[1].split('/')[0]`, stripped: the text after the
      first `ip=` up to any second `ip=`, cut at the first `/`. None when
      `ip=` does not occur or the text is blank. */
  function ParseIpField(value: string): (r: Option<string>)
    ensures !Contains(value, "ip=") ==> r.None?
    ensures r.Some? ==> r.value != "" && IsStripped(r.value) && '/' !in r.value
  {
    match FindFrom(value, "ip=", 0)
    case None => None
    case Some(i) =>
      assert OccursAt(value, "ip=", i);
      var ip := Strip(Split(UpToMarker(value[i + 3..]), '/')[0]);
      if ip == "" then None else Some(ip)
  }

  /** The first `ip=` after text free of `ip=` is the one written there. */
  lemma FirstMarker(prefix: string, t: string)
    requires !Contains(prefix, "ip=")
    ensures FindFrom(prefix + "ip=" + t, "ip=", 0) == Some(|prefix|)
  {
    var value := prefix + "ip=" + t;
    var n := |prefix|;
    assert OccursAt(value, "ip=", n) by {
      assert value[n..n + 3] == "ip=";
    }
    forall k: nat | k < n
      ensures !OccursAt(value, "ip=", k)
    {
      if k + 3 <= n {
        assert value[k..k + 3] == prefix[k..k + 3];
        assert !OccursAt(prefix, "ip=", k);
      } else {
        assert value[k..k + 3][2] == value[k + 2];
      }
    }
  }

  /** Text free of `ip=`, followed by nothing, by `/` or by `ip=`, is kept
      whole up to the marker; a following `ip=` is where the cut falls. */
  lemma NoMarkerInAddress(address: string, suffix: string)
    requires !Contains(address, "ip=")
    requires suffix == "" || suffix[0] == '/' || StartsWith(suffix, "ip=")
    ensures |UpToMarker(address + suffix)| >= |address|
    ensures UpToMarker(address + suffix)[..|address|] == address
    ensures StartsWith(suffix, "ip=") ==> UpToMarker(address + suffix) == address
  {
    var rest := address + suffix;
    var m := |address|;
    forall k: nat | k < m
      ensures !OccursAt(rest, "ip=", k)
    {
      if k + 3 <= m {
        assert rest[k..k + 3] == address[k..k + 3];
        assert !OccursAt(address, "ip=", k);
      } else if k + 3 <= |rest| {
        assert rest[k..k + 3][1] == rest[k + 1] && rest[k..k + 3][2] == rest[k + 2];
        if k + 2 == m {
          assert rest[k + 2] == suffix[0];
          if StartsWith(suffix, "ip=") {
            assert suffix[..3][0] == suffix[0];
          }
        } else {
          assert rest[k + 1] == suffix[0];
          if StartsWith(suffix, "ip=") {
            assert suffix[..3][0] == suffix[0];
          }
        }
      }
    }
    var r := UpToMarker(rest);
    assert |r| >= m;
    assert r[..m] == rest[..m] == address;
    if StartsWith(suffix, "ip=") {
      assert OccursAt(rest, "ip=", m) by {
        assert rest[m..m + 3] == suffix[..3];
      }
      assert r == rest[..|r|];
    }
  }

  /** Text without `=` holds no `ip=`. */
  lemma NoEqualsNoMarker(s: string)
    requires '=' !in s
    ensures !Contains(s, "ip=")
  {
    forall k: nat | k <= |s|
      ensures !OccursAt(s, "ip=", k)
    {
      if k + 3 <= |s| {
        assert s[k..k + 3][2] == s[k + 2];
      }
    }
  }

  /** After text free of `ip=`, the field written as `ip=<field>` (free of
      `/` and of `ip=`, followed by nothing, by `/` or by a further `ip=`) is
      read back stripped; a blank field reads as no address. */
  lemma ParseIpFieldPiece(prefix: string, field: string, suffix: string)
    requires !Contains(prefix, "ip=")
    requires '/' !in field && !Contains(field, "ip=")
    requires suffix == "" || suffix[0] == '/' || StartsWith(suffix, "ip=")
    ensures ParseIpField(prefix + "ip=" + field + suffix) == if IsBlank(field) then None else Some(Strip(field))
  {
    var value := prefix + "ip=" + field + suffix;
    assert value == prefix + "ip=" + (field + suffix);
    FirstMarker(prefix, field + suffix);
    var rest := value[|prefix| + 3..];
    assert rest == field + suffix;
    NoMarkerInAddress(field, suffix);
    var upTo := UpToMarker(rest);
    var m := |field|;
    var tail := upTo[m..];
    assert upTo == field + tail;
    assert tail == "" || tail[0] == '/' by {
      if tail != "" && !StartsWith(suffix, "ip=") {
        assert tail[0] == rest[m];
      }
    }
    SplitPrefix(field, tail, '/');
    assert Split(tail, '/')[0] == "" by {
      if tail != "" {
        assert Split(tail, '/') == [""] + Split(tail[1..], '/');
      }
    }
    assert field + "" == field;
  }

  /** `ip6=` does not end the address: `ip=<v4>,ip6=<v6>` (as in
      `ip=dhcp,ip6=dhcp`) reads as everything after the first `ip=`. */
  lemma ParseIpFieldKeepsIp6(v4: string, v6: string)
    requires v4 != "" && IsStripped(v4) && '/' !in v4 && '=' !in v4
    requires IsStripped(v6) && '/' !in v6 && '=' !in v6
    ensures ParseIpField("ip=" + v4 + ",ip6=" + v6) == Some(v4 + ",ip6=" + v6)
  {
    DualStackParsed(v4, v6, "ip=" + v4 + ",ip6=" + v6, v4 + ",ip6=" + v6);
  }

  /** The dual-stack value, named. */
  lemma DualStackParsed(v4: string, v6: string, value: string, field: string)
    requires v4 != "" && IsStripped(v4) && '/' !in v4 && '=' !in v4
    requires IsStripped(v6) && '/' !in v6 && '=' !in v6
    requires field == v4 + ",ip6=" + v6 && value == "ip=" + field
    ensures ParseIpField(value) == Some(field)
  {
    DualStackField(v4, v6);
    ParseIpFieldWhole(value, field);
  }

  /** A value that is `ip=` and then a field free of `/` and of `ip=` reads
      as that field, stripped. */
  lemma ParseIpFieldWhole(value: string, field: string)
    requires value == "ip=" + field
    requires '/' !in field && !Contains(field, "ip=")
    ensures ParseIpField(value) == if IsBlank(field) then None else Some(Strip(field))
  {
    NoEqualsNoMarker("");
    assert "" + "ip=" + field + "" == value;
    ParseIpFieldPiece("", field, "");
  }

  /** `<v4>,ip6=<v6>` holds no `/` and no `ip=`, and strips to itself. */
  lemma DualStackField(v4: string, v6: string)
    requires v4 != "" && IsStripped(v4) && '/' !in v4 && '=' !in v4
    requires IsStripped(v6) && '/' !in v6 && '=' !in v6
    ensures var field := v4 + ",ip6=" + v6;
      '/' !in field && !Contains(field, "ip=") && !IsBlank(field) && Strip(field) == field
  {
    var field := v4 + ",ip6=" + v6;
    var n := |v4|;
    forall k: nat | k <= |field|
      ensures !OccursAt(field, "ip=", k)
    {
      if k + 3 <= |field| {
        assert field[k..k + 3][1] == field[k + 1] && field[k..k + 3][2] == field[k + 2];
        if k + 2 < n {
          assert field[k + 2] == v4[k + 2];
        } else if k + 2 >= n + 5 {
          assert field[k + 2] == v6[k + 2 - n - 5];
        } else if k + 2 == n + 4 {
          assert field[k + 1] == '6';
        }
      }
    }
    forall i | 0 <= i < |field|
      ensures field[i] != '/'
    {
      if i < n {
        assert field[i] == v4[i];
      } else if i >= n + 5 {
        assert field[i] == v6[i - n - 5];
      }
    }
    assert field[0] == v4[0];
    assert field[|field| - 1] == if v6 == "" then '=' else v6[|v6| - 1];
    PlainWord(field);
  }

  /** A second `ip=` ends the address, and a comma before it is kept:
      `ip=<address>,ip=<anything>` (as in `ip=1.1.1.1,ip=2.2.2.2/24`) reads
      as `<address>,`. */
  lemma ParseIpFieldCutsAtSecondMarker(address: string, rest: string)
    requires address != "" && IsStripped(address) && '/' !in address && '=' !in address
    ensures ParseIpField("ip=" + address + ",ip=" + rest) == Some(address + ",")
  {
    var field := address + ",";
    var suffix := "ip=" + rest;
    CommaField(address);
    NoEqualsNoMarker("");
    assert StartsWith(suffix, "ip=") by {
      assert suffix[..3] == "ip=";
    }
    assert "" + "ip=" + field + suffix == "ip=" + address + ",ip=" + rest;
    ParseIpFieldPiece("", field, suffix);
  }

  /** `<address>,` holds no `/` and no `ip=`, and strips to itself. */
  lemma CommaField(address: string)
    requires address != "" && IsStripped(address) && '/' !in address && '=' !in address
    ensures var field := address + ",";
      '/' !in field && !Contains(field, "ip=") && !IsBlank(field) && Strip(field) == field
  {
    var field := address + ",";
    forall i | 0 <= i < |field|
      ensures field[i] != '/' && field[i] != '='
    {
      if i < |address| {
        assert field[i] == address[i];
      }
    }
    NoEqualsNoMarker(field);
    assert field[0] == address[0];
    PlainWord(field);
  }

  /** Non-empty text with no blank at either end is not blank and strips to
      itself. */
  lemma PlainWord(w: string)
    requires w != [] && IsStripped(w)
    ensures !IsBlank(w) && Strip(w) == w
  {
    StripPadded("", w, "");
    assert "" + w + "" == w;
  }

  /** Blank padding around an address adds no `/`, no `=`, and leaves the
      padded text non-blank. */
  lemma PaddedAddress(lead: string, address: string, trail: string)
    requires IsBlank(lead) && IsBlank(trail)
    requires address != "" && IsStripped(address) && '/' !in address && '=' !in address
    ensures '/' !in lead + address + trail && '=' !in lead + address + trail
    ensures !IsBlank(lead + address + trail)
  {
    var field := lead + address + trail;
    forall i | 0 <= i < |field|
      ensures field[i] != '/' && field[i] != '='
    {
      if i < |lead| {
        assert field[i] == lead[i];
      } else if i < |lead| + |address| {
        assert field[i] == address[i - |lead|];
      } else {
        assert field[i] == trail[i - |lead| - |address|];
      }
    }
    assert field[|lead|] == address[0];
  }

  /** `address` survives being written as `ip=<address>` after any text free
      of `ip=`, with blank padding around it, followed by nothing, by a
      `/prefix` and further options, or by a second `ip=`. */
  lemma ParseIpFieldRoundTrip(prefix: string, lead: string, address: string, trail: string, suffix: string)
    requires !Contains(prefix, "ip=")
    requires IsBlank(lead) && IsBlank(trail)
    requires address != "" && IsStripped(address) && '/' !in address && '=' !in address
    requires suffix == "" || suffix[0] == '/' || StartsWith(suffix, "ip=")
    ensures ParseIpField(prefix + "ip=" + (lead + address + trail) + suffix) == Some(address)
  {
    var field := lead + address + trail;
    PaddedAddress(lead, address, trail);
    NoEqualsNoMarker(field);
    StripPadded(lead, address, trail);
    ParseIpFieldPiece(prefix, field, suffix);
  }

  /** Keys the configuration scan looks at. */
  predicate NetworkKey(key: string) {
    StartsWith(key, "net") || StartsWith(key, "ipconfig")
  }

  /** What the scan takes from one entry: a string value under a network key
      holding both `/` and `ip=`, parsed as above. */
  function EntryIp(entry: (string, Value)): Option<string> {
    if NetworkKey(entry.0) && entry.1.Str? && '/' in entry.1.s then ParseIpField(entry.1.s) else None
  }

  /** The position, among the marked ones from index `from` on, of the least
      key. */
  function LeastMarked(keys: seq<string>, marked: seq<bool>, from: nat): (r: Option<nat>)
    requires |marked| == |keys|
    decreases |keys| - from
    ensures r.Some? ==> from <= r.value < |keys| && marked[r.value]
    ensures r.Some? ==> forall k | from <= k < |keys| && marked[k] :: LexLe(keys[r.value], keys[k])
    ensures r.None? ==> forall k | from <= k < |keys| :: !marked[k]
  {
    if from >= |keys| then None
    else
      var rest := LeastMarked(keys, marked, from + 1);
      if !marked[from] then rest
      else if rest.None? then
        LexLeTotal(keys[from], keys[from]);
        Some(from)
      else
        var a := keys[from];
        var b := keys[rest.value];
        LexLeTotal(a, b);
        LexLeTotal(a, a);
        if LexLe(a, b) then
          assert forall k | from < k < |keys| && marked[k] :: LexLe(a, keys[k]) by {
            forall k | from < k < |keys| && marked[k]
              ensures LexLe(a, keys[k])
            {
              LexLeTransitive(a, b, keys[k]);
            }
          }
          Some(from)
        else
          Some(rest.value)
  }

  /** The entry, among those from index `from` on that yield an address, with
      the least key: the one `for key in sorted(config.keys())` meets first. */
  function LeastNetworkEntry(config: Config, from: nat): (r: Option<nat>)
    ensures r.Some? ==> from <= r.value < |config| && EntryIp(config[r.value]).Some?
    ensures r.Some? ==> forall k | from <= k < |config| && EntryIp(config[k]).Some? :: LexLe(config[r.value].0, config[k].0)
    ensures r.None? ==> forall k | from <= k < |config| :: EntryIp(config[k]).None?
  {
    var keys := seq(|config|, k requires 0 <= k < |config| => config[k].0);
    var marked := seq(|config|, k requires 0 <= k < |config| => EntryIp(config[k]).Some?);
    assert forall k | 0 <= k < |config| :: keys[k] == config[k].0 && (marked[k] <==> EntryIp(config[k]).Some?);
    LeastMarked(keys, marked, from)
  }

  /** The configuration branch of `get_vm_ip_address`: the `ipconfig0` value
      when it yields an address, otherwise the address of the least network
      key that yields one, otherwise "". A number under `ipconfig0` makes the
      script's `'ip=' in` test raise, and its handler returns "". */
  function ConfigIp(config: Config): (r: string)
    ensures r != "" ==> IsStripped(r) && '/' !in r
    ensures Get(config, "ipconfig0").Some? && Get(config, "ipconfig0").value.Num? ==> r == ""
    ensures Get(config, "ipconfig0").Some? && Get(config, "ipconfig0").value.Str?
      && ParseIpField(Get(config, "ipconfig0").value.s).Some?
      ==> r == ParseIpField(Get(config, "ipconfig0").value.s).value
    ensures (Get(config, "ipconfig0").None?
      || (Get(config, "ipconfig0").value.Str? && ParseIpField(Get(config, "ipconfig0").value.s).None?))
      ==> (r == "" <==> forall k | 0 <= k < |config| :: EntryIp(config[k]).None?)
    ensures (Get(config, "ipconfig0").None?
      || (Get(config, "ipconfig0").value.Str? && ParseIpField(Get(config, "ipconfig0").value.s).None?))
      && r != ""
      ==> exists k | 0 <= k < |config| && EntryIp(config[k]) == Some(r)
        :: forall k' | 0 <= k' < |config| && EntryIp(config[k']).Some? :: LexLe(config[k].0, config[k'].0)
  {
    var scanned := match LeastNetworkEntry(config, 0)
      case Some(k) => EntryIp(config[k]).value
      case None => "";
    var ipconfig0: Option<Value> := Get(config, "ipconfig0");
    match ipconfig0
    case Some(Num(_)) => ""
    case Some(Str(v)) => if ParseIpField(v).Some? then ParseIpField(v).value else scanned
    case None => scanned
  }

  /** `get_vm_ip_address` once the API replies are inputs: `agentNet` is the
      agent's interface list, None when the agent call failed or answered
      something other than a list. A running QEMU guest with `agent` set to 1
      takes the agent's first acceptable address; every other case, and an
      agent with no acceptable address, falls back to the configuration. */
  function VmIp(kind: GuestKind, running: bool, config: Config, agentNet: Option<seq<AgentInterface>>): (r: string)
    ensures kind == Qemu && running && AgentEnabled(config) && agentNet.Some?
      && !NoneAcceptableBefore(agentNet.value, |agentNet.value|, 0)
      ==> exists i, j | Acceptable(agentNet.value, i, j)
        :: NoneAcceptableBefore(agentNet.value, i, j) && agentNet.value[i].addresses[j].address == r
    ensures !(kind == Qemu && running && AgentEnabled(config) && agentNet.Some?) ==> r == ConfigIp(config)
    ensures agentNet.Some? && NoneAcceptableBefore(agentNet.value, |agentNet.value|, 0) ==> r == ConfigIp(config)
  {
    var fromAgent := if kind == Qemu && running && AgentEnabled(config) && agentNet.Some?
      then AgentIp(agentNet.value) else None;
    match fromAgent
    case Some(ip) => ip
    case None => ConfigIp(config)
  }
}
