/** `main`: the settings resolved from Rundeck's environment variables and
    the command-line arguments, the checks on them, and the run that fetches
    the records, applies the default username and picks the output format.
    The environment and the parsed arguments are inputs; so is the cluster
    the API shows. */
module Settings {
  import opened Results
  import opened Text
  import opened Dicts
  import opened NodeRecords
  import opened Fetch
  import opened XmlOutput

  /** The `RD_CONFIG_*` variables, None when unset. `port` is the value of
      `RD_CONFIG_PROXMOX_PORT` when it is set to a non-empty string, as
      `int()` reads it. */
  datatype Environment = Environment(
    host: Option<string>,
    user: Option<string>,
    passwordStoragePath: Option<string>,
    password: Option<string>,
    port: Option<int>,
    defaultUsername: Option<string>,
    outputFormat: Option<string>,
    verifySsl: Option<string>,
    includeVms: Option<string>,
    includeContainers: Option<string>)

  /** The parsed command line; options not given are None, or hold the
      parser's default (`8006`, `"false"`, `"true"`, `"root"`, `"yaml"`). */
  datatype Arguments = Arguments(
    host: Option<string>,
    user: Option<string>,
    password: Option<string>,
    passwordStoragePath: Option<string>,
    port: int,
    verifySsl: bool,
    verifySslFlag: string,
    includeVmsFlag: string,
    includeContainersFlag: string,
    noVms: bool,
    noContainers: bool,
    includeVms: bool,
    includeContainers: bool,
    defaultUsername: string,
    outputFormat: string)

  /** What `main` has decided before it connects. */
  datatype Settings = Settings(
    host: string,
    user: string,
    password: string,
    port: int,
    verifySsl: bool,
    includeVms: bool,
    includeContainers: bool,
    defaultUsername: string,
    outputFormat: string)

  /** The three settings whose absence ends the run before any connection. */
  datatype ConfigError = MissingHost | MissingUser | MissingPassword

  /** The port used when neither the environment nor the command line gives
      one. */
  const DefaultPort := 8006

  /** A string that is set and non-empty, as Python's truthiness sees it. */
  predicate Given(s: Option<string>) {
    s.Some? && s.value != ""
  }

  /** Python's `a or b or …` over strings, an unset one read as empty: the
      first non-empty option, or empty when there is none. */
  function FirstNonEmpty(options: seq<string>): (r: string)
    ensures r == "" <==> forall k | 0 <= k < |options| :: options[k] == ""
    ensures r != "" ==> exists k | 0 <= k < |options| :: options[k] == r && forall m | 0 <= m < k :: options[m] == ""
  {
    if |options| == 0 then ""
    else if options[0] != "" then options[0]
    else
      var rest := FirstNonEmpty(options[1..]);
      assert forall k | 1 <= k < |options| :: options[k] == options[1..][k - 1];
      if rest != "" then
        var k :| 0 <= k < |options[1..]| && options[1..][k] == rest && forall m | 0 <= m < k :: options[1..][m] == "";
        assert options[k + 1] == rest;
        rest
      else rest
  }

  /** The first option of a chain decides it when it is non-empty. */
  lemma FirstNonEmptyCons(head: string, tail: seq<string>)
    ensures FirstNonEmpty([head] + tail) == if head != "" then head else FirstNonEmpty(tail)
  {
    assert ([head] + tail)[1..] == tail;
  }

  /** `a or b` on two optional strings. */
  function Either(a: Option<string>, b: Option<string>): (r: Option<string>)
    ensures Given(r) <==> Given(a) || Given(b)
    ensures Given(a) ==> r == a
    ensures !Given(a) && Given(b) ==> r == b
  {
    if Given(a) then a else b
  }

  /** `a or b` is the first non-empty of the two. */
  lemma EitherChain(a: Option<string>, b: Option<string>)
    ensures Given(Either(a, b)) ==> Either(a, b).value == FirstNonEmpty([a.GetOr(""), b.GetOr("")])
  {
    FirstNonEmptyCons(a.GetOr(""), [b.GetOr("")]);
    FirstNonEmptyCons(b.GetOr(""), []);
  }

  /** `arg.strip() if arg else ''`. */
  function StrippedArgument(arg: Option<string>): string {
    if Given(arg) then Strip(arg.value) else ""
  }

  /** The password: the storage-path variable, the password variable, the
      stripped storage-path argument, the stripped password argument, the
      first of them that is non-empty. */
  function PasswordOf(env: Environment, args: Arguments): (r: string)
    ensures r != "" <==> (Given(env.passwordStoragePath) || Given(env.password)
      || !IsBlank(args.passwordStoragePath.GetOr("")) || !IsBlank(args.password.GetOr("")))
    ensures Given(env.passwordStoragePath) ==> r == env.passwordStoragePath.value
    ensures !Given(env.passwordStoragePath) && Given(env.password) ==> r == env.password.value
    ensures !Given(env.passwordStoragePath) && !Given(env.password) && !IsBlank(args.passwordStoragePath.GetOr(""))
      ==> r == Strip(args.passwordStoragePath.value)
    ensures !Given(env.passwordStoragePath) && !Given(env.password) && IsBlank(args.passwordStoragePath.GetOr(""))
      ==> r == Strip(args.password.GetOr(""))
  {
    if Given(env.passwordStoragePath) then env.passwordStoragePath.value
    else if Given(env.password) then env.password.value
    else
      var fromPath := StrippedArgument(args.passwordStoragePath);
      if fromPath != "" then fromPath else StrippedArgument(args.password)
  }

  /** The password is the first non-empty of the four sources, in the order
      `main` lists them. */
  lemma PasswordChain(env: Environment, args: Arguments)
    ensures PasswordOf(env, args) == FirstNonEmpty([env.passwordStoragePath.GetOr(""), env.password.GetOr(""),
      StrippedArgument(args.passwordStoragePath), StrippedArgument(args.password)])
  {
    var last := [StrippedArgument(args.password)];
    var two := [StrippedArgument(args.passwordStoragePath)] + last;
    var three := [env.password.GetOr("")] + two;
    FirstNonEmptyCons(env.passwordStoragePath.GetOr(""), three);
    FirstNonEmptyCons(env.password.GetOr(""), two);
    FirstNonEmptyCons(StrippedArgument(args.passwordStoragePath), last);
    FirstNonEmptyCons(StrippedArgument(args.password), []);
    assert [env.passwordStoragePath.GetOr(""), env.password.GetOr(""),
      StrippedArgument(args.passwordStoragePath), StrippedArgument(args.password)]
      == [env.passwordStoragePath.GetOr("")] + three;
  }

  /** A Rundeck boolean flag: no answer when blank, otherwise whether its
      lower-cased text is `true`, `1` or `yes`. The text is not stripped
      before the comparison. */
  function FlagValue(flag: string): (r: Option<bool>)
    ensures r.None? <==> IsBlank(flag)
    ensures r == Some(true) <==> Lower(flag) in {"true", "1", "yes"}
  {
    if IsBlank(flag) then
      BlankFlagNotTrue(flag);
      None
    else Some(Lower(flag) in {"true", "1", "yes"})
  }

  lemma BlankFlagNotTrue(flag: string)
    requires IsBlank(flag)
    ensures Lower(flag) !in {"true", "1", "yes"}
  {
    if |flag| > 0 {
      LowerKeepsSpace(flag[0]);
      assert IsSpace(Lower(flag)[0]);
    }
  }

  /** A flag's answer does not depend on the case of its letters. */
  lemma FlagIgnoresCase(a: string, b: string)
    requires Lower(a) == Lower(b)
    ensures FlagValue(a) == FlagValue(b)
  {
    assert |a| == |Lower(a)| == |b|;
    forall i | 0 <= i < |a|
      ensures IsSpace(a[i]) <==> IsSpace(b[i])
    {
      LowerKeepsSpace(a[i]);
      LowerKeepsSpace(b[i]);
      assert Lower(a)[i] == Lower(b)[i];
    }
  }

  lemma LowerKeepsSpace(c: char)
    ensures IsSpace(LowerChar(c)) <==> IsSpace(c)
  {
  }

  /** A flag with a blank in front of its word is never read as true. */
  lemma PaddedFlagIsFalse(c: char, word: string)
    requires IsSpace(c)
    ensures FlagValue([c] + word) != Some(true)
  {
    var flag := [c] + word;
    assert flag[0] == c;
    LowerKeepsSpace(c);
    assert IsSpace(Lower(flag)[0]);
  }

  /** Nor is a flag with a blank after its word. */
  lemma TrailingPaddedFlagIsFalse(word: string, c: char)
    requires IsSpace(c)
    ensures FlagValue(word + [c]) != Some(true)
  {
    var flag := word + [c];
    assert flag[|flag| - 1] == c;
    LowerKeepsSpace(c);
    assert IsSpace(Lower(flag)[|flag| - 1]);
  }

  /** Whether a guest type is included: its `--no-*` switch excludes it,
      its `--include-*` switch includes it, and otherwise the Rundeck flag
      decides, including it when blank. */
  function KindIncluded(excluded: bool, wanted: bool, flag: string): (r: bool)
    ensures excluded ==> !r
    ensures !excluded && wanted ==> r
    ensures !excluded && !wanted ==> (r <==> FlagValue(flag) != Some(false))
  {
    if excluded then false
    else if wanted then true
    else FlagValue(flag).GetOr(true)
  }

  /** `--verify-ssl`, or else the Rundeck flag, off when blank. */
  function VerifySsl(switch: bool, flag: string): (r: bool)
    ensures r <==> switch || FlagValue(flag) == Some(true)
  {
    switch || FlagValue(flag).GetOr(false)
  }

  /** `int(env or arg or 8006)`. */
  function PortOf(env: Option<int>, arg: int): (r: int)
    ensures env.Some? ==> r == env.value
    ensures env.None? && arg != 0 ==> r == arg
    ensures env.None? && arg == 0 ==> r == DefaultPort
  {
    match env
    case Some(p) => p
    case None => if arg != 0 then arg else DefaultPort
  }

  /** The settings `main` resolves, or the first missing one in the order
      host, user, password. */
  function Resolve(env: Environment, args: Arguments): (r: Result<Settings, ConfigError>)
    ensures r == Err(MissingHost) <==> !Given(env.host) && !Given(args.host)
    ensures r == Err(MissingUser) <==> (Given(env.host) || Given(args.host)) && !Given(env.user) && !Given(args.user)
    ensures r.Err? <==> !Given(Either(env.host, args.host)) || !Given(Either(env.user, args.user)) || PasswordOf(env, args) == ""
    ensures r.Ok? && Given(env.host) ==> r.value.host == env.host.value
    ensures r.Ok? && Given(env.user) ==> r.value.user == env.user.value
    ensures r.Ok? ==> r.value.host == FirstNonEmpty([env.host.GetOr(""), args.host.GetOr("")])
    ensures r.Ok? ==> r.value.user == FirstNonEmpty([env.user.GetOr(""), args.user.GetOr("")])
    ensures r.Ok? ==> r.value.password == PasswordOf(env, args)
    ensures r.Ok? ==> r.value.host != "" && r.value.user != "" && r.value.password != ""
    ensures r.Ok? ==> r.value.defaultUsername != "" && r.value.outputFormat != ""
    ensures r.Ok? && args.noVms ==> !r.value.includeVms
    ensures r.Ok? && args.noContainers ==> !r.value.includeContainers
    ensures r.Ok? && args.verifySsl ==> r.value.verifySsl
    ensures r.Ok? ==> r.value.port == PortOf(env.port, args.port)
    ensures r.Ok? ==> r.value.includeVms == KindIncluded(args.noVms, args.includeVms, env.includeVms.GetOr(args.includeVmsFlag))
    ensures r.Ok? ==>
      r.value.includeContainers == KindIncluded(args.noContainers, args.includeContainers, env.includeContainers.GetOr(args.includeContainersFlag))
    ensures r.Ok? ==> r.value.verifySsl == VerifySsl(args.verifySsl, env.verifySsl.GetOr(args.verifySslFlag))
    ensures r.Ok? ==>
      r.value.defaultUsername == if Given(env.defaultUsername) then env.defaultUsername.value else if args.defaultUsername != "" then args.defaultUsername else "root"
    ensures r.Ok? ==>
      r.value.outputFormat == if Given(env.outputFormat) then env.outputFormat.value else if args.outputFormat != "" then args.outputFormat else "yaml"
  {
    var host := Either(env.host, args.host);
    var user := Either(env.user, args.user);
    EitherChain(env.host, args.host);
    EitherChain(env.user, args.user);
    var password := PasswordOf(env, args);
    if !Given(host) then Err(MissingHost)
    else if !Given(user) then Err(MissingUser)
    else if password == "" then Err(MissingPassword)
    else
      Ok(Settings(
        host.value, user.value, password,
        PortOf(env.port, args.port),
        VerifySsl(args.verifySsl, env.verifySsl.GetOr(args.verifySslFlag)),
        KindIncluded(args.noVms, args.includeVms, env.includeVms.GetOr(args.includeVmsFlag)),
        KindIncluded(args.noContainers, args.includeContainers, env.includeContainers.GetOr(args.includeContainersFlag)),
        Either(env.defaultUsername, Either(Some(args.defaultUsername), Some("root"))).value,
        Either(env.outputFormat, Either(Some(args.outputFormat), Some("yaml"))).value))
  }

  /** The output formats; anything unrecognised falls back to JSON. */
  datatype Format = Json | Yaml | Xml

  function FormatOf(name: string): (r: Format)
    ensures r == Yaml <==> name == "yaml"
    ensures r == Xml <==> name == "xml"
  {
    if name == "yaml" then Yaml
    else if name == "xml" then Xml
    else Json
  }

  /** What is printed, before serialisation: the node dictionaries for JSON
      and YAML, the `<node>` elements for XML. */
  datatype Output = AsJson(nodes: seq<Dict<string>>) | AsYaml(nodes: seq<Dict<string>>) | AsXml(elements: seq<NodeElement>)

  /** `node['username'] = default_username` on every record, done only when
      the default is not `root`. */
  function ApplyUsername(records: seq<NodeRecord>, username: string): (r: seq<NodeRecord>)
    ensures |r| == |records|
    ensures forall i | 0 <= i < |r| :: r[i] == if username != "root" then records[i].(username := username) else records[i]
  {
    if username != "root" then seq(|records|, i requires 0 <= i < |records| => records[i].(username := username))
    else records
  }

  /** Setting the username on a record updates its dictionary in place. */
  lemma UsernameOverride(n: NodeRecord, username: string)
    ensures Flatten(n.(username := username)) == Put(Flatten(n), "username", username)
  {
    var flat := Flatten(n);
    assert flat[2].0 == "username";
    assert flat[0].0 != "username" && flat[1].0 != "username" by {
      assert "hostname"[0] != "username"[0];
    }
    assert IndexOf(flat, "username") == Some(2);
    assert Flatten(n.(username := username)) == flat[2 := ("username", username)];
  }

  /** The printed structure for the chosen format. */
  function Publish(s: Settings, records: seq<NodeRecord>): (r: Output)
    ensures FormatOf(s.outputFormat) == Xml <==> r.AsXml?
    ensures FormatOf(s.outputFormat) == Yaml <==> r.AsYaml?
    ensures r.AsYaml? <==> s.outputFormat == "yaml"
    ensures r.AsXml? <==> s.outputFormat == "xml"
    ensures r.AsJson? <==> s.outputFormat != "yaml" && s.outputFormat != "xml"
    ensures r.AsXml? ==> |r.elements| == |records|
    ensures !r.AsXml? ==> |r.nodes| == |records|
    ensures forall i | 0 <= i < |records| ::
      var node := Flatten(if s.defaultUsername != "root" then records[i].(username := s.defaultUsername) else records[i]);
      if r.AsXml? then r.elements[i].attributes == StandardAttributes(node) && r.elements[i].children == Children(node)
      else r.nodes[i] == node
  {
    var named := ApplyUsername(records, s.defaultUsername);
    var nodes := seq(|named|, i requires 0 <= i < |named| => Flatten(named[i]));
    match FormatOf(s.outputFormat)
    case Json => AsJson(nodes)
    case Yaml => AsYaml(nodes)
    case Xml => AsXml(OutputXml(nodes))
  }

  /** Every published node carries the resolved default username, whatever
      the format, when the records came with the user `root`. */
  lemma PublishedUsername(s: Settings, records: seq<NodeRecord>, i: nat)
    requires forall j | 0 <= j < |records| :: records[j].username == "root"
    requires i < |records|
    ensures var out := Publish(s, records);
      if out.AsXml? then Field(out.elements[i], "username") == Some(s.defaultUsername)
      else Get(out.nodes[i], "username") == Some(s.defaultUsername)
  {
    var out := Publish(s, records);
    var named := if s.defaultUsername != "root" then records[i].(username := s.defaultUsername) else records[i];
    var node := Flatten(named);
    assert named.username == s.defaultUsername;
    BaseFieldFound(named, 2);
    assert Get(node, "username") == Some(s.defaultUsername);
    if out.AsXml? {
      assert out.elements[i] == Element(node);
      FieldRoundTrip(node, "username");
    }
  }

  /** Why a run ends with exit status 1. */
  datatype RunError = BadConfig(config: ConfigError) | FetchFailed(failure: Failure)

  /** `main` from the resolved settings to the printed structure. A missing
      setting ends the run before the cluster is read. */
  function Run(env: Environment, args: Arguments, cluster: Option<seq<ClusterNode>>): (r: Result<Output, RunError>)
    ensures Resolve(env, args).Err? ==> r == Err(BadConfig(Resolve(env, args).error))
    ensures Resolve(env, args).Ok? && cluster.None? ==> r == Err(FetchFailed(ClusterUnavailable))
    ensures r.Ok? ==> (Resolve(env, args).Ok?
      && FetchNodes(cluster, Resolve(env, args).value.includeVms, Resolve(env, args).value.includeContainers).Ok?)
    ensures Resolve(env, args).Ok? ==>
      var s := Resolve(env, args).value;
      var fetched := FetchNodes(cluster, s.includeVms, s.includeContainers);
      r == if fetched.Ok? then Ok(Publish(s, fetched.value)) else Err(FetchFailed(fetched.error))
  {
    var s :- match Resolve(env, args)
      case Err(e) => Err(BadConfig(e))
      case Ok(s) => Ok(s);
    var records :- match FetchNodes(cluster, s.includeVms, s.includeContainers)
      case Err(f) => Err(FetchFailed(f))
      case Ok(records) => Ok(records);
    Ok(Publish(s, records))
  }

  /** After a successful run every printed node has the default username
      the settings name. */
  lemma RunUsername(env: Environment, args: Arguments, cluster: Option<seq<ClusterNode>>, i: nat)
    requires Run(env, args, cluster).Ok?
    requires var out := Run(env, args, cluster).value; i < if out.AsXml? then |out.elements| else |out.nodes|
    ensures var out := Run(env, args, cluster).value;
      var username := Resolve(env, args).value.defaultUsername;
      if out.AsXml? then Field(out.elements[i], "username") == Some(username)
      else Get(out.nodes[i], "username") == Some(username)
  {
    var s := Resolve(env, args).value;
    var records := FetchNodes(cluster, s.includeVms, s.includeContainers).value;
    assert Run(env, args, cluster).value == Publish(s, records);
    forall j | 0 <= j < |records|
      ensures records[j].username == "root"
    {
      FetchedKinds(cluster, s.includeVms, s.includeContainers, j);
    }
    PublishedUsername(s, records, i);
  }
}
