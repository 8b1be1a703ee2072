/** The walk over the cluster in `fetch_proxmox_nodes`: for every cluster
    node, its virtual machines and then its containers, each turned into a
    record. The API answers are inputs: a listing the API refused is skipped
    with a message, any other failure ends the run.

    The walk is written for any record builder, so that its proofs do not
    depend on how one record is made; `FetchNodes` instantiates it with
    `BuildRecord`. */
module Fetch {
  import opened Results
  import opened Values
  import opened NodeRecords

  /** What a `qemu.get()` or `lxc.get()` call on one node gave: the guests
      with everything fetched about each, a `ResourceException` (reported,
      then skipped), or any other exception (fatal). */
  datatype Listing = Listed(guests: seq<(Guest, Probe)>) | Refused | Broken

  /** One entry of `nodes.get()` with its two listings. */
  datatype ClusterNode = ClusterNode(name: string, vms: Listing, containers: Listing)

  /** Why the run ended with exit status 1. */
  datatype Failure =
    | ClusterUnavailable
    | ListingFailed(node: string, kind: GuestKind)
    | GuestFailed(node: string, vmid: int, fault: Fault)

  /** Makes the record of one guest of a node. */
  type Builder = (GuestKind, string, Guest, Probe) -> Result<NodeRecord, Fault>

  /** A builder whose records name the node and guest type they were made
      for, with `root` as their user. */
  ghost predicate Labelled(build: Builder) {
    forall kind: GuestKind, node: string, guest: Guest, probe: Probe | build(kind, node, guest, probe).Ok? ::
      build(kind, node, guest, probe).value.proxmoxNode == node
      && build(kind, node, guest, probe).value.proxmoxType == TypeName(kind)
      && build(kind, node, guest, probe).value.username == "root"
  }

  /** A record of a guest type the run includes. */
  predicate KindAllowed(record: NodeRecord, includeVms: bool, includeContainers: bool) {
    (record.proxmoxType == "qemu" && includeVms) || (record.proxmoxType == "lxc" && includeContainers)
  }

  /** The number of guests a listing names. */
  function Size(listing: Listing): nat {
    if listing.Listed? then |listing.guests| else 0
  }

  /** A listing that ends the run: a non-refusal failure, or a guest whose
      record cannot be built. */
  predicate ListingFails(build: Builder, kind: GuestKind, node: string, listing: Listing) {
    match listing
    case Refused => false
    case Broken => true
    case Listed(guests) => exists i | 0 <= i < |guests| :: build(kind, node, guests[i].0, guests[i].1).Err?
  }

  /** A cluster node whose included listings end the run. */
  predicate NodeFails(build: Builder, n: ClusterNode, includeVms: bool, includeContainers: bool) {
    (includeVms && ListingFails(build, Qemu, n.name, n.vms))
    || (includeContainers && ListingFails(build, Lxc, n.name, n.containers))
  }

  /** How many records a cluster node contributes when nothing fails. */
  function Included(n: ClusterNode, includeVms: bool, includeContainers: bool): nat {
    (if includeVms then Size(n.vms) else 0) + (if includeContainers then Size(n.containers) else 0)
  }

  /** How many records the cluster contributes when nothing fails. */
  function Expected(nodes: seq<ClusterNode>, includeVms: bool, includeContainers: bool): nat
    decreases |nodes|
  {
    if |nodes| == 0 then 0 else Included(nodes[0], includeVms, includeContainers) + Expected(nodes[1..], includeVms, includeContainers)
  }

  /** The records of one listing's guests, in listing order; the first guest
      whose record fails ends the run and is the one reported. */
  function GuestRecords(build: Builder, kind: GuestKind, node: string, guests: seq<(Guest, Probe)>)
    : (r: Result<seq<NodeRecord>, Failure>)
    decreases |guests|
    ensures r.Ok? <==> forall i | 0 <= i < |guests| :: build(kind, node, guests[i].0, guests[i].1).Ok?
    ensures r.Ok? ==> |r.value| == |guests|
    ensures r.Ok? ==> forall i | 0 <= i < |guests| :: r.value[i] == build(kind, node, guests[i].0, guests[i].1).value
  {
    if |guests| == 0 then Ok([])
    else
      match build(kind, node, guests[0].0, guests[0].1)
      case Err(fault) => Err(GuestFailed(node, guests[0].0.vmid, fault))
      case Ok(record) =>
        var rest :- GuestRecords(build, kind, node, guests[1..]);
        assert forall i | 1 <= i < |guests| :: guests[i] == guests[1..][i - 1] && ([record] + rest)[i] == rest[i - 1];
        Ok([record] + rest)
  }

  /** The guest at `i` is the first of the listing whose record fails. */
  predicate FailsFirstAt(build: Builder, kind: GuestKind, node: string, guests: seq<(Guest, Probe)>, i: int) {
    && 0 <= i < |guests|
    && (forall j | 0 <= j < i :: build(kind, node, guests[j].0, guests[j].1).Ok?)
    && build(kind, node, guests[i].0, guests[i].1).Err?
  }

  /** A failed listing reports the first guest whose record failed, with
      that guest's fault. */
  lemma {:induction false} FirstFailureReported(build: Builder, kind: GuestKind, node: string, guests: seq<(Guest, Probe)>)
    requires GuestRecords(build, kind, node, guests).Err?
    ensures exists i | FailsFirstAt(build, kind, node, guests, i) ::
      GuestRecords(build, kind, node, guests).error
        == GuestFailed(node, guests[i].0.vmid, build(kind, node, guests[i].0, guests[i].1).error)
    decreases |guests|
  {
    var head := build(kind, node, guests[0].0, guests[0].1);
    if head.Ok? {
      var rest := guests[1..];
      assert GuestRecords(build, kind, node, guests).error == GuestRecords(build, kind, node, rest).error;
      FirstFailureReported(build, kind, node, rest);
      var i :| FailsFirstAt(build, kind, node, rest, i)
        && GuestRecords(build, kind, node, rest).error
          == GuestFailed(node, rest[i].0.vmid, build(kind, node, rest[i].0, rest[i].1).error);
      FailsFirstLater(build, kind, node, guests, i);
      assert guests[i + 1] == rest[i];
    } else {
      assert FailsFirstAt(build, kind, node, guests, 0);
      assert GuestRecords(build, kind, node, guests).error == GuestFailed(node, guests[0].0.vmid, head.error);
    }
  }

  /** Behind a guest whose record succeeds, the first failure moves one
      place along. */
  lemma FailsFirstLater(build: Builder, kind: GuestKind, node: string, guests: seq<(Guest, Probe)>, i: int)
    requires |guests| > 0 && build(kind, node, guests[0].0, guests[0].1).Ok?
    requires FailsFirstAt(build, kind, node, guests[1..], i)
    ensures FailsFirstAt(build, kind, node, guests, i + 1)
  {
    assert forall j | 1 <= j <= i + 1 :: guests[j] == guests[1..][j - 1];
  }

  /** The records of one listing. */
  function ListingRecords(build: Builder, kind: GuestKind, node: string, listing: Listing)
    : (r: Result<seq<NodeRecord>, Failure>)
    requires Labelled(build)
    ensures r.Err? <==> ListingFails(build, kind, node, listing)
    ensures r.Ok? ==> |r.value| == Size(listing)
    ensures r.Ok? ==> forall i | 0 <= i < |r.value| :: r.value[i].proxmoxNode == node && r.value[i].proxmoxType == TypeName(kind)
    ensures r.Ok? ==> forall i | 0 <= i < |r.value| :: r.value[i].username == "root"
    ensures r.Ok? && listing.Listed? ==>
      forall i | 0 <= i < |r.value| :: r.value[i] == build(kind, node, listing.guests[i].0, listing.guests[i].1).value
  {
    match listing
    case Refused => Ok([])
    case Broken => Err(ListingFailed(node, kind))
    case Listed(guests) => GuestRecords(build, kind, node, guests)
  }

  /** A record made for `node`, of an included guest type, with `root` as
      its user. */
  predicate Fits(record: NodeRecord, node: string, includeVms: bool, includeContainers: bool) {
    record.proxmoxNode == node && record.username == "root" && KindAllowed(record, includeVms, includeContainers)
  }

  /** The records of one cluster node: its virtual machines, then its
      containers, each only when included. */
  function NodeListing(build: Builder, n: ClusterNode, includeVms: bool, includeContainers: bool)
    : (r: Result<seq<NodeRecord>, Failure>)
    requires Labelled(build)
    ensures r.Err? <==> NodeFails(build, n, includeVms, includeContainers)
    ensures r.Ok? ==> |r.value| == Included(n, includeVms, includeContainers)
    ensures r.Ok? ==> forall i | 0 <= i < |r.value| :: Fits(r.value[i], n.name, includeVms, includeContainers)
  {
    var vms :- if includeVms then ListingRecords(build, Qemu, n.name, n.vms) else Ok([]);
    var containers :- if includeContainers then ListingRecords(build, Lxc, n.name, n.containers) else Ok([]);
    var records := vms + containers;
    assert forall i | 0 <= i < |vms| :: records[i] == vms[i];
    assert forall i | |vms| <= i < |records| :: records[i] == containers[i - |vms|];
    Ok(records)
  }

  /** On each node, the records of the included virtual machines come
      first, then those of the included containers. */
  lemma VmsBeforeContainers(build: Builder, n: ClusterNode, includeVms: bool, includeContainers: bool)
    requires Labelled(build)
    requires NodeListing(build, n, includeVms, includeContainers).Ok?
    ensures var records := NodeListing(build, n, includeVms, includeContainers).value;
      var vmCount := if includeVms then Size(n.vms) else 0;
      vmCount <= |records|
      && (forall i | 0 <= i < vmCount :: records[i].proxmoxType == "qemu")
      && (forall i | vmCount <= i < |records| :: records[i].proxmoxType == "lxc")
  {
    NodeListingParts(build, n, includeVms, includeContainers);
    var vms := if includeVms then ListingRecords(build, Qemu, n.name, n.vms).value else [];
    var containers := if includeContainers then ListingRecords(build, Lxc, n.name, n.containers).value else [];
    KindsInOrder(vms, containers);
  }

  /** Records of virtual machines followed by records of containers keep
      that split. */
  lemma KindsInOrder(vms: seq<NodeRecord>, containers: seq<NodeRecord>)
    requires forall i | 0 <= i < |vms| :: vms[i].proxmoxType == "qemu"
    requires forall i | 0 <= i < |containers| :: containers[i].proxmoxType == "lxc"
    ensures forall i | 0 <= i < |vms| :: (vms + containers)[i].proxmoxType == "qemu"
    ensures forall i | |vms| <= i < |vms + containers| :: (vms + containers)[i].proxmoxType == "lxc"
  {
    var records := vms + containers;
    forall i | |vms| <= i < |records|
      ensures records[i].proxmoxType == "lxc"
    {
      assert records[i] == containers[i - |vms|];
    }
  }

  /** A node's successful listing is its included virtual machines'
      records followed by its included containers' records. */
  lemma NodeListingParts(build: Builder, n: ClusterNode, includeVms: bool, includeContainers: bool)
    requires Labelled(build)
    requires NodeListing(build, n, includeVms, includeContainers).Ok?
    ensures includeVms ==> ListingRecords(build, Qemu, n.name, n.vms).Ok?
    ensures includeContainers ==> ListingRecords(build, Lxc, n.name, n.containers).Ok?
    ensures NodeListing(build, n, includeVms, includeContainers).value
      == (if includeVms then ListingRecords(build, Qemu, n.name, n.vms).value else [])
        + (if includeContainers then ListingRecords(build, Lxc, n.name, n.containers).value else [])
  {
  }

  /** On a node whose listing succeeded, the record at each position is the
      one built for the guest at that position of its listing: the
      virtual machines first, then the containers after them. */
  lemma NodeListingRecords(build: Builder, n: ClusterNode, includeVms: bool, includeContainers: bool)
    requires Labelled(build)
    requires NodeListing(build, n, includeVms, includeContainers).Ok?
    ensures var records := NodeListing(build, n, includeVms, includeContainers).value;
      includeVms && n.vms.Listed? ==>
        forall i | 0 <= i < |n.vms.guests| ::
          i < |records| && build(Qemu, n.name, n.vms.guests[i].0, n.vms.guests[i].1).Ok?
          && records[i] == build(Qemu, n.name, n.vms.guests[i].0, n.vms.guests[i].1).value
    ensures var records := NodeListing(build, n, includeVms, includeContainers).value;
      var offset := if includeVms then Size(n.vms) else 0;
      includeContainers && n.containers.Listed? ==>
        forall j | 0 <= j < |n.containers.guests| ::
          offset + j < |records| && build(Lxc, n.name, n.containers.guests[j].0, n.containers.guests[j].1).Ok?
          && records[offset + j] == build(Lxc, n.name, n.containers.guests[j].0, n.containers.guests[j].1).value
  {
    if includeVms && n.vms.Listed? {
      forall i | 0 <= i < |n.vms.guests|
        ensures var records := NodeListing(build, n, includeVms, includeContainers).value;
          i < |records| && build(Qemu, n.name, n.vms.guests[i].0, n.vms.guests[i].1).Ok?
          && records[i] == build(Qemu, n.name, n.vms.guests[i].0, n.vms.guests[i].1).value
      {
        NodeVmRecord(build, n, includeContainers, i);
      }
    }
    if includeContainers && n.containers.Listed? {
      forall j | 0 <= j < |n.containers.guests|
        ensures var records := NodeListing(build, n, includeVms, includeContainers).value;
          var offset := if includeVms then Size(n.vms) else 0;
          offset + j < |records| && build(Lxc, n.name, n.containers.guests[j].0, n.containers.guests[j].1).Ok?
          && records[offset + j] == build(Lxc, n.name, n.containers.guests[j].0, n.containers.guests[j].1).value
      {
        NodeContainerRecord(build, n, includeVms, j);
      }
    }
  }

  /** The record of VM `i` on a node whose listing succeeded. */
  lemma NodeVmRecord(build: Builder, n: ClusterNode, includeContainers: bool, i: nat)
    requires Labelled(build)
    requires NodeListing(build, n, true, includeContainers).Ok?
    requires n.vms.Listed? && i < |n.vms.guests|
    ensures var records := NodeListing(build, n, true, includeContainers).value;
      i < |records| && build(Qemu, n.name, n.vms.guests[i].0, n.vms.guests[i].1).Ok?
      && records[i] == build(Qemu, n.name, n.vms.guests[i].0, n.vms.guests[i].1).value
  {
    NodeListingParts(build, n, true, includeContainers);
    var vms := ListingRecords(build, Qemu, n.name, n.vms).value;
    var containers := if includeContainers then ListingRecords(build, Lxc, n.name, n.containers).value else [];
    ListedRecord(build, Qemu, n.name, n.vms, i);
    AppendIndexes(vms, containers);
  }

  /** The record of container `j` on a node whose listing succeeded. */
  lemma NodeContainerRecord(build: Builder, n: ClusterNode, includeVms: bool, j: nat)
    requires Labelled(build)
    requires NodeListing(build, n, includeVms, true).Ok?
    requires n.containers.Listed? && j < |n.containers.guests|
    ensures var records := NodeListing(build, n, includeVms, true).value;
      var offset := if includeVms then Size(n.vms) else 0;
      offset + j < |records| && build(Lxc, n.name, n.containers.guests[j].0, n.containers.guests[j].1).Ok?
      && records[offset + j] == build(Lxc, n.name, n.containers.guests[j].0, n.containers.guests[j].1).value
  {
    NodeListingParts(build, n, includeVms, true);
    var vms := if includeVms then ListingRecords(build, Qemu, n.name, n.vms).value else [];
    var containers := ListingRecords(build, Lxc, n.name, n.containers).value;
    ListedRecord(build, Lxc, n.name, n.containers, j);
    AppendIndexes(vms, containers);
  }

  /** Record `i` of a listed node's successful listing is the one built for
      guest `i`. */
  lemma ListedRecord(build: Builder, kind: GuestKind, node: string, listing: Listing, i: nat)
    requires Labelled(build)
    requires ListingRecords(build, kind, node, listing).Ok?
    requires listing.Listed? && i < |listing.guests|
    ensures |ListingRecords(build, kind, node, listing).value| == |listing.guests|
    ensures build(kind, node, listing.guests[i].0, listing.guests[i].1).Ok?
    ensures ListingRecords(build, kind, node, listing).value[i] == build(kind, node, listing.guests[i].0, listing.guests[i].1).value
  {
    assert !ListingFails(build, kind, node, listing);
  }

  /** Positions in `a + b`: those of `a` first, then those of `b`. */
  lemma AppendIndexes<T>(a: seq<T>, b: seq<T>)
    ensures forall i | 0 <= i < |a| :: (a + b)[i] == a[i]
    ensures forall j | 0 <= j < |b| :: (a + b)[|a| + j] == b[j]
  {
  }

  /** The records of every cluster node, node after node. */
  function AllNodes(build: Builder, nodes: seq<ClusterNode>, includeVms: bool, includeContainers: bool)
    : (r: Result<seq<NodeRecord>, Failure>)
    requires Labelled(build)
    decreases |nodes|
    ensures r.Err? <==> exists k | 0 <= k < |nodes| :: NodeFails(build, nodes[k], includeVms, includeContainers)
    ensures r.Ok? ==> |r.value| == Expected(nodes, includeVms, includeContainers)
  {
    if |nodes| == 0 then Ok([])
    else
      var first :- NodeListing(build, nodes[0], includeVms, includeContainers);
      var rest :- AllNodes(build, nodes[1..], includeVms, includeContainers);
      assert forall k | 1 <= k < |nodes| :: nodes[k] == nodes[1..][k - 1];
      Ok(first + rest)
  }

  /** Each record of a successful walk was made for one of the cluster's
      nodes, is of an included guest type and has `root` as its user. */
  lemma {:induction false} WalkedRecord(build: Builder, nodes: seq<ClusterNode>, includeVms: bool, includeContainers: bool, i: nat)
    requires Labelled(build)
    requires AllNodes(build, nodes, includeVms, includeContainers).Ok?
    requires i < |AllNodes(build, nodes, includeVms, includeContainers).value|
    ensures MadeOnSomeNode(AllNodes(build, nodes, includeVms, includeContainers).value[i], nodes, includeVms, includeContainers)
    decreases |nodes|
  {
    var first := NodeListing(build, nodes[0], includeVms, includeContainers).value;
    var rest := AllNodes(build, nodes[1..], includeVms, includeContainers).value;
    var records := AllNodes(build, nodes, includeVms, includeContainers).value;
    assert records == first + rest;
    if i < |first| {
      assert records[i] == first[i];
      assert Fits(records[i], nodes[0].name, includeVms, includeContainers);
    } else {
      assert records[i] == rest[i - |first|];
      WalkedRecord(build, nodes[1..], includeVms, includeContainers, i - |first|);
      var k :| 0 <= k < |nodes[1..]| && Fits(rest[i - |first|], nodes[1..][k].name, includeVms, includeContainers);
      assert nodes[1..][k] == nodes[k + 1];
      assert Fits(records[i], nodes[k + 1].name, includeVms, includeContainers);
    }
  }

  /** `record` fits one of the cluster's nodes. */
  predicate MadeOnSomeNode(record: NodeRecord, nodes: seq<ClusterNode>, includeVms: bool, includeContainers: bool) {
    exists k | 0 <= k < |nodes| :: Fits(record, nodes[k].name, includeVms, includeContainers)
  }

  /** Every guest a node lists in an included listing has its record in the
      output of a walk that succeeds. */
  lemma {:induction false} ListedGuestAppears(build: Builder, nodes: seq<ClusterNode>, includeVms: bool,
                                              includeContainers: bool, k: nat, kind: GuestKind, j: nat)
    requires Labelled(build)
    requires AllNodes(build, nodes, includeVms, includeContainers).Ok?
    requires k < |nodes|
    requires var listing := if kind == Qemu then nodes[k].vms else nodes[k].containers;
      (if kind == Qemu then includeVms else includeContainers) && listing.Listed? && j < |listing.guests|
    ensures var guests := (if kind == Qemu then nodes[k].vms else nodes[k].containers).guests;
      build(kind, nodes[k].name, guests[j].0, guests[j].1).Ok?
      && build(kind, nodes[k].name, guests[j].0, guests[j].1).value in AllNodes(build, nodes, includeVms, includeContainers).value
    decreases k
  {
    var first := NodeListing(build, nodes[0], includeVms, includeContainers).value;
    var rest := AllNodes(build, nodes[1..], includeVms, includeContainers).value;
    assert AllNodes(build, nodes, includeVms, includeContainers).value == first + rest;
    if k == 0 {
      var listing := if kind == Qemu then nodes[0].vms else nodes[0].containers;
      var own := GuestRecords(build, kind, nodes[0].name, listing.guests).value;
      assert own[j] in own;
      var vms := if includeVms then ListingRecords(build, Qemu, nodes[0].name, nodes[0].vms).value else [];
      var containers := if includeContainers then ListingRecords(build, Lxc, nodes[0].name, nodes[0].containers).value else [];
      assert first == vms + containers;
    } else {
      assert nodes[k] == nodes[1..][k - 1];
      ListedGuestAppears(build, nodes[1..], includeVms, includeContainers, k - 1, kind, j);
    }
  }

  /** Walking two runs of nodes one after the other succeeds when both do,
      and gives the records of the first run followed by those of the
      second: the output keeps the cluster's node order. */
  lemma {:induction false} AllNodesAppend(build: Builder, a: seq<ClusterNode>, b: seq<ClusterNode>,
                                          includeVms: bool, includeContainers: bool)
    requires Labelled(build)
    ensures AllNodes(build, a + b, includeVms, includeContainers).Ok?
      <==> AllNodes(build, a, includeVms, includeContainers).Ok? && AllNodes(build, b, includeVms, includeContainers).Ok?
    ensures AllNodes(build, a + b, includeVms, includeContainers).Ok? ==>
      AllNodes(build, a + b, includeVms, includeContainers).value
        == AllNodes(build, a, includeVms, includeContainers).value + AllNodes(build, b, includeVms, includeContainers).value
    decreases |a|
  {
    if |a| == 0 {
      assert a + b == b;
      assert AllNodes(build, a, includeVms, includeContainers) == Ok([]);
    } else {
      DropFirst(a, b);
      AllNodesAppend(build, a[1..], b, includeVms, includeContainers);
      var head := NodeListing(build, a[0], includeVms, includeContainers);
      var tail := AllNodes(build, a[1..], includeVms, includeContainers);
      var joined := AllNodes(build, a[1..] + b, includeVms, includeContainers);
      if head.Ok? && joined.Ok? {
        assert AllNodes(build, a + b, includeVms, includeContainers) == Ok(head.value + joined.value);
        assert AllNodes(build, a, includeVms, includeContainers) == Ok(head.value + tail.value);
        Associative(head.value, tail.value, AllNodes(build, b, includeVms, includeContainers).value);
      }
    }
  }

  /** A single node's walk is its own listing. */
  lemma AllNodesSingle(build: Builder, n: ClusterNode, includeVms: bool, includeContainers: bool)
    requires Labelled(build)
    ensures AllNodes(build, [n], includeVms, includeContainers) == NodeListing(build, n, includeVms, includeContainers)
  {
    var head := NodeListing(build, n, includeVms, includeContainers);
    assert [n][1..] == [];
    if head.Ok? {
      assert head.value + [] == head.value;
    }
  }

  /** Records made by `BuildRecord` name their node and guest type, and
      have `root` as their user. */
  lemma BuildRecordLabelled()
    ensures Labelled(BuildRecord)
  {
    forall kind: GuestKind, node: string, guest: Guest, probe: Probe | BuildRecord(kind, node, guest, probe).Ok?
      ensures BuildRecord(kind, node, guest, probe).value.proxmoxNode == node
      ensures BuildRecord(kind, node, guest, probe).value.proxmoxType == TypeName(kind)
      ensures BuildRecord(kind, node, guest, probe).value.username == "root"
    {
    }
  }

  /** `fetch_proxmox_nodes`: `nodes.get()` failing (None) ends the run; the
      run also ends on the first included listing that fails. */
  function FetchNodes(cluster: Option<seq<ClusterNode>>, includeVms: bool, includeContainers: bool)
    : (r: Result<seq<NodeRecord>, Failure>)
    ensures r.Err? <==> cluster.None? || exists k | 0 <= k < |cluster.value| ::
      NodeFails(BuildRecord, cluster.value[k], includeVms, includeContainers)
    ensures r.Ok? ==> |r.value| == Expected(cluster.value, includeVms, includeContainers)
  {
    BuildRecordLabelled();
    match cluster
    case None => Err(ClusterUnavailable)
    case Some(nodes) => AllNodes(BuildRecord, nodes, includeVms, includeContainers)
  }

  /** The records of a run follow the cluster's node order: those of the
      nodes listed first come first. */
  lemma FetchedInClusterOrder(a: seq<ClusterNode>, b: seq<ClusterNode>, includeVms: bool, includeContainers: bool)
    ensures FetchNodes(Some(a + b), includeVms, includeContainers).Ok?
      <==> FetchNodes(Some(a), includeVms, includeContainers).Ok? && FetchNodes(Some(b), includeVms, includeContainers).Ok?
    ensures FetchNodes(Some(a + b), includeVms, includeContainers).Ok? ==>
      FetchNodes(Some(a + b), includeVms, includeContainers).value
        == FetchNodes(Some(a), includeVms, includeContainers).value + FetchNodes(Some(b), includeVms, includeContainers).value
  {
    BuildRecordLabelled();
    AllNodesAppend(BuildRecord, a, b, includeVms, includeContainers);
  }

  /** A one-node cluster's records are that node's listing. */
  lemma FetchedSingleNode(n: ClusterNode, includeVms: bool, includeContainers: bool)
    ensures Labelled(BuildRecord)
      && FetchNodes(Some([n]), includeVms, includeContainers) == NodeListing(BuildRecord, n, includeVms, includeContainers)
    ensures var r := FetchNodes(Some([n]), includeVms, includeContainers);
      r.Ok? && includeVms && n.vms.Listed? ==>
        forall i | 0 <= i < |n.vms.guests| ::
          i < |r.value| && BuildRecord(Qemu, n.name, n.vms.guests[i].0, n.vms.guests[i].1).Ok?
          && r.value[i] == BuildRecord(Qemu, n.name, n.vms.guests[i].0, n.vms.guests[i].1).value
    ensures var r := FetchNodes(Some([n]), includeVms, includeContainers);
      var offset := if includeVms then Size(n.vms) else 0;
      r.Ok? && includeContainers && n.containers.Listed? ==>
        forall j | 0 <= j < |n.containers.guests| ::
          offset + j < |r.value| && BuildRecord(Lxc, n.name, n.containers.guests[j].0, n.containers.guests[j].1).Ok?
          && r.value[offset + j] == BuildRecord(Lxc, n.name, n.containers.guests[j].0, n.containers.guests[j].1).value
  {
    BuildRecordLabelled();
    AllNodesSingle(BuildRecord, n, includeVms, includeContainers);
    if FetchNodes(Some([n]), includeVms, includeContainers).Ok? {
      NodeListingRecords(BuildRecord, n, includeVms, includeContainers);
    }
  }

  /** Each record of a run is a virtual machine only when virtual machines
      are included, and a container only when containers are. */
  lemma FetchedKinds(cluster: Option<seq<ClusterNode>>, includeVms: bool, includeContainers: bool, i: nat)
    requires FetchNodes(cluster, includeVms, includeContainers).Ok?
    requires i < |FetchNodes(cluster, includeVms, includeContainers).value|
    ensures var t := FetchNodes(cluster, includeVms, includeContainers).value[i].proxmoxType;
      (t == "qemu" && includeVms) || (t == "lxc" && includeContainers)
    ensures FetchNodes(cluster, includeVms, includeContainers).value[i].username == "root"
  {
    BuildRecordLabelled();
    WalkedRecord(BuildRecord, cluster.value, includeVms, includeContainers, i);
  }
}
