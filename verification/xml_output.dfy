/** `output_xml`: one `<node>` element per node dictionary, the standard
    Rundeck fields as XML attributes of the element and every other field
    as an `<attribute name=… value=…/>` child. The elements are modelled as
    a tree; the text ElementTree prints for them is not. */
module XmlOutput {
  import opened Results
  import opened Dicts
  import opened NodeRecords

  /** An `<attribute>` child of a `<node>`. */
  datatype Attribute = Attribute(name: string, value: string)

  /** A `<node>` element: its XML attributes in the order they are set, and
      its children. */
  datatype NodeElement = NodeElement(attributes: Dict<string>, children: seq<Attribute>)

  /** The fields written as XML attributes rather than as children. */
  const StandardFields: set<string> := {"nodename", "hostname", "username", "osFamily", "tags", "description"}

  /** The four attributes always set, empty when the field is missing. */
  function FixedAttributes(node: Dict<string>): Dict<string> {
    [("name", Get(node, "nodename").GetOr("")), ("hostname", Get(node, "hostname").GetOr("")),
     ("username", Get(node, "username").GetOr("")), ("osFamily", Get(node, "osFamily").GetOr(""))]
  }

  /** `description` and then `tags`, each when the node has it. */
  function OptionalAttributes(node: Dict<string>): Dict<string> {
    (if HasKey(node, "description") then [("description", Get(node, "description").value)] else [])
    + (if HasKey(node, "tags") then [("tags", Get(node, "tags").value)] else [])
  }

  function StandardAttributes(node: Dict<string>): Dict<string> {
    FixedAttributes(node) + OptionalAttributes(node)
  }

  /** The children: every non-standard field, in the node's order. */
  function Children(node: Dict<string>): (r: seq<Attribute>)
    decreases |node|
  {
    if |node| == 0 then []
    else
      (if node[0].0 in StandardFields then [] else [Attribute(node[0].0, node[0].1)]) + Children(node[1..])
  }

  function Element(node: Dict<string>): NodeElement {
    NodeElement(StandardAttributes(node), Children(node))
  }

  /** The `<project>` element's children, one per node dictionary. */
  function OutputXml(nodes: seq<Dict<string>>): (r: seq<NodeElement>)
    ensures |r| == |nodes|
    ensures forall i | 0 <= i < |nodes| :: r[i].children == Children(nodes[i])
    ensures forall i | 0 <= i < |nodes| :: r[i].attributes == StandardAttributes(nodes[i])
  {
    seq(|nodes|, i requires 0 <= i < |nodes| => Element(nodes[i]))
  }

  /** The value a `<node>` element gives for a field, read back the way a
      consumer of the resource XML reads it: `nodename` from `name`, the
      other standard fields from the attribute of the same name, anything
      else from the first child that carries the name. */
  function Field(e: NodeElement, key: string): Option<string> {
    if key == "nodename" then Get(e.attributes, "name")
    else if key in StandardFields then Get(e.attributes, key)
    else FirstChild(e.children, key)
  }

  function FirstChild(children: seq<Attribute>, name: string): Option<string>
    decreases |children|
  {
    if |children| == 0 then None
    else if children[0].name == name then Some(children[0].value)
    else FirstChild(children[1..], name)
  }

  /** No child carries a standard field, and every child is a field of the
      node; every non-standard field becomes a child. */
  lemma {:induction false} ChildrenFields(node: Dict<string>)
    ensures forall a | a in Children(node) :: a.name !in StandardFields && (a.name, a.value) in node
    ensures forall i | 0 <= i < |node| && node[i].0 !in StandardFields :: Attribute(node[i].0, node[i].1) in Children(node)
    decreases |node|
  {
    if |node| > 0 {
      ChildrenFields(node[1..]);
      assert forall i | 1 <= i < |node| :: node[i] == node[1..][i - 1];
    }
  }

  /** The children of two dictionaries written one after the other are the
      children of each, in order. */
  lemma {:induction false} ChildrenConcat(a: Dict<string>, b: Dict<string>)
    ensures Children(a + b) == Children(a) + Children(b)
    decreases |a|
  {
    if |a| > 0 {
      assert (a + b)[1..] == a[1..] + b;
      ChildrenConcat(a[1..], b);
    } else {
      assert a + b == b;
    }
  }

  /** A non-standard field reads back from the children exactly as `get`
      finds it in the node. */
  lemma {:induction false} FirstChildFinds(node: Dict<string>, key: string)
    requires key !in StandardFields
    ensures FirstChild(Children(node), key) == Get(node, key)
    decreases |node|
  {
    if |node| > 0 {
      FirstChildFinds(node[1..], key);
      assert node == [node[0]] + node[1..];
      var rest := Children(node[1..]);
      var head := if node[0].0 in StandardFields then [] else [Attribute(node[0].0, node[0].1)];
      assert Children(node) == head + rest;
      if node[0].0 == key {
        GetAt(node, 0, key);
        assert (head + rest)[0] == Attribute(key, node[0].1);
      } else {
        GetConcat([node[0]], node[1..], key);
        if head == [] {
          assert head + rest == rest;
        } else {
          assert (head + rest)[1..] == rest;
        }
      }
    }
  }

  /** The four attribute names are distinct from each other and from the
      optional ones. */
  lemma AttributeNamesDiffer()
    ensures "name" != "hostname" && "name" != "username" && "name" != "osFamily"
    ensures "hostname" != "username" && "hostname" != "osFamily" && "username" != "osFamily"
    ensures "name" != "tags" && "description" != "tags"
  {
    assert "hostname"[0] != "username"[0] && "hostname"[0] != "osFamily"[0] && "username"[0] != "osFamily"[0];
    assert "name"[0] != "tags"[0];
  }

  /** The four always-set fields read back from their attributes, empty
      when the node lacks them. */
  lemma FixedFieldRoundTrip(node: Dict<string>, key: string)
    requires key in {"nodename", "hostname", "username", "osFamily"}
    ensures Field(Element(node), key) == Some(Get(node, key).GetOr(""))
  {
    var fixed := FixedAttributes(node);
    var attrs := fixed + OptionalAttributes(node);
    assert forall i | 0 <= i < 4 :: attrs[i] == fixed[i];
    AttributeNamesDiffer();
    if key == "nodename" {
      GetAt(attrs, 0, "name");
    } else if key == "hostname" {
      GetAt(attrs, 1, key);
    } else if key == "username" {
      GetAt(attrs, 2, key);
    } else {
      GetAt(attrs, 3, key);
    }
  }

  /** `description` and `tags` read back exactly as the node holds them. */
  lemma OptionalFieldRoundTrip(node: Dict<string>, key: string)
    requires key == "description" || key == "tags"
    ensures Field(Element(node), key) == Get(node, key)
  {
    var fixed := FixedAttributes(node);
    var optional := OptionalAttributes(node);
    AttributeNamesDiffer();
    assert !HasKey(fixed, key);
    GetConcat(fixed, optional, key);
    var description: Dict<string> := if HasKey(node, "description") then [("description", Get(node, "description").value)] else [];
    var tags: Dict<string> := if HasKey(node, "tags") then [("tags", Get(node, "tags").value)] else [];
    assert optional == description + tags;
    if key == "description" {
      if HasKey(node, "description") {
        GetAt(optional, 0, key);
      } else {
        assert !HasKey(optional, key);
      }
    } else {
      assert !HasKey(description, key);
      GetConcat(description, tags, key);
      if HasKey(node, "tags") {
        GetAt(tags, 0, key);
      }
    }
  }

  /** Reading a field back from a node's element gives what the node holds:
      the four always-set fields read as empty when missing, every other
      field is present exactly when the node has it, with the node's value. */
  lemma FieldRoundTrip(node: Dict<string>, key: string)
    ensures Field(Element(node), key)
      == if key in {"nodename", "hostname", "username", "osFamily"} then Some(Get(node, key).GetOr("")) else Get(node, key)
  {
    if key in {"nodename", "hostname", "username", "osFamily"} {
      FixedFieldRoundTrip(node, key);
    } else if key == "description" || key == "tags" {
      OptionalFieldRoundTrip(node, key);
    } else {
      FirstChildFinds(node, key);
    }
  }

  /** A dictionary of standard fields has no children. */
  lemma {:induction false} ChildrenOfStandard(d: Dict<string>)
    requires forall i | 0 <= i < |d| :: d[i].0 in StandardFields
    ensures Children(d) == []
    decreases |d|
  {
    if |d| > 0 {
      assert forall i | 1 <= i < |d| :: d[1..][i - 1] == d[i];
      ChildrenOfStandard(d[1..]);
    }
  }

  /** A dictionary without standard fields becomes one child per field. */
  lemma {:induction false} ChildrenOfPlain(d: Dict<string>)
    requires forall i | 0 <= i < |d| :: d[i].0 !in StandardFields
    ensures Children(d) == seq(|d|, i requires 0 <= i < |d| => Attribute(d[i].0, d[i].1))
    decreases |d|
  {
    if |d| > 0 {
      assert forall i | 1 <= i < |d| :: d[1..][i - 1] == d[i];
      ChildrenOfPlain(d[1..]);
    }
  }

  /** The base fields of a record are distinct, and each is what `get` finds
      in the record. */
  lemma BaseFieldFound(n: NodeRecord, i: nat)
    requires i < |BaseEntries(n)|
    ensures Get(Flatten(n), BaseEntries(n)[i].0) == Some(BaseEntries(n)[i].1)
  {
    var base := BaseEntries(n);
    assert DistinctKeys(base);
    var flat := Flatten(n);
    assert forall j | 0 <= j < |base| :: flat[j] == base[j];
    GetAt(flat, i, base[i].0);
  }

  /** The element of a record carries the record's six standard fields as
      attributes, in order. */
  lemma RecordAttributes(n: NodeRecord)
    ensures StandardAttributes(Flatten(n)) == [("name", n.nodename), ("hostname", n.hostname),
      ("username", n.username), ("osFamily", n.osFamily), ("description", n.description), ("tags", n.tags)]
  {
    BaseFieldFound(n, 0);
    BaseFieldFound(n, 1);
    BaseFieldFound(n, 2);
    BaseFieldFound(n, 3);
    BaseFieldFound(n, 4);
    BaseFieldFound(n, 5);
  }

  /** The children of a record are its five `proxmox_*` base fields followed
      by its non-standard added attributes. */
  lemma RecordChildren(n: NodeRecord)
    ensures Children(Flatten(n)) == [Attribute("proxmox_node", n.proxmoxNode), Attribute("proxmox_vmid", n.proxmoxVmid),
      Attribute("proxmox_type", n.proxmoxType), Attribute("proxmox_status", n.proxmoxStatus),
      Attribute("proxmox_running_status", n.runningStatus)] + Children(n.extra)
  {
    var base := BaseEntries(n);
    assert base == base[..6] + base[6..];
    ChildrenConcat(base[..6], base[6..]);
    ChildrenConcat(base, n.extra);
    ChildrenOfStandard(base[..6]);
    ChildrenOfPlain(base[6..]);
  }
}
