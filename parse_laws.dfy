/** What `parse_device_tree` makes of a JSON value, stated on the tree it returns. */
module ParseLaws {
  import opened Wrappers
  import opened Json
  import opened DataNodes
  import opened Connection

  /**
   * The root is always blank: a non-object gives `DataNode::new()`, and an
   * object gives one child per member, metadata members such as `_id` included.
   */
  lemma ParsedRoot(json: Value)
    ensures ParsedTree(json).value == "" && ParsedTree(json).valueType == "" && !ParsedTree(json).writable
    ensures !json.Object? ==> ParsedTree(json) == Empty
    ensures json.Object? ==> ParsedTree(json).subnodes.Keys == json.members.Keys
  {
  }

  /**
   * The child for member `key` of the object `ms`, by the shape of its value:
   * a non-object gives an empty node; an object with both markers gives a leaf
   * carrying the texts of `_value` and `_type` and the `_writable` flag; any
   * other object is parsed as a tree of its own.
   */
  lemma ParsedMember(ms: map<string, Value>, key: string)
    requires key in ms
    ensures !ms[key].Object? ==> ParsedTree(Object(ms)).subnodes[key] == Empty
    ensures ms[key].Object? && IsLeaf(ms[key].members) ==>
      ParsedTree(Object(ms)).subnodes[key] ==
        Tree(ValueText(ms[key].members["_value"]), TypeText(ms[key].members["_type"]), WritableFlag(ms[key].members), map[])
    ensures ms[key].Object? && !IsLeaf(ms[key].members) ==> ParsedTree(Object(ms)).subnodes[key] == ParsedTree(ms[key])
  {
  }

  /**
   * A leaf's value text: a bool gives "true" or "false", a string itself, a
   * number its decimal text (which reads back as the number), and null, an
   * array or an object the empty string.
   */
  lemma ValueTextByKind(v: Value)
    ensures v == Bool(true) ==> ValueText(v) == "true"
    ensures v == Bool(false) ==> ValueText(v) == "false"
    ensures v.String? ==> ValueText(v) == v.s
    ensures v.Number? ==> ReadInt(ValueText(v)) == Some(v.n)
    ensures v.Null? || v.Array? || v.Object? ==> ValueText(v) == ""
  {
    if v.Number? {
      IntTextRoundTrip(v.n);
    }
  }

  /** A leaf's type is `_type` when that is a string, and "" when it is anything else. */
  lemma TypeTextByKind(v: Value)
    ensures v.String? ==> TypeText(v) == v.s
    ensures !v.String? ==> TypeText(v) == ""
  {
  }

  /** A leaf is writable exactly when it carries `"_writable": true`; absent or not a bool means false. */
  lemma WritableFlagIff(ms: map<string, Value>)
    ensures WritableFlag(ms) <==> "_writable" in ms && ms["_writable"] == Bool(true)
  {
  }

  /** Every node that carries a value, a type or writability has no children. */
  ghost predicate DataOnlyAtLeaves(t: Tree)
    decreases t
  {
    && (t.value != "" || t.valueType != "" || t.writable ==> t.subnodes == map[])
    && forall k :: k in t.subnodes ==> DataOnlyAtLeaves(t.subnodes[k])
  }

  /** Containers are blank: value, type and writability appear only on the leaves of a parsed tree. */
  lemma {:induction false} ParsedDataOnlyAtLeaves(json: Value)
    ensures DataOnlyAtLeaves(ParsedTree(json))
    decreases json
  {
    match json
    case Object(ms) =>
      var t := ParsedTree(json);
      forall k | k in t.subnodes
        ensures DataOnlyAtLeaves(t.subnodes[k])
      {
        var v := ms[k];
        assert t.subnodes[k] == ParsedChild(v);
        if v.Object? && !IsLeaf(v.members) {
          ParsedDataOnlyAtLeaves(v);
        } else {
          assert t.subnodes[k].subnodes == map[];
        }
      }
    case _ =>
  }

  /** No member object at any depth carries both markers. */
  ghost predicate ContainersOnly(json: Value)
    decreases json
  {
    match json
    case Object(ms) => forall k :: k in ms ==> (ms[k].Object? ==> !IsLeaf(ms[k].members)) && ContainersOnly(ms[k])
    case _ => true
  }

  /** Every node has an empty value and type and is not writable. */
  ghost predicate Blank(t: Tree)
    decreases t
  {
    && t.value == "" && t.valueType == "" && !t.writable
    && forall k :: k in t.subnodes ==> Blank(t.subnodes[k])
  }

  /** A JSON value without parameters parses to a tree of empty containers. */
  lemma {:induction false} ContainersOnlyParseBlank(json: Value)
    requires ContainersOnly(json)
    ensures Blank(ParsedTree(json))
    decreases json
  {
    match json
    case Object(ms) =>
      var t := ParsedTree(json);
      forall k | k in t.subnodes
        ensures Blank(t.subnodes[k])
      {
        assert t.subnodes[k] == ParsedChild(ms[k]);
        if ms[k].Object? {
          ContainersOnlyParseBlank(ms[k]);
        } else {
          assert t.subnodes[k] == Empty;
        }
      }
    case _ =>
  }

  /** Two parameters as GenieACS returns them. */
  const Manufacturer: Value := Object(map["_value" := String("Acme"), "_type" := String("xsd:string"), "_writable" := Bool(false)])
  const UpTime: Value := Object(map["_value" := Number(42), "_type" := String("xsd:unsignedInt"), "_writable" := Bool(true)])

  /** A container holding a metadata string and the two parameters. */
  const DeviceInfo: Value := Object(map[
    "_timestamp" := String("2024-01-01T00:00:00.000Z"),
    "Manufacturer" := Manufacturer,
    "UpTime" := UpTime])

  /** A `Device` member as GenieACS returns it. */
  const AcmeDevice: Value := Object(map["DeviceInfo" := DeviceInfo])

  /** A document holding that member. */
  const AcmeDocument: Value := Object(map["Device" := AcmeDevice])

  lemma ParameterLeaves()
    ensures ParsedChild(Manufacturer) == Tree("Acme", "xsd:string", false, map[])
    ensures ParsedChild(UpTime) == Tree("42", "xsd:unsignedInt", true, map[])
  {
    assert NatText(42) == "42" by {
      assert NatText(4) == "4";
    }
  }

  /** The parameters become leaves under their paths, and the metadata string an empty node. */
  lemma AcmeDocumentParsed()
    ensures Lookup(ParsedTree(AcmeDocument), ["Device", "DeviceInfo", "Manufacturer"]) == Some(Tree("Acme", "xsd:string", false, map[]))
    ensures Lookup(ParsedTree(AcmeDocument), ["Device", "DeviceInfo", "UpTime"]) == Some(Tree("42", "xsd:unsignedInt", true, map[]))
    ensures Lookup(ParsedTree(AcmeDocument), ["Device", "DeviceInfo", "_timestamp"]) == Some(Empty)
    ensures ParsedTree(AcmeDocument).subnodes.Keys == {"Device"}
  {
    ParameterLeaves();
    var info := ParsedTree(DeviceInfo);
    assert ParsedTree(AcmeDocument).subnodes["Device"] == ParsedTree(AcmeDevice);
    assert ParsedTree(AcmeDevice).subnodes["DeviceInfo"] == info;
    assert info.subnodes["Manufacturer"] == ParsedChild(Manufacturer);
    assert info.subnodes["UpTime"] == ParsedChild(UpTime);
    assert info.subnodes["_timestamp"] == ParsedChild(DeviceInfo.members["_timestamp"]);
  }
}
