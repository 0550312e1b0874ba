/**
 * Building the device-parameter tree from a decoded GenieACS response
 * (src/connection.rs): `parse_device_tree`, and the unwrapping of the device
 * list that `get_parameter_values` does before and after it.
 *
 * A GenieACS parameter is an object carrying `_value` and `_type` (and
 * optionally `_writable`); every other object is a container of parameters.
 */
module Connection {
  import opened Wrappers
  import opened Json
  import opened DataNodes

  /** The text of a leaf's `_value`, by JSON kind. */
  function ValueText(v: Value): string
  {
    match v
    case Bool(b) => if b then "true" else "false"
    case String(s) => s
    case Number(n) => IntText(n)
    case _ => ""
  }

  /** A leaf's type: `_type` when it is a string, "" otherwise. */
  function TypeText(v: Value): string
  {
    match AsStr(v)
    case Some(s) => s
    case None => ""
  }

  /** A leaf's writability: `_writable` when it is present and a bool, false otherwise. */
  function WritableFlag(members: map<string, Value>): bool
  {
    if "_writable" in members then
      match AsBool(members["_writable"])
      case Some(w) => w
      case None => false
    else false
  }

  /** An object carrying both markers is one parameter, not a container. */
  predicate IsLeaf(members: map<string, Value>)
  {
    "_value" in members && "_type" in members
  }

  /** The node `parse_device_tree` makes of the member value `v`. */
  function ParsedChild(v: Value): Tree
    decreases v, 1
  {
    match v
    case Object(ms) =>
      if IsLeaf(ms) then Tree(ValueText(ms["_value"]), TypeText(ms["_type"]), WritableFlag(ms), map[])
      else ParsedTree(v)
    case _ => Empty
  }

  /** The tree `parse_device_tree(json)` returns. */
  function ParsedTree(json: Value): Tree
    decreases json, 0
  {
    match json
    case Object(ms) => Tree("", "", false, map k | k in ms :: ParsedChild(ms[k]))
    case _ => Empty
  }

  /** The children parsed once the members `done` of `ms` have been visited: the state of the loop. */
  function ParsedMembers(ms: map<string, Value>, done: set<string>): map<string, Tree>
  {
    map k | k in done && k in ms :: ParsedChild(ms[k])
  }

  lemma ParsedMembersNone(json: Value)
    ensures json.Object? ==> ParsedMembers(json.members, {}) == map[]
  {
  }

  lemma ParsedMembersStep(ms: map<string, Value>, done: set<string>, k: string)
    requires k in ms
    ensures ParsedMembers(ms, done + {k}) == ParsedMembers(ms, done)[k := ParsedChild(ms[k])]
  {
  }

  lemma ParsedMembersAll(ms: map<string, Value>)
    ensures Tree("", "", false, ParsedMembers(ms, ms.Keys)) == ParsedTree(Object(ms))
  {
    assert ParsedMembers(ms, ms.Keys) == ParsedTree(Object(ms)).subnodes;
  }

  /** `parse_device_tree`: one child per member of `json`, built in whatever order the map yields its keys. */
  method ParseDeviceTree(json: Value) returns (root: DataNode)
    ensures root.Valid() && fresh(root.Repr)
    ensures root.Model == ParsedTree(json)
    decreases json, 0
  {
    root := new DataNode();
    ParsedMembersNone(json);
    var o := AsObject(json);
    if o.Some? {
      var obj := o.value;
      ghost var done: set<string> := {};
      var pending := obj.Keys;
      while pending != {}
        invariant pending == obj.Keys - done && done <= obj.Keys
        invariant root.Valid() && fresh(root.Repr)
        invariant root.Model == Tree("", "", false, ParsedMembers(obj, done))
        decreases pending
      {
        var key :| key in pending;
        var childNode := ParseMember(obj[key]);
        root.Insert(key, childNode);
        ParsedMembersStep(obj, done, key);
        pending, done := pending - {key}, done + {key};
      }
      assert done == obj.Keys;
      ParsedMembersAll(obj);
    }
  }

  /** The body of `parse_device_tree`'s loop: the node for one member value. */
  method ParseMember(value: Value) returns (childNode: DataNode)
    ensures childNode.Valid() && fresh(childNode.Repr)
    ensures childNode.Model == ParsedChild(value)
    decreases value, 1
  {
    childNode := new DataNode();
    var sub := AsObject(value);
    if sub.Some? {
      var subObj := sub.value;
      if "_value" in subObj && "_type" in subObj {
        childNode.SetValue(ValueText(subObj["_value"]), TypeText(subObj["_type"]));
        if "_writable" in subObj {
          var w := match AsBool(subObj["_writable"]) case Some(b) => b case None => false;
          childNode.SetWritable(w);
        } else {
          childNode.SetWritable(false);
        }
      } else {
        childNode := ParseDeviceTree(value);
      }
    }
  }

  /**
   * The part of `get_parameter_values` after the response is decoded: take the
   * first device of the list, parse its `"Device"` member and hang it under a
   * fresh root; anything else is the "Bad response" error.
   */
  method DeviceTreeFromResponse(json: Value) returns (r: Result<DataNode, string>)
    requires json.Array?
    ensures r.Failure? <==> !(|json.items| > 0 && json.items[0].Object? && "Device" in json.items[0].members)
    ensures r.Failure? ==> r.error == "Bad response"
    ensures r.Success? ==> r.value.Valid() && fresh(r.value.Repr)
    ensures r.Success? ==> r.value.Model == Tree("", "", false, map["Device" := ParsedTree(json.items[0].members["Device"])])
  {
    var rootDeviceArray := json.items;
    if |rootDeviceArray| > 0 {
      var rootDevice := rootDeviceArray[0];
      var d := AsObject(rootDevice);
      if d.Some? {
        var rootDeviceObj := d.value;
        if "Device" in rootDeviceObj {
          var deviceNode := ParseDeviceTree(rootDeviceObj["Device"]);
          var rootNode := new DataNode();
          rootNode.Insert("Device", deviceNode);
          return Success(rootNode);
        }
      }
    }
    return Failure("Bad response");
  }
}
