# acs-api-rs device-parameter tree, in Dafny

acs-api-rs is a Rust client for a TR-069 Auto Configuration Server (GenieACS).
This project models the part of it with real structure:

- **The device-parameter tree.** `DataNode` from src/data_node.rs holds a value, a type and named children; the model adds the writability flag that src/connection.rs:145, 151 and 198 assign.
  - `new` builds an empty node.
  - `get_subnode` returns a copy of one child.
  - `merge` is the in-place deep union that refreshes a cached tree from a partial fetch.
- **Ingestion of the server's JSON.** `parse_device_tree` from src/connection.rs turns a decoded JSON value into a tree. An object holding both `_value` and `_type` becomes one parameter. Every other object becomes a container.
  - `get_parameter_values` first unwraps the device list and wraps the parsed `"Device"` member under a fresh root.
- **The request records.** `ParameterValue` and the `setParameterValues`, `addObject`/`deleteObject`, `getParameterNames`, `refreshObject` and `download` task records, with their constructors and serde defaults.

## How it is modelled

- **`DataNodes.Tree`** is the value of a node and its whole subtree. It is what Rust's derived `PartialEq` compares and its derived `Clone` copies.
- **`DataNodes.DataNode`** is a class, because `merge` updates nodes in place through `get_mut`.
  - Its ghost field `Model` is the `Tree` the node holds. `Repr` is the set of objects it owns.
  - `Valid()` says the children own disjoint parts of `Repr`. That is what Rust's ownership of the `HashMap` values guarantees.
- **Each method is proved against a pure function on `Tree`:**
  - `Merge` against `Merged`;
  - `ParseDeviceTree` against `ParsedTree`;
  - `Clone` against the identity.
- **Lemmas about those functions** state what merge and parse promise.
- **`Json.Value`** is the decoded `serde_json::Value`. An object is a `map`, one value per member name, as in serde_json's `Map`.
  - The loops over an object's members and over `other.subnodes` visit the keys in an arbitrary order. The proofs hold for every order.
- **`writable` is a field of the tree.** src/data_node.rs:7-11 does not declare it. Yet src/connection.rs:145, 151 and 198 assign or initialise it, so the model follows connection.rs:
  - `new()` gives `false`;
  - the parser sets it;
  - `merge` neither reads nor writes it.
- **`merge` never reads or writes `writable`,** so merging the same tree twice gives the same tree as merging it once (`MergeLaws.MergeIdempotent`).
- **The discriminator of `GetParameterValues::new` is `"getParameterNames"`,** as the source writes it (src/request/get_parameter_values.rs:16).

## Model

| member | source | states |
|---|---|---|
| DataNodes.DataNode.constructor | src/data_node.rs:16-22 | `new()` is a fresh, valid node with empty value and type, not writable and without children |
| DataNodes.DataNode.GetSubnode | src/data_node.rs:24-29 | returns `Some` exactly when `name` is a key of the children; the result is a fresh copy equal to the stored child; the node itself is not changed |
| DataNodes.DataNode.Clone | src/data_node.rs:5 | the derived deep copy: a fresh valid node sharing no object with the original and holding an equal tree |
| DataNodes.DataNode.Merge | src/data_node.rs:31-45 | after `merge(other)` the node holds `Merged(old tree, other's tree)` and stays valid; `other` is only read; objects added are fresh |
| DataNodes.DataNode.SetValue | src/data_node.rs:32-33 | value and type are replaced; writability, children and footprint are unchanged |
| DataNodes.DataNode.MergeSubnode | src/data_node.rs:34-44 | one turn of merge's loop: the child under `key` becomes `Merged(existing child or an empty node, other's child)`; every other child is unchanged; `other` stays valid and unchanged |
| DataNodes.DataNode.EnsureSubnode | src/data_node.rs:37-40 | afterwards `key` is a child; an existing child is kept, a missing one is inserted as an empty node; no other child changes |
| DataNodes.DataNode.MergeExisting | src/data_node.rs:42-43 | merging into the child already under `key` changes that child's tree to the recursive merge and nothing else |
| DataNodes.DataNode.Insert | src/connection.rs:158 | `subnodes.insert`: the child under `key` is replaced by (or becomes) the given node; the other children are unchanged |
| DataNodes.DataNode.SetWritable | src/connection.rs:144-152 | only the writability flag changes |
| MergeLaws.MergedShape | src/data_node.rs:31-45 | after merge: value and type are `other`'s, writability is the receiver's, the key set is the union of both key sets, children only the receiver has are untouched, and every child of `other` is merged recursively into the existing child or an empty one |
| MergeLaws.MergedLookup | src/data_node.rs:31-45 | along every path: the merged tree has a node exactly where either tree has one; where `other` has one, value and type are `other`'s; where `other` has none, the receiver's node is untouched; writability is the receiver's where it had a node and false on every node merge created |
| MergeLaws.MergeIntoEmpty | src/data_node.rs:16-45 | merging a tree into `new()` gives a deep copy of it with every writability flag false |
| MergeLaws.MergeIdempotent | src/data_node.rs:32-44 | merging the same tree twice gives the same tree as merging it once |
| MergeLaws.MergeSelf | src/data_node.rs:31-45 | merging a tree into an equal tree leaves it unchanged |
| Json.AsObject | src/connection.rs:128 | `as_object` is `Some` exactly for objects, and then holds the members |
| Json.AsStr | src/connection.rs:140-143 | `as_str` is `Some` exactly for strings, and then holds the string |
| Json.AsBool | src/connection.rs:146-149 | `as_bool` is `Some` exactly for booleans, and then holds the boolean |
| Json.NatTextDenotes | src/connection.rs:137 | the decimal text of a natural number is a non-empty digit string without a leading zero that denotes the number |
| Json.IntTextRoundTrip | src/connection.rs:137 | the text `to_string` gives an integer reads back as the same integer |
| Json.IntTextInjective | src/connection.rs:137 | distinct integers get distinct texts |
| Connection.ParseDeviceTree | src/connection.rs:125-163 | returns a fresh valid node holding `ParsedTree(json)`, whatever order the members are visited in |
| Connection.ParseMember | src/connection.rs:130-155 | the node built for one member value is a fresh valid node holding `ParsedChild(value)` |
| Connection.DeviceTreeFromResponse | src/connection.rs:188-207 | fails with "Bad response" exactly when the list is empty, its first element is not an object, or that object has no `"Device"` member; otherwise returns a fresh root with empty value and type, not writable, whose only child `"Device"` is the parse of `json[0]["Device"]` |
| ParseLaws.ParsedRoot | src/connection.rs:126-162 | the root's value and type are empty and it is not writable; a non-object gives `new()`; for an object the children's keys are exactly the member names, metadata members included |
| ParseLaws.ParsedMember | src/connection.rs:130-158 | a non-object member gives an empty node; an object with both `_value` and `_type` gives a childless leaf with the texts of `_value` and `_type` and the `_writable` flag; any other object gives exactly the parse of that object |
| ParseLaws.ValueTextByKind | src/connection.rs:134-139 | a leaf's value is "true"/"false" for a bool, the string itself for a string, decimal text that reads back as the number for a number, and "" for null, arrays and objects |
| ParseLaws.TypeTextByKind | src/connection.rs:140-143 | a leaf's type is `_type` when that is a string and "" otherwise |
| ParseLaws.WritableFlagIff | src/connection.rs:144-152 | a leaf is writable exactly when `_writable` is present and is `true`; absent or not a bool gives false |
| ParseLaws.ParsedDataOnlyAtLeaves | src/connection.rs:125-163 | in a parsed tree every node that has a value, a type or writability has no children |
| ParseLaws.ContainersOnlyParseBlank | src/connection.rs:125-163 | a document with no marked object at any depth parses to a tree whose nodes all have empty value and type and are not writable |
| ParseLaws.ParameterLeaves | src/connection.rs:133-152 | `{"_value": 42, "_type": "xsd:unsignedInt", "_writable": true}` gives the leaf ("42", "xsd:unsignedInt", writable), and a string parameter with `"_writable": false` gives a non-writable leaf |
| ParseLaws.AcmeDocumentParsed | src/connection.rs:125-163 | the document `{"Device":{"DeviceInfo":{...}}}` has the leaf ("Acme", "xsd:string", not writable) at `Device/DeviceInfo/Manufacturer` and an empty node for the `_timestamp` string |
| ParameterValues.New | src/parameter_value.rs:16-22 | `new(p, v, t)` stores `p`, `v`, `t` in `parameter`, `value`, `value_type` |
| ParameterValues.ToValue | src/parameter_value.rs:24-26 | `to_value` always has exactly three elements |
| ParameterValues.FromValue | src/parameter_value.rs:24-26 | the inverse of `to_value`: a record exactly for three-element lists |
| ParameterValues.ToValueRoundTrip | src/parameter_value.rs:24-26 | reading back `to_value(pv)` gives `pv`: the list is `[parameter, value, value_type]` in that order |
| ParameterValues.FromValueRoundTrip | src/parameter_value.rs:24-26 | every three-element list is the `to_value` of the record it reads back as |
| ParameterValues.NewToValue | src/parameter_value.rs:16-26 | `to_value(new(p, v, t)) == [p, v, t]` |
| ParameterValues.ToValueInjective | src/parameter_value.rs:24-26 | records with equal `to_value` are equal |
| ParameterValues.FromFields | src/parameter_value.rs:6-13 | deserialisation: each present field is taken, each missing one is `unset_str` |
| ParameterValues.UnsetFlattensEmpty | src/util/accessor.rs:12-14 | the record with every field missing is `unset_parameter_value`, and its `to_value` is `["", "", ""]` |
| SetParameterValuesRequest.New | src/request/set_parameter_values.rs:15-20 | the name is "setParameterValues" and the list is the argument, same length, order and elements |
| SetParameterValuesRequest.NewInjective | src/request/set_parameter_values.rs:15-20 | two records from `new` are equal exactly when their lists are |
| SetParameterValuesRequest.FromFields | src/request/set_parameter_values.rs:7-12 | missing `name` is "" and missing `parameter_values` is the empty list; present fields are taken as they are |
| SetParameterValuesRequest.FromFieldsRoundTrip | src/request/set_parameter_values.rs:7-12 | every record deserialises from its own fields, and the all-missing payload is ("", []) |
| AddDeleteObjectRequest.New | src/request/add_delete_object.rs:14-19 | the name is "addObject" when `add` holds and "deleteObject" otherwise; `object_name` is the argument verbatim |
| AddDeleteObjectRequest.IsAdd | src/request/add_delete_object.rs:16 | reads the flag back from the name; defined exactly for the two task names |
| AddDeleteObjectRequest.NewNames | src/request/add_delete_object.rs:16 | the name of a record from `new` is one of the two task names and gives the flag back |
| AddDeleteObjectRequest.NewInjective | src/request/add_delete_object.rs:14-19 | `new(a, n) == new(b, m)` exactly when `a == b` and `n == m` |
| AddDeleteObjectRequest.FromFields | src/request/add_delete_object.rs:6-11 | each missing field is "", each present one is taken |
| AddDeleteObjectRequest.FromFieldsRoundTrip | src/request/add_delete_object.rs:6-11 | every record deserialises from its own fields; the all-missing payload names neither task |
| GetParameterValuesRequest.New | src/request/get_parameter_values.rs:14-19 | the name is "getParameterNames" and the name list is the argument, same length and order |
| GetParameterValuesRequest.NewInjective | src/request/get_parameter_values.rs:14-19 | two records from `new` are equal exactly when their name lists are |
| GetParameterValuesRequest.FromFields | src/request/get_parameter_values.rs:6-11 | missing `name` is "" and missing `parameter_names` is the empty list |
| GetParameterValuesRequest.FromFieldsRoundTrip | src/request/get_parameter_values.rs:6-11 | every record deserialises from its own fields, and the all-missing payload is ("", []) |
| RefreshObjectRequest.New | src/request/refresh_object.rs:14-19 | the name is "refreshObject" and `object_name` is the argument |
| RefreshObjectRequest.NewInjective | src/request/refresh_object.rs:14-19 | two records from `new` are equal exactly when their object names are |
| RefreshObjectRequest.FromFields | src/request/refresh_object.rs:6-11 | each missing field is "", each present one is taken |
| RefreshObjectRequest.FromFieldsRoundTrip | src/request/refresh_object.rs:6-11 | every record deserialises from its own fields, and the all-missing payload is ("", "") |
| DownloadCommandRequest.New | src/request/download_command.rs:14-19 | the name is "download" and `file` is the argument |
| DownloadCommandRequest.NewInjective | src/request/download_command.rs:14-19 | two records from `new` are equal exactly when their files are |
| DownloadCommandRequest.FromFields | src/request/download_command.rs:6-11 | each missing field is "", each present one is taken |
| DownloadCommandRequest.FromFieldsRoundTrip | src/request/download_command.rs:6-11 | every record deserialises from its own fields, and the all-missing payload is ("", "") |

## Left out

- HTTP plumbing is not modelled:
  - the reqwest client, URL building, status checks and the other endpoints of src/connection.rs;
  - `encode_device` (the `urlencoding` crate);
  - the `AcsType` guard.
- Textual JSON is not modelled. `serde_json::from_str` and the serialisation of the request records are left out, and the model starts from the decoded value.
- JSON numbers are integers in the range serde_json stores as integers, [-2^63, 2^64) (`Json.JsonInt`). Literals outside that range, and fractional ones, decode to floating-point numbers, which are not modelled, and neither is the text `Number::to_string` gives them.
- The `as_array().unwrap()` panic at src/connection.rs:188 is a precondition of `Connection.DeviceTreeFromResponse` (`json.Array?`). It is not an error path.
- The order in which `HashMap` and serde_json's `Map` yield their keys is a nondeterministic choice in the loops. Every result is proved for any order.
- Logging, `unsafe impl Send` and `#[repr(C)]` carry no logic and are left out.
- src/request/simple_command.rs, src/device.rs and `unset_acs_device_id` are not part of this model. The first is an identity constructor, the second a record with no functions, and the third refers to fields the shown device record does not have.
- The derived `Deserialize` is modelled only as the per-record `FromFields` functions, which say which default fills a missing field.
