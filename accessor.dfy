/** The serde defaults of src/util/accessor.rs that the request records use for missing fields. */
module Accessor {
  /** `unset_str`. */
  const UnsetStr: string := ""

  /** `unset_vec_str`. */
  const UnsetVecStr: seq<string> := []
}
