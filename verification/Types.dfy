/** Values shared by every component of the model. */
module Types {

  datatype Option<+T> = None | Some(value: T)

  /** How a Python call can leave: with a value, or with one of the exceptions the source can raise. */
  datatype Fault = AssertionError | StructError | SystemExit

  datatype Result<+T> = Ok(value: T) | Err(fault: Fault)

  /** A route: the prefix length in bits and the 32-bit address it covers. */
  datatype Prefix = Prefix(length: nat, addr: nat)

  /**
   * Some functions of the source do something other than what their own comments promise.
   * Each such function is modelled once, with a branch on the variant at the places in question:
   * AsWritten follows the code, Intended follows the comments.
   */
  datatype Variant = AsWritten | Intended

  lemma SameMap<K, V>(a: map<K, V>, b: map<K, V>)
    requires forall k :: k in a <==> k in b
    requires forall k :: k in a ==> a[k] == b[k]
    ensures a == b
  {}
}
