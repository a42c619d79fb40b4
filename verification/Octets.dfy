/** Contents of files, bodies and digests. */
module Octets {
  type Bytes = seq<bv8>
}
