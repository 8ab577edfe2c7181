/** The byte buffers shared by the compressor and the storage helpers. */
module Buffers {

  /** An encoded image file as raw bytes. */
  type Bytes = seq<bv8>
}
