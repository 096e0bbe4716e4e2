/** The machine's words and bytes, as bits. */
module BitVectors {

  type Word = bv32

  type Byte = bv8
}
