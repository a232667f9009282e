/** The shape of the reference device. */
module Sizes {

  /** Multitimbral parts. */
  const NPARTS: nat := 16

  /** Voices of a part. */
  const NVOICES: nat := 8
}
