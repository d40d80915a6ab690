/** Where physical memory is seen, and in what units it is handed out. */
module Addresses {

  const PAGE_SIZE: nat := 4096

  /** The direct map of physical memory. */
  const HIGHER_BASE: nat := 0xffff_8000_0000_0000
}
