/** The codes the memory process answers when an address lies past the last header. */
module Faults {

  const FREE_FAULT := -5
  const READ_FAULT := -6
  const WRITE_FAULT := -7
}
