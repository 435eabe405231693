/** Accounts and words of the chain that the contracts share. */
module Ethereum {

  datatype Address = Address(id: nat)

  const ZERO_ADDRESS := Address(0)

  const UINT_MAX := 0x1_0000_0000_0000_0000_0000_0000_0000_0000_0000_0000_0000_0000_0000_0000_0000_0000 - 1
}
