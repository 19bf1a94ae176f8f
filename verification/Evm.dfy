/** The value types of the contracts and the zero-default reading of a Solidity mapping. */
module Evm {

  const TWO_160: nat := 0x1_0000_0000_0000_0000_0000_0000_0000_0000_0000_0000
  const TWO_256: nat := 0x1_0000_0000_0000_0000_0000_0000_0000_0000_0000_0000_0000_0000_0000_0000_0000_0000
  const MAX_UINT256: nat := TWO_256 - 1
  const MAX_UINT16: nat := 0xFFFF

  type Address = a: nat | a < TWO_160
  type Uint256 = n: nat | n < TWO_256
  type Bytes32 = n: nat | n < TWO_256

  const ZERO: Address := 0

  // An address that can be msg.sender: nobody can sign for or call from the zero address.
  type Account = a: Address | a != ZERO witness 1

  /** Reads a mapping at `k`: slots never written hold the default `d`. */
  function Read<K, V>(m: map<K, V>, k: K, d: V): V {
    if k in m then m[k] else d
  }

  /** The keys at which a mapping to bool reads true. */
  function TrueKeys<K(==)>(m: map<K, bool>): set<K> {
    set k | k in m.Keys && m[k]
  }
}
