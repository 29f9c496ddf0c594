/** The fixed-width unsigned integers of the sources. */
module Machine {
  type uint8 = n: nat | n < 0x100
  type uint16 = n: nat | n < 0x1_0000
  type uint32 = n: nat | n < 0x1_0000_0000

  /** Two bytes, most significant first. */
  function Word16(hi: uint8, lo: uint8): uint16 {
    hi as nat * 0x100 + lo as nat
  }

  function Word32(b3: uint8, b2: uint8, b1: uint8, b0: uint8): uint32 {
    Word16(b3, b2) as nat * 0x1_0000 + Word16(b1, b0) as nat
  }

  datatype Option<T> = None | Some(value: T)
}
