/** Types shared by the modules of the gateway model. */
module Common {

  /** The conventional optional value, in place of a null pointer or an end iterator. */
  datatype Option<+T> = None | Some(value: T)

  /** One octet of a packet or of a text. */
  type byte = x: int | 0 <= x < 0x100

  type Octets = seq<byte>

  /** std::uint64_t */
  type u64 = x: int | 0 <= x < 0x1_0000_0000_0000_0000

  const TWO_64: nat := 0x1_0000_0000_0000_0000

  function Min(a: nat, b: nat): nat {
    if a < b then a else b
  }
}
