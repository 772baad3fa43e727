/** Wire-visible values of the GUD protocol and the integer widths they are carried in. */
module Wire {
  const TWO_TO_THE_32: nat := 0x1_0000_0000
  const TWO_TO_THE_64: nat := 0x1_0000_0000_0000_0000

  type u8 = x: nat | x < 0x100
  type u16 = x: nat | x < 0x1_0000
  type u32 = x: nat | x < TWO_TO_THE_32
  type u64 = x: nat | x < TWO_TO_THE_64

  datatype Option<+T> = None | Some(value: T)

  const GUD_STATUS_OK: u8 := 0
  const GUD_COMPRESSION_LZ4: u8 := 1

  /** A SET_BUFFER request: the rectangle one bulk transfer updates, and its wire encoding. */
  datatype SetBuffer = SetBuffer(
    x: u32, y: u32, width: u32, height: u32,
    length: u32, compression: u8, compressedLength: u32)

  /** Number of bulk bytes that follow a SET_BUFFER on the wire. */
  function WireLength(info: SetBuffer): u32 {
    if info.compression > 0 then info.compressedLength else info.length
  }
}
