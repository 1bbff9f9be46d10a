/** Types that several components share. */
module Common {
  datatype Option<+T> = None | Some(value: T)

  datatype Result<+T, +E> = Ok(value: T) | Err(error: E)

  /** A growing buffer in memory. */
  class Buffer<T> {
    var contents: seq<T>

    constructor ()
      ensures contents == []
    {
      contents := [];
    }

    method Reset()
      modifies this
      ensures contents == []
    {
      contents := [];
    }

    method Write(items: seq<T>)
      modifies this
      ensures contents == old(contents) + items
    {
      contents := contents + items;
    }
  }

  type byte = x: int | 0 <= x < 256

  type uint16 = x: int | 0 <= x < 0x1_0000

  type Bytes4 = b: seq<byte> | |b| == 4 witness [0, 0, 0, 0]

  type Bytes16 = b: seq<byte> | |b| == 16 witness seq(16, _ => 0)

  /** netip.Addr; the zero value is not a valid address. */
  datatype Addr = Invalid | IPv4(b4: Bytes4) | IPv6(b16: Bytes16)

  datatype AddrPort = AddrPort(addr: Addr, port: uint16)
}
