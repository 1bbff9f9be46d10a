/** The wire formats of the SOCKS5 server: requests, reply addresses and UDP datagrams
    (RFC 1928 sections 4, 6 and 7). */
module SocksCodec {
  import opened Common

  const IPV4: byte := 1
  const DOMAIN_NAME: byte := 3
  const IPV6: byte := 4

  datatype Error =
    | PacketTooShort | ReservedNotZero | FragmentationUnsupported | VersionUnsupported
    | AddressTypeUnsupported | UnexpectedEnd
    | SourceInvalid | NotAnIP | IPVersionUnexpected | DomainNameTooLong

  /** An address as a parser sees it. */
  datatype Destination = IP(addr: Addr) | Domain(name: seq<byte>)

  datatype Datagram = Datagram(destination: Destination, port: uint16, payload: seq<byte>)

  datatype Request = Request(command: byte, destination: Destination, port: uint16, addressType: byte)

  /** An address text together with the IP address netip.ParseAddr finds in it, if any. */
  datatype Host = Host(text: seq<byte>, ip: Option<Addr>)

  // ---------------------------------------------------------------- the formats

  function PortBytes(port: uint16): seq<byte> {
    [port / 256, port % 256]
  }

  function BigEndian(high: byte, low: byte): uint16 {
    256 * high + low
  }

  /** Address type, address and port. */
  function AddressBytes(d: Destination, port: uint16): seq<byte>
    requires Printable(d)
  {
    match d
    case IP(IPv4(b)) => [IPV4] + b + PortBytes(port)
    case IP(IPv6(b)) => [IPV6] + b + PortBytes(port)
    case Domain(name) => [DOMAIN_NAME, |name|] + name + PortBytes(port)
  }

  predicate Printable(d: Destination) {
    match d
    case IP(addr) => addr != Invalid
    case Domain(name) => |name| <= 255
  }

  function TypeOf(d: Destination): byte
    requires Printable(d)
  {
    match d
    case IP(IPv4(_)) => IPV4
    case IP(IPv6(_)) => IPV6
    case Domain(_) => DOMAIN_NAME
  }

  /** A UDP datagram that is not a fragment. */
  function DatagramBytes(d: Datagram): seq<byte>
    requires Printable(d.destination)
  {
    [0, 0, 0] + AddressBytes(d.destination, d.port) + d.payload
  }

  /** A request, or with the reply code for a command a reply. */
  function RequestBytes(version: byte, r: Request): seq<byte>
    requires Printable(r.destination)
  {
    [version, r.command, 0] + AddressBytes(r.destination, r.port)
  }

  // ---------------------------------------------------------------- the code: datagrams

  function DecodeUDPDatagram(packet: seq<byte>): Result<Datagram, Error> {
    if |packet| < 4 then Err(PacketTooShort)
    else if packet[0] != 0 || packet[1] != 0 then Err(ReservedNotZero)
    else if packet[2] != 0 then Err(FragmentationUnsupported)
    else if packet[3] == IPV4 then
      if |packet| < 4 + 4 + 2 then Err(PacketTooShort)
      else DecodePort(packet, IP(IPv4(packet[4..8])), 8)
    else if packet[3] == IPV6 then
      if |packet| < 4 + 16 + 2 then Err(PacketTooShort)
      else DecodePort(packet, IP(IPv6(packet[4..20])), 20)
    else if packet[3] == DOMAIN_NAME then
      if |packet| < 4 + 1 then Err(PacketTooShort)
      else
        var length: nat := packet[4];
        if |packet| < 5 + length + 2 then Err(PacketTooShort)
        else DecodePort(packet, Domain(packet[5..5 + length]), 5 + length)
    else Err(AddressTypeUnsupported)
  }

  function DecodePort(packet: seq<byte>, destination: Destination, offset: nat): Result<Datagram, Error>
    requires offset + 2 <= |packet|
  {
    Ok(Datagram(destination, BigEndian(packet[offset], packet[offset + 1]), packet[offset + 2..]))
  }

  method EncodeUDPDatagramToBuffer(writer: Buffer<byte>, sourceAddrPort: AddrPort, payload: seq<byte>)
    returns (r: Result<(), Error>)
    modifies writer
    ensures r.Ok? <==> sourceAddrPort.addr != Invalid
    ensures writer.contents == old(writer.contents) +
      if r.Ok? then DatagramBytes(Datagram(IP(sourceAddrPort.addr), sourceAddrPort.port, payload)) else []
  {
    if sourceAddrPort.addr == Invalid {
      return Err(SourceInvalid);
    }
    var written := WriteUDPDatagramSourceAddress(writer, sourceAddrPort.addr);
    if written.Err? {
      return written;
    }
    writer.Write([sourceAddrPort.port / 256, sourceAddrPort.port % 256]);
    writer.Write(payload);
    return Ok(());
  }

  method WriteUDPDatagramSourceAddress(writer: Buffer<byte>, address: Addr) returns (r: Result<(), Error>)
    modifies writer
    ensures r == if address == Invalid then Err(AddressTypeUnsupported) else Ok(())
    ensures writer.contents == old(writer.contents) +
      match address
      case Invalid => []
      case IPv4(b) => [0, 0, 0, IPV4] + b
      case IPv6(b) => [0, 0, 0, IPV6] + b
  {
    var addrType: byte, addressBytes: seq<byte>;
    match address {
      case IPv4(b) => addrType, addressBytes := IPV4, b;
      case IPv6(b) => addrType, addressBytes := IPV6, b;
      case Invalid => return Err(AddressTypeUnsupported);
    }
    writer.Write([0, 0, 0, addrType]);
    writer.Write(addressBytes);
    return Ok(());
  }

  // ---------------------------------------------------------------- the code: requests

  /** What decodeRequest makes of a stream, and what it leaves unread. */
  function ParseRequest(s: seq<byte>, version: byte): (Result<Request, Error>, seq<byte>) {
    if |s| < 4 then (Err(UnexpectedEnd), [])
    else if s[0] != version then (Err(VersionUnsupported), s[4..])
    else if s[2] != 0 then (Err(ReservedNotZero), s[4..])
    else if s[3] == IPV4 then
      if |s| < 8 then (Err(UnexpectedEnd), []) else ParsePort(s[8..], s[1], IP(IPv4(s[4..8])), IPV4)
    else if s[3] == IPV6 then
      if |s| < 20 then (Err(UnexpectedEnd), []) else ParsePort(s[20..], s[1], IP(IPv6(s[4..20])), IPV6)
    else if s[3] == DOMAIN_NAME then
      if |s| < 5 then (Err(UnexpectedEnd), [])
      else
        var length: nat := s[4];
        if |s| < 5 + length then (Err(UnexpectedEnd), [])
        else ParsePort(s[5 + length..], s[1], Domain(s[5..5 + length]), DOMAIN_NAME)
    else (Err(AddressTypeUnsupported), s[4..])
  }

  function ParsePort(
      s: seq<byte>, command: byte, d: Destination, addressType: byte): (Result<Request, Error>, seq<byte>) {
    if |s| < 2 then (Err(UnexpectedEnd), [])
    else (Ok(Request(command, d, BigEndian(s[0], s[1]), addressType)), s[2..])
  }

  /** An io.Reader over bytes that have arrived, with the end of the stream behind them. */
  class Reader {
    var remaining: seq<byte>

    constructor (bytes: seq<byte>)
      ensures remaining == bytes
    {
      remaining := bytes;
    }

    /** io.ReadFull on a buffer of n bytes; at the end of the stream the rest is consumed. */
    method ReadFull(n: nat) returns (r: Result<seq<byte>, Error>)
      modifies this
      ensures if n <= |old(remaining)| then r == Ok(old(remaining)[..n]) && remaining == old(remaining)[n..]
              else r == Err(UnexpectedEnd) && remaining == []
    {
      if n <= |remaining| {
        r := Ok(remaining[..n]);
        remaining := remaining[n..];
      } else {
        r := Err(UnexpectedEnd);
        remaining := [];
      }
    }
  }

  method DecodeRequest(reader: Reader, expectedVersion: byte) returns (r: Result<Request, Error>)
    modifies reader
    ensures (r, reader.remaining) == ParseRequest(old(reader.remaining), expectedVersion)
  {
    ghost var s := reader.remaining;
    var header := reader.ReadFull(4);
    if header.Err? {
      return Err(header.error);
    }
    if header.value[0] != expectedVersion {
      return Err(VersionUnsupported);
    } else if header.value[2] != 0 {
      return Err(ReservedNotZero);
    }
    var command, addressType := header.value[1], header.value[3];
    var destination: Destination;
    if addressType == IPV4 {
      var ip := reader.ReadFull(4);
      if ip.Err? {
        return Err(ip.error);
      }
      destination := IP(IPv4(ip.value));
      assert ip.value == s[4..8] && reader.remaining == s[8..];
    } else if addressType == IPV6 {
      var ip := reader.ReadFull(16);
      if ip.Err? {
        return Err(ip.error);
      }
      destination := IP(IPv6(ip.value));
      assert ip.value == s[4..20] && reader.remaining == s[20..];
    } else if addressType == DOMAIN_NAME {
      var length := reader.ReadFull(1);
      if length.Err? {
        return Err(length.error);
      }
      var name := reader.ReadFull(length.value[0]);
      if name.Err? {
        return Err(name.error);
      }
      destination := Domain(name.value);
      assert name.value == s[5..5 + |name.value|] && reader.remaining == s[5 + |name.value|..];
    } else {
      return Err(AddressTypeUnsupported);
    }
    var portBytes := reader.ReadFull(2);
    if portBytes.Err? {
      return Err(portBytes.error);
    }
    return Ok(Request(command, destination, BigEndian(portBytes.value[0], portBytes.value[1]), addressType));
  }

  predicate KnownType(addrType: byte) {
    addrType == IPV4 || addrType == DOMAIN_NAME || addrType == IPV6
  }

  method BindDataLength(addrType: byte, address: Host) returns (maxLength: nat)
    requires KnownType(addrType)
    ensures maxLength == if addrType == IPV4 then 7 else if addrType == IPV6 then 19 else 4 + |address.text|
  {
    maxLength := 1;
    if addrType == IPV4 {
      maxLength := maxLength + 4;
    } else if addrType == DOMAIN_NAME {
      maxLength := maxLength + 1;
      maxLength := maxLength + |address.text|;
    } else {
      maxLength := maxLength + 16;
    }
    maxLength := maxLength + 2;
  }

  /** The destination that a host denotes under an address type. */
  function Denoted(addrType: byte, address: Host): Result<Destination, Error>
    requires KnownType(addrType)
  {
    if addrType == DOMAIN_NAME then
      if |address.text| > 255 then Err(DomainNameTooLong) else Ok(Domain(address.text))
    else if address.ip.None? || address.ip.value == Invalid then Err(NotAnIP)
    else if addrType == IPV4 && !address.ip.value.IPv4? then Err(IPVersionUnexpected)
    else if addrType == IPV6 && !address.ip.value.IPv6? then Err(IPVersionUnexpected)
    else Ok(IP(address.ip.value))
  }

  /** encodeBindData; the capacity it reserves is exactly the length of what it appends. */
  method EncodeBindData(addrType: byte, address: Host, port: uint16) returns (r: Result<seq<byte>, Error>)
    requires KnownType(addrType)
    ensures var d := Denoted(addrType, address);
      if d.Ok? then Printable(d.value) && TypeOf(d.value) == addrType && r == Ok(AddressBytes(d.value, port))
      else r == Err(d.error)
  {
    var capacity := BindDataLength(addrType, address);
    var data: seq<byte> := [addrType];
    if addrType == IPV4 || addrType == IPV6 {
      if address.ip.None? || address.ip.value == Invalid {
        return Err(NotAnIP);
      }
      var ip := address.ip.value;
      if addrType == IPV4 && !ip.IPv4? {
        return Err(IPVersionUnexpected);
      } else if addrType == IPV6 && !ip.IPv6? {
        return Err(IPVersionUnexpected);
      }
      data := data + if ip.IPv4? then ip.b4 else ip.b16;
    } else {
      if |address.text| > 255 {
        return Err(DomainNameTooLong);
      }
      data := data + [|address.text|];
      data := data + address.text;
    }
    data := data + [port / 256, port % 256];
    assert |data| == capacity;
    assert addrType == DOMAIN_NAME ==> data == AddressBytes(Domain(address.text), port);
    return Ok(data);
  }

  // ---------------------------------------------------------------- the bytes on the wire

  /** The bytes of RFC 1928: address type 1 with 4 bytes, 4 with 16 bytes, or 3 with a length and a
      name, then the port with its high byte first. */
  lemma AddressOnTheWire(d: Destination, port: uint16)
    requires Printable(d)
    ensures d.IP? && d.addr.IPv4? ==> AddressBytes(d, port) == [1] + d.addr.b4 + [port / 256, port % 256]
    ensures d.IP? && d.addr.IPv6? ==> AddressBytes(d, port) == [4] + d.addr.b16 + [port / 256, port % 256]
    ensures d.Domain? ==> AddressBytes(d, port) == [3, |d.name|] + d.name + [port / 256, port % 256]
  {
  }

  /** Which packets the datagram decoder refuses, and why. */
  lemma DecodeErrors(packet: seq<byte>)
    ensures var r := DecodeUDPDatagram(packet);
      && (r == Err(ReservedNotZero) <==> |packet| >= 4 && (packet[0] != 0 || packet[1] != 0))
      && (r == Err(FragmentationUnsupported) <==> |packet| >= 4 && packet[0] == packet[1] == 0 && packet[2] != 0)
      && (r == Err(AddressTypeUnsupported) <==>
            |packet| >= 4 && packet[..3] == [0, 0, 0] && packet[3] != 1 && packet[3] != 3 && packet[3] != 4)
      && (r == Err(PacketTooShort) <==>
            || |packet| < 4
            || (packet[..3] == [0, 0, 0] &&
                 (  (packet[3] == 1 && |packet| < 10)
                 || (packet[3] == 4 && |packet| < 22)
                 || (packet[3] == 3 && (|packet| < 5 || |packet| - 7 < packet[4])))))
  {
    if |packet| >= 4 {
      assert packet[..3] == [packet[0], packet[1], packet[2]];
    }
  }

  // ---------------------------------------------------------------- main results

  /** Decoding an encoded datagram gives its source and payload back, within the overhead the
      router reserves in its pooled buffers. */
  lemma DatagramRoundTrip(source: AddrPort, payload: seq<byte>)
    requires source.addr != Invalid
    ensures var d := Datagram(IP(source.addr), source.port, payload);
      DecodeUDPDatagram(DatagramBytes(d)) == Ok(d) && |DatagramBytes(d)| <= |payload| + 3 + 1 + 16 + 2
  {
    DecodePrinted(Datagram(IP(source.addr), source.port, payload));
  }

  lemma Glue(s: seq<byte>, k: nat, head: seq<byte>, address: seq<byte>, port: uint16)
    requires k + 2 <= |s| && s[..k] == head + address && port == BigEndian(s[k], s[k + 1])
    ensures s == head + (address + PortBytes(port)) + s[k + 2..]
  {
    assert s[k..k + 2] == PortBytes(port);
    assert s == s[..k] + s[k..k + 2] + s[k + 2..];
  }

  lemma DecodePrinted(d: Datagram)
    requires Printable(d.destination)
    ensures DecodeUDPDatagram(DatagramBytes(d)) == Ok(d)
  {
    hide DecodeUDPDatagram, DatagramBytes, Printable;
    match d.destination
    case IP(_) => DecodePrintedAddress(d);
    case Domain(_) => DecodePrintedDomain(d);
  }

  lemma DecodePrintedAddress(d: Datagram)
    requires d.destination.IP? && Printable(d.destination)
    ensures DecodeUDPDatagram(DatagramBytes(d)) == Ok(d)
  {
    var p := DatagramBytes(d);
    assert p[3 + |AddressBytes(d.destination, d.port)|..] == d.payload;
    match d.destination
    case IP(IPv4(b)) => assert p[4..8] == b;
    case IP(IPv6(b)) => assert p[4..20] == b;
  }

  lemma DecodePrintedDomain(d: Datagram)
    requires d.destination.Domain? && Printable(d.destination)
    ensures DecodeUDPDatagram(DatagramBytes(d)) == Ok(d)
  {
    var p, name := DatagramBytes(d), d.destination.name;
    assert p[3 + |AddressBytes(d.destination, d.port)|..] == d.payload;
    assert p[3] == DOMAIN_NAME && p[4] == |name|;
    assert p[5..5 + |name|] == name;
  }

  lemma DecodedBytes(packet: seq<byte>)
    requires DecodeUDPDatagram(packet).Ok?
    ensures var d := DecodeUDPDatagram(packet).value; Printable(d.destination) && packet == DatagramBytes(d)
  {
    var d := DecodeUDPDatagram(packet).value;
    var k := |packet| - |d.payload| - 2;
    var head := packet[..3];
    assert head == [0, 0, 0];
    if packet[3] == IPV4 {
      Glue(packet, k, head, [IPV4] + packet[4..8], d.port);
    } else if packet[3] == IPV6 {
      Glue(packet, k, head, [IPV6] + packet[4..20], d.port);
    } else {
      Glue(packet, k, head, [DOMAIN_NAME, packet[4]] + packet[5..k], d.port);
    }
  }

  /** The decoder accepts exactly the printed datagrams, each with one meaning. */
  lemma DecodedIsPrinted(packet: seq<byte>, d: Datagram)
    ensures DecodeUDPDatagram(packet) == Ok(d) <==> Printable(d.destination) && packet == DatagramBytes(d)
  {
    hide DecodeUDPDatagram, DatagramBytes;
    if DecodeUDPDatagram(packet) == Ok(d) {
      DecodedBytes(packet);
    }
    if Printable(d.destination) {
      DecodePrinted(d);
    }
  }

  /** decodeRequest on a header followed by what encodeBindData prints gives command, address
      type, address and port back, and leaves exactly the bytes behind. */
  lemma RequestRoundTrip(version: byte, command: byte, addrType: byte, address: Host, port: uint16, rest: seq<byte>)
    requires KnownType(addrType) && Denoted(addrType, address).Ok?
    ensures var d := Denoted(addrType, address).value;
      && Printable(d)
      && ParseRequest([version, command, 0] + AddressBytes(d, port) + rest, version)
         == (Ok(Request(command, d, port, addrType)), rest)
  {
    ParsePrinted(version, Request(command, Denoted(addrType, address).value, port, addrType), rest);
  }

  lemma ParsePrinted(version: byte, r: Request, rest: seq<byte>)
    requires Printable(r.destination) && TypeOf(r.destination) == r.addressType
    ensures ParseRequest(RequestBytes(version, r) + rest, version) == (Ok(r), rest)
  {
    hide ParseRequest, ParsePort, PortBytes, RequestBytes;
    ParsePrintedPort(r.port, r.command, r.destination, r.addressType, rest);
    match r.destination
    case IP(IPv4(_)) => ParsePrintedAddress(version, r, rest);
    case IP(IPv6(_)) => ParsePrintedAddress(version, r, rest);
    case Domain(_) => ParsePrintedDomain(version, r, rest);
  }

  lemma ParsePrintedAddress(version: byte, r: Request, rest: seq<byte>)
    requires r.destination.IP? && Printable(r.destination) && TypeOf(r.destination) == r.addressType
    ensures ParseRequest(RequestBytes(version, r) + rest, version)
         == ParsePort(PortBytes(r.port) + rest, r.command, r.destination, r.addressType)
  {
    hide ParsePort;
    var s := RequestBytes(version, r) + rest;
    match r.destination
    case IP(IPv4(b)) => assert s[4..8] == b && s[8..] == PortBytes(r.port) + rest;
    case IP(IPv6(b)) => assert s[4..20] == b && s[20..] == PortBytes(r.port) + rest;
  }

  lemma ParsePrintedDomain(version: byte, r: Request, rest: seq<byte>)
    requires r.destination.Domain? && Printable(r.destination) && r.addressType == DOMAIN_NAME
    ensures ParseRequest(RequestBytes(version, r) + rest, version)
         == ParsePort(PortBytes(r.port) + rest, r.command, r.destination, r.addressType)
  {
    hide ParsePort;
    var s, name := RequestBytes(version, r) + rest, r.destination.name;
    assert s[3] == DOMAIN_NAME && s[4] == |name|;
    assert s[5..5 + |name|] == name && s[5 + |name|..] == PortBytes(r.port) + rest;
  }

  lemma ParsePrintedPort(port: uint16, command: byte, d: Destination, addressType: byte, rest: seq<byte>)
    ensures ParsePort(PortBytes(port) + rest, command, d, addressType)
         == (Ok(Request(command, d, port, addressType)), rest)
  {
    assert (PortBytes(port) + rest)[2..] == rest;
  }

  /** A request is only ever understood as one that prints to the bytes it consumed. */
  lemma ParsedIsPrinted(version: byte, s: seq<byte>)
    requires ParseRequest(s, version).0.Ok?
    ensures var (r, rest) := ParseRequest(s, version);
      Printable(r.value.destination) && TypeOf(r.value.destination) == r.value.addressType
      && s == RequestBytes(version, r.value) + rest
  {
    var (r, rest) := ParseRequest(s, version);
    var k := |s| - |rest| - 2;
    var head := [version, r.value.command, 0];
    match r.value.destination
    case IP(IPv4(b)) => Glue(s, k, head, [IPV4] + b, r.value.port);
    case IP(IPv6(b)) => Glue(s, k, head, [IPV6] + b, r.value.port);
    case Domain(name) => Glue(s, k, head, [DOMAIN_NAME, |name|] + name, r.value.port);
  }
}
