/** The USB transport as the driver sees it.

    Every transfer the driver issues itself through `usb_control_msg` or
    `usb_bulk_msg` is recorded as a `Transfer` value; the transport's answer (bytes transferred, or a
    negative error code) is supplied from outside by a `Link`. Nothing about
    what a device does with a transfer is modelled here.
 */
module Transport {

  /** An unsigned 8-bit value. */
  newtype byte = b: int | 0 <= b < 256

  datatype Option<+T> = None | Some(value: T)

  /** The transport's reply to the n-th transfer of a session: the role
      `usb_control_msg` and `usb_bulk_msg` play in the driver. */
  type Link = nat -> int

  /** A transfer timeout as the driver passes it: a number of milliseconds,
      or a multiple of the kernel's tick rate HZ (a build-time constant). */
  datatype Timeout = Millis(ms: nat) | HzTimes(factor: nat)

  datatype Transfer =
    | Control(endpoint: nat, request: byte, requestType: byte, value: nat, index: nat,
              data: seq<byte>, timeout: Timeout)
    | Bulk(endpoint: nat, data: seq<byte>, timeout: Timeout)

  /* The three fields of bmRequestType, section 9.3.1 of the USB 2.0
     specification: bit 7 is the direction, bits 6..5 the request kind and
     bits 4..0 the recipient (values 4..31 are reserved). Written here with
     arithmetic on the byte's value. */

  datatype Direction = HostToDevice | DeviceToHost
  datatype RequestKind = Standard | Class | Vendor | ReservedKind
  datatype Recipient = Device | Interface | Endpoint | Other

  function DirectionBits(d: Direction): byte
  {
    match d
    case HostToDevice => 0
    case DeviceToHost => 1
  }

  function KindBits(k: RequestKind): byte
  {
    match k
    case Standard => 0
    case Class => 1
    case Vendor => 2
    case ReservedKind => 3
  }

  function RecipientBits(r: Recipient): byte
  {
    match r
    case Device => 0
    case Interface => 1
    case Endpoint => 2
    case Other => 3
  }

  function EncodeRequestType(d: Direction, k: RequestKind, r: Recipient): (b: byte)
    ensures (b < 0x80) <==> d == HostToDevice
    ensures (b / 32) % 4 == KindBits(k)
    ensures b % 32 == RecipientBits(r)
  {
    DirectionBits(d) * 0x80 + KindBits(k) * 0x20 + RecipientBits(r)
  }

  /** Reads the three fields back; `None` for a reserved recipient code. */
  function DecodeRequestType(b: byte): (o: Option<(Direction, RequestKind, Recipient)>)
    ensures o.None? <==> b % 32 > 3
  {
    var d := if b < 0x80 then HostToDevice else DeviceToHost;
    var kb := (b / 32) % 4;
    var k := if kb == 0 then Standard else if kb == 1 then Class else if kb == 2 then Vendor else ReservedKind;
    var rb := b % 32;
    if rb == 0 then Some((d, k, Device))
    else if rb == 1 then Some((d, k, Interface))
    else if rb == 2 then Some((d, k, Endpoint))
    else if rb == 3 then Some((d, k, Other))
    else None
  }

  lemma RequestTypeRoundTrip(d: Direction, k: RequestKind, r: Recipient)
    ensures DecodeRequestType(EncodeRequestType(d, k, r)) == Some((d, k, r))
  {
  }

  /** Every request type with a defined recipient code is the encoding
      of the fields it decodes to, so the two are inverse bijections. */
  lemma DecodeEncode(b: byte)
    requires b % 32 <= 3
    ensures DecodeRequestType(b).Some?
    ensures EncodeRequestType(DecodeRequestType(b).value.0, DecodeRequestType(b).value.1, DecodeRequestType(b).value.2) == b
  {
  }

  /** The request type of every control transfer the driver issues:
      host-to-device, vendor request, device recipient. */
  const VendorOut: byte := EncodeRequestType(HostToDevice, Vendor, Device)

  lemma VendorOutIs0x40()
    ensures VendorOut == 0x40
    ensures DecodeRequestType(0x40) == Some((HostToDevice, Vendor, Device))
  {
  }
}
