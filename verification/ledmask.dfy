/** The per-device state (`struct usb_xylo_led`) and the ledmask register.

    The `ledmask` field is an `int` in the driver, as here; every write
    goes through an `unsigned char`, so it stays within one byte (`Valid`).
    The device handle is implicit: a `Session` is one device's state plus
    the control and bulk messages the driver has sent it so far, in order.
 */
module Ledmask {
  import opened Transport
  import HexText

  /** The bulk OUT endpoint the mask is written to, and its timeout `2 * HZ`. */
  const MaskEndpoint: nat := 2
  const MaskTimeout: Timeout := HzTimes(2)

  datatype Session = Session(ledmask: int, trace: seq<Transfer>)

  ghost predicate Valid(s: Session)
  {
    0 <= s.ledmask < 256
  }

  /** The state probe allocates: zeroed, mask 0, nothing sent yet. */
  const Fresh: Session := Session(0, [])

  /** Sends `t` on the session's device; the reply comes from `link`. */
  function Issue(s: Session, link: Link, t: Transfer): (Session, int)
  {
    (s.(trace := s.trace + [t]), link(|s.trace|))
  }

  /** The bulk write that carries mask byte `m`. */
  function MaskWrite(m: byte): Transfer
  {
    Bulk(MaskEndpoint, [m], MaskTimeout)
  }

  /** The bulk writes carrying `ms`, in order. */
  function MaskWrites(ms: seq<byte>): (ts: seq<Transfer>)
    ensures |ts| == |ms|
    ensures forall i :: 0 <= i < |ms| ==> ts[i] == MaskWrite(ms[i])
  {
    if ms == [] then [] else [MaskWrite(ms[0])] + MaskWrites(ms[1..])
  }

  lemma MaskWritesAppend(a: seq<byte>, b: seq<byte>)
    ensures MaskWrites(a + b) == MaskWrites(a) + MaskWrites(b)
  {
  }

  /** The first byte in memory of an `int` on a little-endian machine:
      the same bits `unsigned char` conversion keeps. */
  function LowByte(x: int): (b: byte)
    ensures 0 <= x < 256 ==> b as int == x
  {
    ToUChar(x)
  }

  /** C's conversion of an unbounded value to a 32-bit `int` (wrap-around). */
  function ToInt32(v: int): (w: int)
    ensures -0x8000_0000 <= w < 0x8000_0000
    ensures (w - v) % 0x1_0000_0000 == 0
  {
    var u := v % 0x1_0000_0000;
    if u < 0x8000_0000 then u else u - 0x1_0000_0000
  }

  /** C's conversion of an `int` to `unsigned char`: the byte congruent to
      `x` modulo 256. */
  function ToUChar(x: int): (b: byte)
    ensures (b as int - x) % 256 == 0
  {
    (x % 256) as byte
  }

  /** Wrapping to 32 bits and then truncating to 8 keeps the same byte as
      truncating at once. */
  lemma ToUCharOfInt32(v: int)
    ensures ToUChar(ToInt32(v)) as int == v % 256
  {
    var w := ToInt32(v);
    var b := ToUChar(w) as int;
    var q1 := (b - w) / 256;
    var q2 := (w - v) / 0x1_0000_0000;
    assert b - w == q1 * 256;
    assert w - v == q2 * 0x1_0000_0000;
    assert v == (v / 256) * 256 + v % 256;
    assert b - v % 256 == 256 * (q1 + q2 * 0x100_0000 + v / 256);
    SameByte(b, v % 256, q1 + q2 * 0x100_0000 + v / 256);
  }

  /** Two bytes that differ by a multiple of 256 are equal. */
  lemma SameByte(a: int, b: int, k: int)
    requires 0 <= a < 256 && 0 <= b < 256 && a - b == 256 * k
    ensures a == b
  {
  }

  /** `xylo_led_send_bulk_ledmask`: one 1-byte bulk write of the mirror,
      whose reply is returned as is. */
  function SendLedmask(s: Session, link: Link): (r: (Session, int))
    ensures r.0.ledmask == s.ledmask
    ensures Valid(s) ==> r.0.trace == s.trace + [MaskWrite(s.ledmask as byte)]
    ensures r.1 == link(|s.trace|)
  {
    Issue(s, link, Bulk(MaskEndpoint, [LowByte(s.ledmask)], MaskTimeout))
  }

  /** `xylo_led_send_bulk_ledmask_char`: the mirror takes `mask` first, then
      it is sent; a failed send does not roll the mirror back. */
  function SetMaskChar(s: Session, link: Link, mask: byte): (r: (Session, int))
    ensures r.0.ledmask == mask as int && Valid(r.0)
    ensures r.0.trace == s.trace + [MaskWrite(mask)]
    ensures r.1 == link(|s.trace|)
  {
    SendLedmask(s.(ledmask := mask as int), link)
  }

  /** The mirror after a mask write depends on the mask alone, never on
      what the transport answered. */
  lemma NoRollback(s: Session, good: Link, bad: Link, mask: byte)
    requires bad(|s.trace|) < 0 <= good(|s.trace|)
    ensures SetMaskChar(s, bad, mask).0 == SetMaskChar(s, good, mask).0
    ensures SetMaskChar(s, bad, mask).1 == bad(|s.trace|)
  {
  }

  /** `xylo_led_send_bulk_ledmask_buf`: `sscanf` into an `int` that starts at
      0, truncation to `unsigned char`, then the same send. */
  function SetMaskText(s: Session, link: Link, text: string): (r: (Session, int))
    ensures r.0.ledmask == HexText.ScanHex(text) % 256 && Valid(r.0)
    ensures r.0.trace == s.trace + [MaskWrite((HexText.ScanHex(text) % 256) as byte)]
    ensures r.1 == link(|s.trace|)
  {
    var mask := ToInt32(HexText.ScanHex(text));
    ToUCharOfInt32(HexText.ScanHex(text));
    SendLedmask(s.(ledmask := ToUChar(mask) as int), link)
  }
}
