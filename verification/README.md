# xylo_led: the device-control protocol of a USB LED card driver

`xylo_led.c` is a Linux kernel driver for a Xylo board (an FX2-based USB
card whose LEDs are driven by a one-byte mask). This project models its device-control protocol in
Dafny and proves properties of that model.

The protocol has five parts:

- bring-up (`xylo_led_init_xylo_card`): thirteen vendor control writes that
  hold the card's 8051 CPU in reset, load a 171-byte program into code
  memory, and release the CPU;
- the ledmask register (`xylo_led_send_bulk_ledmask`, `_char`, `_buf`): a
  one-byte mirror in the driver's state, sent as a one-byte bulk write to
  OUT endpoint 2;
- the hex-text setter: `sscanf(buf, "%x", &mask)` followed by truncation to
  `unsigned char`;
- the animation (`xylo_led_animation`): twelve mask writes played once the
  card is up;
- the `ledmask` sysfs attribute (`xylo_led_sys_read`, `xylo_led_sys_write`)
  and the order of work in `xylo_led_probe`.

The transport is abstract. A `Session` is one device's `ledmask` plus the
trace of the driver's own `usb_control_msg` and `usb_bulk_msg` transfers to
it so far, in order. A `Link` supplies the
integer reply to the n-th transfer of that session, in place of
`usb_control_msg` and `usb_bulk_msg`. Every operation is a pure function
from (session, link, input) to (new session, result). The two loops of the
hex scanner and the two loops of the animation are also written as methods,
which are proved equal to those functions.

Files:

| file | module | contents |
|---|---|---|
| `transport.dfy` | `Transport` | bytes, the `Transfer` record, the `Link`, bmRequestType under section 9.3.1 of the USB 2.0 specification |
| `hex_text.dfy` | `HexText` | `%x` printing (`Hex`), the `%x` scanner (`ScanHex` and the method `Scan`), and their round trips |
| `ledmask.dfy` | `Ledmask` | the session, the mask send, the char and text setters, and C's integer conversions |
| `animation.dfy` | `Animation` | the animation as a function and as the driver's two loops |
| `bring_up.dfy` | `BringUp` | the packet table, the thirteen writes, and the memory image they load |
| `device.dfy` | `Device` | the attribute's read and write handlers, a request stream, and probe |

## Model

| member | source | states |
|---|---|---|
| Transport.EncodeRequestType | xylo_led.c:177-178 | the direction is bit 7, the request kind is bits 6..5 and the recipient is bits 4..0 of bmRequestType |
| Transport.DecodeRequestType | xylo_led.c:177-178 | a request type is rejected exactly when its recipient code is reserved (4..31) |
| Transport.RequestTypeRoundTrip | xylo_led.c:177-178 | decoding an encoded request type gives back its three fields |
| Transport.DecodeEncode | xylo_led.c:177-178 | every request type with a defined recipient code decodes, and encoding its fields gives it back |
| Transport.VendorOutIs0x40 | xylo_led.c:177-178 | the driver's 0x40 is host-to-device, vendor request, device recipient, and nothing else |
| HexText.Hex | xylo_led.c:337 | `%x` prints lower-case hex digits, never empty, with no leading zero, and one digit exactly for values below 16 |
| HexText.ValueOfHex | xylo_led.c:337 | the digits `%x` prints denote the printed number |
| HexText.HexRun | xylo_led.c:102 | the scanner's digit run is a prefix of the input, all hex digits, and followed by a non-digit or the end |
| HexText.HexRunUnique | xylo_led.c:102 | any maximal all-digit prefix is the one the scanner takes |
| HexText.SkipSpace | xylo_led.c:102 | the scanner drops exactly the leading white space (the kernel's `isspace`: 9..13, space and 0xA0): what it drops is all space, and what remains does not start with space |
| HexText.ScanHex | xylo_led.c:102 | `sscanf(buf, "%x", &mask)` reads nothing (the mask stays 0) from an empty text or one whose first character is neither white space nor a hex digit, a '-' included; a text starting with a hex digit and not with "0x" or "0X" (so "05" and "00ff" too) is read from its first character as its longest digit run |
| HexText.ScanSkipsSpace | xylo_led.c:102 | leading white space does not change the value read |
| HexText.NoDigitsScansZero | xylo_led.c:97-102 | text with no hex digit leaves `mask` at its initial 0 |
| HexText.ScanPrefixed | xylo_led.c:102 | "0x" or "0X", a digit run, then a non-digit scans to the run's value |
| HexText.ScanWhole | xylo_led.c:102 | a text of hex digits alone, leading zeros included, scans to its value |
| HexText.ScanPrinted | xylo_led.c:102 | scanning "0x" followed by the `%x` text of n and a non-digit gives n |
| HexText.ScanBare | xylo_led.c:102 | scanning the `%x` text of n without the prefix gives n |
| HexText.SkipSpaces | xylo_led.c:102 | the loop that skips white space stops where the scanner's definition says it does |
| HexText.Accumulate | xylo_led.c:102 | the digit-accumulating loop computes the value of the longest digit run |
| HexText.Scan | xylo_led.c:102 | the one-pass scanner (skip space, drop prefix, accumulate) agrees with `ScanHex` on every text |
| Ledmask.LowByte | xylo_led.c:54-55 | the one byte sent from the `int` is the mask itself whenever the mask is within 0..255 |
| Ledmask.ToInt32 | xylo_led.c:97-102 | storing into a 32-bit `int` keeps the value modulo 2^32, within the signed range |
| Ledmask.ToUChar | xylo_led.c:107 | conversion to `unsigned char` gives the byte congruent to the `int` modulo 256 |
| Ledmask.ToUCharOfInt32 | xylo_led.c:102-107 | wrapping to 32 bits and then truncating to 8 gives the scanned value modulo 256, the same byte as truncating at once |
| Ledmask.SendLedmask | xylo_led.c:45-58 | one 1-byte bulk write of the mask to endpoint 2 with timeout 2*HZ; the mask is unchanged and the reply is returned as is |
| Ledmask.SetMaskChar | xylo_led.c:69-82 | the mask becomes `mask` (so stays within a byte); exactly one bulk write carrying it is appended; the reply is returned unchanged |
| Ledmask.NoRollback | xylo_led.c:74-81 | a failed send leaves the same session as a successful one, with the new mask, and the failure is returned |
| Ledmask.SetMaskText | xylo_led.c:93-123 | the mask becomes the scanned value modulo 256; exactly one bulk write of that byte is appended; the bulk reply is returned |
| Animation.FramesAre | xylo_led.c:135-145 | the two loops produce 0,1,…,7 and then 0, 0xff, 0, 0xff |
| Animation.WriteAll | xylo_led.c:135-145 | writing a list of masks appends one bulk write per mask, in order, and leaves the last mask in the mirror |
| Animation.Animate | xylo_led.c:131-146 | the animation appends the twelve writes 0..7, 0, 0xff, 0, 0xff and leaves the mask at 0xff |
| Animation.AnimationIgnoresReplies | xylo_led.c:131-146 | what the animation sends and leaves does not depend on the replies |
| Animation.RunAnimation | xylo_led.c:131-146 | the driver's `while` and `for` loops over `char k` produce exactly the animation |
| BringUp.Replay | xylo_led.c:176-221 | every write is sent whatever the earlier replies; the mask is untouched; the result is the reply to the last write |
| BringUp.InitCard | xylo_led.c:153-221 | bring-up appends the thirteen scripted control writes and returns the reply to the thirteenth |
| BringUp.InitCardTransfers | xylo_led.c:176-219 | the thirteen transfers are all 0xa0/0x40 on endpoint 0 with wIndex 0 and 1000 ms; first 0x01 to 0xe600, then `packets[i]` to 0x10*i (16 bytes, 11 for the last), last 0x00 to 0xe600 |
| BringUp.InitCardNeverStops | xylo_led.c:176-221 | the transfers sent never depend on the replies, and neither does the result beyond the release write's reply |
| BringUp.SetupsAreControl | xylo_led.c:176-218 | bring-up issues control transfers only |
| BringUp.ContiguousLoadsImage | xylo_led.c:180-211 | back-to-back writes from a base load their concatenated bytes at that base and touch no other address |
| BringUp.ContiguousDisjoint | xylo_led.c:180-211 | back-to-back writes never overlap |
| BringUp.ChunkLayout | xylo_led.c:160-211 | the eleven chunks are contiguous from 0 and pairwise disjoint; they load 171 bytes, at exactly the addresses 0x0000..0x00aa |
| Device.SysRead | xylo_led.c:337 | a read shows "0x", the mask's 32 bits in lower-case hex without leading zeros, and a newline; for a mask within a byte that is one or two digits that denote the mask |
| Device.SysWrite | xylo_led.c:355-358 | a write sets the mask from the text and sends it; it returns `count` if and only if the bulk reply is not negative, and otherwise that reply |
| Device.ReadScans | xylo_led.c:337 | the text a read shows scans back to the mask |
| Device.ReadWriteRoundTrip | xylo_led.c:337-358 | writing back what a read showed, to any session, gives the mask that was read |
| Device.Probe | xylo_led.c:388-435 | failed allocation gives -ENOMEM; a failed `device_create_file` or `usb_set_interface` gives that call's own error and a fresh session with no driver transfer; otherwise bring-up runs, and the animation runs only on a non-negative bring-up result, after which probe returns 0; the mask stays within a byte throughout |
| Device.ProbeStopsOnFailure | xylo_led.c:423-428 | a negative bring-up result means only control transfers were sent |
| Device.ProbeAnimatesOnSuccess | xylo_led.c:423-435 | otherwise a bulk mask write follows the thirteen control transfers |
| Device.ProbeAnimatesIff | xylo_led.c:423-435 | probe sends a bulk write if and only if bring-up's result is not negative |
| Device.EarlierFailureMasked | xylo_led.c:176-221 | a failure of any of the first twelve bring-up writes followed by a good release still gives a probe result of 0 and all 25 transfers, and the same outcome as if that write had succeeded |
| Device.Serve | xylo_led.c:318-366 | a stream of attribute requests gets one response each; the mask stays within a byte; only writes send, one transfer each, and earlier transfers are kept |
| Device.ServeMask | xylo_led.c:318-366 | after a stream of requests the mask is the byte the last write scanned, or the starting mask when no write came |
| Device.AnswersPrefix | xylo_led.c:318-366 | the response at any position is that request handled on the session the requests before it left |
| Device.ReadSeesLastWrite | xylo_led.c:318-366 | every read reports "0x", the hex of the byte the last earlier write scanned, and a newline; with no earlier write it reports the starting mask |
| Device.WriteThenRead | xylo_led.c:337-358 | a read after a write shows the byte that the write stored |

## Left out

- Module and driver registration (`usb_register`, the id table, `module_init`/`module_exit`): wiring only, with no protocol behaviour.
- The character-device file operations: `read` and `write` are stubs returning 0, and `open` is a lookup.
- The outcomes of `kmalloc`, `device_create_file` and `usb_set_interface` are passed to `Device.Probe` as a `Plumbing` value.
- `usb_set_interface(udev, 0, 1)` in probe (xylo_led.c:414) sends a standard SET_INTERFACE control request to the card before bring-up; the trace leaves it out, so `link(0)` answers the second transfer probe causes, the first hold write.
- `memset`, `usb_get_dev` and `usb_set_intfdata` in probe: resource plumbing that cannot fail and sends nothing.
- Disconnect (`usb_deregister_dev`, `device_remove_file`, `usb_set_intfdata`, `kfree`, `dev_info`): resource plumbing. It never calls `usb_put_dev`, so the reference taken by `usb_get_dev` in probe is not released; the model has no reference counts.
- Probe's error paths after the allocation do not free the memory or remove the attribute file. The leak is not modelled, because the model has no heap.
- `msleep(50)` in the animation: a delay with no logical effect.
- `printk` and `dev_err`: logging only.
- Real transport semantics (byte counts, timeouts, what `usb_control_msg` returns on success): every reply is an opaque `int` from the `Link`. The bulk timeout is recorded as `2 * HZ` exactly as passed, although `usb_bulk_msg` takes milliseconds.
- Ledmask.LowByte: sending `&dev->ledmask` (an `int`) as one byte is the mask's low byte only on a little-endian machine; the model assumes that.
- Ledmask.SendLedmask: the trace is stated only for a mask within 0..255. Every operation keeps the mask there, and beyond it the byte sent depends on the machine's byte order.
- HexText.ScanHex: the kernel's overflow behaviour is not modelled. The value read is unbounded and then wrapped to 32 bits (`Ledmask.ToInt32`) before truncation, which gives the same byte.
- HexText.ScanHex: the attribute's text is a sequence of bytes; the model reads each `char` as one byte, Latin-1, so characters above 0xFF have no counterpart in the driver.
- The driver takes no lock, so attribute requests can interleave with each other and with probe's transfers (the attribute exists from xylo_led.c:405, before bring-up and the animation, and two writers can interleave between the store at :107 and the send at :113); the model serves requests one at a time.

## Notes on the code

- The animation's second loop starts at `k == 0`, so it writes 0, 0xff, 0, 0xff after 0..7 (xylo_led.c:141-143).
- Bring-up sends thirteen control transfers: hold, eleven chunks, release (xylo_led.c:177-218).
- Bring-up returns the reply to the release write (xylo_led.c:217-221). An earlier failure is lost whenever the release succeeds (`Device.EarlierFailureMasked`).
- Probe returns bring-up's negative result at once, before the animation (xylo_led.c:423-428).
- A text with no hex digit sets the mask to 0, and the 0 is sent (xylo_led.c:97-113).
- The mirror is updated before the send and kept when the send fails, so it can hold a value the card never acknowledged (`Ledmask.NoRollback`).
- The attribute handlers check no state before acting: they act on whatever session they are given (xylo_led.c:351-355).
