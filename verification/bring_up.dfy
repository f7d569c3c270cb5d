/** `xylo_led_init_xylo_card`: loading the card's microcontroller.

    The driver holds the CPU in reset by writing 1 to its control register
    at 0xe600, writes eleven chunks of a fixed program image to code memory
    from address 0, and writes 0 to 0xe600 to let the program run. Every
    step is the vendor request 0xa0, host-to-device, with the target address
    in wValue, wIndex 0 and a 1000 ms timeout. A failed step is only logged:
    the next one is sent anyway, and only the last step's reply is returned.
 */
module BringUp {
  import opened Transport
  import opened Ledmask

  /** The vendor request that writes to the microcontroller's memory. */
  const LoadRequest: byte := 0xa0
  /** The CPU control register: 1 holds the CPU in reset, 0 releases it. */
  const CpuControl: nat := 0xe600
  const LoadTimeout: Timeout := Millis(1000)

  /** One row of the `char packets[11][16]` table: sixteen bytes. */
  type Row = r: seq<byte> | |r| == 16
    witness [0, 0, 0, 0, 0, 0, 0, 0, 0, 0, 0, 0, 0, 0, 0, 0]

  const Packet0: Row := [0x75, 0x81, 0x5f, 0x90, 0xe6, 0x00, 0x74, 0x0a, 0xf0, 0x90, 0xe6, 0x7a, 0x74, 0x01, 0xf0, 0x11]
  const Packet1: Row := [0x9b, 0x90, 0xe6, 0x18, 0x74, 0x10, 0xf0, 0x11, 0x9b, 0x90, 0xe6, 0x19, 0x74, 0x10, 0xf0, 0x11]
  const Packet2: Row := [0x9b, 0x90, 0xe6, 0x1a, 0x74, 0x0c, 0xf0, 0x11, 0x9b, 0x90, 0xe6, 0x1b, 0x74, 0x0c, 0xf0, 0x11]
  const Packet3: Row := [0x9b, 0x90, 0xe6, 0x02, 0x74, 0x98, 0xf0, 0x11, 0x9b, 0x90, 0xe6, 0x03, 0x74, 0xfe, 0xf0, 0x90]
  const Packet4: Row := [0xe6, 0x70, 0x74, 0x80, 0xf0, 0x11, 0x9b, 0x90, 0xe6, 0x01, 0x74, 0x03, 0xf0, 0x90, 0xe6, 0x8d]
  const Packet5: Row := [0xf0, 0xe5, 0xba, 0x20, 0xe1, 0xfb, 0x90, 0xe6, 0x8d, 0xe0, 0x60, 0x25, 0x90, 0xe7, 0x80, 0xb4]
  const Packet6: Row := [0x04, 0x27, 0xe0, 0xf5, 0xb2, 0xa3, 0xe0, 0xf5, 0xb5, 0xa3, 0xe0, 0xf5, 0xb0, 0xa3, 0xe0, 0x90]
  const Packet7: Row := [0xe6, 0x09, 0xf0, 0x90, 0xe7, 0xc0, 0xe5, 0xb0, 0xf0, 0x90, 0xe6, 0x8f, 0x74, 0x01, 0xf0, 0x80]
  const Packet8: Row := [0xcc, 0x90, 0xe7, 0xc0, 0xe5, 0xaa, 0xf0, 0x80, 0xf0, 0xff, 0xe0, 0xa3, 0x7e, 0x08, 0x13, 0x92]
  const Packet9: Row := [0x80, 0xc2, 0x81, 0xd2, 0x81, 0xde, 0xf7, 0xdf, 0xf1, 0x80, 0xb2, 0x00, 0x00, 0x00, 0x00, 0x00]
  const Packet10: Row := [0x00, 0x00, 0x00, 0x00, 0x00, 0x00, 0x00, 0x00, 0x00, 0x00, 0x22, 0x00, 0x00, 0x00, 0x00, 0x00]

  /** The table as the C array holds it: the last row has eleven
      initialisers, so C fills its other five bytes with 0. */
  const Packets: seq<Row> :=
    [Packet0, Packet1, Packet2, Packet3, Packet4, Packet5, Packet6, Packet7, Packet8, Packet9, Packet10]

  /** One memory write: `data` goes to the device from address `address`. */
  datatype ControlWrite = ControlWrite(address: nat, data: seq<byte>)

  /** wLength of chunk `i`: 0x10, except 0x0b for the last one. */
  function ChunkLength(i: nat): nat
  {
    if i == 10 then 0x0b else 0x10
  }

  function Chunk(i: nat): ControlWrite
    requires i < 11
  {
    ControlWrite(0x10 * i, Packets[i][..ChunkLength(i)])
  }

  const Chunks: seq<ControlWrite> :=
    [Chunk(0), Chunk(1), Chunk(2), Chunk(3), Chunk(4), Chunk(5), Chunk(6), Chunk(7), Chunk(8), Chunk(9), Chunk(10)]

  const HoldCpu: ControlWrite := ControlWrite(CpuControl, [0x01])
  const ReleaseCpu: ControlWrite := ControlWrite(CpuControl, [0x00])

  /** The thirteen writes in the order the driver sends them. */
  function Script(): seq<ControlWrite>
  {
    [HoldCpu] + Chunks + [ReleaseCpu]
  }

  /** The control transfer that performs `w`. */
  function Setup(w: ControlWrite): Transfer
  {
    Control(0, LoadRequest, VendorOut, w.address, 0, w.data, LoadTimeout)
  }

  function Setups(ws: seq<ControlWrite>): (ts: seq<Transfer>)
    ensures |ts| == |ws|
    ensures forall i :: 0 <= i < |ws| ==> ts[i] == Setup(ws[i])
  {
    if ws == [] then [] else [Setup(ws[0])] + Setups(ws[1..])
  }

  /** Memory writes go out as control transfers only. */
  lemma SetupsAreControl(ws: seq<ControlWrite>)
    ensures forall t :: t in Setups(ws) ==> t.Control?
  {
    forall t | t in Setups(ws)
      ensures t.Control?
    {
      var i :| 0 <= i < |ws| && Setups(ws)[i] == t;
    }
  }

  /** Sends every write of `ws`, keeping only the latest reply in `ret`
      (`ret` itself when there is none), as the chain of `if ((ret = ...))`
      statements does. */
  function Replay(s: Session, link: Link, ws: seq<ControlWrite>, ret: int): (r: (Session, int))
    ensures r.0.ledmask == s.ledmask
    ensures r.0.trace == s.trace + Setups(ws)
    ensures r.1 == if |ws| == 0 then ret else link(|s.trace| + |ws| - 1)
    decreases |ws|
  {
    if ws == [] then (s, ret)
    else
      var (s1, ret1) := Issue(s, link, Setup(ws[0]));
      Replay(s1, link, ws[1..], ret1)
  }

  function InitCard(s: Session, link: Link): (r: (Session, int))
    ensures r.0.ledmask == s.ledmask
    ensures r.0.trace == s.trace + Setups(Script())
    ensures r.1 == link(|s.trace| + 12)
  {
    ScriptShape();
    Replay(s, link, Script(), 0)
  }

  lemma ScriptShape()
    ensures |Script()| == 13
    ensures Script()[0] == HoldCpu && Script()[12] == ReleaseCpu
    ensures forall i :: 0 <= i < 11 ==> Script()[1 + i] == Chunk(i)
  {
  }

  /** The thirteen transfers, field by field. */
  lemma InitCardTransfers()
    ensures |Setups(Script())| == 13
    ensures forall i :: 0 <= i < 13 ==>
      && Setups(Script())[i].Control?
      && Setups(Script())[i].endpoint == 0
      && Setups(Script())[i].request == 0xa0
      && Setups(Script())[i].requestType == 0x40
      && Setups(Script())[i].index == 0
      && Setups(Script())[i].timeout == Millis(1000)
    ensures Setups(Script())[0].value == 0xe600 && Setups(Script())[0].data == [0x01]
    ensures forall i :: 0 <= i < 11 ==>
      && Setups(Script())[1 + i].value == 0x10 * i
      && Setups(Script())[1 + i].data == Packets[i][..if i == 10 then 11 else 16]
    ensures Setups(Script())[12].value == 0xe600 && Setups(Script())[12].data == [0x00]
  {
    VendorOutIs0x40();
    ScriptShape();
  }

  /** No reply stops the sequence: what is sent does not depend on the
      transport, and the result is the reply to the release write alone,
      so a failure of an earlier write is not reported. */
  lemma InitCardNeverStops(s: Session, l1: Link, l2: Link)
    ensures InitCard(s, l1).0 == InitCard(s, l2).0
    ensures l1(|s.trace| + 12) == l2(|s.trace| + 12) ==> InitCard(s, l1).1 == InitCard(s, l2).1
  {
  }

  /* The program image: where the chunks land in device memory. */

  /** The bytes of `ws` one after the other. */
  function Image(ws: seq<ControlWrite>): seq<byte>
  {
    if ws == [] then [] else Image(ws[..|ws| - 1]) + ws[|ws| - 1].data
  }

  /** What device memory holds at `a` after the writes `ws`, the latest
      write to `a` winning; `None` if none of them wrote it. */
  function MemoryAt(ws: seq<ControlWrite>, a: int): Option<byte>
  {
    if ws == [] then None
    else
      var last := ws[|ws| - 1];
      if last.address <= a < last.address + |last.data| then Some(last.data[a - last.address])
      else MemoryAt(ws[..|ws| - 1], a)
  }

  /** Each write starts where the previous one ended, the first at `base`. */
  ghost predicate Contiguous(ws: seq<ControlWrite>, base: nat)
  {
    && (|ws| > 0 ==> ws[0].address == base)
    && forall i :: 0 <= i < |ws| - 1 ==> ws[i + 1].address == ws[i].address + |ws[i].data|
  }

  /** Contiguous writes load their image, byte for byte, at `base`, and
      write nothing else. */
  lemma {:induction false} ContiguousLoadsImage(ws: seq<ControlWrite>, base: nat, a: int)
    requires Contiguous(ws, base)
    ensures |ws| > 0 ==> ws[|ws| - 1].address + |ws[|ws| - 1].data| == base + |Image(ws)|
    ensures MemoryAt(ws, a) == if base <= a < base + |Image(ws)| then Some(Image(ws)[a - base]) else None
    decreases |ws|
  {
    if ws != [] {
      var init := ws[..|ws| - 1];
      var last := ws[|ws| - 1];
      assert Contiguous(init, base) by {
        forall i | 0 <= i < |init| - 1
          ensures init[i + 1].address == init[i].address + |init[i].data|
        {
          assert init[i] == ws[i] && init[i + 1] == ws[i + 1];
        }
      }
      ContiguousLoadsImage(init, base, a);
      if init != [] {
        assert init[|init| - 1] == ws[|ws| - 2];
      }
      assert last.address == base + |Image(init)|;
      assert Image(ws) == Image(init) + last.data;
    }
  }

  /** Contiguous writes never overlap: an earlier one ends before a later
      one starts. */
  lemma {:induction false} ContiguousDisjoint(ws: seq<ControlWrite>, base: nat, i: nat, j: nat)
    requires Contiguous(ws, base)
    requires i < j < |ws|
    ensures ws[i].address + |ws[i].data| <= ws[j].address
    decreases j - i
  {
    if j > i + 1 {
      ContiguousDisjoint(ws, base, i, j - 1);
    }
  }

  /** The eleven chunks: sixteen bytes each but eleven for the last, at
      0x10 times their index, contiguous from 0, loading 171 bytes at
      0x0000..0x00aa with no address written twice. */
  lemma ChunkLayout()
    ensures |Chunks| == 11
    ensures forall i :: 0 <= i < 11 ==>
      Chunks[i].address == 0x10 * i && |Chunks[i].data| == if i == 10 then 11 else 16
    ensures Contiguous(Chunks, 0)
    ensures |Image(Chunks)| == 171
    ensures forall a :: MemoryAt(Chunks, a).Some? <==> 0 <= a <= 0xaa
    ensures forall a :: 0 <= a <= 0xaa ==> MemoryAt(Chunks, a) == Some(Image(Chunks)[a])
    ensures forall i, j :: 0 <= i < j < 11 ==> Chunks[i].address + |Chunks[i].data| <= Chunks[j].address
  {
    forall a
      ensures MemoryAt(Chunks, a) == if 0 <= a < |Image(Chunks)| then Some(Image(Chunks)[a]) else None
    {
      ContiguousLoadsImage(Chunks, 0, a);
    }
    ContiguousLoadsImage(Chunks, 0, 0);
    forall i, j | 0 <= i < j < 11
      ensures Chunks[i].address + |Chunks[i].data| <= Chunks[j].address
    {
      ContiguousDisjoint(Chunks, 0, i, j);
    }
  }
}
