/** One attached card: the `ledmask` attribute's read and write handlers
    and the order of work in `xylo_led_probe`.

    Probe's kernel plumbing (allocation, creating the attribute file,
    selecting alternate setting 1) is represented only by its outcomes,
    passed in as a `Plumbing` value; the transfers of bring-up and of the
    animation are recorded in the session's trace.
 */
module Device {
  import opened Transport
  import opened Ledmask
  import HexText
  import BringUp
  import Animation

  /** The errno probe returns when the allocation fails. */
  const ENOMEM: int := 12

  /** `xylo_led_sys_read`: `sprintf(buf, "0x%x\n", ledmask)`, `%x` printing
      the `int`'s bits as an unsigned 32-bit number. The handler returns the
      text's length. A read sends nothing, as it is a function of the
      mirror alone. The text is "0x", the digits in lower-case hex without
      leading zeros, and a newline; the digits denote the mask's 32 bits,
      so for a mask within a byte they are one or two and denote the mask. */
  function SysRead(s: Session): (text: string)
    ensures 4 <= |text| && text[..2] == "0x" && text[|text| - 1] == '\n'
    ensures HexText.AllLowerHexDigits(text[2..|text| - 1]) && HexText.AllHexDigits(text[2..|text| - 1])
    ensures |text| > 4 ==> text[2] != '0'
    ensures HexText.Value(text[2..|text| - 1]) == s.ledmask % 0x1_0000_0000
    ensures Valid(s) ==> |text| <= 5 && HexText.Value(text[2..|text| - 1]) == s.ledmask
  {
    var n := s.ledmask % 0x1_0000_0000;
    var digits := HexText.Hex(n);
    var text := "0x" + digits + "\n";
    assert text[2..|text| - 1] == digits;
    assert n < 256 ==> |digits| <= 2 by {
      if n < 256 {
        HexText.HexOfByte(n);
      }
    }
    HexText.ValueOfHex(n);
    text
  }

  /** `xylo_led_sys_write`: sets the mask from `text`; returns `count` when
      the bulk write succeeded and the bulk write's error otherwise. */
  function SysWrite(s: Session, link: Link, text: string, count: nat): (r: (Session, int))
    ensures r.0.ledmask == HexText.ScanHex(text) % 256 && Valid(r.0)
    ensures r.0.trace == s.trace + [MaskWrite((HexText.ScanHex(text) % 256) as byte)]
    ensures r.1 == count <==> link(|s.trace|) >= 0
    ensures r.1 != count ==> r.1 == link(|s.trace|)
  {
    var (s1, ret) := SetMaskText(s, link, text);
    if ret < 0 then (s1, ret) else (s1, count)
  }

  /** Writing back what a read printed, on this device or any other, gives
      the mask that was read. */
  lemma {:induction false} ReadWriteRoundTrip(s: Session, t: Session, link: Link, count: nat)
    requires Valid(s)
    ensures SysWrite(t, link, SysRead(s), count).0.ledmask == s.ledmask
  {
    ReadScans(s);
    WriteScanned(t, link, SysRead(s), count, s.ledmask);
  }

  /** A write of a text that scans to a byte stores that byte. */
  lemma WriteScanned(t: Session, link: Link, text: string, count: nat, b: int)
    requires 0 <= b < 256 && HexText.ScanHex(text) == b
    ensures SysWrite(t, link, text, count).0.ledmask == b
  {
  }

  /** What a read shows scans back to the mask. */
  lemma {:induction false} ReadScans(s: Session)
    requires Valid(s)
    ensures HexText.ScanHex(SysRead(s)) == s.ledmask
  {
    var text := SysRead(s);
    var digits := text[2..|text| - 1];
    assert text == "0x" + digits + "\n";
    assert "0x" == ['0', 'x'];
    HexText.ScanPrefixed('x', digits, "\n");
  }

  /** The text a read shows, digit by digit. */
  lemma ReadShows(s: Session)
    ensures SysRead(s) == "0x" + HexText.Hex(s.ledmask % 0x1_0000_0000) + "\n"
  {
  }

  /** The outcomes of probe's steps that the model does not perform. */
  datatype Plumbing = Plumbing(allocOk: bool, createFile: int, setInterface: int)

  /** Probe gets as far as bring-up. */
  predicate Plumbed(p: Plumbing)
  {
    p.allocOk && p.createFile >= 0 && p.setInterface >= 0
  }

  /** `xylo_led_probe`: a fresh session; on a failed kernel step its error;
      otherwise bring-up, and the animation only if bring-up's result is not
      negative. The session is returned as probe leaves it. */
  function Probe(link: Link, p: Plumbing): (r: (Option<Session>, int))
    ensures r.0.None? <==> !p.allocOk
    ensures !p.allocOk ==> r.1 == -ENOMEM
    ensures r.0.Some? ==> Valid(r.0.value)
    ensures p.allocOk && !Plumbed(p) ==> r.0 == Some(Fresh) && r.1 < 0
    ensures p.allocOk && p.createFile < 0 ==> r.1 == p.createFile
    ensures p.allocOk && p.createFile >= 0 && p.setInterface < 0 ==> r.1 == p.setInterface
    ensures r.1 >= 0 <==> Plumbed(p) && link(12) >= 0
    ensures r.1 >= 0 ==> r.1 == 0
    ensures Plumbed(p) && link(12) < 0 ==>
      r.1 == link(12) && r.0.value == Session(0, BringUp.Setups(BringUp.Script()))
    ensures Plumbed(p) && link(12) >= 0 ==>
      r.0.value == Session(0xff, BringUp.Setups(BringUp.Script()) + MaskWrites(Animation.Frames()))
  {
    if !p.allocOk then (None, -ENOMEM)
    else if p.createFile < 0 then (Some(Fresh), p.createFile)
    else if p.setInterface < 0 then (Some(Fresh), p.setInterface)
    else
      var (s1, ret) := BringUp.InitCard(Fresh, link);
      assert s1 == Session(0, BringUp.Setups(BringUp.Script()));
      if ret < 0 then (Some(s1), ret)
      else
        var s2 := Animation.Animate(s1, link);
        Animation.AnimateResult(s1, link);
        (Some(s2), 0)
  }

  /** When bring-up's result is negative probe stops after the thirteen
      control transfers. */
  lemma ProbeStopsOnFailure(link: Link, p: Plumbing)
    requires Plumbed(p) && link(12) < 0
    ensures forall t :: t in Probe(link, p).0.value.trace ==> t.Control?
  {
    assert Probe(link, p).0.value.trace == BringUp.Setups(BringUp.Script());
    BringUp.SetupsAreControl(BringUp.Script());
  }

  /** Otherwise a bulk write follows them. */
  lemma ProbeAnimatesOnSuccess(link: Link, p: Plumbing)
    requires Plumbed(p) && link(12) >= 0
    ensures |Probe(link, p).0.value.trace| > 13 && Probe(link, p).0.value.trace[13].Bulk?
  {
    var boot := BringUp.Setups(BringUp.Script());
    assert |boot| == 13 by { BringUp.ScriptShape(); }
    assert Probe(link, p).0.value.trace == boot + MaskWrites(Animation.Frames());
    assert Animation.Frames() != [] by { Animation.FramesAre(); }
    BulkFollows(boot, Animation.Frames());
  }

  lemma BulkFollows(ts: seq<Transfer>, ms: seq<byte>)
    requires ms != []
    ensures (ts + MaskWrites(ms))[|ts|].Bulk?
  {
    assert (ts + MaskWrites(ms))[|ts|] == MaskWrites(ms)[0];
  }

  /** The animation runs exactly when bring-up's result is not negative:
      only control transfers are sent otherwise. */
  lemma ProbeAnimatesIff(link: Link, p: Plumbing)
    requires Plumbed(p)
    ensures (forall t :: t in Probe(link, p).0.value.trace ==> t.Control?) <==> link(12) < 0
  {
    if link(12) < 0 {
      ProbeStopsOnFailure(link, p);
    } else {
      ProbeAnimatesOnSuccess(link, p);
      var trace := Probe(link, p).0.value.trace;
      assert trace[13] in trace;
    }
  }

  /** A failure of any bring-up write before the release (transfer `i`) is
      masked by a good release: probe still animates, reports success, and
      leaves the session a link answering `i` with success would. */
  lemma EarlierFailureMasked(link: Link, good: Link, p: Plumbing, i: nat)
    requires Plumbed(p) && i < 12 && link(i) < 0 && link(12) >= 0
    requires good(12) == link(12)
    ensures Probe(link, p).1 == 0
    ensures |Probe(link, p).0.value.trace| == 25
    ensures Probe(link, p) == Probe(good, p)
  {
    assert |BringUp.Setups(BringUp.Script())| == 13 by { BringUp.ScriptShape(); }
    assert |Animation.Frames()| == 12 by { Animation.FramesAre(); }
  }

  /* Requests on the attribute file while the card is attached. */

  datatype Request = Read | Write(text: string, count: nat)
  datatype Response = Text(text: string) | Status(ret: int)

  function WriteCount(reqs: seq<Request>): nat
  {
    if reqs == [] then 0 else (if reqs[0].Write? then 1 else 0) + WriteCount(reqs[1..])
  }

  /** The text of the last write in `reqs`, if there is one. */
  function LastWrite(reqs: seq<Request>): Option<string>
  {
    if reqs == [] then None
    else if LastWrite(reqs[1..]).Some? then LastWrite(reqs[1..])
    else if reqs[0].Write? then Some(reqs[0].text)
    else None
  }

  /** One request: a read answers with the attribute's text, a write with
      its status. */
  function Step(s: Session, link: Link, req: Request): (Session, Response)
  {
    match req
    case Read => (s, Text(SysRead(s)))
    case Write(text, count) =>
      var (s2, ret) := SysWrite(s, link, text, count);
      (s2, Status(ret))
  }

  /** Handles `reqs` in order, one response each. */
  function Serve(s: Session, link: Link, reqs: seq<Request>): (r: (Session, seq<Response>))
    ensures |r.1| == |reqs|
    ensures Valid(s) ==> Valid(r.0)
    ensures |r.0.trace| == |s.trace| + WriteCount(reqs) && r.0.trace[..|s.trace|] == s.trace
    ensures WriteCount(reqs) == 0 ==> r.0 == s
    decreases |reqs|
  {
    if reqs == [] then (s, [])
    else
      var (s1, resp) := Step(s, link, reqs[0]);
      var (s3, rest) := Serve(s1, link, reqs[1..]);
      assert s3.trace[..|s.trace|] == s1.trace[..|s1.trace|][..|s.trace|];
      (s3, [resp] + rest)
  }

  /** A read is answered with the attribute's text and changes nothing. */
  lemma ServeRead(s: Session, link: Link, rest: seq<Request>)
    ensures Serve(s, link, [Read] + rest).1 == [Text(SysRead(s))] + Serve(s, link, rest).1
  {
    assert ([Read] + rest)[1..] == rest;
  }

  /** A write is answered with its status, and later requests see the
      session it left. */
  lemma ServeWrite(s: Session, link: Link, text: string, count: nat, rest: seq<Request>)
    ensures Serve(s, link, [Write(text, count)] + rest).1
         == [Status(SysWrite(s, link, text, count).1)] + Serve(SysWrite(s, link, text, count).0, link, rest).1
  {
    assert ([Write(text, count)] + rest)[1..] == rest;
  }

  /** A read after a write shows the byte the write stored. */
  lemma WriteThenRead(s: Session, link: Link, text: string, count: nat)
    ensures Serve(s, link, [Write(text, count), Read]).1[1]
         == Text("0x" + HexText.Hex(HexText.ScanHex(text) % 256) + "\n")
  {
    var s1 := SysWrite(s, link, text, count).0;
    ReadAnswersWrite(s, link, text, count);
    assert s1.ledmask % 0x1_0000_0000 == HexText.ScanHex(text) % 256;
    ReadShows(s1);
  }

  /** The read is answered from the session the write left. */
  lemma ReadAnswersWrite(s: Session, link: Link, text: string, count: nat)
    ensures Serve(s, link, [Write(text, count), Read]).1[1] == Text(SysRead(SysWrite(s, link, text, count).0))
  {
    var (s1, ret) := SysWrite(s, link, text, count);
    var rest := Serve(s1, link, [Read]).1;
    assert Serve(s, link, [Write(text, count), Read]).1 == [Status(ret)] + rest by {
      assert [Write(text, count), Read] == [Write(text, count)] + [Read];
      ServeWrite(s, link, text, count, [Read]);
    }
    assert rest == [Text(SysRead(s1))] by {
      assert [Read] == [Read] + [];
      ServeRead(s1, link, []);
    }
  }

  /** After a stream of requests the mask is the one the last write set,
      or the starting mask when there was no write. */
  lemma {:induction false} ServeMask(s: Session, link: Link, reqs: seq<Request>)
    ensures LastWrite(reqs).None? ==> Serve(s, link, reqs).0.ledmask == s.ledmask
    ensures LastWrite(reqs).Some? ==>
      Serve(s, link, reqs).0.ledmask == HexText.ScanHex(LastWrite(reqs).value) % 256
    decreases |reqs|
  {
    if reqs != [] {
      var s1 := Step(s, link, reqs[0]).0;
      ServeMask(s1, link, reqs[1..]);
    }
  }

  /** The response at position `i` is request `i` handled on the session
      the requests before it left. */
  lemma {:induction false} AnswersPrefix(s: Session, link: Link, reqs: seq<Request>, i: nat)
    requires i < |reqs|
    ensures Serve(s, link, reqs).1[i] == Step(Serve(s, link, reqs[..i]).0, link, reqs[i]).1
    decreases i
  {
    var s1 := Step(s, link, reqs[0]).0;
    ServeCons(s, link, reqs);
    if i == 0 {
      assert reqs[..i] == [];
    } else {
      AnswersPrefix(s1, link, reqs[1..], i - 1);
      assert reqs[..i][0] == reqs[0];
      assert reqs[..i][1..] == reqs[1..][..i - 1];
      ServeCons(s, link, reqs[..i]);
    }
  }

  /** Serving a non-empty stream is one step followed by the rest. */
  lemma ServeCons(s: Session, link: Link, reqs: seq<Request>)
    requires reqs != []
    ensures Serve(s, link, reqs).0 == Serve(Step(s, link, reqs[0]).0, link, reqs[1..]).0
    ensures Serve(s, link, reqs).1 == [Step(s, link, reqs[0]).1] + Serve(Step(s, link, reqs[0]).0, link, reqs[1..]).1
  {
  }

  /** Every read reports the byte stored by the last write before it, or
      the starting mask when no write came before it. */
  lemma ReadSeesLastWrite(s: Session, link: Link, reqs: seq<Request>, i: nat)
    requires i < |reqs| && reqs[i].Read?
    ensures LastWrite(reqs[..i]).None? ==> Serve(s, link, reqs).1[i] == Text(SysRead(s))
    ensures LastWrite(reqs[..i]).Some? ==>
      Serve(s, link, reqs).1[i] == Text("0x" + HexText.Hex(HexText.ScanHex(LastWrite(reqs[..i]).value) % 256) + "\n")
  {
    AnswersPrefix(s, link, reqs, i);
    var s1 := Serve(s, link, reqs[..i]).0;
    ServeMask(s, link, reqs[..i]);
    ReadShows(s1);
    ReadShows(s);
  }
}
