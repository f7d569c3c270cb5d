/** `xylo_led_animation`: the mask writes probe plays once the card is up.

    The driver counts a `char k` from 0 to 7, writing `k`, then counts `k`
    from 0 to 3 again, writing `0xff * (k % 2)` converted to `unsigned char`.
    The replies are ignored and the 50 ms pauses have no logical effect.
 */
module Animation {
  import opened Transport
  import opened Ledmask

  /** The twelve masks in the order the two loops produce them. */
  function Frames(): seq<byte>
  {
    seq(8, k requires 0 <= k < 8 => k as byte) + seq(4, k requires 0 <= k < 4 => ToUChar(0xff * (k % 2)))
  }

  /** The second loop starts with `k == 0`, so it writes off, on, off, on. */
  lemma FramesAre()
    ensures Frames() == [0, 1, 2, 3, 4, 5, 6, 7, 0, 0xff, 0, 0xff]
  {
  }

  /** Writes each mask of `ms` in turn through `SetMaskChar`, dropping the
      replies. */
  function WriteAll(s: Session, link: Link, ms: seq<byte>): (r: Session)
    ensures r.trace == s.trace + MaskWrites(ms)
    ensures ms == [] ==> r == s
    ensures ms != [] ==> r.ledmask == ms[|ms| - 1] as int
    decreases |ms|
  {
    if ms == [] then s
    else
      assert ms == [ms[0]] + ms[1..];
      WriteAll(SetMaskChar(s, link, ms[0]).0, link, ms[1..])
  }

  function Animate(s: Session, link: Link): (r: Session)
    ensures r.ledmask == 0xff && Valid(r)
    ensures r.trace == s.trace + MaskWrites([0, 1, 2, 3, 4, 5, 6, 7, 0, 0xff, 0, 0xff])
  {
    FramesAre();
    WriteAll(s, link, Frames())
  }

  lemma AnimateResult(s: Session, link: Link)
    ensures Animate(s, link) == Session(0xff, s.trace + MaskWrites(Frames()))
  {
    FramesAre();
  }

  /** Whatever the transport answers, the animation sends and leaves the
      same thing. */
  lemma AnimationIgnoresReplies(s: Session, l1: Link, l2: Link)
    ensures Animate(s, l1) == Animate(s, l2)
  {
  }

  /** The two loops as the driver writes them. */
  method RunAnimation(s: Session, link: Link) returns (t: Session)
    ensures t == Animate(s, link)
  {
    ghost var frames := Frames();
    t := s;
    var k := 0;
    while k < 8
      invariant 0 <= k <= 8
      invariant t.trace == s.trace + MaskWrites(frames[..k])
      invariant k > 0 ==> t.ledmask == frames[k - 1] as int
    {
      assert frames[..k + 1] == frames[..k] + [k as byte];
      MaskWritesAppend(frames[..k], [k as byte]);
      t := SetMaskChar(t, link, k as byte).0;
      k := k + 1;
    }
    k := 0;
    while k < 4
      invariant 0 <= k <= 4
      invariant t.trace == s.trace + MaskWrites(frames[..8 + k])
      invariant t.ledmask == frames[7 + k] as int
    {
      var m := ToUChar(0xff * (k % 2));
      assert frames[..8 + k + 1] == frames[..8 + k] + [m];
      MaskWritesAppend(frames[..8 + k], [m]);
      t := SetMaskChar(t, link, m).0;
      k := k + 1;
    }
    assert frames[..12] == frames;
    FramesAre();
    AnimateResult(s, link);
  }
}
