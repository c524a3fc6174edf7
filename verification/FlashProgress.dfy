/**
 Progress of a firmware download: four-byte frames from the flashing tool, low byte first, turned into
 percentages with Java's 32-bit arithmetic, and the verdict when the stream ends.
 */
module FlashProgress {
  import opened TwosComplement

  type Frame = f: seq<bv8> | |f| == 4 witness [0, 0, 0, 0]

  /** The shift-and-or expression that puts a frame together. */
  function Assemble(b: Frame): bv32 {
    (b[0] as bv32) | ((b[1] as bv32) << 8) | ((b[2] as bv32) << 16) | ((b[3] as bv32) << 24)
  }

  /** The bits of a size as the tool sends them. */
  function Split(v: bv32): Frame {
    [(v & 0xff) as bv8, ((v >> 8) & 0xff) as bv8, ((v >> 16) & 0xff) as bv8, (v >> 24) as bv8]
  }

  lemma {:induction false} AssembleSplit(v: bv32)
    ensures Assemble(Split(v)) == v
  {
  }

  lemma {:induction false} SplitAssemble(b: Frame)
    ensures Split(Assemble(b)) == b
  {
  }

  function Unsigned(b: bv8): (n: nat)
    ensures n < 0x100
  {
    b as nat
  }

  /** The Java int with these bits: the bytes weigh in by their place, the top one with its sign. */
  function Signed(v: bv32): int {
    var top := Unsigned((v >> 24) as bv8);
    Unsigned((v & 0xff) as bv8) + 0x100 * Unsigned(((v >> 8) & 0xff) as bv8)
    + 0x1_0000 * Unsigned(((v >> 16) & 0xff) as bv8) + 0x100_0000 * (if top < 0x80 then top else top - 0x100)
  }

  /** The bytes of a frame spell n, low byte first, in two's complement. */
  predicate Spells(b: Frame, n: int) {
    n == b[0] as int + 0x100 * (b[1] as int) + 0x1_0000 * (b[2] as int)
         + 0x100_0000 * (if b[3] as int < 0x80 then b[3] as int else b[3] as int - 0x100)
  }

  predicate SpellAll(frames: seq<Frame>, sizes: seq<int>) {
    |frames| == |sizes| && forall i :: 0 <= i < |frames| ==> Spells(frames[i], sizes[i])
  }

  /** What the shift-and-or expression gives is the number the bytes spell. */
  lemma {:induction false} FrameValue(b: Frame)
    ensures Spells(b, Signed(Assemble(b)))
  {
    SplitAssemble(b);
  }

  function Values(frames: seq<Frame>): (r: seq<int>)
    ensures |r| == |frames|
  {
    if frames == [] then []
    else Values(frames[..|frames| - 1]) + [Signed(Assemble(frames[|frames| - 1]))]
  }

  /** The byte with this value. */
  function ByteOf(k: nat): (b: bv8)
    requires k < 0x100
    ensures b as int == k
  {
    if k == 0 then 0
    else
      var b := ByteOf(k - 1);
      CountOn(b);
      b + 1
  }

  lemma {:induction false} CountOn(b: bv8)
    requires b < 0xff
    ensures (b + 1) as int == b as int + 1
  {
  }

  /** The four bytes of a 32-bit number, low byte first. */
  function Encode(n: int): Frame
    requires -0x8000_0000 <= n < 0x8000_0000
  {
    var u := if n < 0 then n + 0x1_0000_0000 else n;
    var v := u / 0x100;
    var w := v / 0x100;
    var top := w / 0x100;
    [ByteOf(u % 0x100), ByteOf(v % 0x100), ByteOf(w % 0x100), ByteOf(top)]
  }

  predicate Int32s(sizes: seq<int>) {
    forall i :: 0 <= i < |sizes| ==> -0x8000_0000 <= sizes[i] < 0x8000_0000
  }

  function EncodeAll(sizes: seq<int>): (r: seq<Frame>)
    requires Int32s(sizes)
    ensures |r| == |sizes| && forall i :: 0 <= i < |r| ==> r[i] == Encode(sizes[i])
  {
    seq(|sizes|, i requires 0 <= i < |sizes| => Encode(sizes[i]))
  }

  lemma {:induction false} EncodeSpells(n: int)
    requires -0x8000_0000 <= n < 0x8000_0000
    ensures Spells(Encode(n), n)
  {
    var u := if n < 0 then n + 0x1_0000_0000 else n;
    var v := u / 0x100;
    var w := v / 0x100;
    assert u == u % 0x100 + 0x100 * v;
    assert v == v % 0x100 + 0x100 * w;
    assert w == w % 0x100 + 0x100 * (w / 0x100);
  }

  lemma {:induction false} SpelledOnce(frames: seq<Frame>, sizes: seq<int>)
    ensures SpellAll(frames, sizes) <==> Values(frames) == sizes
  {
    forall i | 0 <= i < |frames| ensures Spells(frames[i], Values(frames)[i]) {
      ValueAt(frames, i);
      FrameValue(frames[i]);
    }
  }

  /** The decode loop over the encoding of any 32-bit sizes yields the sizes. */
  lemma {:induction false} DecodeEncoded(sizes: seq<int>)
    requires Int32s(sizes)
    ensures Values(EncodeAll(sizes)) == sizes
  {
    forall i | 0 <= i < |sizes| ensures Spells(EncodeAll(sizes)[i], sizes[i]) {
      EncodeSpells(sizes[i]);
    }
    SpelledOnce(EncodeAll(sizes), sizes);
  }

  // Java arithmetic

  /** Division rounds towards zero. */
  function JavaDiv(a: int, b: int): int
    requires b != 0
  {
    if (a < 0) == (b < 0) then (if a < 0 then -a else a) / (if b < 0 then -b else b)
    else -((if a < 0 then -a else a) / (if b < 0 then -b else b))
  }

  function Percent(written: int, size: int): int
    requires size != 0
  {
    Wrap(JavaDiv(Wrap(written * 100), size))
  }

  /** The quotient is the whole part, with the sign of the exact one. */
  lemma {:induction false} JavaDivTruncates(a: int, b: int)
    requires b != 0
    ensures var q := JavaDiv(a, b);
            var (x, y, k) := (if a < 0 then -a else a, if b < 0 then -b else b, if q < 0 then -q else q);
            k * y <= x < (k + 1) * y && (q != 0 ==> (q > 0 <==> (a < 0) == (b < 0)))
  {
    DivIs(if a < 0 then -a else a, if b < 0 then -b else b);
  }

  lemma {:induction false} DivIs(x: int, y: int)
    requires x >= 0 && y > 0
    ensures x / y >= 0 && x / y * y <= x < (x / y + 1) * y
  {
    var k := x / y;
    assert x == k * y + x % y;
    assert (k + 1) * y == k * y + y;
    if k < 0 {
      MulStrict(k, 0, y);
    }
  }

  /** 21474836 is the exact bound up to which the multiplication by 100 is harmless. */
  lemma {:induction false} PercentExactIff(size: int)
    requires 0 < size < 0x8000_0000
    ensures (forall w :: 0 <= w <= size ==> Percent(w, size) == 100 * w / size) <==> size <= 21474836
  {
    if size <= 21474836 {
      forall w | 0 <= w <= size ensures Percent(w, size) == 100 * w / size {
        PercentSmall(w, size);
      }
    } else {
      BeyondBound(size);
    }
  }

  lemma {:induction false} BeyondBound(size: int)
    requires 21474836 < size < 0x8000_0000
    ensures Percent(21474837, size) < 100 * 21474837 / size
  {
    DivBounds(2147483596, size, 0, 2147483596);
    WrapSmall(-(2147483596 / size));
    DivBounds(100 * 21474837, size, 1, 100 * 21474837);
  }

  lemma {:induction false} MulStrict(x: int, y: int, b: int)
    requires b > 0
    ensures x < y ==> (x + 1) * b <= y * b
  {
    if x < y {
      assert y * b == (x + 1) * b + (y - x - 1) * b;
    }
  }

  lemma {:induction false} DivBounds(a: int, b: int, lo: int, hi: int)
    requires b > 0 && lo * b <= a < (hi + 1) * b
    ensures lo <= a / b <= hi
    ensures a / b * b <= a
  {
    MulStrict(a / b, lo, b);
    MulStrict(hi, a / b, b);
  }

  lemma {:induction false} PercentSmall(w: int, size: int)
    requires 0 <= w <= size <= 21474836 && size > 0
    ensures Percent(w, size) == 100 * w / size
    ensures 0 <= Percent(w, size) <= 100
    ensures Percent(w, size) == 100 <==> w == size
  {
    WrapSmall(100 * w);
    DivBounds(100 * w, size, 0, 100);
    WrapSmall(100 * w / size);
    if w == size {
      DivBounds(100 * w, size, 100, 100);
    } else {
      DivBounds(100 * w, size, 0, 99);
    }
  }

  lemma {:induction false} PercentGrows(w: int, x: int, size: int)
    requires 0 <= w <= x <= size <= 21474836 && size > 0
    ensures Percent(w, size) <= Percent(x, size)
  {
    PercentSmall(w, size);
    PercentSmall(x, size);
    DivBounds(100 * w, size, 0, 100);
    DivBounds(100 * x, size, 100 * w / size, 100);
  }

  // The conversation

  /** One broadcast: how much was written of how large a file. */
  datatype Progress = Progress(written: int, size: int)
  type Report = p: Progress | p.size != 0 witness Progress(0, 1)

  /** The loop's variables, what was reported, and whether a division by zero has ended it. */
  datatype Meter = Meter(fileSize: int, writeSize: int, reports: seq<Report>, dead: bool)

  const START := Meter(-1, 0, [], false)

  function Feed(m: Meter, value: int): Meter {
    if m.dead then m
    else
      var n := if m.fileSize == -1 then m.(fileSize := value) else m.(writeSize := value);
      if n.fileSize == 0 then n.(dead := true)
      else n.(reports := n.reports + [Progress(n.writeSize, n.fileSize)])
  }

  function FeedAll(values: seq<int>): Meter {
    if values == [] then START else Feed(FeedAll(values[..|values| - 1]), values[|values| - 1])
  }

  /** The numbers broadcast for some reports. */
  function Percentages(reports: seq<Report>): (r: seq<int>)
    ensures |r| == |reports| && forall i :: 0 <= i < |r| ==> r[i] == Percent(reports[i].written, reports[i].size)
  {
    seq(|reports|, i requires 0 <= i < |reports| => Percent(reports[i].written, reports[i].size))
  }

  lemma {:induction false} PercentagesConcat(a: seq<Report>, b: seq<Report>)
    ensures Percentages(a + b) == Percentages(a) + Percentages(b)
  {
  }

  lemma {:induction false} PercentagesNext(reports: seq<Report>, written: int, size: int)
    requires size != 0
    ensures Percentages(reports + [Progress(written, size)]) == Percentages(reports) + [Percent(written, size)]
  {
  }

  lemma {:induction false} FeedNext(frames: seq<Frame>, i: nat)
    requires i < |frames|
    ensures FeedAll(Values(frames)[..i + 1]) == Feed(FeedAll(Values(frames)[..i]), Signed(Assemble(frames[i])))
  {
    ValueAt(frames, i);
    assert Values(frames)[..i + 1][..i] == Values(frames)[..i];
  }

  /** -1 unless the last size written is the file size. */
  function Verdict(fileSize: int, writeSize: int): seq<int> {
    if fileSize != writeSize then [-1] else []
  }

  /** All that is broadcast, with the verdict. */
  function Broadcasts(values: seq<int>): seq<int> {
    var m := FeedAll(values);
    Percentages(m.reports) + Verdict(m.fileSize, m.writeSize)
  }

  /** talkWithSocket over the full frames the stream delivers before it ends, fails or is closed. */
  method TalkWithSocket(frames: seq<Frame>) returns (sent: seq<int>)
    ensures sent == Broadcasts(Values(frames))
    ensures forall sizes :: SpellAll(frames, sizes) ==> sent == Broadcasts(sizes)
  {
    var progress: int, fileSize: int, writeSize: int := 0, -1, 0;
    sent := [];
    var dead := false;
    ghost var reports: seq<Report> := [];
    var i := 0;
    while i < |frames| && !dead
      invariant 0 <= i <= |frames|
      invariant FeedAll(Values(frames)[..i]) == Meter(fileSize, writeSize, reports, dead)
      invariant sent == Percentages(reports)
    {
      var buffer := frames[i];
      var value := Signed(Assemble(buffer));
      FeedNext(frames, i);
      if fileSize == -1 {
        fileSize := value;
      } else {
        writeSize := value;
      }
      i := i + 1;
      if fileSize == 0 {
        dead := true;
      } else {
        progress := Percent(writeSize, fileSize);
        PercentagesNext(reports, writeSize, fileSize);
        reports := reports + [Progress(writeSize, fileSize)];
        sent := sent + [progress];
      }
    }
    if dead {
      DeadStays(Values(frames), i);
    }
    assert Values(frames)[..|frames|] == Values(frames);
    if fileSize != writeSize {
      sent := sent + [-1];
    }
    OneSpelling(frames);
  }

  lemma {:induction false} OneSpelling(frames: seq<Frame>)
    ensures forall sizes :: SpellAll(frames, sizes) ==> sizes == Values(frames)
  {
    forall sizes | SpellAll(frames, sizes) ensures sizes == Values(frames) {
      SpelledOnce(frames, sizes);
    }
  }

  lemma {:induction false} ValueAt(frames: seq<Frame>, i: nat)
    requires i < |frames|
    ensures Values(frames)[i] == Signed(Assemble(frames[i]))
  {
    if i < |frames| - 1 {
      ValueAt(frames[..|frames| - 1], i);
    }
  }

  lemma {:induction false} DeadStays(values: seq<int>, i: nat)
    requires i <= |values| && FeedAll(values[..i]).dead
    ensures FeedAll(values) == FeedAll(values[..i])
  {
    if i < |values| {
      assert values[..|values| - 1][..i] == values[..i];
      DeadStays(values[..|values| - 1], i);
    } else {
      assert values[..i] == values;
    }
  }

  function Percents(size: int, written: seq<int>): (r: seq<int>)
    requires size > 0
    ensures |r| == |written| && forall i :: 0 <= i < |r| ==> r[i] == 100 * written[i] / size
  {
    seq(|written|, i requires 0 <= i < |written| => 100 * written[i] / size)
  }

  predicate Within(size: int, written: seq<int>) {
    forall i :: 0 <= i < |written| ==> 0 <= written[i] <= size
  }

  function Last(written: seq<int>): int {
    if written == [] then 0 else written[|written| - 1]
  }

  /** What is reported of a file of this size. */
  function Reports(size: int, written: seq<int>): (r: seq<Report>)
    requires size != 0
    ensures |r| == |written| && forall i :: 0 <= i < |r| ==> r[i] == Progress(written[i], size)
  {
    seq(|written|, i requires 0 <= i < |written| => Progress(written[i], size))
  }

  /** With any first frame but 0 and -1 there is one report a frame, the first for nothing written. */
  lemma {:induction false} MeterReads(size: int, written: seq<int>)
    requires size != 0 && size != -1
    ensures FeedAll([size] + written) == Meter(size, Last(written), Reports(size, [0] + written), false)
  {
    var values := [size] + written;
    if written == [] {
      assert values[..0] == [];
      assert FeedAll(values) == Feed(START, size);
      assert Reports(size, [0]) == [Progress(0, size)];
    } else {
      var front := written[..|written| - 1];
      MeterReads(size, front);
      assert values[..|values| - 1] == [size] + front;
      assert Reports(size, [0] + front) + [Progress(Last(written), size)] == Reports(size, [0] + written);
    }
  }

  lemma {:induction false} ZeroPercent(size: int)
    requires size != 0
    ensures Percent(0, size) == 0
  {
    WrapSmall(0);
  }

  lemma {:induction false} FirstIsZero(size: int, written: seq<int>)
    requires size != 0
    ensures Percentages(Reports(size, [0] + written)) == [0] + Percentages(Reports(size, written))
  {
    ZeroPercent(size);
    PercentagesConcat([Progress(0, size)], Reports(size, written));
    assert Reports(size, [0] + written) == [Progress(0, size)] + Reports(size, written);
    assert Percentages([Progress(0, size)]) == [0];
  }

  /**
   The verdict does not depend on the arithmetic: whatever the sizes, if the first is neither 0 nor -1 there is one
   broadcast a frame, 0 and then the percentages as computed, and a last -1 exactly when the final size reported is
   not the file size.
   */
  lemma {:induction false} VerdictAnySize(frames: seq<Frame>, size: int, written: seq<int>)
    requires SpellAll(frames, [size] + written) && size != 0 && size != -1
    ensures Broadcasts(Values(frames)) ==
            [0] + Percentages(Reports(size, written)) + if Last(written) != size then [-1] else []
  {
    SpelledOnce(frames, [size] + written);
    MeterReads(size, written);
    FirstIsZero(size, written);
  }

  lemma {:induction false} PercentagesExact(size: int, written: seq<int>)
    requires 0 < size <= 21474836 && Within(size, written)
    ensures Percentages(Reports(size, written)) == Percents(size, written)
  {
    forall i | 0 <= i < |written| ensures Percentages(Reports(size, written))[i] == Percents(size, written)[i] {
      PercentSmall(written[i], size);
    }
  }

  /**
   What the listeners hear, for a file of at most 21474836 bytes: 0 at first, then exactly the whole percentages
   of the sizes reported, each between 0 and 100 and 100 only for the whole file, and a last -1 exactly when the
   final size reported is not the whole file.
   */
  lemma {:induction false} BroadcastSequence(frames: seq<Frame>, size: int, written: seq<int>)
    requires SpellAll(frames, [size] + written)
    requires 0 < size <= 21474836 && Within(size, written)
    ensures Broadcasts(Values(frames)) ==
            [0] + Percents(size, written) + if Last(written) != size then [-1] else []
    ensures forall i :: 0 <= i < |written| ==>
              0 <= Percents(size, written)[i] <= 100 && (Percents(size, written)[i] == 100 <==> written[i] == size)
    ensures (forall i, j :: 0 <= i < j < |written| ==> written[i] <= written[j]) ==>
              forall i, j :: 0 <= i < j < |written| ==> Percents(size, written)[i] <= Percents(size, written)[j]
  {
    VerdictAnySize(frames, size, written);
    PercentagesExact(size, written);
    forall i | 0 <= i < |written|
      ensures 0 <= Percents(size, written)[i] <= 100 && (Percents(size, written)[i] == 100 <==> written[i] == size)
    {
      PercentSmall(written[i], size);
    }
    forall i, j | 0 <= i < j < |written| && written[i] <= written[j]
      ensures Percents(size, written)[i] <= Percents(size, written)[j]
    {
      PercentGrows(written[i], written[j], size);
      PercentSmall(written[i], size);
      PercentSmall(written[j], size);
    }
  }

  /** The same meter with one more report at the front. */
  function Later(m: Meter): Meter {
    m.(reports := [Progress(0, -1)] + m.reports)
  }

  lemma {:induction false} FeedLater(m: Meter, v: int)
    ensures Feed(Later(m), v) == Later(Feed(m, v))
  {
    var n := if m.fileSize == -1 then m.(fileSize := v) else m.(writeSize := v);
    if n.fileSize != 0 {
      var p: Report := Progress(n.writeSize, n.fileSize);
      var first: Report := Progress(0, -1);
      assert [first] + m.reports + [p] == [first] + (m.reports + [p]);
    }
  }

  lemma {:induction false} MinusOneMeter(rest: seq<int>)
    ensures FeedAll([-1] + rest) == Later(FeedAll(rest))
  {
    var values := [-1] + rest;
    if rest == [] {
      assert values[..0] == [];
      assert FeedAll(values) == Feed(START, -1);
    } else {
      var front := rest[..|rest| - 1];
      MinusOneMeter(front);
      assert values[..|values| - 1] == [-1] + front;
      FeedLater(FeedAll(front), rest[|rest| - 1]);
    }
  }

  /** A first frame of -1 is taken for no size yet: it broadcasts 0, and the next frame starts over. */
  lemma {:induction false} MinusOneStartsOver(rest: seq<int>)
    ensures Broadcasts([-1] + rest) == [0] + Broadcasts(rest)
  {
    MinusOneMeter(rest);
    ZeroPercent(-1);
    PercentagesConcat([Progress(0, -1)], FeedAll(rest).reports);
    assert Percentages([Progress(0, -1)]) == [0];
  }

  /** A first frame of 0 ends the conversation by a division by zero, with no broadcast at all, not even -1. */
  lemma {:induction false} EmptyFileIsSilent(written: seq<int>)
    ensures Broadcasts([0] + written) == []
  {
    var values := [0] + written;
    assert values[..1] == [0] && values[..1][..0] == [];
    assert FeedAll(values[..1]) == Feed(START, 0);
    DeadStays(values, 1);
  }
}
