/** The font bitmap as runs: written by minui/mkfont.c, expanded by minui/graphics.c. One
    byte is a run of 1 to 127 equal pixels, its top bit their value; a zero byte ends
    the data. */
module Font {
  import opened Bytes

  const MAX_RUN: nat := 127

  // Pixels are 255 or 0.
  predicate TwoValued(pixels: seq<byte>) {
    forall i | 0 <= i < |pixels| :: pixels[i] == 0 || pixels[i] == 255
  }

  function Count(run: byte): nat { run % 128 }

  function Value(run: byte): byte { if run >= 128 then 255 else 0 }

  /** run_count | (run_val ? 0x80 : 0) */
  function RunOf(value: byte, count: nat): (run: byte)
    requires 0 < count <= MAX_RUN
    ensures Count(run) == count && (value == 0 || value == 255 ==> Value(run) == value)
  {
    count + (if value != 0 then 0x80 else 0)
  }

  function Pixels(run: byte): (ps: seq<byte>)
    ensures |ps| == Count(run) && forall i | 0 <= i < |ps| :: ps[i] == Value(run)
  {
    seq(Count(run), _ => Value(run))
  }

  /** A byte from 1 to 127 stands for so many empty pixels, one from 129 to 255 for as many
      full ones, less 128. */
  lemma RunMeans(n: nat)
    requires 0 < n <= 127
    ensures Pixels(n) == seq(n, _ => 0) && Pixels(128 + n) == seq(n, _ => 255)
    ensures RunOf(0, n) == n && RunOf(255, n) == 128 + n
  {
  }

  function Decoded(runs: seq<byte>): seq<byte> {
    if runs == [] then [] else Decoded(runs[..|runs|-1]) + Pixels(runs[|runs|-1])
  }

  ghost predicate NonZero(runs: seq<byte>) {
    forall i | 0 <= i < |runs| :: Count(runs[i]) > 0
  }

  /** Only full runs are followed by more pixels of the same value. */
  ghost predicate Maximal(runs: seq<byte>) {
    forall i | 0 <= i < |runs| - 1 :: Value(runs[i]) == Value(runs[i + 1]) ==> Count(runs[i]) == MAX_RUN
  }

  lemma DecodedPush(runs: seq<byte>, run: byte)
    ensures Decoded(runs + [run]) == Decoded(runs) + Pixels(run)
  {
    assert (runs + [run])[..|runs|] == runs;
  }

  lemma MaximalPush(runs: seq<byte>, run: byte)
    requires Maximal(runs) && NonZero(runs) && Count(run) > 0
    requires runs != [] && Value(runs[|runs|-1]) == Value(run) ==> Count(runs[|runs|-1]) == MAX_RUN
    ensures Maximal(runs + [run]) && NonZero(runs + [run])
  {
  }

  /** The first i pixels are in the finished runs and the current one. */
  ghost predicate Encoding(pixels: seq<byte>, i: nat, runs: seq<byte>, value: byte, count: nat) {
    && 0 < i <= |pixels| && 0 < count <= MAX_RUN && (value == 0 || value == 255)
    && pixels[..i] == Decoded(runs) + Pixels(RunOf(value, count))
    && NonZero(runs) && Maximal(runs)
    && (runs != [] && Value(runs[|runs|-1]) == value ==> Count(runs[|runs|-1]) == MAX_RUN)
  }

  lemma FirstPixel(pixels: seq<byte>)
    requires pixels != [] && TwoValued(pixels)
    ensures Encoding(pixels, 1, [], pixels[0], 1)
  {
    assert pixels[..1] == [] + Pixels(RunOf(pixels[0], 1));
  }

  lemma SamePixel(pixels: seq<byte>, i: nat, runs: seq<byte>, value: byte, count: nat)
    requires Encoding(pixels, i, runs, value, count) && i < |pixels| && pixels[i] == value && count < MAX_RUN
    ensures Encoding(pixels, i + 1, runs, value, count + 1)
  {
    hide Decoded, Maximal, NonZero;
    assert Pixels(RunOf(value, count)) + [value] == Pixels(RunOf(value, count + 1));
    assert pixels[..i + 1] == pixels[..i] + [value];
  }

  lemma Ejected(pixels: seq<byte>, i: nat, runs: seq<byte>, value: byte, count: nat)
    requires Encoding(pixels, i, runs, value, count)
    ensures var more := runs + [RunOf(value, count)];
      pixels[..i] == Decoded(more) && NonZero(more) && Maximal(more)
  {
    DecodedPush(runs, RunOf(value, count));
    MaximalPush(runs, RunOf(value, count));
  }

  lemma OtherPixel(pixels: seq<byte>, i: nat, runs: seq<byte>, value: byte, count: nat)
    requires Encoding(pixels, i, runs, value, count) && i < |pixels| && TwoValued(pixels)
    requires pixels[i] == value ==> count == MAX_RUN
    ensures Encoding(pixels, i + 1, runs + [RunOf(value, count)], pixels[i], 1)
  {
    Ejected(pixels, i, runs, value, count);
    hide Decoded, Maximal, NonZero;
    assert Pixels(RunOf(pixels[i], 1)) == [pixels[i]];
    assert pixels[..i + 1] == pixels[..i] + [pixels[i]];
  }

  /** The encoder of mkfont.c, which needs at least one pixel. Its input counts as 0 or 255. */
  method Encode(pixels: seq<byte>) returns (rundata: seq<byte>)
    requires pixels != [] && TwoValued(pixels)
    ensures rundata != [] && rundata[|rundata|-1] == 0
    ensures var runs := rundata[..|rundata|-1];
      Decoded(runs) == pixels && NonZero(runs) && Maximal(runs)
  {
    hide Encoding, Decoded, NonZero, Maximal, TwoValued, RunOf;
    var runVal, runCount, runs := pixels[0], 1, [];
    var i := 1;
    FirstPixel(pixels);
    while i < |pixels|
      invariant 1 <= i <= |pixels| && 0 < runCount <= MAX_RUN && Encoding(pixels, i, runs, runVal, runCount)
    {
      var val := pixels[i];
      if val == runVal && runCount < MAX_RUN {
        SamePixel(pixels, i, runs, runVal, runCount);
        runCount := runCount + 1;
      } else {
        OtherPixel(pixels, i, runs, runVal, runCount);
        runs := runs + [RunOf(runVal, runCount)];
        runVal, runCount := val, 1;
      }
      i := i + 1;
    }
    assert pixels[..i] == pixels;
    Ejected(pixels, i, runs, runVal, runCount);
    runs := runs + [RunOf(runVal, runCount)];
    rundata := runs + [0];
    assert rundata[..|rundata|-1] == runs;
  }

  lemma NoRuns()
    ensures Decoded([]) == []
  {
  }

  lemma {:induction false} DecodedPrefix(runs: seq<byte>, k: nat)
    requires k <= |runs|
    ensures Decoded(runs[..k]) <= Decoded(runs)
    decreases |runs|
  {
    if k == |runs| {
      assert runs[..k] == runs;
    } else {
      var front := runs[..|runs|-1];
      DecodedPrefix(front, k);
      assert front[..k] == runs[..k];
    }
  }

  /** The runs before the first zero byte. */
  function UpToZero(rundata: seq<byte>): (runs: seq<byte>)
    ensures runs <= rundata && 0 !in runs
    ensures 0 in rundata ==> |runs| < |rundata| && rundata[|runs|] == 0
  {
    if rundata == [] || rundata[0] == 0 then [] else [rundata[0]] + UpToZero(rundata[1..])
  }

  /** memset */
  method SetRun(bits: array<byte>, at: nat, data: byte)
    requires at + Count(data) <= bits.Length
    modifies bits
    ensures bits[..at + Count(data)] == old(bits[..at]) + Pixels(data)
    ensures bits[at + Count(data)..] == old(bits[at + Count(data)..])
  {
    forall k | at <= k < at + Count(data) {
      bits[k] := Value(data);
    }
  }

  /** The decoder of graphics.c, for any data that a zero byte ends. The bitmap has room for
      what the runs up to there say; exactly that is written. */
  method Decode(rundata: seq<byte>, bits: array<byte>)
    requires 0 in rundata && |Decoded(UpToZero(rundata))| <= bits.Length
    modifies bits
    ensures var pixels := Decoded(UpToZero(rundata));
      bits[..|pixels|] == pixels && bits[|pixels|..] == old(bits[|pixels|..])
  {
    hide Count, Value, Pixels, Decoded;
    ghost var runs := UpToZero(rundata);
    var at, i := 0, 0;
    NoRuns();
    assert runs[..0] == [];
    while rundata[i] != 0
      invariant 0 <= i <= |runs| && at == |Decoded(runs[..i])| <= bits.Length
      invariant bits[..at] == Decoded(runs[..i]) && bits[at..] == old(bits[at..])
      decreases |runs| - i
    {
      var data := rundata[i];
      assert data == runs[i] && runs[..i + 1] == runs[..i] + [data];
      DecodedPush(runs[..i], data);
      DecodedPrefix(runs, i + 1);
      ghost var before := bits[at..];
      SetRun(bits, at, data);
      assert bits[at + Count(data)..] == before[Count(data)..];
      at, i := at + Count(data), i + 1;
    }
    assert i == |runs|;
    assert runs[..|runs|] == runs;
  }

  /** Encoded pixels are what the decoder finds before the zero byte at the end. */
  lemma {:induction false} EncodedIsFound(runs: seq<byte>)
    requires NonZero(runs)
    ensures UpToZero(runs + [0]) == runs
  {
    if runs != [] {
      assert Count(runs[0]) > 0 && (runs + [0])[1..] == runs[1..] + [0];
      EncodedIsFound(runs[1..]);
    }
  }

  // ---------------------------------------------------------------- one encoding only

  lemma {:induction false} DecodedFront(run: byte, rest: seq<byte>)
    ensures Decoded([run] + rest) == Pixels(run) + Decoded(rest)
  {
    if rest == [] {
      assert [run] + rest == [] + [run];
      DecodedPush([], run);
    } else {
      var n := |rest| - 1;
      assert [run] + rest == ([run] + rest[..n]) + [rest[n]];
      DecodedFront(run, rest[..n]);
      DecodedPush([run] + rest[..n], rest[n]);
    }
  }

  lemma Front(runs: seq<byte>)
    requires runs != []
    ensures Decoded(runs) == Pixels(runs[0]) + Decoded(runs[1..])
  {
    assert runs == [runs[0]] + runs[1..];
    DecodedFront(runs[0], runs[1..]);
  }

  lemma HeadValue(runs: seq<byte>)
    requires runs != [] && NonZero(runs)
    ensures Decoded(runs) != [] && Decoded(runs)[0] == Value(runs[0])
  {
    Front(runs);
    assert Count(runs[0]) > 0;
    hide Decoded;
  }

  /** The first run takes all the equal pixels it may. */
  lemma FirstRun(runs: seq<byte>)
    requires runs != [] && NonZero(runs) && Maximal(runs)
    ensures var d, c := Decoded(runs), Count(runs[0]);
      && c <= |d| && d[c..] == Decoded(runs[1..]) && (forall i | 0 <= i < c :: d[i] == Value(runs[0]))
      && (c == MAX_RUN || c == |d| || d[c] != Value(runs[0]))
  {
    var rest := runs[1..];
    Front(runs);
    if rest == [] {
      NoRuns();
    } else {
      HeadValue(rest);
      assert rest[0] == runs[1];
      assert Value(runs[0]) == Value(rest[0]) ==> Count(runs[0]) == MAX_RUN;
    }
    hide Decoded, Count, Value, Maximal, NonZero;
  }

  lemma SameFirst(a: seq<byte>, b: seq<byte>)
    requires a != [] && NonZero(a) && Maximal(a) && b != [] && NonZero(b) && Maximal(b) && Decoded(a) == Decoded(b)
    ensures a[0] == b[0] && Decoded(a[1..]) == Decoded(b[1..])
  {
    FirstRun(a);
    FirstRun(b);
    assert Count(a[0]) > 0 && Count(b[0]) > 0;
    hide Decoded, Maximal, NonZero, Count, Value;
    var d := Decoded(a);
    assert d[0] == Value(a[0]) == Value(b[0]);
    SameRun(a[0], b[0]);
  }

  lemma SameRun(x: byte, y: byte)
    requires Count(x) == Count(y) && Value(x) == Value(y)
    ensures x == y
  {
  }

  /** Pixels have one encoding into maximal runs: what the encoder gives for decoded runs
      are those runs again. */
  lemma {:induction false} EncodingIsUnique(a: seq<byte>, b: seq<byte>)
    requires NonZero(a) && Maximal(a) && NonZero(b) && Maximal(b) && Decoded(a) == Decoded(b)
    ensures a == b
    decreases |a|
  {
    if a == [] || b == [] {
      if a != [] { FirstRun(a); }
      if b != [] { FirstRun(b); }
    } else {
      SameFirst(a, b);
      hide Decoded;
      EncodingIsUnique(a[1..], b[1..]);
      assert a == [a[0]] + a[1..] && b == [b[0]] + b[1..];
    }
  }
}
