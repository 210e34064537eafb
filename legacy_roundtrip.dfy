/** What the first RWL reader makes of the first RWL writer's lines: the bare head line written
    before a sample whose first year is divisible by ten stops the reader, and without it every
    sample comes back in order with its widths divided by 10^3. */
module LegacyRoundTrip {
  import opened Wrappers
  import opened Text
  import Rwl
  import RwlRoundTrip
  import opened LegacyRwl

  /** A name that is a single token to `string.split`. */
  predicate Plain(name: string) {
    |name| > 0 && NoSpace(name, AsciiBlanks)
  }

  /** Samples the reader can take back: plain names and values of at most five digits. */
  predicate Writable(es: seq<Rwl.Encoded>) {
    forall k :: 0 <= k < |es| ==> Plain(es[k].name) && RwlRoundTrip.GoodValues(es[k].raw)
  }

  /** The entry the reader should rebuild from an encoded sample. */
  function Expected(e: Rwl.Encoded): Entry {
    Entry(e.name, e.fyog, seq(|e.raw|, i requires 0 <= i < |e.raw| => e.raw[i] as real / 1000.0))
  }

  function ExpectedAll(es: seq<Rwl.Encoded>): (r: seq<Entry>)
    ensures |r| == |es| && forall k :: 0 <= k < |es| ==> r[k] == Expected(es[k])
  {
    seq(|es|, k requires 0 <= k < |es| => Expected(es[k]))
  }

  /** The integers the reader should hold when it completes an encoded sample: its values, then
      the terminator the writer appended. */
  function Closed(e: Rwl.Encoded): RawSample {
    RawSample(e.name, e.fyog, e.raw, LegacyTerminator)
  }

  function ClosedAll(es: seq<Rwl.Encoded>): (r: seq<RawSample>)
    ensures |r| == |es| && forall k :: 0 <= k < |es| ==> r[k] == Closed(es[k])
  {
    seq(|es|, k requires 0 <= k < |es| => Closed(es[k]))
  }

  // ---------------------------------------------------------------------------------------------
  // Rows of emitted lines
  // ---------------------------------------------------------------------------------------------

  lemma {:induction false} AsciiWhitespace()
    ensures RwlRoundTrip.Whitespace(AsciiBlanks)
  {
  }

  /** The CRLF holds no token and keeps the line's tokens apart from what follows. */
  lemma {:induction false} SplitCRLF(l: string)
    ensures Row(l + Rwl.CRLF) == Row(l)
  {
    SplitBreak(l, Rwl.CRLF, AsciiBlanks);
    SplitDropBlank('\r', "\n", AsciiBlanks);
    SplitDropBlank('\n', "", AsciiBlanks);
    assert Rwl.CRLF == ['\r'] + "\n";
    assert "\n" == ['\n'] + "";
  }

  /** An emitted line splits into the name, the year and the values. */
  lemma {:induction false} LineRow(name: string, y: int, vs: seq<int>)
    requires Plain(name) && RwlRoundTrip.AllFit(vs)
    ensures Row(Rwl.Line(name, y, vs) + Rwl.CRLF) == [name, IntToString(y)] + RwlRoundTrip.Strings(vs)
  {
    AsciiWhitespace();
    RwlRoundTrip.LineParts(name, y, vs);
    RwlRoundTrip.SplitFrame(name, Fill(name, 6) + 2, y, vs, AsciiBlanks);
    SplitCRLF(Rwl.Line(name, y, vs));
  }

  /** An emitted line gives the reader the name, the year and the values. */
  lemma {:induction false} LineFields(name: string, y: int, vs: seq<int>)
    requires Plain(name) && RwlRoundTrip.AllFit(vs)
    ensures FieldsOf(Row(Rwl.Line(name, y, vs) + Rwl.CRLF)) == Full(name, Some(y), Some(vs))
  {
    var row := [name, IntToString(y)] + RwlRoundTrip.Strings(vs);
    LineRow(name, y, vs);
    ParseIntOfIntToString(y);
    RwlRoundTrip.ParseStrings(vs);
    assert row[0] == name && row[1] == IntToString(y);
    assert Rwl.Drop2(row) == RwlRoundTrip.Strings(vs);
  }

  /** The reader's step on a row with values `vs`: in a new sample the row's name and year, in an
      open one the sample's, and the values appended to those before; the sample completes when
      the last of them is negative. */
  lemma {:induction false} StepFull(name: string, y: int, vs: seq<int>, acc: Progress, y0: int, pre: seq<int>)
    requires |vs| > 0
    requires (acc == Idle && pre == [] && y0 == y) || acc == Reading(name, y0, pre)
    ensures vs[|vs| - 1] >= 0 ==> LegacyStep(Full(name, Some(y), Some(vs)), acc) == Success((Reading(name, y0, pre + vs), []))
    ensures vs[|vs| - 1] < 0 ==>
              LegacyStep(Full(name, Some(y), Some(vs)), acc)
              == Success((Idle, [RawSample(name, y0, (pre + vs)[..|pre + vs| - 1], vs[|vs| - 1])]))
  {
    if acc == Idle {
      assert [] + vs == pre + vs;
    }
    assert (pre + vs)[|pre + vs| - 1] == vs[|vs| - 1];
  }

  // ---------------------------------------------------------------------------------------------
  // One sample
  // ---------------------------------------------------------------------------------------------

  /** A layout whose lines all hold values of at most five characters, each line's last value
      non-negative except on the last line, where it is negative. */
  ghost predicate Terminated(cs: seq<(int, seq<int>)>)
    decreases |cs|
  {
    && |cs| > 0 && |cs[0].1| > 0 && RwlRoundTrip.AllFit(cs[0].1)
    && if |cs| == 1 then cs[0].1[|cs[0].1| - 1] < 0
       else cs[0].1[|cs[0].1| - 1] >= 0 && Terminated(cs[1..])
  }

  /** `Terminated` without the bound on the values: the signs alone, which decide where the reader
      closes a sample. */
  ghost predicate Signed(cs: seq<(int, seq<int>)>)
    decreases |cs|
  {
    && |cs| > 0 && |cs[0].1| > 0
    && if |cs| == 1 then cs[0].1[|cs[0].1| - 1] < 0
       else cs[0].1[|cs[0].1| - 1] >= 0 && Signed(cs[1..])
  }

  lemma {:induction false} TerminatedSigned(cs: seq<(int, seq<int>)>)
    requires Terminated(cs)
    ensures Signed(cs)
    decreases |cs|
  {
    if |cs| > 1 {
      TerminatedSigned(cs[1..]);
    }
  }

  lemma {:induction false} TerminatedFit(cs: seq<(int, seq<int>)>, j: nat)
    requires Terminated(cs) && j < |cs|
    ensures RwlRoundTrip.AllFit(cs[j].1)
    decreases j
  {
    if j > 0 {
      TerminatedFit(cs[1..], j - 1);
      assert cs[1..][j - 1] == cs[j];
    }
  }

  lemma {:induction false} ChunksTerminated(year: int, raw: seq<int>)
    requires RwlRoundTrip.GoodValues(raw)
    ensures Terminated(Rwl.Chunks(year, raw + [LegacyTerminator]))
    decreases |raw|
  {
    var vs := raw + [LegacyTerminator];
    var r := Rwl.Room(year);
    Rwl.RoomEndsDecade(year);
    RwlRoundTrip.GoodValuesFit(raw);
    if |vs| <= r {
      assert Rwl.Chunks(year, vs) == [(year, vs)];
    } else {
      var cs := Rwl.Chunks(year, vs);
      assert cs == [(year, vs[..r])] + Rwl.Chunks(year + r, vs[r..]);
      assert vs[..r] == raw[..r];
      assert vs[r..] == raw[r..] + [LegacyTerminator];
      assert RwlRoundTrip.GoodValues(raw[r..]);
      ChunksTerminated(year + r, raw[r..]);
      assert cs[1..] == Rwl.Chunks(year + r, vs[r..]);
      assert cs[0].1[|cs[0].1| - 1] == raw[r - 1];
    }
  }

  /** The fields of the lines of layout `cs` of sample `name`, one row per line. */
  function LayoutFields(name: string, cs: seq<(int, seq<int>)>): (rows: seq<Fields>)
    ensures |rows| == |cs| && forall j :: 0 <= j < |cs| ==> rows[j] == Full(name, Some(cs[j].0), Some(cs[j].1))
  {
    seq(|cs|, j requires 0 <= j < |cs| => Full(name, Some(cs[j].0), Some(cs[j].1)))
  }

  lemma {:induction false} LayoutRows(e: Rwl.Encoded)
    requires Plain(e.name) && RwlRoundTrip.GoodValues(e.raw)
    ensures Rows(Layout(e)) == LayoutFields(e.name, Rwl.Chunks(e.fyog, e.raw + [LegacyTerminator]))
  {
    var cs := Rwl.Chunks(e.fyog, e.raw + [LegacyTerminator]);
    var lines := Layout(e);
    ChunksTerminated(e.fyog, e.raw);
    forall j | 0 <= j < |cs| ensures Rows(lines)[j] == LayoutFields(e.name, cs)[j] {
      TerminatedFit(cs, j);
      LineFields(e.name, cs[j].0, cs[j].1);
    }
  }

  /** The reader takes the rows of a terminated layout, from between samples or from within an
      open sample holding `pre`, to exactly one completed sample, `closing`, which holds `pre` and
      every value on them. */
  lemma {:induction false} LayoutScan(name: string, y0: int, cs: seq<(int, seq<int>)>, acc: Progress, pre: seq<int>,
                                      closing: RawSample)
    requires Signed(cs)
    requires (acc == Idle && pre == [] && y0 == cs[0].0) || acc == Reading(name, y0, pre)
    requires closing.name == name && closing.fyog == y0
    requires pre + Rwl.Flatten(cs) == closing.values + [closing.terminator]
    ensures LegacyScan(LayoutFields(name, cs), acc, []) == Success((Idle, [closing]))
    decreases |cs|
  {
    var rows := LayoutFields(name, cs);
    var c := cs[0];
    var raw := pre + c.1;
    StepFull(name, c.0, c.1, acc, y0, pre);
    assert Rwl.Flatten(cs) == c.1 + Rwl.Flatten(cs[1..]);
    var none: seq<RawSample> := [];
    if |cs| == 1 {
      assert Rwl.Flatten(cs[1..]) == [];
      assert raw == closing.values + [closing.terminator] by {
        assert c.1 + [] == c.1;
      }
      assert raw[..|raw| - 1] == closing.values;
      ScanStep(rows, acc, none, Idle, [closing]);
      assert none + [closing] == [closing];
    } else {
      ScanStep(rows, acc, none, Reading(name, y0, raw), none);
      assert raw + Rwl.Flatten(cs[1..]) == pre + Rwl.Flatten(cs);
      assert rows[1..] == LayoutFields(name, cs[1..]);
      LayoutScan(name, y0, cs[1..], Reading(name, y0, raw), raw, closing);
      assert none + none == none;
    }
  }

  /** `len(str(abs(-9999))) == 4`. */
  lemma {:induction false} TerminatorDigits()
    ensures DigitCount(9999) == 4
  {
    assert Pow10Nat(4) == 10000;
    assert Pow10Nat(3) == 1000;
    DigitCountExact(9999, 4);
  }

  /** What the reader, started afresh, makes of the lines of one sample: exactly that sample,
      completed. */
  ghost predicate BlockReads(rows: seq<Fields>, e: Rwl.Encoded) {
    LegacyScan(rows, Idle, []) == Success((Idle, [Closed(e)]))
  }

  /** The lines of one sample read back as that sample. */
  lemma {:induction false} SampleScan(e: Rwl.Encoded)
    requires Plain(e.name) && RwlRoundTrip.GoodValues(e.raw)
    ensures BlockReads(Rows(Layout(e)), e)
  {
    var vs := e.raw + [LegacyTerminator];
    var cs := Rwl.Chunks(e.fyog, vs);
    ChunksTerminated(e.fyog, e.raw);
    TerminatedSigned(cs);
    LayoutRows(e);
    assert cs[0].0 == e.fyog;
    Rwl.ChunksFlatten(e.fyog, vs);
    assert [] + Rwl.Flatten(cs) == vs;
    LayoutScan(e.name, e.fyog, cs, Idle, [], Closed(e));
  }

  /** Closing the sample at its terminator scales by four digits, those of 9999. */
  lemma {:induction false} FinishTerminated(e: Rwl.Encoded)
    ensures Finish(Closed(e)) == Expected(e)
  {
    TerminatorDigits();
    assert Factor(LegacyTerminator) == Rwl.Pow10(3) == 1000.0;
    assert Finish(Closed(e)).widths == Expected(e).widths;
  }

  // ---------------------------------------------------------------------------------------------
  // Whole files
  // ---------------------------------------------------------------------------------------------

  function Concat(bs: seq<seq<Fields>>): seq<Fields>
    decreases |bs|
  {
    if |bs| == 0 then [] else bs[0] + Concat(bs[1..])
  }

  /** The rows of each sample's lines. */
  function Blocks(es: seq<Rwl.Encoded>): (bs: seq<seq<Fields>>)
    ensures |bs| == |es| && forall k :: 0 <= k < |es| ==> bs[k] == Rows(Layout(es[k]))
  {
    seq(|es|, k requires 0 <= k < |es| => Rows(Layout(es[k])))
  }

  lemma {:induction false} EmitRows(es: seq<Rwl.Encoded>)
    ensures Concat(Blocks(es)) == Rows(Emit(es))
    decreases |es|
  {
    if |es| > 0 {
      RowsAppend(Layout(es[0]), Emit(es[1..]));
      assert Blocks(es)[1..] == Blocks(es[1..]);
      EmitRows(es[1..]);
    }
  }

  lemma {:induction false} BlocksTail(bs: seq<seq<Fields>>, es: seq<Rwl.Encoded>)
    requires 0 < |bs| == |es|
    requires forall k :: 0 <= k < |bs| ==> BlockReads(bs[k], es[k])
    ensures forall k :: 0 <= k < |bs[1..]| ==> BlockReads(bs[1..][k], es[1..][k])
  {
    forall k | 0 <= k < |bs[1..]| ensures BlockReads(bs[1..][k], es[1..][k]) {
      assert bs[1..][k] == bs[k + 1] && es[1..][k] == es[k + 1];
    }
  }

  /** Blocks that each read back as their sample, one after the other, read back as all of them. */
  lemma {:induction false} ScanBlocks(bs: seq<seq<Fields>>, es: seq<Rwl.Encoded>)
    requires |bs| == |es|
    requires forall k :: 0 <= k < |bs| ==> BlockReads(bs[k], es[k])
    ensures LegacyScan(Concat(bs), Idle, []) == Success((Idle, ClosedAll(es)))
    decreases |bs|
  {
    if |bs| > 0 {
      var e0, rest := Closed(es[0]), Concat(bs[1..]);
      assert Concat(bs) == bs[0] + rest;
      assert BlockReads(bs[0], es[0]);
      ScanThen(bs[0], rest, Idle, [], Idle, [e0]);
      BlocksTail(bs, es);
      ScanBlocks(bs[1..], es[1..]);
      ScanDone(rest, Idle, [e0]);
      assert ClosedAll(es) == [e0] + ClosedAll(es[1..]);
    }
  }

  /** Reading what the writer emits, without the bare head lines, gives back every sample in the
      given order: the name, the first year, and one width per value, which is that value over
      10^3 whatever `digits` the writer was given. */
  lemma {:induction false} ReadAfterWrite(es: seq<Rwl.Encoded>)
    requires Writable(es)
    ensures LegacyReadSpec(Emit(es)) == Success(ExpectedAll(es))
  {
    var bs := Blocks(es);
    forall k | 0 <= k < |bs| ensures BlockReads(bs[k], es[k]) {
      SampleScan(es[k]);
    }
    ScanBlocks(bs, es);
    EmitRows(es);
    forall k | 0 <= k < |es| ensures FinishAll(ClosedAll(es))[k] == ExpectedAll(es)[k] {
      FinishTerminated(es[k]);
    }
    assert FinishAll(ClosedAll(es)) == ExpectedAll(es);
  }

  /** As written, a sample whose first year is divisible by ten starts with a bare head line,
      whose row has no value: `widths[-1]` raises `IndexError` and the file cannot be read. */
  lemma {:induction false} BareHeadBreaksRead(es: seq<Rwl.Encoded>)
    requires |es| > 0 && es[0].fyog % 10 == 0 && Plain(es[0].name)
    ensures LegacyReadSpec(EmitAsWritten(es)) == Failure(IndexError)
  {
    var e := es[0];
    var lines := EmitAsWritten(es);
    assert lines == [Rwl.Head(e.name, e.fyog) + Rwl.CRLF] + (Layout(e) + EmitAsWritten(es[1..]));
    Rwl.HeadLine(e.name, e.fyog);
    LineRow(e.name, e.fyog, []);
    ParseIntOfIntToString(e.fyog);
    var rows := Rows(lines);
    assert rows[0] == FieldsOf(Row(lines[0]));
    assert Row(lines[0]) == [e.name, IntToString(e.fyog)];
    assert rows[0] == Full(e.name, Some(e.fyog), Some([]));
    assert LegacyStep(rows[0], Idle) == Failure(IndexError);
  }

  /** A concrete file that shows it: sample `AB` with one ring in 1990. */
  lemma {:induction false} BareHeadExample()
    ensures EmitAsWritten([Rwl.Encoded("AB", 1990, [5])])[0] == Rwl.Head("AB", 1990) + Rwl.CRLF
    ensures LegacyReadSpec(EmitAsWritten([Rwl.Encoded("AB", 1990, [5])])) == Failure(IndexError)
    ensures LegacyReadSpec(Emit([Rwl.Encoded("AB", 1990, [5])])) == Success([Entry("AB", 1990, [5.0 / 1000.0])])
  {
    var es := [Rwl.Encoded("AB", 1990, [5])];
    assert Plain("AB");
    BareHeadBreaksRead(es);
    assert RwlRoundTrip.GoodValues(es[0].raw);
    ReadAfterWrite(es);
    assert ExpectedAll(es) == [Expected(es[0])];
    assert Expected(es[0]).widths == [5.0 / 1000.0];
  }
}
