/** The first RWL codec (pydendro/model/rwl.py): a reader that accumulates the fields of
    whitespace-separated rows until a negative terminator closes a sample, and a writer that
    appends a negative terminator and starts a new line before every year divisible by ten. */
module LegacyRwl {
  import opened Wrappers
  import opened Text
  import Rwl

  /** The tuple `(name, year, widths)` that `read` returns for a sample. */
  datatype Entry = Entry(name: string, fyog: int, widths: seq<real>)

  /** The exceptions `read` lets escape: `row[0]`, `row[1]` or `widths[-1]` out of range, and
      `int()` of a token that is not an integer. */
  datatype LegacyError = IndexError | ValueError

  /** The reader's state between lines: `year is None`, or a sample being accumulated. */
  datatype Progress = Idle | Reading(name: string, year: int, raw: seq<int>)

  /** The value `write` appends to every sample: `round(-9999 / 10^(d-1) * 10^(d-1))`. */
  const LegacyTerminator: int := -9999

  // ---------------------------------------------------------------------------------------------
  // Reading
  // ---------------------------------------------------------------------------------------------

  /** `string.split(l)`: the runs of characters other than ASCII blanks. */
  function Row(line: string): seq<string> {
    Split(line, AsciiBlanks)
  }

  /** What the loop can take from a row: nothing by index when it has fewer than two fields (a
      blank row among them), otherwise `row[0]`, `int(row[1])` and `map(int, row[2:])`, each of the
      conversions `None` when a token is not an integer. */
  datatype Fields = Short | Full(name: string, year: Option<int>, values: Option<seq<int>>)

  function FieldsOf(row: seq<string>): Fields {
    if |row| < 2 then Short else Full(row[0], ParseInt(row[1]), Rwl.ParseInts(Rwl.Drop2(row)))
  }

  /** The integers of a completed sample as the loop holds them when the terminator arrives:
      every value before the terminator, and the terminator. */
  datatype RawSample = RawSample(name: string, fyog: int, values: seq<int>, terminator: int)

  /** `10.0**(digits-1)`, with `digits` the number of digits of the terminator's magnitude. */
  function Factor(terminator: int): real {
    Rwl.Pow10(DigitCount(if terminator < 0 then -terminator else terminator) - 1)
  }

  /** The entry `read` appends for a completed sample: every value but the terminator divided by
      the terminator's factor. */
  function Finish(s: RawSample): Entry {
    var factor := Factor(s.terminator);
    Entry(s.name, s.fyog, seq(|s.values|, i requires 0 <= i < |s.values| => s.values[i] as real / factor))
  }

  /** The digits are always inferred: the entry keeps name and first year, has one width per value
      before the terminator, and each width, multiplied by the terminator's factor, gives its value
      back. */
  lemma {:induction false} FinishScale(s: RawSample)
    ensures var e := Finish(s);
            && e.name == s.name && e.fyog == s.fyog && |e.widths| == |s.values|
            && forall i :: 0 <= i < |s.values| ==> e.widths[i] * Factor(s.terminator) == s.values[i] as real
  {
    var e := Finish(s);
    forall i | 0 <= i < |s.values| ensures e.widths[i] * Factor(s.terminator) == s.values[i] as real {
      Rwl.ScaleBack(s.values[i], e.widths[i], Factor(s.terminator));
    }
  }

  /** The entries of completed samples, in order. */
  function FinishAll(ss: seq<RawSample>): (es: seq<Entry>)
    ensures |es| == |ss| && forall k :: 0 <= k < |ss| ==> es[k] == Finish(ss[k])
  {
    seq(|ss|, k requires 0 <= k < |ss| => Finish(ss[k]))
  }

  /** One turn of the loop over the file's lines, on the line's fields `f`: the state afterwards
      and the samples completed on the line (none or one), or the exception. The first row of a
      sample supplies name and year; every row supplies its fields from the third on, of which a
      row with fewer than three has none. */
  function LegacyStep(f: Fields, acc: Progress): Result<(Progress, seq<RawSample>), LegacyError> {
    if acc.Idle? && f.Short? then Failure(IndexError)
    else if acc.Idle? && f.year.None? then Failure(ValueError)
    else
      match if f.Short? then Some([]) else f.values
      case None => Failure(ValueError)
      case Some(vs) =>
        var name := if acc.Idle? then f.name else acc.name;
        var year := if acc.Idle? then f.year.value else acc.year;
        var raw := (if acc.Idle? then [] else acc.raw) + vs;
        if |raw| == 0 then Failure(IndexError)
        else if raw[|raw| - 1] < 0 then Success((Idle, [RawSample(name, year, raw[..|raw| - 1], raw[|raw| - 1])]))
        else Success((Reading(name, year, raw), []))
  }

  /** The loop over the rows of the lines, started in state `acc` with samples `done` completed. */
  function LegacyScan(rows: seq<Fields>, acc: Progress, done: seq<RawSample>)
    : Result<(Progress, seq<RawSample>), LegacyError>
    decreases |rows|
  {
    if |rows| == 0 then Success((acc, done))
    else
      match LegacyStep(rows[0], acc)
      case Failure(e) => Failure(e)
      case Success(r) => LegacyScan(rows[1..], r.0, done + r.1)
  }

  /** The fields of every line. Splitting is pure, so taking them up front is the same as taking
      them as the loop reaches each line. */
  function Rows(lines: seq<string>): (rows: seq<Fields>)
    ensures |rows| == |lines|
  {
    seq(|lines|, i requires 0 <= i < |lines| => FieldsOf(Row(lines[i])))
  }

  lemma {:induction false} RowsAppend(a: seq<string>, b: seq<string>)
    ensures Rows(a + b) == Rows(a) + Rows(b)
  {
    var l, r := Rows(a + b), Rows(a) + Rows(b);
    forall i | 0 <= i < |l| ensures l[i] == r[i] {
      if i < |a| {
        assert (a + b)[i] == a[i];
      } else {
        assert (a + b)[i] == b[i - |a|];
      }
    }
  }

  /** What `read` returns for the lines of a file, or the exception it raises. A sample still
      being accumulated when the lines run out is not returned. */
  function LegacyReadSpec(lines: seq<string>): Result<seq<Entry>, LegacyError> {
    match LegacyScan(Rows(lines), Idle, [])
    case Failure(e) => Failure(e)
    case Success(r) => Success(FinishAll(r.1))
  }

  function ProgressOf(year: Option<int>, name: string, widths: seq<int>): Progress {
    if year.None? then Idle else Reading(name, year.value, widths)
  }

  lemma {:induction false} FinishAllSnoc(ss: seq<RawSample>, s: RawSample)
    ensures FinishAll(ss + [s]) == FinishAll(ss) + [Finish(s)]
  {
    assert forall k :: 0 <= k < |ss| ==> (ss + [s])[k] == ss[k];
  }

  /** The loop has reached line `k` of `lines` in state `acc` with samples `done` completed: what
      remains of the file leads to what the whole file leads to. */
  ghost predicate Reached(lines: seq<string>, k: nat, acc: Progress, done: seq<RawSample>) {
    k <= |lines| && LegacyScan(Rows(lines)[k..], acc, done) == LegacyScan(Rows(lines), Idle, [])
  }

  lemma {:induction false} ReachedStart(lines: seq<string>)
    ensures Reached(lines, 0, Idle, [])
  {
    assert Rows(lines)[0..] == Rows(lines);
  }

  lemma {:induction false} ReachedFails(lines: seq<string>, k: nat, acc: Progress, done: seq<RawSample>, e: LegacyError)
    requires Reached(lines, k, acc, done) && k < |lines|
    requires LegacyStep(Rows(lines)[k], acc) == Failure(e)
    ensures LegacyReadSpec(lines) == Failure(e)
  {
  }

  lemma {:induction false} ReachedMoves(lines: seq<string>, k: nat, acc: Progress, done: seq<RawSample>,
                                        next: Progress, found: seq<RawSample>)
    requires Reached(lines, k, acc, done) && k < |lines|
    requires LegacyStep(Rows(lines)[k], acc) == Success((next, found))
    ensures Reached(lines, k + 1, next, done + found)
  {
    var rows := Rows(lines);
    ScanStep(rows[k..], acc, done, next, found);
    assert rows[k..][1..] == rows[k + 1..];
  }

  lemma {:induction false} ReachedEnd(lines: seq<string>, acc: Progress, done: seq<RawSample>)
    requires Reached(lines, |lines|, acc, done)
    ensures LegacyReadSpec(lines) == Success(FinishAll(done))
  {
  }

  /** `read`, over the lines the file iterator yields. */
  method LegacyRead(lines: seq<string>) returns (r: Result<seq<Entry>, LegacyError>)
    ensures r == LegacyReadSpec(lines)
  {
    ghost var done: seq<RawSample> := [];
    var samples: seq<Entry> := [];
    var year: Option<int> := None;
    var name: string := "";
    var widths: seq<int> := [];
    var k := 0;
    ReachedStart(lines);
    while k < |lines|
      invariant 0 <= k <= |lines|
      invariant year.None? ==> widths == []
      invariant Reached(lines, k, ProgressOf(year, name, widths), done)
      invariant samples == FinishAll(done)
    {
      ghost var acc := ProgressOf(year, name, widths);
      var row := Split(lines[k], AsciiBlanks);
      ghost var f := Rows(lines)[k];
      assert f == FieldsOf(row);
      if year.None? {
        if |row| < 2 {
          ReachedFails(lines, k, acc, done, IndexError);
          return Failure(IndexError);
        }
        name := row[0];
        year := ParseInt(row[1]);
        if year.None? {
          ReachedFails(lines, k, acc, done, ValueError);
          return Failure(ValueError);
        }
      }
      var parsed := Rwl.ParseInts(Rwl.Drop2(row));
      assert f == if |row| < 2 then Short else Full(row[0], ParseInt(row[1]), parsed);
      if parsed.None? {
        ReachedFails(lines, k, acc, done, ValueError);
        return Failure(ValueError);
      }
      widths := widths + parsed.value;
      if |widths| == 0 {
        ReachedFails(lines, k, acc, done, IndexError);
        return Failure(IndexError);
      }
      ghost var found: seq<RawSample> := [];
      if widths[|widths| - 1] < 0 {
        var s := RawSample(name, year.value, widths[..|widths| - 1], widths[|widths| - 1]);
        found := [s];
        samples := samples + [Finish(s)];
        FinishAllSnoc(done, s);
        year := None;
        widths := [];
      } else {
        assert done + [] == done;
      }
      ReachedMoves(lines, k, acc, done, ProgressOf(year, name, widths), found);
      done := done + found;
      k := k + 1;
    }
    ReachedEnd(lines, ProgressOf(year, name, widths), done);
    return Success(samples);
  }

  /** A sample closes on a row exactly when the last value accumulated after it is negative; a
      row that leaves a sample open leaves a non-negative last value behind; the entry is named
      from the sample's first row. */
  lemma {:induction false} StepCloses(f: Fields, acc: Progress)
    requires acc.Reading? ==> |acc.raw| > 0 && acc.raw[|acc.raw| - 1] >= 0
    ensures match LegacyStep(f, acc)
            case Failure(_) => true
            case Success(r) =>
              && (r.0.Idle? <==> |r.1| == 1) && |r.1| <= 1
              && (r.0.Reading? ==> |r.0.raw| > 0 && r.0.raw[|r.0.raw| - 1] >= 0)
              && (|r.1| == 1 ==> f.Full? && r.1[0].name == (if acc.Reading? then acc.name else f.name))
    ensures acc.Reading? && (f.Short? || f.values == Some([])) ==> LegacyStep(f, acc) == Success((acc, []))
  {
    if acc.Reading? {
      assert acc.raw + [] == acc.raw;
    }
  }

  /** A blank line is not skipped: it raises `IndexError` between samples and adds nothing inside
      one. */
  lemma {:induction false} BlankLine(line: string, acc: Progress)
    requires Row(line) == []
    requires acc.Reading? ==> |acc.raw| > 0 && acc.raw[|acc.raw| - 1] >= 0
    ensures acc.Idle? ==> LegacyStep(FieldsOf(Row(line)), acc) == Failure(IndexError)
    ensures acc.Reading? ==> LegacyStep(FieldsOf(Row(line)), acc) == Success((acc, []))
  {
    StepCloses(FieldsOf(Row(line)), acc);
  }

  /** Running the loop over `a + b` is running it over `a`, then over `b` from where `a` left off. */
  lemma {:induction false} ScanAppend(a: seq<Fields>, b: seq<Fields>, acc: Progress, done: seq<RawSample>)
    ensures LegacyScan(a + b, acc, done)
            == match LegacyScan(a, acc, done)
               case Failure(e) => Failure(e)
               case Success(r) => LegacyScan(b, r.0, r.1)
    decreases |a|
  {
    if |a| == 0 {
      assert a + b == b;
    } else {
      assert (a + b)[0] == a[0];
      assert (a + b)[1..] == a[1..] + b;
      match LegacyStep(a[0], acc)
      case Failure(_) =>
      case Success(r) => ScanAppend(a[1..], b, r.0, done + r.1);
    }
  }

  /** Once the loop is through `a` without an exception, what follows starts where `a` left off. */
  lemma {:induction false} ScanThen(a: seq<Fields>, b: seq<Fields>, acc: Progress, done: seq<RawSample>,
                                    mid: Progress, found: seq<RawSample>)
    requires LegacyScan(a, acc, done) == Success((mid, found))
    ensures LegacyScan(a + b, acc, done) == LegacyScan(b, mid, found)
  {
    ScanAppend(a, b, acc, done);
  }

  /** One line's step, taken on its own. */
  lemma {:induction false} ScanStep(rows: seq<Fields>, acc: Progress, done: seq<RawSample>, next: Progress,
                                    found: seq<RawSample>)
    requires |rows| > 0 && LegacyStep(rows[0], acc) == Success((next, found))
    ensures LegacyScan(rows, acc, done) == LegacyScan(rows[1..], next, done + found)
  {
  }

  /** `done` prefixed to the entries of an outcome. */
  function After(done: seq<RawSample>, r: Result<(Progress, seq<RawSample>), LegacyError>)
    : Result<(Progress, seq<RawSample>), LegacyError>
  {
    match r
    case Failure(e) => Failure(e)
    case Success(x) => Success((x.0, done + x.1))
  }

  /** Samples are only ever appended: the loop started with `done` ends with `done` followed by the
      samples it completes from scratch, in the order of the lines, or raises what it raises from
      scratch. */
  lemma {:induction false} ScanDone(rows: seq<Fields>, acc: Progress, done: seq<RawSample>)
    ensures LegacyScan(rows, acc, done) == After(done, LegacyScan(rows, acc, []))
    decreases |rows|
  {
    if |rows| == 0 {
      assert done + [] == done;
    } else {
      match LegacyStep(rows[0], acc)
      case Failure(_) =>
      case Success(r) =>
        ScanDone(rows[1..], r.0, done + r.1);
        ScanDone(rows[1..], r.0, r.1);
        assert [] + r.1 == r.1;
        match LegacyScan(rows[1..], r.0, [])
        case Failure(_) =>
        case Success(x) => assert done + (r.1 + x.1) == (done + r.1) + x.1;
    }
  }

  /** A row with a name, a year and at least one value, none of them negative. */
  predicate Unterminated(f: Fields) {
    && f.Full? && f.year.Some? && f.values.Some? && |f.values.value| > 0
    && forall i :: 0 <= i < |f.values.value| ==> f.values.value[i] >= 0
  }

  /** Rows without a negative value keep a sample open and add no sample. */
  lemma {:induction false} OpenRows(rows: seq<Fields>, acc: Progress, done: seq<RawSample>)
    requires forall j :: 0 <= j < |rows| ==> Unterminated(rows[j])
    requires acc.Reading? ==> |acc.raw| > 0
    ensures LegacyScan(rows, acc, done).Success?
    ensures LegacyScan(rows, acc, done).value.1 == done
    decreases |rows|
  {
    if |rows| > 0 {
      var f := rows[0];
      assert Unterminated(f);
      var vs := f.values.value;
      assert vs[|vs| - 1] >= 0;
      var raw := (if acc.Idle? then [] else acc.raw) + vs;
      assert raw[|raw| - 1] == vs[|vs| - 1];
      var next := Reading(if acc.Idle? then f.name else acc.name, if acc.Idle? then f.year.value else acc.year, raw);
      assert LegacyStep(f, acc) == Success((next, []));
      forall j | 0 <= j < |rows[1..]| ensures Unterminated(rows[1..][j]) {
        assert rows[1..][j] == rows[j + 1];
      }
      OpenRows(rows[1..], next, done + []);
      assert done + [] == done;
    }
  }

  /** A sample whose rows never reach a negative value is silently dropped at the end of the file:
      the entries are those of the lines before it. */
  lemma {:induction false} TrailingSampleDropped(a: seq<string>, b: seq<string>, ss: seq<RawSample>)
    requires LegacyScan(Rows(a), Idle, []) == Success((Idle, ss))
    requires forall j :: 0 <= j < |b| ==> Unterminated(FieldsOf(Row(b[j])))
    ensures LegacyReadSpec(a + b) == Success(FinishAll(ss))
  {
    RowsAppend(a, b);
    ScanAppend(Rows(a), Rows(b), Idle, []);
    OpenRows(Rows(b), Idle, ss);
  }

  // ---------------------------------------------------------------------------------------------
  // Writing
  // ---------------------------------------------------------------------------------------------

  /** The decade-aligned lines of a sample, the terminator appended to its values: the first line
      is headed by the first year, each later one by a year divisible by ten. */
  function Layout(e: Rwl.Encoded): seq<string> {
    Rwl.Render(e.name, Rwl.Chunks(e.fyog, e.raw + [LegacyTerminator]))
  }

  /** The line of a bare head that `write` emits before the first value when that value's year is
      divisible by ten: the flush before such a year also fires on the first turn. */
  function Stray(e: Rwl.Encoded): seq<string> {
    if e.fyog % 10 == 0 then [Rwl.Head(e.name, e.fyog) + Rwl.CRLF] else []
  }

  /** Everything `write` puts in the file, line by line, samples in the given order. */
  function EmitAsWritten(es: seq<Rwl.Encoded>): seq<string>
    decreases |es|
  {
    if |es| == 0 then [] else Stray(es[0]) + Layout(es[0]) + EmitAsWritten(es[1..])
  }

  /** The file without the bare head lines. */
  function Emit(es: seq<Rwl.Encoded>): seq<string>
    decreases |es|
  {
    if |es| == 0 then [] else Layout(es[0]) + Emit(es[1..])
  }

  /** Samples whose first year is not divisible by ten are written as intended. */
  lemma {:induction false} EmitOffDecade(es: seq<Rwl.Encoded>)
    requires forall k :: 0 <= k < |es| ==> es[k].fyog % 10 != 0
    ensures EmitAsWritten(es) == Emit(es)
    decreases |es|
  {
    if |es| > 0 {
      assert Stray(es[0]) == [];
      assert [] + Layout(es[0]) == Layout(es[0]);
      EmitOffDecade(es[1..]);
    }
  }

  /** The layout bookkeeping of the inner loop of `write` before value `i` of `n`: the line under
      way is headed `head`, the year of value `start`, which begins the sample or a decade, and
      holds the values from `start` to `i`, no more than its decade has room for. */
  ghost predicate Lining(fyog: int, n: nat, start: nat, head: int, i: nat) {
    start <= i <= n && head == fyog + start
    && (start == 0 || head % 10 == 0)
    && i - start <= Rwl.Room(head)
  }

  /** Flushing before a year divisible by ten closes the next chunk of the layout. */
  lemma {:induction false} LiningFlush(fyog: int, rws: seq<int>, start: nat, head: int, i: nat,
                                       cs: seq<(int, seq<int>)>, vs: seq<int>)
    requires Lining(fyog, |rws|, start, head, i) && start < i < |rws| && (fyog + i) % 10 == 0
    requires cs == Rwl.Chunks(fyog, rws[..start]) && vs == rws[start..i]
    ensures cs + [(head, vs)] == Rwl.Chunks(fyog, rws[..i])
    ensures Lining(fyog, |rws|, i, fyog + i, i) && rws[i..i] == []
  {
    Rwl.ChunksStep(fyog, rws, start, i);
  }

  /** Flushing the line under way, after `pre`, appends the next chunk's line to the output. */
  lemma {:induction false} FlushLine(pre: seq<string>, name: string, fyog: int, rws: seq<int>, start: nat,
                                     head: int, i: nat, cs: seq<(int, seq<int>)>, vs: seq<int>, line: string)
    requires Lining(fyog, |rws|, start, head, i) && start < i < |rws| && (fyog + i) % 10 == 0
    requires cs == Rwl.Chunks(fyog, rws[..start]) && vs == rws[start..i] && line == Rwl.Line(name, head, vs)
    ensures cs + [(head, vs)] == Rwl.Chunks(fyog, rws[..i])
    ensures Lining(fyog, |rws|, i, fyog + i, i) && rws[i..i] == []
    ensures pre + Rwl.Render(name, cs) + [line + Rwl.CRLF] == pre + Rwl.Render(name, cs + [(head, vs)])
  {
    LiningFlush(fyog, rws, start, head, i, cs, vs);
    Rwl.RenderSnoc(name, cs, (head, vs));
  }

  /** A value appended without a flush still fits its line's decade. */
  lemma {:induction false} LiningGrow(fyog: int, rws: seq<int>, start: nat, head: int, i: nat, vs: seq<int>)
    requires Lining(fyog, |rws|, start, head, i) && i < |rws| && vs == rws[start..i]
    requires i == start || (fyog + i) % 10 != 0
    ensures Lining(fyog, |rws|, start, head, i + 1) && vs + [rws[i]] == rws[start..i + 1]
  {
    Rwl.RoomEndsDecade(head);
  }

  /** The line under way when the values run out is the last chunk of the layout. */
  lemma {:induction false} LiningDone(name: string, fyog: int, rws: seq<int>, start: nat, head: int,
                                      cs: seq<(int, seq<int>)>, vs: seq<int>)
    requires Lining(fyog, |rws|, start, head, |rws|) && start < |rws|
    requires cs == Rwl.Chunks(fyog, rws[..start]) && vs == rws[start..|rws|]
    ensures Rwl.Render(name, cs) + [Rwl.Line(name, head, vs) + Rwl.CRLF] == Rwl.Render(name, Rwl.Chunks(fyog, rws))
  {
    Rwl.ChunksStep(fyog, rws, start, |rws|);
    assert rws[..|rws|] == rws;
    Rwl.RenderSnoc(name, cs, (head, vs));
  }

  /** The inner loop of `write` as written, for values `rws` (terminator included): the line under
      way is flushed before every year divisible by ten, the first year too. */
  method WriteSampleAsWritten(name: string, fyog: int, rws: seq<int>) returns (out: seq<string>)
    requires |rws| > 0
    ensures out == (if fyog % 10 == 0 then [Rwl.Head(name, fyog) + Rwl.CRLF] else [])
                   + Rwl.Render(name, Rwl.Chunks(fyog, rws))
  {
    ghost var stray := if fyog % 10 == 0 then [Rwl.Head(name, fyog) + Rwl.CRLF] else [];
    ghost var start, head := 0, fyog;
    ghost var cs: seq<(int, seq<int>)>, vs: seq<int> := [], [];
    out := [];
    var line := Rwl.Head(name, fyog);
    Rwl.HeadLine(name, fyog);
    assert rws[..0] == [] && rws[0..0] == [];
    var i := 0;
    while i < |rws|
      invariant Lining(fyog, |rws|, start, head, i) && (i > 0 ==> start < i)
      invariant cs == Rwl.Chunks(fyog, rws[..start]) && vs == rws[start..i]
      invariant out == (if i > 0 then stray else []) + Rwl.Render(name, cs)
      invariant line == Rwl.Line(name, head, vs)
    {
      var year := fyog + i;
      if year % 10 == 0 {
        if i == 0 {
          out := out + [line + Rwl.CRLF];
        } else {
          FlushLine(stray, name, fyog, rws, start, head, i, cs, vs, line);
          out := out + [line + Rwl.CRLF];
          cs, vs := cs + [(head, vs)], [];
          start, head := i, year;
        }
        line := Rwl.Head(name, year);
        Rwl.HeadLine(name, year);
      }
      LiningGrow(fyog, rws, start, head, i, vs);
      Rwl.LineAppend(name, head, vs, rws[i]);
      line := line + Rwl.Field(rws[i]);
      vs := vs + [rws[i]];
      i := i + 1;
    }
    LiningDone(name, fyog, rws, start, head, cs, vs);
    out := out + [line + Rwl.CRLF];
  }

  /** The inner loop with the flush kept for years after the first: the decade-aligned lines. */
  method WriteSample(name: string, fyog: int, rws: seq<int>) returns (out: seq<string>)
    requires |rws| > 0
    ensures out == Rwl.Render(name, Rwl.Chunks(fyog, rws))
  {
    ghost var start, head := 0, fyog;
    ghost var cs: seq<(int, seq<int>)>, vs: seq<int> := [], [];
    out := [];
    var line := Rwl.Head(name, fyog);
    Rwl.HeadLine(name, fyog);
    assert rws[..0] == [] && rws[0..0] == [];
    var i := 0;
    while i < |rws|
      invariant Lining(fyog, |rws|, start, head, i) && (i > 0 ==> start < i)
      invariant cs == Rwl.Chunks(fyog, rws[..start]) && vs == rws[start..i]
      invariant out == Rwl.Render(name, cs)
      invariant line == Rwl.Line(name, head, vs)
    {
      var year := fyog + i;
      if year % 10 == 0 && i > 0 {
        FlushLine([], name, fyog, rws, start, head, i, cs, vs, line);
        assert [] + out == out;
        out := out + [line + Rwl.CRLF];
        cs, vs := cs + [(head, vs)], [];
        start, head := i, year;
        line := Rwl.Head(name, year);
        Rwl.HeadLine(name, year);
      }
      LiningGrow(fyog, rws, start, head, i, vs);
      Rwl.LineAppend(name, head, vs, rws[i]);
      line := line + Rwl.Field(rws[i]);
      vs := vs + [rws[i]];
      i := i + 1;
    }
    LiningDone(name, fyog, rws, start, head, cs, vs);
    out := out + [line + Rwl.CRLF];
  }

  lemma {:induction false} EmitAsWrittenSnoc(es: seq<Rwl.Encoded>, e: Rwl.Encoded)
    ensures EmitAsWritten(es + [e]) == EmitAsWritten(es) + (Stray(e) + Layout(e))
    decreases |es|
  {
    if |es| == 0 {
      assert es + [e] == [e];
      assert EmitAsWritten([e]) == Stray(e) + Layout(e) + EmitAsWritten([]);
    } else {
      assert (es + [e])[0] == es[0];
      assert (es + [e])[1..] == es[1..] + [e];
      EmitAsWrittenSnoc(es[1..], e);
    }
  }

  lemma {:induction false} EmitSnoc(es: seq<Rwl.Encoded>, e: Rwl.Encoded)
    ensures Emit(es + [e]) == Emit(es) + Layout(e)
    decreases |es|
  {
    if |es| == 0 {
      assert es + [e] == [e];
      assert Emit([e]) == Layout(e) + Emit([]);
    } else {
      assert (es + [e])[0] == es[0];
      assert (es + [e])[1..] == es[1..] + [e];
      EmitSnoc(es[1..], e);
    }
  }

  /** `write` as written, returning the lines it writes to the file. */
  method WriteAsWritten(samples: seq<Rwl.Encoded>) returns (out: seq<string>)
    ensures out == EmitAsWritten(samples)
  {
    out := [];
    var k := 0;
    while k < |samples|
      invariant 0 <= k <= |samples|
      invariant out == EmitAsWritten(samples[..k])
    {
      var e := samples[k];
      var lines := WriteSampleAsWritten(e.name, e.fyog, e.raw + [LegacyTerminator]);
      EmitAsWrittenSnoc(samples[..k], e);
      assert samples[..k] + [e] == samples[..k + 1];
      out := out + lines;
      k := k + 1;
    }
    assert samples[..k] == samples;
  }

  /** `write` without the bare head lines. */
  method Write(samples: seq<Rwl.Encoded>) returns (out: seq<string>)
    ensures out == Emit(samples)
  {
    out := [];
    var k := 0;
    while k < |samples|
      invariant 0 <= k <= |samples|
      invariant out == Emit(samples[..k])
    {
      var e := samples[k];
      var lines := WriteSample(e.name, e.fyog, e.raw + [LegacyTerminator]);
      EmitSnoc(samples[..k], e);
      assert samples[..k] + [e] == samples[..k + 1];
      out := out + lines;
      k := k + 1;
    }
    assert samples[..k] == samples;
  }
}
