/** The current RWL codec (pydendro/rwl.py): the `Sample` record, the reader that rebuilds
    multi-line samples from stripped text lines, and the writer that lays samples out in
    decade-aligned, fixed-width CRLF lines. */
module Rwl {
  import opened Wrappers
  import opened Text
  import Sorting

  /** A decoded ring-width series: `widths[i]` is the ring of year `fyog + i`. */
  datatype Sample = Sample(name: string, fyog: int, widths: seq<real>)
  {
    /** `nyears`. */
    function NYears(): nat {
      |widths|
    }

    /** `years`: `range(fyog, fyog + nyears)`. */
    function Years(): (ys: seq<int>)
      ensures |ys| == NYears()
      ensures forall i :: 0 <= i < |ys| ==> ys[i] == fyog + i
    {
      seq(|widths|, i => fyog + i)
    }

    /** `lyog`: the year of the last ring, which closes the range of `years`. */
    function Lyog(): (y: int)
      ensures NYears() > 0 ==> y == Years()[NYears() - 1]
      ensures NYears() == 0 ==> y == fyog - 1
    {
      fyog + |widths| - 1
    }
  }

  /** A sample as the writer lays it out: every width already scaled by `10^(digits-1)` and
      rounded to an integer. */
  datatype Encoded = Encoded(name: string, fyog: int, raw: seq<int>)

  /** What `read` raises: its own `ValueError`, citing a 1-based line number, or an uncaught
      `IndexError` (from `line[7]` on a line shorter than eight characters, or from `widths[-1]`
      when a sample's first row holds no value). */
  datatype ReadError = ValueError(line: nat) | IndexError

  /** The reader's state between lines: no sample open (`year is None`), or one being accumulated. */
  datatype Accumulator = NoSample | Open(name: string, year: int, raw: seq<int>)

  /** The raw value `write` ends every sample with. It writes `9999.0 / 10.0**(digits - 1)` scaled
      back by `10**(digits - 1)` and rounded, which is 9999 at the default `digits=4` this model
      writes with; for `digits` of 310 and more `10.0**(digits - 1)` raises `OverflowError`, and
      far enough below zero it is `0.0` and the division raises `ZeroDivisionError`. */
  const Terminator: int := 9999

  const CRLF: string := "\r\n"

  /** `10.0 ** e`, exactly. */
  function Pow10(e: int): (p: real)
    ensures p > 0.0
    decreases if e < 0 then -e else e
  {
    if e == 0 then 1.0 else if e > 0 then 10.0 * Pow10(e - 1) else Pow10(e + 1) / 10.0
  }

  // ---------------------------------------------------------------------------------------------
  // Reading
  // ---------------------------------------------------------------------------------------------

  /** `read_text`: every line of the file, surrounding blanks stripped. */
  function ReadText(lines: seq<string>): (r: seq<string>)
    ensures |r| == |lines|
    ensures forall i :: 0 <= i < |r| ==> r[i] == Strip(lines[i], UnicodeBlanks)
  {
    StripAll(lines, UnicodeBlanks)
  }

  /** The column repair: a space goes in after the first eight characters when the eighth is not
      one, so a name that fills its columns does not fuse with the year. */
  function Repair(line: string): string
    requires |line| >= 8
  {
    if line[7] != ' ' then line[..8] + " " + line[8..] else line
  }

  /** The fields of a data line: `line.split()` after the repair. */
  function Row(line: string): seq<string>
    requires |line| >= 8
  {
    Split(Repair(line), UnicodeBlanks)
  }

  /** `row[2:]`. */
  function Drop2(row: seq<string>): seq<string> {
    if |row| <= 2 then [] else row[2..]
  }

  /** `list(map(int, toks))`, or `None` when some token is not an integer. */
  function ParseInts(toks: seq<string>): Option<seq<int>> {
    if |toks| == 0 then Some([])
    else
      match (ParseInt(toks[0]), ParseInts(toks[1..]))
      case (Some(v), Some(vs)) => Some([v] + vs)
      case _ => None
  }

  /** The conversion succeeds exactly when every token is an integer, and then yields each
      token's value in order. */
  lemma {:induction false} ParseIntsMeaning(toks: seq<string>)
    ensures ParseInts(toks).Some? <==> forall i :: 0 <= i < |toks| ==> ParseInt(toks[i]).Some?
    ensures ParseInts(toks).Some? ==>
              |ParseInts(toks).value| == |toks|
              && forall i :: 0 <= i < |toks| ==> ParseInt(toks[i]) == Some(ParseInts(toks).value[i])
    decreases |toks|
  {
    if |toks| > 0 {
      ParseIntsMeaning(toks[1..]);
      if ParseInts(toks).Some? {
        var vs := ParseInts(toks).value;
        forall i | 0 < i < |toks| ensures ParseInt(toks[i]) == Some(vs[i]) {
          assert toks[i] == toks[1..][i - 1];
        }
      } else if ParseInt(toks[0]).Some? {
        var i :| 0 <= i < |toks[1..]| && ParseInt(toks[1..][i]).None?;
        assert toks[i + 1] == toks[1..][i];
      }
    }
  }

  /** The `d` of `read`: `digits` if it is truthy, otherwise the number of decimal digits of the
      terminator's magnitude. */
  function EffectiveDigits(digits: Option<int>, terminator: int): int {
    if digits.Some? && digits.value != 0 then digits.value
    else DigitCount(if terminator < 0 then -terminator else terminator)
  }

  /** Each raw value divided by `10^(d-1)`. */
  function Decode(raw: seq<int>, d: int): seq<real>
    decreases |raw|
  {
    if |raw| == 0 then [] else [raw[0] as real / Pow10(d - 1)] + Decode(raw[1..], d)
  }

  /** Each decoded width is its raw value over `10^(d-1)`, in order. */
  lemma {:induction false} DecodeEach(raw: seq<int>, d: int)
    ensures |Decode(raw, d)| == |raw|
    ensures forall i :: 0 <= i < |raw| ==> Decode(raw, d)[i] == raw[i] as real / Pow10(d - 1)
    decreases |raw|
  {
    if |raw| > 0 {
      DecodeEach(raw[1..], d);
      forall i | 0 < i < |raw| ensures Decode(raw, d)[i] == raw[i] as real / Pow10(d - 1) {
        assert Decode(raw, d)[i] == Decode(raw[1..], d)[i - 1];
        assert raw[i] == raw[1..][i - 1];
      }
    }
  }

  lemma ScaleBack(x: int, w: real, p: real)
    requires p > 0.0 && w == x as real / p
    ensures w * p == x as real
  {
  }

  /** One width per raw value, which it gives back when multiplied by `10^(d-1)`. */
  lemma {:induction false} DecodeScale(raw: seq<int>, d: int)
    ensures |Decode(raw, d)| == |raw|
    ensures forall i :: 0 <= i < |raw| ==> Decode(raw, d)[i] * Pow10(d - 1) == raw[i] as real
  {
    DecodeEach(raw, d);
    forall i | 0 <= i < |raw| ensures Decode(raw, d)[i] * Pow10(d - 1) == raw[i] as real {
      ScaleBack(raw[i], Decode(raw, d)[i], Pow10(d - 1));
    }
  }

  /** The sample a completed accumulator yields: terminator dropped, the rest rescaled. */
  function Close(name: string, year: int, raw: seq<int>, digits: Option<int>): Sample
    requires |raw| > 0
  {
    Sample(name, year, Decode(raw[..|raw| - 1], EffectiveDigits(digits, raw[|raw| - 1])))
  }

  /** The closed sample keeps the name and first year, drops the terminator, and holds every
      other raw value divided by `10^(d-1)`. */
  lemma {:induction false} CloseShape(name: string, year: int, raw: seq<int>, digits: Option<int>)
    requires |raw| > 0
    ensures var s := Close(name, year, raw, digits);
            && s.name == name && s.fyog == year && s.NYears() == |raw| - 1
            && forall i :: 0 <= i < |raw| - 1 ==>
                 s.widths[i] == raw[i] as real / Pow10(EffectiveDigits(digits, raw[|raw| - 1]) - 1)
  {
    var vs := raw[..|raw| - 1];
    DecodeEach(vs, EffectiveDigits(digits, raw[|raw| - 1]));
    assert forall i :: 0 <= i < |vs| ==> vs[i] == raw[i];
  }

  /** The end test after line `i`: the last value is negative, or the line is the file's last, or
      the next line does not start with the sample's name. */
  predicate Ends(lines: seq<string>, i: nat, name: string, raw: seq<int>)
    requires i < |lines| && |raw| > 0
  {
    raw[|raw| - 1] < 0 || i == |lines| - 1 || !StartsWith(lines[i + 1], name)
  }

  /** The accumulator after values `raw` of sample `name`, first year `year`, were read on line
      `i`: closed into a sample if the end test holds, still open otherwise. */
  function Settle(lines: seq<string>, digits: Option<int>, i: nat, name: string, year: int, raw: seq<int>)
    : Result<(Accumulator, seq<Sample>), ReadError>
    requires i < |lines|
  {
    if |raw| == 0 then Failure(IndexError)
    else if Ends(lines, i, name, raw) then Success((NoSample, [Close(name, year, raw, digits)]))
    else Success((Open(name, year, raw), []))
  }

  /** A data line, split into `row`, taken in by the accumulator: a new sample's first row
      supplies its name and year, every row its values from the third field on. */
  function Absorb(lines: seq<string>, digits: Option<int>, i: nat, acc: Accumulator, row: seq<string>)
    : Result<(Accumulator, seq<Sample>), ReadError>
    requires i < |lines|
  {
    if acc.NoSample? && (|row| < 2 || ParseInt(row[1]).None?) then Failure(ValueError(i + 1))
    else
      match ParseInts(Drop2(row))
      case None => Failure(ValueError(i + 1))
      case Some(vs) =>
        if acc.Open? then Settle(lines, digits, i, acc.name, acc.year, acc.raw + vs)
        else Settle(lines, digits, i, row[0], ParseInt(row[1]).value, vs)
  }

  /** The fields `read` takes from every line: `line.split()` after the repair for a line long
      enough to be repaired, nothing for a shorter one (which is skipped when empty and makes
      `line[7]` raise otherwise). Splitting is pure, so taking every line's fields up front is the
      same as taking them as the loop reaches the line. */
  function Rows(lines: seq<string>): (rows: seq<seq<string>>)
    ensures |rows| == |lines|
  {
    seq(|lines|, i requires 0 <= i < |lines| => if |lines[i]| >= 8 then Row(lines[i]) else [])
  }

  /** One turn of the loop over lines, with `rows[i]` the fields of line `i`: the accumulator
      afterwards and the samples completed on line `i` (none or one), or the exception. Empty
      lines are skipped. */
  function Step(lines: seq<string>, rows: seq<seq<string>>, digits: Option<int>, i: nat, acc: Accumulator)
    : Result<(Accumulator, seq<Sample>), ReadError>
    requires i < |lines| == |rows|
  {
    if |lines[i]| == 0 then Success((acc, []))
    else if |lines[i]| < 8 then Failure(IndexError)
    else Absorb(lines, digits, i, acc, rows[i])
  }

  /** The loop from line `i` on, started with accumulator `acc` and samples `done`. */
  function Scan(lines: seq<string>, rows: seq<seq<string>>, digits: Option<int>, i: nat, acc: Accumulator,
                done: seq<Sample>)
    : Result<(Accumulator, seq<Sample>), ReadError>
    requires i <= |lines| == |rows|
    decreases |lines| - i
  {
    if i == |lines| then Success((acc, done))
    else
      match Step(lines, rows, digits, i, acc)
      case Failure(e) => Failure(e)
      case Success(r) => Scan(lines, rows, digits, i + 1, r.0, done + r.1)
  }

  /** What `read` returns for the stripped `lines`, or the exception it raises. */
  function ReadSpec(lines: seq<string>, digits: Option<int>): Result<seq<Sample>, ReadError> {
    match Scan(lines, Rows(lines), digits, 0, NoSample, [])
    case Failure(e) => Failure(e)
    case Success(r) => Success(r.1)
  }

  function AccumulatorOf(year: Option<int>, name: string, widths: seq<int>): Accumulator {
    if year.None? then NoSample else Open(name, year.value, widths)
  }

  lemma {:induction false} ScanStep(lines: seq<string>, rows: seq<seq<string>>, digits: Option<int>, i: nat, acc: Accumulator,
                 done: seq<Sample>, next: Accumulator, found: seq<Sample>)
    requires i < |lines| == |rows|
    requires Step(lines, rows, digits, i, acc) == Success((next, found))
    ensures Scan(lines, rows, digits, i, acc, done) == Scan(lines, rows, digits, i + 1, next, done + found)
  {
  }

  lemma {:induction false} ScanFail(lines: seq<string>, rows: seq<seq<string>>, digits: Option<int>, i: nat, acc: Accumulator,
                 done: seq<Sample>, e: ReadError)
    requires i < |lines| == |rows|
    requires Step(lines, rows, digits, i, acc) == Failure(e)
    ensures Scan(lines, rows, digits, i, acc, done) == Failure(e)
  {
  }

  lemma {:induction false} AbsorbValues(lines: seq<string>, digits: Option<int>, i: nat, acc: Accumulator, row: seq<string>,
                     name: string, year: int, raw: seq<int>)
    requires i < |lines|
    requires acc.Open? || (|row| >= 2 && ParseInt(row[1]).Some?)
    requires ParseInts(Drop2(row)).Some?
    requires name == (if acc.Open? then acc.name else row[0])
    requires year == (if acc.Open? then acc.year else ParseInt(row[1]).value)
    requires raw == (if acc.Open? then acc.raw else []) + ParseInts(Drop2(row)).value
    ensures Absorb(lines, digits, i, acc, row) == Settle(lines, digits, i, name, year, raw)
  {
    if acc.NoSample? {
      assert [] + ParseInts(Drop2(row)).value == ParseInts(Drop2(row)).value;
    }
  }

  lemma {:induction false} EndsCases(lines: seq<string>, i: nat, name: string, raw: seq<int>, closes: bool)
    requires i < |lines| && |raw| > 0
    requires i < |lines| - 1 ==> closes == (raw[|raw| - 1] < 0 || !StartsWith(lines[i + 1], name))
    requires i == |lines| - 1 ==> closes
    ensures closes == Ends(lines, i, name, raw)
  {
  }

  /** `read`, over the lines `read_text` returns. */
  method Read(lines: seq<string>, digits: Option<int>) returns (r: Result<seq<Sample>, ReadError>)
    ensures r == ReadSpec(lines, digits)
  {
    ghost var rows := Rows(lines);
    var samples: seq<Sample> := [];
    var year: Option<int> := None;
    var name: string := "";
    var widths: seq<int> := [];
    var lineno := 0;
    while lineno < |lines|
      invariant 0 <= lineno <= |lines|
      invariant year.None? ==> widths == []
      invariant Scan(lines, rows, digits, lineno, AccumulatorOf(year, name, widths), samples)
                == Scan(lines, rows, digits, 0, NoSample, [])
    {
      ghost var acc := AccumulatorOf(year, name, widths);
      var line := lines[lineno];
      if |line| == 0 {
        ScanStep(lines, rows, digits, lineno, acc, samples, acc, []);
        assert samples + [] == samples;
        lineno := lineno + 1;
        continue;
      }
      if |line| < 8 {
        ScanFail(lines, rows, digits, lineno, acc, samples, IndexError);
        return Failure(IndexError);
      }
      if line[7] != ' ' {
        line := line[..8] + " " + line[8..];
      }
      var row := Split(line, UnicodeBlanks);
      assert row == rows[lineno];
      if year.None? {
        if |row| < 2 || ParseInt(row[1]).None? {
          ScanFail(lines, rows, digits, lineno, acc, samples, ValueError(lineno + 1));
          return Failure(ValueError(lineno + 1));
        }
        name := row[0];
        year := ParseInt(row[1]);
      }
      var parsed := ParseInts(Drop2(row));
      if parsed.None? {
        ScanFail(lines, rows, digits, lineno, acc, samples, ValueError(lineno + 1));
        return Failure(ValueError(lineno + 1));
      }
      AbsorbValues(lines, digits, lineno, acc, row, name, year.value, widths + parsed.value);
      widths := widths + parsed.value;
      if |widths| == 0 {
        ScanFail(lines, rows, digits, lineno, acc, samples, IndexError);
        return Failure(IndexError);
      }
      var last := widths[|widths| - 1] < 0 || lineno == |lines| - 1;
      if lineno < |lines| - 1 {
        last := last || !StartsWith(lines[lineno + 1], name);
      }
      EndsCases(lines, lineno, name, widths, last);
      if last {
        ScanStep(lines, rows, digits, lineno, acc, samples, NoSample, [Close(name, year.value, widths, digits)]);
        samples := samples + [Close(name, year.value, widths, digits)];
        year := None;
        widths := [];
      } else {
        ScanStep(lines, rows, digits, lineno, acc, samples, Open(name, year.value, widths), []);
        assert samples + [] == samples;
      }
      lineno := lineno + 1;
    }
    return Success(samples);
  }

  // ---------------------------------------------------------------------------------------------
  // Writing
  // ---------------------------------------------------------------------------------------------

  /** `"%-6s  %4d" % (name, year)`: how every line starts. */
  function Head(name: string, year: int): string {
    PadRight(name, 6) + "  " + PadLeft(IntToString(year), 4)
  }

  /** `"%6d" % v`. */
  function Field(v: int): string {
    PadLeft(IntToString(v), 6)
  }

  function Fields(vs: seq<int>): string
    decreases |vs|
  {
    if |vs| == 0 then "" else Fields(vs[..|vs| - 1]) + Field(vs[|vs| - 1])
  }

  /** A line without its line end: the head, then one field per value. */
  function Line(name: string, year: int, vs: seq<int>): string {
    Head(name, year) + Fields(vs)
  }

  /** How many values fit on a line headed `year` before its decade ends. */
  function Room(year: int): nat {
    10 - year % 10
  }

  /** The writer's layout of `vs`, the values of consecutive years from `year` on, as
      (head year, values) per line: the first line runs to the end of its decade, each later line
      covers one calendar decade. */
  function Chunks(year: int, vs: seq<int>): seq<(int, seq<int>)>
    decreases |vs|
  {
    if |vs| == 0 then []
    else if |vs| <= Room(year) then [(year, vs)]
    else [(year, vs[..Room(year)])] + Chunks(year + Room(year), vs[Room(year)..])
  }

  /** The emitted lines, each with its CRLF. */
  function Render(name: string, cs: seq<(int, seq<int>)>): (r: seq<string>)
    ensures |r| == |cs|
    ensures forall j :: 0 <= j < |cs| ==> r[j] == Line(name, cs[j].0, cs[j].1) + CRLF
  {
    seq(|cs|, j requires 0 <= j < |cs| => Line(name, cs[j].0, cs[j].1) + CRLF)
  }

  /** The lines `write` emits for one sample, the terminator appended to its values. */
  function SampleLines(e: Encoded): seq<string> {
    Render(e.name, Chunks(e.fyog, e.raw + [Terminator]))
  }

  /** The lines for all samples, in the given order. */
  function Emit(es: seq<Encoded>): seq<string>
    decreases |es|
  {
    if |es| == 0 then [] else SampleLines(es[0]) + Emit(es[1..])
  }

  function ByName(e: Encoded): string {
    e.name
  }

  /** The order `write` emits samples in: by name by default, by `key` if one is given, as given
      when `sort` is false. */
  function Order(samples: seq<Encoded>, sort: bool, key: Option<Encoded -> string>): seq<Encoded> {
    if !sort then samples
    else if key.None? then Sorting.SortBy(samples, ByName)
    else Sorting.SortBy(samples, key.value)
  }

  /** What `write` raises: `UnicodeEncodeError` from `.encode('ascii')` of a line whose name holds
      a character outside ASCII. The file is then left as it was: the lines went to a temporary
      file that is never moved over it. */
  datatype WriteError = UnicodeEncodeError

  /** Every character is ASCII, so `.encode('ascii')` succeeds. */
  predicate Ascii(s: string) {
    forall i :: 0 <= i < |s| ==> s[i] as int < 128
  }

  /** Every line of every sample is ASCII: apart from the name it holds only digits, signs and
      blanks. */
  predicate Encodable(es: seq<Encoded>) {
    forall k :: 0 <= k < |es| ==> Ascii(es[k].name)
  }

  /** Everything `write` puts in the file, line by line, or the error it raises instead. */
  function WriteSpec(samples: seq<Encoded>, sort: bool, key: Option<Encoded -> string>)
    : Result<seq<string>, WriteError>
  {
    var ordered := Order(samples, sort, key);
    if Encodable(ordered) then Success(Emit(ordered)) else Failure(UnicodeEncodeError)
  }

  /** `write` fails exactly when some sample's name is not ASCII, whatever the order. */
  lemma {:induction false} WriteFails(samples: seq<Encoded>, sort: bool, key: Option<Encoded -> string>)
    ensures WriteSpec(samples, sort, key).Failure? <==> exists e :: e in samples && !Ascii(e.name)
  {
    var ordered := Order(samples, sort, key);
    if sort {
      Sorting.SortByPermutes(samples, if key.None? then ByName else key.value);
    }
    assert multiset(ordered) == multiset(samples);
    forall e ensures e in ordered <==> e in samples {
      assert e in ordered <==> e in multiset(ordered);
      assert e in samples <==> e in multiset(samples);
    }
    if !Encodable(ordered) {
      var k :| 0 <= k < |ordered| && !Ascii(ordered[k].name);
      assert ordered[k] in samples;
    } else {
      forall e | e in samples ensures Ascii(e.name) {
        var k :| 0 <= k < |ordered| && ordered[k] == e;
      }
    }
  }

  /** The values of a layout, line after line. */
  function Flatten(cs: seq<(int, seq<int>)>): seq<int>
    decreases |cs|
  {
    if |cs| == 0 then [] else cs[0].1 + Flatten(cs[1..])
  }

  /** A decade-aligned layout of `vs` from `year` on: the lines hold `vs` in order; the first is
      headed `year` and each later one by the year after its predecessor's last value; no line is
      empty; a line never runs past a year ending in 9, and every line but the last ends on one. */
  ghost predicate DecadeLayout(year: int, vs: seq<int>, cs: seq<(int, seq<int>)>) {
    && Flatten(cs) == vs
    && (|cs| > 0 ==> cs[0].0 == year)
    && Aligned(cs)
  }

  /** The shape of a decade-aligned layout, whatever its values. */
  ghost predicate Aligned(cs: seq<(int, seq<int>)>) {
    && (forall j :: 0 <= j < |cs| - 1 ==> cs[j + 1].0 == cs[j].0 + |cs[j].1|)
    && (forall j :: 0 <= j < |cs| ==> 0 < |cs[j].1| <= Room(cs[j].0))
    && (forall j :: 0 <= j < |cs| - 1 ==> (cs[j].0 + |cs[j].1|) % 10 == 0)
  }

  lemma {:induction false} AlignedCons(c: (int, seq<int>), rest: seq<(int, seq<int>)>)
    requires Aligned(rest) && 0 < |c.1| <= Room(c.0)
    requires |rest| > 0 ==> rest[0].0 == c.0 + |c.1| && (c.0 + |c.1|) % 10 == 0
    ensures Aligned([c] + rest)
  {
    var cs := [c] + rest;
    assert cs[0] == c;
    forall j | 0 <= j < |cs| - 1
      ensures cs[j + 1].0 == cs[j].0 + |cs[j].1| && (cs[j].0 + |cs[j].1|) % 10 == 0
    {
      assert cs[j + 1] == rest[j];
      if j > 0 {
        assert cs[j] == rest[j - 1];
      }
    }
    forall j | 0 < j < |cs| ensures 0 < |cs[j].1| <= Room(cs[j].0) {
      assert cs[j] == rest[j - 1];
    }
  }

  lemma {:induction false} AlignedTail(cs: seq<(int, seq<int>)>)
    requires Aligned(cs) && |cs| > 0
    ensures Aligned(cs[1..])
  {
    var tail := cs[1..];
    forall j | 0 <= j < |tail| ensures tail[j] == cs[j + 1] {
    }
  }

  // Layout arithmetic

  lemma {:induction false} RoomEndsDecade(y: int)
    ensures (y + Room(y)) % 10 == 0
    ensures 1 <= Room(y) <= 10
  {
    var r := y % 10;
    assert y == 10 * (y / 10) + r;
    assert y + Room(y) == 10 * (y / 10 + 1);
  }

  /** The first decade end after `y` is `Room(y)` years on. */
  lemma {:induction false} RoomIsFirstDecadeEnd(y: int, m: int)
    requires 0 < m && (y + m) % 10 == 0
    ensures m >= Room(y)
  {
    var r := y % 10;
    assert y == 10 * (y / 10) + r;
    assert y + m == 10 * ((y + m) / 10);
    var t := (y + m) / 10 - y / 10;
    assert r + m == 10 * t;
  }

  lemma {:induction false} ChunksSnoc(y: int, p: seq<int>, q: seq<int>)
    requires |p| == 0 || (y + |p|) % 10 == 0
    requires 0 < |q| <= Room(y + |p|)
    ensures Chunks(y, p + q) == Chunks(y, p) + [(y + |p|, q)]
    decreases |p|
  {
    if |p| == 0 {
      assert p + q == q;
    } else {
      var k := Room(y);
      RoomIsFirstDecadeEnd(y, |p|);
      RoomEndsDecade(y);
      if |p| == k {
        assert (p + q)[..k] == p;
        assert (p + q)[k..] == q;
        assert Room(y + k) == 10;
      } else {
        assert (p + q)[..k] == p[..k];
        assert (p + q)[k..] == p[k..] + q;
        ChunksSnoc(y + k, p[k..], q);
      }
    }
  }

  lemma {:induction false} ChunksFlatten(year: int, vs: seq<int>)
    ensures Flatten(Chunks(year, vs)) == vs
    decreases |vs|
  {
    if |vs| == 0 {
    } else if |vs| <= Room(year) {
      assert Flatten(Chunks(year, vs)) == vs + Flatten([]);
    } else {
      var k := Room(year);
      var cs, rest := Chunks(year, vs), Chunks(year + k, vs[k..]);
      assert cs == [(year, vs[..k])] + rest;
      assert cs[0].1 == vs[..k] && cs[1..] == rest;
      ChunksFlatten(year + k, vs[k..]);
      FlattenFront(cs);
      assert vs[..k] + vs[k..] == vs;
    }
  }

  lemma {:induction false} ChunksLines(year: int, vs: seq<int>)
    ensures var cs := Chunks(year, vs); (|cs| > 0 ==> cs[0].0 == year) && Aligned(cs)
    decreases |vs|
  {
    RoomEndsDecade(year);
    if |vs| == 0 {
    } else if |vs| <= Room(year) {
      AlignedCons((year, vs), []);
      assert [(year, vs)] + [] == Chunks(year, vs);
    } else {
      var k := Room(year);
      var rest := Chunks(year + k, vs[k..]);
      ChunksLines(year + k, vs[k..]);
      AlignedCons((year, vs[..k]), rest);
      assert Chunks(year, vs) == [(year, vs[..k])] + rest;
    }
  }

  /** `Chunks` is a decade-aligned layout. */
  lemma {:induction false} ChunksLayout(year: int, vs: seq<int>)
    ensures DecadeLayout(year, vs, Chunks(year, vs))
  {
    ChunksFlatten(year, vs);
    ChunksLines(year, vs);
  }

  lemma {:induction false} FlattenFront(cs: seq<(int, seq<int>)>)
    requires |cs| > 0
    ensures Flatten(cs) == cs[0].1 + Flatten(cs[1..])
  {
  }

  /** Past its first line, a decade-aligned layout of more than one line is one of the rest of
      the values, from the year after that line. */
  lemma {:induction false} DecadeLayoutTail(year: int, vs: seq<int>, cs: seq<(int, seq<int>)>)
    requires DecadeLayout(year, vs, cs) && |cs| > 1
    ensures var k := |cs[0].1|;
            && k < |vs| && vs[..k] == cs[0].1
            && (year + k) % 10 == 0 && 0 < k <= Room(year)
            && DecadeLayout(year + k, vs[k..], cs[1..])
  {
    var c, tail := cs[0], cs[1..];
    var k := |c.1|;
    assert 0 < k <= Room(c.0) && (c.0 + k) % 10 == 0;
    assert tail[0] == cs[1] && tail[0].0 == year + k && |tail[0].1| > 0;
    FlattenFront(cs);
    FlattenFront(tail);
    assert vs[..k] == c.1 && vs[k..] == Flatten(tail);
    AlignedTail(cs);
  }

  /** ... and the only one: any decade-aligned layout of `vs` from `year` is `Chunks(year, vs)`. */
  lemma {:induction false} DecadeLayoutUnique(year: int, vs: seq<int>, cs: seq<(int, seq<int>)>)
    requires DecadeLayout(year, vs, cs)
    ensures cs == Chunks(year, vs)
    decreases |cs|
  {
    if |cs| == 1 {
      assert Flatten(cs) == cs[0].1 + Flatten(cs[1..]);
      assert vs == cs[0].1;
    } else if |cs| > 1 {
      var k := |cs[0].1|;
      DecadeLayoutTail(year, vs, cs);
      RoomIsFirstDecadeEnd(year, k);
      DecadeLayoutUnique(year + k, vs[k..], cs[1..]);
      assert cs == [(year, vs[..k])] + cs[1..];
    }
  }

  /** The layout of a sample running from 1990 to 2015 (26 widths and the terminator): lines
      headed 1990, 2000 and 2010, the last holding six widths and the terminator. */
  lemma {:induction false} LayoutExample(raw: seq<int>)
    requires |raw| == 26
    ensures var cs := Chunks(1990, raw + [Terminator]);
            |cs| == 3 && cs[0].0 == 1990 && cs[1].0 == 2000 && cs[2].0 == 2010
            && cs[0].1 == raw[..10] && cs[1].1 == raw[10..20] && cs[2].1 == raw[20..] + [Terminator]
  {
    var vs := raw + [Terminator];
    assert Room(1990) == 10 && Room(2000) == 10 && Room(2010) == 10;
    var v1, v2 := vs[10..], vs[20..];
    assert v1[10..] == v2;
    assert Chunks(2010, v2) == [(2010, v2)];
    assert Chunks(2000, v1) == [(2000, v1[..10])] + Chunks(2010, v2);
    assert Chunks(1990, vs) == [(1990, vs[..10])] + Chunks(2000, v1);
    assert vs[..10] == raw[..10];
    assert v1[..10] == raw[10..20];
    assert v2 == raw[20..] + [Terminator];
  }

  lemma {:induction false} FieldsSnoc(vs: seq<int>, v: int)
    ensures Fields(vs + [v]) == Fields(vs) + Field(v)
  {
    assert (vs + [v])[..|vs|] == vs;
  }

  lemma {:induction false} RenderSnoc(name: string, cs: seq<(int, seq<int>)>, c: (int, seq<int>))
    ensures Render(name, cs + [c]) == Render(name, cs) + [Line(name, c.0, c.1) + CRLF]
  {
  }

  lemma {:induction false} EmitSnoc(es: seq<Encoded>, e: Encoded)
    ensures Emit(es + [e]) == Emit(es) + SampleLines(e)
    decreases |es|
  {
    if |es| == 0 {
      assert es + [e] == [e];
      assert Emit([e]) == SampleLines(e) + Emit([]);
    } else {
      assert (es + [e])[1..] == es[1..] + [e];
      EmitSnoc(es[1..], e);
    }
  }

  /** The layout bookkeeping of the inner loop of `write` after `i` of the `n` values: the line
      under way is headed `head`, the year of value `start`, which begins the sample or a decade,
      and has room for the values from `start` to `i`. */
  ghost predicate Drafting(fyog: int, n: nat, start: nat, head: int, i: nat) {
    start <= i <= n && start < n && head == fyog + start
    && (start == 0 || head % 10 == 0)
    && i - start <= Room(head) && (i - start == Room(head) ==> i == n)
  }

  /** A value that does not close its line extends it. */
  lemma {:induction false} DraftingGrow(fyog: int, rws: seq<int>, start: nat, head: int, i: nat, vs: seq<int>)
    requires Drafting(fyog, |rws|, start, head, i) && vs == rws[start..i] && i < |rws|
    requires !((fyog + i + 1) % 10 == 0 && i < |rws| - 1)
    ensures Drafting(fyog, |rws|, start, head, i + 1) && vs + [rws[i]] == rws[start..i + 1]
  {
    LayoutAdvance(fyog, head, start, i, |rws|);
  }

  /** The value of a year ending in 9, unless it is the last, closes its line, which is flushed
      as the next chunk of the layout; the next line is headed by the following year. */
  lemma {:induction false} DraftingFlush(fyog: int, rws: seq<int>, start: nat, head: int, i: nat,
                                         cs: seq<(int, seq<int>)>, vs: seq<int>)
    requires Drafting(fyog, |rws|, start, head, i) && i < |rws|
    requires cs == Chunks(fyog, rws[..start]) && vs == rws[start..i]
    requires (fyog + i + 1) % 10 == 0 && i < |rws| - 1
    ensures Drafting(fyog, |rws|, i + 1, fyog + i + 1, i + 1)
    ensures cs + [(head, vs + [rws[i]])] == Chunks(fyog, rws[..i + 1]) && rws[i + 1..i + 1] == []
  {
    LayoutAdvance(fyog, head, start, i, |rws|);
    assert vs + [rws[i]] == rws[start..i + 1];
    ChunksStep(fyog, rws, start, i + 1);
  }

  /** The line under way when the values run out is the last chunk of the layout. */
  lemma {:induction false} DraftingDone(fyog: int, rws: seq<int>, start: nat, head: int,
                                        cs: seq<(int, seq<int>)>, vs: seq<int>)
    requires Drafting(fyog, |rws|, start, head, |rws|)
    requires cs == Chunks(fyog, rws[..start]) && vs == rws[start..]
    ensures cs + [(head, vs)] == Chunks(fyog, rws)
  {
    ChunksStep(fyog, rws, start, |rws|);
    assert rws[..|rws|] == rws;
  }

  /** The inner loop of `write`: the lines of one sample whose values, terminator included, are
      `rws`, with a line break after the value of every year ending in 9 except the last value. */
  method WriteSample(name: string, fyog: int, rws: seq<int>) returns (out: seq<string>)
    requires |rws| > 0
    ensures out == Render(name, Chunks(fyog, rws))
  {
    out := [];
    ghost var start, head := 0, fyog;
    ghost var cs: seq<(int, seq<int>)>, vs: seq<int> := [], [];
    var line := Head(name, fyog);
    var i := 0;
    HeadLine(name, fyog);
    assert rws[..0] == [] && rws[0..0] == [];
    while i < |rws|
      invariant Drafting(fyog, |rws|, start, head, i)
      invariant cs == Chunks(fyog, rws[..start]) && vs == rws[start..i]
      invariant out == Render(name, cs) && line == Line(name, head, vs)
    {
      var year := fyog + i;
      LineAppend(name, head, vs, rws[i]);
      if (year + 1) % 10 == 0 && i < |rws| - 1 {
        DraftingFlush(fyog, rws, start, head, i, cs, vs);
        RenderSnoc(name, cs, (head, vs + [rws[i]]));
        HeadLine(name, year + 1);
        line := line + Field(rws[i]);
        out := out + [line + CRLF];
        line := Head(name, year + 1);
        cs, vs := cs + [(head, vs + [rws[i]])], [];
        start, head := i + 1, year + 1;
      } else {
        DraftingGrow(fyog, rws, start, head, i, vs);
        line := line + Field(rws[i]);
        vs := vs + [rws[i]];
      }
      i := i + 1;
    }
    DraftingDone(fyog, rws, start, head, cs, vs);
    RenderSnoc(name, cs, (head, vs));
    out := out + [line + CRLF];
  }

  /** A line head is the line of no values. */
  lemma {:induction false} HeadLine(name: string, year: int)
    ensures Head(name, year) == Line(name, year, [])
  {
    assert Head(name, year) + "" == Head(name, year);
  }

  lemma {:induction false} ChunksStep(fyog: int, rws: seq<int>, start: nat, j: nat)
    requires start < j <= |rws|
    requires start == 0 || (fyog + start) % 10 == 0
    requires j - start <= Room(fyog + start)
    ensures Chunks(fyog, rws[..j]) == Chunks(fyog, rws[..start]) + [(fyog + start, rws[start..j])]
  {
    assert rws[..start] + rws[start..j] == rws[..j];
    ChunksSnoc(fyog, rws[..start], rws[start..j]);
  }

  /** The layout bookkeeping of one turn of the inner loop of `write`. */
  lemma {:induction false} LayoutAdvance(fyog: int, head: int, start: nat, i: nat, n: nat)
    requires start <= i < n && head == fyog + start
    requires i - start <= Room(head) && (i - start == Room(head) ==> i == n)
    ensures (fyog + i + 1) % 10 == 0 && i < n - 1 ==> 0 <= Room(fyog + i + 1) && (fyog + i + 1) % 10 == 0
    ensures !((fyog + i + 1) % 10 == 0 && i < n - 1) ==>
              i + 1 - start <= Room(head) && (i + 1 - start == Room(head) ==> i + 1 == n)
  {
    DecadeEndWithinLine(head, i - start);
  }

  /** Within a line headed `h`, the value at offset `n` is of a year ending in 9 exactly when it
      is the last one the line has room for. */
  lemma {:induction false} DecadeEndWithinLine(h: int, n: int)
    requires 0 <= n < Room(h)
    ensures (h + n + 1) % 10 == 0 <==> n + 1 == Room(h)
  {
    RoomEndsDecade(h);
    if (h + n + 1) % 10 == 0 {
      RoomIsFirstDecadeEnd(h, n + 1);
    }
  }

  lemma {:induction false} LineAppend(name: string, year: int, vs: seq<int>, v: int)
    ensures Line(name, year, vs) + Field(v) == Line(name, year, vs + [v])
  {
    FieldsSnoc(vs, v);
    Assoc(Head(name, year), Fields(vs), Field(v));
  }

  /** The loop of `write` over the samples in the order it emits them: all their lines, or the
      error of the first sample whose name is not ASCII. */
  method WriteAll(ordered: seq<Encoded>) returns (r: Result<seq<string>, WriteError>)
    ensures r == if Encodable(ordered) then Success(Emit(ordered)) else Failure(UnicodeEncodeError)
  {
    var out := [];
    var k := 0;
    while k < |ordered|
      invariant 0 <= k <= |ordered|
      invariant Encodable(ordered[..k]) && out == Emit(ordered[..k])
    {
      if !Ascii(ordered[k].name) {
        return Failure(UnicodeEncodeError);
      }
      var lines := WriteSample(ordered[k].name, ordered[k].fyog, ordered[k].raw + [Terminator]);
      out := out + lines;
      EmitSnoc(ordered[..k], ordered[k]);
      assert ordered[..k] + [ordered[k]] == ordered[..k + 1];
      k := k + 1;
    }
    assert ordered[..k] == ordered;
    return Success(out);
  }

  /** `write`, returning the lines it writes to the file, or the error it raises. */
  method Write(samples: seq<Encoded>, sort: bool, key: Option<Encoded -> string>)
    returns (r: Result<seq<string>, WriteError>)
    ensures r == WriteSpec(samples, sort, key)
  {
    var ordered := samples;
    if sort {
      if key.None? {
        ordered := Sorting.SortBy(samples, ByName);
      } else {
        ordered := Sorting.SortBy(samples, key.value);
      }
    }
    r := WriteAll(ordered);
  }
}
