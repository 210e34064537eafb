/** What `read` (pydendro/rwl.py) does with any input: the loop read forward, line by line, the
    line an error cites, and when a sample is closed. */
module RwlReading {
  import opened Wrappers
  import opened Text
  import opened Rwl

  /** The state of the loop once it has taken lines `0 .. k-1`: the accumulator and the samples
      completed so far, or the exception one of those lines raised. */
  function Prefix(lines: seq<string>, digits: Option<int>, k: nat): Result<(Accumulator, seq<Sample>), ReadError>
    requires k <= |lines|
  {
    if k == 0 then Success((NoSample, []))
    else
      match Prefix(lines, digits, k - 1)
      case Failure(e) => Failure(e)
      case Success(r) =>
        match Step(lines, Rows(lines), digits, k - 1, r.0)
        case Failure(e) => Failure(e)
        case Success(s) => Success((s.0, r.1 + s.1))
  }

  /** One more line: the loop from line `k` is the loop from line `k + 1` on the next state, or
      the failure that line raised. */
  lemma {:induction false} PrefixAdvance(lines: seq<string>, digits: Option<int>, k: nat)
    requires k < |lines| && Prefix(lines, digits, k).Success?
    ensures var r := Prefix(lines, digits, k).value;
            match Prefix(lines, digits, k + 1)
            case Success(q) => Scan(lines, Rows(lines), digits, k, r.0, r.1) == Scan(lines, Rows(lines), digits, k + 1, q.0, q.1)
            case Failure(e) => Scan(lines, Rows(lines), digits, k, r.0, r.1) == Failure(e)
  {
    var r := Prefix(lines, digits, k).value;
    var st := Step(lines, Rows(lines), digits, k, r.0);
    if st.Success? {
      ScanStep(lines, Rows(lines), digits, k, r.0, r.1, st.value.0, st.value.1);
    } else {
      ScanFail(lines, Rows(lines), digits, k, r.0, r.1, st.error);
    }
  }

  /** Once the loop has reached line `k`, what remains of `read` is the loop from there on. */
  lemma {:induction false} PrefixScan(lines: seq<string>, digits: Option<int>, k: nat)
    requires k <= |lines|
    ensures match Prefix(lines, digits, k)
            case Success(r) =>
              Scan(lines, Rows(lines), digits, 0, NoSample, []) == Scan(lines, Rows(lines), digits, k, r.0, r.1)
            case Failure(e) => Scan(lines, Rows(lines), digits, 0, NoSample, []) == Failure(e)
    decreases k
  {
    if k > 0 {
      PrefixScan(lines, digits, k - 1);
      if Prefix(lines, digits, k - 1).Success? {
        PrefixAdvance(lines, digits, k - 1);
      }
    }
  }

  /** `read` is the loop run over every line, forward: the samples completed by the end (an
      unterminated sample cannot be left open, since the last line closes it), or the first
      exception. */
  lemma {:induction false} ReadIsPrefix(lines: seq<string>, digits: Option<int>)
    ensures ReadSpec(lines, digits) == match Prefix(lines, digits, |lines|)
                                       case Failure(e) => Failure(e)
                                       case Success(r) => Success(r.1)
  {
    PrefixScan(lines, digits, |lines|);
  }

  /** An exception ends the loop: later states are the same failure. */
  lemma {:induction false} PrefixFailureSticks(lines: seq<string>, digits: Option<int>, j: nat, k: nat)
    requires j <= k <= |lines| && Prefix(lines, digits, j).Failure?
    ensures Prefix(lines, digits, k) == Prefix(lines, digits, j)
    decreases k - j
  {
    if j < k {
      PrefixFailureSticks(lines, digits, j, k - 1);
    }
  }

  /** A line whose year, for a new sample, or one of whose width fields is not an integer. */
  predicate Unparsable(line: string, acc: Accumulator) {
    |line| >= 8
    && ((acc.NoSample? && (|Row(line)| < 2 || ParseInt(Row(line)[1]).None?))
        || ParseInts(Drop2(Row(line))).None?)
  }

  /** The first line that cannot be parsed is the one the `ValueError` cites, 1-based, and nothing
      is returned. */
  lemma {:induction false} ValueErrorAt(lines: seq<string>, digits: Option<int>, k: nat)
    requires k < |lines| && Prefix(lines, digits, k).Success?
    requires Unparsable(lines[k], Prefix(lines, digits, k).value.0)
    ensures ReadSpec(lines, digits) == Failure(ValueError(k + 1))
  {
    var r := Prefix(lines, digits, k).value;
    PrefixScan(lines, digits, k);
    ScanFail(lines, Rows(lines), digits, k, r.0, r.1, ValueError(k + 1));
  }

  /** A name of eight characters that fills its columns is a single field. */
  lemma {:induction false} NameToken()
    ensures Split("ABCDEFGH", UnicodeBlanks) == ["ABCDEFGH"]
  {
    assert NoSpace("ABCDEFGH", UnicodeBlanks);
    SplitToken("ABCDEFGH", UnicodeBlanks);
  }

  /** A blank, then the year field. */
  lemma {:induction false} YearToken()
    ensures Split(" 19x0", UnicodeBlanks) == ["19x0"]
  {
    assert " 19x0" == [' '] + "19x0";
    SplitDropBlank(' ', "19x0", UnicodeBlanks);
    assert NoSpace("19x0", UnicodeBlanks);
    SplitToken("19x0", UnicodeBlanks);
  }

  /** `ABCDEFGH 19x0` splits into a name and a year field. */
  lemma {:induction false} SplitExample()
    ensures Split("ABCDEFGH" + " 19x0", UnicodeBlanks) == ["ABCDEFGH", "19x0"]
  {
    SplitBreak("ABCDEFGH", " 19x0", UnicodeBlanks);
    NameToken();
    YearToken();
  }

  /** The fields of `ABCDEFGH19x0`: the repair splits the name from the year, which is not an
      integer. */
  lemma {:induction false} UnparsableExample()
    ensures Unparsable("ABCDEFGH19x0", NoSample)
  {
    var line := "ABCDEFGH19x0";
    assert Repair(line) == "ABCDEFGH" + " 19x0";
    SplitExample();
    assert !AllDigits("19x0") by { assert !IsDigit("19x0"[2]); }
  }

  /** An empty first line and then a line whose year field is `19x0`: the error cites line 2. */
  lemma {:induction false} ValueErrorExample(digits: Option<int>)
    ensures ReadSpec(["", "ABCDEFGH19x0"], digits) == Failure(ValueError(2))
  {
    var lines := ["", "ABCDEFGH19x0"];
    BlankLineSkipped(lines, digits, 0);
    UnparsableExample();
    ValueErrorAt(lines, digits, 1);
  }

  /** Samples come back only from a file `read` took to the end: every line was reached and none
      of them was unparsable. */
  lemma {:induction false} ReadSucceeds(lines: seq<string>, digits: Option<int>)
    requires ReadSpec(lines, digits).Success?
    ensures forall k :: 0 <= k < |lines| ==>
              Prefix(lines, digits, k).Success? && !Unparsable(lines[k], Prefix(lines, digits, k).value.0)
  {
    ReadIsPrefix(lines, digits);
    forall k | 0 <= k < |lines|
      ensures Prefix(lines, digits, k).Success? && !Unparsable(lines[k], Prefix(lines, digits, k).value.0)
    {
      if Prefix(lines, digits, k).Failure? {
        PrefixFailureSticks(lines, digits, k, |lines|);
      } else if Unparsable(lines[k], Prefix(lines, digits, k).value.0) {
        ValueErrorAt(lines, digits, k);
      }
    }
  }

  /** The sample name, first year and raw values after a parsable data line is taken in: name and
      year from the line that opens the sample, values appended from every line. */
  function Taken(acc: Accumulator, row: seq<string>): (string, int, seq<int>)
    requires acc.Open? || (|row| >= 2 && ParseInt(row[1]).Some?)
    requires ParseInts(Drop2(row)).Some?
  {
    if acc.Open? then (acc.name, acc.year, acc.raw + ParseInts(Drop2(row)).value)
    else (row[0], ParseInt(row[1]).value, ParseInts(Drop2(row)).value)
  }

  /** A parsable data line: with no value so far `widths[-1]` raises; otherwise the sample is
      closed when the end test holds and stays open when it does not. */
  lemma {:induction false} DataLine(lines: seq<string>, digits: Option<int>, k: nat,
                                    acc: Accumulator, done: seq<Sample>)
    requires k < |lines| && Prefix(lines, digits, k) == Success((acc, done))
    requires |lines[k]| >= 8 && !Unparsable(lines[k], acc)
    ensures var (name, year, raw) := Taken(acc, Row(lines[k]));
            Prefix(lines, digits, k + 1)
            == if |raw| == 0 then Failure(IndexError)
               else if Ends(lines, k, name, raw) then Success((NoSample, done + [Close(name, year, raw, digits)]))
               else Success((Open(name, year, raw), done))
  {
    var (name, year, raw) := Taken(acc, Row(lines[k]));
    assert Rows(lines)[k] == Row(lines[k]);
    AbsorbValues(lines, digits, k, acc, Row(lines[k]), name, year, raw);
    assert done + [] == done;
  }

  /** A negative last value closes the sample, whatever the next line holds. */
  lemma {:induction false} NegativeLastCloses(lines: seq<string>, digits: Option<int>, k: nat,
                                              acc: Accumulator, done: seq<Sample>)
    requires k < |lines| && Prefix(lines, digits, k) == Success((acc, done))
    requires |lines[k]| >= 8 && !Unparsable(lines[k], acc)
    requires var raw := Taken(acc, Row(lines[k])).2; |raw| > 0 && raw[|raw| - 1] < 0
    ensures var (name, year, raw) := Taken(acc, Row(lines[k]));
            Prefix(lines, digits, k + 1) == Success((NoSample, done + [Close(name, year, raw, digits)]))
  {
    DataLine(lines, digits, k, acc, done);
  }

  /** The sample open after any line is named by a field of a line, so its name is not empty. */
  lemma {:induction false} OpenNamed(lines: seq<string>, digits: Option<int>, k: nat)
    requires k <= |lines| && Prefix(lines, digits, k).Success? && Prefix(lines, digits, k).value.0.Open?
    ensures Prefix(lines, digits, k).value.0.name != ""
    decreases k
  {
    var r := Prefix(lines, digits, k - 1).value;
    if |lines[k - 1]| == 0 {
      OpenNamed(lines, digits, k - 1);
    } else {
      assert |lines[k - 1]| >= 8 && !Unparsable(lines[k - 1], r.0);
      DataLine(lines, digits, k - 1, r.0, r.1);
      if r.0.Open? {
        OpenNamed(lines, digits, k - 1);
      } else {
        SplitShape(Repair(lines[k - 1]), UnicodeBlanks);
        assert |Row(lines[k - 1])[0]| > 0;
      }
    }
  }

  /** An empty line changes neither the accumulator nor the samples. */
  lemma {:induction false} BlankLineSkipped(lines: seq<string>, digits: Option<int>, k: nat)
    requires k < |lines| && lines[k] == "" && Prefix(lines, digits, k).Success?
    ensures Prefix(lines, digits, k + 1) == Prefix(lines, digits, k)
  {
    var r := Prefix(lines, digits, k).value;
    assert r.1 + [] == r.1;
  }

  /** The end test looks at the very next line, so a data line followed by an empty line closes
      its sample, although the empty line would have been skipped. */
  lemma {:induction false} BlankNextCloses(lines: seq<string>, digits: Option<int>, k: nat,
                                           acc: Accumulator, done: seq<Sample>)
    requires k + 1 < |lines| && lines[k + 1] == "" && Prefix(lines, digits, k) == Success((acc, done))
    requires |lines[k]| >= 8 && !Unparsable(lines[k], acc) && |Taken(acc, Row(lines[k])).2| > 0
    ensures var (name, year, raw) := Taken(acc, Row(lines[k]));
            Prefix(lines, digits, k + 1) == Success((NoSample, done + [Close(name, year, raw, digits)]))
  {
    DataLine(lines, digits, k, acc, done);
    if acc.Open? {
      OpenNamed(lines, digits, k);
    } else {
      SplitShape(Repair(lines[k]), UnicodeBlanks);
      assert |Row(lines[k])[0]| > 0;
    }
  }

  /** The terminator gives the digits and is dropped: raw `[123, 45, 67, -9999]` with no `digits`
      argument is read as four digits, widths `[0.123, 0.045, 0.067]`. */
  lemma {:induction false} CloseExample(name: string, year: int)
    ensures Close(name, year, [123, 45, 67, -9999], None) == Sample(name, year, [0.123, 0.045, 0.067])
  {
    assert Pow10Nat(3) == 1000 && Pow10Nat(4) == 10000;
    DigitCountExact(9999, 4);
    assert Pow10(3) == 1000.0;
    var raw: seq<int> := [123, 45, 67, -9999];
    assert raw[..3] == [123, 45, 67];
    assert Decode([67], 4) == [67 as real / 1000.0];
    assert Decode([45, 67], 4) == [45 as real / 1000.0, 67 as real / 1000.0];
  }
}
