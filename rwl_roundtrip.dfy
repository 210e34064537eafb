/** What reading the current RWL format back gives: the lines `write` emits, stripped and tokenised
    the way `read` does it, and the samples `read` rebuilds from them. */
module RwlRoundTrip {
  import opened Wrappers
  import opened Text
  import opened Rwl
  import Sorting

  /** A name the layout keeps intact: one to eight ASCII characters, none of them blank. */
  predicate GoodName(name: string) {
    1 <= |name| <= 8 && NoSpace(name, UnicodeBlanks) && Ascii(name)
  }

  /** A scaled width that a `%6d` field holds with at least one blank in front. */
  predicate GoodValue(v: int) {
    0 <= v <= 99999
  }

  predicate GoodValues(vs: seq<int>) {
    forall i :: 0 <= i < |vs| ==> GoodValue(vs[i])
  }

  predicate GoodSample(e: Encoded) {
    GoodName(e.name) && GoodValues(e.raw)
  }

  /** No sample's name is a prefix of the next sample's name. */
  predicate Separated(es: seq<Encoded>) {
    forall k :: 0 <= k < |es| - 1 ==> !StartsWith(es[k + 1].name, es[k].name)
  }

  /** Samples that survive a write and a read: well-formed and separated. */
  predicate Writable(es: seq<Encoded>) {
    (forall k :: 0 <= k < |es| ==> GoodSample(es[k])) && Separated(es)
  }

  /** A `digits` argument under which `read` divides by 10^3, as 4-digit writing multiplied. */
  predicate FourDigits(digits: Option<int>) {
    digits.None? || digits.value == 0 || digits.value == 4
  }

  /** The sample `read` should rebuild from an encoded one. */
  function Decoded(e: Encoded): Sample {
    Sample(e.name, e.fyog, Decode(e.raw, 4))
  }

  function DecodedAll(es: seq<Encoded>): (ss: seq<Sample>)
    ensures |ss| == |es| && forall k :: 0 <= k < |es| ==> ss[k] == Decoded(es[k])
  {
    seq(|es|, k requires 0 <= k < |es| => Decoded(es[k]))
  }

  function Strings(vs: seq<int>): (ts: seq<string>)
    ensures |ts| == |vs| && forall i :: 0 <= i < |vs| ==> ts[i] == IntToString(vs[i])
  {
    seq(|vs|, i requires 0 <= i < |vs| => IntToString(vs[i]))
  }

  // ---------------------------------------------------------------------------------------------
  // Characters, fields and lines, for any blank set that holds the blanks the writer emits and
  // none of the characters of a number
  // ---------------------------------------------------------------------------------------------

  predicate Whitespace(ws: set<char>) {
    ' ' in ws && '\r' in ws && '\n' in ws && '-' !in ws && forall c :: IsDigit(c) ==> c !in ws
  }

  lemma {:induction false} UnicodeWhitespace()
    ensures Whitespace(UnicodeBlanks)
  {
  }

  lemma {:induction false} IntToStringNoBlank(n: int, ws: set<char>)
    requires Whitespace(ws)
    ensures |IntToString(n)| > 0 && NoSpace(IntToString(n), ws)
    ensures IsDigit(IntToString(n)[|IntToString(n)| - 1])
  {
    var s := IntToString(n);
    var m := if n < 0 then -n else n;
    var d := NatToString(m);
    NatToStringDigits(m);
    assert IntToString(m) == d;
    assert s == (if n < 0 then "-" + d else d);
    forall i | 0 <= i < |s| ensures !IsSpace(s[i], ws) {
      if n < 0 && i > 0 {
        assert s[i] == d[i - 1];
      }
    }
    assert s[|s| - 1] == d[|d| - 1];
  }

  /** A value whose `%6d` field keeps at least one blank in front of it. */
  predicate Fits(v: int) {
    -9999 <= v <= 99999
  }

  predicate AllFit(vs: seq<int>) {
    forall i :: 0 <= i < |vs| ==> Fits(vs[i])
  }

  lemma {:induction false} GoodValuesFit(vs: seq<int>)
    requires GoodValues(vs)
    ensures AllFit(vs)
  {
    forall i | 0 <= i < |vs| ensures Fits(vs[i]) {
      assert GoodValue(vs[i]);
    }
  }

  /** At most five characters, sign included. */
  lemma {:induction false} ShortValue(v: int)
    requires Fits(v)
    ensures |IntToString(v)| <= 5
  {
    assert Pow10Nat(5) == 100000;
    assert Pow10Nat(4) == 10000;
    if v < 0 {
      DigitCountAtMost(-v, 4);
      assert IntToString(v) == "-" + NatToString(-v);
    } else {
      DigitCountAtMost(v, 5);
    }
  }

  lemma {:induction false} FieldShape(v: int, ws: set<char>)
    requires Fits(v) && Whitespace(ws)
    ensures |Field(v)| > 0 && Field(v)[0] == ' '
    ensures IsDigit(Field(v)[|Field(v)| - 1])
    ensures Split(Field(v), ws) == [IntToString(v)]
  {
    var s := IntToString(v);
    ShortValue(v);
    IntToStringNoBlank(v, ws);
    var k := Fill(s, 6);
    assert k >= 1;
    assert Field(v) == Blanks(k) + s;
    SplitLeadingBlanks(k, s, ws);
    SplitToken(s, ws);
  }

  lemma {:induction false} FieldsShape(vs: seq<int>, ws: set<char>)
    requires AllFit(vs) && Whitespace(ws)
    ensures Fields(vs) == [] || Fields(vs)[0] == ' '
    ensures |vs| > 0 ==> |Fields(vs)| > 0 && IsDigit(Fields(vs)[|Fields(vs)| - 1])
    ensures Split(Fields(vs), ws) == Strings(vs)
    decreases |vs|
  {
    if |vs| > 0 {
      var front, v := vs[..|vs| - 1], vs[|vs| - 1];
      assert AllFit(front);
      FieldsShape(front, ws);
      FieldShape(v, ws);
      SplitBreak(Fields(front), Field(v), ws);
      assert Strings(vs) == Strings(front) + [IntToString(v)];
    }
  }

  lemma {:induction false} ParseStrings(vs: seq<int>)
    ensures ParseInts(Strings(vs)) == Some(vs)
    decreases |vs|
  {
    if |vs| > 0 {
      ParseIntOfIntToString(vs[0]);
      ParseStrings(vs[1..]);
      assert Strings(vs)[1..] == Strings(vs[1..]);
      assert [vs[0]] + vs[1..] == vs;
    }
  }

  /** A blank-free token followed by a blank: the token, then the rest's tokens. */
  lemma {:induction false} SplitTokenFirst(t: string, rest: string, ws: set<char>)
    requires |t| > 0 && NoSpace(t, ws)
    requires rest == [] || IsSpace(rest[0], ws)
    ensures Split(t + rest, ws) == [t] + Split(rest, ws)
  {
    SplitBreak(t, rest, ws);
    SplitToken(t, ws);
  }

  /** A right-justified year followed by fields: the year, then the fields' tokens. */
  lemma {:induction false} SplitYear(y: int, f: string, ws: set<char>)
    requires Whitespace(ws) && (f == [] || IsSpace(f[0], ws))
    ensures Split(PadLeft(IntToString(y), 4) + f, ws) == [IntToString(y)] + Split(f, ws)
  {
    var ys := IntToString(y);
    var k := Fill(ys, 4);
    assert PadLeft(ys, 4) + f == Blanks(k) + (ys + f);
    SplitLeadingBlanks(k, ys + f, ws);
    IntToStringNoBlank(y, ws);
    SplitTokenFirst(ys, f, ws);
  }

  /** A name, blanks, a year and values: the name, the year and the values are the tokens. */
  lemma {:induction false} SplitFrame(name: string, k: nat, y: int, vs: seq<int>, ws: set<char>)
    requires Whitespace(ws) && |name| > 0 && NoSpace(name, ws) && k > 0
    requires AllFit(vs)
    ensures Split(name + (Blanks(k) + (PadLeft(IntToString(y), 4) + Fields(vs))), ws)
            == [name, IntToString(y)] + Strings(vs)
  {
    var p := PadLeft(IntToString(y), 4);
    var f := Fields(vs);
    var tail := p + f;
    assert (Blanks(k) + tail)[0] == ' ';
    SplitTokenFirst(name, Blanks(k) + tail, ws);
    SplitLeadingBlanks(k, tail, ws);
    FieldsShape(vs, ws);
    SplitYear(y, f, ws);
  }

  /** An emitted line: the name, the blanks that pad it and the two after it, the year, the fields. */
  lemma {:induction false} LineParts(name: string, y: int, vs: seq<int>)
    ensures Line(name, y, vs)
            == name + (Blanks(Fill(name, 6) + 2) + (PadLeft(IntToString(y), 4) + Fields(vs)))
  {
    var b := Blanks(Fill(name, 6));
    var p := PadLeft(IntToString(y), 4);
    var f := Fields(vs);
    assert "  " == Blanks(2);
    BlanksAdd(Fill(name, 6), 2);
    var b2 := b + "  ";
    Assoc(name, b, "  ");
    Assoc(name, b2, p);
    Assoc(name, b2 + p, f);
    Assoc(b2, p, f);
  }

  /** An eight-character name runs into column 8, where the repair puts back a blank. */
  lemma {:induction false} RepairWide(name: string, t: string)
    requires |name| == 8 && name[7] != ' '
    ensures Repair(name + (Blanks(2) + t)) == name + (Blanks(3) + t)
  {
    var l := name + (Blanks(2) + t);
    assert l[7] == name[7];
    assert l[..8] == name;
    assert l[8..] == Blanks(2) + t;
    assert Blanks(3) == " " + Blanks(2);
  }

  /** How `read` tokenises an emitted line: name, year and values, the column repair included. */
  lemma {:induction false} LineTokens(name: string, y: int, vs: seq<int>, ws: set<char>)
    requires Whitespace(ws) && 1 <= |name| <= 8 && NoSpace(name, ws) && GoodValues(vs)
    ensures |Line(name, y, vs)| >= 8
    ensures Split(Repair(Line(name, y, vs)), ws) == [name, IntToString(y)] + Strings(vs)
  {
    var k := Fill(name, 6);
    var t := PadLeft(IntToString(y), 4) + Fields(vs);
    GoodValuesFit(vs);
    LineParts(name, y, vs);
    PadLeftShape(IntToString(y), 4);
    var l := name + (Blanks(k + 2) + t);
    assert |l| >= 8;
    if |name| <= 7 {
      assert l[7] == ' ';
      SplitFrame(name, k + 2, y, vs, ws);
    } else {
      assert !IsSpace(name[7], ws);
      RepairWide(name, t);
      SplitFrame(name, 3, y, vs, ws);
    }
  }

  /** An emitted line starts with its sample's name. */
  lemma {:induction false} LineStartsWithName(name: string, y: int, vs: seq<int>)
    ensures StartsWith(Line(name, y, vs), name)
  {
    var l := Line(name, y, vs);
    var rest := Blanks(Fill(name, 6)) + "  " + PadLeft(IntToString(y), 4) + Fields(vs);
    assert l == name + rest;
    assert l[..|name|] == name;
  }

  /** A string that starts with a blank-free `other` and then a blank starts with a blank-free
      `name` only if `other` does. */
  lemma {:induction false} PrefixBlocked(name: string, other: string, rest: string, ws: set<char>)
    requires ' ' in ws && NoSpace(name, ws)
    requires |rest| > 0 && rest[0] == ' '
    requires !StartsWith(other, name)
    ensures !StartsWith(other + rest, name)
  {
    var l := other + rest;
    if |name| <= |other| {
      assert l[..|name|] == other[..|name|];
    } else if |name| <= |l| {
      assert l[|other|] == ' ';
      assert !IsSpace(name[|other|], ws);
      assert l[..|name|][|other|] == ' ';
    }
  }

  /** A line of another sample starts with this sample's name only if that name is a prefix of its own. */
  lemma {:induction false} LineOfOtherName(name: string, other: string, y: int, vs: seq<int>, ws: set<char>)
    requires Whitespace(ws) && NoSpace(name, ws)
    requires !StartsWith(other, name)
    ensures !StartsWith(Line(other, y, vs), name)
  {
    LineParts(other, y, vs);
    var rest := Blanks(Fill(other, 6) + 2) + (PadLeft(IntToString(y), 4) + Fields(vs));
    assert rest[0] == ' ';
    PrefixBlocked(name, other, rest, ws);
  }

  /** Stripping an emitted line removes exactly its CRLF. */
  lemma {:induction false} StripLine(name: string, y: int, vs: seq<int>, ws: set<char>)
    requires Whitespace(ws) && |name| > 0 && NoSpace(name, ws) && GoodValues(vs) && |vs| > 0
    ensures Strip(Line(name, y, vs) + CRLF, ws) == Line(name, y, vs)
  {
    var l := Line(name, y, vs);
    LineParts(name, y, vs);
    var f := Fields(vs);
    var rest := Blanks(Fill(name, 6) + 2) + (PadLeft(IntToString(y), 4) + f);
    assert l == name + rest;
    assert l[0] == name[0];
    GoodValuesFit(vs);
    FieldsShape(vs, ws);
    assert l[|l| - 1] == f[|f| - 1];
    StripFramed(l, CRLF, ws);
  }

  // ---------------------------------------------------------------------------------------------
  // One sample
  // ---------------------------------------------------------------------------------------------

  lemma {:induction false} GoodChunks(year: int, vs: seq<int>)
    requires GoodValues(vs)
    ensures forall j :: 0 <= j < |Chunks(year, vs)| ==> GoodValues(Chunks(year, vs)[j].1) && |Chunks(year, vs)[j].1| > 0
  {
    var cs := Chunks(year, vs);
    ChunksLayout(year, vs);
    forall j | 0 <= j < |cs| ensures GoodValues(cs[j].1) {
      FlattenHolds(cs, j);
    }
  }

  lemma {:induction false} FlattenHolds(cs: seq<(int, seq<int>)>, j: nat)
    requires j < |cs|
    ensures forall i :: 0 <= i < |cs[j].1| ==> cs[j].1[i] in Flatten(cs)
    decreases j
  {
    assert Flatten(cs) == cs[0].1 + Flatten(cs[1..]);
    if j > 0 {
      FlattenHolds(cs[1..], j - 1);
      assert cs[1..][j - 1] == cs[j];
    }
  }

  lemma {:induction false} FlattenSnoc(cs: seq<(int, seq<int>)>, j: nat)
    requires j < |cs|
    ensures Flatten(cs[..j + 1]) == Flatten(cs[..j]) + cs[j].1
    decreases j
  {
    if j == 0 {
      assert cs[..1] == [cs[0]];
      assert Flatten([cs[0]]) == cs[0].1 + Flatten([]);
    } else {
      assert cs[..j + 1][1..] == cs[1..][..j];
      assert cs[..j][1..] == cs[1..][..j - 1];
      FlattenSnoc(cs[1..], j - 1);
      assert cs[1..][j - 1] == cs[j];
    }
  }

  /** What `read` takes from the fields `row` of a line: the name, the year and the values. */
  predicate Reads(row: seq<string>, name: string, y: int, vs: seq<int>) {
    |row| >= 2 && row[0] == name && ParseInt(row[1]) == Some(y) && ParseInts(Drop2(row)) == Some(vs)
  }

  /** The fields of an emitted line read back as its name, year and values. */
  lemma {:induction false} EmittedReads(name: string, y: int, vs: seq<int>)
    ensures Reads([name, IntToString(y)] + Strings(vs), name, y, vs)
  {
    var row := [name, IntToString(y)] + Strings(vs);
    assert row[2..] == Strings(vs);
    ParseStrings(vs);
    ParseIntOfIntToString(y);
  }

  /** What `read` needs to know of an emitted line `l` whose fields are `row`: it is long enough
      for the column repair, it starts with the name, and its fields read as the name, the year
      and the values. */
  predicate Tokens(l: string, row: seq<string>, name: string, y: int, vs: seq<int>) {
    |l| >= 8 && StartsWith(l, name) && Reads(row, name, y, vs)
  }

  lemma {:induction false} LineHasTokens(name: string, y: int, vs: seq<int>)
    requires GoodName(name) && GoodValues(vs)
    ensures Tokens(Line(name, y, vs), Row(Line(name, y, vs)), name, y, vs)
  {
    UnicodeWhitespace();
    LineTokens(name, y, vs, UnicodeBlanks);
    LineStartsWithName(name, y, vs);
    EmittedReads(name, y, vs);
  }

  /** One emitted line read in state `acc`. */
  lemma {:induction false} StepOnLine(lines: seq<string>, rows: seq<seq<string>>, digits: Option<int>, i: nat, acc: Accumulator,
                   name: string, y: int, vs: seq<int>)
    requires i < |lines| == |rows| && Tokens(lines[i], rows[i], name, y, vs)
    requires acc.NoSample? || acc.name == name
    ensures Step(lines, rows, digits, i, acc)
            == if acc.Open? then Settle(lines, digits, i, name, acc.year, acc.raw + vs)
               else Settle(lines, digits, i, name, y, vs)
  {
    if acc.NoSample? {
      assert [] + vs == vs;
    }
  }

  /** Fields `rows[k]` of line `k`, as a term that quantified facts about the fields hang on. */
  function FieldsAt(rows: seq<seq<string>>, k: nat): seq<string>
    requires k < |rows|
  {
    rows[k]
  }

  /** `rows` holds the fields `read` takes from each of `lines`. */
  ghost predicate SplitAll(lines: seq<string>, rows: seq<seq<string>>) {
    && |rows| == |lines|
    && forall k {:trigger FieldsAt(rows, k)} :: 0 <= k < |lines| && |lines[k]| >= 8 ==> FieldsAt(rows, k) == Row(lines[k])
  }

  lemma {:induction false} RowsSplitAll(lines: seq<string>)
    ensures SplitAll(lines, Rows(lines))
  {
  }

  /** Where one sample's emitted lines sit among the lines read: from line `i` on, followed by the
      end of the file or by a line that does not start with the sample's name. */
  ghost predicate Placed(lines: seq<string>, i: nat, e: Encoded) {
    var cs := Chunks(e.fyog, e.raw + [Terminator]);
    && i + |cs| <= |lines|
    && (forall j {:trigger At(lines, i, j)} :: 0 <= j < |cs| ==> At(lines, i, j) == Line(e.name, cs[j].0, cs[j].1))
    && (i + |cs| == |lines| || !StartsWith(lines[i + |cs|], e.name))
  }

  lemma {:induction false} TerminatorDigits(digits: Option<int>)
    requires FourDigits(digits)
    ensures EffectiveDigits(digits, Terminator) == 4
  {
    assert Pow10Nat(3) == 1000 && Pow10Nat(4) == 10000;
    DigitCountExact(9999, 4);
  }

  /** A line whose successor carries the same name and whose last value is not negative leaves
      the sample open. */
  lemma {:induction false} SettleOpen(lines: seq<string>, digits: Option<int>, i: nat, name: string, year: int, raw: seq<int>)
    requires i + 1 < |lines| && StartsWith(lines[i + 1], name)
    requires |raw| > 0 && raw[|raw| - 1] >= 0
    ensures Settle(lines, digits, i, name, year, raw) == Success((Open(name, year, raw), []))
  {
  }

  /** A line followed by the end of the file or by another name closes the sample. */
  lemma {:induction false} SettleClose(lines: seq<string>, digits: Option<int>, i: nat, name: string, year: int, raw: seq<int>)
    requires i < |lines| && (i + 1 == |lines| || !StartsWith(lines[i + 1], name))
    requires |raw| > 0
    ensures Settle(lines, digits, i, name, year, raw) == Success((NoSample, [Close(name, year, raw, digits)]))
  {
  }

  /** The lines of one sample, laid out as `cs`, sit from line `i` on and are followed by the end
      of the file or by a line that does not start with the sample's name. */
  ghost predicate Laid(lines: seq<string>, rows: seq<seq<string>>, i: nat, name: string, year: int,
                       cs: seq<(int, seq<int>)>) {
    && 0 < |cs| && i + |cs| <= |lines| == |rows| && cs[0].0 == year
    && (forall k {:trigger At(lines, i, k)} :: 0 <= k < |cs| ==> Tokens(At(lines, i, k), rows[i + k], name, cs[k].0, cs[k].1))
    && (forall k :: 0 <= k < |cs| ==> 0 < |cs[k].1| && GoodValues(cs[k].1))
    && (i + |cs| == |lines| || !StartsWith(lines[i + |cs|], name))
  }

  /** Line `i + k`. */
  function At(lines: seq<string>, i: nat, k: nat): string
    requires i + k < |lines|
  {
    lines[i + k]
  }

  /** `raws[k]` holds the values of the first `k + 1` lines of a laid-out sample. */
  predicate RunningTotals(cs: seq<(int, seq<int>)>, raws: seq<seq<int>>) {
    && |raws| == |cs| > 0
    && raws[0] == cs[0].1
    && forall k :: 0 < k < |cs| ==> raws[k] == raws[k - 1] + cs[k].1
  }

  /** The accumulator `read` holds once the first `k` lines of a laid-out sample are in. */
  function Partial(name: string, year: int, raws: seq<seq<int>>, k: nat): Accumulator
    requires k <= |raws|
  {
    if k == 0 then NoSample else Open(name, year, raws[k - 1])
  }

  /** A line that brings a sample's values up to `raw`, where the sample goes on and no value has
      been negative, leaves it open. */
  lemma {:induction false} StepKeepsOpen(lines: seq<string>, rows: seq<seq<string>>, digits: Option<int>, i: nat, acc: Accumulator,
                      name: string, year: int, y: int, vs: seq<int>, raw: seq<int>)
    requires i + 1 < |lines| == |rows| && Tokens(lines[i], rows[i], name, y, vs)
    requires acc.NoSample? ==> y == year && vs == raw
    requires acc.Open? ==> acc.name == name && acc.year == year && acc.raw + vs == raw
    requires StartsWith(lines[i + 1], name) && |raw| > 0 && raw[|raw| - 1] >= 0
    ensures Step(lines, rows, digits, i, acc) == Success((Open(name, year, raw), []))
  {
    StepOnLine(lines, rows, digits, i, acc, name, y, vs);
    SettleOpen(lines, digits, i, name, year, raw);
  }

  /** A line that brings a sample's values up to `raw`, followed by the end of the file or by
      another name, closes it. */
  lemma {:induction false} StepCloses(lines: seq<string>, rows: seq<seq<string>>, digits: Option<int>, i: nat, acc: Accumulator,
                   name: string, year: int, y: int, vs: seq<int>, raw: seq<int>)
    requires i < |lines| == |rows| && Tokens(lines[i], rows[i], name, y, vs)
    requires acc.NoSample? ==> y == year && vs == raw
    requires acc.Open? ==> acc.name == name && acc.year == year && acc.raw + vs == raw
    requires (i + 1 == |lines| || !StartsWith(lines[i + 1], name)) && |raw| > 0
    ensures Step(lines, rows, digits, i, acc) == Success((NoSample, [Close(name, year, raw, digits)]))
  {
    StepOnLine(lines, rows, digits, i, acc, name, y, vs);
    SettleClose(lines, digits, i, name, year, raw);
  }

  /** What line `k` of a laid-out sample holds, and how it extends the values of the lines before. */
  lemma {:induction false} LaidLine(lines: seq<string>, rows: seq<seq<string>>, i: nat, name: string, year: int,
                 cs: seq<(int, seq<int>)>, raws: seq<seq<int>>, k: nat)
    requires Laid(lines, rows, i, name, year, cs) && RunningTotals(cs, raws) && k < |cs|
    ensures var acc, raw := Partial(name, year, raws, k), raws[k];
            && Tokens(lines[i + k], rows[i + k], name, cs[k].0, cs[k].1)
            && (acc.NoSample? ==> cs[k].0 == year && cs[k].1 == raw)
            && (acc.Open? ==> acc.name == name && acc.year == year && acc.raw + cs[k].1 == raw)
            && |raw| > 0 && raw[|raw| - 1] >= 0
            && (k + 1 < |cs| ==> StartsWith(lines[i + k + 1], name))
            && (k + 1 == |cs| ==> i + k + 1 == |lines| || !StartsWith(lines[i + k + 1], name))
  {
    assert At(lines, i, k) == lines[i + k];
    if k + 1 < |cs| {
      assert At(lines, i, k + 1) == lines[i + k + 1];
    }
    var c := cs[k];
    assert 0 < |c.1| && GoodValues(c.1);
    assert GoodValue(c.1[|c.1| - 1]);
    if k > 0 {
      assert raws[k] == raws[k - 1] + c.1;
      assert raws[k][|raws[k]| - 1] == c.1[|c.1| - 1];
    }
  }

  /** A line of a laid-out sample other than its last takes its values in and leaves the sample
      open. */
  lemma {:induction false} StepLaidOpen(lines: seq<string>, rows: seq<seq<string>>, digits: Option<int>, i: nat, name: string,
                     year: int, cs: seq<(int, seq<int>)>, raws: seq<seq<int>>, k: nat)
    requires Laid(lines, rows, i, name, year, cs) && RunningTotals(cs, raws) && k + 1 < |cs|
    ensures Step(lines, rows, digits, i + k, Partial(name, year, raws, k))
            == Success((Partial(name, year, raws, k + 1), []))
  {
    LaidLine(lines, rows, i, name, year, cs, raws, k);
    StepKeepsOpen(lines, rows, digits, i + k, Partial(name, year, raws, k), name, year, cs[k].0, cs[k].1, raws[k]);
  }

  /** The last line of a laid-out sample takes its values in and closes the sample. */
  lemma {:induction false} StepLaidClose(lines: seq<string>, rows: seq<seq<string>>, digits: Option<int>, i: nat, name: string,
                      year: int, cs: seq<(int, seq<int>)>, raws: seq<seq<int>>)
    requires Laid(lines, rows, i, name, year, cs) && RunningTotals(cs, raws)
    ensures var k := |cs| - 1;
            Step(lines, rows, digits, i + k, Partial(name, year, raws, k))
            == Success((NoSample, [Close(name, year, raws[k], digits)]))
  {
    var k := |cs| - 1;
    LaidLine(lines, rows, i, name, year, cs, raws, k);
    StepCloses(lines, rows, digits, i + k, Partial(name, year, raws, k), name, year, cs[k].0, cs[k].1, raws[k]);
  }

  /** Line `k` of a sample being read moves the loop on with the sample still open. */
  ghost predicate Moves(lines: seq<string>, rows: seq<seq<string>>, digits: Option<int>, i: nat, name: string,
                        year: int, raws: seq<seq<int>>, done: seq<Sample>, k: nat)
    requires k + 1 < |raws| && i + |raws| <= |lines| == |rows|
  {
    Scan(lines, rows, digits, i + k, Partial(name, year, raws, k), done)
    == Scan(lines, rows, digits, i + k + 1, Partial(name, year, raws, k + 1), done)
  }

  /** Every line of a laid-out sample but its last moves the loop on with the sample open, and
      the last closes it. */
  lemma {:induction false} LaidSteps(lines: seq<string>, rows: seq<seq<string>>, digits: Option<int>, i: nat,
                                     name: string, year: int, cs: seq<(int, seq<int>)>, raws: seq<seq<int>>,
                                     done: seq<Sample>)
    requires Laid(lines, rows, i, name, year, cs) && RunningTotals(cs, raws) && |raws[|cs| - 1]| > 0
    ensures forall m {:trigger Moves(lines, rows, digits, i, name, year, raws, done, m)} ::
              0 <= m < |raws| - 1 ==> Moves(lines, rows, digits, i, name, year, raws, done, m)
    ensures Scan(lines, rows, digits, i + |raws| - 1, Partial(name, year, raws, |raws| - 1), done)
            == Scan(lines, rows, digits, i + |raws|, NoSample, done + [Close(name, year, raws[|cs| - 1], digits)])
  {
    forall m | 0 <= m < |raws| - 1 ensures Moves(lines, rows, digits, i, name, year, raws, done, m) {
      StepLaidOpen(lines, rows, digits, i, name, year, cs, raws, m);
      StepMoves(lines, rows, digits, i, name, year, raws, done, m);
    }
    var k := |cs| - 1;
    StepLaidClose(lines, rows, digits, i, name, year, cs, raws);
    ScanStep(lines, rows, digits, i + k, Partial(name, year, raws, k), done, NoSample,
             [Close(name, year, raws[k], digits)]);
  }

  /** A line that takes its values in and leaves the sample open moves the loop on. */
  lemma {:induction false} StepMoves(lines: seq<string>, rows: seq<seq<string>>, digits: Option<int>, i: nat,
                                     name: string, year: int, raws: seq<seq<int>>, done: seq<Sample>, k: nat)
    requires k + 1 < |raws| && i + |raws| <= |lines| == |rows|
    requires Step(lines, rows, digits, i + k, Partial(name, year, raws, k))
             == Success((Partial(name, year, raws, k + 1), []))
    ensures Moves(lines, rows, digits, i, name, year, raws, done, k)
  {
    ScanStep(lines, rows, digits, i + k, Partial(name, year, raws, k), done, Partial(name, year, raws, k + 1), []);
    assert done + [] == done;
  }

  /** Lines `k` on of a sample that each move the loop on, and a last line that closes the
      sample, take the loop from line `at`, the sample's line `k`, to line `to`, just past the
      sample. */
  lemma {:induction false} ScanChain(lines: seq<string>, rows: seq<seq<string>>, digits: Option<int>, i: nat,
                                     name: string, year: int, raws: seq<seq<int>>, done: seq<Sample>,
                                     closed: Sample, k: nat, at: nat, acc: Accumulator, to: nat)
    requires k < |raws| && i + |raws| <= |lines| == |rows|
    requires at == i + k && acc == Partial(name, year, raws, k) && to == i + |raws|
    requires forall m {:trigger Moves(lines, rows, digits, i, name, year, raws, done, m)} ::
               k <= m < |raws| - 1 ==> Moves(lines, rows, digits, i, name, year, raws, done, m)
    requires Scan(lines, rows, digits, i + |raws| - 1, Partial(name, year, raws, |raws| - 1), done)
             == Scan(lines, rows, digits, i + |raws|, NoSample, done + [closed])
    ensures Scan(lines, rows, digits, at, acc, done) == Scan(lines, rows, digits, to, NoSample, done + [closed])
    decreases |raws| - k
  {
    if k + 1 < |raws| {
      assert Moves(lines, rows, digits, i, name, year, raws, done, k);
      ScanChain(lines, rows, digits, i, name, year, raws, done, closed, k + 1, at + 1,
                Partial(name, year, raws, k + 1), to);
    } else {
      assert k == |raws| - 1;
    }
  }

  /** The running totals of a layout end in all of its values. */
  lemma {:induction false} FlattenTotals(cs: seq<(int, seq<int>)>, raws: seq<seq<int>>)
    requires |cs| > 0 && |raws| == |cs|
    requires forall k :: 0 <= k < |cs| ==> raws[k] == Flatten(cs[..k + 1])
    ensures RunningTotals(cs, raws) && raws[|cs| - 1] == Flatten(cs)
  {
    FlattenSnoc(cs, 0);
    assert cs[..0] == [];
    forall k | 0 < k < |cs| ensures raws[k] == raws[k - 1] + cs[k].1 {
      FlattenSnoc(cs, k);
    }
    assert cs[..|cs|] == cs;
  }

  /** A placed sample of well-formed values is laid out as its decade layout. */
  lemma {:induction false} PlacedLaid(lines: seq<string>, rows: seq<seq<string>>, i: nat, e: Encoded)
    requires Placed(lines, i, e) && SplitAll(lines, rows) && GoodSample(e)
    ensures Laid(lines, rows, i, e.name, e.fyog, Chunks(e.fyog, e.raw + [Terminator]))
  {
    var vs := e.raw + [Terminator];
    var cs := Chunks(e.fyog, vs);
    assert GoodValues(vs);
    GoodChunks(e.fyog, vs);
    ChunksLayout(e.fyog, vs);
    forall k | 0 <= k < |cs| ensures Tokens(At(lines, i, k), rows[i + k], e.name, cs[k].0, cs[k].1) {
      var l := Line(e.name, cs[k].0, cs[k].1);
      assert At(lines, i, k) == l;
      LineHasTokens(e.name, cs[k].0, cs[k].1);
      assert FieldsAt(rows, i + k) == Row(l);
    }
  }

  /** Reading a laid-out sample's lines closes it into its decoded sample. */
  lemma {:induction false} ScanSample(lines: seq<string>, rows: seq<seq<string>>, digits: Option<int>, i: nat, e: Encoded,
                   done: seq<Sample>)
    requires Laid(lines, rows, i, e.name, e.fyog, Chunks(e.fyog, e.raw + [Terminator])) && FourDigits(digits)
    ensures Scan(lines, rows, digits, i, NoSample, done)
            == Scan(lines, rows, digits, i + Height(e), NoSample, done + [Decoded(e)])
  {
    var cs := Chunks(e.fyog, e.raw + [Terminator]);
    var raws := Totals(cs);
    TotalsOfSample(e, digits, cs, raws);
    LaidSteps(lines, rows, digits, i, e.name, e.fyog, cs, raws, done);
    ScanChain(lines, rows, digits, i, e.name, e.fyog, raws, done, Decoded(e), 0, i, NoSample, i + Height(e));
  }

  /** The values of the first `k + 1` lines of a layout, for every `k`. */
  function Totals(cs: seq<(int, seq<int>)>): (raws: seq<seq<int>>)
    ensures |raws| == |cs| && forall k :: 0 <= k < |cs| ==> raws[k] == Flatten(cs[..k + 1])
  {
    seq(|cs|, k requires 0 <= k < |cs| => Flatten(cs[..k + 1]))
  }

  /** The running totals of a sample's layout end in its values and the terminator, which close
      into its decoded sample. */
  lemma {:induction false} TotalsOfSample(e: Encoded, digits: Option<int>, cs: seq<(int, seq<int>)>,
                                          raws: seq<seq<int>>)
    requires FourDigits(digits) && cs == Chunks(e.fyog, e.raw + [Terminator]) && |cs| > 0
    requires |raws| == |cs| && forall k :: 0 <= k < |cs| ==> raws[k] == Flatten(cs[..k + 1])
    ensures RunningTotals(cs, raws) && |raws[|cs| - 1]| > 0
    ensures Close(e.name, e.fyog, raws[|cs| - 1], digits) == Decoded(e)
  {
    var vs := e.raw + [Terminator];
    FlattenTotals(cs, raws);
    ChunksFlatten(e.fyog, vs);
    TerminatorDigits(digits);
    assert vs[..|vs| - 1] == e.raw;
  }

  // ---------------------------------------------------------------------------------------------
  // The whole file
  // ---------------------------------------------------------------------------------------------

  lemma {:induction false} ReadTextAppend(a: seq<string>, b: seq<string>)
    ensures ReadText(a + b) == ReadText(a) + ReadText(b)
  {
    StripAllAppend(a, b, UnicodeBlanks);
  }

  /** The stripped lines of one sample are its `Line`s. */
  lemma {:induction false} ReadTextSample(e: Encoded)
    requires GoodSample(e)
    ensures var cs := Chunks(e.fyog, e.raw + [Terminator]);
            |ReadText(SampleLines(e))| == |cs| > 0
            && forall j :: 0 <= j < |cs| ==> ReadText(SampleLines(e))[j] == Line(e.name, cs[j].0, cs[j].1)
  {
    var vs := e.raw + [Terminator];
    var cs := Chunks(e.fyog, vs);
    assert GoodValues(vs);
    GoodChunks(e.fyog, vs);
    UnicodeWhitespace();
    forall j | 0 <= j < |cs| ensures ReadText(SampleLines(e))[j] == Line(e.name, cs[j].0, cs[j].1) {
      StripLine(e.name, cs[j].0, cs[j].1, UnicodeBlanks);
    }
  }

  /** After the stripped lines of the first of several written samples come those of the rest. */
  lemma {:induction false} SuffixStep(lines: seq<string>, i: nat, es: seq<Encoded>)
    requires i <= |lines| && lines[i..] == ReadText(Emit(es)) && |es| > 0
    ensures i + Height(es[0]) <= |lines| && lines[i + Height(es[0])..] == ReadText(Emit(es[1..]))
  {
    var m := Height(es[0]);
    ReadTextAppend(SampleLines(es[0]), Emit(es[1..]));
    assert lines[i..] == ReadText(SampleLines(es[0])) + ReadText(Emit(es[1..]));
    assert lines[i + m..] == lines[i..][m..];
  }

  /** The first of several written samples is placed at the head of their stripped lines. */
  lemma {:induction false} PlacedFirst(lines: seq<string>, i: nat, es: seq<Encoded>)
    requires i <= |lines| && lines[i..] == ReadText(Emit(es))
    requires Writable(es) && |es| > 0
    ensures Placed(lines, i, es[0])
  {
    var e := es[0];
    var cs := Chunks(e.fyog, e.raw + [Terminator]);
    var m := |cs|;
    var mine := ReadText(SampleLines(e));
    var later := ReadText(Emit(es[1..]));
    ReadTextAppend(SampleLines(e), Emit(es[1..]));
    assert lines[i..] == mine + later;
    ReadTextSample(e);
    forall j | 0 <= j < m ensures At(lines, i, j) == Line(e.name, cs[j].0, cs[j].1) {
      assert lines[i + j] == lines[i..][j] == mine[j];
    }
    if |es| > 1 {
      var f := es[1];
      var fs := Chunks(f.fyog, f.raw + [Terminator]);
      ReadTextAppend(SampleLines(f), Emit(es[2..]));
      ReadTextSample(f);
      assert lines[i + m] == lines[i..][m] == later[0] == Line(f.name, fs[0].0, fs[0].1);
      UnicodeWhitespace();
      LineOfOtherName(e.name, f.name, fs[0].0, fs[0].1, UnicodeBlanks);
    }
  }

  /** How many lines `write` gives a sample. */
  function Height(e: Encoded): nat {
    |Chunks(e.fyog, e.raw + [Terminator])|
  }

  /** The line at which the lines of sample `k` of `es` start when they are written one after
      the other. */
  function Off(es: seq<Encoded>, k: nat): nat
    requires k <= |es|
  {
    if k == 0 then 0 else Off(es, k - 1) + Height(es[k - 1])
  }

  lemma {:induction false} WritableSuffix(es: seq<Encoded>, k: nat)
    requires Writable(es) && k <= |es|
    ensures Writable(es[k..])
  {
    forall j | 0 <= j < |es[k..]| - 1 ensures !StartsWith(es[k..][j + 1].name, es[k..][j].name) {
      assert es[k..][j] == es[k + j] && es[k..][j + 1] == es[k + j + 1];
    }
  }

  /** The stripped lines of written samples, from where the lines of sample `k` start, are the
      stripped lines of the samples from `k` on. */
  lemma {:induction false} Suffixes(lines: seq<string>, es: seq<Encoded>, k: nat)
    requires lines == ReadText(Emit(es)) && k <= |es|
    ensures Off(es, k) <= |lines| && lines[Off(es, k)..] == ReadText(Emit(es[k..]))
    decreases k
  {
    if k == 0 {
      assert es[0..] == es;
    } else {
      Suffixes(lines, es, k - 1);
      SuffixNext(lines, es, k);
    }
  }

  /** Passing over the lines of sample `k - 1` leads to where the lines of sample `k` start. */
  lemma {:induction false} SuffixNext(lines: seq<string>, es: seq<Encoded>, k: nat)
    requires 0 < k <= |es|
    requires Off(es, k - 1) <= |lines| && lines[Off(es, k - 1)..] == ReadText(Emit(es[k - 1..]))
    ensures Off(es, k) <= |lines| && lines[Off(es, k)..] == ReadText(Emit(es[k..]))
  {
    var rest := es[k - 1..];
    assert rest[0] == es[k - 1] && rest[1..] == es[k..];
    SuffixStep(lines, Off(es, k - 1), rest);
  }

  /** The first of several written samples is laid out at the head of their stripped lines. */
  lemma {:induction false} LaidFirst(lines: seq<string>, rows: seq<seq<string>>, i: nat, es: seq<Encoded>)
    requires i <= |lines| && lines[i..] == ReadText(Emit(es))
    requires Writable(es) && |es| > 0 && SplitAll(lines, rows)
    ensures Laid(lines, rows, i, es[0].name, es[0].fyog, Chunks(es[0].fyog, es[0].raw + [Terminator]))
  {
    PlacedFirst(lines, i, es);
    assert GoodSample(es[0]);
    PlacedLaid(lines, rows, i, es[0]);
  }

  /** Sample `k` of `es` is laid out from where its lines start. */
  ghost predicate LaidAt(lines: seq<string>, rows: seq<seq<string>>, es: seq<Encoded>, k: nat)
    requires k < |es|
  {
    Laid(lines, rows, Off(es, k), es[k].name, es[k].fyog, Chunks(es[k].fyog, es[k].raw + [Terminator]))
  }

  /** The stripped lines of written samples lay out sample `k` from where its lines start. */
  lemma {:induction false} LaidKth(lines: seq<string>, rows: seq<seq<string>>, es: seq<Encoded>, k: nat)
    requires lines == ReadText(Emit(es)) && Writable(es) && SplitAll(lines, rows) && k < |es|
    ensures LaidAt(lines, rows, es, k)
  {
    Suffixes(lines, es, k);
    WritableSuffix(es, k);
    assert es[k..][0] == es[k];
    LaidFirst(lines, rows, Off(es, k), es[k..]);
  }

  /** The lines of the last written sample end the file. */
  lemma {:induction false} LastOff(lines: seq<string>, es: seq<Encoded>)
    requires lines == ReadText(Emit(es))
    ensures Off(es, |es|) == |lines|
  {
    Suffixes(lines, es, |es|);
    assert es[|es|..] == [];
  }

  lemma {:induction false} DecodedAllStep(es: seq<Encoded>, j: nat, done: seq<Sample>)
    requires j < |es|
    ensures done + DecodedAll(es[j..]) == (done + [Decoded(es[j])]) + DecodedAll(es[j + 1..])
  {
    assert DecodedAll(es[j..]) == [Decoded(es[j])] + DecodedAll(es[j + 1..]);
    Assoc(done, [Decoded(es[j])], DecodedAll(es[j + 1..]));
  }

  /** Reading the lines of laid-out sample `j` closes it into its decoded sample. */
  lemma {:induction false} ScanKth(lines: seq<string>, rows: seq<seq<string>>, digits: Option<int>, es: seq<Encoded>, j: nat,
                done: seq<Sample>)
    requires |rows| == |lines| && FourDigits(digits) && j < |es|
    requires LaidAt(lines, rows, es, j) && GoodSample(es[j])
    ensures Off(es, j + 1) <= |lines|
    ensures Scan(lines, rows, digits, Off(es, j), NoSample, done)
            == Scan(lines, rows, digits, Off(es, j + 1), NoSample, done + [Decoded(es[j])])
  {
    ScanSample(lines, rows, digits, Off(es, j), es[j], done);
  }

  /** Reading laid-out samples from where sample `j` starts closes each in turn into its decoded
      sample. */
  lemma {:induction false} ScanAll(lines: seq<string>, rows: seq<seq<string>>, digits: Option<int>,
                                   es: seq<Encoded>, j: nat, done: seq<Sample>)
    requires |rows| == |lines| && FourDigits(digits) && j <= |es|
    requires forall k {:trigger LaidAt(lines, rows, es, k)} :: j <= k < |es| ==> LaidAt(lines, rows, es, k) && GoodSample(es[k])
    requires Off(es, j) <= |lines| && Off(es, |es|) == |lines|
    ensures Scan(lines, rows, digits, Off(es, j), NoSample, done) == Success((NoSample, done + DecodedAll(es[j..])))
    decreases |es| - j
  {
    if j == |es| {
      assert done + DecodedAll(es[j..]) == done;
    } else {
      var d := Decoded(es[j]);
      assert GoodSample(es[j]) && LaidAt(lines, rows, es, j);
      ScanKth(lines, rows, digits, es, j, done);
      forall k | j + 1 <= k < |es| ensures LaidAt(lines, rows, es, k) && GoodSample(es[k]) {
        assert j <= k;
      }
      ScanAll(lines, rows, digits, es, j + 1, done + [d]);
      DecodedAllStep(es, j, done);
    }
  }

  /** Reading back what `write` wrote gives the decoded samples in the order they were written,
      provided names are 1-8 non-blank characters, no name is a prefix of the next, values are in
      0..99999, and `read` divides by 10^3 as 4-digit writing multiplied. */
  lemma {:induction false} ReadAfterWrite(es: seq<Encoded>, sort: bool, key: Option<Encoded -> string>, digits: Option<int>)
    requires Writable(Order(es, sort, key)) && FourDigits(digits)
    ensures WriteSpec(es, sort, key).Success?
    ensures ReadSpec(ReadText(WriteSpec(es, sort, key).value), digits) == Success(DecodedAll(Order(es, sort, key)))
  {
    var os := Order(es, sort, key);
    assert Encodable(os) by {
      forall k | 0 <= k < |os| ensures Ascii(os[k].name) {
        assert GoodSample(os[k]);
      }
    }
    var lines := ReadText(Emit(os));
    assert lines[0..] == lines;
    var rows := Rows(lines);
    RowsSplitAll(lines);
    forall k | 0 <= k < |os| ensures LaidAt(lines, rows, os, k) && GoodSample(os[k]) {
      LaidKth(lines, rows, os, k);
    }
    LastOff(lines, os);
    ScanAll(lines, rows, digits, os, 0, []);
    assert os[0..] == os;
    assert [] + DecodedAll(os) == DecodedAll(os);
  }

  /** Each decoded sample keeps its name and first year and holds one width per value, a
      thousandth of it. */
  lemma {:induction false} DecodedAllScale(es: seq<Encoded>)
    ensures |DecodedAll(es)| == |es|
    ensures forall k :: 0 <= k < |es| ==>
              DecodedAll(es)[k].name == es[k].name && DecodedAll(es)[k].fyog == es[k].fyog
              && DecodedAll(es)[k].NYears() == |es[k].raw|
              && forall i :: 0 <= i < |es[k].raw| ==> DecodedAll(es)[k].widths[i] * 1000.0 == es[k].raw[i] as real
  {
    assert Pow10(3) == 1000.0;
    forall k | 0 <= k < |es|
      ensures DecodedAll(es)[k].NYears() == |es[k].raw|
      ensures forall i :: 0 <= i < |es[k].raw| ==> DecodedAll(es)[k].widths[i] * 1000.0 == es[k].raw[i] as real
    {
      DecodeScale(es[k].raw, 4);
    }
  }

  /** Without sorting, the samples come back in input order, each with its widths divided by 1000. */
  lemma {:induction false} ReadAfterUnsortedWrite(es: seq<Encoded>, digits: Option<int>)
    requires Writable(es) && FourDigits(digits)
    ensures WriteSpec(es, false, None).Success?
    ensures var r := ReadSpec(ReadText(WriteSpec(es, false, None).value), digits);
            r.Success? && |r.value| == |es|
            && forall k :: 0 <= k < |es| ==>
                 r.value[k].name == es[k].name && r.value[k].fyog == es[k].fyog
                 && r.value[k].NYears() == |es[k].raw|
                 && forall i :: 0 <= i < |es[k].raw| ==> r.value[k].widths[i] * 1000.0 == es[k].raw[i] as real
  {
    ReadAfterWrite(es, false, None, digits);
    DecodedAllScale(es);
  }
}
