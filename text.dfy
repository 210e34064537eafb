/** The parts of Python's string behaviour that the RWL codec relies on: whitespace, `split()`,
    `strip()`, `startswith`, the `%-6s` / `%4d` / `%6d` formats and `int()` applied to a token. */
module Text {
  import opened Wrappers

  /** The characters for which Python 3's `str.isspace()` holds, the blanks of `split()` and
      `strip()`: tab to carriage return, the four separators 0x1C-0x1F, space, next line,
      no-break space and the Unicode space separators, line and paragraph separators. */
  predicate IsUnicodeBlank(c: char) {
    || c == ' ' || ('\t' <= c <= '\r') || ('\U{1C}' <= c <= '\U{1F}') || c == '\U{85}' || c == '\U{A0}'
    || c == '\U{1680}' || ('\U{2000}' <= c <= '\U{200A}') || c == '\U{2028}' || c == '\U{2029}'
    || c == '\U{202F}' || c == '\U{205F}' || c == '\U{3000}'
  }

  const UnicodeBlanks: set<char> := set c: char | '\t' <= c <= '\U{3000}' && IsUnicodeBlank(c)

  /** The characters Python 2's `string.split` and `string.strip` treat as blanks in a byte
      string: space and tab to carriage return. */
  predicate IsAsciiBlank(c: char) {
    c == ' ' || ('\t' <= c <= '\r')
  }

  const AsciiBlanks: set<char> := set c: char | '\t' <= c <= ' ' && IsAsciiBlank(c)

  predicate IsSpace(c: char, ws: set<char>) {
    c in ws
  }

  predicate NoSpace(s: string, ws: set<char>) {
    forall i :: 0 <= i < |s| ==> !IsSpace(s[i], ws)
  }

  function Blanks(k: nat): (r: string)
    ensures |r| == k
    ensures forall i :: 0 <= i < k ==> r[i] == ' '
  {
    if k == 0 then "" else [' '] + Blanks(k - 1)
  }

  // ---------------------------------------------------------------------------------------------
  // split() and strip()
  // ---------------------------------------------------------------------------------------------

  /** Length of the run of non-blank characters at the front of `s`. */
  function TokenEnd(s: string, ws: set<char>): (n: nat)
    ensures n <= |s|
  {
    if |s| == 0 || IsSpace(s[0], ws) then 0 else 1 + TokenEnd(s[1..], ws)
  }

  /** The run ends at the first blank, or at the end of `s`. */
  lemma {:induction false} TokenEndShape(s: string, ws: set<char>)
    ensures forall i :: 0 <= i < TokenEnd(s, ws) ==> !IsSpace(s[i], ws)
    ensures TokenEnd(s, ws) == |s| || IsSpace(s[TokenEnd(s, ws)], ws)
    decreases |s|
  {
    if |s| > 0 && !IsSpace(s[0], ws) {
      TokenEndShape(s[1..], ws);
      forall i | 1 <= i < TokenEnd(s, ws) ensures !IsSpace(s[i], ws) {
        assert s[i] == s[1..][i - 1];
      }
    }
  }

  /** Python's `s.split()` without a separator: the maximal runs of non-blank characters, in order. */
  function Split(s: string, ws: set<char>): (r: seq<string>)
    decreases |s|
  {
    if |s| == 0 then []
    else if IsSpace(s[0], ws) then Split(s[1..], ws)
    else
      var n := TokenEnd(s, ws);
      [s[..n]] + Split(s[n..], ws)
  }

  /** Every token is non-empty and blank-free. */
  lemma {:induction false} SplitShape(s: string, ws: set<char>)
    ensures forall j :: 0 <= j < |Split(s, ws)| ==> |Split(s, ws)[j]| > 0 && NoSpace(Split(s, ws)[j], ws)
    decreases |s|
  {
    if |s| > 0 {
      if IsSpace(s[0], ws) {
        SplitShape(s[1..], ws);
      } else {
        var n := TokenEnd(s, ws);
        TokenEndShape(s, ws);
        SplitShape(s[n..], ws);
        var r := Split(s, ws);
        forall j | 0 <= j < |r| ensures |r[j]| > 0 && NoSpace(r[j], ws) {
          if j == 0 {
            assert r[0] == s[..n];
          } else {
            assert r[j] == Split(s[n..], ws)[j - 1];
          }
        }
      }
    }
  }

  lemma {:induction false} TokenEndAppend(a: string, b: string, ws: set<char>)
    requires b == [] || IsSpace(b[0], ws)
    ensures TokenEnd(a + b, ws) == TokenEnd(a, ws)
    decreases |a|
  {
    if |a| == 0 {
      assert a + b == b;
    } else {
      assert (a + b)[0] == a[0];
      if !IsSpace(a[0], ws) {
        assert (a + b)[1..] == a[1..] + b;
        TokenEndAppend(a[1..], b, ws);
      }
    }
  }

  /** A blank at the junction keeps the two halves' tokens apart. */
  lemma {:induction false} SplitBreak(a: string, b: string, ws: set<char>)
    requires b == [] || IsSpace(b[0], ws)
    ensures Split(a + b, ws) == Split(a, ws) + Split(b, ws)
    decreases |a|
  {
    if |a| == 0 {
      assert a + b == b;
    } else if IsSpace(a[0], ws) {
      assert (a + b)[0] == a[0];
      assert (a + b)[1..] == a[1..] + b;
      SplitBreak(a[1..], b, ws);
    } else {
      assert (a + b)[0] == a[0];
      var n := TokenEnd(a, ws);
      TokenEndAppend(a, b, ws);
      assert (a + b)[..n] == a[..n];
      assert (a + b)[n..] == a[n..] + b;
      SplitBreak(a[n..], b, ws);
    }
  }

  lemma {:induction false} SplitDropBlank(c: char, b: string, ws: set<char>)
    requires IsSpace(c, ws)
    ensures Split([c] + b, ws) == Split(b, ws)
  {
    assert ([c] + b)[0] == c;
    assert ([c] + b)[1..] == b;
  }

  /** Leading blanks never make a token. */
  lemma {:induction false} SplitLeadingBlanks(k: nat, s: string, ws: set<char>)
    requires ' ' in ws
    ensures Split(Blanks(k) + s, ws) == Split(s, ws)
    decreases k
  {
    if k > 0 {
      assert (Blanks(k) + s)[0] == ' ';
      assert (Blanks(k) + s)[1..] == Blanks(k - 1) + s;
      SplitLeadingBlanks(k - 1, s, ws);
    } else {
      assert Blanks(k) + s == s;
    }
  }

  lemma {:induction false} TokenEndAll(t: string, ws: set<char>)
    requires NoSpace(t, ws)
    ensures TokenEnd(t, ws) == |t|
    decreases |t|
  {
    if |t| > 0 {
      TokenEndAll(t[1..], ws);
    }
  }

  /** A non-empty blank-free string is its own single token. */
  lemma {:induction false} SplitToken(t: string, ws: set<char>)
    requires |t| > 0 && NoSpace(t, ws)
    ensures Split(t, ws) == [t]
  {
    TokenEndAll(t, ws);
    assert t[..|t|] == t;
    assert t[|t|..] == [];
  }

  /** Python's `s.lstrip()`. */
  function LStrip(s: string, ws: set<char>): (r: string)
    ensures |r| <= |s|
  {
    if |s| == 0 || !IsSpace(s[0], ws) then s else LStrip(s[1..], ws)
  }

  /** Python's `s.rstrip()`. */
  function RStrip(s: string, ws: set<char>): (r: string)
    ensures |r| <= |s|
  {
    if |s| == 0 || !IsSpace(s[|s| - 1], ws) then s else RStrip(s[..|s| - 1], ws)
  }

  /** Python's `s.strip()`. */
  function Strip(s: string, ws: set<char>): string {
    RStrip(LStrip(s, ws), ws)
  }

  /** `lstrip` removes the longest blank prefix and nothing else. */
  lemma {:induction false} LStripShape(s: string, ws: set<char>)
    ensures LStrip(s, ws) == s[|s| - |LStrip(s, ws)|..]
    ensures LStrip(s, ws) == [] || !IsSpace(LStrip(s, ws)[0], ws)
    ensures forall i :: 0 <= i < |s| - |LStrip(s, ws)| ==> IsSpace(s[i], ws)
    decreases |s|
  {
    if |s| > 0 && IsSpace(s[0], ws) {
      LStripShape(s[1..], ws);
      assert s[1..][|s| - 1 - |LStrip(s, ws)|..] == s[|s| - |LStrip(s, ws)|..];
      forall i | 1 <= i < |s| - |LStrip(s, ws)| ensures IsSpace(s[i], ws) {
        assert s[i] == s[1..][i - 1];
      }
    }
  }

  /** `rstrip` removes the longest blank suffix and nothing else. */
  lemma {:induction false} RStripShape(s: string, ws: set<char>)
    ensures RStrip(s, ws) == s[..|RStrip(s, ws)|]
    ensures RStrip(s, ws) == [] || !IsSpace(RStrip(s, ws)[|RStrip(s, ws)| - 1], ws)
    ensures forall i :: |RStrip(s, ws)| <= i < |s| ==> IsSpace(s[i], ws)
    decreases |s|
  {
    if |s| > 0 && IsSpace(s[|s| - 1], ws) {
      RStripShape(s[..|s| - 1], ws);
      assert s[..|s| - 1][..|RStrip(s, ws)|] == s[..|RStrip(s, ws)|];
      forall i | |RStrip(s, ws)| <= i < |s| - 1 ensures IsSpace(s[i], ws) {
        assert s[i] == s[..|s| - 1][i];
      }
    }
  }

  /** `strip` keeps a contiguous part of `s` that neither starts nor ends with a blank, and every
      character it removes is a blank. */
  lemma {:induction false} StripShape(s: string, ws: set<char>)
    ensures var r, k := Strip(s, ws), |s| - |LStrip(s, ws)|;
            k + |r| <= |s| && r == s[k..k + |r|]
              && (forall i :: 0 <= i < k ==> IsSpace(s[i], ws))
              && (forall i :: k + |r| <= i < |s| ==> IsSpace(s[i], ws))
    ensures Strip(s, ws) == [] || (!IsSpace(Strip(s, ws)[0], ws) && !IsSpace(Strip(s, ws)[|Strip(s, ws)| - 1], ws))
  {
    var l := LStrip(s, ws);
    var r := RStrip(l, ws);
    LStripShape(s, ws);
    RStripShape(l, ws);
    var k := |s| - |l|;
    assert r == s[k..k + |r|];
    forall i | k + |r| <= i < |s| ensures IsSpace(s[i], ws) {
      assert s[i] == l[i - k];
    }
    if r != [] {
      assert r[0] == l[0];
    }
  }

  /** Stripping removes exactly a blank tail from a string that begins and ends with non-blanks. */
  lemma {:induction false} StripFramed(t: string, tail: string, ws: set<char>)
    requires |t| > 0 && !IsSpace(t[0], ws) && !IsSpace(t[|t| - 1], ws)
    requires forall i :: 0 <= i < |tail| ==> IsSpace(tail[i], ws)
    ensures Strip(t + tail, ws) == t
  {
    var s := t + tail;
    var l := LStrip(s, ws);
    assert s[0] == t[0];
    assert l == s;
    var r := RStrip(s, ws);
    RStripShape(s, ws);
    assert s[|t| - 1] == t[|t| - 1];
    assert |r| == |t|;
    assert r == s[..|t|] == t;
  }

  /** Every line stripped. */
  function StripAll(lines: seq<string>, ws: set<char>): (r: seq<string>)
    ensures |r| == |lines|
    ensures forall i :: 0 <= i < |r| ==> r[i] == Strip(lines[i], ws)
  {
    seq(|lines|, i requires 0 <= i < |lines| => Strip(lines[i], ws))
  }

  lemma {:induction false} StripAllAppend(a: seq<string>, b: seq<string>, ws: set<char>)
    ensures StripAll(a + b, ws) == StripAll(a, ws) + StripAll(b, ws)
  {
    var l, r := StripAll(a + b, ws), StripAll(a, ws) + StripAll(b, ws);
    forall i | 0 <= i < |l| ensures l[i] == r[i] {
      if i < |a| {
        assert (a + b)[i] == a[i];
      } else {
        assert (a + b)[i] == b[i - |a|];
      }
    }
  }

  predicate StartsWith(s: string, p: string) {
    |p| <= |s| && s[..|p|] == p
  }

  // ---------------------------------------------------------------------------------------------
  // %-Ns and %Nd
  // ---------------------------------------------------------------------------------------------

  lemma {:induction false} Assoc<T>(a: seq<T>, b: seq<T>, c: seq<T>)
    ensures (a + b) + c == a + (b + c)
  {
  }

  /** Blanks side by side are as many blanks. */
  lemma {:induction false} BlanksAdd(j: nat, k: nat)
    ensures Blanks(j) + Blanks(k) == Blanks(j + k)
    decreases j
  {
    if j > 0 {
      BlanksAdd(j - 1, k);
      assert Blanks(j) + Blanks(k) == [' '] + (Blanks(j - 1) + Blanks(k));
    }
  }

  /** The blanks that bring `s` up to a width of `w`; none when it is already as wide. */
  function Fill(s: string, w: nat): nat {
    if |s| < w then w - |s| else 0
  }

  /** `"%-Ns" % s`: left-justified in a field of at least `w` characters, never truncated. */
  function PadRight(s: string, w: nat): string {
    s + Blanks(Fill(s, w))
  }

  /** `"%Ns" % s`: right-justified in a field of at least `w` characters, never truncated. */
  function PadLeft(s: string, w: nat): string {
    Blanks(Fill(s, w)) + s
  }

  lemma {:induction false} PadRightShape(s: string, w: nat)
    ensures |PadRight(s, w)| == if |s| < w then w else |s|
    ensures PadRight(s, w)[..|s|] == s
    ensures forall i :: |s| <= i < |PadRight(s, w)| ==> PadRight(s, w)[i] == ' '
  {
    assert PadRight(s, w)[..|s|] == s;
  }

  lemma {:induction false} PadLeftShape(s: string, w: nat)
    ensures |PadLeft(s, w)| == if |s| < w then w else |s|
    ensures PadLeft(s, w)[|PadLeft(s, w)| - |s|..] == s
    ensures forall i :: 0 <= i < |PadLeft(s, w)| - |s| ==> PadLeft(s, w)[i] == ' '
  {
    var r := PadLeft(s, w);
    assert r[|r| - |s|..] == s;
  }

  // ---------------------------------------------------------------------------------------------
  // str(n) and int(token)
  // ---------------------------------------------------------------------------------------------

  predicate IsDigit(c: char) {
    '0' <= c <= '9'
  }

  predicate AllDigits(s: string) {
    forall i :: 0 <= i < |s| ==> IsDigit(s[i])
  }

  function DigitChar(d: nat): (c: char)
    requires d < 10
    ensures IsDigit(c)
  {
    ('0' as int + d) as char
  }

  function DigitValue(c: char): nat
    requires IsDigit(c)
  {
    c as int - '0' as int
  }

  function Pow10Nat(k: nat): (p: nat)
    ensures p >= 1
  {
    if k == 0 then 1 else 10 * Pow10Nat(k - 1)
  }

  /** `str(n)` for a non-negative integer: its decimal digits, without leading zeros. */
  function NatToString(n: nat): string {
    if n < 10 then [DigitChar(n)] else NatToString(n / 10) + [DigitChar(n % 10)]
  }

  /** `str(n)` is a non-empty run of digits whose first is `0` only when it is the only one. */
  lemma {:induction false} NatToStringDigits(n: nat)
    ensures var s := NatToString(n); |s| > 0 && AllDigits(s) && (|s| > 1 ==> s[0] != '0')
  {
    if n >= 10 {
      NatToStringDigits(n / 10);
    }
  }

  /** `str(n)` for any integer. */
  function IntToString(n: int): string
    decreases if n < 0 then 1 else 0
  {
    if n < 0 then "-" + IntToString(-n) else NatToString(n)
  }

  /** `len(str(n))` for a non-negative integer. */
  function DigitCount(n: nat): nat {
    |NatToString(n)|
  }

  function DigitsValue(s: string): nat
    requires AllDigits(s)
  {
    if |s| == 0 then 0 else DigitsValue(s[..|s| - 1]) * 10 + DigitValue(s[|s| - 1])
  }

  function ParseNat(s: string): Option<nat> {
    if |s| > 0 && AllDigits(s) then Some(DigitsValue(s)) else None
  }

  /** `int(t)` on a blank-free token: an optional sign followed by at least one decimal digit;
      anything else is a `ValueError`, here `None`. */
  function ParseInt(t: string): (r: Option<int>)
    ensures r.Some? ==> |t| > 0
    ensures r.Some? && (t[0] == '-' || t[0] == '+') ==> |t| > 1 && AllDigits(t[1..])
    ensures r.Some? && t[0] != '-' && t[0] != '+' ==> AllDigits(t)
  {
    if |t| > 0 && (t[0] == '-' || t[0] == '+') then
      match ParseNat(t[1..])
      case None => None
      case Some(n) =>
        var v: int := if t[0] == '-' then -(n as int) else n;
        Some(v)
    else
      ParseNat(t)
  }

  lemma {:induction false} DigitsValueOfNatToString(n: nat)
    ensures AllDigits(NatToString(n)) && DigitsValue(NatToString(n)) == n
  {
    var s := NatToString(n);
    NatToStringDigits(n);
    if n >= 10 {
      NatToStringDigits(n / 10);
      DigitsValueOfNatToString(n / 10);
      assert s[..|s| - 1] == NatToString(n / 10);
      assert DigitValue(s[|s| - 1]) == n % 10;
    }
  }

  /** `int(str(n)) == n`. */
  lemma {:induction false} ParseIntOfIntToString(n: int)
    ensures ParseInt(IntToString(n)) == Some(n)
  {
    var m := if n < 0 then -n else n;
    var d := NatToString(m);
    assert IntToString(m) == d;
    NatToStringDigits(m);
    DigitsValueOfNatToString(m);
    assert ParseNat(d) == Some(m);
    if n < 0 {
      var s := IntToString(n);
      assert s == "-" + d;
      assert s[1..] == d;
    } else {
      assert IsDigit(d[0]);
    }
  }

  /** `len(str(n)) == k` exactly when `10^(k-1) <= n < 10^k` (and `len(str(0)) == 1`). */
  lemma {:induction false} DigitCountExact(n: nat, k: nat)
    requires k >= 1 && n < Pow10Nat(k)
    requires k == 1 || Pow10Nat(k - 1) <= n
    ensures DigitCount(n) == k
    decreases k
  {
    if k > 1 {
      assert Pow10Nat(k) == 10 * Pow10Nat(k - 1);
      assert n >= 10 by {
        assert Pow10Nat(k - 1) >= 1;
        if k - 1 >= 1 { assert Pow10Nat(k - 1) == 10 * Pow10Nat(k - 2); }
      }
      assert n / 10 < Pow10Nat(k - 1);
      if k > 2 {
        assert Pow10Nat(k - 1) == 10 * Pow10Nat(k - 2);
        assert Pow10Nat(k - 2) <= n / 10;
      }
      DigitCountExact(n / 10, k - 1);
    }
  }

  /** `len(str(n)) <= k` whenever `n < 10^k`. */
  lemma {:induction false} DigitCountAtMost(n: nat, k: nat)
    requires k >= 1 && n < Pow10Nat(k)
    ensures DigitCount(n) <= k
    decreases k
  {
    if n >= 10 {
      assert k > 1;
      assert Pow10Nat(k) == 10 * Pow10Nat(k - 1);
      assert n / 10 < Pow10Nat(k - 1);
      DigitCountAtMost(n / 10, k - 1);
    }
  }
}
