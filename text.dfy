/**
 * The few text operations the command protocol relies on, as Python applies
 * them to ASCII lines: `strip()`, `split()` with no separator, `lower()` and
 * `int()` of a decimal token.
 */
module Text {
  import opened Wrappers

  /**
   * Whose whitespace: the device strips and splits `bytes`, the host `str`. Both count
   * space, tab, LF, CR, VT and FF; `str` also counts the separators 0x1C..0x1F.
   */
  datatype Spaces = ByteSpaces | StrSpaces

  predicate IsSpace(ws: Spaces, c: char) {
    || c == ' ' || c == '\t' || c == '\n' || c == '\r' || c == '\U{0B}' || c == '\U{0C}'
    || (ws == StrSpaces && '\U{1C}' <= c <= '\U{1F}')
  }

  predicate NoSpace(ws: Spaces, s: string) {
    forall i | 0 <= i < |s| :: !IsSpace(ws, s[i])
  }

  predicate AllSpace(ws: Spaces, s: string) {
    forall i | 0 <= i < |s| :: IsSpace(ws, s[i])
  }

  /** Drops leading whitespace. */
  function TrimLeft(ws: Spaces, s: string): (r: string)
    ensures |r| <= |s|
  {
    if s != [] && IsSpace(ws, s[0]) then TrimLeft(ws, s[1..]) else s
  }

  lemma {:induction false} TrimLeftFacts(ws: Spaces, s: string)
    ensures var r := TrimLeft(ws, s);
      && r == s[|s| - |r|..]
      && AllSpace(ws, s[..|s| - |r|])
      && (r != [] ==> !IsSpace(ws, r[0]))
    decreases |s|
  {
    if s != [] && IsSpace(ws, s[0]) {
      TrimLeftFacts(ws, s[1..]);
      var r := TrimLeft(ws, s);
      assert s[1..][..|s| - 1 - |r|] == s[1..|s| - |r|];
      assert forall i | 1 <= i < |s| - |r| :: s[i] == s[1..|s| - |r|][i - 1];
    }
  }

  /** Drops trailing whitespace. */
  function TrimRight(ws: Spaces, s: string): (r: string)
    ensures |r| <= |s|
  {
    if s != [] && IsSpace(ws, s[|s| - 1]) then TrimRight(ws, s[..|s| - 1]) else s
  }

  lemma {:induction false} TrimRightFacts(ws: Spaces, s: string)
    ensures var r := TrimRight(ws, s);
      && r == s[..|r|]
      && AllSpace(ws, s[|r|..])
      && (r != [] ==> !IsSpace(ws, r[|r| - 1]))
    decreases |s|
  {
    if s != [] && IsSpace(ws, s[|s| - 1]) {
      TrimRightFacts(ws, s[..|s| - 1]);
      var r := TrimRight(ws, s);
      assert s[..|s| - 1][..|r|] == s[..|r|];
      assert forall i | |r| <= i < |s| - 1 :: s[i] == s[..|s| - 1][|r|..][i - |r|];
    }
  }

  /** `s.strip()`: the line without surrounding whitespace. */
  function Strip(ws: Spaces, s: string): (r: string)
    ensures |r| <= |s|
  {
    TrimRight(ws, TrimLeft(ws, s))
  }

  /** `strip()` is empty exactly for blank lines and leaves no whitespace at either end. */
  lemma StripFacts(ws: Spaces, s: string)
    ensures var r := Strip(ws, s);
      && (r == [] <==> AllSpace(ws, s))
      && (r != [] ==> !IsSpace(ws, r[0]) && !IsSpace(ws, r[|r| - 1]))
  {
    var l := TrimLeft(ws, s);
    var r := TrimRight(ws, l);
    TrimLeftFacts(ws, s);
    TrimRightFacts(ws, l);
    if r == [] {
      BlankJoin(ws, s[..|s| - |l|], l);
      assert s == s[..|s| - |l|] + l;
    } else {
      assert r[0] == l[0];
    }
  }

  lemma BlankJoin(ws: Spaces, a: string, b: string)
    requires AllSpace(ws, a) && AllSpace(ws, b)
    ensures AllSpace(ws, a + b)
  {
  }

  /** A line without surrounding whitespace is its own `strip()`. */
  lemma StripUnpadded(ws: Spaces, s: string)
    requires s != [] && !IsSpace(ws, s[0]) && !IsSpace(ws, s[|s| - 1])
    ensures Strip(ws, s) == s
  {
  }

  /** The longest whitespace-free prefix of `s`. */
  function Word(ws: Spaces, s: string): (w: string)
    ensures |w| <= |s|
    ensures s != [] && !IsSpace(ws, s[0]) ==> w != []
  {
    if s == [] || IsSpace(ws, s[0]) then [] else [s[0]] + Word(ws, s[1..])
  }

  lemma {:induction false} WordFacts(ws: Spaces, s: string)
    ensures var w := Word(ws, s);
      && w == s[..|w|] && NoSpace(ws, w)
      && (|w| < |s| ==> IsSpace(ws, s[|w|]))
    decreases |s|
  {
    if s != [] && !IsSpace(ws, s[0]) {
      WordFacts(ws, s[1..]);
      assert [s[0]] + s[1..][..|Word(ws, s[1..])|] == s[..|Word(ws, s)|];
    }
  }

  /** `s.split()`: the maximal whitespace-free runs of `s`, in order. */
  function Split(ws: Spaces, s: string): (parts: seq<string>)
    decreases |s|
  {
    if s == [] then []
    else if IsSpace(ws, s[0]) then Split(ws, s[1..])
    else
      var w := Word(ws, s);
      [w] + Split(ws, s[|w|..])
  }

  /** The parts are non-empty and whitespace-free, and there are none exactly for a blank line. */
  lemma {:induction false} SplitFacts(ws: Spaces, s: string)
    ensures var parts := Split(ws, s);
      && (forall k | 0 <= k < |parts| :: parts[k] != [] && NoSpace(ws, parts[k]))
      && (parts == [] <==> AllSpace(ws, s))
    decreases |s|
  {
    if s == [] {
    } else if IsSpace(ws, s[0]) {
      SplitFacts(ws, s[1..]);
      assert AllSpace(ws, s) <==> AllSpace(ws, s[1..]) by {
        assert forall i | 1 <= i < |s| :: s[i] == s[1..][i - 1];
      }
    } else {
      var w := Word(ws, s);
      WordFacts(ws, s);
      SplitFacts(ws, s[|w|..]);
    }
  }

  /** A single token splits to itself. */
  lemma {:induction false} SplitToken(ws: Spaces, w: string)
    requires w != [] && NoSpace(ws, w)
    ensures Split(ws, w) == [w]
  {
    WordOfToken(ws, w);
    assert w[|w|..] == [];
  }

  /** A word followed by whitespace (or nothing) splits off as the first part. */
  lemma SplitWord(ws: Spaces, w: string, rest: string)
    requires w != [] && NoSpace(ws, w) && (rest == [] || IsSpace(ws, rest[0]))
    ensures Split(ws, w + rest) == [w] + Split(ws, rest)
  {
    var s := w + rest;
    WordPrefix(ws, w, rest);
    assert s[|w|..] == rest;
  }

  lemma {:induction false} WordPrefix(ws: Spaces, w: string, rest: string)
    requires NoSpace(ws, w) && (rest == [] || IsSpace(ws, rest[0]))
    ensures Word(ws, w + rest) == w
    decreases |w|
  {
    if w != [] {
      assert (w + rest)[1..] == w[1..] + rest;
      WordPrefix(ws, w[1..], rest);
    } else {
      assert w + rest == rest;
    }
  }

  lemma {:induction false} WordOfToken(ws: Spaces, w: string)
    requires NoSpace(ws, w)
    ensures Word(ws, w) == w
    decreases |w|
  {
    if w != [] {
      WordOfToken(ws, w[1..]);
      assert [w[0]] + w[1..] == w;
    }
  }

  function LowerChar(c: char): char {
    if 'A' <= c <= 'Z' then (c as int + 32) as char else c
  }

  /** ASCII `lower()`: upper-case letters become lower case, everything else is kept. */
  function Lower(s: string): (r: string)
    ensures |r| == |s|
  {
    seq(|s|, i requires 0 <= i < |s| => LowerChar(s[i]))
  }

  /** No upper-case letter survives, every other character is kept, and whitespace stays where it was. */
  lemma LowerFacts(ws: Spaces, s: string)
    ensures var r := Lower(s);
      && (forall i | 0 <= i < |s| :: !('A' <= r[i] <= 'Z'))
      && (forall i | 0 <= i < |s| :: !('A' <= s[i] <= 'Z') ==> r[i] == s[i])
      && (NoSpace(ws, s) ==> NoSpace(ws, r))
  {
  }

  lemma LowerIdempotent(s: string)
    ensures Lower(Lower(s)) == Lower(s)
  {
  }

  predicate IsDigit(c: char) {
    '0' <= c <= '9'
  }

  predicate IsDecimal(s: string) {
    s != [] && forall i | 0 <= i < |s| :: IsDigit(s[i])
  }

  /** The value of a string of decimal digits, most significant first. */
  function DigitsValue(s: string): nat
    requires forall i | 0 <= i < |s| :: IsDigit(s[i])
  {
    if s == [] then 0
    else
      assert IsDigit(s[|s| - 1]);
      10 * DigitsValue(s[..|s| - 1]) + (s[|s| - 1] as int - '0' as int)
  }

  /** `int(token)`: an optional sign followed by one or more ASCII digits; anything else fails. */
  function ParseInt(s: string): (r: Option<int>)
    ensures r.Some? <==> IsDecimal(s) || (|s| > 1 && (s[0] == '-' || s[0] == '+') && IsDecimal(s[1..]))
    ensures r.Some? && s[0] != '-' ==> r.value >= 0
    ensures r.Some? && s[0] == '-' ==> r.value <= 0
  {
    if s != [] && (s[0] == '-' || s[0] == '+') then
      if IsDecimal(s[1..]) then
        var m: int := DigitsValue(s[1..]);
        Some(if s[0] == '-' then -m else m)
      else None
    else if IsDecimal(s) then Some(DigitsValue(s))
    else None
  }

  /** `int(x)` of a float: truncation toward zero. */
  function Trunc(x: real): (r: int)
    ensures x >= 0.0 ==> r >= 0 && r as real <= x < r as real + 1.0
    ensures x < 0.0 ==> r <= 0 && r as real - 1.0 < x <= r as real
  {
    if x >= 0.0 then x.Floor else -((-x).Floor)
  }

  /** The decimal rendering of `n`, as Python's `str(n)` writes it. */
  function Decimal(n: nat): (s: string)
    ensures IsDecimal(s)
  {
    var d := ['0' + (n % 10) as char];
    if n < 10 then d else Decimal(n / 10) + d
  }

  /** `int(str(n))` gives back `n`, for either sign. */
  lemma {:induction false} ParseDecimal(n: nat)
    ensures ParseInt(Decimal(n)) == Some(n)
    ensures ParseInt("-" + Decimal(n)) == Some(-(n as int))
  {
    DecimalValue(n);
    var s := "-" + Decimal(n);
    assert s[1..] == Decimal(n);
  }

  lemma {:induction false} DecimalValue(n: nat)
    ensures DigitsValue(Decimal(n)) == n
  {
    if n >= 10 {
      DecimalValue(n / 10);
      var s := Decimal(n);
      assert s[..|s| - 1] == Decimal(n / 10);
    }
  }
}
