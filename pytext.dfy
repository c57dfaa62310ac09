/**
 * The pieces of Python's `str` behaviour that the codec relies on:
 * `isspace`/`strip` (a blank layout cell), the `{n:01}`/`{n:02}` integer
 * formats, `' '.join`, `str.split()` with no argument, `str.find` and
 * slicing with a negative stop.
 */
module PyText {

  /** U+FFFD, the replacement symbol emitted for unknown input. */
  const Replacement: string := "\U{FFFD}"

  /** Python's `str.isspace` on one character (the Unicode White_Space set Python uses). */
  predicate IsSpace(c: char)
  {
    c == ' ' || c == '\t' || c == '\n' || c == '\r' || c == '\U{B}' || c == '\U{C}'
    || ('\U{1C}' <= c <= '\U{1F}') || c == '\U{85}' || c == '\U{A0}' || c == '\U{1680}'
    || ('\U{2000}' <= c <= '\U{200A}') || c == '\U{2028}' || c == '\U{2029}'
    || c == '\U{202F}' || c == '\U{205F}' || c == '\U{3000}'
  }

  /** No whitespace character anywhere in `s`. */
  predicate NoSpace(s: string)
  {
    forall i :: 0 <= i < |s| ==> !IsSpace(s[i])
  }

  /** `s.strip()` is the empty string, i.e. `not s.strip()` in Python. */
  predicate IsBlank(s: string)
  {
    forall i :: 0 <= i < |s| ==> IsSpace(s[i])
  }

  predicate IsDigit(c: char)
  {
    '0' <= c <= '9'
  }

  function DigitChar(d: nat): (c: char)
    requires d < 10
    ensures IsDigit(c)
  {
    (48 + d) as char
  }

  /** `str(n)` for a natural number (its shape is stated by `DecimalShape`). */
  function Decimal(n: nat): string
  {
    if n < 10 then [DigitChar(n)] else Decimal(n / 10) + [DigitChar(n % 10)]
  }

  /** `str(n)` is a non-empty run of decimal digits with no leading zero, one digit exactly below ten. */
  lemma {:induction false} DecimalShape(n: nat)
    ensures var s := Decimal(n);
      && 1 <= |s|
      && (forall i :: 0 <= i < |s| ==> IsDigit(s[i]))
      && (s[0] == '0') == (n == 0)
      && (|s| == 1) == (n < 10)
      && (n < 100 ==> |s| <= 2)
  {
    if n >= 10 {
      DecimalShape(n / 10);
      var s := Decimal(n);
      assert s == Decimal(n / 10) + [DigitChar(n % 10)];
    }
  }

  /** The format spec `0<width>`: left-pad with '0' up to `width` characters (see `ZeroPadShape`). */
  function ZeroPad(s: string, width: nat): string
  {
    if |s| >= width then s else seq(width - |s|, _ => '0') + s
  }

  /** Padding reaches the width, keeps `s` as its suffix and adds only '0's in front. */
  lemma ZeroPadShape(s: string, width: nat)
    ensures var r := ZeroPad(s, width);
      && |r| == (if |s| >= width then |s| else width)
      && r[|r| - |s|..] == s
      && (forall i :: 0 <= i < |r| - |s| ==> r[i] == '0')
  {
  }

  /** Zero-padding a decimal gives a run of digits at least `width` long, exactly `width` when the number fits. */
  lemma PaddedDecimalShape(n: nat, width: nat)
    requires 1 <= width <= 2
    ensures var r := ZeroPad(Decimal(n), width);
      && width <= |r|
      && (forall i :: 0 <= i < |r| ==> IsDigit(r[i]))
      && (width == 1 ==> r == Decimal(n))
      && (n < 10 || (width == 2 && n < 100) ==> |r| == width)
  {
    var s := Decimal(n);
    DecimalShape(n);
    ZeroPadShape(s, width);
    var r := ZeroPad(s, width);
    forall i | 0 <= i < |r| ensures IsDigit(r[i]) {
      if i >= |r| - |s| {
        assert r[i] == r[|r| - |s|..][i - (|r| - |s|)];
      }
    }
  }

  /** A run of digits holds no whitespace. */
  lemma DigitsNoSpace(s: string)
    requires forall i :: 0 <= i < |s| ==> IsDigit(s[i])
    ensures NoSpace(s)
  {
  }

  lemma NoSpaceConcat(a: string, b: string)
    requires NoSpace(a) && NoSpace(b)
    ensures NoSpace(a + b)
  {
    assert forall i :: 0 <= i < |a + b| ==> (a + b)[i] == if i < |a| then a[i] else b[i - |a|];
  }

  /** `sep.join(tokens)`. */
  function Join(tokens: seq<string>, sep: string): string
  {
    if tokens == [] then []
    else if |tokens| == 1 then tokens[0]
    else tokens[0] + sep + Join(tokens[1..], sep)
  }

  /** Length of the leading run of non-whitespace characters. */
  function RunLength(s: string): (n: nat)
    ensures n <= |s|
    ensures forall i :: 0 <= i < n ==> !IsSpace(s[i])
    ensures n < |s| ==> IsSpace(s[n])
  {
    if s == [] || IsSpace(s[0]) then 0 else 1 + RunLength(s[1..])
  }

  /**
   * `s.split()`: the maximal runs of non-whitespace characters, in order;
   * any run of whitespace separates, and leading or trailing whitespace
   * produces no empty piece.
   */
  function Split(s: string): (r: seq<string>)
    ensures forall k :: 0 <= k < |r| ==> r[k] != [] && NoSpace(r[k])
    decreases |s|
  {
    if s == [] then []
    else if IsSpace(s[0]) then Split(s[1..])
    else
      var n := RunLength(s);
      [s[..n]] + Split(s[n..])
  }

  /** `s.find(c, start)`: the first index at or after `start` holding `c`, or -1. */
  function Find(s: string, c: char, start: nat): (r: int)
    ensures r == -1 || (start <= r < |s| && s[r] == c)
    ensures r == -1 ==> forall j :: start <= j < |s| ==> s[j] != c
    ensures 0 <= r ==> forall j :: start <= j < r ==> s[j] != c
    decreases |s| - start
  {
    if start >= |s| then -1 else if s[start] == c then start else Find(s, c, start + 1)
  }

  /** `s[start:stop]` with Python's clamping and its reading of a negative stop. */
  function Slice(s: string, start: nat, stop: int): (r: string)
    ensures |r| <= |s|
  {
    var hi := if stop < 0 then (if |s| + stop < 0 then 0 else |s| + stop)
              else if stop > |s| then |s| else stop;
    var lo := if start > |s| then |s| else start;
    if lo >= hi then [] else s[lo..hi]
  }

  lemma {:induction false} DecimalInjective(a: nat, b: nat)
    requires Decimal(a) == Decimal(b)
    ensures a == b
  {
    DecimalShape(a);
    DecimalShape(b);
    if a >= 10 && b >= 10 {
      var da, db := Decimal(a), Decimal(b);
      assert da[|da| - 1] == DigitChar(a % 10) && db[|db| - 1] == DigitChar(b % 10);
      assert da[..|da| - 1] == Decimal(a / 10) && db[..|db| - 1] == Decimal(b / 10);
      DecimalInjective(a / 10, b / 10);
    }
  }

  /** Two zero-padded decimals of the same width are equal only for equal numbers. */
  lemma PaddedDecimalInjective(a: nat, b: nat, width: nat)
    requires 1 <= a && 1 <= b
    requires ZeroPad(Decimal(a), width) == ZeroPad(Decimal(b), width)
    ensures a == b
  {
    var da, db := Decimal(a), Decimal(b);
    var pa, pb := ZeroPad(da, width), ZeroPad(db, width);
    ZeroPadShape(da, width);
    ZeroPadShape(db, width);
    DecimalShape(a);
    DecimalShape(b);
    assert da == pa[|pa| - |da|..] == pb[|pb| - |db|..] == db;
    DecimalInjective(a, b);
  }

  lemma {:induction false} RunLengthOfToken(a: string, rest: string)
    requires NoSpace(a)
    requires rest == [] || IsSpace(rest[0])
    ensures RunLength(a + rest) == |a|
  {
    if a != [] {
      assert (a + rest)[1..] == a[1..] + rest;
      RunLengthOfToken(a[1..], rest);
    }
  }

  lemma SplitToken(a: string, rest: string)
    requires a != [] && NoSpace(a)
    requires rest == [] || IsSpace(rest[0])
    ensures Split(a + rest) == [a] + Split(rest)
  {
    RunLengthOfToken(a, rest);
    var s := a + rest;
    assert s[..|a|] == a && s[|a|..] == rest;
  }

  /**
   * Splitting a space-joined list of non-empty, whitespace-free tokens gives
   * the list back: the link between the encoder's `' '.join` and the
   * decoder's `split()`.
   */
  lemma {:induction false} SplitJoin(tokens: seq<string>)
    requires forall k :: 0 <= k < |tokens| ==> tokens[k] != [] && NoSpace(tokens[k])
    ensures Split(Join(tokens, " ")) == tokens
  {
    if |tokens| == 1 {
      SplitToken(tokens[0], []);
      assert tokens[0] + [] == tokens[0];
    } else if |tokens| > 1 {
      var rest := Join(tokens[1..], " ");
      assert Join(tokens, " ") == tokens[0] + (" " + rest);
      SplitToken(tokens[0], " " + rest);
      assert (" " + rest)[1..] == rest;
      assert Split(" " + rest) == Split(rest);
      SplitJoin(tokens[1..]);
      assert tokens == [tokens[0]] + tokens[1..];
    }
  }

  /** A blank string splits into no pieces (`"   ".split() == []`). */
  lemma {:induction false} SplitBlank(s: string)
    requires IsBlank(s)
    ensures Split(s) == []
  {
    if s != [] {
      SplitBlank(s[1..]);
    }
  }

  /** `''.join` of the one-character strings of `s` is `s`. */
  lemma {:induction false} JoinChars(s: string)
    ensures Join(seq(|s|, i requires 0 <= i < |s| => [s[i]]), "") == s
  {
    if |s| > 1 {
      JoinChars(s[1..]);
      var pieces := seq(|s|, i requires 0 <= i < |s| => [s[i]]);
      assert pieces[1..] == seq(|s[1..]|, i requires 0 <= i < |s[1..]| => [s[1..][i]]);
      assert s == [s[0]] + s[1..];
    }
  }
}
