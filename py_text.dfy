/** The Python 2 `str` operations the server code relies on, over `seq<char>`:
    `index('\r\n', start)`, `index(c)`, `split(c)`, `split(c, 1)`, `strip()`,
    `join`, `lower()`, slicing with possibly negative bounds, `int()` and `str()`
    of an integer. */
module PyText {

  datatype Option<+T> = None | Some(value: T)

  const CRLF: string := "\r\n"

  predicate CrlfAt(s: string, j: int) {
    0 <= j && j + 1 < |s| && s[j] == '\r' && s[j + 1] == '\n'
  }

  predicate NoCrlf(s: string) {
    forall j :: 0 <= j < |s| ==> !CrlfAt(s, j)
  }

  /** `s.index('\r\n', start)`: the first CRLF at or after `start`; None stands
      for the ValueError raised when there is none. */
  function FindCrlf(s: string, start: nat): (r: Option<nat>)
    requires start <= |s|
    ensures r.Some? ==> start <= r.value && r.value + 2 <= |s| && CrlfAt(s, r.value)
    ensures r.Some? ==> forall j :: start <= j < r.value ==> !CrlfAt(s, j)
    ensures r.None? ==> forall j :: start <= j < |s| ==> !CrlfAt(s, j)
    decreases |s| - start
  {
    if start + 2 > |s| then None
    else if s[start] == '\r' && s[start + 1] == '\n' then Some(start)
    else FindCrlf(s, start + 1)
  }

  /** `s.index(c)`: the first position of `c`; None for the ValueError. */
  function IndexOf(s: string, c: char): (r: Option<nat>)
    ensures r.Some? ==> r.value < |s| && s[r.value] == c && c !in s[..r.value]
    ensures r.None? <==> c !in s
  {
    if |s| == 0 then None
    else if s[0] == c then Some(0)
    else match IndexOf(s[1..], c)
      case None => None
      case Some(i) => Some(i + 1)
  }

  /** `s.split(c)` for a one-character separator: the pieces between the
      occurrences of `c`, the empty ones included. */
  function Split(s: string, c: char): (r: seq<string>)
    decreases |s|
  {
    if |s| == 0 then [""]
    else
      var rest := Split(s[1..], c);
      if s[0] == c then [""] + rest else [[s[0]] + rest[0]] + rest[1..]
  }

  /** `sep.join(pieces)` for a one-character separator. */
  function Join(pieces: seq<string>, c: char): string {
    if |pieces| == 0 then ""
    else if |pieces| == 1 then pieces[0]
    else pieces[0] + [c] + Join(pieces[1..], c)
  }

  /** `sep.join(pieces)` for a separator string. */
  function JoinWith(pieces: seq<string>, sep: string): string {
    if |pieces| == 0 then ""
    else if |pieces| == 1 then pieces[0]
    else pieces[0] + sep + JoinWith(pieces[1..], sep)
  }

  /** `''.join(chunks)`. */
  function Concat(chunks: seq<string>): string {
    if |chunks| == 0 then "" else chunks[0] + Concat(chunks[1..])
  }

  /** Splitting never yields an empty list and no piece holds the separator. */
  lemma {:induction false} SplitPieces(s: string, c: char)
    ensures |Split(s, c)| >= 1
    ensures forall i :: 0 <= i < |Split(s, c)| ==> c !in Split(s, c)[i]
    decreases |s|
  {
    if |s| > 0 {
      SplitPieces(s[1..], c);
    }
  }

  /** Joining the pieces of a split with the separator gives back the text. */
  lemma {:induction false} JoinSplit(s: string, c: char)
    ensures Join(Split(s, c), c) == s
    decreases |s|
  {
    if |s| > 0 {
      JoinSplit(s[1..], c);
      SplitPieces(s[1..], c);
      var rest := Split(s[1..], c);
      if s[0] == c {
        assert Split(s, c) == [""] + rest;
        assert Join([""] + rest, c) == "" + [c] + Join(rest, c);
      } else {
        JoinHead(rest, [s[0]], c);
      }
    }
  }

  lemma {:induction false} JoinHead(pieces: seq<string>, pre: string, c: char)
    requires |pieces| >= 1
    ensures Join([pre + pieces[0]] + pieces[1..], c) == pre + Join(pieces, c)
  {
    var q := [pre + pieces[0]] + pieces[1..];
    assert q[1..] == pieces[1..];
  }

  /** Splitting a join of separator-free pieces gives back the pieces. */
  lemma {:induction false} SplitJoin(pieces: seq<string>, c: char)
    requires |pieces| >= 1
    requires forall i :: 0 <= i < |pieces| ==> c !in pieces[i]
    ensures Split(Join(pieces, c), c) == pieces
    decreases |pieces|, |pieces[0]|
  {
    var p := pieces[0];
    if |p| == 0 {
      if |pieces| > 1 {
        SplitJoin(pieces[1..], c);
        var j := Join(pieces, c);
        assert j == [c] + Join(pieces[1..], c);
        assert j[1..] == Join(pieces[1..], c);
        assert [""] + pieces[1..] == pieces;
      }
    } else {
      var shorter := [p[1..]] + pieces[1..];
      assert shorter[1..] == pieces[1..];
      SplitJoin(shorter, c);
      JoinHead(shorter, [p[0]], c);
      assert [p[0]] + p[1..] == p;
      assert [[p[0]] + shorter[0]] + shorter[1..] == pieces;
      var j := Join(pieces, c);
      assert j[0] == p[0] && j[1..] == Join(shorter, c);
      assert [[p[0]] + Split(j[1..], c)[0]] + Split(j[1..], c)[1..] == pieces;
    }
  }

  /** `s.count(c)`. */
  function Count(s: string, c: char): nat {
    if |s| == 0 then 0 else (if s[0] == c then 1 else 0) + Count(s[1..], c)
  }

  lemma {:induction false} CountConcat(a: string, b: string, c: char)
    ensures Count(a + b, c) == Count(a, c) + Count(b, c)
    decreases |a|
  {
    if |a| > 0 {
      assert (a + b)[1..] == a[1..] + b;
      CountConcat(a[1..], b, c);
    } else {
      assert a + b == b;
    }
  }

  lemma {:induction false} CountZero(s: string, c: char)
    ensures Count(s, c) == 0 <==> c !in s
    decreases |s|
  {
    if |s| > 0 {
      CountZero(s[1..], c);
      assert s == [s[0]] + s[1..];
    }
  }

  /** `s.split(c)` has one piece more than `s` has separators. */
  lemma {:induction false} SplitCount(s: string, c: char)
    ensures |Split(s, c)| == Count(s, c) + 1
    decreases |s|
  {
    if |s| > 0 {
      SplitCount(s[1..], c);
    }
  }

  /** `s.split(c, 1)` unpacked into two names: the text before the first `c` and
      the text after it; None stands for the ValueError of a one-piece result. */
  function SplitOnce(s: string, c: char): (r: Option<(string, string)>)
    ensures r.None? <==> c !in s
    ensures r.Some? ==> c !in r.value.0 && s == r.value.0 + [c] + r.value.1
  {
    match IndexOf(s, c)
    case None => None
    case Some(i) =>
      assert s == s[..i] + [c] + s[i + 1..];
      Some((s[..i], s[i + 1..]))
  }

  /** The characters `str.isspace` accepts: space, tab, LF, VT, FF, CR. */
  predicate IsSpace(ch: char) {
    ch == ' ' || ch == '\t' || ch == '\n' || ch == '\r' || ch as int == 11 || ch as int == 12
  }

  function LeadingSpaces(s: string): (n: nat)
    ensures n <= |s|
    ensures forall i :: 0 <= i < n ==> IsSpace(s[i])
    ensures n < |s| ==> !IsSpace(s[n])
  {
    if |s| == 0 || !IsSpace(s[0]) then 0 else 1 + LeadingSpaces(s[1..])
  }

  function TrailingSpaces(s: string): (n: nat)
    ensures n <= |s|
    ensures forall i :: |s| - n <= i < |s| ==> IsSpace(s[i])
    ensures n < |s| ==> !IsSpace(s[|s| - 1 - n])
  {
    if |s| == 0 || !IsSpace(s[|s| - 1]) then 0 else 1 + TrailingSpaces(s[..|s| - 1])
  }

  /** `s.strip()`: the infix left after removing the whitespace at both ends. */
  function Strip(s: string): (r: string)
    ensures exists a, b ::
              && 0 <= a <= b <= |s| && r == s[a..b]
              && (forall i :: 0 <= i < a ==> IsSpace(s[i]))
              && (forall i :: b <= i < |s| ==> IsSpace(s[i]))
    ensures r == [] || (!IsSpace(r[0]) && !IsSpace(r[|r| - 1]))
  {
    var a := LeadingSpaces(s);
    if a == |s| then
      assert s[a..a] == [];
      ""
    else
      var b := |s| - TrailingSpaces(s);
      assert !IsSpace(s[a]);
      s[a..b]
  }

  /** ASCII `lower()`. */
  function LowerChar(ch: char): char {
    if 'A' <= ch <= 'Z' then (ch as int + 32) as char else ch
  }

  function Lower(s: string): (r: string)
    ensures |r| == |s|
    ensures forall i :: 0 <= i < |s| ==> r[i] == LowerChar(s[i])
  {
    if |s| == 0 then "" else [LowerChar(s[0])] + Lower(s[1..])
  }

  /** `s[n:]` with Python's treatment of negative and oversized bounds. */
  function Clamp(n: int, len: nat): (k: nat)
    ensures k <= len
  {
    if n < 0 then (if len + n < 0 then 0 else len + n) else if n > len then len else n
  }

  function SliceFrom(s: string, n: int): string {
    s[Clamp(n, |s|)..]
  }

  /** `s[:n]` with Python's treatment of negative and oversized bounds. */
  function SliceTo(s: string, n: int): string {
    s[..Clamp(n, |s|)]
  }

  /** Whatever the bound, `s[:n] + s[n:] == s`. */
  lemma SliceSplits(s: string, n: int)
    ensures SliceTo(s, n) + SliceFrom(s, n) == s
    ensures 0 <= n <= |s| ==> |SliceTo(s, n)| == n
  {
    assert s[..Clamp(n, |s|)] + s[Clamp(n, |s|)..] == s;
  }

  predicate IsDigit(ch: char) { '0' <= ch <= '9' }

  function DigitsValue(ds: string): (v: nat)
    requires forall i :: 0 <= i < |ds| ==> IsDigit(ds[i])
  {
    if |ds| == 0 then 0
    else
      assert IsDigit(ds[|ds| - 1]);
      10 * DigitsValue(ds[..|ds| - 1]) + (ds[|ds| - 1] as int - '0' as int)
  }

  /** `str(n)` for a non-negative integer. */
  function NatToString(n: nat): (s: string)
    ensures |s| >= 1
    ensures forall i :: 0 <= i < |s| ==> IsDigit(s[i])
    ensures DigitsValue(s) == n
  {
    var last := [('0' as int + n % 10) as char];
    if n < 10 then last
    else
      var pre := NatToString(n / 10);
      var s := pre + last;
      assert s[..|s| - 1] == pre;
      s
  }

  /** `int(s)` in base 10 as Python 2 reads it: optional surrounding
      whitespace, an optional sign, whitespace again after the sign (the C
      conversion under `int()` skips it a second time), then at least one
      digit; None stands for the ValueError. */
  function ParseInt(s: string): (r: Option<int>) {
    var t := Strip(s);
    if |t| > 0 && (t[0] == '-' || t[0] == '+') then
      var ds := Strip(t[1..]);
      if |ds| > 0 && forall i :: 0 <= i < |ds| ==> IsDigit(ds[i]) then
        var v: int := DigitsValue(ds);
        Some(if t[0] == '-' then -v else v)
      else None
    else if |t| > 0 && forall i :: 0 <= i < |t| ==> IsDigit(t[i]) then Some(DigitsValue(t))
    else None
  }

  /** Text that begins and ends with a non-space character is its own strip. */
  lemma StripWhole(s: string)
    requires |s| >= 1 && !IsSpace(s[0]) && !IsSpace(s[|s| - 1])
    ensures Strip(s) == s
  {
    assert LeadingSpaces(s) == 0;
    assert TrailingSpaces(s) == 0;
    assert s[0..|s|] == s;
  }

  /** `int(str(n)) == n`. */
  lemma ParseIntOfNatToString(n: nat)
    ensures ParseInt(NatToString(n)) == Some(n)
  {
    var s := NatToString(n);
    assert !IsSpace(s[0]) && !IsSpace(s[|s| - 1]);
    StripWhole(s);
  }

  /** Stripping text without digits leaves text without digits. */
  lemma StripNoDigit(s: string)
    requires forall i :: 0 <= i < |s| ==> !IsDigit(s[i])
    ensures forall i :: 0 <= i < |Strip(s)| ==> !IsDigit(Strip(s)[i])
  {
    var t := Strip(s);
    var a, b :| 0 <= a <= b <= |s| && t == s[a..b];
    forall i | 0 <= i < |t| ensures !IsDigit(t[i]) {
      assert t[i] == s[a + i];
    }
  }

  /** `int()` rejects text that holds no digit. */
  lemma ParseIntNeedsDigit(s: string)
    requires forall i :: 0 <= i < |s| ==> !IsDigit(s[i])
    ensures ParseInt(s) == None
  {
    var t := Strip(s);
    StripNoDigit(s);
    if |t| > 0 {
      var u := t[1..];
      assert forall i :: 0 <= i < |u| ==> u[i] == t[i + 1];
      StripNoDigit(u);
      var ds := Strip(u);
      assert |ds| > 0 ==> !IsDigit(ds[0]);
      assert !IsDigit(t[0]);
    }
  }

  /** In front of text that begins and ends with a non-space character,
      `strip` removes exactly the leading whitespace. */
  lemma StripLeading(w: string, ds: string)
    requires forall i :: 0 <= i < |w| ==> IsSpace(w[i])
    requires |ds| >= 1 && !IsSpace(ds[0]) && !IsSpace(ds[|ds| - 1])
    ensures Strip(w + ds) == ds
  {
    var s := w + ds;
    LeadingOfSpaces(w, ds);
    assert s[|s| - 1] == ds[|ds| - 1];
    assert TrailingSpaces(s) == 0;
    assert s[|w|..|s|] == ds;
  }

  lemma {:induction false} LeadingOfSpaces(w: string, ds: string)
    requires forall i :: 0 <= i < |w| ==> IsSpace(w[i])
    requires |ds| >= 1 && !IsSpace(ds[0])
    ensures LeadingSpaces(w + ds) == |w|
  {
    if |w| > 0 {
      assert (w + ds)[1..] == w[1..] + ds;
      LeadingOfSpaces(w[1..], ds);
    } else {
      assert w + ds == ds;
    }
  }

  /** `int('- 5') == -5` and `int('+ 5') == 5`: whitespace between the sign
      and the digits is accepted. */
  lemma ParseIntSignSpaces(sign: char, w: string, ds: string)
    requires sign == '-' || sign == '+'
    requires forall i :: 0 <= i < |w| ==> IsSpace(w[i])
    requires |ds| >= 1 && forall i :: 0 <= i < |ds| ==> IsDigit(ds[i])
    ensures ParseInt([sign] + w + ds) == Some(if sign == '-' then -(DigitsValue(ds) as int) else DigitsValue(ds) as int)
  {
    var s := [sign] + w + ds;
    SignedStrip(sign, w, ds);
    SignedDigits(s, ds);
  }

  /** `strip` keeps a signed digit string whole, and then removes the
      whitespace after its sign. */
  lemma SignedStrip(sign: char, w: string, ds: string)
    requires sign == '-' || sign == '+'
    requires forall i :: 0 <= i < |w| ==> IsSpace(w[i])
    requires |ds| >= 1 && forall i :: 0 <= i < |ds| ==> IsDigit(ds[i])
    ensures var s := [sign] + w + ds; s[0] == sign && Strip(s) == s && Strip(s[1..]) == ds
  {
    assert !IsSpace(ds[0]) && !IsSpace(ds[|ds| - 1]);
    var rest := w + ds;
    var s := [sign] + rest;
    assert [sign] + w + ds == s;
    assert s[0] == sign && s[|s| - 1] == ds[|ds| - 1];
    StripWhole(s);
    assert s[1..] == rest;
    StripLeading(w, ds);
  }

  /** A stripped text made of a sign and, after stripping the rest, digits. */
  lemma SignedDigits(t: string, ds: string)
    requires |t| >= 1 && (t[0] == '-' || t[0] == '+') && Strip(t) == t && Strip(t[1..]) == ds
    requires |ds| >= 1 && forall i :: 0 <= i < |ds| ==> IsDigit(ds[i])
    ensures ParseInt(t) == Some(if t[0] == '-' then -(DigitsValue(ds) as int) else DigitsValue(ds) as int)
  {
  }

  /** Appending one chunk appends its text to the concatenation. */
  lemma {:induction false} ConcatAppend(chunks: seq<string>, x: string)
    ensures Concat(chunks + [x]) == Concat(chunks) + x
  {
    if |chunks| > 0 {
      assert (chunks + [x])[1..] == chunks[1..] + [x];
      ConcatAppend(chunks[1..], x);
    }
  }

  /** Concatenation distributes over sequence concatenation, so the way the
      text was cut into chunks does not matter. */
  lemma {:induction false} ConcatSplit(a: seq<string>, b: seq<string>)
    ensures Concat(a + b) == Concat(a) + Concat(b)
  {
    if |a| > 0 {
      assert (a + b)[1..] == a[1..] + b;
      ConcatSplit(a[1..], b);
    } else {
      assert a + b == b;
    }
  }
}
