/** Resolution strings: written with `fmt.Sprintf("%dx%d", w, h)` (cmd/shared.go) and read back by
    `parseResolution` (cmd/import.go), which is `fmt.Sscanf(s, "%dx%d", &w, &h)`. */
module Resolution {
  import opened Wrappers
  import opened Text
  import opened Records

  /** `fmt.Sprintf("%dx%d", w, h)`: the width in decimal, an 'x' right after it, then the height
      in decimal, at least one character long. */
  function FormatResolution(w: Int64, h: Int64): (r: string)
  {
    IntToString(w as int) + "x" + IntToString(h as int)
  }

  /** The white space `fmt`'s scanner skips (its `isSpace` table). */
  predicate IsScanSpace(c: char) {
    var n := c as int;
    (9 <= n <= 13) || n == 32 || n == 0x85 || n == 0xA0 || n == 0x1680 || (0x2000 <= n <= 0x200A) ||
    n == 0x2028 || n == 0x2029 || n == 0x202F || n == 0x205F || n == 0x3000
  }

  /** The scanner's `SkipSpace` from position `i`, with newlines not counting as space: the
      position of the first other character, or `None` when a newline comes first. */
  function SkipSpace(s: string, i: nat): (r: Option<nat>)
    requires i <= |s|
    ensures r.Some? ==> i <= r.value <= |s|
    decreases |s| - i
  {
    if i == |s| then Some(i)
    else if s[i] == '\n' then None
    else if IsScanSpace(s[i]) then SkipSpace(s, i + 1)
    else Some(i)
  }

  /** A newline at `k` with only space between `i` and it. */
  ghost predicate NewlineFirst(s: string, i: nat, k: nat) {
    i <= k < |s| && s[k] == '\n' && forall m :: i <= m < k ==> IsScanSpace(s[m])
  }

  /** `SkipSpace` stops at the first character that is not space, having passed only space other
      than newlines, and fails exactly when a newline comes before any other character. */
  lemma {:induction false} SkipSpaceSpec(s: string, i: nat)
    requires i <= |s|
    ensures var r := SkipSpace(s, i);
      r.Some? ==> (r.value == |s| || !IsScanSpace(s[r.value])) && forall k :: i <= k < r.value ==> IsScanSpace(s[k]) && s[k] != '\n'
    ensures SkipSpace(s, i).None? <==> exists k :: NewlineFirst(s, i, k)
    decreases |s| - i
  {
    if i < |s| && s[i] != '\n' && IsScanSpace(s[i]) {
      SkipSpaceSpec(s, i + 1);
      if SkipSpace(s, i).None? {
        var k :| NewlineFirst(s, i + 1, k);
        assert NewlineFirst(s, i, k);
      }
      if k :| NewlineFirst(s, i, k) {
        assert k != i && NewlineFirst(s, i + 1, k);
      }
    } else if i < |s| && s[i] == '\n' {
      assert NewlineFirst(s, i, i);
    }
  }

  /** The end of the run of decimal digits starting at `j`. */
  function DigitRunEnd(s: string, j: nat): (e: nat)
    requires j <= |s|
    ensures j <= e <= |s| && AllDigits(s[j..e]) && (e == |s| || !IsDigit(s[e]))
    decreases |s| - j
  {
    if j < |s| && IsDigit(s[j]) then
      var e := DigitRunEnd(s, j + 1);
      assert s[j..e] == [s[j]] + s[j + 1..e];
      e
    else j
  }

  /** A run of digits followed by the end or a non-digit is the whole run. */
  lemma DigitRunEndIs(s: string, j: nat, e: nat)
    requires j <= e <= |s| && AllDigits(s[j..e]) && (e == |s| || !IsDigit(s[e]))
    ensures DigitRunEnd(s, j) == e
  {
  }

  predicate InInt64(v: int) { -0x8000_0000_0000_0000 <= v < 0x8000_0000_0000_0000 }

  /** `%d` into an `int`: skip space, then a number. The result is the value and the position
      after it. */
  function ScanInt(s: string, i: nat): (r: Option<(Int64, nat)>)
    requires i <= |s|
    ensures r.Some? ==> i < r.value.1 <= |s|
  {
    match SkipSpace(s, i)
    case None => None
    case Some(j) => ScanNumber(s, j)
  }

  /** The number at `j`: an optional sign, at least one digit (as many as there are), and a value
      that fits in 64 bits. */
  function ScanNumber(s: string, j: nat): (r: Option<(Int64, nat)>)
    requires j <= |s|
    ensures r.Some? ==> j < r.value.1 <= |s|
  {
    if j == |s| then None
    else
      var start := if s[j] == '+' || s[j] == '-' then j + 1 else j;
      match ScanMagnitude(s, start)
      case None => None
      case Some((magnitude, e)) =>
        var v: int := if s[j] == '-' then -(magnitude as int) else magnitude;
        if InInt64(v) then Some((v as Int64, e)) else None
  }

  /** The run of decimal digits at `start`, if there is at least one: its value and its end. */
  function ScanMagnitude(s: string, start: nat): (r: Option<(nat, nat)>)
    requires start <= |s|
    ensures r.Some? ==> start < r.value.1 <= |s|
  {
    var e := DigitRunEnd(s, start);
    if e == start then None else Some((DigitsValue(s[start..e]), e))
  }

  /** `parseResolution`: an integer, the letter 'x' at once, another integer; anything after the
      second integer is ignored. */
  function ParseResolution(s: string): (r: Option<(Int64, Int64)>)
    ensures r.Some? ==> exists i :: 0 < i < |s| && s[i] == 'x'
  {
    match ScanInt(s, 0)
    case None => None
    case Some((w, i)) =>
      if i < |s| && s[i] == 'x' then
        match ScanInt(s, i + 1)
        case None => None
        case Some((h, _)) => Some((w, h))
      else None
  }

  /** The decimal digits of `n` written at `start`, with no digit after them, are the whole run
      and read back as `n`. */
  lemma ScanWrittenDigits(s: string, start: nat, n: nat)
    requires start + |NatToString(n)| <= |s|
    requires s[start..start + |NatToString(n)|] == NatToString(n)
    requires start + |NatToString(n)| == |s| || !IsDigit(s[start + |NatToString(n)|])
    ensures ScanMagnitude(s, start) == Some((n, start + |NatToString(n)|))
  {
    DigitRunEndIs(s, start, start + |NatToString(n)|);
    NatToStringRoundTrip(n);
  }

  /** Skipping space at a character that is neither space nor newline stays put. */
  lemma SkipSpaceAtNonSpace(s: string, i: nat)
    requires i < |s| && !IsScanSpace(s[i])
    ensures SkipSpace(s, i) == Some(i)
  {
    assert s[i] != '\n';
  }

  /** Scanning a non-negative number written without a sign. */
  lemma ScanWrittenNonNegative(s: string, i: nat, n: nat)
    requires InInt64(n)
    requires i + |NatToString(n)| <= |s|
    requires s[i..i + |NatToString(n)|] == NatToString(n)
    requires i + |NatToString(n)| == |s| || !IsDigit(s[i + |NatToString(n)|])
    ensures ScanInt(s, i) == Some((n as Int64, i + |NatToString(n)|))
  {
    var digits := NatToString(n);
    assert s[i] == digits[0] && IsDigit(digits[0]);
    SkipSpaceAtNonSpace(s, i);
    ScanWrittenDigits(s, i, n);
    assert ScanNumber(s, i) == Some((n as Int64, i + |digits|));
  }

  /** Scanning a negative number written as '-' and its magnitude. */
  lemma ScanWrittenNegative(s: string, i: nat, m: nat)
    requires 0 < m && InInt64(-(m as int))
    requires i + 1 + |NatToString(m)| <= |s|
    requires s[i] == '-' && s[i + 1..i + 1 + |NatToString(m)|] == NatToString(m)
    requires i + 1 + |NatToString(m)| == |s| || !IsDigit(s[i + 1 + |NatToString(m)|])
    ensures ScanInt(s, i) == Some(((-(m as int)) as Int64, i + 1 + |NatToString(m)|))
  {
    SkipSpaceAtNonSpace(s, i);
    NegativeNumber(s, i, m);
  }

  lemma NegativeNumber(s: string, i: nat, m: nat)
    requires 0 < m && InInt64(-(m as int))
    requires i + 1 + |NatToString(m)| <= |s|
    requires s[i] == '-' && s[i + 1..i + 1 + |NatToString(m)|] == NatToString(m)
    requires i + 1 + |NatToString(m)| == |s| || !IsDigit(s[i + 1 + |NatToString(m)|])
    ensures ScanNumber(s, i) == Some(((-(m as int)) as Int64, i + 1 + |NatToString(m)|))
  {
    ScanWrittenDigits(s, i + 1, m);
  }

  /** Scanning at `i` reads back the decimal form of `n` written there, provided no digit follows. */
  lemma ScanWrittenInt(s: string, i: nat, n: Int64)
    requires i + |IntToString(n as int)| <= |s|
    requires s[i..i + |IntToString(n as int)|] == IntToString(n as int)
    requires i + |IntToString(n as int)| == |s| || !IsDigit(s[i + |IntToString(n as int)|])
    ensures ScanInt(s, i) == Some((n, i + |IntToString(n as int)|))
  {
    var t := IntToString(n as int);
    if n < 0 {
      var m: nat := -(n as int);
      var digits := NatToString(m);
      assert t == "-" + digits;
      assert s[i] == t[0];
      assert s[i + 1..i + 1 + |digits|] == t[1..];
      ScanWrittenNegative(s, i, m);
    } else {
      ScanWrittenNonNegative(s, i, n as int);
    }
  }

  /** Where the pieces of `a + "x" + b + rest` sit. */
  lemma FormattedPieces(a: string, b: string, rest: string)
    ensures var s := a + "x" + b + rest;
      |s| == |a| + 1 + |b| + |rest| && s[0..|a|] == a && s[|a|] == 'x' &&
      s[|a| + 1..|a| + 1 + |b|] == b && (rest != [] ==> s[|a| + 1 + |b|] == rest[0])
  {
    var s := a + "x" + b + rest;
    assert s == a + ("x" + b + rest);
    assert s[|a|..] == "x" + b + rest;
  }

  /** In a text laid out as `%dx%d` wrote it, the scanner reads the width up to the 'x'. */
  lemma ScanWidth(s: string, w: Int64, h: Int64)
    requires var a, b := IntToString(w as int), IntToString(h as int);
      |a| + 1 + |b| <= |s| && s[0..|a|] == a && s[|a|] == 'x' && s[|a| + 1..|a| + 1 + |b|] == b &&
      (|a| + 1 + |b| == |s| || !IsDigit(s[|a| + 1 + |b|]))
    ensures ScanInt(s, 0) == Some((w, |IntToString(w as int)|))
  {
    var a := IntToString(w as int);
    assert !IsDigit(s[|a|]);
    ScanWrittenInt(s, 0, w);
  }

  /** In a text laid out as `%dx%d` wrote it, the scanner reads the height after the 'x'. */
  lemma ScanHeight(s: string, w: Int64, h: Int64)
    requires var a, b := IntToString(w as int), IntToString(h as int);
      |a| + 1 + |b| <= |s| && s[0..|a|] == a && s[|a|] == 'x' && s[|a| + 1..|a| + 1 + |b|] == b &&
      (|a| + 1 + |b| == |s| || !IsDigit(s[|a| + 1 + |b|]))
    ensures ScanInt(s, |IntToString(w as int)| + 1) == Some((h, |IntToString(w as int)| + 1 + |IntToString(h as int)|))
  {
    ScanWrittenInt(s, |IntToString(w as int)| + 1, h);
  }

  /** `%dx%d` followed by text that does not begin with a digit has the two numbers where
      `parseResolution` looks for them. */
  lemma FormattedLayout(w: Int64, h: Int64, rest: string)
    requires rest == [] || !IsDigit(rest[0])
    ensures var s, a, b := FormatResolution(w, h) + rest, IntToString(w as int), IntToString(h as int);
      |a| + 1 + |b| <= |s| && s[0..|a|] == a && s[|a|] == 'x' && s[|a| + 1..|a| + 1 + |b|] == b &&
      (|a| + 1 + |b| == |s| || !IsDigit(s[|a| + 1 + |b|]))
  {
    var ws, hs := IntToString(w as int), IntToString(h as int);
    FormattedPieces(ws, hs, rest);
    assert FormatResolution(w, h) + rest == ws + "x" + hs + rest;
  }

  /** What the scanner finds in `%dx%d` followed by text that does not begin with a digit: the
      width up to the 'x', and the height after it. */
  lemma ScansOfFormatted(w: Int64, h: Int64, rest: string)
    requires rest == [] || !IsDigit(rest[0])
    ensures var s, i := FormatResolution(w, h) + rest, |IntToString(w as int)|;
      i < |s| && s[i] == 'x' && ScanInt(s, 0) == Some((w, i)) &&
      ScanInt(s, i + 1) == Some((h, i + 1 + |IntToString(h as int)|))
  {
    var s := FormatResolution(w, h) + rest;
    FormattedLayout(w, h, rest);
    ScanWidth(s, w, h);
    ScanHeight(s, w, h);
  }

  /** `parseResolution` succeeds with the width scanned before an 'x' and the height after it. */
  lemma ParseScanned(s: string, w: Int64, h: Int64)
    requires var i := |IntToString(w as int)|;
      i < |s| && s[i] == 'x' && ScanInt(s, 0) == Some((w, i)) &&
      ScanInt(s, i + 1) == Some((h, i + 1 + |IntToString(h as int)|))
    ensures ParseResolution(s) == Some((w, h))
  {
  }

  /** `parseResolution` reads back what `%dx%d` wrote, whatever follows that does not begin with a
      digit. */
  lemma ParseFormatted(w: Int64, h: Int64, rest: string)
    requires rest == [] || !IsDigit(rest[0])
    ensures ParseResolution(FormatResolution(w, h) + rest) == Some((w, h))
  {
    ScansOfFormatted(w, h, rest);
    ParseScanned(FormatResolution(w, h) + rest, w, h);
  }

  /** The default resolution of images without one does not parse. */
  lemma UnknownDoesNotParse()
    ensures ParseResolution("unknown").None?
  {
    var s := "unknown";
    assert s[0] == 'u' && !IsScanSpace(s[0]) && !IsDigit(s[0]);
    assert SkipSpace(s, 0) == Some(0);
    assert DigitRunEnd(s, 0) == 0;
  }
}
