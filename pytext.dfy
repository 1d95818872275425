/** The Python 2 string and list operations the parsers are built from, on byte strings:
    `str.split('\n')`, `str.splitlines()`, `str.split()`, `str.strip()`, `str.lower()`,
    `p in s`, list slicing with negative bounds, `int()` and `float()` acceptance. */
module PyText {
  import opened Outcomes

  /** Whitespace as byte-string `split()` and `strip()` see it: space and \t \n \v \f \r. */
  predicate IsSpace(c: char) { c == ' ' || '\t' <= c <= '\r' }

  predicate IsDigit(c: char) { '0' <= c <= '9' }

  predicate NoSpace(s: string) { forall i :: 0 <= i < |s| ==> !IsSpace(s[i]) }

  predicate AllSpace(s: string) { forall i :: 0 <= i < |s| ==> IsSpace(s[i]) }

  /** What `str.split()` can yield: a non-empty run of non-whitespace. */
  predicate IsToken(s: string) { |s| > 0 && NoSpace(s) }

  predicate AllTokens(ws: seq<string>) { forall i :: 0 <= i < |ws| ==> IsToken(ws[i]) }

  // ---------------------------------------------------------------------------
  // Substrings

  /** `p` occurs in `s` starting at index `i`. */
  predicate OccursAt(s: string, p: string, i: int) {
    0 <= i && i + |p| <= |s| && s[i..i + |p|] == p
  }

  /** The first occurrence of `p` in `s` at or after `i` (`s.find(p, i)`). */
  function IndexFrom(s: string, p: string, i: nat): (r: Option<nat>)
    ensures r.Some? ==> i <= r.value && OccursAt(s, p, r.value)
    ensures r.Some? ==> forall j :: i <= j < r.value ==> !OccursAt(s, p, j)
    ensures r.None? ==> forall j :: i <= j ==> !OccursAt(s, p, j)
    decreases |s| - i
  {
    if i + |p| > |s| then None
    else if s[i..i + |p|] == p then Some(i)
    else IndexFrom(s, p, i + 1)
  }

  /** The last occurrence of `p` in `s` that ends at or before index `n`. */
  function LastIndexBefore(s: string, p: string, n: nat): (r: Option<nat>)
    requires n <= |s|
    ensures r.Some? ==> OccursAt(s, p, r.value) && r.value + |p| <= n
    ensures r.Some? ==> forall j :: r.value < j && j + |p| <= n ==> !OccursAt(s, p, j)
    ensures r.None? ==> forall j :: j + |p| <= n ==> !OccursAt(s, p, j)
    decreases n
  {
    if n < |p| then None
    else if s[n - |p|..n] == p then Some(n - |p|)
    else LastIndexBefore(s, p, n - 1)
  }

  /** `s.rfind(p)`. */
  function LastIndexOf(s: string, p: string): (r: Option<nat>)
    ensures r.Some? ==> OccursAt(s, p, r.value)
    ensures r.Some? ==> forall j :: r.value < j ==> !OccursAt(s, p, j)
    ensures r.None? ==> forall j :: !OccursAt(s, p, j)
  {
    LastIndexBefore(s, p, |s|)
  }

  /** `s.startswith(p)`. */
  predicate StartsWith(s: string, p: string) { |p| <= |s| && s[..|p|] == p }

  /** Python's `p in s`. */
  predicate Contains(s: string, p: string)
    ensures Contains(s, p) <==> exists i :: OccursAt(s, p, i)
  {
    IndexFrom(s, p, 0).Some?
  }

  // ---------------------------------------------------------------------------
  // Line splitting

  /** The first index of `c` in `s`, or `|s|` when there is none. */
  function FirstIndexOf(s: string, c: char): (r: nat)
    ensures r <= |s|
    ensures r < |s| ==> s[r] == c
  {
    FirstIndexFrom(s, c, 0)
  }

  /** The first index of `c` in `s` at or after `k`, or `|s|`. */
  function FirstIndexFrom(s: string, c: char, k: nat): (r: nat)
    requires k <= |s|
    ensures k <= r <= |s|
    ensures r < |s| ==> s[r] == c
    decreases |s| - k
  {
    if k == |s| || s[k] == c then k else FirstIndexFrom(s, c, k + 1)
  }

  /** No `c` comes before the first one. */
  lemma FirstIndexOfBefore(s: string, c: char)
    ensures forall j :: 0 <= j < FirstIndexOf(s, c) ==> s[j] != c
  {
    FirstIndexFromBefore(s, c, 0);
  }

  lemma {:induction false} FirstIndexFromBefore(s: string, c: char, k: nat)
    requires k <= |s|
    ensures forall j :: k <= j < FirstIndexFrom(s, c, k) ==> s[j] != c
    decreases |s| - k
  {
    if k < |s| && s[k] != c {
      FirstIndexFromBefore(s, c, k + 1);
    }
  }

  /** The first `c` is at `n` when none comes before `n` and one is at `n`, or `n` is the end. */
  lemma FirstIndexOfAt(s: string, c: char, n: nat)
    requires n <= |s| && (n < |s| ==> s[n] == c)
    requires forall j :: 0 <= j < n ==> s[j] != c
    ensures FirstIndexOf(s, c) == n
  {
    FirstIndexFromAt(s, c, 0, n);
  }

  lemma {:induction false} FirstIndexFromAt(s: string, c: char, k: nat, n: nat)
    requires k <= n <= |s| && (n < |s| ==> s[n] == c)
    requires forall j :: k <= j < n ==> s[j] != c
    ensures FirstIndexFrom(s, c, k) == n
    decreases n - k
  {
    if k < n {
      FirstIndexFromAt(s, c, k + 1, n);
    }
  }

  /** `s.split('\n')`: always at least one piece, one more than there are newlines. */
  function SplitNewline(s: string): (r: seq<string>)
    ensures |r| >= 1
    decreases |s|
  {
    var i := FirstIndexOf(s, '\n');
    if i == |s| then [s] else [s[..i]] + SplitNewline(s[i + 1..])
  }

  /** `'\n'.join(pieces)`. */
  function JoinNewline(pieces: seq<string>): string
    requires |pieces| >= 1
  {
    if |pieces| == 1 then pieces[0] else pieces[0] + "\n" + JoinNewline(pieces[1..])
  }

  /** Every line followed by a newline, as a device prints a table. */
  function Terminated(lines: seq<string>): string {
    if lines == [] then "" else lines[0] + "\n" + Terminated(lines[1..])
  }

  /** Python's `'\n'.join(s.split('\n')) == s`. */
  lemma {:induction false} JoinSplitNewline(s: string)
    ensures JoinNewline(SplitNewline(s)) == s
    decreases |s|
  {
    var i := FirstIndexOf(s, '\n');
    if i < |s| {
      var pieces := SplitNewline(s);
      var rest := SplitNewline(s[i + 1..]);
      assert pieces == [s[..i]] + rest;
      assert pieces[0] == s[..i] && pieces[1..] == rest;
      JoinSplitNewline(s[i + 1..]);
      assert JoinNewline(pieces) == s[..i] + "\n" + s[i + 1..];
      assert s == s[..i] + "\n" + s[i + 1..];
    } else {
      assert SplitNewline(s) == [s];
    }
  }

  /** Splitting a newline-terminated block yields its lines followed by one empty piece. */
  lemma {:induction false} SplitTerminated(lines: seq<string>)
    requires forall k :: 0 <= k < |lines| ==> '\n' !in lines[k]
    ensures SplitNewline(Terminated(lines)) == lines + [""]
    decreases |lines|
  {
    if lines != [] {
      var l := lines[0];
      var rest := Terminated(lines[1..]);
      assert Terminated(lines) == l + "\n" + rest;
      SplitNewlineOfLine(l, rest);
      SplitTerminated(lines[1..]);
      ConsAppend(l, lines[1..], [""]);
      assert [l] + lines[1..] == lines;
    }
  }

  /** A line without newlines, a newline and more text: `split('\n')` gives the line first. */
  lemma SplitNewlineOfLine(l: string, rest: string)
    requires '\n' !in l
    ensures SplitNewline(l + "\n" + rest) == [l] + SplitNewline(rest)
  {
    var s := l + "\n" + rest;
    forall j | 0 <= j < |l| ensures s[j] != '\n' {
      assert s[j] == l[j] && l[j] in l;
    }
    assert s[|l|] == '\n';
    FirstIndexOfAt(s, '\n', |l|);
    assert s[..|l|] == l && s[|l| + 1..] == rest;
  }

  predicate IsLineBreak(c: char) { c == '\n' || c == '\r' }

  /** The first index of `\n` or `\r` in `s`, or `|s|`. */
  function FirstBreak(s: string): (r: nat)
    ensures r <= |s|
    ensures r < |s| ==> IsLineBreak(s[r])
  {
    FirstBreakFrom(s, 0)
  }

  function FirstBreakFrom(s: string, k: nat): (r: nat)
    requires k <= |s|
    ensures k <= r <= |s|
    ensures r < |s| ==> IsLineBreak(s[r])
    decreases |s| - k
  {
    if k == |s| || IsLineBreak(s[k]) then k else FirstBreakFrom(s, k + 1)
  }

  /** The first line break is at `n` when none comes before `n` and one is at `n`, or `n` is
      the end. */
  lemma FirstBreakAt(s: string, n: nat)
    requires n <= |s| && (n < |s| ==> IsLineBreak(s[n]))
    requires forall j :: 0 <= j < n ==> !IsLineBreak(s[j])
    ensures FirstBreak(s) == n
  {
    FirstBreakFromAt(s, 0, n);
  }

  lemma {:induction false} FirstBreakFromAt(s: string, k: nat, n: nat)
    requires k <= n <= |s| && (n < |s| ==> IsLineBreak(s[n]))
    requires forall j :: k <= j < n ==> !IsLineBreak(s[j])
    ensures FirstBreakFrom(s, k) == n
    decreases n - k
  {
    if k < n {
      FirstBreakFromAt(s, k + 1, n);
    }
  }

  /** Byte-string `s.splitlines()`: lines end at `\n`, `\r` or `\r\n`, and a final line
      terminator does not open an empty last line. */
  function SplitLines(s: string): (r: seq<string>)
    ensures s == [] <==> r == []
    decreases |s|
  {
    if s == [] then []
    else
      var i := FirstBreak(s);
      if i == |s| then [s]
      else
        var width := if s[i] == '\r' && i + 1 < |s| && s[i + 1] == '\n' then 2 else 1;
        [s[..i]] + SplitLines(s[i + width..])
  }

  /** `splitlines()` of a newline-terminated block gives back its lines, with no empty
      piece after the last one. */
  lemma {:induction false} SplitLinesTerminated(lines: seq<string>)
    requires forall k :: 0 <= k < |lines| ==> '\n' !in lines[k] && '\r' !in lines[k]
    ensures SplitLines(Terminated(lines)) == lines
    decreases |lines|
  {
    if lines != [] {
      var l := lines[0];
      var rest := Terminated(lines[1..]);
      assert Terminated(lines) == l + "\n" + rest;
      SplitLinesOfLine(l, rest);
      SplitLinesTerminated(lines[1..]);
      assert [l] + lines[1..] == lines;
    }
  }

  /** A line without breaks, a newline and more text: `splitlines()` gives the line first. */
  lemma SplitLinesOfLine(l: string, rest: string)
    requires '\n' !in l && '\r' !in l
    ensures SplitLines(l + "\n" + rest) == [l] + SplitLines(rest)
  {
    var s := l + "\n" + rest;
    forall j | 0 <= j < |l| ensures !IsLineBreak(s[j]) {
      assert s[j] == l[j] && l[j] in l;
    }
    assert s[|l|] == '\n';
    FirstBreakAt(s, |l|);
    SplitLinesAtBreak(s);
    assert s[..|l|] == l && s[|l| + 1..] == rest;
  }

  /** Without carriage returns, `split('\n')` is `splitlines()` plus one empty piece when the
      text is empty or ends in a newline: there the two differ by one line. */
  lemma {:induction false} SplitLinesAgreesWithSplit(s: string)
    requires '\r' !in s
    ensures SplitNewline(s) == SplitLines(s) + NewlineTrailer(s)
    decreases |s|
  {
    var i := FirstIndexOf(s, '\n');
    if i < |s| {
      var rest := s[i + 1..];
      var head := s[..i];
      NoCarriageReturnAfter(s, i + 1);
      SplitLinesAtNewline(s, i);
      SplitNewlineAt(s);
      TrailerOfRest(s, i + 1);
      SplitLinesAgreesWithSplit(rest);
      ConsAppend(head, SplitLines(rest), NewlineTrailer(s));
    } else if s == [] {
      assert SplitNewline(s) == [s];
    } else {
      FirstBreakIsNewline(s);
      FirstIndexOfBefore(s, '\n');
      assert s[|s| - 1] != '\n';
      assert SplitLines(s) == [s];
      assert SplitNewline(s) == [s];
    }
  }

  lemma ConsAppend<T>(h: T, a: seq<T>, b: seq<T>)
    ensures [h] + (a + b) == ([h] + a) + b
  {
  }

  /** A suffix that starts just after a newline ends the way the whole text does. */
  lemma TrailerOfRest(s: string, k: nat)
    requires 0 < k <= |s| && s[k - 1] == '\n'
    ensures NewlineTrailer(s[k..]) == NewlineTrailer(s)
  {
    if k < |s| {
      assert s[k..][|s| - k - 1] == s[|s| - 1];
    }
  }

  /** The extra empty piece `split('\n')` yields after a final newline, or for empty text. */
  function NewlineTrailer(s: string): seq<string> {
    if s == [] || s[|s| - 1] == '\n' then [""] else []
  }

  /** `split('\n')` cuts at the first newline. */
  lemma SplitNewlineAt(s: string)
    requires FirstIndexOf(s, '\n') < |s|
    ensures SplitNewline(s) == [s[..FirstIndexOf(s, '\n')]] + SplitNewline(s[FirstIndexOf(s, '\n') + 1..])
  {
  }

  lemma SplitLinesAtNewline(s: string, i: nat)
    requires '\r' !in s && i == FirstIndexOf(s, '\n') && i < |s|
    ensures SplitLines(s) == [s[..i]] + SplitLines(s[i + 1..])
  {
    FirstBreakIsNewline(s);
    assert s[i] != '\r';
    SplitLinesAtBreak(s);
  }

  /** `splitlines()` cuts a line at a first line break that is a lone `\n`. */
  lemma SplitLinesAtBreak(s: string)
    requires FirstBreak(s) < |s| && s[FirstBreak(s)] == '\n'
    ensures SplitLines(s) == [s[..FirstBreak(s)]] + SplitLines(s[FirstBreak(s) + 1..])
  {
  }

  lemma NoCarriageReturnAfter(s: string, j: nat)
    requires '\r' !in s && j <= |s|
    ensures '\r' !in s[j..]
  {
    forall k | 0 <= k < |s[j..]| ensures s[j..][k] != '\r' {
      assert s[j..][k] == s[j + k];
      assert s[j + k] in s;
    }
  }

  lemma FirstBreakIsNewline(s: string)
    requires '\r' !in s
    ensures FirstBreak(s) == FirstIndexOf(s, '\n')
  {
    var i := FirstIndexOf(s, '\n');
    if i < |s| { assert s[i] in s; }
    FirstIndexOfBefore(s, '\n');
    forall j | 0 <= j < i ensures !IsLineBreak(s[j]) {
      assert s[j] in s;
    }
    FirstBreakAt(s, i);
  }

  // ---------------------------------------------------------------------------
  // Whitespace tokenisation

  /** The longest prefix of `s` without whitespace. */
  function Word(s: string): (w: string)
    ensures |w| <= |s| && w == s[..|w|] && NoSpace(w)
    ensures |w| < |s| ==> IsSpace(s[|w|])
    ensures s != [] && !IsSpace(s[0]) ==> |w| > 0
  {
    if s == [] || IsSpace(s[0]) then [] else [s[0]] + Word(s[1..])
  }

  /** `s.split()`: the maximal runs of non-whitespace, in order. */
  function Tokens(s: string): (r: seq<string>)
    ensures AllTokens(r)
    decreases |s|
  {
    if s == [] then []
    else if IsSpace(s[0]) then Tokens(s[1..])
    else
      var w := Word(s);
      [w] + Tokens(s[|w|..])
  }

  /** `' '.join(words)`: how a device row with single-space column gaps reads. */
  function JoinSpace(words: seq<string>): string {
    if words == [] then ""
    else if |words| == 1 then words[0]
    else words[0] + " " + JoinSpace(words[1..])
  }

  lemma WordOfPrefix(w: string, rest: string)
    requires NoSpace(w)
    requires rest == [] || IsSpace(rest[0])
    ensures Word(w + rest) == w
  {
    var s := w + rest;
    assert forall i :: 0 <= i < |w| ==> s[i] == w[i];
    assert |w| < |s| ==> s[|w|] == rest[0];
    assert s[..|w|] == w;
  }

  /** `(' '.join(words)).split() == words` when every word is a token. */
  lemma {:induction false} TokensOfJoin(words: seq<string>)
    requires AllTokens(words)
    ensures Tokens(JoinSpace(words)) == words
    decreases |words|
  {
    if words == [] {
    } else if |words| == 1 {
      var w := words[0];
      WordOfPrefix(w, []);
      assert w + [] == w;
      assert w[|w|..] == [];
    } else {
      var w := words[0];
      var j := JoinSpace(words[1..]);
      var s := w + " " + j;
      WordOfPrefix(w, " " + j);
      assert s == w + (" " + j);
      assert s[|w|..] == " " + j;
      assert (" " + j)[1..] == j;
      TokensOfJoin(words[1..]);
    }
  }

  /** A line with nothing but whitespace has no tokens. */
  lemma {:induction false} TokensOfSpaces(s: string)
    requires AllSpace(s)
    ensures Tokens(s) == []
    decreases |s|
  {
    if s != [] { TokensOfSpaces(s[1..]); }
  }

  // ---------------------------------------------------------------------------
  // strip() and lower()

  /** The index of the first non-whitespace character at or after `k`, or `|s|`. */
  function SkipSpace(s: string, k: nat): (r: nat)
    requires k <= |s|
    ensures k <= r <= |s| && (r < |s| ==> !IsSpace(s[r]))
    ensures forall j :: k <= j < r ==> IsSpace(s[j])
    decreases |s| - k
  {
    if k == |s| || !IsSpace(s[k]) then k else SkipSpace(s, k + 1)
  }

  /** The end of `s[lo..e]` once its trailing whitespace is dropped. */
  function TrimEnd(s: string, lo: nat, e: nat): (r: nat)
    requires lo <= e <= |s|
    ensures lo <= r <= e && (lo < r ==> !IsSpace(s[r - 1]))
    ensures forall j :: r <= j < e ==> IsSpace(s[j])
    decreases e
  {
    if e == lo || !IsSpace(s[e - 1]) then e else TrimEnd(s, lo, e - 1)
  }

  /** `s.strip()`: `s` is the result with whitespace before and after it. */
  function Strip(s: string): (r: string)
    ensures exists i :: 0 <= i && i + |r| <= |s| && r == s[i..i + |r|] &&
                        AllSpace(s[..i]) && AllSpace(s[i + |r|..])
    ensures r == [] || (!IsSpace(r[0]) && !IsSpace(r[|r| - 1]))
  {
    var a := SkipSpace(s, 0);
    var b := TrimEnd(s, a, |s|);
    assert AllSpace(s[..a]) by {
      forall j | 0 <= j < a ensures IsSpace(s[..a][j]) { assert s[..a][j] == s[j]; }
    }
    assert AllSpace(s[b..]) by {
      forall j | 0 <= j < |s| - b ensures IsSpace(s[b..][j]) { assert s[b..][j] == s[b + j]; }
    }
    assert a < b ==> s[a..b][0] == s[a] && s[a..b][b - a - 1] == s[b - 1];
    assert s[a..b] == s[a..a + (b - a)];
    s[a..b]
  }

  function LowerChar(c: char): char {
    if 'A' <= c <= 'Z' then (c as int + 32) as char else c
  }

  /** `s.lower()` on a byte string: only ASCII letters change. */
  function Lower(s: string): (r: string)
    ensures |r| == |s|
    ensures forall i :: 0 <= i < |s| ==> r[i] == LowerChar(s[i])
  {
    if s == [] then [] else [LowerChar(s[0])] + Lower(s[1..])
  }

  // ---------------------------------------------------------------------------
  // List slicing

  /** Python's normalisation of a slice bound against a length `n`. */
  function SliceBound(i: int, n: nat): (r: nat)
    ensures r <= n
  {
    if i < 0 then (if i + n < 0 then 0 else i + n) else if i > n then n else i
  }

  /** Python's `s[start:stop]`: negative bounds count from the end and both are clamped. */
  function PySlice<T>(s: seq<T>, start: int, stop: int): seq<T> {
    var a, b := SliceBound(start, |s|), SliceBound(stop, |s|);
    if a < b then s[a..b] else []
  }

  /** `lines[k:-1]`: a table body after `k` header lines and one trailing line. */
  function TableBody<T>(lines: seq<T>, k: nat): (r: seq<T>)
    ensures |r| == if k + 1 <= |lines| then |lines| - 1 - k else 0
    ensures forall i :: 0 <= i < |r| ==> r[i] == lines[k + i]
  {
    PySlice(lines, k, -1)
  }

  // ---------------------------------------------------------------------------
  // What int() and float() accept

  predicate IsDigits(s: string) { |s| > 0 && forall i :: 0 <= i < |s| ==> IsDigit(s[i]) }

  function DigitsValue(s: string): (n: nat)
    requires forall i :: 0 <= i < |s| ==> IsDigit(s[i])
    decreases |s|
  {
    if s == [] then 0
    else
      var last := s[|s| - 1];
      assert IsDigit(last);
      DigitsValue(s[..|s| - 1]) * 10 + (last as int - '0' as int)
  }

  /** What Python 2 `int()` accepts from a token: an optional sign and decimal digits. */
  predicate IsIntLiteral(s: string) {
    IsDigits(s) || (|s| > 1 && (s[0] == '+' || s[0] == '-') && IsDigits(s[1..]))
  }

  /** `int(s)`, or the ValueError it raises. */
  function ParseInt(s: string): (r: Result<int>)
    ensures r.Ok? <==> IsIntLiteral(s)
    ensures r.Err? ==> r.error == InvalidInt(s)
  {
    if IsDigits(s) then Ok(DigitsValue(s))
    else if |s| > 1 && s[0] == '+' && IsDigits(s[1..]) then Ok(DigitsValue(s[1..]))
    else if |s| > 1 && s[0] == '-' && IsDigits(s[1..]) then Ok(-(DigitsValue(s[1..]) as int))
    else Err(InvalidInt(s))
  }

  /** The decimal spelling of `n`, as `str(n)` writes it. */
  function NatToString(n: nat): (s: string)
    ensures IsDigits(s)
    decreases n
  {
    if n < 10 then [('0' as int + n) as char]
    else NatToString(n / 10) + [('0' as int + n % 10) as char]
  }

  /** `int(str(n)) == n`. */
  lemma {:induction false} ParseIntOfNatToString(n: nat)
    ensures ParseInt(NatToString(n)) == Ok(n)
    decreases n
  {
    var s := NatToString(n);
    if n >= 10 {
      ParseIntOfNatToString(n / 10);
      assert s[..|s| - 1] == NatToString(n / 10);
    } else {
      assert s[..0] == [];
    }
    assert DigitsValue(s) == n;
  }

  /** `int(s)` for a negative vlan such as "-5": the sign is kept. */
  lemma {:induction false} ParseIntOfNegative(n: nat)
    requires n > 0
    ensures ParseInt("-" + NatToString(n)) == Ok(-(n as int))
  {
    var s := "-" + NatToString(n);
    assert s[1..] == NatToString(n);
    assert !IsDigits(s) by { assert !IsDigit(s[0]); }
    ParseIntOfNatToString(n);
  }

  predicate AllDigits(s: string) { forall i :: 0 <= i < |s| ==> IsDigit(s[i]) }

  /** A float mantissa: digits with at most one point and at least one digit. */
  predicate IsMantissa(m: string) {
    var d := FirstIndexOf(m, '.');
    if d == |m| then IsDigits(m)
    else AllDigits(m[..d]) && AllDigits(m[d + 1..]) && |m| >= 2
  }

  /** An exponent part: empty, or `e`/`E`, an optional sign and digits. */
  predicate IsExponent(e: string) {
    e == [] ||
    (|e| >= 2 && (e[0] == 'e' || e[0] == 'E') &&
     (IsDigits(e[1..]) || (|e| >= 3 && (e[1] == '+' || e[1] == '-') && IsDigits(e[2..]))))
  }

  function FirstExponentMark(s: string): (r: nat)
    ensures r <= |s|
  {
    if s == [] || s[0] == 'e' || s[0] == 'E' then 0 else 1 + FirstExponentMark(s[1..])
  }

  /** What Python 2 `float()` accepts from a token: an optional sign, then either a decimal
      literal with optional exponent, or `inf`, `infinity` or `nan` in any letter case. */
  predicate IsFloatLiteral(s: string) {
    var body := if s != [] && (s[0] == '+' || s[0] == '-') then s[1..] else s;
    var k := FirstExponentMark(body);
    Lower(body) in {"inf", "infinity", "nan"} || (IsMantissa(body[..k]) && IsExponent(body[k..]))
  }
}
