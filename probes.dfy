/** The fixed regular expressions of the two drivers, written out by hand. Every pattern is
    matched with `re.search` against one line that holds no newline, so `.` matches any
    character and `$` is the end of the line. A greedy `.*` followed by a literal makes the
    literal match at its LAST feasible occurrence; the lemma beside each probe states the
    match in those terms. */
module Probes {
  import opened Outcomes
  import opened PyText

  /** `ANCHOR.*LIT(.*)$` searched anywhere in `line`: the text after the last `lit`, provided
      an `anchor` ends before it. */
  function TailAfterAnchor(line: string, anchor: string, lit: string): Option<string> {
    match IndexFrom(line, anchor, 0)
    case None => None
    case Some(a) =>
      match LastIndexOf(line, lit)
      case None => None
      case Some(l) => if a + |anchor| <= l then Some(line[l + |lit|..]) else None
  }

  /** The search matches exactly when some `anchor` ends at or before some `lit`, and the group
      is what follows the last `lit` of the line. */
  lemma TailAfterAnchorMatches(line: string, anchor: string, lit: string)
    ensures TailAfterAnchor(line, anchor, lit).Some? <==>
            exists a, l :: OccursAt(line, anchor, a) && OccursAt(line, lit, l) && a + |anchor| <= l
    ensures TailAfterAnchor(line, anchor, lit).Some? ==>
            exists l :: OccursAt(line, lit, l) && TailAfterAnchor(line, anchor, lit).value == line[l + |lit|..] &&
                        forall j :: l < j ==> !OccursAt(line, lit, j)
  {
    var first := IndexFrom(line, anchor, 0);
    var last := LastIndexOf(line, lit);
    forall a, l | OccursAt(line, anchor, a) && OccursAt(line, lit, l) && a + |anchor| <= l
      ensures TailAfterAnchor(line, anchor, lit).Some?
    {
      assert first.Some? && first.value <= a;
      assert last.Some? && l <= last.value;
    }
  }

  /** `^PREFIX(.*)LIT(.*)$`: the text between `prefix` and the last `lit`, and after it. */
  function SplitAfterPrefix(line: string, prefix: string, lit: string): Option<(string, string)> {
    if !StartsWith(line, prefix) then None
    else
      match LastIndexOf(line, lit)
      case None => None
      case Some(l) => if |prefix| <= l then Some((line[|prefix|..l], line[l + |lit|..])) else None
  }

  /** It matches exactly when the line starts with `prefix` and `lit` occurs after it; the
      groups are split at the last occurrence of `lit`. */
  lemma SplitAfterPrefixMatches(line: string, prefix: string, lit: string)
    ensures SplitAfterPrefix(line, prefix, lit).Some? <==>
            StartsWith(line, prefix) && exists l :: |prefix| <= l && OccursAt(line, lit, l)
    ensures SplitAfterPrefix(line, prefix, lit).Some? ==>
            exists l :: |prefix| <= l && OccursAt(line, lit, l) &&
                        SplitAfterPrefix(line, prefix, lit).value == (line[|prefix|..l], line[l + |lit|..]) &&
                        forall j :: l < j ==> !OccursAt(line, lit, j)
  {
    var last := LastIndexOf(line, lit);
    forall l | StartsWith(line, prefix) && |prefix| <= l && OccursAt(line, lit, l)
      ensures SplitAfterPrefix(line, prefix, lit).Some?
    {
      assert last.Some? && l <= last.value;
    }
  }

  /** First driver, `"Up Time.*: up (.*)$"`. */
  function UpTimeUp(line: string): Option<string> { TailAfterAnchor(line, "Up Time", ": up ") }

  /** Second driver, `"Up Time.*: (.*)$"`. */
  function UpTime(line: string): Option<string> { TailAfterAnchor(line, "Up Time", ": ") }

  /** Second driver, `"^.*Version.*: (.*)$"`. */
  function AnyVersion(line: string): Option<string> { TailAfterAnchor(line, "Version", ": ") }

  /** Both drivers, `"^Management IP.*: (.*)$"`. */
  function ManagementIp(line: string): Option<string> {
    match SplitAfterPrefix(line, "Management IP", ": ")
    case None => None
    case Some(groups) => Some(groups.1)
  }

  /** First driver, `"^(.*) Version.*: (.*)$"`: the model and the version. */
  function ModelAndVersion(line: string): Option<(string, string)> {
    match LastIndexOf(line, ": ")
    case None => None
    case Some(l) =>
      match LastIndexBefore(line, " Version", l)
      case None => None
      case Some(v) => Some((line[..v], line[l + 2..]))
  }

  /** The model is everything before the last " Version" that ends before the last ": ", and
      the version everything after that ": "; there is a match exactly when some " Version"
      ends before some ": ". */
  lemma ModelAndVersionMatches(line: string)
    ensures ModelAndVersion(line).Some? <==>
            exists v, l :: OccursAt(line, " Version", v) && OccursAt(line, ": ", l) && v + 8 <= l
    ensures ModelAndVersion(line).Some? ==>
            exists v, l :: OccursAt(line, " Version", v) && OccursAt(line, ": ", l) && v + 8 <= l &&
                           ModelAndVersion(line).value == (line[..v], line[l + 2..]) &&
                           (forall j :: l < j ==> !OccursAt(line, ": ", j)) &&
                           (forall j :: v < j && j + 8 <= l ==> !OccursAt(line, " Version", j))
  {
    var last := LastIndexOf(line, ": ");
    if last.Some? {
      var l := last.value;
      var before := LastIndexBefore(line, " Version", l);
      if before.Some? {
        var v := before.value;
        assert ModelAndVersion(line) == Some((line[..v], line[l + 2..]));
        assert OccursAt(line, " Version", v) && OccursAt(line, ": ", l) && v + 8 <= l;
      }
    }
    forall v, l | OccursAt(line, " Version", v) && OccursAt(line, ": ", l) && v + 8 <= l
      ensures ModelAndVersion(line).Some?
    {
      assert last.Some? && l <= last.value;
      assert LastIndexBefore(line, " Version", last.value).Some?;
    }
  }

  /** First driver, `r'^Fan (.*) is (.*),.*$'`: the fan id and its status word. */
  function Fan(line: string): Option<(string, string)> {
    if !StartsWith(line, "Fan ") then None
    else
      match LastIndexOf(line, ",")
      case None => None
      case Some(c) =>
        match LastIndexBefore(line, " is ", c)
        case None => None
        case Some(i) => if 4 <= i then Some((line[4..i], line[i + 4..c])) else None
  }

  /** The id and the status are split at the last " is " that ends before the last comma, and
      the status runs up to that comma. */
  lemma FanMatches(line: string)
    ensures Fan(line).Some? <==>
            StartsWith(line, "Fan ") &&
            exists i, c :: 4 <= i && OccursAt(line, " is ", i) && OccursAt(line, ",", c) && i + 4 <= c
    ensures Fan(line).Some? ==>
            exists i, c :: 4 <= i && OccursAt(line, " is ", i) && OccursAt(line, ",", c) && i + 4 <= c &&
                           Fan(line).value == (line[4..i], line[i + 4..c]) &&
                           (forall j :: c < j ==> !OccursAt(line, ",", j)) &&
                           (forall j :: i < j && j + 4 <= c ==> !OccursAt(line, " is ", j))
  {
    var last := LastIndexOf(line, ",");
    forall i, c | StartsWith(line, "Fan ") && 4 <= i && OccursAt(line, " is ", i) && OccursAt(line, ",", c) && i + 4 <= c
      ensures Fan(line).Some?
    {
      assert last.Some? && c <= last.value;
      var found := LastIndexBefore(line, " is ", last.value);
      assert found.Some? && i <= found.value;
    }
  }

  /** First driver, `r'^Power Supply #(.*) is (.*)$'`: the supply id and its status. */
  function PowerSupply(line: string): Option<(string, string)> {
    SplitAfterPrefix(line, "Power Supply #", " is ")
  }

  // ---------------------------------------------------------------------------
  // Second driver, r'^.*One minute: (\d+\.\d+); Five.*$'

  /** The length of the run of digits that starts `s`. */
  function DigitRun(s: string): (n: nat)
    ensures n <= |s| && AllDigits(s[..n])
    ensures n < |s| ==> !IsDigit(s[n])
  {
    if s == [] || !IsDigit(s[0]) then 0 else 1 + DigitRun(s[1..])
  }

  lemma {:induction false} DigitRunExact(s: string, n: nat)
    requires n < |s| && (forall j :: 0 <= j < n ==> IsDigit(s[j])) && !IsDigit(s[n])
    ensures DigitRun(s) == n
  {
    if n > 0 {
      DigitRunExact(s[1..], n - 1);
    }
  }

  /** What `\d+\.\d+` matches: digits, a point, digits. */
  predicate IsDecimal(d: string) {
    var k := FirstIndexOf(d, '.');
    k < |d| && IsDigits(d[..k]) && IsDigits(d[k + 1..])
  }

  /** `(\d+\.\d+); Five` at the start of `t`: the decimal, if it is there. */
  function DecimalBeforeFive(t: string): Option<string> {
    var a := DigitRun(t);
    if a == 0 || a == |t| || t[a] != '.' then None
    else
      var b := DigitRun(t[a + 1..]);
      if b == 0 || !StartsWith(t[a + 1 + b..], "; Five") then None
      else Some(t[..a + 1 + b])
  }

  /** The captured text is a decimal followed by "; Five", and when no decimal is followed by
      "; Five" at the start of `t` nothing is captured. */
  lemma DecimalBeforeFiveMatches(t: string)
    ensures DecimalBeforeFive(t).Some? ==>
            IsDecimal(DecimalBeforeFive(t).value) && StartsWith(t, DecimalBeforeFive(t).value + "; Five")
    ensures DecimalBeforeFive(t).None? ==> forall d :: IsDecimal(d) ==> !StartsWith(t, d + "; Five")
  {
    var a := DigitRun(t);
    if DecimalBeforeFive(t).Some? {
      var b := DigitRun(t[a + 1..]);
      var d := t[..a + 1 + b];
      assert d[..a] == t[..a] && d[a + 1..] == t[a + 1..][..b];
      assert d[a] == '.';
      forall j | 0 <= j < a ensures d[j] != '.' {
        assert d[j] == d[..a][j];
      }
      FirstIndexOfAt(d, '.', a);
      assert t[..|d| + 6] == d + "; Five";
    } else {
      forall d | IsDecimal(d) ensures !StartsWith(t, d + "; Five") {
        if StartsWith(t, d + "; Five") {
          DecimalIsFound(t, d);
        }
      }
    }
  }

  lemma DecimalIsFound(t: string, d: string)
    requires IsDecimal(d) && StartsWith(t, d + "; Five")
    ensures DecimalBeforeFive(t) == Some(d)
  {
    var k := FirstIndexOf(d, '.');
    var m := |d| - k - 1;
    var e := d + "; Five";
    assert t[..|e|] == e;
    assert e[..|d|] == d && e[|d|..] == "; Five";
    assert t[..|d|] == d by { assert t[..|d|] == t[..|e|][..|d|]; }
    assert t[|d|..|e|] == "; Five" by { assert t[|d|..|e|] == t[..|e|][|d|..]; }
    assert t[..k] == d[..k] by { assert t[..k] == t[..|d|][..k]; }
    assert t[k] == '.' by { assert t[k] == t[..|d|][k]; }
    DigitRunOfPrefix(t, d[..k]);
    var rest := t[k + 1..];
    assert rest[..m] == d[k + 1..] by { assert rest[..m] == t[..|d|][k + 1..]; }
    assert rest[m] == ';' by { assert rest[m] == t[|d|..|e|][0]; }
    DigitRunOfPrefix(rest, d[k + 1..]);
    assert rest[m..] == t[|d|..];
    assert t[|d|..][..6] == "; Five";
  }

  /** A run of digits followed by a non-digit is exactly what `DigitRun` measures. */
  lemma DigitRunOfPrefix(s: string, p: string)
    requires IsDigits(p) && |p| < |s| && s[..|p|] == p && !IsDigit(s[|p|])
    ensures DigitRun(s) == |p|
  {
    forall j | 0 <= j < |p| ensures IsDigit(s[j]) {
      assert s[j] == s[..|p|][j];
    }
    DigitRunExact(s, |p|);
  }

  /** The decimal of "One minute: <decimal>; Five" when it starts at index `p`. */
  function OneMinuteAt(line: string, p: int): Option<string> {
    if OccursAt(line, "One minute: ", p) then DecimalBeforeFive(line[p + 12..]) else None
  }

  /** The match with the largest start below `n`, as the greedy `^.*` finds it. */
  function LastOneMinuteBelow(line: string, n: nat): Option<string>
    decreases n
  {
    if n == 0 then None
    else if OneMinuteAt(line, n - 1).Some? then OneMinuteAt(line, n - 1)
    else LastOneMinuteBelow(line, n - 1)
  }

  lemma {:induction false} LastOneMinuteBelowFinds(line: string, n: nat)
    ensures LastOneMinuteBelow(line, n).Some? ==>
            exists p :: 0 <= p < n && OneMinuteAt(line, p) == LastOneMinuteBelow(line, n) &&
                        forall q :: p < q < n ==> OneMinuteAt(line, q).None?
    ensures LastOneMinuteBelow(line, n).None? ==> forall p :: 0 <= p < n ==> OneMinuteAt(line, p).None?
    decreases n
  {
    if n > 0 {
      if OneMinuteAt(line, n - 1).Some? {
        assert LastOneMinuteBelow(line, n) == OneMinuteAt(line, n - 1);
      } else {
        assert LastOneMinuteBelow(line, n) == LastOneMinuteBelow(line, n - 1);
        LastOneMinuteBelowFinds(line, n - 1);
        if LastOneMinuteBelow(line, n - 1).Some? {
          var p :| 0 <= p < n - 1 && OneMinuteAt(line, p) == LastOneMinuteBelow(line, n - 1) &&
                   forall q :: p < q < n - 1 ==> OneMinuteAt(line, q).None?;
          assert forall q :: p < q < n ==> OneMinuteAt(line, q).None?;
        }
      }
    }
  }

  /** `r'^.*One minute: (\d+\.\d+); Five.*$'`: the one-minute load of the LAST place in the
      line where the whole pattern fits. */
  function OneMinuteLoad(line: string): Option<string> {
    LastOneMinuteBelow(line, |line| + 1)
  }

  /** The captured load is a decimal, it is the match that starts furthest right, and without
      any match nothing is captured. */
  lemma OneMinuteLoadMatches(line: string)
    ensures OneMinuteLoad(line).Some? ==> IsDecimal(OneMinuteLoad(line).value)
    ensures OneMinuteLoad(line).Some? ==>
            exists p :: OneMinuteAt(line, p) == OneMinuteLoad(line) && forall q :: p < q ==> OneMinuteAt(line, q).None?
    ensures OneMinuteLoad(line).None? ==> forall p :: OneMinuteAt(line, p).None?
  {
    var n := |line| + 1;
    LastOneMinuteBelowFinds(line, n);
    if OneMinuteLoad(line).Some? {
      var p :| 0 <= p < n && OneMinuteAt(line, p) == OneMinuteLoad(line) &&
               forall q :: p < q < n ==> OneMinuteAt(line, q).None?;
      DecimalBeforeFiveMatches(line[p + 12..]);
      assert forall q :: q >= n ==> !OccursAt(line, "One minute: ", q);
    } else {
      assert forall q :: q >= n || q < 0 ==> !OccursAt(line, "One minute: ", q);
    }
  }
}
