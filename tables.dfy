/** The loop shared by the list-building parsers of both drivers (ARP, interface counters,
    MAC address table, VLAN table): walk the table body line by line; an empty line is
    skipped, ends the call with `{}`, or raises, depending on the parser; every other line is
    split on whitespace and turned into one entry or an exception. */
module Tables {
  import opened Outcomes
  import opened PyText

  /** What a list-building parser returns: its entries, or the `{}` it returns mid-loop. */
  datatype Table<T> = Rows(rows: seq<T>) | EmptyDict

  /** What a parser does with a line of length 0. */
  datatype BlankLine =
    | SkipBlank        // `continue`
    | ReturnEmptyDict  // `return {}`, dropping the entries built so far
    | RaiseNameError   // `return mac-address-table`, which names an undefined variable

  /** The rest of the loop over `lines`, with `acc` the entries built so far. */
  function ScanFrom<T>(lines: seq<string>, acc: seq<T>, row: seq<string> -> Result<T>, blank: BlankLine)
    : Result<Table<T>>
    decreases |lines|
  {
    if lines == [] then Ok(Rows(acc))
    else if |lines[0]| == 0 then
      match blank
      case SkipBlank => ScanFrom(lines[1..], acc, row, blank)
      case ReturnEmptyDict => Ok(EmptyDict)
      case RaiseNameError => Err(NameError)
    else
      match row(Tokens(lines[0]))
      case Err(e) => Err(e)
      case Ok(x) => ScanFrom(lines[1..], acc + [x], row, blank)
  }

  /** The whole loop, starting from an empty list. */
  function Scan<T>(lines: seq<string>, row: seq<string> -> Result<T>, blank: BlankLine): Result<Table<T>> {
    ScanFrom(lines, [], row, blank)
  }

  /** The loop itself: `for line in lines`, appending to a list. */
  method ScanTable<T>(lines: seq<string>, row: seq<string> -> Result<T>, blank: BlankLine)
    returns (r: Result<Table<T>>)
    ensures r == Scan(lines, row, blank)
  {
    var acc: seq<T> := [];
    for i := 0 to |lines|
      invariant ScanFrom(lines[i..], acc, row, blank) == Scan(lines, row, blank)
    {
      assert lines[i..][1..] == lines[i + 1..];
      var line := lines[i];
      if |line| == 0 {
        match blank {
          case SkipBlank =>
          case ReturnEmptyDict => return Ok(EmptyDict);
          case RaiseNameError => return Err(NameError);
        }
      } else {
        var entry := row(Tokens(line));
        if entry.Err? {
          return Err(entry.error);
        }
        acc := acc + [entry.value];
      }
    }
    assert lines[|lines|..] == [];
    return Ok(Rows(acc));
  }

  /** A line the loop goes past: a skipped empty line, or a line that makes an entry. */
  predicate Accepted<T>(line: string, row: seq<string> -> Result<T>, blank: BlankLine) {
    if |line| == 0 then blank == SkipBlank else row(Tokens(line)).Ok?
  }

  /** The entries of the non-empty lines, in order. */
  function Collected<T>(lines: seq<string>, row: seq<string> -> Result<T>): seq<T> {
    if lines == [] then []
    else
      var head := if |lines[0]| > 0 && row(Tokens(lines[0])).Ok? then [row(Tokens(lines[0])).value] else [];
      head + Collected(lines[1..], row)
  }

  /** When the loop goes past every line, it returns the entries of the non-empty lines in
      order, after those it started with. */
  lemma {:induction false} ScanAccepted<T>(lines: seq<string>, acc: seq<T>, row: seq<string> -> Result<T>, blank: BlankLine)
    requires forall j :: 0 <= j < |lines| ==> Accepted(lines[j], row, blank)
    ensures ScanFrom(lines, acc, row, blank) == Ok(Rows(acc + Collected(lines, row)))
    decreases |lines|
  {
    if lines != [] {
      assert Accepted(lines[0], row, blank);
      var head := if |lines[0]| > 0 then [row(Tokens(lines[0])).value] else [];
      if |lines[0]| == 0 {
        assert acc + head == acc;
      }
      assert ScanFrom(lines, acc, row, blank) == ScanFrom(lines[1..], acc + head, row, blank);
      assert Collected(lines, row) == head + Collected(lines[1..], row);
      ScanAccepted(lines[1..], acc + head, row, blank);
      assert acc + head + Collected(lines[1..], row) == acc + (head + Collected(lines[1..], row));
    } else {
      assert acc + [] == acc;
    }
  }

  /** The first line the loop does not go past decides the outcome alone, whatever was built
      before it: `{}` or NameError for an empty line, the row's exception otherwise. */
  lemma {:induction false} ScanStops<T>(lines: seq<string>, acc: seq<T>, row: seq<string> -> Result<T>, blank: BlankLine, i: nat)
    requires i < |lines| && !Accepted(lines[i], row, blank)
    requires forall j :: 0 <= j < i ==> Accepted(lines[j], row, blank)
    ensures ScanFrom(lines, acc, row, blank) ==
            if |lines[i]| > 0 then Err(row(Tokens(lines[i])).error)
            else if blank == ReturnEmptyDict then Ok(EmptyDict)
            else Err(NameError)
    decreases i
  {
    if i > 0 {
      assert Accepted(lines[0], row, blank);
      var head := if |lines[0]| > 0 then [row(Tokens(lines[0])).value] else [];
      if |lines[0]| == 0 {
        assert acc + head == acc;
      }
      assert ScanFrom(lines, acc, row, blank) == ScanFrom(lines[1..], acc + head, row, blank);
      ScanStops(lines[1..], acc + head, row, blank, i - 1);
    }
  }

  // ---------------------------------------------------------------------------
  // Device output made of whitespace-separated rows

  /** Each row written as its tokens separated by single spaces; an empty row is an empty line. */
  function RowLines(rows: seq<seq<string>>): (lines: seq<string>)
    ensures |lines| == |rows|
  {
    if rows == [] then [] else [JoinSpace(rows[0])] + RowLines(rows[1..])
  }

  /** Device output: header lines, then the rows, every line ended by a newline. */
  function Rendered(header: seq<string>, rows: seq<seq<string>>): string {
    Terminated(header + RowLines(rows))
  }

  /** The rows that are not empty, in order. */
  function NonEmptyRows(rows: seq<seq<string>>): seq<seq<string>> {
    if rows == [] then [] else (if rows[0] == [] then [] else [rows[0]]) + NonEmptyRows(rows[1..])
  }

  predicate TokenRows(rows: seq<seq<string>>) {
    forall i :: 0 <= i < |rows| ==> AllTokens(rows[i])
  }

  lemma {:induction false} JoinSpaceFacts(words: seq<string>)
    requires AllTokens(words)
    ensures '\n' !in JoinSpace(words) && '\r' !in JoinSpace(words)
    ensures |JoinSpace(words)| == 0 <==> words == []
    ensures Tokens(JoinSpace(words)) == words
    decreases |words|
  {
    TokensOfJoin(words);
    if |words| > 1 {
      JoinSpaceFacts(words[1..]);
      assert words[0][0] == JoinSpace(words)[0];
    }
    if |words| >= 1 {
      assert '\n' !in words[0] && '\r' !in words[0] by {
        forall k | 0 <= k < |words[0]| ensures words[0][k] != '\n' && words[0][k] != '\r' {
          assert !IsSpace(words[0][k]);
        }
      }
    }
  }

  lemma {:induction false} RowLinesFacts(rows: seq<seq<string>>)
    requires TokenRows(rows)
    ensures forall i :: 0 <= i < |rows| ==> RowLines(rows)[i] == JoinSpace(rows[i])
    ensures forall i :: 0 <= i < |rows| ==> '\n' !in RowLines(rows)[i]
    ensures forall i :: 0 <= i < |rows| ==> (|RowLines(rows)[i]| == 0 <==> rows[i] == [])
    ensures forall i :: 0 <= i < |rows| ==> Tokens(RowLines(rows)[i]) == rows[i]
    decreases |rows|
  {
    if rows != [] {
      RowLinesFacts(rows[1..]);
      JoinSpaceFacts(rows[0]);
      forall i | 1 <= i < |rows| ensures AllTokens(rows[1..][i - 1]) && rows[1..][i - 1] == rows[i] { }
    }
  }

  /** `Rendered(header, rows).split('\n')[k:-1]` with `k` header lines is exactly the rows. */
  lemma BodyOfRendered(header: seq<string>, rows: seq<seq<string>>)
    requires forall i :: 0 <= i < |header| ==> '\n' !in header[i]
    requires TokenRows(rows)
    ensures TableBody(SplitNewline(Rendered(header, rows)), |header|) == RowLines(rows)
  {
    RowLinesFacts(rows);
    var lines := header + RowLines(rows);
    forall k | 0 <= k < |lines| ensures '\n' !in lines[k] {
      if k >= |header| { assert lines[k] == RowLines(rows)[k - |header|]; }
    }
    SplitTerminated(lines);
    var body := TableBody(lines + [""], |header|);
    assert |body| == |rows|;
    forall i | 0 <= i < |rows| ensures body[i] == RowLines(rows)[i] { }
  }

  /** The entries collected from rendered rows are those of the non-empty rows, in order. */
  lemma {:induction false} CollectedOfRows<T>(rows: seq<seq<string>>, row: seq<string> -> Result<T>)
    requires TokenRows(rows)
    requires forall i :: 0 <= i < |rows| && rows[i] != [] ==> row(rows[i]).Ok?
    ensures forall j :: 0 <= j < |rows| ==> Accepted(RowLines(rows)[j], row, SkipBlank)
    ensures |Collected(RowLines(rows), row)| == |NonEmptyRows(rows)|
    ensures forall i :: 0 <= i < |NonEmptyRows(rows)| ==>
              row(NonEmptyRows(rows)[i]).Ok? && Collected(RowLines(rows), row)[i] == row(NonEmptyRows(rows)[i]).value
    decreases |rows|
  {
    RowLinesFacts(rows);
    if rows != [] {
      var tail := rows[1..];
      assert TokenRows(tail) by {
        forall i | 0 <= i < |tail| ensures AllTokens(tail[i]) { assert tail[i] == rows[i + 1]; }
      }
      forall i | 0 <= i < |tail| && tail[i] != [] ensures row(tail[i]).Ok? { assert tail[i] == rows[i + 1]; }
      CollectedOfRows(tail, row);
      assert RowLines(rows)[1..] == RowLines(tail);
      forall j | 0 <= j < |rows| ensures Accepted(RowLines(rows)[j], row, SkipBlank) {
        if j > 0 { assert RowLines(rows)[j] == RowLines(tail)[j - 1]; }
      }
    }
  }

  // ---------------------------------------------------------------------------
  // Dictionaries filled line by line: `table[key] = value` for every line that yields one

  /** The rest of a loop that stores `entry(line)`, when there is one, under its key. */
  function KeyedFrom<V>(lines: seq<string>, acc: map<string, V>, entry: string -> Option<(string, V)>)
    : map<string, V>
    decreases |lines|
  {
    if lines == [] then acc
    else
      var next := match entry(lines[0]) case None => acc case Some(kv) => acc[kv.0 := kv.1];
      KeyedFrom(lines[1..], next, entry)
  }

  /** The loop itself, from an empty dictionary. */
  method KeyedTable<V>(lines: seq<string>, entry: string -> Option<(string, V)>) returns (m: map<string, V>)
    ensures m == KeyedFrom(lines, map[], entry)
  {
    m := map[];
    for i := 0 to |lines|
      invariant KeyedFrom(lines[i..], m, entry) == KeyedFrom(lines, map[], entry)
    {
      assert lines[i..][1..] == lines[i + 1..];
      var found := entry(lines[i]);
      if found.Some? {
        m := m[found.value.0 := found.value.1];
      }
    }
    assert lines[|lines|..] == [];
  }

  /** `key` is produced by line `j`. */
  predicate Yields<V>(entry: string -> Option<(string, V)>, line: string, key: string) {
    entry(line).Some? && entry(line).value.0 == key
  }

  /** The keys of the result are those already there and those some line yields; a key no line
      yields keeps its value; a key takes the value of the LAST line that yields it. */
  lemma KeyedLastWins<V>(lines: seq<string>, acc: map<string, V>, entry: string -> Option<(string, V)>)
    ensures forall k :: k in KeyedFrom(lines, acc, entry) <==>
                          k in acc || exists j :: 0 <= j < |lines| && Yields(entry, lines[j], k)
    ensures forall k :: k in acc && (forall j :: 0 <= j < |lines| ==> !Yields(entry, lines[j], k)) ==>
                          KeyedFrom(lines, acc, entry)[k] == acc[k]
    ensures forall j :: 0 <= j < |lines| && entry(lines[j]).Some? &&
                        (forall l :: j < l < |lines| ==> !Yields(entry, lines[l], entry(lines[j]).value.0)) ==>
                          entry(lines[j]).value.0 in KeyedFrom(lines, acc, entry) &&
                          KeyedFrom(lines, acc, entry)[entry(lines[j]).value.0] == entry(lines[j]).value.1
  {
    KeyedKeys(lines, acc, entry);
    KeyedUntouched(lines, acc, entry);
    KeyedLast(lines, acc, entry);
  }

  lemma {:induction false} KeyedKeys<V>(lines: seq<string>, acc: map<string, V>, entry: string -> Option<(string, V)>)
    ensures forall k :: k in KeyedFrom(lines, acc, entry) <==>
                          k in acc || exists j :: 0 <= j < |lines| && Yields(entry, lines[j], k)
    decreases |lines|
  {
    if lines != [] {
      var next := match entry(lines[0]) case None => acc case Some(kv) => acc[kv.0 := kv.1];
      assert KeyedFrom(lines, acc, entry) == KeyedFrom(lines[1..], next, entry);
      KeyedKeys(lines[1..], next, entry);
      forall k ensures k in KeyedFrom(lines, acc, entry) <==>
                       k in acc || exists j :: 0 <= j < |lines| && Yields(entry, lines[j], k)
      {
        if exists j :: 0 <= j < |lines[1..]| && Yields(entry, lines[1..][j], k) {
          var j :| 0 <= j < |lines[1..]| && Yields(entry, lines[1..][j], k);
          assert Yields(entry, lines[j + 1], k);
        }
        if exists j :: 0 <= j < |lines| && Yields(entry, lines[j], k) {
          var j :| 0 <= j < |lines| && Yields(entry, lines[j], k);
          if j > 0 { assert Yields(entry, lines[1..][j - 1], k); }
        }
      }
    }
  }

  lemma {:induction false} KeyedUntouched<V>(lines: seq<string>, acc: map<string, V>, entry: string -> Option<(string, V)>)
    ensures forall k :: k in acc && (forall j :: 0 <= j < |lines| ==> !Yields(entry, lines[j], k)) ==>
                          k in KeyedFrom(lines, acc, entry) && KeyedFrom(lines, acc, entry)[k] == acc[k]
    decreases |lines|
  {
    if lines != [] {
      var next := match entry(lines[0]) case None => acc case Some(kv) => acc[kv.0 := kv.1];
      assert KeyedFrom(lines, acc, entry) == KeyedFrom(lines[1..], next, entry);
      KeyedUntouched(lines[1..], next, entry);
      forall k | k in acc && (forall j :: 0 <= j < |lines| ==> !Yields(entry, lines[j], k))
        ensures k in KeyedFrom(lines, acc, entry) && KeyedFrom(lines, acc, entry)[k] == acc[k]
      {
        assert !Yields(entry, lines[0], k);
        assert k in next && next[k] == acc[k];
        forall j | 0 <= j < |lines[1..]| ensures !Yields(entry, lines[1..][j], k) {
          assert lines[1..][j] == lines[j + 1];
        }
      }
    }
  }

  lemma KeyedLast<V>(lines: seq<string>, acc: map<string, V>, entry: string -> Option<(string, V)>)
    ensures forall j :: 0 <= j < |lines| && entry(lines[j]).Some? &&
                        (forall l :: j < l < |lines| ==> !Yields(entry, lines[l], entry(lines[j]).value.0)) ==>
                          entry(lines[j]).value.0 in KeyedFrom(lines, acc, entry) &&
                          KeyedFrom(lines, acc, entry)[entry(lines[j]).value.0] == entry(lines[j]).value.1
  {
    forall j | 0 <= j < |lines| && entry(lines[j]).Some? &&
               (forall l :: j < l < |lines| ==> !Yields(entry, lines[l], entry(lines[j]).value.0))
      ensures entry(lines[j]).value.0 in KeyedFrom(lines, acc, entry)
      ensures KeyedFrom(lines, acc, entry)[entry(lines[j]).value.0] == entry(lines[j]).value.1
    {
      KeyedLastAt(lines, acc, entry, j);
    }
  }

  lemma {:induction false} KeyedLastAt<V>(lines: seq<string>, acc: map<string, V>, entry: string -> Option<(string, V)>,
                                          j: nat)
    requires j < |lines| && entry(lines[j]).Some?
    requires forall l :: j < l < |lines| ==> !Yields(entry, lines[l], entry(lines[j]).value.0)
    ensures entry(lines[j]).value.0 in KeyedFrom(lines, acc, entry)
    ensures KeyedFrom(lines, acc, entry)[entry(lines[j]).value.0] == entry(lines[j]).value.1
    decreases |lines|
  {
    var next := match entry(lines[0]) case None => acc case Some(kv) => acc[kv.0 := kv.1];
    assert KeyedFrom(lines, acc, entry) == KeyedFrom(lines[1..], next, entry);
    var kv := entry(lines[j]).value;
    if j == 0 {
      assert kv.0 in next && next[kv.0] == kv.1;
      forall l | 0 <= l < |lines[1..]| ensures !Yields(entry, lines[1..][l], kv.0) {
        assert lines[1..][l] == lines[l + 1];
      }
      KeyedUntouched(lines[1..], next, entry);
    } else {
      assert lines[1..][j - 1] == lines[j];
      forall l | j - 1 < l < |lines[1..]| ensures !Yields(entry, lines[1..][l], kv.0) {
        assert lines[1..][l] == lines[l + 1];
      }
      KeyedLastAt(lines[1..], next, entry, j - 1);
    }
  }

  /** A property of every starting value and of every value a line yields holds of every value
      in the result. */
  lemma {:induction false} KeyedPreserves<V>(lines: seq<string>, acc: map<string, V>, entry: string -> Option<(string, V)>,
                                             P: V -> bool)
    requires forall k :: k in acc ==> P(acc[k])
    requires forall j :: 0 <= j < |lines| && entry(lines[j]).Some? ==> P(entry(lines[j]).value.1)
    ensures forall k :: k in KeyedFrom(lines, acc, entry) ==> P(KeyedFrom(lines, acc, entry)[k])
    decreases |lines|
  {
    if lines != [] {
      var next := match entry(lines[0]) case None => acc case Some(kv) => acc[kv.0 := kv.1];
      forall j | 0 <= j < |lines[1..]| && entry(lines[1..][j]).Some? ensures P(entry(lines[1..][j]).value.1) {
        assert lines[1..][j] == lines[j + 1];
      }
      KeyedPreserves(lines[1..], next, entry, P);
    }
  }

  // ---------------------------------------------------------------------------
  // Fact tables: every line is tried against a list of regular-expression probes

  /** `match = re.search(...); if match: fact_table[key] = <group>`. */
  datatype Probe = Probe(key: string, extract: string -> Option<string>)

  /** The probes tried on one line, in order. */
  function ApplyProbes(line: string, probes: seq<Probe>, acc: map<string, string>): map<string, string>
    decreases |probes|
  {
    if probes == [] then acc
    else
      var p := probes[0];
      var next := match p.extract(line) case None => acc case Some(v) => acc[p.key := v];
      ApplyProbes(line, probes[1..], next)
  }

  /** The rest of the loop over the lines; an empty line makes the whole call return `{}`. */
  function FactsFrom(lines: seq<string>, acc: map<string, string>, probes: seq<Probe>): map<string, string>
    decreases |lines|
  {
    if lines == [] then acc
    else if |lines[0]| == 0 then map[]
    else FactsFrom(lines[1..], ApplyProbes(lines[0], probes, acc), probes)
  }

  /** The loop itself. */
  method FactTable(lines: seq<string>, init: map<string, string>, probes: seq<Probe>)
    returns (facts: map<string, string>)
    ensures facts == FactsFrom(lines, init, probes)
  {
    facts := init;
    for i := 0 to |lines|
      invariant FactsFrom(lines[i..], facts, probes) == FactsFrom(lines, init, probes)
    {
      assert lines[i..][1..] == lines[i + 1..];
      if |lines[i]| == 0 {
        return map[];
      }
      facts := ApplyProbes(lines[i], probes, facts);
    }
    assert lines[|lines|..] == [];
  }

  /** What `m` holds under `k`, if anything. */
  function KeyState(m: map<string, string>, k: string): Option<string> {
    if k in m then Some(m[k]) else None
  }

  function Or(a: Option<string>, b: Option<string>): Option<string> {
    if a.Some? then a else b
  }

  predicate DistinctKeys(probes: seq<Probe>) {
    forall p, q :: 0 <= p < q < |probes| ==> probes[p].key != probes[q].key
  }

  /** The value `f` extracts from the last line it matches, found from the end. */
  function LastMatch(lines: seq<string>, f: string -> Option<string>): Option<string>
    decreases |lines|
  {
    if lines == [] then None
    else Or(f(lines[|lines| - 1]), LastMatch(lines[..|lines| - 1], f))
  }

  lemma {:induction false} LastMatchFront(lines: seq<string>, f: string -> Option<string>)
    requires lines != []
    ensures LastMatch(lines, f) == Or(LastMatch(lines[1..], f), f(lines[0]))
    decreases |lines|
  {
    if |lines| > 1 {
      var init := lines[..|lines| - 1];
      LastMatchFront(init, f);
      assert init[1..] == lines[1..][..|lines[1..]| - 1];
      assert init[0] == lines[0];
    } else {
      assert lines[1..] == [];
      assert lines[..0] == [];
    }
  }

  /** On one line, a probe's key ends up with what the probe extracts, or keeps its value. */
  lemma {:induction false} ApplyProbesKey(line: string, probes: seq<Probe>, acc: map<string, string>, p: nat)
    requires p < |probes| && DistinctKeys(probes)
    ensures KeyState(ApplyProbes(line, probes, acc), probes[p].key) ==
            Or(probes[p].extract(line), KeyState(acc, probes[p].key))
    decreases |probes|
  {
    var q := probes[0];
    var next := match q.extract(line) case None => acc case Some(v) => acc[q.key := v];
    if p == 0 {
      ApplyProbesOther(line, probes[1..], next, q.key);
    } else {
      assert probes[1..][p - 1] == probes[p];
      ApplyProbesKey(line, probes[1..], next, p - 1);
    }
  }

  /** A key no probe sets is left alone. */
  lemma {:induction false} ApplyProbesOther(line: string, probes: seq<Probe>, acc: map<string, string>, k: string)
    requires forall p :: 0 <= p < |probes| ==> probes[p].key != k
    ensures KeyState(ApplyProbes(line, probes, acc), k) == KeyState(acc, k)
    decreases |probes|
  {
    if probes != [] {
      var q := probes[0];
      var next := match q.extract(line) case None => acc case Some(v) => acc[q.key := v];
      ApplyProbesOther(line, probes[1..], next, k);
    }
  }

  /** Over lines without an empty one, a probe's key holds what the probe extracts from the LAST
      line it matches, and keeps its starting value when no line matches. */
  lemma {:induction false} FactsLastMatch(lines: seq<string>, acc: map<string, string>, probes: seq<Probe>, p: nat)
    requires p < |probes| && DistinctKeys(probes)
    requires forall i :: 0 <= i < |lines| ==> |lines[i]| > 0
    ensures KeyState(FactsFrom(lines, acc, probes), probes[p].key) ==
            Or(LastMatch(lines, probes[p].extract), KeyState(acc, probes[p].key))
    decreases |lines|
  {
    if lines != [] {
      var next := ApplyProbes(lines[0], probes, acc);
      ApplyProbesKey(lines[0], probes, acc, p);
      FactsLastMatch(lines[1..], next, probes, p);
      LastMatchFront(lines, probes[p].extract);
    }
  }

  /** Over lines without an empty one, a key that no probe sets is left alone. */
  lemma {:induction false} FactsOtherKey(lines: seq<string>, acc: map<string, string>, probes: seq<Probe>, k: string)
    requires forall p :: 0 <= p < |probes| ==> probes[p].key != k
    requires forall i :: 0 <= i < |lines| ==> |lines[i]| > 0
    ensures KeyState(FactsFrom(lines, acc, probes), k) == KeyState(acc, k)
    decreases |lines|
  {
    if lines != [] {
      ApplyProbesOther(lines[0], probes, acc, k);
      FactsOtherKey(lines[1..], ApplyProbes(lines[0], probes, acc), probes, k);
    }
  }

  /** One empty line anywhere empties the whole table, facts found before it included. */
  lemma {:induction false} FactsBlankLine(lines: seq<string>, acc: map<string, string>, probes: seq<Probe>, i: nat)
    requires i < |lines| && |lines[i]| == 0
    ensures FactsFrom(lines, acc, probes) == map[]
    decreases i
  {
    if i > 0 && |lines[0]| > 0 {
      FactsBlankLine(lines[1..], ApplyProbes(lines[0], probes, acc), probes, i - 1);
    }
  }

  // ---------------------------------------------------------------------------
  // Whole tables of rendered rows

  lemma {:induction false} NonEmptyRowsAll(rows: seq<seq<string>>)
    requires forall i :: 0 <= i < |rows| ==> rows[i] != []
    ensures NonEmptyRows(rows) == rows
    decreases |rows|
  {
    if rows != [] {
      NonEmptyRowsAll(rows[1..]);
    }
  }

  /** Rows that the loop goes past all make entries: the result lists the entries of the
      non-empty rows, in order. */
  lemma ScanOfRows<T>(rows: seq<seq<string>>, row: seq<string> -> Result<T>, blank: BlankLine)
    requires TokenRows(rows)
    requires blank != SkipBlank ==> forall i :: 0 <= i < |rows| ==> rows[i] != []
    requires forall i :: 0 <= i < |rows| && rows[i] != [] ==> row(rows[i]).Ok?
    ensures var r := Scan(RowLines(rows), row, blank);
            r.Ok? && r.value.Rows? && |r.value.rows| == |NonEmptyRows(rows)| &&
            forall i :: 0 <= i < |NonEmptyRows(rows)| ==>
              row(NonEmptyRows(rows)[i]).Ok? && r.value.rows[i] == row(NonEmptyRows(rows)[i]).value
  {
    RowLinesFacts(rows);
    CollectedOfRows(rows, row);
    var lines := RowLines(rows);
    forall j | 0 <= j < |lines| ensures Accepted(lines[j], row, blank) {
      assert Accepted(lines[j], row, SkipBlank);
    }
    ScanAccepted(lines, [], row, blank);
    assert [] + Collected(lines, row) == Collected(lines, row);
  }

  /** A rendered table whose non-empty rows all make entries (and, unless empty lines are
      skipped, has no empty row) parses to the entries of its non-empty rows, in order. */
  lemma ScanOfRendered<T>(header: seq<string>, rows: seq<seq<string>>, row: seq<string> -> Result<T>, blank: BlankLine)
    requires forall i :: 0 <= i < |header| ==> '\n' !in header[i]
    requires TokenRows(rows)
    requires blank != SkipBlank ==> forall i :: 0 <= i < |rows| ==> rows[i] != []
    requires forall i :: 0 <= i < |rows| && rows[i] != [] ==> row(rows[i]).Ok?
    ensures var r := Scan(TableBody(SplitNewline(Rendered(header, rows)), |header|), row, blank);
            r.Ok? && r.value.Rows? && |r.value.rows| == |NonEmptyRows(rows)| &&
            forall i :: 0 <= i < |NonEmptyRows(rows)| ==>
              row(NonEmptyRows(rows)[i]).Ok? && r.value.rows[i] == row(NonEmptyRows(rows)[i]).value
  {
    BodyOfRendered(header, rows);
    ScanOfRows(rows, row, blank);
  }

  /** `Rendered(header, rows + [footer]).splitlines()[k:-1]` with `k` header lines: the rows,
      without the footer line. With `splitlines` there is no empty last piece for `-1` to
      drop, so the last line printed is the one dropped. */
  lemma BodyOfRenderedLines(header: seq<string>, rows: seq<seq<string>>, footer: seq<string>)
    requires forall i :: 0 <= i < |header| ==> '\n' !in header[i] && '\r' !in header[i]
    requires TokenRows(rows) && AllTokens(footer)
    ensures TableBody(SplitLines(Rendered(header, rows + [footer])), |header|) == RowLines(rows)
  {
    var all := rows + [footer];
    assert TokenRows(all) by {
      forall i | 0 <= i < |all| ensures AllTokens(all[i]) {
        if i < |rows| { assert all[i] == rows[i]; }
      }
    }
    RowLinesFacts(all);
    RowLinesFacts(rows);
    var lines := header + RowLines(all);
    forall k | 0 <= k < |lines| ensures '\n' !in lines[k] && '\r' !in lines[k] {
      if k >= |header| {
        var w := all[k - |header|];
        assert lines[k] == JoinSpace(w);
        JoinSpaceFacts(w);
      }
    }
    SplitLinesTerminated(lines);
    var body := TableBody(lines, |header|);
    assert |body| == |rows|;
    forall i | 0 <= i < |rows| ensures body[i] == RowLines(rows)[i] {
      assert body[i] == RowLines(all)[i] && all[i] == rows[i];
    }
  }
}
