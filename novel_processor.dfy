/** The bulk-mode tally (NovelProcessor.java): the whole novel is joined into
    one text, every pattern line is counted over that text with a fresh
    matcher, the counts are stored with an overwriting `put`, and one record
    `pattern|count` per entry goes to a file named after the novel. The
    files become sequences of lines, Pattern.compile becomes an engine that
    gives each pattern text a searcher, and the written file becomes a
    sequence of records. */
module Novel {
  import opened Matching
  import opened Frequency

  // ---------------------------------------------------------------------
  // The novel text
  // ---------------------------------------------------------------------

  /** The novel text: every line followed by a newline, in file order. */
  function JoinLines(lines: seq<string>): string
  {
    if lines == [] then ""
    else JoinLines(lines[..|lines| - 1]) + lines[|lines| - 1] + "\n"
  }

  /** The sum of the lengths of the lines. */
  function TotalLength(lines: seq<string>): nat
  {
    if lines == [] then 0
    else TotalLength(lines[..|lines| - 1]) + |lines[|lines| - 1]|
  }

  /** The StringBuilder loop: `append(line).append("\n")` for every line. */
  method ReadNovel(lines: seq<string>) returns (novelText: string)
    ensures novelText == JoinLines(lines)
  {
    novelText := "";
    var i := 0;
    while i < |lines|
      invariant 0 <= i <= |lines|
      invariant novelText == JoinLines(lines[..i])
    {
      assert lines[..i + 1][..i] == lines[..i];
      novelText := novelText + lines[i] + "\n";
      i := i + 1;
    }
    assert lines[..i] == lines;
  }

  /** The text is as long as all lines together plus one newline per line;
      an empty file gives the empty text. */
  lemma {:induction false} JoinLinesLength(lines: seq<string>)
    ensures |JoinLines(lines)| == TotalLength(lines) + |lines|
    ensures lines == [] <==> JoinLines(lines) == ""
    decreases |lines|
  {
    if lines != [] {
      JoinLinesLength(lines[..|lines| - 1]);
    }
  }

  /** The index of the first newline of `s`, or |s| when there is none. */
  function LineEnd(s: string): (r: nat)
    ensures r <= |s|
    ensures forall j :: 0 <= j < r ==> s[j] != '\n'
    ensures r < |s| ==> s[r] == '\n'
  {
    if s == [] || s[0] == '\n' then 0
    else
      var r := 1 + LineEnd(s[1..]);
      assert forall j :: 1 <= j < r ==> s[j] == s[1..][j - 1];
      r
  }

  /** BufferedReader.readLine over a text: the pieces between newlines,
      with a last piece for text after the final newline. */
  function SplitLines(s: string): seq<string>
    decreases |s|
  {
    if s == [] then []
    else
      var k := LineEnd(s);
      if k == |s| then [s] else [s[..k]] + SplitLines(s[k + 1..])
  }

  predicate NoNewline(line: string) {
    forall j :: 0 <= j < |line| ==> line[j] != '\n'
  }

  /** Lines as readLine returns them contain no newline, and reading the
      joined text again gives back exactly the lines: joining loses nothing. */
  lemma {:induction false} SplitJoin(lines: seq<string>)
    requires forall i :: 0 <= i < |lines| ==> NoNewline(lines[i])
    ensures SplitLines(JoinLines(lines)) == lines
    decreases |lines|
  {
    if lines != [] {
      var rest := lines[1..];
      SplitJoin(rest);
      JoinFront(lines);
      var s := JoinLines(lines);
      assert s == lines[0] + "\n" + JoinLines(rest);
      LineEndOf(lines[0], JoinLines(rest));
      assert s[..|lines[0]|] == lines[0];
      assert s[|lines[0]| + 1..] == JoinLines(rest);
      assert lines == [lines[0]] + rest;
    }
  }

  /** The joined text seen from its first line. */
  lemma {:induction false} JoinFront(lines: seq<string>)
    requires lines != []
    ensures JoinLines(lines) == lines[0] + "\n" + JoinLines(lines[1..])
    decreases |lines|
  {
    if |lines| > 1 {
      var init := lines[..|lines| - 1];
      JoinFront(init);
      assert init[1..] == lines[1..][..|lines| - 2];
      assert init[0] == lines[0];
    } else {
      assert lines[1..] == [];
    }
  }

  lemma {:induction false} LineEndOf(line: string, rest: string)
    requires NoNewline(line)
    ensures LineEnd(line + "\n" + rest) == |line|
    decreases |line|
  {
    if line != [] {
      assert (line + "\n" + rest)[1..] == line[1..] + "\n" + rest;
      LineEndOf(line[1..], rest);
    }
  }

  // ---------------------------------------------------------------------
  // Counting one pattern
  // ---------------------------------------------------------------------

  /** Pattern.compile: the searcher of a pattern text. */
  type Engine = string -> Searcher

  /** Every compiled pattern meets the assumption made of searchers. */
  ghost predicate SoundEngine(compile: Engine) {
    forall pattern: string {:trigger compile(pattern)} :: Sound(compile(pattern))
  }

  /** The number of occurrences of `pattern` in `text`: the number of
      successful find() calls of a fresh matcher. */
  function Occurrences(compile: Engine, text: string, pattern: string): nat
    requires SoundEngine(compile)
  {
    |FindAll(compile(pattern), text, 0)|
  }

  /** countPatternOccurrences: `while (m.find()) count++`. The count is the
      number of matches, and there are at most as many as search positions. */
  method CountPatternOccurrences(text: string, pattern: string, compile: Engine) returns (count: nat)
    requires SoundEngine(compile)
    ensures count == Occurrences(compile, text, pattern)
    ensures count <= |text| + 1
  {
    var p := compile(pattern);
    var from: nat := 0;
    count := 0;
    var m := Find(p, text, from);
    while m.Some?
      invariant from <= |text| + 1
      invariant m == Find(p, text, from)
      invariant count + |FindAll(p, text, from)| == |FindAll(p, text, 0)|
      decreases |text| + 1 - from
    {
      assert FindAll(p, text, from) == [m.value] + FindAll(p, text, NextSearch(m.value));
      count := count + 1;
      from := NextSearch(m.value);
      m := Find(p, text, from);
    }
    MatchCountBound(p, text);
  }

  // ---------------------------------------------------------------------
  // The pattern map
  // ---------------------------------------------------------------------

  /** The map after `patternCounts.put(pattern, count)` for every pattern
      line in order, a later line overwriting an earlier equal one. */
  function CountsFor(compile: Engine, text: string, patterns: seq<string>): Counts
    requires SoundEngine(compile)
  {
    if patterns == [] then map[]
    else
      var last := patterns[|patterns| - 1];
      CountsFor(compile, text, patterns[..|patterns| - 1])[last := Occurrences(compile, text, last)]
  }

  /** The loop over the pattern lines. */
  method CountPatterns(text: string, patterns: seq<string>, compile: Engine) returns (patternCounts: Counts)
    requires SoundEngine(compile)
    ensures patternCounts == CountsFor(compile, text, patterns)
    ensures patternCounts.Keys == Distinct(patterns)
    ensures forall p :: p in patternCounts ==> patternCounts[p] == Occurrences(compile, text, p)
    ensures |patternCounts| <= |patterns|
  {
    patternCounts := map[];
    var i := 0;
    while i < |patterns|
      invariant 0 <= i <= |patterns|
      invariant patternCounts == CountsFor(compile, text, patterns[..i])
    {
      var count := CountPatternOccurrences(text, patterns[i], compile);
      assert patterns[..i + 1][..i] == patterns[..i];
      patternCounts := patternCounts[patterns[i] := count];
      i := i + 1;
    }
    assert patterns[..i] == patterns;
    CountsForEntries(compile, text, patterns);
    CountsForSize(compile, text, patterns);
  }

  /** Every pattern line has an entry, keyed by its own text, holding its
      count over the whole text; no other key is present. */
  lemma {:induction false} CountsForEntries(compile: Engine, text: string, patterns: seq<string>)
    requires SoundEngine(compile)
    ensures CountsFor(compile, text, patterns).Keys == Distinct(patterns)
    ensures forall p :: p in CountsFor(compile, text, patterns) ==>
              CountsFor(compile, text, patterns)[p] == Occurrences(compile, text, p)
    decreases |patterns|
  {
    if patterns != [] {
      var init := patterns[..|patterns| - 1];
      CountsForEntries(compile, text, init);
      assert patterns == init + [patterns[|patterns| - 1]];
      assert Distinct(patterns) == Distinct(init) + {patterns[|patterns| - 1]};
    }
  }

  /** One entry per distinct pattern line, so at most one per line. */
  lemma CountsForSize(compile: Engine, text: string, patterns: seq<string>)
    requires SoundEngine(compile)
    ensures |CountsFor(compile, text, patterns)| == |Distinct(patterns)| <= |patterns|
  {
    CountsForEntries(compile, text, patterns);
    assert CountsFor(compile, text, patterns).Keys == Distinct(patterns);
    DistinctBound(patterns);
  }

  /** Last write wins, and since a pattern's count depends on nothing but
      the pattern and the text, repeating a line changes nothing. */
  lemma RepeatedPattern(compile: Engine, text: string, patterns: seq<string>, p: string)
    requires SoundEngine(compile)
    requires p in patterns
    ensures CountsFor(compile, text, patterns + [p]) == CountsFor(compile, text, patterns)
  {
    assert (patterns + [p])[..|patterns|] == patterns;
    CountsForEntries(compile, text, patterns);
  }

  /** Each pattern is counted independently of the others: the map depends
      only on which pattern lines occur, not on their order or repetition. */
  lemma CountsForOrderIrrelevant(compile: Engine, text: string, a: seq<string>, b: seq<string>)
    requires SoundEngine(compile)
    requires Distinct(a) == Distinct(b)
    ensures CountsFor(compile, text, a) == CountsFor(compile, text, b)
  {
    CountsForEntries(compile, text, a);
    CountsForEntries(compile, text, b);
  }

  // ---------------------------------------------------------------------
  // The output file name
  // ---------------------------------------------------------------------

  /** String.lastIndexOf(c): the last index holding `c`, or -1. */
  function LastIndexOf(s: string, c: char): (r: int)
    ensures -1 <= r < |s|
    ensures r >= 0 ==> s[r] == c
    ensures forall j :: r < j < |s| ==> s[j] != c
  {
    if s == [] then -1
    else if s[|s| - 1] == c then |s| - 1
    else LastIndexOf(s[..|s| - 1], c)
  }

  /** The index holding `c` with no `c` after it is the last index of `c`. */
  lemma LastIndexOfIs(s: string, c: char, k: nat)
    requires k < |s| && s[k] == c
    requires forall j :: k < j < |s| ==> s[j] != c
    ensures LastIndexOf(s, c) == k
  {
  }

  /** `novelFileName.substring(0, lastIndexOf('.')) + "_wc.txt"`; with no
      '.' in the path, substring(0, -1) throws and nothing is written. */
  function OutputFileName(path: string): Option<string>
  {
    var i := LastIndexOf(path, '.');
    if i < 0 then None else Some(path[..i] + "_wc.txt")
  }

  /** The name drops everything from the last '.' of the whole path on,
      wherever it stands, and is None exactly when the path has no '.'. */
  lemma OutputFileNameOf(base: string, rest: string)
    requires forall j :: 0 <= j < |rest| ==> rest[j] != '.'
    ensures OutputFileName(base + "." + rest) == Some(base + "_wc.txt")
  {
    var path := base + "." + rest;
    var i := LastIndexOf(path, '.');
    assert path[|base|] == '.';
    assert forall j :: |base| < j < |path| ==> path[j] == rest[j - |base| - 1];
    LastIndexOfIs(path, '.', |base|);
    assert path[..i] == base;
  }

  lemma OutputFileNameNone(path: string)
    ensures OutputFileName(path).None? <==> forall j :: 0 <= j < |path| ==> path[j] != '.'
  {
  }

  // ---------------------------------------------------------------------
  // Output records
  // ---------------------------------------------------------------------

  function DigitChar(d: nat): (c: char)
    requires d < 10
  {
    "0123456789"[d]
  }

  /** Integer.toString of a non-negative count: its decimal digits, with
      no leading zero unless the count is zero. */
  function NatToString(n: nat): (r: string)
    ensures 1 <= |r|
    ensures r[0] == '0' ==> n == 0
  {
    if n < 10 then [DigitChar(n)] else NatToString(n / 10) + [DigitChar(n % 10)]
  }

  function DigitValue(c: char): nat
    requires '0' <= c <= '9'
  {
    c as int - '0' as int
  }

  /** The value of a decimal numeral; None when it is empty or holds
      something other than digits. */
  function ParseNat(s: string): Option<nat>
  {
    if s == [] then None
    else
      var c := s[|s| - 1];
      if !('0' <= c <= '9') then None
      else if |s| == 1 then Some(DigitValue(c))
      else
        match ParseNat(s[..|s| - 1])
        case None => None
        case Some(v) => Some(v * 10 + DigitValue(c))
  }

  /** Decimal printing loses nothing. */
  lemma {:induction false} ParseNatToString(n: nat)
    ensures ParseNat(NatToString(n)) == Some(n)
    ensures forall j :: 0 <= j < |NatToString(n)| ==> '0' <= NatToString(n)[j] <= '9'
    decreases n
  {
    if n >= 10 {
      ParseNatToString(n / 10);
      var s := NatToString(n);
      assert s[..|s| - 1] == NatToString(n / 10);
    }
  }

  /** One line of the output file: `pattern + "|" + count + "\n"`. */
  function FormatRecord(pattern: string, count: nat): string
  {
    pattern + "|" + NatToString(count) + "\n"
  }

  /** Reading a record back: the count is after the last '|', so a pattern
      that itself contains '|' is still recovered. */
  function ParseRecord(r: string): Option<(string, nat)>
  {
    if r == [] || r[|r| - 1] != '\n' then None
    else
      var body := r[..|r| - 1];
      var i := LastIndexOf(body, '|');
      if i < 0 then None
      else
        match ParseNat(body[i + 1..])
        case None => None
        case Some(c) => Some((body[..i], c))
  }

  /** Every record reads back as its pattern and its count. */
  lemma FormatParse(pattern: string, count: nat)
    ensures ParseRecord(FormatRecord(pattern, count)) == Some((pattern, count))
  {
    var digits := NatToString(count);
    ParseNatToString(count);
    var r := FormatRecord(pattern, count);
    var body := pattern + "|" + digits;
    assert r[..|r| - 1] == body;
    assert forall j :: |pattern| < j < |body| ==> body[j] == digits[j - |pattern| - 1];
    LastIndexOfIs(body, '|', |pattern|);
    assert body[|pattern| + 1..] == digits;
    assert body[..|pattern|] == pattern;
  }

  /** Two records are equal only for the same pattern and count. */
  lemma FormatRecordInjective(p1: string, c1: nat, p2: string, c2: nat)
    requires FormatRecord(p1, c1) == FormatRecord(p2, c2)
    ensures p1 == p2 && c1 == c2
  {
    FormatParse(p1, c1);
    FormatParse(p2, c2);
  }

  /** The write loop over `patternCounts.keySet()`, in the map's own order,
      which HashMap does not specify: `order` is the order that was taken.
      Every key is written exactly once and nothing else is written. */
  method WriteRecords(patternCounts: Counts) returns (records: seq<string>, ghost order: seq<string>)
    ensures |records| == |order| == |patternCounts|
    ensures forall i :: 0 <= i < |order| ==>
              order[i] in patternCounts && records[i] == FormatRecord(order[i], patternCounts[order[i]])
    ensures forall i, j :: 0 <= i < j < |order| ==> order[i] != order[j]
    ensures forall p :: p in patternCounts ==> p in order
  {
    records, order := [], [];
    var keys := patternCounts.Keys;
    while keys != {}
      invariant keys <= patternCounts.Keys
      invariant |records| == |order|
      invariant forall i :: 0 <= i < |order| ==>
                  order[i] in patternCounts && order[i] !in keys &&
                  records[i] == FormatRecord(order[i], patternCounts[order[i]])
      invariant forall i, j :: 0 <= i < j < |order| ==> order[i] != order[j]
      invariant forall p :: p in patternCounts ==> p in keys || p in order
      decreases |keys|
    {
      var p :| p in keys;
      records, order := records + [FormatRecord(p, patternCounts[p])], order + [p];
      keys := keys - {p};
    }
    DistinctKeys(order, patternCounts);
  }

  /** A duplicate-free sequence of all the keys of a map is as long as the map. */
  lemma {:induction false} DistinctKeys(order: seq<string>, m: Counts)
    requires forall i, j :: 0 <= i < j < |order| ==> order[i] != order[j]
    requires forall i :: 0 <= i < |order| ==> order[i] in m
    requires forall p :: p in m ==> p in order
    ensures |order| == |m|
    decreases |order|
  {
    if order == [] {
      assert m.Keys == {};
    } else {
      var last := order[|order| - 1];
      var init := order[..|order| - 1];
      assert forall p :: p in m - {last} ==> p in init by {
        forall p | p in m - {last} ensures p in init {
          var i :| 0 <= i < |order| && order[i] == p;
          assert i != |order| - 1;
          assert init[i] == p;
        }
      }
      DistinctKeys(init, m - {last});
      assert (m - {last}).Keys == m.Keys - {last};
    }
  }

  // ---------------------------------------------------------------------
  // The whole program
  // ---------------------------------------------------------------------

  /** The body of `main` after the two paths are read: count every pattern
      over the joined novel, derive the output name, write the records.
      None when the name cannot be derived (the program stops with an
      exception before writing). */
  method ProcessNovel(novelPath: string, novelLines: seq<string>, patternLines: seq<string>, compile: Engine)
    returns (output: Option<(string, seq<string>)>)
    requires SoundEngine(compile)
    ensures output.None? <==> OutputFileName(novelPath).None?
    ensures output.Some? ==> output.value.0 == OutputFileName(novelPath).value
    ensures output.Some? ==>
              var counts := CountsFor(compile, JoinLines(novelLines), patternLines);
              |output.value.1| == |counts| &&
              forall p :: p in counts ==> FormatRecord(p, counts[p]) in output.value.1
  {
    var novelText := ReadNovel(novelLines);
    var patternCounts := CountPatterns(novelText, patternLines, compile);
    var outputFileName := OutputFileName(novelPath);
    if outputFileName.None? {
      return None;
    }
    var records, order := WriteRecords(patternCounts);
    forall p | p in patternCounts ensures FormatRecord(p, patternCounts[p]) in records {
      var i :| 0 <= i < |order| && order[i] == p;
      assert records[i] == FormatRecord(p, patternCounts[p]);
    }
    output := Some((outputFileName.value, records));
  }
}
