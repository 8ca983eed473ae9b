/** The line-mode tally (LogFileProcessor.java): each line of a log is
    scanned afresh for IP addresses and for `username=` fields, and every
    match adds one to its key's count in one of two frequency maps. Reading
    the file becomes a sequence of lines; the address pattern is a searcher
    the caller supplies, and so is the username pattern, which must find
    exactly what UsernamePattern.FindsUsernames specifies (a searcher that
    UsernamePattern.Search is proved to be). */
module LogFile {
  import opened Matching
  import opened Frequency
  import opened IpPattern
  import UsernamePattern

  /** The addresses of one line: the whole text of each match of a matcher
      created for that line alone. */
  function LineIpAddresses(ipSearch: Searcher, line: string): (r: seq<string>)
    requires Sound(ipSearch)
    ensures |r| == |FindAll(ipSearch, line, 0)|
  {
    FindAllInBounds(ipSearch, line, 0);
    Texts(line, FindAll(ipSearch, line, 0))
  }

  /** The address occurrences of a whole log, line after line. */
  function IpAddresses(ipSearch: Searcher, lines: seq<string>): seq<string>
    requires Sound(ipSearch)
  {
    if lines == [] then []
    else IpAddresses(ipSearch, lines[..|lines| - 1]) + LineIpAddresses(ipSearch, lines[|lines| - 1])
  }

  /** The username occurrences of a whole log, line after line. */
  function Usernames(usernameSearch: Searcher, lines: seq<string>): seq<string>
    requires UsernamePattern.FindsUsernames(usernameSearch)
  {
    if lines == [] then []
    else Usernames(usernameSearch, lines[..|lines| - 1]) + UsernamePattern.LineUsernames(usernameSearch, lines[|lines| - 1])
  }

  /** The number of successful find() calls of the address matchers, over all lines. */
  function IpMatchCount(ipSearch: Searcher, lines: seq<string>): nat
    requires Sound(ipSearch)
  {
    if lines == [] then 0
    else IpMatchCount(ipSearch, lines[..|lines| - 1]) + |FindAll(ipSearch, lines[|lines| - 1], 0)|
  }

  /** The number of successful find() calls of the username matchers, over all lines. */
  function UsernameMatchCount(usernameSearch: Searcher, lines: seq<string>): nat
    requires UsernamePattern.FindsUsernames(usernameSearch)
  {
    UsernamePattern.FindsUsernamesIsSound(usernameSearch);
    if lines == [] then 0
    else UsernameMatchCount(usernameSearch, lines[..|lines| - 1]) + |FindAll(usernameSearch, lines[|lines| - 1], 0)|
  }

  /** One key folded in per username match. */
  lemma {:induction false} UsernameCount(usernameSearch: Searcher, lines: seq<string>)
    requires UsernamePattern.FindsUsernames(usernameSearch)
    ensures |Usernames(usernameSearch, lines)| == UsernameMatchCount(usernameSearch, lines)
    decreases |lines|
  {
    if lines != [] {
      UsernameCount(usernameSearch, lines[..|lines| - 1]);
    }
  }

  /** One key folded in per address match. */
  lemma {:induction false} IpAddressCount(ipSearch: Searcher, lines: seq<string>)
    requires Sound(ipSearch)
    ensures |IpAddresses(ipSearch, lines)| == IpMatchCount(ipSearch, lines)
    decreases |lines|
  {
    if lines != [] {
      IpAddressCount(ipSearch, lines[..|lines| - 1]);
    }
  }

  /** Lines are scanned independently: the addresses of a log are those of
      its first part followed by those of the rest. */
  lemma {:induction false} IpLinesIndependent(ipSearch: Searcher, a: seq<string>, b: seq<string>)
    requires Sound(ipSearch)
    ensures IpAddresses(ipSearch, a + b) == IpAddresses(ipSearch, a) + IpAddresses(ipSearch, b)
    decreases |b|
  {
    if b == [] {
      assert a + b == a;
    } else {
      var b' := b[..|b| - 1];
      var last := b[|b| - 1];
      assert (a + b)[..|a + b| - 1] == a + b';
      assert (a + b)[|a + b| - 1] == last;
      calc {
        IpAddresses(ipSearch, a + b);
        IpAddresses(ipSearch, a + b') + LineIpAddresses(ipSearch, last);
        { IpLinesIndependent(ipSearch, a, b'); }
        IpAddresses(ipSearch, a) + IpAddresses(ipSearch, b') + LineIpAddresses(ipSearch, last);
        IpAddresses(ipSearch, a) + IpAddresses(ipSearch, b);
      }
    }
  }

  /** The same for usernames. */
  lemma {:induction false} UsernameLinesIndependent(usernameSearch: Searcher, a: seq<string>, b: seq<string>)
    requires UsernamePattern.FindsUsernames(usernameSearch)
    ensures Usernames(usernameSearch, a + b) == Usernames(usernameSearch, a) + Usernames(usernameSearch, b)
    decreases |b|
  {
    if b == [] {
      assert a + b == a;
    } else {
      var b' := b[..|b| - 1];
      var last := b[|b| - 1];
      assert (a + b)[..|a + b| - 1] == a + b';
      assert (a + b)[|a + b| - 1] == last;
      calc {
        Usernames(usernameSearch, a + b);
        Usernames(usernameSearch, a + b') + UsernamePattern.LineUsernames(usernameSearch, last);
        { UsernameLinesIndependent(usernameSearch, a, b'); }
        Usernames(usernameSearch, a) + Usernames(usernameSearch, b') + UsernamePattern.LineUsernames(usernameSearch, last);
        Usernames(usernameSearch, a) + Usernames(usernameSearch, b);
      }
    }
  }

  /** No match spans two lines: every address is a part of one single line. */
  lemma {:induction false} IpAddressesWithinLines(ipSearch: Searcher, lines: seq<string>)
    requires Sound(ipSearch)
    ensures forall k :: k in IpAddresses(ipSearch, lines) ==>
              exists l :: 0 <= l < |lines| && IsFactor(k, lines[l])
    decreases |lines|
  {
    if lines != [] {
      var init := lines[..|lines| - 1];
      var last := lines[|lines| - 1];
      IpAddressesWithinLines(ipSearch, init);
      TextsAreFactors(ipSearch, last);
      forall k | k in IpAddresses(ipSearch, lines)
        ensures exists l :: 0 <= l < |lines| && IsFactor(k, lines[l])
      {
        if k in IpAddresses(ipSearch, init) {
          var l :| 0 <= l < |init| && IsFactor(k, init[l]);
          assert lines[l] == init[l];
        } else {
          assert IsFactor(k, lines[|lines| - 1]);
        }
      }
    }
  }

  /** With an address searcher as assumed, every address counted has the
      shape of four dot-separated groups of one to three digits. */
  lemma {:induction false} IpAddressesAreDottedQuads(ipSearch: Searcher, lines: seq<string>)
    requires IpSound(ipSearch)
    ensures forall k :: k in IpAddresses(ipSearch, lines) ==> IsDottedQuad(k)
    decreases |lines|
  {
    if lines != [] {
      IpAddressesAreDottedQuads(ipSearch, lines[..|lines| - 1]);
      FindAllDottedQuads(ipSearch, lines[|lines| - 1], 0);
    }
  }

  /** Every username counted is the whole non-empty run of word characters
      after a `username=` of one single line, the prefix itself excluded. */
  lemma {:induction false} UsernamesWithinLines(usernameSearch: Searcher, lines: seq<string>)
    requires UsernamePattern.FindsUsernames(usernameSearch)
    ensures forall k :: k in Usernames(usernameSearch, lines) ==>
              exists l :: 0 <= l < |lines| && UsernamePattern.IsUsernameIn(k, lines[l])
    decreases |lines|
  {
    if lines != [] {
      var init := lines[..|lines| - 1];
      UsernamesWithinLines(usernameSearch, init);
      UsernamePattern.LineUsernamesShape(usernameSearch, lines[|lines| - 1]);
      forall k | k in Usernames(usernameSearch, lines)
        ensures exists l :: 0 <= l < |lines| && UsernamePattern.IsUsernameIn(k, lines[l])
      {
        if k in Usernames(usernameSearch, init) {
          var l :| 0 <= l < |init| && UsernamePattern.IsUsernameIn(k, init[l]);
          assert lines[l] == init[l];
        } else {
          assert UsernamePattern.IsUsernameIn(k, lines[|lines| - 1]);
        }
      }
    }
  }

  /** Proof step for the line loop of ProcessLogFile: stated as a lemma so
      that the loop body sees this one instance of associativity and no
      other sequence reasoning. */
  lemma AppendAssoc(a: seq<string>, b: seq<string>, c: seq<string>)
    ensures (a + b) + c == a + (b + c)
  {
  }

  /** One more line: its occurrences follow those of the lines before it. */
  lemma LinesSnoc(ipSearch: Searcher, usernameSearch: Searcher, lines: seq<string>, i: nat)
    requires Sound(ipSearch) && UsernamePattern.FindsUsernames(usernameSearch)
    requires i < |lines|
    ensures IpAddresses(ipSearch, lines[..i + 1])
            == IpAddresses(ipSearch, lines[..i]) + LineIpAddresses(ipSearch, lines[i])
    ensures Usernames(usernameSearch, lines[..i + 1])
            == Usernames(usernameSearch, lines[..i]) + UsernamePattern.LineUsernames(usernameSearch, lines[i])
  {
    assert lines[..i + 1][..i] == lines[..i];
  }

  class LogFileProcessor {
    var ipAddressMap: Counts
    var usernameMap: Counts
    /** Every address and every username folded in so far, in order. */
    ghost var ipAddressesSeen: seq<string>
    ghost var usernamesSeen: seq<string>

    /** Each map is the tally of the occurrences folded into it. */
    ghost predicate Valid()
      reads this
    {
      ipAddressMap == Tally(map[], ipAddressesSeen) &&
      usernameMap == Tally(map[], usernamesSeen)
    }

    constructor ()
      ensures Valid()
      ensures ipAddressMap == map[] && usernameMap == map[]
      ensures ipAddressesSeen == [] && usernamesSeen == []
    {
      ipAddressMap := map[];
      usernameMap := map[];
      ipAddressesSeen := [];
      usernamesSeen := [];
    }

    /** Scans every line and returns the number of lines parsed. The maps
        are never cleared, so a second call adds onto the counts of the
        first. */
    method ProcessLogFile(lines: seq<string>, ipSearch: Searcher, usernameSearch: Searcher)
      returns (linesParsed: nat)
      requires Valid() && Sound(ipSearch) && UsernamePattern.FindsUsernames(usernameSearch)
      modifies this
      ensures Valid()
      ensures linesParsed == |lines|
      ensures ipAddressesSeen == old(ipAddressesSeen) + IpAddresses(ipSearch, lines)
      ensures usernamesSeen == old(usernamesSeen) + Usernames(usernameSearch, lines)
      ensures ipAddressMap == Tally(old(ipAddressMap), IpAddresses(ipSearch, lines))
      ensures usernameMap == Tally(old(usernameMap), Usernames(usernameSearch, lines))
      ensures Total(ipAddressMap) == old(Total(ipAddressMap)) + IpMatchCount(ipSearch, lines)
      ensures Total(usernameMap) == old(Total(usernameMap)) + UsernameMatchCount(usernameSearch, lines)
    {
      linesParsed := 0;
      var i := 0;
      while i < |lines|
        invariant 0 <= i <= |lines|
        invariant linesParsed == i
        invariant Valid()
        invariant ipAddressesSeen == old(ipAddressesSeen) + IpAddresses(ipSearch, lines[..i])
        invariant usernamesSeen == old(usernamesSeen) + Usernames(usernameSearch, lines[..i])
      {
        linesParsed := linesParsed + 1;
        ProcessLine(lines[i], ipSearch, usernameSearch);
        LinesSnoc(ipSearch, usernameSearch, lines, i);
        AppendAssoc(old(ipAddressesSeen), IpAddresses(ipSearch, lines[..i]), LineIpAddresses(ipSearch, lines[i]));
        AppendAssoc(old(usernamesSeen), Usernames(usernameSearch, lines[..i]),
                    UsernamePattern.LineUsernames(usernameSearch, lines[i]));
        i := i + 1;
      }
      assert lines[..i] == lines;
      TallyExtend(old(ipAddressesSeen), IpAddresses(ipSearch, lines));
      TallyExtend(old(usernamesSeen), Usernames(usernameSearch, lines));
      IpAddressCount(ipSearch, lines);
      UsernameCount(usernameSearch, lines);
    }

    /** The body of the line loop: both matchers run over the line, and
        what they found is folded into the maps. */
    method ProcessLine(line: string, ipSearch: Searcher, usernameSearch: Searcher)
      requires Valid() && Sound(ipSearch) && UsernamePattern.FindsUsernames(usernameSearch)
      modifies this
      ensures Valid()
      ensures ipAddressesSeen == old(ipAddressesSeen) + LineIpAddresses(ipSearch, line)
      ensures usernamesSeen == old(usernamesSeen) + UsernamePattern.LineUsernames(usernameSearch, line)
    {
      ScanIpAddresses(line, ipSearch);
      ScanUsernames(line, usernameSearch);
      TallyAppend(map[], ipAddressesSeen, LineIpAddresses(ipSearch, line));
      TallyAppend(map[], usernamesSeen, UsernamePattern.LineUsernames(usernameSearch, line));
      ipAddressesSeen := ipAddressesSeen + LineIpAddresses(ipSearch, line);
      usernamesSeen := usernamesSeen + UsernamePattern.LineUsernames(usernameSearch, line);
    }

    /** The inner loop `while (ipMatcher.find())` over one line: each match
        adds one to the count of its whole text. */
    method ScanIpAddresses(line: string, ipSearch: Searcher)
      requires Sound(ipSearch)
      modifies this
      ensures ipAddressMap == Tally(old(ipAddressMap), LineIpAddresses(ipSearch, line))
      ensures usernameMap == old(usernameMap)
      ensures ipAddressesSeen == old(ipAddressesSeen) && usernamesSeen == old(usernamesSeen)
    {
      var pos: nat := 0;
      ghost var found: seq<Span> := [];
      var m := Find(ipSearch, line, pos);
      while m.Some?
        invariant pos <= |line| + 1
        invariant m == Find(ipSearch, line, pos)
        invariant found + FindAll(ipSearch, line, pos) == FindAll(ipSearch, line, 0)
        invariant InBounds(line, found)
        invariant ipAddressMap == Tally(old(ipAddressMap), Texts(line, found))
        invariant usernameMap == old(usernameMap)
        invariant ipAddressesSeen == old(ipAddressesSeen) && usernamesSeen == old(usernamesSeen)
        decreases |line| + 1 - pos
      {
        var span := m.value;
        FindAllStep(ipSearch, line, pos, found);
        var ipAddress := line[span.start..span.end];
        TextsSnoc(line, found, span);
        TallyOne(old(ipAddressMap), Texts(line, found), ipAddress);
        ipAddressMap := Increment(ipAddressMap, ipAddress);
        found := found + [span];
        pos := NextSearch(span);
        m := Find(ipSearch, line, pos);
      }
      FindAllStep(ipSearch, line, pos, found);
    }

    /** The inner loop `while (usernameMatcher.find())` over one line: each
        match adds one to the count of its group 1. */
    method ScanUsernames(line: string, usernameSearch: Searcher)
      requires UsernamePattern.FindsUsernames(usernameSearch)
      modifies this
      ensures usernameMap == Tally(old(usernameMap), UsernamePattern.LineUsernames(usernameSearch, line))
      ensures ipAddressMap == old(ipAddressMap)
      ensures ipAddressesSeen == old(ipAddressesSeen) && usernamesSeen == old(usernamesSeen)
    {
      UsernamePattern.FindsUsernamesIsSound(usernameSearch);
      var pos: nat := 0;
      ghost var found: seq<Span> := [];
      var m := Find(usernameSearch, line, pos);
      while m.Some?
        invariant pos <= |line| + 1
        invariant m == Find(usernameSearch, line, pos)
        invariant found + FindAll(usernameSearch, line, pos) == FindAll(usernameSearch, line, 0)
        invariant forall j :: 0 <= j < |found| ==> UsernamePattern.HasGroup(line, found[j])
        invariant usernameMap == Tally(old(usernameMap), UsernamePattern.GroupsOf(line, found))
        invariant ipAddressMap == old(ipAddressMap)
        invariant ipAddressesSeen == old(ipAddressesSeen) && usernamesSeen == old(usernamesSeen)
        decreases |line| + 1 - pos
      {
        var span := m.value;
        FindAllStep(usernameSearch, line, pos, found);
        var username := UsernamePattern.Group(line, span);
        UsernamePattern.GroupsSnoc(line, found, span);
        TallyOne(old(usernameMap), UsernamePattern.GroupsOf(line, found), username);
        usernameMap := Increment(usernameMap, username);
        found := found + [span];
        pos := NextSearch(span);
        m := Find(usernameSearch, line, pos);
      }
      FindAllStep(usernameSearch, line, pos, found);
    }

    /** getIpMapSize: the number of distinct addresses, at most the number
        of address matches folded in. */
    function GetIpMapSize(): (n: nat)
      reads this
      requires Valid()
      ensures n == |Distinct(ipAddressesSeen)| <= |ipAddressesSeen|
    {
      TallySize(ipAddressesSeen);
      |ipAddressMap|
    }

    /** getUsernameMapSize: the number of distinct usernames, at most the
        number of username matches folded in. */
    function GetUsernameMapSize(): (n: nat)
      reads this
      requires Valid()
      ensures n == |Distinct(usernamesSeen)| <= |usernamesSeen|
    {
      TallySize(usernamesSeen);
      |usernameMap|
    }
  }

  /** What a valid processor's maps hold: every count is at least one, a key
      is present exactly when it was seen, its count is its number of
      occurrences, and the counts sum to the number of occurrences. */
  lemma ProcessorCounts(p: LogFileProcessor)
    requires p.Valid()
    ensures AllPositive(p.ipAddressMap) && AllPositive(p.usernameMap)
    ensures p.ipAddressMap.Keys == Distinct(p.ipAddressesSeen)
    ensures p.usernameMap.Keys == Distinct(p.usernamesSeen)
    ensures forall k :: Get(p.ipAddressMap, k) == multiset(p.ipAddressesSeen)[k]
    ensures forall k :: Get(p.usernameMap, k) == multiset(p.usernamesSeen)[k]
    ensures Total(p.ipAddressMap) == |p.ipAddressesSeen|
    ensures Total(p.usernameMap) == |p.usernamesSeen|
  {
    TallyPositive(map[], p.ipAddressesSeen);
    TallyPositive(map[], p.usernamesSeen);
    TallyCounts(map[], p.ipAddressesSeen);
    TallyCounts(map[], p.usernamesSeen);
    TallyTotal(map[], p.ipAddressesSeen);
    TallyTotal(map[], p.usernamesSeen);
  }
}
