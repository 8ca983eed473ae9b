/** The regular expression `username=(\w+)` of the log tally: the literal
    `username=` followed by a run of word characters, which the greedy `\w+`
    takes in full. With java.util.regex's default flags `\w` is the ASCII
    class [a-zA-Z_0-9]. The find semantics of the pattern is specified by
    FindsUsernames; Search is a concrete searcher proved to meet it, and the
    only one. */
module UsernamePattern {
  import opened Matching

  const Prefix: string := "username="

  predicate IsWordChar(c: char) {
    'a' <= c <= 'z' || 'A' <= c <= 'Z' || '0' <= c <= '9' || c == '_'
  }

  /** The end of the longest run of word characters starting at `i`. */
  function WordRunEnd(s: string, i: nat): (r: nat)
    requires i <= |s|
    ensures i <= r <= |s|
    ensures r == |s| || !IsWordChar(s[r])
    decreases |s| - i
  {
    if i == |s| || !IsWordChar(s[i]) then i else WordRunEnd(s, i + 1)
  }

  /** Every character of the run is a word character. */
  lemma {:induction false} WordRunChars(s: string, i: nat)
    requires i <= |s|
    ensures forall j :: i <= j < WordRunEnd(s, i) ==> IsWordChar(s[j])
    decreases |s| - i
  {
    if i < |s| && IsWordChar(s[i]) {
      WordRunChars(s, i + 1);
    }
  }

  /** The pattern matches at index `i`: the prefix, then at least one word character. */
  predicate MatchesAt(s: string, i: nat) {
    i + |Prefix| < |s| && s[i..i + |Prefix|] == Prefix && IsWordChar(s[i + |Prefix|])
  }

  /** A match of the pattern: it matches at the start, and the match ends
      where the run of word characters ends. */
  ghost predicate IsUsernameMatch(s: string, m: Span) {
    MatchesAt(s, m.start) && m.end == WordRunEnd(s, m.start + |Prefix|)
  }

  /** The find semantics of `username=(\w+)`: a search from `from` answers
      with the leftmost index at or after `from` where the pattern matches,
      extended greedily, and with no match when there is no such index. */
  ghost predicate FindsUsernames(search: Searcher) {
    forall s: string, from: nat {:trigger search(s, from)} ::
      (search(s, from).Some? ==>
         from <= search(s, from).value.start && IsUsernameMatch(s, search(s, from).value) &&
         forall p :: from <= p < search(s, from).value.start ==> !MatchesAt(s, p)) &&
      (search(s, from).None? ==> forall p :: from <= p ==> !MatchesAt(s, p))
  }

  /** A searcher with these semantics meets the assumption made of every
      searcher, and never matches less than the prefix and one character. */
  lemma FindsUsernamesIsSound(search: Searcher)
    requires FindsUsernames(search)
    ensures Sound(search)
    ensures forall s: string, from: nat {:trigger search(s, from)} :: search(s, from).Some? ==>
              search(s, from).value.start + |Prefix| < search(s, from).value.end
  {
  }

  /** A concrete searcher: try each index from `from` on. */
  function Search(s: string, from: nat): (r: Option<Span>)
    ensures r.Some? ==> from <= r.value.start && r.value.start + |Prefix| < r.value.end <= |s|
    decreases |s| - from
  {
    if from + |Prefix| >= |s| then None
    else if MatchesAt(s, from) then Some(Span(from, WordRunEnd(s, from + |Prefix|)))
    else Search(s, from + 1)
  }

  lemma {:induction false} SearchFrom(s: string, from: nat)
    ensures Search(s, from).Some? ==>
              from <= Search(s, from).value.start && IsUsernameMatch(s, Search(s, from).value) &&
              forall p :: from <= p < Search(s, from).value.start ==> !MatchesAt(s, p)
    ensures Search(s, from).None? ==> forall p :: from <= p ==> !MatchesAt(s, p)
    decreases |s| - from
  {
    if from + |Prefix| >= |s| {
      assert Search(s, from).None?;
      forall p | from <= p ensures !MatchesAt(s, p) {
        assert p + |Prefix| >= |s|;
      }
    } else if MatchesAt(s, from) {
      assert Search(s, from) == Some(Span(from, WordRunEnd(s, from + |Prefix|)));
    } else {
      var r := Search(s, from + 1);
      assert Search(s, from) == r;
      SearchFrom(s, from + 1);
      if r.Some? {
        assert forall p :: from + 1 <= p < r.value.start ==> !MatchesAt(s, p);
        assert forall p :: from <= p < r.value.start ==> !MatchesAt(s, p) by {
          forall p | from <= p < r.value.start ensures !MatchesAt(s, p) {
            if p != from {
              assert from + 1 <= p;
            }
          }
        }
      } else {
        assert forall p :: from <= p ==> !MatchesAt(s, p) by {
          forall p | from <= p ensures !MatchesAt(s, p) {
            if p != from {
              assert from + 1 <= p;
            }
          }
        }
      }
    }
  }

  /** The concrete searcher has the find semantics of the pattern. */
  lemma SearchFindsUsernames()
    ensures FindsUsernames(Search)
  {
    forall s: string, from: nat {
      SearchFrom(s, from);
    }
  }

  /** The semantics leaves no choice: every searcher that has it answers
      as the concrete one does. */
  lemma FindsUsernamesUnique(search: Searcher, s: string, from: nat)
    requires FindsUsernames(search)
    ensures search(s, from) == Search(s, from)
  {
    SearchFrom(s, from);
    var a, b := search(s, from), Search(s, from);
    if a.Some? && b.Some? {
      if a.value.start < b.value.start {
        assert false;
      } else if b.value.start < a.value.start {
        assert false;
      }
    } else if a.Some? {
      assert false;
    } else if b.Some? {
      assert false;
    }
  }

  lemma {:induction false} FindAllMatches(search: Searcher, s: string, from: nat)
    requires FindsUsernames(search) && Sound(search)
    ensures forall j :: 0 <= j < |FindAll(search, s, from)| ==> IsUsernameMatch(s, FindAll(search, s, from)[j])
    decreases |s| + 1 - from
  {
    match Find(search, s, from)
    case None =>
    case Some(m) =>
      FindAllMatches(search, s, NextSearch(m));
      assert FindAll(search, s, from) == [m] + FindAll(search, s, NextSearch(m));
  }

  /** Every match of a find loop has a group. */
  lemma {:induction false} FindAllHaveGroups(search: Searcher, s: string, from: nat)
    requires FindsUsernames(search) && Sound(search)
    ensures forall j :: 0 <= j < |FindAll(search, s, from)| ==> HasGroup(s, FindAll(search, s, from)[j])
    decreases |s| + 1 - from
  {
    FindsUsernamesIsSound(search);
    match Find(search, s, from)
    case None =>
    case Some(m) =>
      FindAllHaveGroups(search, s, NextSearch(m));
      assert FindAll(search, s, from) == [m] + FindAll(search, s, NextSearch(m));
  }

  /** The find loop misses no occurrence: every index at or after `from`
      where the pattern matches lies inside one of the matches found (it is
      either a match's start or hidden inside an earlier, longer match). */
  lemma {:induction false} FindAllComplete(search: Searcher, s: string, from: nat, p: nat)
    requires FindsUsernames(search) && Sound(search)
    requires from <= p && MatchesAt(s, p)
    ensures exists j :: 0 <= j < |FindAll(search, s, from)| &&
              FindAll(search, s, from)[j].start <= p < FindAll(search, s, from)[j].end
    decreases |s| + 1 - from
  {
    var all := FindAll(search, s, from);
    assert from <= |s| by {
      assert p + |Prefix| < |s|;
    }
    assert Find(search, s, from) == search(s, from);
    match search(s, from)
    case None =>
      assert false;
    case Some(m) =>
      assert all == [m] + FindAll(search, s, NextSearch(m));
      assert m.start <= p by {
        if p < m.start {
          assert false;
        }
      }
      if p < m.end {
        assert all[0].start <= p < all[0].end;
      } else {
        FindAllComplete(search, s, NextSearch(m), p);
        var rest := FindAll(search, s, NextSearch(m));
        var j :| 0 <= j < |rest| && rest[j].start <= p < rest[j].end;
        assert all[j + 1] == rest[j];
      }
  }

  /** The span is a range of `s` at least as long as the prefix. */
  predicate HasGroup(s: string, m: Span) {
    m.start + |Prefix| <= m.end <= |s|
  }

  /** Matcher.group(1): the text after the prefix. */
  function Group(s: string, m: Span): (g: string)
    requires HasGroup(s, m)
    ensures |g| == m.end - m.start - |Prefix|
  {
    s[m.start + |Prefix|..m.end]
  }

  /** A match is the prefix followed by its group. */
  lemma MatchGroup(s: string, m: Span)
    requires IsUsernameMatch(s, m)
    ensures HasGroup(s, m)
    ensures Prefix + Group(s, m) == s[m.start..m.end]
  {
    assert s[m.start..m.end] == s[m.start..m.start + |Prefix|] + s[m.start + |Prefix|..m.end];
  }

  /** `k` stands right after a prefix that starts at index `i` of `s`, and
      no word character follows it there. */
  ghost predicate UsernameAt(k: string, s: string, i: nat) {
    var e := i + |Prefix| + |k|;
    e <= |s| && s[i..e] == Prefix + k && (e == |s| || !IsWordChar(s[e]))
  }

  /** A username as group 1 yields it: non-empty, all word characters,
      preceded by the prefix, and taken in full (no word character follows
      it). */
  ghost predicate IsUsernameIn(k: string, s: string) {
    |k| >= 1 && (forall j :: 0 <= j < |k| ==> IsWordChar(k[j])) && exists i :: UsernameAt(k, s, i)
  }

  function GroupsOf(s: string, spans: seq<Span>): (r: seq<string>)
    requires forall j :: 0 <= j < |spans| ==> HasGroup(s, spans[j])
    ensures |r| == |spans|
  {
    if spans == [] then []
    else GroupsOf(s, spans[..|spans| - 1]) + [Group(s, spans[|spans| - 1])]
  }

  lemma GroupsSnoc(s: string, spans: seq<Span>, m: Span)
    requires forall j :: 0 <= j < |spans| ==> HasGroup(s, spans[j])
    requires HasGroup(s, m)
    ensures forall j :: 0 <= j < |spans + [m]| ==> HasGroup(s, (spans + [m])[j])
    ensures GroupsOf(s, spans + [m]) == GroupsOf(s, spans) + [Group(s, m)]
  {
    assert (spans + [m])[..|spans|] == spans;
  }

  /** The usernames of one line: group 1 of each match of a fresh find loop. */
  function LineUsernames(search: Searcher, line: string): (r: seq<string>)
    requires FindsUsernames(search)
    ensures |r| == (FindsUsernamesIsSound(search); |FindAll(search, line, 0)|)
  {
    FindsUsernamesIsSound(search);
    FindAllHaveGroups(search, line, 0);
    GroupsOf(line, FindAll(search, line, 0))
  }

  /** Group 1 of a match is a username as defined above. */
  lemma GroupIsUsername(s: string, m: Span)
    requires IsUsernameMatch(s, m)
    ensures IsUsernameIn(Group(s, m), s)
  {
    MatchGroup(s, m);
    var g := Group(s, m);
    WordRunChars(s, m.start + |Prefix|);
    assert s[m.start..m.end] == Prefix + g;
    assert forall j :: 0 <= j < |g| ==> g[j] == s[m.start + |Prefix| + j];
    assert m.start + |Prefix| + |g| == m.end;
    assert UsernameAt(g, s, m.start);
  }

  lemma {:induction false} GroupsAreUsernames(s: string, spans: seq<Span>)
    requires forall j :: 0 <= j < |spans| ==> IsUsernameMatch(s, spans[j]) && HasGroup(s, spans[j])
    ensures forall k :: k in GroupsOf(s, spans) ==> IsUsernameIn(k, s)
    decreases |spans|
  {
    if spans != [] {
      GroupsAreUsernames(s, spans[..|spans| - 1]);
      GroupIsUsername(s, spans[|spans| - 1]);
    }
  }

  /** Every key a line yields is the full run of word characters after a
      `username=` of that line, the prefix excluded. */
  lemma LineUsernamesShape(search: Searcher, line: string)
    requires FindsUsernames(search)
    ensures forall k :: k in LineUsernames(search, line) ==> IsUsernameIn(k, line)
  {
    FindsUsernamesIsSound(search);
    FindAllMatches(search, line, 0);
    FindAllHaveGroups(search, line, 0);
    GroupsAreUsernames(line, FindAll(search, line, 0));
  }
}

/** The regular expression `\b(?:\d{1,3}\.){3}\d{1,3}\b` of the log tally
    stays with the library; what the model assumes of its matches is the
    shape it demands: four groups of one to three digits joined by dots. */
module IpPattern {
  import opened Matching

  predicate IsDigit(c: char) {
    '0' <= c <= '9'
  }

  /** The number of leading digits of `s`: what follows them is no digit. */
  function LeadingDigits(s: string): (r: nat)
    ensures r <= |s|
    ensures r == |s| || !IsDigit(s[r])
  {
    if s == [] || !IsDigit(s[0]) then 0
    else
      var r := 1 + LeadingDigits(s[1..]);
      assert r < |s| ==> s[r] == s[1..][r - 1];
      r
  }

  /** The leading digits are digits, so LeadingDigits is the longest digit prefix. */
  lemma {:induction false} LeadingDigitsAreDigits(s: string)
    ensures forall j :: 0 <= j < LeadingDigits(s) ==> IsDigit(s[j])
    decreases |s|
  {
    if s != [] && IsDigit(s[0]) {
      LeadingDigitsAreDigits(s[1..]);
      assert forall j :: 1 <= j < LeadingDigits(s) ==> s[j] == s[1..][j - 1];
    }
  }

  /** `s` is `n` groups of one to three digits separated by single dots. */
  predicate DigitGroups(s: string, n: nat)
    requires n >= 1
    decreases n
  {
    var d := LeadingDigits(s);
    1 <= d <= 3 &&
    if n == 1 then d == |s| else d < |s| && s[d] == '.' && DigitGroups(s[d + 1..], n - 1)
  }

  predicate IsDottedQuad(s: string) {
    DigitGroups(s, 4)
  }

  /** The assumption made of the address searcher: a sound searcher whose
      every match is a dotted quad. */
  ghost predicate IpSound(search: Searcher) {
    Sound(search) &&
    forall t: string, from: nat {:trigger search(t, from)} ::
      search(t, from).Some? ==> IsDottedQuad(t[search(t, from).value.start..search(t, from).value.end])
  }

  /** One to three digits. */
  predicate IsDigitGroup(g: string) {
    1 <= |g| <= 3 && forall j :: 0 <= j < |g| ==> IsDigit(g[j])
  }

  /** A text that starts with `n` digits has at least `n` leading digits. */
  lemma {:induction false} LeadingDigitsAtLeast(s: string, n: nat)
    requires n <= |s| && forall j :: 0 <= j < n ==> IsDigit(s[j])
    ensures LeadingDigits(s) >= n
    decreases n
  {
    if n > 0 {
      assert forall j :: 0 <= j < n - 1 ==> s[1..][j] == s[j + 1];
      LeadingDigitsAtLeast(s[1..], n - 1);
    }
  }

  lemma {:induction false} LeadingDigitsOfGroup(g: string, rest: string)
    requires forall j :: 0 <= j < |g| ==> IsDigit(g[j])
    ensures LeadingDigits(g + "." + rest) == |g|
  {
    if g != [] {
      assert (g + "." + rest)[1..] == g[1..] + "." + rest;
      LeadingDigitsOfGroup(g[1..], rest);
    }
  }

  /** Read the other way: a digit group, a dot, then `n` groups make `n + 1`
      groups, and a single digit group is one. */
  lemma GroupsCons(g: string, rest: string, n: nat)
    requires IsDigitGroup(g) && n >= 1 && DigitGroups(rest, n)
    ensures DigitGroups(g + "." + rest, n + 1)
  {
    LeadingDigitsOfGroup(g, rest);
    assert (g + "." + rest)[|g| + 1..] == rest;
  }

  lemma SingleGroup(g: string)
    requires IsDigitGroup(g)
    ensures DigitGroups(g, 1)
  {
    LeadingDigitsOfGroup(g, "");
    assert (g + "." + "")[..|g|] == g;
    assert LeadingDigits(g) == |g|;
  }

  /** Any four digit groups joined by dots have the shape. No group is
      compared with 255, so `999.999.999.999`, which is no address, has it
      too. */
  lemma NoOctetRangeCheck(a: string, b: string, c: string, d: string)
    requires IsDigitGroup(a) && IsDigitGroup(b) && IsDigitGroup(c) && IsDigitGroup(d)
    ensures IsDottedQuad(a + "." + (b + "." + (c + "." + d)))
  {
    SingleGroup(d);
    GroupsCons(c, d, 1);
    GroupsCons(b, c + "." + d, 2);
    GroupsCons(a, b + "." + (c + "." + d), 3);
  }

  /** A group of four or more digits breaks the shape, wherever it stands
      among the groups: here, first. */
  lemma OverlongGroupRejected(s: string)
    requires 4 <= |s| && forall j :: 0 <= j < 4 ==> IsDigit(s[j])
    ensures !IsDottedQuad(s)
  {
    LeadingDigitsAtLeast(s, 4);
  }

  /** Every match of a find loop with such a searcher is a dotted quad. */
  lemma {:induction false} FindAllDottedQuads(search: Searcher, s: string, from: nat)
    requires IpSound(search)
    ensures InBounds(s, FindAll(search, s, from))
    ensures forall k :: k in Texts(s, FindAll(search, s, from)) ==> IsDottedQuad(k)
    decreases |s| + 1 - from
  {
    FindAllWellFormed(search, s, from);
    match Find(search, s, from)
    case None =>
    case Some(m) =>
      FindAllDottedQuads(search, s, NextSearch(m));
      var rest := FindAll(search, s, NextSearch(m));
      var all := FindAll(search, s, from);
      assert all == [m] + rest;
      var keys := Texts(s, all);
      TextsAt(s, all);
      TextsAt(s, rest);
      forall k | k in keys ensures IsDottedQuad(k) {
        var j :| 0 <= j < |keys| && keys[j] == k;
        if j > 0 {
          assert all[j] == rest[j - 1];
          assert Texts(s, rest)[j - 1] == k;
        }
      }
  }
}
