/** The part of java.util.regex that the two processors rely on, modelled at
    its interface: a compiled pattern is a searcher that, asked for the next
    match starting at some index of a text, answers with a span or with "no
    match". The standard find() loop (`while (m.find())`) is then the
    iteration FindAll, whose ordering and counting properties are proved here
    from one assumption about the searcher: what it returns lies in the text,
    at or after the index it was asked for. */
module Matching {

  datatype Option<+T> = None | Some(value: T)

  /** A match: the half-open character range [start, end) of the text. */
  datatype Span = Span(start: nat, end: nat)

  /** One search of a compiled pattern: the leftmost match in `text` that
      starts at or after `from`, if any. */
  type Searcher = (string, nat) -> Option<Span>

  /** The facts assumed of the regular-expression library: a match found
      from `from` starts no earlier than `from` and is a range of the text. */
  ghost predicate Sound(search: Searcher) {
    forall text: string, from: nat {:trigger search(text, from)} ::
      search(text, from).Some? ==>
        from <= search(text, from).value.start <= search(text, from).value.end <= |text|
  }

  /** One call of Matcher.find(): no search once the next search index is
      past the end of the text, otherwise one search from that index. */
  function Find(search: Searcher, text: string, from: nat): (r: Option<Span>)
    requires Sound(search)
    ensures r.Some? ==> from <= r.value.start <= r.value.end <= |text|
  {
    if from > |text| then None else search(text, from)
  }

  /** Where Matcher.find() searches after a match: at its end, or one
      character further when the match was empty (so find always advances). */
  function NextSearch(m: Span): (r: nat)
    requires m.start <= m.end
    ensures r > m.start && r >= m.end
    ensures r == m.end || (m.start == m.end && r == m.end + 1)
  {
    if m.start == m.end then m.end + 1 else m.end
  }

  /** The matches successive find() calls return, starting at index `from`
      (a fresh matcher starts at 0). */
  function FindAll(search: Searcher, text: string, from: nat): seq<Span>
    requires Sound(search)
    decreases |text| + 1 - from
  {
    match Find(search, text, from)
    case None => []
    case Some(m) => [m] + FindAll(search, text, NextSearch(m))
  }

  /** One more find() call: a successful one is the first match of what
      is left, and the rest follow from the next search index. */
  lemma FindAllStep(search: Searcher, text: string, from: nat, found: seq<Span>)
    requires Sound(search)
    requires found + FindAll(search, text, from) == FindAll(search, text, 0)
    ensures Find(search, text, from).Some? ==>
              var m := Find(search, text, from).value;
              (found + [m]) + FindAll(search, text, NextSearch(m)) == FindAll(search, text, 0)
    ensures Find(search, text, from).None? ==> found == FindAll(search, text, 0)
  {
    match Find(search, text, from)
    case None =>
      assert found + [] == found;
    case Some(m) =>
      assert FindAll(search, text, from) == [m] + FindAll(search, text, NextSearch(m));
      assert (found + [m]) + FindAll(search, text, NextSearch(m)) == found + ([m] + FindAll(search, text, NextSearch(m)));
  }

  /** Every span is a range of `text`. */
  ghost predicate InBounds(text: string, spans: seq<Span>) {
    forall j :: 0 <= j < |spans| ==> spans[j].start <= spans[j].end <= |text|
  }

  /** Spans are strictly left to right and never overlap. */
  ghost predicate Ordered(spans: seq<Span>) {
    forall i, j :: 0 <= i < j < |spans| ==>
      spans[i].start < spans[j].start && spans[i].end <= spans[j].start
  }

  /** The matches of a find loop started at `from` are ranges of the text,
      start at or after `from`, come left to right without overlapping, and
      there are at most as many of them as there are search positions. */
  lemma {:induction false} FindAllWellFormed(search: Searcher, text: string, from: nat)
    requires Sound(search)
    ensures InBounds(text, FindAll(search, text, from))
    ensures Ordered(FindAll(search, text, from))
    ensures forall j :: 0 <= j < |FindAll(search, text, from)| ==>
              from <= FindAll(search, text, from)[j].start
    ensures |FindAll(search, text, from)| <= if from <= |text| then |text| + 1 - from else 0
    decreases |text| + 1 - from
  {
    match Find(search, text, from)
    case None =>
    case Some(m) =>
      var next := NextSearch(m);
      FindAllWellFormed(search, text, next);
      var rest := FindAll(search, text, next);
      var all := [m] + rest;
      assert all == FindAll(search, text, from);
      assert forall j :: 0 < j < |all| ==> all[j] == rest[j - 1];
      assert forall j :: 0 <= j < |rest| ==> next <= rest[j].start;
  }

  /** The matches of a find loop are ranges of the text. */
  lemma FindAllInBounds(search: Searcher, text: string, from: nat)
    requires Sound(search)
    ensures InBounds(text, FindAll(search, text, from))
  {
    FindAllWellFormed(search, text, from);
  }

  /** At most one match per search position, however the pattern reads:
      a count loop over a text of n characters stops after at most n + 1. */
  lemma MatchCountBound(search: Searcher, text: string)
    requires Sound(search)
    ensures |FindAll(search, text, 0)| <= |text| + 1
  {
    FindAllWellFormed(search, text, 0);
  }

  /** The text of each span, in order (Matcher.group() for each match). */
  function Texts(text: string, spans: seq<Span>): (r: seq<string>)
    requires InBounds(text, spans)
    ensures |r| == |spans|
  {
    if spans == [] then []
    else Texts(text, spans[..|spans| - 1]) + [text[spans[|spans| - 1].start..spans[|spans| - 1].end]]
  }

  /** The j-th text is the text of the j-th span. */
  lemma {:induction false} TextsAt(text: string, spans: seq<Span>)
    requires InBounds(text, spans)
    ensures forall j :: 0 <= j < |spans| ==> Texts(text, spans)[j] == text[spans[j].start..spans[j].end]
    decreases |spans|
  {
    if spans != [] {
      TextsAt(text, spans[..|spans| - 1]);
    }
  }

  lemma TextsSnoc(text: string, spans: seq<Span>, m: Span)
    requires InBounds(text, spans) && m.start <= m.end <= |text|
    ensures InBounds(text, spans + [m])
    ensures Texts(text, spans + [m]) == Texts(text, spans) + [text[m.start..m.end]]
  {
    assert (spans + [m])[..|spans|] == spans;
  }

  /** A contiguous part of `s`. */
  ghost predicate IsFactor(k: string, s: string) {
    exists i, j :: 0 <= i <= j <= |s| && s[i..j] == k
  }

  /** The matched texts of a find loop over one text are parts of that text. */
  lemma TextsAreFactors(search: Searcher, text: string)
    requires Sound(search)
    ensures InBounds(text, FindAll(search, text, 0))
    ensures forall k :: k in Texts(text, FindAll(search, text, 0)) ==> IsFactor(k, text)
  {
    FindAllWellFormed(search, text, 0);
    var spans := FindAll(search, text, 0);
    var keys := Texts(text, spans);
    TextsAt(text, spans);
    forall k | k in keys ensures IsFactor(k, text) {
      var j :| 0 <= j < |keys| && keys[j] == k;
      assert text[spans[j].start..spans[j].end] == k;
    }
  }
}
