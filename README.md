# Log and novel pattern tallies, modelled in Dafny

This project models the two processors of the repository.

- **LogFileProcessor.java** is the line-mode tally. It reads a log one line at a time and matches two patterns against each line afresh: an IPv4-looking pattern and `username=(\w+)`. Every address match adds one to that address's count in one HashMap. Every username match adds one to its captured name's count in a second HashMap. Getters report how many distinct keys each map holds.
- **NovelProcessor.java** is the bulk-mode tally.
  - It joins the novel's lines into one text, each line followed by `\n`.
  - It counts the matches of every line of a patterns file over that text, each with a fresh matcher.
  - It stores each count with an overwriting `put`, so the last occurrence of a duplicated pattern wins.
  - It writes one record `pattern|count` per map entry to a file whose name is the novel path cut at its last `.`, followed by `_wc.txt`.

The regular-expression library is modelled at its interface (module `Matching`):

- A compiled pattern is a `Searcher`: asked for a match at or after some index of a text, it answers with a span or with no match.
- The only assumption about it is `Sound`: an answer lies in the text, at or after the index asked for.
- `FindAll` is the `while (m.find())` loop. It follows Matcher's rules: stop once the search index is past the end of the text, and step one character past an empty match.
- The following are proved from `Sound` alone:
  - the matches of the loop come left to right without overlapping;
  - there are at most `|text| + 1` of them.

The username pattern gets an exact specification, `UsernamePattern.FindsUsernames`. A search answers with the leftmost index at or after its start where `username=` is followed by a word character, and the match takes the greedy maximal run of ASCII word characters `[a-zA-Z_0-9]`, at least one of them. A concrete searcher `UsernamePattern.Search` is proved to meet it, and to be the only searcher that does.

The address pattern `\b(?:\d{1,3}\.){3}\d{1,3}\b` stays abstract (`IpPattern.IpSound`): every match it returns is a dotted quad of four groups of one to three ASCII digits.

The frequency maps are `map<string, nat>` (module `Frequency`). `Tally` folds occurrences into a map one `put(k, getOrDefault(k, 0) + 1)` at a time. Its laws are proved:

- the counts do not depend on the order of the occurrences;
- the sum of the counts is their number;
- every count is at least one;
- there are at most as many keys as occurrences.

`LogFile.LogFileProcessor` is a class with the two maps as fields. Ghost sequences record every key folded in, and `Valid` ties each map to the tally of its sequence. Its methods keep their loops: lines, address matches and username matches.

Inputs become parameters:

- file contents become sequences of lines;
- `Pattern.compile` becomes an `Engine` from pattern text to searcher;
- the written file becomes a sequence of records.

## Model

| member | source | states |
|---|---|---|
| Matching.Find | LogFileProcessor.java:51 | A match found from an index starts no earlier than that index and lies inside the text |
| Matching.NextSearch | NovelProcessor.java:85 | The next search after a match starts past the match's start and at or after its end; it is one beyond an empty match |
| Matching.FindAll | LogFileProcessor.java:51 | Definition: the matches returned by successive find() calls from an index; FindAllStep, FindAllWellFormed and MatchCountBound state its properties |
| Matching.FindAllStep | LogFileProcessor.java:51-54 | One more find(): on success, the matches so far plus the new one plus the rest are all the matches; on failure, the matches so far are all of them |
| Matching.FindAllWellFormed | LogFileProcessor.java:51-59 | The matches of a find loop are ranges of the text, start at or after the first search index, are strictly left to right without overlap, and number at most the search positions left |
| Matching.FindAllInBounds | LogFileProcessor.java:51-52 | Every match of a find loop is a range of the text, so group() is defined on it |
| Matching.MatchCountBound | NovelProcessor.java:84-87 | A count loop over a text of n characters counts at most n + 1 matches, whatever the pattern |
| Matching.Texts | LogFileProcessor.java:52 | One matched text per match |
| Matching.TextsAt | LogFileProcessor.java:52 | The j-th matched text is the text of the j-th match |
| Matching.TextsSnoc | LogFileProcessor.java:51-53 | Adding a match in bounds adds its text at the end of the matched texts |
| Matching.TextsAreFactors | LogFileProcessor.java:52 | Every matched text is a contiguous part of the line it was found in |
| Frequency.Get | LogFileProcessor.java:53 | getOrDefault(k, 0) is the stored count for a present key and 0 for an absent one |
| Frequency.Increment | LogFileProcessor.java:53 | One occurrence: the key is added if missing, its count goes up by one, and every other count is unchanged |
| Frequency.Tally | LogFileProcessor.java:51-59 | Definition: one Increment per occurrence, in order; TallyCounts, TallyOrderIrrelevant, TallyTotal and TallySize state its properties |
| Frequency.TallyOne | LogFileProcessor.java:51-54 | Folding one more occurrence is one Increment of the fold so far |
| Frequency.TallyAppend | LogFileProcessor.java:46-60 | Folding two runs of occurrences one after the other is folding their concatenation |
| Frequency.TallyCounts | LogFileProcessor.java:51-59 | After a fold, a key is present exactly when it was there or occurred, and its count grew by its number of occurrences |
| Frequency.TallyOrderIrrelevant | LogFileProcessor.java:51-59 | Two orderings of the same occurrences give the same map |
| Frequency.TallyPositive | LogFileProcessor.java:53 | A fold keeps every count at least one |
| Frequency.TotalRemove | LogFileProcessor.java:53 | The sum of counts is any key's count plus the sum over the other keys |
| Frequency.TotalIncrement | LogFileProcessor.java:53 | One occurrence raises the sum of counts by exactly one |
| Frequency.TallyTotal | LogFileProcessor.java:51-59 | Folding n occurrences raises the sum of counts by n |
| Frequency.TallyExtend | LogFileProcessor.java:46-60 | Occurrences seen after earlier ones add onto the earlier tally, and the sum of counts grows by their number |
| Frequency.DistinctBound | LogFileProcessor.java:69-79 | There are at most as many distinct keys as occurrences |
| Frequency.TallySize | LogFileProcessor.java:69-79 | The map folded from nothing has one key per distinct occurrence, at most the number of occurrences |
| UsernamePattern.WordRunEnd | LogFileProcessor.java:44 | The greedy \w+ run ends inside the text, at the end or at a character that is not a word character |
| UsernamePattern.WordRunChars | LogFileProcessor.java:44 | Every character of the greedy run is a word character |
| UsernamePattern.FindsUsernamesIsSound | LogFileProcessor.java:44 | A searcher meeting the username specification is sound, and every match it returns is a username match |
| UsernamePattern.Search | LogFileProcessor.java:44 | A match it returns starts at or after the index asked for, holds the prefix and at least one more character, and lies in the text; SearchFrom and SearchFindsUsernames relate it to the specification |
| UsernamePattern.SearchFrom | LogFileProcessor.java:44 | The concrete searcher returns the leftmost position at or after the index where `username=` and a word character occur, with the maximal run; it returns none when no such position exists |
| UsernamePattern.SearchFindsUsernames | LogFileProcessor.java:44 | The concrete searcher meets the username specification |
| UsernamePattern.FindsUsernamesUnique | LogFileProcessor.java:44 | Every searcher meeting the username specification answers exactly as the concrete one does |
| UsernamePattern.FindAllMatches | LogFileProcessor.java:56 | Every match of the username find loop is `username=` followed by a maximal non-empty word run |
| UsernamePattern.FindAllHaveGroups | LogFileProcessor.java:56-57 | Every match of the username find loop has a group(1) |
| UsernamePattern.FindAllComplete | LogFileProcessor.java:56 | Every position at or after the first search index where a username field starts lies within some match of the loop, so no username field is missed |
| UsernamePattern.MatchGroup | LogFileProcessor.java:57 | A username match is `username=` followed by its group(1) |
| UsernamePattern.Group | LogFileProcessor.java:57 | group(1) is the match without its prefix: as long as the match minus the prefix |
| UsernamePattern.GroupsOf | LogFileProcessor.java:57 | One group(1) per match |
| UsernamePattern.GroupsSnoc | LogFileProcessor.java:56-58 | One more match adds its group(1) at the end |
| UsernamePattern.LineUsernames | LogFileProcessor.java:49-57 | A line yields one username per match of a fresh username matcher |
| UsernamePattern.GroupIsUsername | LogFileProcessor.java:57 | A captured name is non-empty, made of word characters, stands right after a `username=` of the line, and is followed there by no word character, so it is the whole run and never a truncation of it |
| UsernamePattern.GroupsAreUsernames | LogFileProcessor.java:57 | Every captured name of a sequence of username matches is the whole word run after a `username=` of the line |
| UsernamePattern.LineUsernamesShape | LogFileProcessor.java:56-58 | Every username a line yields is the whole non-empty word run after a `username=` of that line |
| IpPattern.LeadingDigits | LogFileProcessor.java:43 | The leading digit run ends inside the text, at the end or at a non-digit |
| IpPattern.LeadingDigitsAreDigits | LogFileProcessor.java:43 | Every character of the leading run is an ASCII digit |
| IpPattern.LeadingDigitsAtLeast | LogFileProcessor.java:43 | A text starting with n digits has a leading run of at least n |
| IpPattern.LeadingDigitsOfGroup | LogFileProcessor.java:43 | The leading run of a digit group followed by `.` is exactly that group |
| IpPattern.GroupsCons | LogFileProcessor.java:43 | A group of one to three digits, a dot and n groups make n + 1 groups |
| IpPattern.SingleGroup | LogFileProcessor.java:43 | One to three digits are one group |
| IpPattern.NoOctetRangeCheck | LogFileProcessor.java:43 | Any four groups of one to three digits joined by dots are a dotted quad, so the assumed shape admits group values above 255, such as 999 |
| IpPattern.OverlongGroupRejected | LogFileProcessor.java:43 | A text starting with four digits is never a dotted quad, since \d{1,3} stops at three |
| IpPattern.FindAllDottedQuads | LogFileProcessor.java:51-52 | Every address found by the address loop is a dotted quad |
| LogFile.LineIpAddresses | LogFileProcessor.java:48-52 | A line yields one address per match of a fresh address matcher |
| LogFile.IpAddressCount | LogFileProcessor.java:46-54 | The addresses of a log are as many as the address matches over its lines |
| LogFile.UsernameCount | LogFileProcessor.java:46-59 | The usernames of a log are as many as the username matches over its lines |
| LogFile.UsernameMatchCount | LogFileProcessor.java:49-56 | Definition: the number of successful find() calls of the per-line username matchers; UsernameCount relates it to the keys folded in |
| LogFile.IpMatchCount | LogFileProcessor.java:48-51 | Definition: the number of successful find() calls of the per-line address matchers; IpAddressCount relates it to the keys folded in |
| LogFile.IpAddresses | LogFileProcessor.java:46-54 | Definition: the addresses of every line, line after line; IpLinesIndependent, IpAddressCount, IpAddressesWithinLines and IpAddressesAreDottedQuads state its properties |
| LogFile.Usernames | LogFileProcessor.java:46-59 | Definition: the usernames of every line, line after line; UsernameLinesIndependent, UsernameCount and UsernamesWithinLines state its properties |
| LogFile.IpLinesIndependent | LogFileProcessor.java:46-54 | The addresses of two logs back to back are those of the first followed by those of the second, since every line gets a fresh matcher |
| LogFile.UsernameLinesIndependent | LogFileProcessor.java:46-59 | The usernames of two logs back to back are those of the first followed by those of the second |
| LogFile.IpAddressesWithinLines | LogFileProcessor.java:48-52 | Every address is a contiguous part of one line, so no address spans a line break |
| LogFile.IpAddressesAreDottedQuads | LogFileProcessor.java:43-52 | Every address of the log is a dotted quad |
| LogFile.UsernamesWithinLines | LogFileProcessor.java:49-57 | Every username is the whole non-empty word run after a `username=` of one single line |
| LogFile.LinesSnoc | LogFileProcessor.java:46-60 | The keys of the first i + 1 lines are those of the first i followed by those of line i |
| LogFile.LogFileProcessor.constructor | LogFileProcessor.java:29-32 | A new processor has two empty maps and has folded nothing |
| LogFile.LogFileProcessor.ProcessLogFile | LogFileProcessor.java:39-63 | Every line is parsed; each map becomes its old counts plus the tally of the log's keys; the sum of address counts grows by the number of address matches and the sum of username counts by the number of username matches; Valid is kept |
| LogFile.LogFileProcessor.ProcessLine | LogFileProcessor.java:47-59 | One line folds its addresses into the address map and its usernames into the username map, keeping Valid |
| LogFile.LogFileProcessor.ScanIpAddresses | LogFileProcessor.java:48-54 | The address loop: the address map becomes the old one plus the tally of the line's addresses; the username map is untouched |
| LogFile.LogFileProcessor.ScanUsernames | LogFileProcessor.java:49-59 | The username loop: the username map becomes the old one plus the tally of the line's captured names; the address map is untouched |
| LogFile.LogFileProcessor.GetIpMapSize | LogFileProcessor.java:69-71 | The number of distinct addresses seen, at most the number of address matches |
| LogFile.LogFileProcessor.GetUsernameMapSize | LogFileProcessor.java:77-79 | The number of distinct usernames seen, at most the number of username matches |
| LogFile.ProcessorCounts | LogFileProcessor.java:51-59 | In a valid processor every count is at least one, a key is present exactly when it was seen, its count is its number of occurrences, and the counts sum to the number of occurrences |
| Novel.ReadNovel | NovelProcessor.java:40-46 | The novel text is every line followed by a newline, in order |
| Novel.JoinLines | NovelProcessor.java:40-46 | Definition: every line followed by a newline, in order; JoinLinesLength and SplitJoin state its properties |
| Novel.JoinLinesLength | NovelProcessor.java:40-46 | The text is as long as the lines plus one newline each, and is empty exactly when there are no lines |
| Novel.LineEnd | NovelProcessor.java:42 | The first newline of a text: no newline before it, and a newline at it unless it is the end |
| Novel.SplitJoin | NovelProcessor.java:40-46 | Lines without newlines are recovered from the joined text, so joining loses no line boundary |
| Novel.JoinFront | NovelProcessor.java:43 | The joined text is the first line, a newline and the joined rest |
| Novel.LineEndOf | NovelProcessor.java:43 | In a line followed by a newline, the first newline is right after the line |
| Novel.CountPatternOccurrences | NovelProcessor.java:81-89 | The count is the number of matches of a fresh matcher over the whole text, at most its length plus one |
| Novel.Occurrences | NovelProcessor.java:81-89 | Definition: the number of matches of a fresh matcher over the whole text; MatchCountBound bounds it |
| Novel.CountsFor | NovelProcessor.java:50-53 | Definition: one overwriting put per pattern line, in order; CountsForEntries, CountsForSize, RepeatedPattern and CountsForOrderIrrelevant state its properties |
| Novel.CountPatterns | NovelProcessor.java:48-53 | The map holds exactly the distinct pattern lines, each with its count over the text, and has at most as many entries as there are pattern lines |
| Novel.CountsForEntries | NovelProcessor.java:50-53 | The keys are the distinct pattern lines and each value is that pattern's count |
| Novel.CountsForSize | NovelProcessor.java:50-53 | The number of entries is the number of distinct pattern lines, at most the number of lines |
| Novel.RepeatedPattern | NovelProcessor.java:52 | A pattern line repeated later changes nothing, since its overwriting put stores the same count |
| Novel.CountsForOrderIrrelevant | NovelProcessor.java:50-53 | Two pattern lists with the same distinct lines give the same map |
| Novel.LastIndexOf | NovelProcessor.java:60 | lastIndexOf: -1 or a position holding the character, with none after it |
| Novel.LastIndexOfIs | NovelProcessor.java:60 | A position holding the character with none after it is the last index |
| Novel.OutputFileName | NovelProcessor.java:60-61 | Definition: the path before its last `.` followed by `_wc.txt`, none without a `.`; OutputFileNameOf and OutputFileNameNone state its properties |
| Novel.OutputFileNameOf | NovelProcessor.java:60-61 | The output name is the path before its last `.`, wherever that stands, followed by `_wc.txt` |
| Novel.OutputFileNameNone | NovelProcessor.java:60 | No output name is derived exactly when the path has no `.` |
| Novel.ParseNatToString | NovelProcessor.java:65 | The decimal form of a count is digits only and reads back as the count |
| Novel.NatToString | NovelProcessor.java:65 | The decimal form of a count has at least one digit and, as Integer.toString, no leading zero unless the count is 0; ParseNatToString proves it is all digits and reads back |
| Novel.FormatRecord | NovelProcessor.java:65 | Definition: the pattern, a bar, the decimal count and a newline; FormatParse and FormatRecordInjective state its properties |
| Novel.FormatParse | NovelProcessor.java:65 | A record (pattern, bar, count, newline) splits at its last bar back into the pattern and the count |
| Novel.FormatRecordInjective | NovelProcessor.java:65 | Different entries give different records |
| Novel.WriteRecords | NovelProcessor.java:63-66 | One record per map entry, in some order with no key twice and every key once |
| Novel.DistinctKeys | NovelProcessor.java:64 | A duplicate-free list of exactly the keys of a map is as long as the map |
| Novel.ProcessNovel | NovelProcessor.java:37-66 | No output exactly when no output name can be derived; otherwise the name, and as many records as entries, with each pattern's record and its count over the joined novel |

## Left out

- File reading, the console prompts, `Scanner`, and every `System.out`/`System.err` print are left out. This includes the "lines parsed" message; the line count is returned instead. It also includes `printIpMap`, `printUsernameMap` and the print flag of LogFileProcessor's `main`.
- Matching.MatchCountBound and Novel.CountPatternOccurrences count positions in Unicode code points, since a Dafny string is a sequence of code points, while a Java String indexes UTF-16 code units. A character outside the Basic Multilingual Plane is one position here and two in Java. So Java finds more empty matches than the bound `|text| + 1` allows: for the line "😀", the pattern "" has 4 matches in Java and at most 3 in the model. Matches that split a surrogate pair are not represented.
- Novel.CountPatternOccurrences: its bound `count <= |text| + 1` is in code points, for the same reason, and does not hold of Java's count in UTF-16 units.
- `IOException` paths are left out: the early `return` of NovelProcessor and the exception LogFileProcessor propagates. Reading always succeeds in the model.
- `readLine`'s treatment of `\r` and `\r\n` is not modelled: lines arrive already split.
- The internals of java.util.regex are left out: compilation, backtracking and the `\b` boundaries of the address pattern. The address searcher is a parameter constrained by `IpPattern.IpSound`. Novel patterns come from an abstract `Engine`.
- Invalid pattern text is not modelled. It raises `PatternSyntaxException`, which NovelProcessor does not catch. Every pattern line compiles in the model.
- The iteration order of `HashMap.keySet()` is not modelled. `Novel.WriteRecords` writes the records in an order it does not fix, returned as a ghost sequence.
- Novel.CountPatternOccurrences: counts are unbounded naturals. Java's `int` could wrap past 2^31 - 1 matches, which needs a text of about 2^31 characters.
- LogFile.LogFileProcessor.ProcessLogFile: `linesParsed` and the map counts are unbounded naturals rather than 32-bit `int`s.
- LogFile.LogFileProcessor.ProcessLogFile: the address and username searchers are parameters rather than the two `Pattern.compile` calls at lines 43-44.
- `Novel.SplitLines` and `Novel.ParseRecord` are not operations of the program. They are the inverses that the round-trip lemmas for joining lines and formatting records are stated against.
- The code behaves in ways a reader may not expect; the model follows the code.
  - The output name cuts the path at its last `.` anywhere in it, even in a directory name, rather than at the file's extension.
  - A path with no `.` makes `substring(0, -1)` throw after counting, so nothing is written (`OutputFileName` is `None`).
  - Records come in HashMap order, not insertion order.
  - An empty pattern line is not rejected: it is counted like any other pattern, at every position.
  - A duplicate pattern line overwrites its earlier count with the same value.
