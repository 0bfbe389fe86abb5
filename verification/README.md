# QA analysis core, modelled in Dafny

This project models the data path of the customer-support QA analysis app
(`qa-analysis-app.tsx`). That path has three parts:

- `parseCSV` turns the uploaded text into one record per data line. A
  record maps each header name to a field value.
- The `analysisData` computation derives the report data from the records:
  - team averages of four scores;
  - the four-entry feedback distribution (Poor, Average, Good, Excellent);
  - one summary per representative, sorted by name, with averages, counts
    of excellent and needs-improvement conversations, at most two "good
    wins" and at most three recommendations.
- `generateMarkdown` renders that data as the downloadable Markdown report.

Modules:

- `Wrappers`: `Option`.
- `Seqs`: `Filter`, `FindFirst`, `Sum` and `Count`.
- `Text`: JavaScript `trim`, `split`, `join`, ASCII `toLowerCase`,
  quote removal, and decimal rendering of counts.
- `StringOrder`: the order used to sort representatives.
- `Csv`: `parseCSV`.
- `Metrics`: averages, feedback buckets and grouping by representative.
- `Highlights`: `summarizeText`, wins and recommendations.
- `Analysis`: the `analysisData` object.
- `Report`: `generateMarkdown`.

The report text is assembled chunk by chunk, one chunk per `markdown +=`.
`Report.DocLines` gives the same report as a list of lines, and lemmas
connect the two. Per-line facts are stated on `DocLines`. They carry over
to the text by splitting it on line breaks (`MarkdownSplitsIntoLines`).

Two host-language operations become parameters:

- `parse: string -> Option<real>` stands for `parseFloat`. `None` means the
  result is `NaN`.
- `fmt: real -> string` stands for `toFixed(1)`.

An average over no values is `None` and renders as `"NaN"`, like
`NaN.toFixed(1)`.

Three behaviours of the code that the model keeps:

- An empty record list is analysed, not refused. `[]` is truthy at line 59,
  so every team average renders as `"NaN"`.
- A record without a `Representative Name` is grouped under the key
  `"undefined"`. The source indexes an object with `undefined`, and that key
  is shared with a representative literally named `undefined`.
- `summarizeText` keeps the first sentence fragment untrimmed: line 190
  joins the untrimmed fragment. Only the good wins are trimmed (lines 158,
  168).

## Model

| member | source | states |
|---|---|---|
| Text.Trim | qa-analysis-app.tsx:24-25 | the result is trimmed (no JavaScript white space at either end), and it is empty exactly when the input is all white space |
| Text.TrimUnique | qa-analysis-app.tsx:24-25 | trimming a trimmed core between two runs of white space gives back exactly that core |
| Text.TrimIdempotent | qa-analysis-app.tsx:24-25 | trimming twice is trimming once |
| Text.Split | qa-analysis-app.tsx:24-25 | `split` gives one more piece than separators, and no piece contains the separator |
| Text.JoinSplit | qa-analysis-app.tsx:24-25 | joining the pieces of a split with the same separator restores the text |
| Text.SplitJoin | qa-analysis-app.tsx:24-25 | splitting a join of separator-free pieces gives the pieces back |
| Text.ToLower | qa-analysis-app.tsx:93 | lower-casing keeps the length and maps each character independently |
| Text.RemoveAll | qa-analysis-app.tsx:25 | `replace(/"/g, '')` leaves no quote and shortens the text by the number of quotes |
| Text.RemoveAllAppend | qa-analysis-app.tsx:25 | removing quotes from a concatenation removes them from each part, so the kept characters stay in order |
| Text.RemoveAllOne | qa-analysis-app.tsx:25 | a single character is dropped exactly when it is the removed one |
| Text.RemoveAllIsFilter | qa-analysis-app.tsx:25 | quote removal equals the independent `filter` that keeps every character other than the quote, in order |
| Text.TrimSlice | qa-analysis-app.tsx:25 | `trim` adds no character, so a quote-free text stays quote-free when trimmed |
| Text.NatToString | qa-analysis-app.tsx:256 | a count renders as digits without a leading zero |
| Text.NatToStringRoundTrip | qa-analysis-app.tsx:256 | the rendered digits read back as the same count |
| StringOrder.LessTransitive | qa-analysis-app.tsx:135 | the order used to sort names is transitive |
| StringOrder.LessTotal | qa-analysis-app.tsx:135 | any two distinct names are ordered one way or the other |
| StringOrder.LessAsymmetric | qa-analysis-app.tsx:135 | no two names are each before the other |
| StringOrder.SortedDistinct | qa-analysis-app.tsx:134-135 | a strictly sorted list of names has no duplicates, as the keys of an object have none |
| StringOrder.Insert | qa-analysis-app.tsx:134-135 | inserting a name keeps the list strictly sorted, adds exactly that name, and grows the list only if the name was new |
| Seqs.Filter | qa-analysis-app.tsx:142-148 | `filter` keeps exactly the elements that satisfy the test, in order, and no others |
| Seqs.FilterPositions | qa-analysis-app.tsx:142-148 | the filtered elements sit at strictly increasing positions of the original, so a subset is an order-preserving subsequence of the agent's conversations |
| Seqs.FilterAppend | qa-analysis-app.tsx:142-148 | filtering a concatenation is the concatenation of the filtered parts |
| Seqs.FilterDisjointCount | qa-analysis-app.tsx:142-148 | two filters with tests no element passes together select at most as many elements as there are in total |
| Seqs.FindFirst | qa-analysis-app.tsx:155 | `find` returns the first position passing the test, or nothing when no element passes |
| Seqs.FilterHead | qa-analysis-app.tsx:155 | `find` succeeds exactly when the filter is non-empty, and then finds the filter's first element |
| Seqs.SumBounds | qa-analysis-app.tsx:79-81 | a sum of values in `[0, hi]` lies in `[0, hi * n]` |
| Seqs.CountFilter | qa-analysis-app.tsx:142-148 | counting the elements that pass a test gives the length of the filter |
| Csv.Field | qa-analysis-app.tsx:38 | a finished field holds no double quote, and a field accumulated without quotes is just that text trimmed |
| Csv.Scan | qa-analysis-app.tsx:33-44 | the end of the line always closes a last field, so a line gives at least one field |
| Csv.ScanRun | qa-analysis-app.tsx:33-44 | a rest of line free of quotes and commas joins the current field, which the end of the line then closes |
| Csv.ScanTrimmed | qa-analysis-app.tsx:35-44 | the scan never adds a quote to the field it accumulates, so every field it closes is trimmed |
| Csv.SplitLine | qa-analysis-app.tsx:33-44 | a data line gives one field more than the commas outside quotes, no field holds a quote, and every field is trimmed |
| Csv.ScanCount | qa-analysis-app.tsx:33-44 | the scan closes one field per comma outside quotes, plus the last one |
| Csv.ScanNoQuotes | qa-analysis-app.tsx:35-38 | every field the scan closes is free of double quotes |
| Csv.UnquotedCommasShift | qa-analysis-app.tsx:35-37 | the in-quotes flag after the first character is that character's toggle, so the comma count shifts along the line |
| Csv.ScanQuotedRun | qa-analysis-app.tsx:35-41 | inside quotes every character but `"` is added to the field, commas included |
| Csv.ScanPlainRun | qa-analysis-app.tsx:37-41 | outside quotes every character but `"` and `,` is added to the field |
| Csv.FieldOfClean | qa-analysis-app.tsx:38 | a value without quotes and without surrounding white space survives field finishing unchanged |
| Csv.ScanQuotedField | qa-analysis-app.tsx:33-44 | a quoted value followed by a comma is read as exactly that value, and the scan continues with a fresh field |
| Csv.SplitEncodedRow | qa-analysis-app.tsx:33-44 | a line of quoted clean values, commas inside them included, splits back into those values |
| Csv.SplitPlainRow | qa-analysis-app.tsx:33-44 | a comma-joined line of clean comma-free values splits back into those values |
| Csv.ParseHeader | qa-analysis-app.tsx:25 | the header line gives one name per raw comma plus one; each name is its comma-separated piece trimmed and then stripped of every quote, so no name holds a quote |
| Csv.MakeRow | qa-analysis-app.tsx:46-49 | the row's keys are exactly the header names, each bound to the value at its last position or `''` past the end of the values |
| Csv.AssignLastHeader | qa-analysis-app.tsx:47-49 | assigning the last header extends the row built from the earlier ones without breaking any later-wins binding |
| Csv.Lines | qa-analysis-app.tsx:24 | trimming and splitting on newlines always yields at least the header line |
| Csv.ParseCsv | qa-analysis-app.tsx:23-54 | one record per newline of the trimmed text (none for a blank input), each keyed by exactly the header names and holding the line's fields by position |
| Csv.Rows | qa-analysis-app.tsx:27-51 | each data line becomes one record shaped by the same header |
| Csv.HeaderSplitsQuotedComma | qa-analysis-app.tsx:25-44 | `"a,b"` is two names on the header line but one field `a,b` on a data line |
| Csv.HeaderOfQuotedPair | qa-analysis-app.tsx:25 | the header line ignores quotes, so `"a,b"` gives the names `a` and `b` |
| Csv.HeaderOfParts | qa-analysis-app.tsx:25 | a stray quote before the first name or after the second is removed by the quote stripping, leaving the two names |
| Csv.HeaderNameWithQuote | qa-analysis-app.tsx:25 | a clean name with one quote attached before or after reads as the name itself |
| Csv.EncodedLines | qa-analysis-app.tsx:24 | a text built from a header line and encoded rows splits back into those lines |
| Csv.ParseJoinedHeader | qa-analysis-app.tsx:25 | a comma-joined list of clean names parses back into the list |
| Csv.ParseEncodedCsv | qa-analysis-app.tsx:23-54 | round trip: parsing an encoded table gives its header, one record per row, and every row value under its header name |
| Metrics.Lookup | qa-analysis-app.tsx:67 | a field lookup succeeds exactly when the record has the field, and then returns its value |
| Metrics.ScoreOf | qa-analysis-app.tsx:66-68 | a record scores 0 when its field is missing or does not parse, and otherwise the parsed value |
| Metrics.Scores | qa-analysis-app.tsx:66-77 | one score per record, in order, with 0 wherever the value is missing or does not parse |
| Metrics.Mean | qa-analysis-app.tsx:79-81 | the average is defined exactly when there are values, and then times the count equals the sum |
| Metrics.UnparsedCountsInDenominator | qa-analysis-app.tsx:63-81 | a record whose score does not parse adds 0 to the sum but still counts in the denominator |
| Metrics.AverageBounds | qa-analysis-app.tsx:79-81 | scores in `[0, hi]` give an average in `[0, hi]` |
| Metrics.Classify | qa-analysis-app.tsx:84-98 | a record falls in a bucket exactly when its lower-cased feedback is that bucket's key, and otherwise in none |
| Metrics.Tally | qa-analysis-app.tsx:92-100 | each bucket's count equals the number of records whose feedback maps to it, missing buckets counting 0 |
| Metrics.Distribution | qa-analysis-app.tsx:102-105 | four entries in the order Poor, Average, Good, Excellent, each counting the records in its bucket |
| Metrics.DistributionSums | qa-analysis-app.tsx:91-105 | the distribution adds up to the recognised records, so never to more than the total |
| Metrics.BucketCountsSum | qa-analysis-app.tsx:92-100 | the four bucket filters partition the recognised records |
| Metrics.AgentOf | qa-analysis-app.tsx:110 | a record's group key is its `Representative Name`, or `"undefined"` when the record has no such field |
| Metrics.Push | qa-analysis-app.tsx:111-121 | pushing a record adds its agent's key if missing, appends the record to that agent's list, and leaves every other list unchanged |
| Metrics.GroupBy | qa-analysis-app.tsx:108-121 | the map has a key exactly for each representative that occurs, its list holds that representative's records in order, and no list is empty |
| Metrics.PushRecord | qa-analysis-app.tsx:109-121 | appending one record to its representative's list keeps the grouping exact |
| Metrics.PushRecordKeys | qa-analysis-app.tsx:111-119 | a key is created on a representative's first record and at no other time |
| Metrics.GroupsNonEmpty | qa-analysis-app.tsx:111-121 | in an exact grouping no list is empty |
| Metrics.AgentNames | qa-analysis-app.tsx:134-135 | the sorted keys: strictly increasing, and holding exactly the names that occur |
| Metrics.GroupedCountStep | qa-analysis-app.tsx:109-121 | one more record adds one to the group of its own representative |
| Metrics.OccursOnce | qa-analysis-app.tsx:134-135 | a name occurs exactly once in the sorted key list |
| Metrics.GroupsPartition | qa-analysis-app.tsx:108-135 | the per-representative groups together hold each record exactly once |
| Highlights.Sentences | qa-analysis-app.tsx:188 | the fragments kept after splitting on `.` are non-blank and period-free |
| Highlights.SentencesOfPrefix | qa-analysis-app.tsx:188 | a leading fragment before the first `.` is kept exactly when it is not blank, followed by the sentences of the rest |
| Highlights.SentencesOfLast | qa-analysis-app.tsx:188 | a text without a period is its own only sentence when not blank, and has none when blank; with the previous row this fixes the sentences of every text |
| Highlights.Shorten | qa-analysis-app.tsx:187-191 | a shortened text ends in its only period |
| Highlights.ShortenSentence | qa-analysis-app.tsx:187-191 | a text opening with a non-blank sentence shortens to that sentence and a period; a blank opening fragment is skipped |
| Highlights.ShortenPlain | qa-analysis-app.tsx:187-191 | a text without a period shortens to itself and a period (`Be more concise` gives `Be more concise.`), or to `.` when blank |
| Highlights.ShortenIdempotent | qa-analysis-app.tsx:187-191 | shortening a shortened text changes nothing |
| Highlights.SummarizeText | qa-analysis-app.tsx:182-199 | at most three entries (all of them when there are at most three), each the shortened text at the same position |
| Highlights.SummaryEndsWithPeriod | qa-analysis-app.tsx:190 | every summarised entry ends with a period |
| Highlights.SummarizeIdempotent | qa-analysis-app.tsx:182-199 | summarising a summary gives it back unchanged |
| Highlights.FirstSentence | qa-analysis-app.tsx:157-161 | a win exists exactly when the text has a non-blank fragment, and is then the first such fragment trimmed plus a period, with no other period |
| Highlights.FirstSentenceOf | qa-analysis-app.tsx:157-161 | for a text opening with a non-blank fragment, the win is that fragment trimmed plus a period; a blank opening fragment is skipped |
| Highlights.FirstSentencePlain | qa-analysis-app.tsx:157-161 | a text without a period gives itself trimmed plus a period, and no win when blank |
| Highlights.ShortenWin | qa-analysis-app.tsx:157-161 | a win is already its own first sentence |
| Highlights.Win | qa-analysis-app.tsx:155-162 | no win comes from conversations that all lack the explanation, and a win ends with a period |
| Highlights.WinFromFirst | qa-analysis-app.tsx:155-161 | when conversation `i` is the first excellent one whose explanation is not blank, the win is exactly that explanation's first sentence (or none if it has none) |
| Highlights.GoodWins | qa-analysis-app.tsx:151-173 | at most two wins and none without excellent conversations; the writing win, if any, comes first and the empathy win, if any, last |
| Highlights.SummarizeWins | qa-analysis-app.tsx:151-202 | summarising the wins changes nothing |
| Highlights.SummarizeShort | qa-analysis-app.tsx:186-191 | at most three texts that are already short summarise to themselves |
| Highlights.WinIsShort | qa-analysis-app.tsx:155-162 | a win is unchanged by shortening |
| Highlights.Recommendations | qa-analysis-app.tsx:176-179 | one trimmed, non-blank entry per improvement conversation with focus areas, in order |
| Analysis.FixedAverage | qa-analysis-app.tsx:137-140 | a rendered average is `NaN` for no records, otherwise the formatted sum over the full record count |
| Analysis.IsExcellent | qa-analysis-app.tsx:142-144 | a conversation is excellent exactly when it has `Feedback Overall` and its lower-cased value is `excellent` |
| Analysis.NeedsImprovement | qa-analysis-app.tsx:145-148 | a conversation needs improvement exactly when it has `Feedback Overall` and its lower-cased value is `poor` or `average` |
| Analysis.SubsetsDisjoint | qa-analysis-app.tsx:142-148 | the excellent and improvement subsets together hold at most all of an agent's conversations |
| Analysis.Fixed | qa-analysis-app.tsx:216-219 | an undefined average renders as `NaN`, a defined one through the formatter |
| Analysis.FixedMean | qa-analysis-app.tsx:63-81 | a rendered mean is `NaN` for no records, otherwise the formatted sum of the parsed values (0 for each missing or unparsed value) over the full record count |
| Analysis.SubsetsAgreeWithBuckets | qa-analysis-app.tsx:142-148 | the excellent and improvement subsets are exactly the Excellent bucket and the Poor or Average buckets, so no record is in both |
| Analysis.WinsOf | qa-analysis-app.tsx:202 | summarising the good wins gives the good wins themselves: at most two, none without excellent conversations, each ending with a period |
| Analysis.RecommendationsOf | qa-analysis-app.tsx:203 | the summarised recommendations are `summarizeText` of the recommendations: at most three, each ending with a period |
| Analysis.SummarizeAgent | qa-analysis-app.tsx:123-225 | the summary carries the name and conversation count; each of its four averages is the field's sum divided by the agent's full conversation count, invalid values counting 0; its excellent and improvement counts are the subset sizes and add up to at most the total; its wins are exactly the good wins of the excellent subset and its recommendations the summary of the improvement subset's recommendations, within the caps of two and three |
| Analysis.NamesHaveGroups | qa-analysis-app.tsx:134-136 | every sorted name has a group, and that group is the name's records |
| Analysis.AgentSummaries | qa-analysis-app.tsx:134-226 | one summary per sorted name, built from that name's records |
| Analysis.Analyze | qa-analysis-app.tsx:61-238 | the team total is the record count; each of the four team averages is `NaN` for no records and otherwise the field's sum over the record count, invalid values included; four distribution entries in bucket order with their counts; one agent per sorted name, built from that name's records |
| Analysis.AgentsFollowNames | qa-analysis-app.tsx:214-220 | the i-th agent carries the i-th sorted name and that name's conversation count |
| Analysis.AgentsSorted | qa-analysis-app.tsx:135 | agent names are strictly increasing, so sorted and distinct |
| Analysis.AgentsCoverRecords | qa-analysis-app.tsx:108-135 | every record's representative has an agent entry |
| Analysis.AgentsOccur | qa-analysis-app.tsx:108-135 | every agent entry comes from some record |
| Analysis.NamesOccur | qa-analysis-app.tsx:108-135 | summaries that follow the sorted names each name a representative of some record |
| Analysis.AgentsNonEmpty | qa-analysis-app.tsx:111-121 | every agent has at least one conversation |
| Analysis.AgentTotalsMatchTeam | qa-analysis-app.tsx:220-234 | the agents' conversation counts add up to the team total |
| Report.Markdown | qa-analysis-app.tsx:245-248 | no analysis gives `''`; otherwise the report opens with the title and a blank line |
| Report.BulletLines | qa-analysis-app.tsx:276-278 | one bullet per non-empty entry, in order, each prefixed with `- ` |
| Report.Bullets | qa-analysis-app.tsx:276-278 | the bullet text is the bullet lines, each ended by a line break |
| Report.WinsText | qa-analysis-app.tsx:274-280 | the Good Wins text is its line list: nothing without wins, otherwise the heading, the bullets and a blank line |
| Report.RecommendationsText | qa-analysis-app.tsx:282-288 | the recommendations text is its line list: nothing without recommendations, otherwise the heading, the bullets and a blank line |
| Report.TitleOpens | qa-analysis-app.tsx:248 | whatever follows, the report text opens with the title and a blank line |
| Report.TeamAsLines | qa-analysis-app.tsx:250-256 | the team overview text is its nine lines |
| Report.MetricsAsLines | qa-analysis-app.tsx:266-272 | an agent's metrics text is its nine lines |
| Report.DistributionAsLines | qa-analysis-app.tsx:259-261 | the distribution text is one line per entry |
| Report.BlockAsLines | qa-analysis-app.tsx:274-288 | a wins or recommendations block is its heading, its bullets and a blank line |
| Report.AgentText | qa-analysis-app.tsx:265-291 | an agent's section text is its lines: metrics, wins and recommendations blocks, the rule and a blank line |
| Report.AgentsAsLines | qa-analysis-app.tsx:265-291 | the agents' text is the sections in agent order |
| Report.DistributionSectionAsLines | qa-analysis-app.tsx:258-262 | the distribution section is its heading, its entries and a blank line |
| Report.ReportAsLines | qa-analysis-app.tsx:250-291 | everything after the title is the concatenated section lines |
| Report.MarkdownAsLines | qa-analysis-app.tsx:245-294 | the whole report text is its line list, each line ended by a line break |
| Report.AgentRule | qa-analysis-app.tsx:290 | each agent's section holds exactly one `---` rule |
| Report.AgentsRules | qa-analysis-app.tsx:265-291 | the agent sections hold one rule per agent |
| Report.RulePerAgent | qa-analysis-app.tsx:245-294 | the report's lines hold exactly as many `---` rules as there are agents |
| Report.WinsHeadingCount | qa-analysis-app.tsx:274-280 | the wins block has a wins heading exactly when there are wins, and never a recommendations heading |
| Report.RecommendationsHeadingCount | qa-analysis-app.tsx:282-288 | the recommendations block has its heading exactly when there are recommendations, and never a wins heading |
| Report.WinsBlockIff | qa-analysis-app.tsx:265-291 | an agent's section has a Good Wins heading exactly when the agent has wins, and then only one |
| Report.RecommendationsBlockIff | qa-analysis-app.tsx:265-291 | an agent's section has a Recommendations heading exactly when the agent has recommendations, and then only one |
| Report.SectionLines | qa-analysis-app.tsx:258-262 | the distribution section is the heading, one line per entry, then a blank line |
| Report.ReportDistributionBlock | qa-analysis-app.tsx:250-262 | the distribution heading follows the nine team lines, then come the entries and a blank line |
| Report.DistributionBlock | qa-analysis-app.tsx:248-262 | the same block at its place in the whole report |
| Report.AnalysisDistributionLines | qa-analysis-app.tsx:102-105 | in the report of an analysis, the lines at 0-based positions 12 to 15 name the buckets Poor, Average, Good and Excellent in order, each with its record count |
| Report.DocLinesNoBreak | qa-analysis-app.tsx:245-294 | when no interpolated value holds a line break, no report line does |
| Report.MarkdownSplitsIntoLines | qa-analysis-app.tsx:245-294 | such a report text, split on line breaks, gives back its lines plus the empty piece after the final break |
| Report.MarkdownRulePerAgent | qa-analysis-app.tsx:290 | such a report text has exactly one `---` line per agent |

## Left out

- File reading (`FileReader`), React state and rendering, the Blob
  download, the clipboard and `console.log` are I/O or UI and are not
  modelled.
- The `try`/`catch` at lines 239-242 is not modelled. The analysis throws
  when a representative is named after a property every JavaScript object
  inherits (`constructor`, `toString`, `valueOf`, `hasOwnProperty`,
  `__proto__` and the like): `agentData[agent]` is then already truthy at
  line 111, so no entry is created, and the `push` at line 121 fails. The
  catch turns the analysis into `null`, and `generateMarkdown` returns `''`.
  `Analysis.Analyze` has no such names and gives a full analysis for them.
- `parseFloat` and `toFixed(1)` are floating-point operations. They are the
  parameters `parse` and `fmt`, and averages are exact reals.
- `localeCompare` is modelled as code-point lexicographic order. The
  locale's collation is host-defined.
- `toLowerCase` is modelled on ASCII letters only. The bucket keys are
  ASCII, and no other character lowercases to one of their letters.
- A header named `__proto__` is not stored as an own key of the row object
  in the source. The model treats it as an ordinary key.
- Report.MarkdownSplitsIntoLines: requires that no interpolated value holds
  a line break. Otherwise a value's own line breaks would split a report
  line.
- Report.MarkdownRulePerAgent: the same requirement, for the same reason.
- The emoji in the headings are kept as the characters the file holds (a
  mis-encoded rendering of the intended emoji).
