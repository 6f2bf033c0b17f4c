# Artemis similarity reports, ortholog table and GFF-tag panel in Dafny

This project models three parts of the Artemis genome browser and proves properties about them.

- **The similarity-report viewer** (`FastaTextPane`).
  - It decides whether a result file is BLASTP or FASTA output.
  - It scans the file once. It copies the lines into the text it shows and creates one hit per summary line.
  - It records the offsets where each hit's alignment block starts and ends in that text.
  - It fills in each hit's fields from the lines of its block: GO terms, identity and length for BLASTP; Smith-Waterman figures and E-value for FASTA.
  - The scanning methods are proved to give exactly what a line-by-line reference function, `ScanReport`, gives, exception included. `ScanReportMeaning` then states what that result means: which line throws, and for each hit, the last line that wrote each field and the last headers that set its start and end.
  - Module `SimilarityReport` (scanner) and module `ReportLines` (single-line field parsers).
- **The ortholog/paralog table** (`OrthoParalogTable`).
  - It decodes the values of the ortholog and paralog qualifiers into table rows. The values are sorted by their `rank` component first.
  - It encodes a row back into a qualifier value.
  - It answers the row-type query and the loose-membership test `containsStringInStringVector`.
  - Module `OrthoParalog`.
- **The GFF-tag panel of the gene builder** (`GffPanel`).
  - It keeps the feature's GFF-tag qualifiers and builds a synonym combo box per synonym qualifier.
  - It supports making a synonym current, adding a synonym, removing a synonym, and replacing the ID.
  - Module `GffQualifiers`. The panel is a class whose fields are the qualifier list and the map of combo boxes.

Shared modules:

- `Wrappers`: `Option` and `Result`.
- `JavaText`: the Java string operations the source relies on.
  - `indexOf`, `startsWith`, `substring`, `trim` and `split`.
  - `StringTokenizer`.
  - `Integer` parsing.
  - `StringVector.getStrings`, which splits on a separator and drops empty pieces.
  - `ArtemisUtils.getString`, which returns the first element starting with a prefix.
- `Qualifiers`: a qualifier (a name and its values), with the list operations of `QualifierVector`.

How Java behaviour is represented:

- A runtime exception the Java code would throw (a null dereference, a `substring` out of range, a failed `Integer` parse, a `nextToken` with no token) becomes a `None` or `Failure` result, or a `false` completion flag.
- Input files are given as their lines.
- Dialog answers and widget selections are parameters.
- A dialog closed from its window frame proceeds like OK. The source only tests for the cancel answer.

The encoder of the ortholog table writes the description without its `description=` key. So a description does not survive the round trip through encoding and decoding. The decoder reads the description only from a component starting with `description=` (uk/ac/sanger/artemis/components/genebuilder/ortholog/OrthoParalogTable.java:136-141), so the encoder is evidently meant to write that key. The model follows the code and records the discrepancy under Findings. The corrected encoder, `EncodeRowKeyed`, is proved to round-trip.

## Model

| member | source | states |
|---|---|---|
| SimilarityReport.ResultsFormat | uk/ac/sanger/artemis/editor/FastaTextPane.java:107-141 | the answer is the format the first deciding line selects (a line starting with "BLASTP" selects BLASTP before a line containing "FASTA" is considered for FASTA); None when no line decides |
| SimilarityReport.DecidesFormatUnique | uk/ac/sanger/artemis/editor/FastaTextPane.java:119-131 | the lines of a file decide at most one format |
| SimilarityReport.OpenReport | uk/ac/sanger/artemis/editor/FastaTextPane.java:52-63 | the format is the one the lines decide; a file no line identifies fails; otherwise the result, report or exception, is exactly what the line-by-line reference scan `ScanReport` of that format gives; a successful scan satisfies `Scanned`, and for FASTA every opened hit is also closed at or after its start |
| SimilarityReport.FindHit | uk/ac/sanger/artemis/editor/FastaTextPane.java:363-375 | None exactly when no hit has the id; otherwise the index of the first hit that has it |
| SimilarityReport.FirstWith | uk/ac/sanger/artemis/editor/FastaTextPane.java:209-215 | the line found lies at or after `from` and contains the pattern |
| SimilarityReport.FirstWithIsFirst | uk/ac/sanger/artemis/editor/FastaTextPane.java:209-215 | no line from `from` up to the one found contains the pattern, and none at all when none is found |
| SimilarityReport.PeekGo | uk/ac/sanger/artemis/editor/FastaTextPane.java:207-215 | the lookahead loop stops at the first line containing "Length", or at the end of the input when there is none, and the GO text it gathers is `Going` of the header's GO text and the lines before that line |
| SimilarityReport.ScanGo | uk/ac/sanger/artemis/editor/FastaTextPane.java:202-219 | fails when no later line contains "Length"; otherwise the GO text gathered from the header and the lines before that line (the text after the first non-empty "GO:" remainder, then every later line); no line is consumed |
| SimilarityReport.ReadBlastp | uk/ac/sanger/artemis/editor/FastaTextPane.java:144-247 | the result, report or exception, equals the reference scan `ScanReport(Blastp, ...)` of the lines; on success the text is every line plus "\n", except the line after the summary header and the blank line closing the summary block; one hit per summary line, in order, named by that line; every opened hit starts at an alignment header naming it; every end offset lies within the text; with at most one summary header every opened hit ends at or after its start |
| SimilarityReport.ReadSummaries | uk/ac/sanger/artemis/editor/FastaTextPane.java:168-178 | after the summary header BLASTP drops one line, then the lines up to the blank one are copied and each becomes a new hit; the blank line is read but not copied; the text offset tracks the copied text; a failure (end of input inside the block) is the reference scan's failure, and on success the reference scan resumes from the returned line in the returned state |
| SimilarityReport.SummaryLines | uk/ac/sanger/artemis/editor/FastaTextPane.java:171-178 | the summary block ends at the first blank line or the end of the input; every line before it is copied and becomes a hit, the scan invariant is kept, and the reference scan of the block resumes from where the loop stops |
| SimilarityReport.BlastpLine | uk/ac/sanger/artemis/editor/FastaTextPane.java:181-228 | the outcome is exactly the reference step `BlastpStep` of the line with its GO lookahead: the exception it throws, or the state it leaves; an alignment header closes the current hit at the offset of the header and opens the hit it names there, then runs the GO lookahead; "Identities = " and "  Length = " lines set fields of the current hit; no hit is added or renamed, and the scan invariant is kept |
| SimilarityReport.ReadFasta | uk/ac/sanger/artemis/editor/FastaTextPane.java:250-356 | the result equals the reference scan `ScanReport(Fasta, ...)`; the same layout promise as for BLASTP with the FASTA summary header, which drops no line; in addition every opened hit is closed at or after its start |
| SimilarityReport.FastaLine | uk/ac/sanger/artemis/editor/FastaTextPane.java:285-337 | the outcome is exactly the reference step `FastaStep` of the line: the exception it throws, or the state it leaves; a FASTA alignment header closes the current hit and opens the one it names at its offset; Smith-Waterman and " E():" lines set the current hit's fields; no hit is added or renamed, and the scan invariant is kept |
| SimilarityReport.CloseBlock | uk/ac/sanger/artemis/editor/FastaTextPane.java:195-196 | closing the current hit at the text position keeps the invariant, and closes every opened hit at or after its start |
| SimilarityReport.OpenBlock | uk/ac/sanger/artemis/editor/FastaTextPane.java:198-199 | the hit a header names is opened at the offset where that header line begins and becomes current |
| SimilarityReport.Finish | uk/ac/sanger/artemis/editor/FastaTextPane.java:233-234 | once the last hit is closed at the end of the text, the report is exactly what the layout of the lines describes |
| SimilarityReport.LineAtOffset | uk/ac/sanger/artemis/editor/FastaTextPane.java:166-230 | line j of the copied lines begins at the sum of the lengths of the lines before it, each plus one, which is how `textPosition` advances |
| SimilarityReport.BlastpStep | uk/ac/sanger/artemis/editor/FastaTextPane.java:181-228 | the reference step of one BLASTP body line: when it succeeds the text grows by the line and "\n", the hit count is unchanged and the current hit stays in range |
| SimilarityReport.BlastpOpen | uk/ac/sanger/artemis/editor/FastaTextPane.java:181-219 | the reference step of a BLASTP alignment header: on success the text grows by the line, no hit is added and the current hit is in range |
| SimilarityReport.BlastpField | uk/ac/sanger/artemis/editor/FastaTextPane.java:221-228 | the reference step of any other BLASTP line: on success the text grows by the line, no hit is added and the current hit is in range |
| SimilarityReport.FastaStep | uk/ac/sanger/artemis/editor/FastaTextPane.java:285-337 | the reference step of one FASTA body line: on success the text grows by the line, no hit is added and the current hit is in range |
| SimilarityReport.BlastpHeader | uk/ac/sanger/artemis/editor/FastaTextPane.java:181-219 | the outcome of a BLASTP alignment header is exactly the reference step `BlastpOpen`: an unknown id or a missing "Length" line is the exception it throws, otherwise the state it leaves; no hit is added or renamed and the scan invariant is kept |
| SimilarityReport.BlastpGo | uk/ac/sanger/artemis/editor/FastaTextPane.java:202-219 | with no later "Length" line the GO lookahead throws; otherwise the current hit gets the GO text when it is not empty and is left alone when it is |
| SimilarityReport.SummaryLine | uk/ac/sanger/artemis/editor/FastaTextPane.java:173-177 | one summary line is copied, advances the text offset by its length plus one, and becomes a new hit (current for BLASTP); the reference scan of the block resumes at the next line |
| SimilarityReport.SummaryBlock | uk/ac/sanger/artemis/editor/FastaTextPane.java:170-178 | a summary block either reaches the end of the input, which is the reference scan's failure, or ends at a blank line, after which the reference scan resumes at the line after it |
| SimilarityReport.ReadLine | uk/ac/sanger/artemis/editor/FastaTextPane.java:164-231 | one turn of the main loop: a failure is the failure of the whole reference scan; on success the reference scan resumes from the returned line in the returned state and the text offset equals the text length |
| SimilarityReport.BodyLine | uk/ac/sanger/artemis/editor/FastaTextPane.java:181-230 | a line that is not a summary header is handled as the reference step of its format handles it: its exception is the exception of the whole scan, otherwise the scan resumes at the next line |
| SimilarityReport.ConsumeMatches | uk/ac/sanger/artemis/editor/FastaTextPane.java:164-231 | one line fails exactly when the event meaning `Fails` says it throws (end of input in a summary block, unknown id, no "Length" line, a cut out of range, no current hit); otherwise the new state again agrees with the meaning of the lines so far |
| SimilarityReport.BlastpHeaderMatches | uk/ac/sanger/artemis/editor/FastaTextPane.java:181-219 | a BLASTP alignment header keeps the state agreeing with the event meaning, and fails exactly when `Fails` says |
| SimilarityReport.BlastpFieldMatches | uk/ac/sanger/artemis/editor/FastaTextPane.java:221-228 | an "Identities" or "Length" line keeps the state agreeing with the event meaning, and fails exactly when `Fails` says |
| SimilarityReport.FastaHeaderMatches | uk/ac/sanger/artemis/editor/FastaTextPane.java:285-295 | a FASTA alignment header keeps the state agreeing with the event meaning, and fails exactly when `Fails` says |
| SimilarityReport.FastaFieldMatches | uk/ac/sanger/artemis/editor/FastaTextPane.java:296-337 | a Smith-Waterman or " E():" line keeps the state agreeing with the event meaning, and fails exactly when `Fails` says |
| SimilarityReport.RunSucceeds | uk/ac/sanger/artemis/editor/FastaTextPane.java:164-231 | the lines applied in order succeed exactly when none of them throws after the lines before it |
| SimilarityReport.RunMatches | uk/ac/sanger/artemis/editor/FastaTextPane.java:164-231 | lines applied in order from a state that agrees with the lines before them end, when they succeed, in a state that agrees with all of them |
| SimilarityReport.RunFromStart | uk/ac/sanger/artemis/editor/FastaTextPane.java:164-231 | from the empty state the scan fails exactly when some line throws, and otherwise ends in a state agreeing with every line |
| SimilarityReport.FinishedMeaning | uk/ac/sanger/artemis/editor/FastaTextPane.java:164-234 | the scan fails exactly when some line throws; otherwise the text is every copied line plus "\n", there is one hit per summary line with its id, each field of a hit is what the last line that wrote it wrote, its start is the offset of the last header naming it, and its end is the offset of the last header met while it was current, or the end of the text when it is current at the end |
| SimilarityReport.ScanReportMeaning | uk/ac/sanger/artemis/editor/FastaTextPane.java:144-356 | the same meaning stated for the reference scan of the lines of a report, for either format |
| SimilarityReport.LastWhereIsLast | uk/ac/sanger/artemis/editor/FastaTextPane.java:195-199 | the last-event search finds nothing exactly when no event qualifies, and what it finds qualifies with no later event qualifying: a later header overrides an earlier one |
| SimilarityReport.LastValueIsLast | uk/ac/sanger/artemis/editor/FastaTextPane.java:221-228 | the value a field ends with is the one written by the last line that wrote that field of that hit |
| SimilarityReport.LastOffsetIsLast | uk/ac/sanger/artemis/editor/FastaTextPane.java:195-199 | a start or end offset is the offset, in the copied text, of the last line that set it |
| SimilarityReport.CopiedAt | uk/ac/sanger/artemis/editor/FastaTextPane.java:166-230 | the text copied before a line is a prefix of the whole text and the line itself follows it there, so an offset names the beginning of its line |
| SimilarityReport.OneSummary | uk/ac/sanger/artemis/editor/FastaTextPane.java:168-178 | when at most one line is a summary header, no line after it is one |
| ReportLines.BlastpHeaderIdOf | uk/ac/sanger/artemis/editor/FastaTextPane.java:183-193 | a header `>ns:acc description` names `acc`: the database prefix up to the colon is dropped |
| ReportLines.BlastpHeaderIdPlain | uk/ac/sanger/artemis/editor/FastaTextPane.java:183-193 | a header `>acc description` without a colon names `acc` |
| ReportLines.BlastpHeaderIdWhole | uk/ac/sanger/artemis/editor/FastaTextPane.java:183-193 | a header with neither space nor colon names the whole line, `>` included |
| ReportLines.FastaHeaderIdOf | uk/ac/sanger/artemis/editor/FastaTextPane.java:287-288 | a FASTA header `>>acc description` names `acc` |
| ReportLines.FastaHeaderIdNoSpace | uk/ac/sanger/artemis/editor/FastaTextPane.java:287-288 | a FASTA header without a space makes the substring throw |
| ReportLines.BlastpIdentityOf | uk/ac/sanger/artemis/editor/FastaTextPane.java:221-225 | on an "Identities = n/m (p%)" line the identity is `p%` trimmed |
| ReportLines.BlastpIdentityAt | uk/ac/sanger/artemis/editor/FastaTextPane.java:221-225 | the identity is the trimmed text between the "(" after the marker and the ")" after that |
| ReportLines.BlastpLengthOf | uk/ac/sanger/artemis/editor/FastaTextPane.java:227-228 | on a "  Length = n" line the length is the rest of the line after the marker |
| ReportLines.Guarded | uk/ac/sanger/artemis/editor/FastaTextPane.java:300-330 | a guarded setter is skipped exactly when its guard fails; it throws exactly when its guard holds and its bounds are out of range; otherwise it sets the (trimmed) text between the bounds |
| ReportLines.SmithWatermanAt | uk/ac/sanger/artemis/editor/FastaTextPane.java:296-331 | on a well-formed Smith-Waterman line the score, identity, ungapped identity, overlap and the two ranges are the text between consecutive markers |
| ReportLines.SmithWatermanNoSemicolon | uk/ac/sanger/artemis/editor/FastaTextPane.java:302-303 | a score with no ";" after it makes the first substring throw |
| ReportLines.SwFieldsAt | uk/ac/sanger/artemis/editor/FastaTextPane.java:300-331 | when the search marks are in order each setter reads the stretch between two consecutive marks |
| ReportLines.FastaEValueOf | uk/ac/sanger/artemis/editor/FastaTextPane.java:333-336 | the E-value is the first token after " E():" |
| ReportLines.FastaEValueMissing | uk/ac/sanger/artemis/editor/FastaTextPane.java:333-336 | only delimiters after " E():" make `nextToken` throw |
| OrthoParalog.Compare | uk/ac/sanger/artemis/components/genebuilder/ortholog/OrthoParalogTable.java:625-652 | the comparison succeeds exactly when both ranks parse, is -1, 0 or 1, negative exactly when the first rank is smaller and zero exactly when they are equal |
| OrthoParalog.CompareReflexive | uk/ac/sanger/artemis/components/genebuilder/ortholog/OrthoParalogTable.java:625-652 | a value compares equal to itself unless its rank throws |
| OrthoParalog.CompareAntisymmetric | uk/ac/sanger/artemis/components/genebuilder/ortholog/OrthoParalogTable.java:625-652 | swapping the arguments negates the comparison, and one fails exactly when the other does |
| OrthoParalog.RankAbsent | uk/ac/sanger/artemis/components/genebuilder/ortholog/OrthoParalogTable.java:630-638 | a value without a component starting with "rank" has rank 0 |
| OrthoParalog.RankOf | uk/ac/sanger/artemis/components/genebuilder/ortholog/OrthoParalogTable.java:630-638 | a value whose first rank component is `rank=n` has rank n |
| OrthoParalog.SortSorted | uk/ac/sanger/artemis/components/genebuilder/ortholog/OrthoParalogTable.java:127 | the sort orders the values by ascending rank |
| OrthoParalog.SortStable | uk/ac/sanger/artemis/components/genebuilder/ortholog/OrthoParalogTable.java:127 | the sort is stable: values of equal rank keep their order |
| OrthoParalog.SortPermutes | uk/ac/sanger/artemis/components/genebuilder/ortholog/OrthoParalogTable.java:127 | the sort is a permutation of its input |
| OrthoParalog.SortValuesFails | uk/ac/sanger/artemis/components/genebuilder/ortholog/OrthoParalogTable.java:127 | sorting throws exactly when there are two or more values and some rank does not parse |
| OrthoParalog.SortValuesOrders | uk/ac/sanger/artemis/components/genebuilder/ortholog/OrthoParalogTable.java:127 | a successful sort returns the values as a stable permutation ordered by rank |
| OrthoParalog.RankedPermutation | uk/ac/sanger/artemis/components/genebuilder/ortholog/OrthoParalogTable.java:127 | a permutation of values whose ranks all parse has ranks that all parse |
| OrthoParalog.EntryColumns | uk/ac/sanger/artemis/components/genebuilder/ortholog/OrthoParalogTable.java:163-197 | a decoded gene entry has the organism before the first ":", the gene text trimmed and the link after "link=" trimmed, with the shared columns of its value |
| OrthoParalog.EntryWithoutLink | uk/ac/sanger/artemis/components/genebuilder/ortholog/OrthoParalogTable.java:163-175 | an entry without "link=" makes decoding throw |
| OrthoParalog.EntriesFail | uk/ac/sanger/artemis/components/genebuilder/ortholog/OrthoParalogTable.java:159-199 | decoding a value's entries throws exactly when one entry throws |
| OrthoParalog.EntriesRows | uk/ac/sanger/artemis/components/genebuilder/ortholog/OrthoParalogTable.java:159-199 | otherwise there is one row per entry, in order, each the entry's own row |
| OrthoParalog.OneRowPerEntry | uk/ac/sanger/artemis/components/genebuilder/ortholog/OrthoParalogTable.java:131-199 | a decoded value gives one row per comma-separated gene entry of its first component, all sharing the description, cluster name and match name read from the other components |
| OrthoParalog.KeyedPartOf | uk/ac/sanger/artemis/components/genebuilder/ortholog/OrthoParalogTable.java:135-157 | a keyed column is the text after the key of the first component that starts with it, and empty when the value has one component or none starts with the key |
| OrthoParalog.ValuesTyped | uk/ac/sanger/artemis/components/genebuilder/ortholog/OrthoParalogTable.java:186-197 | every row of a qualifier's values carries the qualifier name in its hidden column and "O" or "P" by that name |
| OrthoParalog.QualifiersTyped | uk/ac/sanger/artemis/components/genebuilder/ortholog/OrthoParalogTable.java:121-201 | every row of the table carries "O" exactly when its hidden term is the ortholog qualifier name |
| OrthoParalog.QualifierRowOrder | uk/ac/sanger/artemis/components/genebuilder/ortholog/OrthoParalogTable.java:121-201 | a qualifier's rows are the decoding of its values sorted by rank, and that sort is ordered, a permutation and stable |
| OrthoParalog.QualifierBadRank | uk/ac/sanger/artemis/components/genebuilder/ortholog/OrthoParalogTable.java:127 | two or more values with an unparseable rank make the table's construction throw |
| OrthoParalog.EntryRows | uk/ac/sanger/artemis/components/genebuilder/ortholog/OrthoParalogTable.java:159-199 | the entry loop builds exactly the rows the decoding defines |
| OrthoParalog.ValueRows | uk/ac/sanger/artemis/components/genebuilder/ortholog/OrthoParalogTable.java:131-199 | the value body builds exactly the rows the decoding of that value defines |
| OrthoParalog.QualifierRows | uk/ac/sanger/artemis/components/genebuilder/ortholog/OrthoParalogTable.java:124-200 | the middle loop sorts and decodes exactly as `DecodeQualifier` defines |
| OrthoParalog.BuildRows | uk/ac/sanger/artemis/components/genebuilder/ortholog/OrthoParalogTable.java:95-201 | the table's rows are the decoding of the ortholog qualifier, then the paralog one, each when present |
| OrthoParalog.EncodedTokens | uk/ac/sanger/artemis/components/genebuilder/ortholog/OrthoParalogTable.java:347-370 | the components of an encoded row are the gene entry, then each non-empty optional column, then `rank=row` |
| OrthoParalog.EncodedGetString | uk/ac/sanger/artemis/components/genebuilder/ortholog/OrthoParalogTable.java:347-370 | the first component of an encoded row carrying a key is the optional column with that key, or the rank |
| OrthoParalog.DecodeEncoded | uk/ac/sanger/artemis/components/genebuilder/ortholog/OrthoParalogTable.java:347-370 | decoding an encoded row gives back the row, except that its description is whatever the decoder finds after "description=" |
| OrthoParalog.EncodeRowKeyedRoundTrip | uk/ac/sanger/artemis/components/genebuilder/ortholog/OrthoParalogTable.java:347-370 | with the description written under its key, decoding an encoded row gives back that row and its rank is the row index |
| OrthoParalog.EncodeRowLosesDescription | uk/ac/sanger/artemis/components/genebuilder/ortholog/OrthoParalogTable.java:355-357 | the encoder as written loses a non-empty description: decoding gives the row with an empty description |
| OrthoParalog.EncodeRowRank | uk/ac/sanger/artemis/components/genebuilder/ortholog/OrthoParalogTable.java:367 | the encoder as written writes the row index as the rank |
| OrthoParalog.ClusterRoundTrip | uk/ac/sanger/artemis/components/genebuilder/ortholog/OrthoParalogTable.java:359-361 | the cluster name survives encoding and decoding |
| OrthoParalog.MatchRoundTrip | uk/ac/sanger/artemis/components/genebuilder/ortholog/OrthoParalogTable.java:363-365 | the match name survives encoding and decoding |
| OrthoParalog.RankRoundTrip | uk/ac/sanger/artemis/components/genebuilder/ortholog/OrthoParalogTable.java:367 | the comparator reads the row index back from an encoded row |
| OrthoParalog.IsRowOfType | uk/ac/sanger/artemis/components/genebuilder/ortholog/OrthoParalogTable.java:379-386 | defined exactly for rows of the table, true exactly when the row's hidden term equals the name |
| OrthoParalog.RowTypeAgrees | uk/ac/sanger/artemis/components/genebuilder/ortholog/OrthoParalogTable.java:379-386 | in a decoded table a row is of the ortholog type exactly when its type column says "O" |
| OrthoParalog.ContainsStringInStringVector | uk/ac/sanger/artemis/components/genebuilder/ortholog/OrthoParalogTable.java:395-447 | fails exactly when the query has no component; otherwise true exactly when some candidate has as many components, a primary value containing or contained in the query's, and the same cluster name |
| OrthoParalog.LooseMatchSelf | uk/ac/sanger/artemis/components/genebuilder/ortholog/OrthoParalogTable.java:395-447 | a value is found in a list holding it when its first "cluster" component is its cluster name |
| OrthoParalog.LooseMatchIgnoresRank | uk/ac/sanger/artemis/components/genebuilder/ortholog/OrthoParalogTable.java:431-436 | candidates differing only in their trailing rank component match alike |
| JavaText.IndexOfItem | uk/ac/sanger/artemis/components/genebuilder/gff/GffPanel.java:157 | -1 exactly when no element equals the item; otherwise the position of the first that does |
| Qualifiers.IndexOfName | uk/ac/sanger/artemis/components/genebuilder/gff/GffPanel.java:184 | -1 exactly when no qualifier has the name; otherwise the position of the first that has it |
| Qualifiers.RemoveAt | uk/ac/sanger/artemis/components/genebuilder/gff/GffPanel.java:185 | the list without the qualifier at the index, the rest in order |
| Qualifiers.IndexOfReplaced | uk/ac/sanger/artemis/components/genebuilder/gff/GffPanel.java:184-186 | replacing the first qualifier of a name by one of the same name keeps it first |
| Qualifiers.IndexOfAppended | uk/ac/sanger/artemis/components/genebuilder/gff/GffPanel.java:524-528 | a qualifier appended under a new name is found at the end |
| Qualifiers.ReplaceInPlace | uk/ac/sanger/artemis/components/genebuilder/gff/GffPanel.java:185-186 | removing at an index and adding at the same index replaces the qualifier in place |
| GffQualifiers.GffTagsKeeps | uk/ac/sanger/artemis/components/genebuilder/gff/GffPanel.java:389-396 | the filter keeps exactly the qualifiers whose name is a GFF tag |
| GffQualifiers.GffTagsAppend | uk/ac/sanger/artemis/components/genebuilder/gff/GffPanel.java:389-396 | the filter keeps the qualifiers in their order |
| GffQualifiers.GffTagsIdempotent | uk/ac/sanger/artemis/components/genebuilder/gff/GffPanel.java:80-92 | filtering twice is filtering once |
| GffQualifiers.DisplayOrder | uk/ac/sanger/artemis/components/genebuilder/gff/GffPanel.java:121-133 | the combo box items built by the loop are `DisplayItems` of the values |
| GffQualifiers.DisplayItemsSplit | uk/ac/sanger/artemis/components/genebuilder/gff/GffPanel.java:121-133 | the items are the single-component values, last first, then the first components of the others, in order |
| GffQualifiers.DisplayItemsLength | uk/ac/sanger/artemis/components/genebuilder/gff/GffPanel.java:121-133 | one item per value |
| GffQualifiers.SinglesMembers | uk/ac/sanger/artemis/components/genebuilder/gff/GffPanel.java:129-132 | a value is among the current synonyms exactly when it has at most one component |
| GffQualifiers.CurrentShownFirst | uk/ac/sanger/artemis/components/genebuilder/gff/GffPanel.java:121-151 | when there is a current synonym, the item selected at index 0 is the last current value |
| GffQualifiers.Retag | uk/ac/sanger/artemis/components/genebuilder/gff/GffPanel.java:169-183 | fails exactly when a value has no component; otherwise gives `Retagged` of the values |
| GffQualifiers.RetaggedAt | uk/ac/sanger/artemis/components/genebuilder/gff/GffPanel.java:173-183 | each value is rewritten in place and the number of values is kept |
| GffQualifiers.MarkedComponents | uk/ac/sanger/artemis/components/genebuilder/gff/GffPanel.java:180 | a component followed by ";current=false" splits into itself and "current=false" |
| GffQualifiers.RewrittenFirst | uk/ac/sanger/artemis/components/genebuilder/gff/GffPanel.java:176-180 | a rewritten value keeps its first component and is bare exactly when that component is the selection |
| GffQualifiers.RetaggedTwice | uk/ac/sanger/artemis/components/genebuilder/gff/GffPanel.java:169-187 | rewriting for one selection and then another equals rewriting for the second alone |
| GffQualifiers.RetaggedIdempotent | uk/ac/sanger/artemis/components/genebuilder/gff/GffPanel.java:169-187 | rewriting twice for the same selection equals rewriting once |
| GffQualifiers.RetaggedSingles | uk/ac/sanger/artemis/components/genebuilder/gff/GffPanel.java:173-183 | after the rewrite every bare value is the selection |
| GffQualifiers.RetaggedKeepsSelection | uk/ac/sanger/artemis/components/genebuilder/gff/GffPanel.java:177-178 | the selection stays among the current synonyms when some value starts with it |
| GffQualifiers.RetaggedShownFirst | uk/ac/sanger/artemis/components/genebuilder/gff/GffPanel.java:121-187 | after the rewrite, the rebuilt combo box shows the selection first |
| GffQualifiers.MarkOthers | uk/ac/sanger/artemis/components/genebuilder/gff/GffPanel.java:532-545 | fails exactly when a value has no component; otherwise gives `MarkAll` of the values |
| GffQualifiers.MarkAllAt | uk/ac/sanger/artemis/components/genebuilder/gff/GffPanel.java:534-545 | each value is marked in place and the number of values is kept |
| GffQualifiers.NoDoubleMarker | uk/ac/sanger/artemis/components/genebuilder/gff/GffPanel.java:540-542 | marking never puts a second ";current=false" on a value |
| GffQualifiers.MarkAllMeaning | uk/ac/sanger/artemis/components/genebuilder/gff/GffPanel.java:534-545 | without "make current" nothing changes; with it, every value not starting with the new synonym ends in ";current=false" and the others are kept |
| GffQualifiers.NewSynonymStaysCurrent | uk/ac/sanger/artemis/components/genebuilder/gff/GffPanel.java:520-545 | a new synonym added as current stays bare |
| GffQualifiers.StoredTwice | uk/ac/sanger/artemis/components/genebuilder/gff/GffPanel.java:524-554 | storing new values where a qualifier was just stored overwrites it |
| GffQualifiers.CombosStep | uk/ac/sanger/artemis/components/genebuilder/gff/GffPanel.java:115-149 | one more qualifier adds or replaces the combo box of its name exactly when it is a synonym qualifier |
| GffQualifiers.DisplayedPrefix | uk/ac/sanger/artemis/components/genebuilder/gff/GffPanel.java:115-151 | the combo box loop gets through a prefix of the list: all of it when every synonym qualifier has a value, otherwise up to and including the first one without values |
| GffQualifiers.DisplayedUpTo | uk/ac/sanger/artemis/components/genebuilder/gff/GffPanel.java:124-150 | the loop stops right after the first synonym qualifier without values |
| GffQualifiers.CombosBuilt | uk/ac/sanger/artemis/components/genebuilder/gff/GffPanel.java:115-151 | there is a combo box for each synonym qualifier name and no other, each built fresh from a qualifier of that name |
| GffQualifiers.SynonymTypes | uk/ac/sanger/artemis/components/genebuilder/gff/GffPanel.java:430-437 | every type offered for removal is a synonym tag with a qualifier in the list |
| GffQualifiers.ReplaceIdSettles | uk/ac/sanger/artemis/components/genebuilder/gff/GffPanel.java:412-424 | the ID text goes to the end as the only ID value and the rest keep their order; asking again with the same text changes nothing |
| GffQualifiers.ReplaceIdUnedited | uk/ac/sanger/artemis/components/genebuilder/gff/GffPanel.java:413-415 | an empty text or the current ID leaves the list unchanged |
| GffQualifiers.GffPanel.constructor | uk/ac/sanger/artemis/components/genebuilder/gff/GffPanel.java:381-402 | the panel keeps the GFF-tag qualifiers of the feature and builds the combo boxes the display reaches |
| GffQualifiers.GffPanel.UpdateFromFeature | uk/ac/sanger/artemis/components/genebuilder/gff/GffPanel.java:381-402 | the panel's list is the GFF-tag qualifiers of the feature in order; combo boxes are added or replaced for the synonym qualifiers the display reaches; the display succeeds exactly when no synonym qualifier lacks values and its reads of ID, feature_id and timelastmodified do not throw |
| GffQualifiers.GffPanel.ShowQualifiers | uk/ac/sanger/artemis/components/genebuilder/gff/GffPanel.java:94-344 | adds or replaces a fresh combo box per synonym qualifier up to the first one without values, whose item 0 cannot be selected; succeeds exactly when no synonym qualifier lacks values and the reads of ID, feature_id and timelastmodified do not throw |
| GffQualifiers.GffPanel.BuildCombos | uk/ac/sanger/artemis/components/genebuilder/gff/GffPanel.java:115-151 | the combo boxes stored are those of the qualifiers the loop reaches; the loop completes exactly when every synonym qualifier has a value |
| GffQualifiers.GffPanel.PutCombo | uk/ac/sanger/artemis/components/genebuilder/gff/GffPanel.java:121-150 | the qualifier's combo box is stored under its name with its display items, index 0 selected and current; selecting item 0 succeeds exactly when the qualifier has a value |
| GffQualifiers.GffPanel.SelectSynonym | uk/ac/sanger/artemis/components/genebuilder/gff/GffPanel.java:155-189 | the selection is the first item equal to the picked one; selecting the current item changes nothing; Cancel restores the selection; otherwise the qualifier of that name is replaced in place by the rewritten values and the selection becomes current; a value with no component throws |
| GffQualifiers.GffPanel.AddSynonym | uk/ac/sanger/artemis/components/genebuilder/gff/GffPanel.java:484-558 | Cancel or an empty text changes nothing; otherwise the new value is appended to the first qualifier of the type (or a new one at the end), then the values are marked in place |
| GffQualifiers.GffPanel.StoreSynonym | uk/ac/sanger/artemis/components/genebuilder/gff/GffPanel.java:518-530 | the new value goes onto the first qualifier of the name, or into a new qualifier at the end, which is then found at that place |
| GffQualifiers.GffPanel.RemoveSynonym | uk/ac/sanger/artemis/components/genebuilder/gff/GffPanel.java:428-482 | Cancel or no type changes nothing; a qualifier with one value is removed; otherwise the first value equal to the picked one, the one the list reports as selected, is removed and the qualifier keeps its place |
| GffQualifiers.GffPanel.CollectSynonymTypes | uk/ac/sanger/artemis/components/genebuilder/gff/GffPanel.java:430-437 | the loop offers exactly `SynonymTypes` of the list, the synonym names in list order, and changes nothing |
| GffQualifiers.GffPanel.RemoveValue | uk/ac/sanger/artemis/components/genebuilder/gff/GffPanel.java:472-476 | the qualifier at the index loses the value at the given position and stays in its place; every other qualifier is unchanged |
| GffQualifiers.GffPanel.GetGffQualifiers | uk/ac/sanger/artemis/components/genebuilder/gff/GffPanel.java:408-425 | the list after the call is `ReplaceId` of the list before; unchanged when there is no ID value to read |
## Left out

- File access, gzip input and `getInputStream` are not modelled. The reports are given as sequences of lines. An `IOException` is not modelled.
- `GetzThread`, which fetches database entries for the hits once the scan ends, is not modelled. It is a background thread over the network.
- `HitInfo` is not part of this model. The id its constructor reads from a summary line is the parameter `summaryId`. Its setters are modelled as field updates.
- The `mark(210)` read-ahead limit of the BLASTP GO lookahead is not modelled. The lookahead may peek any number of lines.
- `SimilarityReport.ReadBlastp`: start and end offsets are promised to pair up only when at most one line is a summary header. A second summary block replaces the current hit without closing it.
- `ReportLines.SmithWatermanAt`: the Smith-Waterman fields are stated over the positions where the source's searches land, not over a concrete report line.
- `MatchPanel` is not part of this model. The ortholog qualifier name it defines (`MatchPanel.ORTHOLOG`) is the parameter `ortholog`.
- `QualifierVector`, `Qualifier`, `StringVector`, `ArtemisUtils` and `ChadoTransactionManager` are not part of this model. Their assumed behaviour:
  - lookup by name and `indexOfQualifierWithName` find the first qualifier of the name;
  - `removeQualifierByName` removes that first qualifier;
  - `add` appends;
  - `addValue` appends a value;
  - `isSynonymTag` is membership in a set of names fixed for the panel.
- JavaText.ParseInt: accepts an optional sign and ASCII digits within the 32-bit range only. Java's `Integer` also accepts non-ASCII digits.
- `OrthoParalog.Compare` is modelled, and the sort it drives is modelled as a stable insertion sort with the same result as `Collections.sort`. The in-place reordering of the qualifier's value list is not modelled: the rows are built from a sorted copy.
- Table cells holding `null`, table sorting by the user, column layout and the `AbstractMatchTable` machinery are not modelled. Row cells are strings.
- Swing layout, labels, listeners, repainting and the text field widgets are not modelled.
- `DatabaseDocument.getCvterms`, which lists the synonym types offered by `addSynonym`, is not modelled: it is a database query. The chosen type name is a parameter.
- Feature change listeners (`featureChanged`, adding and removing the panel as a listener) are not modelled.
- `GffQualifiers.GffPanel.AddSynonym`: the branch that calls `setQualifier` when the qualifier cannot be found after storing the new value is not modelled. The value has just been stored under that name, so the lookup always succeeds.
- `GffQualifiers.GffPanel.SelectSynonym`: the combo box keeps the qualifier it was built from, as the Java listener does. Updates made in place to that shared qualifier object by `addValue` are not modelled: the model works on values, not object identity.
- The combo box datatype `Combo` holds the selected and current index of a synonym combo box. Artemis's `JExtendedComboBox` (uk/ac/sanger/artemis/components/genebuilder/JExtendedComboBox.java) defines no `setCurrent`/`getCurrent`, so their behaviour is taken from their names: they store and return an index.
- `GffQualifiers.GffPanel.constructor`: the panel is built even where the display would throw, at a synonym qualifier without values or on reading ID, feature_id or timelastmodified. `UpdateFromFeature` reports that case.
- `GffQualifiers.GffPanel.ShowQualifiers`: a synonym qualifier whose value list is null, rather than empty, throws before its combo box is stored. The model has no null lists; it stores the empty combo box and then stops.
- `GffQualifiers.GffPanel.SelectSynonym`: with two synonym qualifiers of one name, both combo boxes are shown, but the panel's table keeps only the later one. The model lets the user act on that one only; the earlier combo box's actions are not modelled.
- The ID, Parent, Derives_from, feature_id and timelastmodified text fields of the display are not modelled beyond whether reading them throws. They are only shown. The ID field's text is the parameter of `GetGffQualifiers`.
- Printing to standard output (`System.out.println`) is not modelled.
- Strings are sequences of Unicode scalar values, while Java's `length`, `substring` and `indexOf` count UTF-16 code units. Text offsets (`textPosition`, hit starts and ends) and every `substring` cut (header ids, keyed parts, the rank strip) agree with Java only on text within the Basic Multilingual Plane.

## Findings

| source | as written | input that shows it | evidently intended | confidence | as-written member | corrected member |
|---|---|---|---|---|---|---|
| uk/ac/sanger/artemis/components/genebuilder/ortholog/OrthoParalogTable.java:355-357 | `updateQualifierString` appends the description without the `description=` key that the decoder looks for | a row with gene `Pf:PF10_0001`, link `Pf:PF10_0001` and description `kinase` is encoded as `Pf:PF10_0001 link=Pf:PF10_0001;kinase;rank=0`, which decodes with an empty description | append `"description=" + description + ";"` | not executed | OrthoParalog.EncodeRowLosesDescription | OrthoParalog.EncodeRowKeyedRoundTrip |
