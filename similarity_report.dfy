/**
 * The similarity-report scanner of the sequence-similarity viewer
 * (`FastaTextPane`): it decides whether a result file is BLASTP or FASTA
 * output, then walks its lines once, copying them into the text the viewer
 * shows, creating one hit per summary line and recording, for every alignment
 * block, the offsets in that text where the block begins and ends, while
 * filling the hit's fields from the lines of the block.
 *
 * The file is given as its lines (what `BufferedReader.readLine` would
 * return, in order).  Reading a line advances an index into them; running
 * past the last line where the source dereferences the line is the
 * NullPointerException the source would throw, and every other runtime
 * exception of the source is a `Failure` as well.
 */
module SimilarityReport {
  import opened Wrappers
  import opened JavaText
  import opened ReportLines

  datatype Format = Fasta | Blastp

  /** One alignment result; a field is None until the scan sets it. */
  datatype Hit = Hit(
    id: string,
    start: Option<nat>,
    end: Option<nat>,
    score: Option<string>,
    identity: Option<string>,
    ungapped: Option<string>,
    overlap: Option<string>,
    queryRange: Option<string>,
    subjectRange: Option<string>,
    length: Option<string>,
    eValue: Option<string>,
    go: Option<string>)

  /** A hit as the summary line creates it: only its id is known. */
  function NewHit(id: string): Hit {
    Hit(id, None, None, None, None, None, None, None, None, None, None, None)
  }

  /** The text shown by the viewer and the hits indexing it. */
  datatype Report = Report(text: string, hits: seq<Hit>)

  datatype ScanError =
    | EndOfInput          // a line was dereferenced after the last one
    | UnknownHit(id: string)  // no summary hit carries the id of an alignment header
    | NoHit               // a field line came before any hit was current
    | BadIndex            // a substring with out-of-range bounds
    | NoToken             // no token after " E():"
    | NoFormat            // the file is neither BLASTP nor FASTA output

  // ------------------------------------------------------- format detection

  predicate IsBlastpLine(line: string) { StartsWith(line, "BLASTP") }

  predicate IsFastaLine(line: string) { Contains(line, "FASTA") }

  predicate IsFormatLine(line: string) { IsBlastpLine(line) || IsFastaLine(line) }

  /** The format a deciding line selects; the BLASTP test comes first. */
  function LineFormat(line: string): Format
    requires IsFormatLine(line)
  {
    if IsBlastpLine(line) then Blastp else Fasta
  }

  /** `f` is what the first deciding line of `lines` selects, None when no line decides. */
  predicate DecidesFormat(lines: seq<string>, f: Option<Format>) {
    match f
    case None => forall i :: 0 <= i < |lines| ==> !IsFormatLine(lines[i])
    case Some(g) =>
      exists i :: 0 <= i < |lines| && IsFormatLine(lines[i]) && LineFormat(lines[i]) == g &&
                  forall j :: 0 <= j < i ==> !IsFormatLine(lines[j])
  }

  /** At most one answer is the one the lines decide. */
  lemma DecidesFormatUnique(lines: seq<string>, f: Option<Format>, g: Option<Format>)
    requires DecidesFormat(lines, f) && DecidesFormat(lines, g)
    ensures f == g
  {
    if f.Some? && g.Some? {
      var i :| 0 <= i < |lines| && IsFormatLine(lines[i]) && LineFormat(lines[i]) == f.value &&
               forall j :: 0 <= j < i ==> !IsFormatLine(lines[j]);
      var k :| 0 <= k < |lines| && IsFormatLine(lines[k]) && LineFormat(lines[k]) == g.value &&
               forall j :: 0 <= j < k ==> !IsFormatLine(lines[j]);
      assert !(i < k) && !(k < i);
    }
  }

  /** `getResultsFormat`: scan the lines until one decides the format. */
  method ResultsFormat(lines: seq<string>) returns (f: Option<Format>)
    ensures DecidesFormat(lines, f)
  {
    var i := 0;
    while i < |lines|
      invariant 0 <= i <= |lines|
      invariant forall j :: 0 <= j < i ==> !IsFormatLine(lines[j])
    {
      var line := lines[i];
      if StartsWith(line, "BLASTP") {
        return Some(Blastp);
      } else if Contains(line, "FASTA") {
        return Some(Fasta);
      }
      i := i + 1;
    }
    return None;
  }

  // ------------------------------------------------ which lines are copied

  const BLASTP_SUMMARY: string := "Sequences producing significant alignments:"
  const FASTA_SUMMARY: string := "The best scores are:"

  /** The line that opens a block of one-line hit summaries. */
  function SummaryHeader(f: Format): string {
    match f
    case Blastp => BLASTP_SUMMARY
    case Fasta => FASTA_SUMMARY
  }

  predicate IsSummaryHeader(f: Format, line: string) {
    StartsWith(line, SummaryHeader(f))
  }

  /** Lines read after the summary header before the summaries begin, and not copied. */
  function Skipped(f: Format): nat {
    match f
    case Blastp => 1
    case Fasta => 0
  }

  /** The copied lines and the summary lines among them. */
  datatype Shape = Shape(copied: seq<string>, summaries: seq<string>)

  /**
   * What a scan does with `ls`, the lines left at the top of the main loop:
   * every line is copied, except that after a summary header the skipped line
   * is dropped and the summary lines that follow are copied and become hits up
   * to the blank line that closes the block, which is dropped too.
   */
  function Layout(f: Format, ls: seq<string>): Shape
    decreases |ls|
  {
    if ls == [] then Shape([], [])
    else if IsSummaryHeader(f, ls[0]) then
      var block := SummaryLayout(f, ls[Min(1 + Skipped(f), |ls|)..]);
      Shape([ls[0]] + block.copied, block.summaries)
    else
      var rest := Layout(f, ls[1..]);
      Shape([ls[0]] + rest.copied, rest.summaries)
  }

  /** What a scan does with `ls`, the lines left inside a summary block. */
  function SummaryLayout(f: Format, ls: seq<string>): Shape
    decreases |ls|
  {
    if ls == [] then Shape([], [])
    else if ls[0] == "" then Layout(f, ls[1..])
    else
      var rest := SummaryLayout(f, ls[1..]);
      Shape([ls[0]] + rest.copied, [ls[0]] + rest.summaries)
  }

  function Min(a: nat, b: nat): nat { if a < b then a else b }

  /** Lines followed by a newline each, as the scan appends them to its text. */
  function Joined(ls: seq<string>): string {
    if ls == [] then "" else Joined(ls[..|ls| - 1]) + ls[|ls| - 1] + "\n"
  }

  lemma JoinedAppend(ls: seq<string>, l: string)
    ensures Joined(ls + [l]) == Joined(ls) + l + "\n"
  {
    assert (ls + [l])[..|ls|] == ls;
  }

  lemma {:induction false} JoinedPrefix(ls: seq<string>, j: nat)
    requires j <= |ls|
    ensures |Joined(ls[..j])| <= |Joined(ls)|
    ensures Joined(ls)[..|Joined(ls[..j])|] == Joined(ls[..j])
    decreases |ls| - j
  {
    if j == |ls| {
      assert ls[..j] == ls;
    } else {
      JoinedPrefix(ls, j + 1);
      assert ls[..j + 1][..j] == ls[..j];
      assert Joined(ls[..j + 1]) == Joined(ls[..j]) + ls[j] + "\n";
    }
  }

  /** Line `j` of `ls` sits in `Joined(ls)` at offset |Joined(ls[..j])|, at the start of a line. */
  lemma {:induction false} LineAtOffset(ls: seq<string>, j: nat)
    requires j < |ls|
    ensures var s := |Joined(ls[..j])|;
      s + |ls[j]| + 1 <= |Joined(ls)| &&
      Joined(ls)[s..s + |ls[j]| + 1] == ls[j] + "\n" &&
      (s == 0 || Joined(ls)[s - 1] == '\n')
  {
    JoinedPrefix(ls, j + 1);
    assert ls[..j + 1][..j] == ls[..j];
    var s := |Joined(ls[..j])|;
    assert Joined(ls[..j + 1]) == Joined(ls[..j]) + ls[j] + "\n";
    if j > 0 {
      assert ls[..j][..j - 1] == ls[..j - 1];
      assert Joined(ls[..j]) == Joined(ls[..j - 1]) + ls[j - 1] + "\n";
    }
  }

  // ------------------------------------------------------------ block headers

  /** A line that starts an alignment block. */
  predicate IsBlockHeader(f: Format, line: string) {
    match f
    case Blastp => StartsWith(line, ">")
    case Fasta => StartsWith(line, ">>")
  }

  function HeaderId(f: Format, line: string): Option<string> {
    match f
    case Blastp => if StartsWith(line, ">") then Some(BlastpHeaderId(line)) else None
    case Fasta => FastaHeaderId(line)
  }

  // ------------------------------------------------------ what a scan promises

  /** Offset `s` of `Joined(copied)` is where a header line naming `id` begins. */
  predicate OpensAt(f: Format, copied: seq<string>, s: nat, id: string) {
    exists j :: 0 <= j < |copied| && s == |Joined(copied[..j])| &&
                IsBlockHeader(f, copied[j]) && HeaderId(f, copied[j]) == Some(id)
  }

  /** Every hit with a start offset starts at a header line naming it. */
  predicate Indexed(f: Format, copied: seq<string>, hits: seq<Hit>) {
    forall k :: 0 <= k < |hits| && hits[k].start.Some? ==> OpensAt(f, copied, hits[k].start.value, hits[k].id)
  }

  lemma IndexedGrows(f: Format, copied: seq<string>, l: string, hits: seq<Hit>)
    requires Indexed(f, copied, hits)
    ensures Indexed(f, copied + [l], hits)
  {
    forall k | 0 <= k < |hits| && hits[k].start.Some?
      ensures OpensAt(f, copied + [l], hits[k].start.value, hits[k].id)
    {
      var j :| 0 <= j < |copied| && hits[k].start.value == |Joined(copied[..j])| &&
               IsBlockHeader(f, copied[j]) && HeaderId(f, copied[j]) == Some(hits[k].id);
      assert (copied + [l])[..j] == copied[..j];
      assert (copied + [l])[j] == copied[j];
    }
  }

  /** Every end offset lies within the text. */
  predicate EndsWithin(hits: seq<Hit>, n: nat) {
    forall k :: 0 <= k < |hits| && hits[k].end.Some? ==> hits[k].end.value <= n
  }

  /**
   * Every hit that has been opened and is not the current one has been closed
   * after it was opened; the current one was opened at or before `n`.
   */
  predicate Paired(hits: seq<Hit>, cur: Option<nat>, n: nat) {
    && (forall k :: 0 <= k < |hits| && hits[k].start.Some? && cur != Some(k) ==>
          hits[k].end.Some? && hits[k].start.value <= hits[k].end.value)
    && (cur.Some? && cur.value < |hits| && hits[cur.value].start.Some? ==> hits[cur.value].start.value <= n)
  }

  /** Every opened hit has an end offset at or after its start offset. */
  predicate Closed(hits: seq<Hit>) {
    forall k :: 0 <= k < |hits| && hits[k].start.Some? ==>
      hits[k].end.Some? && hits[k].start.value <= hits[k].end.value
  }

  /** What a completed scan promises about its report, given the copied and summary lines. */
  predicate ScannedAs(f: Format, shape: Shape, summaryId: string -> string, rep: Report) {
    && rep.text == Joined(shape.copied)
    && |rep.hits| == |shape.summaries|
    && (forall k :: 0 <= k < |rep.hits| ==> rep.hits[k].id == summaryId(shape.summaries[k]))
    && Indexed(f, shape.copied, rep.hits)
    && EndsWithin(rep.hits, |rep.text|)
  }

  /** What a completed scan of `lines` promises about the report it returns. */
  predicate Scanned(f: Format, lines: seq<string>, summaryId: string -> string, rep: Report) {
    ScannedAs(f, Layout(f, lines), summaryId, rep)
  }

  /** No two lines of `lines` are summary headers. */
  predicate AtMostOneSummary(f: Format, lines: seq<string>) {
    forall i, j :: 0 <= i < j < |lines| && IsSummaryHeader(f, lines[i]) ==> !IsSummaryHeader(f, lines[j])
  }

  // ------------------------------------------------------------ hit lookup

  /** `getHitInfo`: the first hit with the given id, or None. */
  method FindHit(id: string, hits: seq<Hit>) returns (k: Option<nat>)
    ensures k.None? <==> forall i :: 0 <= i < |hits| ==> hits[i].id != id
    ensures k.Some? ==> k.value < |hits| && hits[k.value].id == id &&
                        forall i :: 0 <= i < k.value ==> hits[i].id != id
    ensures k == if IndexOfItem(HitIds(hits), id) == -1 then None else Some(IndexOfItem(HitIds(hits), id))
  {
    var i := 0;
    while i < |hits|
      invariant 0 <= i <= |hits|
      invariant forall j :: 0 <= j < i ==> hits[j].id != id
    {
      if hits[i].id == id {
        return Some(i);
      }
      i := i + 1;
    }
    return None;
  }

  /** Close the current hit, if any, at offset `n`. */
  function CloseCurrent(hits: seq<Hit>, cur: Option<nat>, n: nat): seq<Hit>
    requires cur.Some? ==> cur.value < |hits|
  {
    if cur.Some? then hits[cur.value := hits[cur.value].(end := Some(n))] else hits
  }

  // --------------------------------------------------------------- GO lookahead

  /** The text after the first "GO:" of a line, "" when it has none. */
  function AfterGo(line: string): string {
    var i := Find(line, "GO:");
    if i > -1 then line[i + 3..] else ""
  }

  function Concat(ls: seq<string>): string {
    if ls == [] then "" else ls[0] + Concat(ls[1..])
  }

  /**
   * The GO text of a header and the lines that follow it up to the first
   * line containing "Length": the text after the first non-empty "GO:"
   * remainder, followed by every later line of the block.
   */
  function GoText(block: seq<string>): string {
    if block == [] then ""
    else if AfterGo(block[0]) != "" then AfterGo(block[0]) + Concat(block[1..])
    else GoText(block[1..])
  }

  /** The first index at or after `from` of a line containing `pat`. */
  function FirstWith(lines: seq<string>, from: nat, pat: string): (r: Option<nat>)
    ensures r.Some? ==> from <= r.value < |lines| && Contains(lines[r.value], pat)
    decreases |lines| - from
  {
    if from >= |lines| then None
    else if Contains(lines[from], pat) then Some(from)
    else FirstWith(lines, from + 1, pat)
  }

  /** No line from `from` up to the one `FirstWith` finds contains the pattern; none at all when it finds none. */
  lemma {:induction false} FirstWithIsFirst(lines: seq<string>, from: nat, pat: string)
    ensures forall i :: from <= i < |lines| && (FirstWith(lines, from, pat).None? || i < FirstWith(lines, from, pat).value) ==>
              !Contains(lines[i], pat)
    decreases |lines| - from
  {
    if from < |lines| && !Contains(lines[from], pat) {
      FirstWithIsFirst(lines, from + 1, pat);
    }
  }

  /** The GO text gathered so far (`going`) completed with the lines `ls`. */
  function Going(going: string, ls: seq<string>): string {
    if going == "" then GoText(ls) else going + Concat(ls)
  }

  /**
   * One line of the lookahead: before any GO text, a line with "GO:" starts
   * it; once it has started, every line is appended.
   */
  function GoStep(going: string, l: string): string {
    if going == "" && Contains(l, "GO:") then AfterGo(l)
    else if going != "" then going + l
    else going
  }

  lemma GoingStep(going: string, l: string, ls: seq<string>)
    ensures Going(going, [l] + ls) == Going(GoStep(going, l), ls)
  {
    assert ([l] + ls)[0] == l && ([l] + ls)[1..] == ls;
  }

  /** The GO text of a header and the lines after it starts from the header's own "GO:" remainder. */
  lemma GoTextHeader(header: string, ls: seq<string>)
    ensures GoText([header] + ls) == Going(AfterGo(header), ls)
  {
    assert ([header] + ls)[0] == header && ([header] + ls)[1..] == ls;
  }

  /**
   * The lookahead after a BLASTP alignment header (mark ... reset): the lines
   * after the header are peeked up to the first one containing "Length",
   * without being consumed.  Fails when no such line follows.
   */
  method ScanGo(lines: seq<string>, from: nat, header: string) returns (r: Result<string, ScanError>)
    requires from <= |lines|
    ensures r == match FirstWith(lines, from, "Length")
                 case None => Failure(EndOfInput)
                 case Some(e) => Success(GoText([header] + lines[from..e]))
  {
    var going := "";
    var ind := Find(header, "GO:");
    if ind > -1 {
      going := header[ind + 3..];
    }
    var j;
    j, going := PeekGo(lines, from, going);
    if j == |lines| {
      return Failure(EndOfInput);
    }
    GoTextHeader(header, lines[from..j]);
    return Success(going);
  }

  /**
   * The lookahead loop: the lines from `from` are peeked up to the first one
   * containing "Length" (`j`, or the end of the input), each adding to the GO
   * text `going0` gathered from the header.
   */
  method PeekGo(lines: seq<string>, from: nat, going0: string) returns (j: nat, going: string)
    requires from <= |lines|
    ensures FirstWith(lines, from, "Length") == if j == |lines| then None else Some(j)
    ensures j < |lines| ==> from <= j && going == Going(going0, lines[from..j])
  {
    going := going0;
    j := from;
    // the line the loop stops at: the first containing "Length", or the end of the input
    ghost var e := match FirstWith(lines, from, "Length") case None => |lines| case Some(x) => x;
    GoesOnStart(going0, lines, from, e);
    while j < |lines| && Find(lines[j], "Length") == -1
      invariant from <= j <= e <= |lines|
      invariant FirstWith(lines, j, "Length") == FirstWith(lines, from, "Length")
      invariant GoesOn(going0, lines, from, e, going, j)
    {
      GoingAt(going0, lines, from, e, going, j);
      FirstWithPast(lines, j, "Length");
      going := GoStep(going, lines[j]);
      j := j + 1;
    }
    if j < |lines| {
      GoingEnd(going0, lines, from, going, j);
    }
  }

  /** The GO text of the lines `from` up to `e`, started from `going0`, is what `going` completes with the lines `j` up to `e`. */
  ghost predicate GoesOn(going0: string, lines: seq<string>, from: nat, e: nat, going: string, j: nat) {
    from <= j <= e <= |lines| && Going(going0, lines[from..e]) == Going(going, lines[j..e])
  }

  lemma GoesOnStart(going0: string, lines: seq<string>, from: nat, e: nat)
    requires from <= e <= |lines|
    ensures GoesOn(going0, lines, from, e, going0, from)
  {
  }

  /** One line of the lookahead, taken from the lines `j` up to `e`. */
  lemma GoingAt(going0: string, lines: seq<string>, from: nat, e: nat, going: string, j: nat)
    requires GoesOn(going0, lines, from, e, going, j) && j < e
    ensures GoesOn(going0, lines, from, e, GoStep(going, lines[j]), j + 1)
  {
    assert lines[j..e] == [lines[j]] + lines[j + 1..e];
    GoingStep(going, lines[j], lines[j + 1..e]);
  }

  /** A line without the pattern is passed over. */
  lemma FirstWithPast(lines: seq<string>, j: nat, pat: string)
    requires j < |lines| && !Contains(lines[j], pat)
    ensures FirstWith(lines, j, pat) == FirstWith(lines, j + 1, pat)
  {
  }

  /** Nothing is left to peek. */
  lemma GoingEnd(going0: string, lines: seq<string>, from: nat, going: string, j: nat)
    requires GoesOn(going0, lines, from, j, going, j)
    ensures going == Going(going0, lines[from..j])
  {
    assert lines[j..j] == [];
  }

  // ------------------------------------------------------ Smith-Waterman setters

  function Or<T>(a: Option<T>, b: Option<T>): Option<T> {
    if a.Some? then a else b
  }

  /** The hit after the setters of a Smith-Waterman line have run. */
  function WithAlignment(h: Hit, a: Alignment): Hit {
    h.(score := Or(a.score, h.score), identity := Or(a.identity, h.identity),
       ungapped := Or(a.ungapped, h.ungapped), overlap := Or(a.overlap, h.overlap),
       queryRange := Or(a.queryRange, h.queryRange), subjectRange := Or(a.subjectRange, h.subjectRange))
  }

  // -------------------------------------------------------- the reference scan

  /**
   * One step of a scan, read off the input: a summary header copied, a
   * summary line copied and turned into a hit, the end of the input inside a
   * summary block, or any other line copied and interpreted, together with
   * what the BLASTP GO lookahead after it would give.
   */
  datatype Event =
    | Head(line: string)
    | Summary(line: string)
    | Unclosed
    | Body(line: string, look: Result<string, ScanError>)

  /** What the GO lookahead after line `at` gives: the GO text up to the next "Length" line, or a failure without one. */
  function GoLook(lines: seq<string>, at: nat): Result<string, ScanError>
    requires at < |lines|
  {
    match FirstWith(lines, at + 1, "Length")
    case None => Failure(EndOfInput)
    case Some(e) => Success(GoText([lines[at]] + lines[at + 1..e]))
  }

  /** The events of the lines from `at`, at the top of the main loop. */
  function Script(f: Format, lines: seq<string>, at: nat): seq<Event>
    requires at <= |lines|
    decreases |lines| - at, 1
  {
    if at == |lines| then []
    else if IsSummaryHeader(f, lines[at]) then
      [Head(lines[at])] + SummaryScript(f, lines, Min(at + 1 + Skipped(f), |lines|))
    else [Body(lines[at], GoLook(lines, at))] + Script(f, lines, at + 1)
  }

  /** The events of the lines from `at`, inside a summary block: the block ends at a blank line, which is dropped. */
  function SummaryScript(f: Format, lines: seq<string>, at: nat): seq<Event>
    requires at <= |lines|
    decreases |lines| - at, 0
  {
    if at == |lines| then [Unclosed]
    else if lines[at] == "" then Script(f, lines, at + 1)
    else [Summary(lines[at])] + SummaryScript(f, lines, at + 1)
  }

  /** The state of a scan between two events: the text so far, the hits and the current hit. */
  datatype Scan = Scan(text: string, hits: seq<Hit>, cur: Option<nat>)

  predicate ValidScan(s: Scan) {
    s.cur.Some? ==> s.cur.value < |s.hits|
  }

  /** The ids of the hits, in order. */
  function HitIds(hits: seq<Hit>): (r: seq<string>)
    ensures |r| == |hits| && forall k :: 0 <= k < |hits| ==> r[k] == hits[k].id
  {
    seq(|hits|, k requires 0 <= k < |hits| => hits[k].id)
  }

  /** Closing a hit keeps every id. */
  lemma CloseKeepsIds(hits: seq<Hit>, cur: Option<nat>, n: nat)
    requires cur.Some? ==> cur.value < |hits|
    ensures HitIds(CloseCurrent(hits, cur, n)) == HitIds(hits)
  {
  }

  /**
   * What the BLASTP loop does with a line that is not a summary header, once
   * it is copied: an alignment header closes the current hit at the line's
   * offset, opens the first hit with the header's id there, makes it current
   * and stores the GO text of the lookahead when there is some; an
   * "Identities = " line sets the identity and a "  Length = " line the
   * length of the current hit.
   */
  function BlastpStep(s: Scan, line: string, look: Result<string, ScanError>): (r: Result<Scan, ScanError>)
    requires ValidScan(s)
    ensures r.Success? ==> ValidScan(r.value) && r.value.text == s.text + line + "\n" && |r.value.hits| == |s.hits|
  {
    if StartsWith(line, ">") then BlastpOpen(s, line, look) else BlastpField(s, line)
  }

  /** A BLASTP alignment header `line`, with the GO lookahead `look` after it. */
  function BlastpOpen(s: Scan, line: string, look: Result<string, ScanError>): (r: Result<Scan, ScanError>)
    requires ValidScan(s) && StartsWith(line, ">")
    ensures r.Success? ==> ValidScan(r.value) && r.value.text == s.text + line + "\n" && |r.value.hits| == |s.hits|
  {
    var text := s.text + line + "\n";
    var id := BlastpHeaderId(line);
    var closed := CloseCurrent(s.hits, s.cur, |s.text|);
    var k := IndexOfItem(HitIds(closed), id);
    if k == -1 then Failure(UnknownHit(id))
    else
      var started := closed[k := closed[k].(start := Some(|s.text|))];
      if look.Failure? then Failure(look.error)
      else
        var hits := if look.value != "" then started[k := started[k].(go := Some(look.value))] else started;
        Success(Scan(text, hits, Some(k)))
  }

  /** Any other BLASTP line: "Identities = " and "  Length = " lines set a field of the current hit. */
  function BlastpField(s: Scan, line: string): (r: Result<Scan, ScanError>)
    requires ValidScan(s)
    ensures r.Success? ==> ValidScan(r.value) && r.value.text == s.text + line + "\n" && |r.value.hits| == |s.hits|
  {
    var text := s.text + line + "\n";
    if Find(line, "Identities = ") > -1 then
      var identity := BlastpIdentity(line);
      if identity.None? then Failure(BadIndex)
      else if s.cur.None? then Failure(NoHit)
      else
        var hits := s.hits[s.cur.value := s.hits[s.cur.value].(identity := identity)];
        Success(Scan(text, hits, s.cur))
    else if Find(line, "  Length = ") > -1 then
      if s.cur.None? then Failure(NoHit)
      else
        var hits := s.hits[s.cur.value := s.hits[s.cur.value].(length := Some(BlastpLength(line)))];
        Success(Scan(text, hits, s.cur))
    else Success(s.(text := text))
  }

  /**
   * What the FASTA loop does with a line that is not a summary header, once
   * it is copied: an alignment header closes the current hit at the line's
   * offset and opens the first hit with the header's id there, making it
   * current; a "Smith-Waterman" line with a score sets the alignment fields
   * and a " E():" line the E-value of the current hit.
   */
  function FastaStep(s: Scan, line: string): (r: Result<Scan, ScanError>)
    requires ValidScan(s)
    ensures r.Success? ==> ValidScan(r.value) && r.value.text == s.text + line + "\n" && |r.value.hits| == |s.hits|
  {
    var text := s.text + line + "\n";
    if StartsWith(line, ">>") then
      var id := FastaHeaderId(line);
      if id.None? then Failure(BadIndex)
      else
        var closed := CloseCurrent(s.hits, s.cur, |s.text|);
        var k := IndexOfItem(HitIds(closed), id.value);
        if k == -1 then Failure(UnknownHit(id.value))
        else
          var hits := closed[k := closed[k].(start := Some(|s.text|))];
          Success(Scan(text, hits, Some(k)))
    else if StartsWith(line, "Smith-Waterman") then
      if Find(line, "score:") == -1 then Success(s.(text := text))
      else if SwScore(line).None? then Failure(BadIndex)
      else if s.cur.None? then Failure(NoHit)
      else if SmithWaterman(line).None? then Failure(BadIndex)
      else
        var hits := s.hits[s.cur.value := WithAlignment(s.hits[s.cur.value], SmithWaterman(line).value)];
        Success(Scan(text, hits, s.cur))
    else if Find(line, " E():") > -1 then
      var eValue := FastaEValue(line);
      if eValue.None? then Failure(NoToken)
      else if s.cur.None? then Failure(NoHit)
      else
        var hits := s.hits[s.cur.value := s.hits[s.cur.value].(eValue := eValue)];
        Success(Scan(text, hits, s.cur))
    else Success(s.(text := text))
  }

  /** One event applied to the state of a scan. */
  function Consume(f: Format, summaryId: string -> string, s: Scan, e: Event): (r: Result<Scan, ScanError>)
    requires ValidScan(s)
    ensures r.Success? ==> ValidScan(r.value)
  {
    match e
    case Head(line) => Success(s.(text := s.text + line + "\n"))
    case Summary(line) =>
      Success(Scan(s.text + line + "\n", s.hits + [NewHit(summaryId(line))], if f == Blastp then Some(|s.hits|) else s.cur))
    case Unclosed => Failure(EndOfInput)
    case Body(line, look) => if f == Blastp then BlastpStep(s, line, look) else FastaStep(s, line)
  }

  /** The events applied in order, stopping at the first that fails. */
  function Run(f: Format, summaryId: string -> string, s: Scan, es: seq<Event>): (r: Result<Scan, ScanError>)
    requires ValidScan(s)
    ensures r.Success? ==> ValidScan(r.value)
    decreases |es|
  {
    if es == [] then Success(s)
    else
      match Consume(f, summaryId, s, es[0])
      case Failure(e) => Failure(e)
      case Success(s') => Run(f, summaryId, s', es[1..])
  }

  /** The report a scan of `lines` gives, or the exception it throws: the hit current at the end is closed at the end of the text. */
  function ScanReport(f: Format, lines: seq<string>, summaryId: string -> string): Result<Report, ScanError> {
    Finished(f, summaryId, Script(f, lines, 0))
  }

  /** The report the events give from the empty state, or the exception the first failing one throws. */
  function Finished(f: Format, summaryId: string -> string, es: seq<Event>): Result<Report, ScanError> {
    match Run(f, summaryId, Scan("", [], None), es)
    case Failure(e) => Failure(e)
    case Success(s) => Success(Report(s.text, CloseCurrent(s.hits, s.cur, |s.text|)))
  }

  // ------------------------------------------------ what the reference scan means

  /** The hit fields a line can set. */
  datatype Field = Score | Identity | Ungapped | Overlap | QueryRange | SubjectRange | Length | EValue | Go

  function FieldOf(h: Hit, fd: Field): Option<string> {
    match fd
    case Score => h.score
    case Identity => h.identity
    case Ungapped => h.ungapped
    case Overlap => h.overlap
    case QueryRange => h.queryRange
    case SubjectRange => h.subjectRange
    case Length => h.length
    case EValue => h.eValue
    case Go => h.go
  }

  /** The value a Smith-Waterman line gives a field, None for the fields it does not set. */
  function AlignmentField(a: Alignment, fd: Field): Option<string> {
    match fd
    case Score => a.score
    case Identity => a.identity
    case Ungapped => a.ungapped
    case Overlap => a.overlap
    case QueryRange => a.queryRange
    case SubjectRange => a.subjectRange
    case _ => None
  }

  /** The text an event copies. */
  function CopyOf(e: Event): string {
    if e.Unclosed? then "" else e.line + "\n"
  }

  /** The text the events copy. */
  function Copied(es: seq<Event>): string {
    if es == [] then "" else Copied(es[..|es| - 1]) + CopyOf(es[|es| - 1])
  }

  /** The ids of the hits the events create: one per summary line, in order. */
  function Ids(summaryId: string -> string, es: seq<Event>): seq<string> {
    if es == [] then []
    else
      var e := es[|es| - 1];
      Ids(summaryId, es[..|es| - 1]) + if e.Summary? then [summaryId(e.line)] else []
  }

  predicate IsHeader(f: Format, e: Event) {
    e.Body? && IsBlockHeader(f, e.line)
  }

  /** The hit an alignment header names, after the events `pre`: the first one created with its id; -1 when there is none. */
  function Target(f: Format, summaryId: string -> string, pre: seq<Event>, e: Event): int {
    if IsHeader(f, e) && HeaderId(f, e.line).Some? then IndexOfItem(Ids(summaryId, pre), HeaderId(f, e.line).value)
    else -1
  }

  /** The hit current after the events: the one the last opening event opened, an alignment header or, in BLASTP, a summary line. */
  function Current(f: Format, summaryId: string -> string, es: seq<Event>): Option<nat> {
    if es == [] then None
    else
      var pre := es[..|es| - 1];
      var e := es[|es| - 1];
      if f == Blastp && e.Summary? then Some(|Ids(summaryId, pre)|)
      else if Target(f, summaryId, pre, e) >= 0 then Some(Target(f, summaryId, pre, e))
      else Current(f, summaryId, pre)
  }

  /** The value event `e`, after the events `pre`, writes into field `fd` of hit `k`; None when it writes nothing there. */
  function Sets(f: Format, summaryId: string -> string, pre: seq<Event>, e: Event, k: nat, fd: Field): Option<string> {
    if !e.Body? then None
    else
      var line := e.line;
      var cur := Current(f, summaryId, pre) == Some(k);
      match f
      case Blastp =>
        if StartsWith(line, ">") then
          if fd == Go && Target(f, summaryId, pre, e) == k && e.look.Success? && e.look.value != "" then Some(e.look.value)
          else None
        else if Contains(line, "Identities = ") then
          if fd == Identity && cur then BlastpIdentity(line) else None
        else if Contains(line, "  Length = ") then
          if fd == Length && cur then Some(BlastpLength(line)) else None
        else None
      case Fasta =>
        if StartsWith(line, ">>") then None
        else if StartsWith(line, "Smith-Waterman") then
          if Contains(line, "score:") && cur && SmithWaterman(line).Some? then AlignmentField(SmithWaterman(line).value, fd)
          else None
        else if Contains(line, " E():") then
          if fd == EValue && cur then FastaEValue(line) else None
        else None
  }

  /** The value the last event that wrote field `fd` of hit `k` wrote there; None when none did. */
  function LastSet(f: Format, summaryId: string -> string, es: seq<Event>, k: nat, fd: Field): Option<string> {
    LastValue(es, Writing(f, summaryId, k, fd))
  }

  /** The offset in the text of the last alignment header that named hit `k`; None when none did. */
  function LastOpen(f: Format, summaryId: string -> string, es: seq<Event>, k: nat): Option<nat> {
    LastOffset(es, Opens(f, summaryId, k))
  }

  /** The offset in the text of the last alignment header met while hit `k` was current; None when there was none. */
  function LastClose(f: Format, summaryId: string -> string, es: seq<Event>, k: nat): Option<nat> {
    LastOffset(es, Closes(f, summaryId, k))
  }

  /** What an event writes into field `fd` of hit `k`, given the events before it. */
  function Writing(f: Format, summaryId: string -> string, k: nat, fd: Field): (seq<Event>, Event) -> Option<string> {
    (pre, e) => Sets(f, summaryId, pre, e, k, fd)
  }

  /** An event is an alignment header naming hit `k`, given the events before it. */
  function Opens(f: Format, summaryId: string -> string, k: nat): (seq<Event>, Event) -> bool {
    (pre, e) => Target(f, summaryId, pre, e) == k
  }

  /** An event is an alignment header met while hit `k` is current, given the events before it. */
  function Closes(f: Format, summaryId: string -> string, k: nat): (seq<Event>, Event) -> bool {
    (pre, e) => IsHeader(f, e) && Current(f, summaryId, pre) == Some(k)
  }

  /** The value the last event that `v` gives a value for gets; None when there is none. */
  function LastValue(es: seq<Event>, v: (seq<Event>, Event) -> Option<string>): Option<string>
    decreases |es|
  {
    if es == [] then None
    else
      var x := v(es[..|es| - 1], es[|es| - 1]);
      if x.Some? then x else LastValue(es[..|es| - 1], v)
  }

  /** The offset in the copied text of the last event that `p` holds for; None when there is none. */
  function LastOffset(es: seq<Event>, p: (seq<Event>, Event) -> bool): Option<nat>
    decreases |es|
  {
    if es == [] then None
    else if p(es[..|es| - 1], es[|es| - 1]) then Some(|Copied(es[..|es| - 1])|)
    else LastOffset(es[..|es| - 1], p)
  }

  /** The prefix of `es` before event `j` is `es` without its last event, cut before `j`. */
  lemma PrefixOfInit(es: seq<Event>, j: nat)
    requires j < |es|
    ensures es[..|es| - 1][..j] == es[..j]
  {
  }

  /** The last event `j` of `es` that `p` holds for, given the events before it; None when there is none. */
  function LastWhere(es: seq<Event>, p: (seq<Event>, Event) -> bool): (r: Option<nat>)
    ensures r.Some? ==> r.value < |es|
    decreases |es|
  {
    if es == [] then None
    else if p(es[..|es| - 1], es[|es| - 1]) then Some(|es| - 1)
    else LastWhere(es[..|es| - 1], p)
  }

  /** `LastWhere` finds an event `p` holds for exactly when there is one, and no later event has `p`. */
  lemma {:induction false} LastWhereIsLast(es: seq<Event>, p: (seq<Event>, Event) -> bool)
    ensures LastWhere(es, p).None? <==> forall j :: 0 <= j < |es| ==> !p(es[..j], es[j])
    ensures LastWhere(es, p).Some? ==>
              var j := LastWhere(es, p).value;
              p(es[..j], es[j]) && forall i :: j < i < |es| ==> !p(es[..i], es[i])
    decreases |es|
  {
    if es != [] {
      var n := |es| - 1;
      var pre := es[..n];
      LastWhereIsLast(pre, p);
      forall j | 0 <= j < n
        ensures pre[..j] == es[..j] && pre[j] == es[j]
      {
        PrefixOfInit(es, j);
      }
    }
  }

  /** `v` gives a value for an event. */
  function Defined(v: (seq<Event>, Event) -> Option<string>): (seq<Event>, Event) -> bool {
    (pre, e) => v(pre, e).Some?
  }

  /** `LastValue` is what `v` gives the last event it gives a value for. */
  lemma {:induction false} LastValueIsLast(es: seq<Event>, v: (seq<Event>, Event) -> Option<string>)
    ensures LastValue(es, v) ==
            match LastWhere(es, Defined(v))
            case None => None
            case Some(j) => v(es[..j], es[j])
    decreases |es|
  {
    if es != [] {
      LastValueIsLast(es[..|es| - 1], v);
      var j := LastWhere(es[..|es| - 1], Defined(v));
      if j.Some? {
        PrefixOfInit(es, j.value);
      }
    }
  }

  /** `LastOffset` is the offset in the copied text of the last event `p` holds for. */
  lemma {:induction false} LastOffsetIsLast(es: seq<Event>, p: (seq<Event>, Event) -> bool)
    ensures LastOffset(es, p) ==
            match LastWhere(es, p)
            case None => None
            case Some(j) => Some(|Copied(es[..j])|)
    decreases |es|
  {
    if es != [] {
      LastOffsetIsLast(es[..|es| - 1], p);
      var j := LastWhere(es[..|es| - 1], p);
      if j.Some? {
        PrefixOfInit(es, j.value);
      }
    }
  }

  /** The text copied before event `j` is a prefix of the text, and event `j`'s own line follows it there. */
  lemma {:induction false} CopiedAt(es: seq<Event>, j: nat)
    requires j < |es|
    ensures |Copied(es[..j])| + |CopyOf(es[j])| <= |Copied(es)|
    ensures Copied(es)[..|Copied(es[..j])|] == Copied(es[..j])
    ensures Copied(es)[|Copied(es[..j])|..|Copied(es[..j])| + |CopyOf(es[j])|] == CopyOf(es[j])
    decreases |es|
  {
    var n := |es| - 1;
    var pre := es[..n];
    assert Copied(es) == Copied(pre) + CopyOf(es[n]);
    if j == n {
      assert es[..j] == pre;
    } else {
      CopiedAt(pre, j);
      PrefixOfInit(es, j);
      assert pre[j] == es[j];
    }
  }

  /**
   * Event `e` throws after the events `pre`: the end of the input inside a
   * summary block; an alignment header naming no hit created so far, without
   * the id a FASTA header needs, or (BLASTP) without a "Length" line after
   * it; a field line that cannot be cut as the source cuts it, or that comes
   * while no hit is current.
   */
  predicate Fails(f: Format, summaryId: string -> string, pre: seq<Event>, e: Event) {
    if e.Unclosed? then true
    else if !e.Body? then false
    else
      var line := e.line;
      var none := Current(f, summaryId, pre).None?;
      match f
      case Blastp =>
        if StartsWith(line, ">") then Target(f, summaryId, pre, e) == -1 || e.look.Failure?
        else if Contains(line, "Identities = ") then BlastpIdentity(line).None? || none
        else if Contains(line, "  Length = ") then none
        else false
      case Fasta =>
        if StartsWith(line, ">>") then Target(f, summaryId, pre, e) == -1
        else if StartsWith(line, "Smith-Waterman") then
          Contains(line, "score:") && (SwScore(line).None? || none || SmithWaterman(line).None?)
        else if Contains(line, " E():") then FastaEValue(line).None? || none
        else false
  }

  /** Some event of `es` throws after the events before it. */
  predicate Throws(f: Format, summaryId: string -> string, es: seq<Event>) {
    exists j :: 0 <= j < |es| && Fails(f, summaryId, es[..j], es[j])
  }

  /** Hit `h`, the `k`th created, agrees with what the events say about its fields and offsets. */
  predicate HitMatches(f: Format, summaryId: string -> string, es: seq<Event>, h: Hit, k: nat) {
    && (forall fd :: FieldOf(h, fd) == LastSet(f, summaryId, es, k, fd))
    && h.start == LastOpen(f, summaryId, es, k)
    && h.end == LastClose(f, summaryId, es, k)
  }

  /** The state of a scan agrees with what the events so far describe. */
  predicate Matches(f: Format, summaryId: string -> string, es: seq<Event>, s: Scan) {
    && ValidScan(s)
    && s.text == Copied(es)
    && HitIds(s.hits) == Ids(summaryId, es)
    && s.cur == Current(f, summaryId, es)
    && (forall k :: 0 <= k < |s.hits| ==> HitMatches(f, summaryId, es, s.hits[k], k))
  }

  /** Hit `h` with new offsets and with every field `fd` for which `v(fd)` is a value set to it. */
  function Updated(h: Hit, v: Field -> Option<string>, start: Option<nat>, end: Option<nat>): (r: Hit)
    ensures r.id == h.id && r.start == start && r.end == end
    ensures forall fd :: FieldOf(r, fd) == Or(v(fd), FieldOf(h, fd))
  {
    h.(start := start, end := end,
       score := Or(v(Score), h.score), identity := Or(v(Identity), h.identity),
       ungapped := Or(v(Ungapped), h.ungapped), overlap := Or(v(Overlap), h.overlap),
       queryRange := Or(v(QueryRange), h.queryRange), subjectRange := Or(v(SubjectRange), h.subjectRange),
       length := Or(v(Length), h.length), eValue := Or(v(EValue), h.eValue), go := Or(v(Go), h.go))
  }

  /** Hit `h`, the `k`th created, as event `e` after the events `pre` leaves it. */
  function Apply(f: Format, summaryId: string -> string, pre: seq<Event>, e: Event, h: Hit, k: nat): Hit {
    var offset := Some(|Copied(pre)|);
    Updated(h, fd => Sets(f, summaryId, pre, e, k, fd),
            if Target(f, summaryId, pre, e) == k then offset else h.start,
            if IsHeader(f, e) && Current(f, summaryId, pre) == Some(k) then offset else h.end)
  }

  lemma UpdatedNone(h: Hit, v: Field -> Option<string>)
    requires forall fd :: v(fd).None?
    ensures Updated(h, v, h.start, h.end) == h
  {
  }

  /** An event that writes no field of hit `k`, does not open it and does not close it leaves it as it is. */
  lemma ApplyKeeps(f: Format, summaryId: string -> string, pre: seq<Event>, e: Event, h: Hit, k: nat)
    requires forall fd :: Sets(f, summaryId, pre, e, k, fd).None?
    requires Target(f, summaryId, pre, e) != k
    requires !(IsHeader(f, e) && Current(f, summaryId, pre) == Some(k))
    ensures Apply(f, summaryId, pre, e, h, k) == h
  {
    UpdatedNone(h, fd => Sets(f, summaryId, pre, e, k, fd));
  }

  /** Two hits with the same id, offsets and fields are the same hit. */
  lemma HitExt(a: Hit, b: Hit)
    requires a.id == b.id && a.start == b.start && a.end == b.end
    requires forall fd :: FieldOf(a, fd) == FieldOf(b, fd)
    ensures a == b
  {
    assert FieldOf(a, Score) == FieldOf(b, Score) && FieldOf(a, Identity) == FieldOf(b, Identity);
    assert FieldOf(a, Ungapped) == FieldOf(b, Ungapped) && FieldOf(a, Overlap) == FieldOf(b, Overlap);
    assert FieldOf(a, QueryRange) == FieldOf(b, QueryRange) && FieldOf(a, SubjectRange) == FieldOf(b, SubjectRange);
    assert FieldOf(a, Length) == FieldOf(b, Length) && FieldOf(a, EValue) == FieldOf(b, EValue);
    assert FieldOf(a, Go) == FieldOf(b, Go);
  }

  lemma UpdatedSame(h: Hit, v: Field -> Option<string>, w: Field -> Option<string>, start: Option<nat>, end: Option<nat>)
    requires forall fd :: v(fd) == w(fd)
    ensures Updated(h, v, start, end) == Updated(h, w, start, end)
  {
    HitExt(Updated(h, v, start, end), Updated(h, w, start, end));
  }

  /** The setters of a Smith-Waterman line update a hit as `Updated` does with the values the line gives. */
  lemma AlignmentUpdated(h: Hit, a: Alignment)
    ensures WithAlignment(h, a) == Updated(h, fd => AlignmentField(a, fd), h.start, h.end)
  {
    HitExt(WithAlignment(h, a), Updated(h, fd => AlignmentField(a, fd), h.start, h.end));
  }

  /** A hit that agrees with the events before `e` agrees, as `e` leaves it, with the events up to `e`. */
  lemma ApplyMatches(f: Format, summaryId: string -> string, pre: seq<Event>, e: Event, h: Hit, k: nat)
    requires HitMatches(f, summaryId, pre, h, k)
    ensures HitMatches(f, summaryId, pre + [e], Apply(f, summaryId, pre, e, h, k), k)
  {
    UnfoldAt(f, summaryId, pre, e, k);
    var h' := Apply(f, summaryId, pre, e, h, k);
    forall fd
      ensures FieldOf(h', fd) == LastSet(f, summaryId, pre + [e], k, fd)
    {
      assert FieldOf(h, fd) == LastSet(f, summaryId, pre, k, fd);
    }
  }

  /** The meaning of the events one event further on. */
  lemma Unfold(f: Format, summaryId: string -> string, pre: seq<Event>, e: Event)
    ensures Copied(pre + [e]) == Copied(pre) + CopyOf(e)
    ensures Ids(summaryId, pre + [e]) == Ids(summaryId, pre) + if e.Summary? then [summaryId(e.line)] else []
    ensures Current(f, summaryId, pre + [e]) ==
      if f == Blastp && e.Summary? then Some(|Ids(summaryId, pre)|)
      else if Target(f, summaryId, pre, e) >= 0 then Some(Target(f, summaryId, pre, e))
      else Current(f, summaryId, pre)
  {
    assert (pre + [e])[..|pre|] == pre;
  }

  /** What the events say about hit `k`, one event further on. */
  lemma UnfoldAt(f: Format, summaryId: string -> string, pre: seq<Event>, e: Event, k: nat)
    ensures forall fd ::
              LastSet(f, summaryId, pre + [e], k, fd) == Or(Sets(f, summaryId, pre, e, k, fd), LastSet(f, summaryId, pre, k, fd))
    ensures LastOpen(f, summaryId, pre + [e], k) ==
              if Target(f, summaryId, pre, e) == k then Some(|Copied(pre)|) else LastOpen(f, summaryId, pre, k)
    ensures LastClose(f, summaryId, pre + [e], k) ==
              if IsHeader(f, e) && Current(f, summaryId, pre) == Some(k) then Some(|Copied(pre)|) else LastClose(f, summaryId, pre, k)
  {
    assert (pre + [e])[..|pre|] == pre;
  }

  /** The current hit is always one the events created. */
  lemma {:induction false} CurrentInRange(f: Format, summaryId: string -> string, es: seq<Event>)
    ensures Current(f, summaryId, es).Some? ==> Current(f, summaryId, es).value < |Ids(summaryId, es)|
  {
    if es != [] {
      CurrentInRange(f, summaryId, es[..|es| - 1]);
    }
  }

  /** A hit not created yet has had nothing written into it. */
  lemma {:induction false} Untouched(f: Format, summaryId: string -> string, es: seq<Event>, k: nat)
    requires k >= |Ids(summaryId, es)|
    ensures forall fd :: LastSet(f, summaryId, es, k, fd).None?
    ensures LastOpen(f, summaryId, es, k).None? && LastClose(f, summaryId, es, k).None?
  {
    if es != [] {
      var pre := es[..|es| - 1];
      CurrentInRange(f, summaryId, pre);
      Untouched(f, summaryId, pre, k);
      assert es == pre + [es[|es| - 1]];
      UnfoldAt(f, summaryId, pre, es[|es| - 1], k);
    }
  }

  /** A hit not created yet agrees with the events as a fresh hit. */
  lemma NewHitMatches(f: Format, summaryId: string -> string, es: seq<Event>, id: string, k: nat)
    requires k >= |Ids(summaryId, es)|
    ensures HitMatches(f, summaryId, es, NewHit(id), k)
  {
    Untouched(f, summaryId, es, k);
  }

  /** A summary header only copies its line; a summary line also creates a hit, which BLASTP makes current. */
  lemma SummaryMatches(f: Format, summaryId: string -> string, pre: seq<Event>, e: Event, s: Scan)
    requires Matches(f, summaryId, pre, s) && (e.Head? || e.Summary?)
    ensures Consume(f, summaryId, s, e).Success?
    ensures Matches(f, summaryId, pre + [e], Consume(f, summaryId, s, e).value)
  {
    Unfold(f, summaryId, pre, e);
    var s' := Consume(f, summaryId, s, e).value;
    var es := pre + [e];
    if e.Summary? {
      assert s'.hits == s.hits + [NewHit(summaryId(e.line))];
      assert HitIds(s'.hits) == Ids(summaryId, es);
    }
    forall k | 0 <= k < |s'.hits|
      ensures HitMatches(f, summaryId, es, s'.hits[k], k)
    {
      if k < |s.hits| {
        ApplyMatches(f, summaryId, pre, e, s.hits[k], k);
        ApplyKeeps(f, summaryId, pre, e, s.hits[k], k);
      } else {
        var h := NewHit(summaryId(e.line));
        NewHitMatches(f, summaryId, pre, h.id, k);
        ApplyMatches(f, summaryId, pre, e, h, k);
        ApplyKeeps(f, summaryId, pre, e, h, k);
      }
    }
  }

  /** A step that copies the event's line, moves the current hit as the events say and leaves each hit as `Apply` says keeps the state matching the events. */
  lemma StepMatches(f: Format, summaryId: string -> string, pre: seq<Event>, e: Event, s: Scan, s': Scan)
    requires Matches(f, summaryId, pre, s) && !e.Summary? && ValidScan(s')
    requires s'.text == s.text + CopyOf(e) && s'.cur == Current(f, summaryId, pre + [e])
    requires |s'.hits| == |s.hits|
    requires forall k :: 0 <= k < |s.hits| ==> s'.hits[k] == Apply(f, summaryId, pre, e, s.hits[k], k)
    ensures Matches(f, summaryId, pre + [e], s')
  {
    Unfold(f, summaryId, pre, e);
    assert HitIds(s'.hits) == HitIds(s.hits);
    forall k | 0 <= k < |s'.hits|
      ensures HitMatches(f, summaryId, pre + [e], s'.hits[k], k)
    {
      ApplyMatches(f, summaryId, pre, e, s.hits[k], k);
    }
  }

  /** A BLASTP line that is not an alignment header changes at most the current hit, as `Apply` says. */
  lemma BlastpFieldHit(summaryId: string -> string, pre: seq<Event>, line: string, look: Result<string, ScanError>, s: Scan, k: nat)
    requires ValidScan(s) && s.cur == Current(Blastp, summaryId, pre) && k < |s.hits| && !StartsWith(line, ">")
    requires BlastpStep(s, line, look).Success?
    ensures k < |BlastpStep(s, line, look).value.hits|
    ensures BlastpStep(s, line, look).value.hits[k] == Apply(Blastp, summaryId, pre, Body(line, look), s.hits[k], k)
  {
    var e := Body(line, look);
    if s.cur == Some(k) {
      BlastpCurrentHit(summaryId, pre, line, look, s, k);
    } else {
      ApplyKeeps(Blastp, summaryId, pre, e, s.hits[k], k);
    }
  }

  lemma BlastpCurrentHit(summaryId: string -> string, pre: seq<Event>, line: string, look: Result<string, ScanError>, s: Scan, k: nat)
    requires ValidScan(s) && s.cur == Current(Blastp, summaryId, pre) == Some(k) && !StartsWith(line, ">")
    requires BlastpStep(s, line, look).Success?
    ensures k < |BlastpStep(s, line, look).value.hits|
    ensures BlastpStep(s, line, look).value.hits[k] == Apply(Blastp, summaryId, pre, Body(line, look), s.hits[k], k)
  {
    HitExt(BlastpStep(s, line, look).value.hits[k], Apply(Blastp, summaryId, pre, Body(line, look), s.hits[k], k));
  }

  /** What a BLASTP alignment header does to hit `k` by the events: it is opened there when the header names it, closed there when it was current, and given the GO text of the lookahead when it is opened and there is some. */
  lemma BlastpHeaderApply(summaryId: string -> string, pre: seq<Event>, line: string, look: Result<string, ScanError>, h: Hit, k: nat)
    requires StartsWith(line, ">")
    ensures var named := Target(Blastp, summaryId, pre, Body(line, look)) == k;
      Apply(Blastp, summaryId, pre, Body(line, look), h, k) ==
      h.(start := if named then Some(|Copied(pre)|) else h.start,
         end := if Current(Blastp, summaryId, pre) == Some(k) then Some(|Copied(pre)|) else h.end,
         go := if named && look.Success? && look.value != "" then Some(look.value) else h.go)
  {
    var e := Body(line, look);
    var named := Target(Blastp, summaryId, pre, e) == k;
    HitExt(Apply(Blastp, summaryId, pre, e, h, k),
           h.(start := if named then Some(|Copied(pre)|) else h.start,
              end := if Current(Blastp, summaryId, pre) == Some(k) then Some(|Copied(pre)|) else h.end,
              go := if named && look.Success? && look.value != "" then Some(look.value) else h.go));
  }

  /** The hit a BLASTP alignment header names is found among the hits of a state that matches the events. */
  lemma BlastpTarget(summaryId: string -> string, pre: seq<Event>, line: string, look: Result<string, ScanError>, s: Scan)
    requires ValidScan(s) && HitIds(s.hits) == Ids(summaryId, pre) && StartsWith(line, ">")
    ensures Target(Blastp, summaryId, pre, Body(line, look)) == IndexOfItem(HitIds(CloseCurrent(s.hits, s.cur, |s.text|)), BlastpHeaderId(line))
  {
    CloseKeepsIds(s.hits, s.cur, |s.text|);
  }

  /** A BLASTP alignment header closes the current hit and opens the one it names, as `Apply` says. */
  lemma BlastpHeaderHit(summaryId: string -> string, pre: seq<Event>, line: string, look: Result<string, ScanError>, s: Scan, k: nat)
    requires ValidScan(s) && s.cur == Current(Blastp, summaryId, pre) && HitIds(s.hits) == Ids(summaryId, pre)
    requires s.text == Copied(pre) && k < |s.hits| && StartsWith(line, ">")
    requires BlastpStep(s, line, look).Success?
    ensures k < |BlastpStep(s, line, look).value.hits|
    ensures BlastpStep(s, line, look).value.hits[k] == Apply(Blastp, summaryId, pre, Body(line, look), s.hits[k], k)
  {
    BlastpTarget(summaryId, pre, line, look, s);
    BlastpHeaderApply(summaryId, pre, line, look, s.hits[k], k);
    var closed := CloseCurrent(s.hits, s.cur, |s.text|);
    assert closed[k] == if s.cur == Some(k) then s.hits[k].(end := Some(|s.text|)) else s.hits[k];
  }

  /** A BLASTP alignment header fails exactly when the events say it throws. */
  lemma BlastpHeaderFails(summaryId: string -> string, pre: seq<Event>, line: string, look: Result<string, ScanError>, s: Scan)
    requires ValidScan(s) && HitIds(s.hits) == Ids(summaryId, pre) && StartsWith(line, ">")
    ensures BlastpStep(s, line, look).Failure? <==> Fails(Blastp, summaryId, pre, Body(line, look))
  {
    BlastpTarget(summaryId, pre, line, look, s);
  }

  /** The state after a BLASTP alignment header, as the events describe it. */
  lemma BlastpHeaderNext(summaryId: string -> string, pre: seq<Event>, line: string, look: Result<string, ScanError>, s: Scan)
    requires ValidScan(s) && s.cur == Current(Blastp, summaryId, pre) && HitIds(s.hits) == Ids(summaryId, pre)
    requires s.text == Copied(pre) && StartsWith(line, ">")
    requires BlastpStep(s, line, look).Success?
    ensures BlastpStep(s, line, look).value.cur == Current(Blastp, summaryId, pre + [Body(line, look)])
    ensures forall k :: 0 <= k < |s.hits| ==>
              BlastpStep(s, line, look).value.hits[k] == Apply(Blastp, summaryId, pre, Body(line, look), s.hits[k], k)
  {
    BlastpTarget(summaryId, pre, line, look, s);
    Unfold(Blastp, summaryId, pre, Body(line, look));
    forall k | 0 <= k < |s.hits|
      ensures BlastpStep(s, line, look).value.hits[k] == Apply(Blastp, summaryId, pre, Body(line, look), s.hits[k], k)
    {
      BlastpHeaderHit(summaryId, pre, line, look, s, k);
    }
  }

  /** A BLASTP alignment header: the step fails exactly when the events say it throws, and keeps the state matching them. */
  lemma BlastpHeaderMatches(summaryId: string -> string, pre: seq<Event>, line: string, look: Result<string, ScanError>, s: Scan)
    requires Matches(Blastp, summaryId, pre, s) && StartsWith(line, ">")
    ensures BlastpStep(s, line, look).Failure? <==> Fails(Blastp, summaryId, pre, Body(line, look))
    ensures BlastpStep(s, line, look).Success? ==> Matches(Blastp, summaryId, pre + [Body(line, look)], BlastpStep(s, line, look).value)
  {
    BlastpHeaderFails(summaryId, pre, line, look, s);
    if BlastpStep(s, line, look).Success? {
      BlastpHeaderNext(summaryId, pre, line, look, s);
      StepMatches(Blastp, summaryId, pre, Body(line, look), s, BlastpStep(s, line, look).value);
    }
  }

  /** A BLASTP line that is not an alignment header: the step fails exactly when the events say it throws, and keeps the state matching them. */
  lemma BlastpFieldMatches(summaryId: string -> string, pre: seq<Event>, line: string, look: Result<string, ScanError>, s: Scan)
    requires Matches(Blastp, summaryId, pre, s) && !StartsWith(line, ">")
    ensures BlastpStep(s, line, look).Failure? <==> Fails(Blastp, summaryId, pre, Body(line, look))
    ensures BlastpStep(s, line, look).Success? ==> Matches(Blastp, summaryId, pre + [Body(line, look)], BlastpStep(s, line, look).value)
  {
    var e := Body(line, look);
    Unfold(Blastp, summaryId, pre, e);
    var r := BlastpStep(s, line, look);
    if r.Success? {
      forall k | 0 <= k < |s.hits|
        ensures r.value.hits[k] == Apply(Blastp, summaryId, pre, e, s.hits[k], k)
      {
        BlastpFieldHit(summaryId, pre, line, look, s, k);
      }
      StepMatches(Blastp, summaryId, pre, e, s, r.value);
    }
  }

  /** What a FASTA alignment header does to hit `k` by the events: it is opened there when the header names it and closed there when it was current. */
  lemma FastaHeaderApply(summaryId: string -> string, pre: seq<Event>, line: string, look: Result<string, ScanError>, h: Hit, k: nat)
    requires StartsWith(line, ">>")
    ensures Apply(Fasta, summaryId, pre, Body(line, look), h, k) ==
      h.(start := if Target(Fasta, summaryId, pre, Body(line, look)) == k then Some(|Copied(pre)|) else h.start,
         end := if Current(Fasta, summaryId, pre) == Some(k) then Some(|Copied(pre)|) else h.end)
  {
    var e := Body(line, look);
    HitExt(Apply(Fasta, summaryId, pre, e, h, k),
           h.(start := if Target(Fasta, summaryId, pre, e) == k then Some(|Copied(pre)|) else h.start,
              end := if Current(Fasta, summaryId, pre) == Some(k) then Some(|Copied(pre)|) else h.end));
  }

  /** The hit a FASTA alignment header names is found among the hits of a state that matches the events. */
  lemma FastaTarget(summaryId: string -> string, pre: seq<Event>, line: string, look: Result<string, ScanError>, s: Scan)
    requires ValidScan(s) && HitIds(s.hits) == Ids(summaryId, pre) && StartsWith(line, ">>") && FastaHeaderId(line).Some?
    ensures Target(Fasta, summaryId, pre, Body(line, look)) == IndexOfItem(HitIds(CloseCurrent(s.hits, s.cur, |s.text|)), FastaHeaderId(line).value)
  {
    CloseKeepsIds(s.hits, s.cur, |s.text|);
  }

  /** A FASTA alignment header closes the current hit and opens the one it names, as `Apply` says. */
  lemma FastaHeaderHit(summaryId: string -> string, pre: seq<Event>, line: string, look: Result<string, ScanError>, s: Scan, k: nat)
    requires ValidScan(s) && s.cur == Current(Fasta, summaryId, pre) && HitIds(s.hits) == Ids(summaryId, pre)
    requires s.text == Copied(pre) && k < |s.hits| && StartsWith(line, ">>")
    requires FastaStep(s, line).Success?
    ensures k < |FastaStep(s, line).value.hits|
    ensures FastaStep(s, line).value.hits[k] == Apply(Fasta, summaryId, pre, Body(line, look), s.hits[k], k)
  {
    FastaTarget(summaryId, pre, line, look, s);
    FastaHeaderApply(summaryId, pre, line, look, s.hits[k], k);
    var closed := CloseCurrent(s.hits, s.cur, |s.text|);
    assert closed[k] == if s.cur == Some(k) then s.hits[k].(end := Some(|s.text|)) else s.hits[k];
  }

  /** A FASTA alignment header fails exactly when the events say it throws. */
  lemma FastaHeaderFails(summaryId: string -> string, pre: seq<Event>, line: string, look: Result<string, ScanError>, s: Scan)
    requires ValidScan(s) && HitIds(s.hits) == Ids(summaryId, pre) && StartsWith(line, ">>")
    ensures FastaStep(s, line).Failure? <==> Fails(Fasta, summaryId, pre, Body(line, look))
  {
    if FastaHeaderId(line).Some? {
      FastaTarget(summaryId, pre, line, look, s);
    }
  }

  /** The state after a FASTA alignment header, as the events describe it. */
  lemma FastaHeaderNext(summaryId: string -> string, pre: seq<Event>, line: string, look: Result<string, ScanError>, s: Scan)
    requires ValidScan(s) && s.cur == Current(Fasta, summaryId, pre) && HitIds(s.hits) == Ids(summaryId, pre)
    requires s.text == Copied(pre) && StartsWith(line, ">>")
    requires FastaStep(s, line).Success?
    ensures FastaStep(s, line).value.cur == Current(Fasta, summaryId, pre + [Body(line, look)])
    ensures forall k :: 0 <= k < |s.hits| ==>
              FastaStep(s, line).value.hits[k] == Apply(Fasta, summaryId, pre, Body(line, look), s.hits[k], k)
  {
    FastaTarget(summaryId, pre, line, look, s);
    Unfold(Fasta, summaryId, pre, Body(line, look));
    forall k | 0 <= k < |s.hits|
      ensures FastaStep(s, line).value.hits[k] == Apply(Fasta, summaryId, pre, Body(line, look), s.hits[k], k)
    {
      FastaHeaderHit(summaryId, pre, line, look, s, k);
    }
  }

  /** A FASTA alignment header: the step fails exactly when the events say it throws, and keeps the state matching them. */
  lemma FastaHeaderMatches(summaryId: string -> string, pre: seq<Event>, line: string, look: Result<string, ScanError>, s: Scan)
    requires Matches(Fasta, summaryId, pre, s) && StartsWith(line, ">>")
    ensures FastaStep(s, line).Failure? <==> Fails(Fasta, summaryId, pre, Body(line, look))
    ensures FastaStep(s, line).Success? ==> Matches(Fasta, summaryId, pre + [Body(line, look)], FastaStep(s, line).value)
  {
    FastaHeaderFails(summaryId, pre, line, look, s);
    if FastaStep(s, line).Success? {
      FastaHeaderNext(summaryId, pre, line, look, s);
      StepMatches(Fasta, summaryId, pre, Body(line, look), s, FastaStep(s, line).value);
    }
  }

  lemma FastaCurrentHit(summaryId: string -> string, pre: seq<Event>, line: string, look: Result<string, ScanError>, s: Scan, k: nat)
    requires ValidScan(s) && s.cur == Current(Fasta, summaryId, pre) == Some(k) && !StartsWith(line, ">>")
    requires FastaStep(s, line).Success?
    ensures k < |FastaStep(s, line).value.hits|
    ensures FastaStep(s, line).value.hits[k] == Apply(Fasta, summaryId, pre, Body(line, look), s.hits[k], k)
  {
    if StartsWith(line, "Smith-Waterman") {
      FastaAlignmentHit(summaryId, pre, line, look, s, k);
    } else {
      HitExt(FastaStep(s, line).value.hits[k], Apply(Fasta, summaryId, pre, Body(line, look), s.hits[k], k));
    }
  }

  /** A Smith-Waterman line sets, in the current hit, the fields the line gives a value, as `Apply` says. */
  lemma FastaAlignmentHit(summaryId: string -> string, pre: seq<Event>, line: string, look: Result<string, ScanError>, s: Scan, k: nat)
    requires ValidScan(s) && s.cur == Current(Fasta, summaryId, pre) == Some(k) && StartsWith(line, "Smith-Waterman")
    requires FastaStep(s, line).Success?
    ensures k < |FastaStep(s, line).value.hits|
    ensures FastaStep(s, line).value.hits[k] == Apply(Fasta, summaryId, pre, Body(line, look), s.hits[k], k)
  {
    var e := Body(line, look);
    var h := s.hits[k];
    assert !StartsWith(line, ">>");
    if !Contains(line, "score:") {
      ApplyKeeps(Fasta, summaryId, pre, e, h, k);
    } else {
      var a := SmithWaterman(line).value;
      assert FastaStep(s, line).value.hits[k] == WithAlignment(h, a);
      assert forall fd :: Sets(Fasta, summaryId, pre, e, k, fd) == AlignmentField(a, fd);
      AlignmentUpdated(h, a);
      UpdatedSame(h, fd => Sets(Fasta, summaryId, pre, e, k, fd), fd => AlignmentField(a, fd), h.start, h.end);
    }
  }

  /** A FASTA line that is not an alignment header changes at most the current hit, as `Apply` says. */
  lemma FastaFieldHit(summaryId: string -> string, pre: seq<Event>, line: string, look: Result<string, ScanError>, s: Scan, k: nat)
    requires ValidScan(s) && s.cur == Current(Fasta, summaryId, pre) && k < |s.hits| && !StartsWith(line, ">>")
    requires FastaStep(s, line).Success?
    ensures k < |FastaStep(s, line).value.hits|
    ensures FastaStep(s, line).value.hits[k] == Apply(Fasta, summaryId, pre, Body(line, look), s.hits[k], k)
  {
    if s.cur == Some(k) {
      FastaCurrentHit(summaryId, pre, line, look, s, k);
    } else {
      ApplyKeeps(Fasta, summaryId, pre, Body(line, look), s.hits[k], k);
    }
  }

  /** A FASTA line that is not an alignment header: the step fails exactly when the events say it throws, and keeps the state matching them. */
  lemma FastaFieldMatches(summaryId: string -> string, pre: seq<Event>, line: string, look: Result<string, ScanError>, s: Scan)
    requires Matches(Fasta, summaryId, pre, s) && !StartsWith(line, ">>")
    ensures FastaStep(s, line).Failure? <==> Fails(Fasta, summaryId, pre, Body(line, look))
    ensures FastaStep(s, line).Success? ==> Matches(Fasta, summaryId, pre + [Body(line, look)], FastaStep(s, line).value)
  {
    var e := Body(line, look);
    Unfold(Fasta, summaryId, pre, e);
    var r := FastaStep(s, line);
    if r.Success? {
      forall k | 0 <= k < |s.hits|
        ensures r.value.hits[k] == Apply(Fasta, summaryId, pre, e, s.hits[k], k)
      {
        FastaFieldHit(summaryId, pre, line, look, s, k);
      }
      StepMatches(Fasta, summaryId, pre, e, s, r.value);
    }
  }

  /** One event: it fails exactly when the events say it throws, and otherwise keeps the state matching the events. */
  lemma ConsumeMatches(f: Format, summaryId: string -> string, pre: seq<Event>, e: Event, s: Scan)
    requires Matches(f, summaryId, pre, s)
    ensures Consume(f, summaryId, s, e).Failure? <==> Fails(f, summaryId, pre, e)
    ensures Consume(f, summaryId, s, e).Success? ==> Matches(f, summaryId, pre + [e], Consume(f, summaryId, s, e).value)
  {
    match e
    case Head(_) => SummaryMatches(f, summaryId, pre, e, s);
    case Summary(_) => SummaryMatches(f, summaryId, pre, e, s);
    case Unclosed =>
    case Body(line, look) =>
      if f == Blastp {
        if StartsWith(line, ">") {
          BlastpHeaderMatches(summaryId, pre, line, look, s);
        } else {
          BlastpFieldMatches(summaryId, pre, line, look, s);
        }
      } else {
        if StartsWith(line, ">>") {
          FastaHeaderMatches(summaryId, pre, line, look, s);
        } else {
          FastaFieldMatches(summaryId, pre, line, look, s);
        }
      }
  }

  /** No event of `es` throws after `pre` exactly when the first does not and none of the rest throws after `pre` and the first. */
  lemma NoFailsShift(f: Format, summaryId: string -> string, pre: seq<Event>, es: seq<Event>)
    requires es != []
    ensures (forall j :: 0 <= j < |es| ==> !Fails(f, summaryId, pre + es[..j], es[j])) <==>
            !Fails(f, summaryId, pre, es[0]) &&
            forall j :: 0 <= j < |es[1..]| ==> !Fails(f, summaryId, (pre + [es[0]]) + es[1..][..j], es[1..][j])
  {
    assert pre + es[..0] == pre;
    forall j | 0 <= j < |es| - 1
      ensures (pre + [es[0]]) + es[1..][..j] == pre + es[..j + 1]
    {
      assert es[..j + 1] == [es[0]] + es[1..][..j];
    }
    if forall j :: 0 <= j < |es| ==> !Fails(f, summaryId, pre + es[..j], es[j]) {
      assert !Fails(f, summaryId, pre + es[..0], es[0]);
      forall j | 0 <= j < |es[1..]|
        ensures !Fails(f, summaryId, (pre + [es[0]]) + es[1..][..j], es[1..][j])
      {
        assert !Fails(f, summaryId, pre + es[..j + 1], es[j + 1]);
      }
    }
    if !Fails(f, summaryId, pre, es[0]) &&
       forall j :: 0 <= j < |es[1..]| ==> !Fails(f, summaryId, (pre + [es[0]]) + es[1..][..j], es[1..][j]) {
      forall j | 0 <= j < |es|
        ensures !Fails(f, summaryId, pre + es[..j], es[j])
      {
        if j > 0 {
          assert !Fails(f, summaryId, (pre + [es[0]]) + es[1..][..j - 1], es[1..][j - 1]);
        }
      }
    }
  }

  /** The events applied in order: the run fails exactly when one of them throws. */
  lemma {:induction false} RunSucceeds(f: Format, summaryId: string -> string, pre: seq<Event>, s: Scan, es: seq<Event>)
    requires Matches(f, summaryId, pre, s)
    ensures Run(f, summaryId, s, es).Success? <==> forall j :: 0 <= j < |es| ==> !Fails(f, summaryId, pre + es[..j], es[j])
    decreases |es|
  {
    if es != [] {
      ConsumeMatches(f, summaryId, pre, es[0], s);
      NoFailsShift(f, summaryId, pre, es);
      var c := Consume(f, summaryId, s, es[0]);
      if c.Success? {
        RunSucceeds(f, summaryId, pre + [es[0]], c.value, es[1..]);
      }
    }
  }

  /** The events applied in order: a run that succeeds ends in a state matching all of them. */
  lemma {:induction false} RunMatches(f: Format, summaryId: string -> string, pre: seq<Event>, s: Scan, es: seq<Event>)
    requires Matches(f, summaryId, pre, s)
    ensures Run(f, summaryId, s, es).Success? ==> Matches(f, summaryId, pre + es, Run(f, summaryId, s, es).value)
    decreases |es|
  {
    if es == [] {
      assert pre + es == pre;
    } else {
      ConsumeMatches(f, summaryId, pre, es[0], s);
      var c := Consume(f, summaryId, s, es[0]);
      if c.Success? {
        RunMatches(f, summaryId, pre + [es[0]], c.value, es[1..]);
        RunRest(f, summaryId, pre, s, es, c.value);
      }
    }
  }

  /** A run whose first event succeeds ends where the run of the rest ends, after the same events. */
  lemma RunRest(f: Format, summaryId: string -> string, pre: seq<Event>, s: Scan, es: seq<Event>, c: Scan)
    requires ValidScan(s) && es != [] && Consume(f, summaryId, s, es[0]) == Success(c)
    ensures Run(f, summaryId, s, es) == Run(f, summaryId, c, es[1..])
    ensures (pre + [es[0]]) + es[1..] == pre + es
  {
  }

  /** The events applied from the empty state: the run fails exactly when one of them throws, and otherwise ends in a state matching them. */
  lemma RunFromStart(f: Format, summaryId: string -> string, es: seq<Event>)
    ensures Run(f, summaryId, Scan("", [], None), es).Failure? <==> Throws(f, summaryId, es)
    ensures Run(f, summaryId, Scan("", [], None), es).Success? ==> Matches(f, summaryId, es, Run(f, summaryId, Scan("", [], None), es).value)
  {
    var s0 := Scan("", [], None);
    assert Matches(f, summaryId, [], s0);
    RunSucceeds(f, summaryId, [], s0, es);
    RunMatches(f, summaryId, [], s0, es);
    assert [] + es == es;
    forall j | 0 <= j < |es|
      ensures [] + es[..j] == es[..j]
    {
    }
    if Throws(f, summaryId, es) {
      var j :| 0 <= j < |es| && Fails(f, summaryId, es[..j], es[j]);
      assert Fails(f, summaryId, [] + es[..j], es[j]);
    }
  }

  /**
   * What the events of a scan mean: the scan succeeds exactly when none of
   * them throws; then its text is every copied line followed by a newline,
   * there is one hit per summary line with that line's id, each field of a
   * hit is the value the last line that wrote it wrote, its start is the
   * offset of the last alignment header that named it, and its end is the
   * offset of the last alignment header met while it was current, or the end
   * of the text when it is current at the end.
   */
  lemma FinishedMeaning(f: Format, summaryId: string -> string, es: seq<Event>)
    ensures Finished(f, summaryId, es).Failure? <==> Throws(f, summaryId, es)
    ensures Finished(f, summaryId, es).Success? ==>
              var rep := Finished(f, summaryId, es).value;
              && rep.text == Copied(es)
              && HitIds(rep.hits) == Ids(summaryId, es)
              && forall k :: 0 <= k < |rep.hits| ==>
                   && (forall fd :: FieldOf(rep.hits[k], fd) == LastSet(f, summaryId, es, k, fd))
                   && rep.hits[k].start == LastOpen(f, summaryId, es, k)
                   && rep.hits[k].end == if Current(f, summaryId, es) == Some(k) then Some(|Copied(es)|) else LastClose(f, summaryId, es, k)
  {
    RunFromStart(f, summaryId, es);
    var r := Run(f, summaryId, Scan("", [], None), es);
    if r.Success? {
      var s := r.value;
      CloseKeepsIds(s.hits, s.cur, |s.text|);
      var hits := CloseCurrent(s.hits, s.cur, |s.text|);
      forall k | 0 <= k < |hits|
        ensures (forall fd :: FieldOf(hits[k], fd) == LastSet(f, summaryId, es, k, fd))
        ensures hits[k].start == LastOpen(f, summaryId, es, k)
        ensures hits[k].end == if Current(f, summaryId, es) == Some(k) then Some(|Copied(es)|) else LastClose(f, summaryId, es, k)
      {
        FinalHit(f, summaryId, es, s, k);
      }
    }
  }

  /** A hit of the final state, once the current one is closed at the end of the text. */
  lemma FinalHit(f: Format, summaryId: string -> string, es: seq<Event>, s: Scan, k: nat)
    requires Matches(f, summaryId, es, s) && k < |s.hits|
    ensures var h := CloseCurrent(s.hits, s.cur, |s.text|)[k];
      && (forall fd :: FieldOf(h, fd) == LastSet(f, summaryId, es, k, fd))
      && h.start == LastOpen(f, summaryId, es, k)
      && h.end == if Current(f, summaryId, es) == Some(k) then Some(|Copied(es)|) else LastClose(f, summaryId, es, k)
  {
    var h := s.hits[k];
    assert HitMatches(f, summaryId, es, h, k);
    ClosedHit(f, summaryId, es, h, k, s.cur == Some(k), |s.text|);
    assert CloseCurrent(s.hits, s.cur, |s.text|)[k] == if s.cur == Some(k) then h.(end := Some(|s.text|)) else h;
  }

  /** A hit agreeing with the events, closed at offset `n` when `closing`: its fields and start are untouched. */
  lemma ClosedHit(f: Format, summaryId: string -> string, es: seq<Event>, h: Hit, k: nat, closing: bool, n: nat)
    requires HitMatches(f, summaryId, es, h, k)
    ensures var c := if closing then h.(end := Some(n)) else h;
      && (forall fd :: FieldOf(c, fd) == LastSet(f, summaryId, es, k, fd))
      && c.start == LastOpen(f, summaryId, es, k)
      && c.end == if closing then Some(n) else LastClose(f, summaryId, es, k)
  {
    var c := if closing then h.(end := Some(n)) else h;
    forall fd
      ensures FieldOf(c, fd) == FieldOf(h, fd)
    {
    }
  }

  /** What the reference scan of `lines` means, in terms of the events of its lines (see `FinishedMeaning`). */
  lemma ScanReportMeaning(f: Format, lines: seq<string>, summaryId: string -> string)
    ensures var es := Script(f, lines, 0);
      ScanReport(f, lines, summaryId).Failure? <==> Throws(f, summaryId, es)
    ensures var es := Script(f, lines, 0);
      ScanReport(f, lines, summaryId).Success? ==>
        var rep := ScanReport(f, lines, summaryId).value;
        && rep.text == Copied(es)
        && HitIds(rep.hits) == Ids(summaryId, es)
        && forall k :: 0 <= k < |rep.hits| ==>
             && (forall fd :: FieldOf(rep.hits[k], fd) == LastSet(f, summaryId, es, k, fd))
             && rep.hits[k].start == LastOpen(f, summaryId, es, k)
             && rep.hits[k].end == if Current(f, summaryId, es) == Some(k) then Some(|Copied(es)|) else LastClose(f, summaryId, es, k)
  {
    var es := Script(f, lines, 0);
    FinishedMeaning(f, summaryId, es);
    assert ScanReport(f, lines, summaryId) == Finished(f, summaryId, es);
  }

  /** Running events that start with `e`: `e` first, then the rest unless `e` failed. */
  lemma RunCons(f: Format, summaryId: string -> string, s: Scan, e: Event, es: seq<Event>)
    requires ValidScan(s)
    ensures Run(f, summaryId, s, [e] + es) ==
            if Consume(f, summaryId, s, e).Failure? then Failure(Consume(f, summaryId, s, e).error)
            else Run(f, summaryId, Consume(f, summaryId, s, e).value, es)
  {
    assert ([e] + es)[0] == e && ([e] + es)[1..] == es;
  }

  /** A summary header is copied, then its block is run (BLASTP skips one line first). */
  lemma HeadRun(f: Format, summaryId: string -> string, lines: seq<string>, at: nat, next: nat, s: Scan)
    requires at < |lines| && IsSummaryHeader(f, lines[at]) && next == Min(at + 1 + Skipped(f), |lines|)
    requires ValidScan(s)
    ensures Run(f, summaryId, s, Script(f, lines, at)) ==
            Run(f, summaryId, Scan(s.text + lines[at] + "\n", s.hits, s.cur), SummaryScript(f, lines, next))
  {
    RunCons(f, summaryId, s, Head(lines[at]), SummaryScript(f, lines, next));
  }

  /** A summary line is copied and adds a hit, which BLASTP makes current. */
  lemma SummaryRun(f: Format, summaryId: string -> string, lines: seq<string>, at: nat, s: Scan)
    requires at < |lines| && lines[at] != "" && ValidScan(s)
    ensures Run(f, summaryId, s, SummaryScript(f, lines, at)) ==
            Run(f, summaryId, Scan(s.text + lines[at] + "\n", s.hits + [NewHit(summaryId(lines[at]))],
                                   if f == Blastp then Some(|s.hits|) else s.cur),
                SummaryScript(f, lines, at + 1))
  {
    RunCons(f, summaryId, s, Summary(lines[at]), SummaryScript(f, lines, at + 1));
  }

  /** A summary block the input ends inside fails. */
  lemma UnclosedRun(f: Format, summaryId: string -> string, lines: seq<string>, s: Scan)
    requires ValidScan(s)
    ensures Run(f, summaryId, s, SummaryScript(f, lines, |lines|)) == Failure(EndOfInput)
  {
    RunCons(f, summaryId, s, Unclosed, []);
    assert [Unclosed] + [] == [Unclosed];
  }

  /** The blank line that closes a summary block ends it: the run goes on with the lines after it. */
  lemma BlankRun(f: Format, summaryId: string -> string, lines: seq<string>, at: nat, s: Scan)
    requires at < |lines| && lines[at] == "" && ValidScan(s)
    ensures Run(f, summaryId, s, SummaryScript(f, lines, at)) == Run(f, summaryId, s, Script(f, lines, at + 1))
  {
  }

  /** Any other line is one step of the format's scan. */
  lemma BodyRun(f: Format, summaryId: string -> string, lines: seq<string>, at: nat, s: Scan)
    requires at < |lines| && !IsSummaryHeader(f, lines[at]) && ValidScan(s)
    ensures Run(f, summaryId, s, Script(f, lines, at)) ==
            var step := if f == Blastp then BlastpStep(s, lines[at], GoLook(lines, at)) else FastaStep(s, lines[at]);
            if step.Failure? then Failure(step.error) else Run(f, summaryId, step.value, Script(f, lines, at + 1))
  {
    RunCons(f, summaryId, s, Body(lines[at], GoLook(lines, at)), Script(f, lines, at + 1));
  }

  /** A scan of `lines` that reached the end in state `s` reports `s`'s text and hits, the current one closed. */
  lemma ScanEnds(f: Format, summaryId: string -> string, lines: seq<string>, s: Scan)
    requires ValidScan(s)
    requires Run(f, summaryId, s, Script(f, lines, |lines|)) == Run(f, summaryId, Scan("", [], None), Script(f, lines, 0))
    ensures ScanReport(f, lines, summaryId) == Success(Report(s.text, CloseCurrent(s.hits, s.cur, |s.text|)))
  {
  }

  /** A scan of `lines` whose run failed reports that failure. */
  lemma ScanFails(f: Format, summaryId: string -> string, lines: seq<string>, e: ScanError)
    requires Run(f, summaryId, Scan("", [], None), Script(f, lines, 0)) == Failure(e)
    ensures ScanReport(f, lines, summaryId) == Failure(e)
  {
  }

  /** The run of the events of `lines` from line `at`, started in state `s`, ends in `goal`. */
  ghost predicate Resumes(f: Format, summaryId: string -> string, s: Scan, lines: seq<string>, at: nat,
                          goal: Result<Scan, ScanError>) {
    at <= |lines| && ValidScan(s) && Run(f, summaryId, s, Script(f, lines, at)) == goal
  }

  /** The same, from line `at` inside a summary block. */
  ghost predicate ResumesBlock(f: Format, summaryId: string -> string, s: Scan, lines: seq<string>, at: nat,
                               goal: Result<Scan, ScanError>) {
    at <= |lines| && ValidScan(s) && Run(f, summaryId, s, SummaryScript(f, lines, at)) == goal
  }

  // ------------------------------------------------------------ scan state

  /** The pairing of start and end offsets is promised: always for FASTA, for BLASTP when at most one line is a summary header. */
  predicate Promised(f: Format, lines: seq<string>) {
    f == Fasta || AtMostOneSummary(f, lines)
  }

  /** One step of `Layout` at a summary header: the block after the skipped line follows. */
  lemma HeaderStep(f: Format, lines: seq<string>, at: nat, next: nat)
    requires at < |lines| && IsSummaryHeader(f, lines[at]) && next == Min(at + 1 + Skipped(f), |lines|)
    ensures Layout(f, lines[at..]) ==
            Shape([lines[at]] + SummaryLayout(f, lines[next..]).copied, SummaryLayout(f, lines[next..]).summaries)
  {
    var ls := lines[at..];
    var skip := Min(1 + Skipped(f), |ls|);
    assert ls[0] == lines[at];
    assert at + skip == next;
    assert ls[skip..] == lines[next..];
  }

  /** One step of `Layout` at any other line: it is copied. */
  lemma LineStep(f: Format, lines: seq<string>, at: nat)
    requires at < |lines| && !IsSummaryHeader(f, lines[at])
    ensures Layout(f, lines[at..]) ==
            Shape([lines[at]] + Layout(f, lines[at + 1..]).copied, Layout(f, lines[at + 1..]).summaries)
  {
    assert lines[at..][0] == lines[at] && lines[at..][1..] == lines[at + 1..];
  }

  /** The blank line that closes a summary block is dropped. */
  lemma BlankStep(f: Format, lines: seq<string>, at: nat, after: nat)
    requires at < |lines| && lines[at] == "" && after == at + 1
    ensures SummaryLayout(f, lines[at..]) == Layout(f, lines[after..])
  {
    assert lines[at..][0] == lines[at] && lines[at..][1..] == lines[after..];
  }

  /** A summary line is copied and listed. */
  lemma SummaryLineStep(f: Format, lines: seq<string>, at: nat)
    requires at < |lines| && lines[at] != ""
    ensures SummaryLayout(f, lines[at..]) ==
            Shape([lines[at]] + SummaryLayout(f, lines[at + 1..]).copied,
                  [lines[at]] + SummaryLayout(f, lines[at + 1..]).summaries)
  {
    assert lines[at..][0] == lines[at] && lines[at..][1..] == lines[at + 1..];
  }


  /**
   * The scan invariant: `done` is what has been copied and turned into hits
   * so far, `rest` what the remaining lines will contribute to `total`, and
   * the locals agree with `done`.
   */
  predicate Tracks(f: Format, summaryId: string -> string, total: Shape, promised: bool, done: Shape, rest: Shape,
                   text: string, position: nat, hits: seq<Hit>, cur: Option<nat>) {
    && done.copied + rest.copied == total.copied
    && done.summaries + rest.summaries == total.summaries
    && text == Joined(done.copied)
    && position <= |text|
    && |hits| == |done.summaries|
    && (forall k :: 0 <= k < |hits| ==> hits[k].id == summaryId(done.summaries[k]))
    && Indexed(f, done.copied, hits)
    && EndsWithin(hits, position)
    && (cur.Some? ==> cur.value < |hits|)
    && (promised ==> Paired(hits, cur, position))
  }

  predicate NoStarts(hits: seq<Hit>) {
    forall k :: 0 <= k < |hits| ==> hits[k].start.None?
  }

  /** Copying a line to the text. */
  lemma CopyLine(f: Format, summaryId: string -> string, total: Shape, promised: bool, done: Shape, x: Shape,
                 text: string, position: nat, hits: seq<Hit>, cur: Option<nat>, line: string)
    requires Tracks(f, summaryId, total, promised, done, Shape([line] + x.copied, x.summaries), text, position, hits, cur)
    ensures Tracks(f, summaryId, total, promised, Shape(done.copied + [line], done.summaries), x,
                   text + line + "\n", position, hits, cur)
  {
    JoinedAppend(done.copied, line);
    IndexedGrows(f, done.copied, line, hits);
    assert done.copied + [line] + x.copied == done.copied + ([line] + x.copied);
  }

  /** Copying a summary line and appending its hit, which becomes the current one when `makeCurrent` holds. */
  lemma AddSummary(f: Format, summaryId: string -> string, total: Shape, promised: bool, done: Shape, x: Shape,
                   text: string, position: nat, hits: seq<Hit>, cur: Option<nat>, s: string, cur': Option<nat>)
    requires Tracks(f, summaryId, total, promised, done, Shape([s] + x.copied, [s] + x.summaries), text, position, hits, cur)
    requires cur' == cur || cur' == Some(|hits|)
    requires cur' != cur && promised ==> NoStarts(hits)
    ensures Tracks(f, summaryId, total, promised, Shape(done.copied + [s], done.summaries + [s]), x,
                   text + s + "\n", position + |s| + 1, hits + [NewHit(summaryId(s))], cur')
    ensures NoStarts(hits) ==> NoStarts(hits + [NewHit(summaryId(s))])
  {
    JoinedAppend(done.copied, s);
    IndexedGrows(f, done.copied, s, hits);
    var hits' := hits + [NewHit(summaryId(s))];
    assert done.copied + [s] + x.copied == done.copied + ([s] + x.copied);
    assert done.summaries + [s] + x.summaries == done.summaries + ([s] + x.summaries);
    forall k | 0 <= k < |hits'| && hits'[k].start.Some?
      ensures OpensAt(f, done.copied + [s], hits'[k].start.value, hits'[k].id)
    {
      assert hits'[k] == hits[k];
    }
  }

  /** Moving `textPosition` forward within the text. */
  lemma Advance(f: Format, summaryId: string -> string, total: Shape, promised: bool, done: Shape, x: Shape,
                text: string, position: nat, hits: seq<Hit>, cur: Option<nat>, n: nat)
    requires Tracks(f, summaryId, total, promised, done, x, text, position, hits, cur)
    requires position <= n <= |text|
    ensures Tracks(f, summaryId, total, promised, done, x, text, n, hits, cur)
  {
  }

  /** Replacing the current hit by one with the same id and offsets (a field setter). */
  lemma SetField(f: Format, summaryId: string -> string, total: Shape, promised: bool, done: Shape, x: Shape,
                 text: string, position: nat, hits: seq<Hit>, cur: Option<nat>, h: Hit)
    requires Tracks(f, summaryId, total, promised, done, x, text, position, hits, cur)
    requires cur.Some?
    requires h.id == hits[cur.value].id && h.start == hits[cur.value].start && h.end == hits[cur.value].end
    ensures Tracks(f, summaryId, total, promised, done, x, text, position, hits[cur.value := h], cur)
  {
    var hits' := hits[cur.value := h];
    forall k | 0 <= k < |hits'| && hits'[k].start.Some?
      ensures OpensAt(f, done.copied, hits'[k].start.value, hits'[k].id)
    {
      assert hits'[k].start == hits[k].start && hits'[k].id == hits[k].id;
    }
  }

  /** Closing the current hit at `textPosition`. */
  lemma CloseBlock(f: Format, summaryId: string -> string, total: Shape, promised: bool, done: Shape, x: Shape,
                   text: string, position: nat, hits: seq<Hit>, cur: Option<nat>)
    requires Tracks(f, summaryId, total, promised, done, x, text, position, hits, cur)
    ensures Tracks(f, summaryId, total, promised, done, x, text, position, CloseCurrent(hits, cur, position), cur)
    ensures promised ==> Closed(CloseCurrent(hits, cur, position))
  {
    var hits' := CloseCurrent(hits, cur, position);
    forall k | 0 <= k < |hits'| && hits'[k].start.Some?
      ensures OpensAt(f, done.copied, hits'[k].start.value, hits'[k].id)
    {
      assert hits'[k].start == hits[k].start && hits'[k].id == hits[k].id;
    }
  }

  /**
   * An alignment header copied last, at offset `textPosition`: hit `k`, which
   * the header names, is opened there and becomes current.
   */
  lemma OpenBlock(f: Format, summaryId: string -> string, total: Shape, promised: bool, done: Shape, x: Shape,
                  text: string, position: nat, hits: seq<Hit>, cur: Option<nat>, line: string, k: nat)
    requires Tracks(f, summaryId, total, promised, done, x, text, position, hits, cur)
    requires promised ==> Closed(hits)
    requires |done.copied| > 0 && done.copied[|done.copied| - 1] == line
    requires position == |Joined(done.copied[..|done.copied| - 1])|
    requires IsBlockHeader(f, line)
    requires k < |hits| && HeaderId(f, line) == Some(hits[k].id)
    ensures Tracks(f, summaryId, total, promised, done, x, text, position,
                   hits[k := hits[k].(start := Some(position))], Some(k))
  {
    var hits' := hits[k := hits[k].(start := Some(position))];
    forall i | 0 <= i < |hits'| && hits'[i].start.Some?
      ensures OpensAt(f, done.copied, hits'[i].start.value, hits'[i].id)
    {
      if i == k {
        var j := |done.copied| - 1;
        assert done.copied[j] == line;
      } else {
        assert hits'[i] == hits[i];
      }
    }
  }

  /** The end of the input, once the current hit is closed: the report is what `total` describes. */
  lemma Finish(f: Format, summaryId: string -> string, total: Shape, promised: bool, done: Shape,
               text: string, hits: seq<Hit>, cur: Option<nat>)
    requires Tracks(f, summaryId, total, promised, done, Shape([], []), text, |text|, hits, cur)
    ensures ScannedAs(f, total, summaryId, Report(text, CloseCurrent(hits, cur, |text|)))
    ensures promised ==> Closed(CloseCurrent(hits, cur, |text|))
  {
    CloseBlock(f, summaryId, total, promised, done, Shape([], []), text, |text|, hits, cur);
    assert done.copied + [] == done.copied && done.summaries + [] == done.summaries;
  }

  // ---------------------------------------------------------------- the scans

  /**
   * A summary header has just been read (line `at`) and appended to the
   * text: BLASTP reads and drops one more line, then the summary lines are
   * read up to the blank one that closes the block, which is read and not
   * copied.  Answers the index of the next unread line.
   */
  method ReadSummaries(f: Format, lines: seq<string>, at: nat, summaryId: string -> string,
                       text0: string, textPosition0: nat, hits0: seq<Hit>, cur0: Option<nat>,
                       ghost total: Shape, ghost promised: bool, ghost done0: Shape, ghost before: string,
                       ghost goal: Result<Scan, ScanError>)
    returns (r: Result<nat, ScanError>, text: string, textPosition: nat, hits: seq<Hit>, cur: Option<nat>,
             ghost done: Shape)
    requires at < |lines| && IsSummaryHeader(f, lines[at])
    requires Tracks(f, summaryId, total, promised, done0, Layout(f, lines[at..]), before, textPosition0, hits0, cur0)
    requires text0 == before + lines[at] + "\n" && textPosition0 == |before|
    requires f == Blastp && promised ==> hits0 == []
    requires Resumes(f, summaryId, Scan(before, hits0, cur0), lines, at, goal)
    ensures r.Success? ==> at < r.value <= |lines|
    ensures r.Failure? ==> goal == Failure(r.error)
    ensures r.Success? ==> Resumes(f, summaryId, Scan(text, hits, cur), lines, r.value, goal)
    ensures r.Success? ==> textPosition + |lines[at]| + 1 == |text|
    ensures r.Success? ==> Tracks(f, summaryId, total, promised, done, Layout(f, lines[r.value..]),
                                  text, textPosition, hits, cur)
  {
    var next := at + 1;
    if f == Blastp && next < |lines| {
      next := next + 1;
    }
    ghost var block := SummaryLayout(f, lines[next..]);
    HeaderStep(f, lines, at, next);
    CopyLine(f, summaryId, total, promised, done0, block, before, textPosition0, hits0, cur0, lines[at]);
    HeadRun(f, summaryId, lines, at, next, Scan(before, hits0, cur0));
    r, text, textPosition, hits, cur, done :=
      SummaryBlock(f, lines, next, summaryId, text0, textPosition0, hits0, cur0,
                   total, promised, Shape(done0.copied + [lines[at]], done0.summaries), |lines[at]| + 1, goal);
  }

  /** The summary lines from `next0` and the blank line after them; answers the index of the line after the blank one. */
  method SummaryBlock(f: Format, lines: seq<string>, next0: nat, summaryId: string -> string,
                      text0: string, textPosition0: nat, hits0: seq<Hit>, cur0: Option<nat>,
                      ghost total: Shape, ghost promised: bool, ghost done0: Shape, ghost pending: nat,
                      ghost goal: Result<Scan, ScanError>)
    returns (r: Result<nat, ScanError>, text: string, textPosition: nat, hits: seq<Hit>, cur: Option<nat>,
             ghost done: Shape)
    requires next0 <= |lines|
    requires Tracks(f, summaryId, total, promised, done0, SummaryLayout(f, lines[next0..]), text0, textPosition0, hits0, cur0)
    requires textPosition0 + pending == |text0|
    requires f == Blastp && promised ==> NoStarts(hits0)
    requires ResumesBlock(f, summaryId, Scan(text0, hits0, cur0), lines, next0, goal)
    ensures r.Success? ==> next0 < r.value <= |lines|
    ensures r.Failure? ==> goal == Failure(r.error)
    ensures r.Success? ==> Resumes(f, summaryId, Scan(text, hits, cur), lines, r.value, goal)
    ensures r.Success? ==> textPosition + pending == |text|
    ensures r.Success? ==> Tracks(f, summaryId, total, promised, done, Layout(f, lines[r.value..]),
                                  text, textPosition, hits, cur)
  {
    var next;
    next, text, textPosition, hits, cur, done :=
      SummaryLines(f, lines, next0, summaryId, text0, textPosition0, hits0, cur0, total, promised, done0, pending, goal);
    if next == |lines| {
      UnclosedRun(f, summaryId, lines, Scan(text, hits, cur));
      return Failure(EndOfInput), text, textPosition, hits, cur, done;
    }
    var after := next + 1;
    BlankStep(f, lines, next, after);
    BlankRun(f, summaryId, lines, next, Scan(text, hits, cur));
    r := Success(after);
  }

  /**
   * The inner loop over a summary block: each line up to the first blank one
   * (or the end of the input) is copied and becomes a new hit, which BLASTP
   * also makes the current hit.
   */
  method SummaryLines(f: Format, lines: seq<string>, next0: nat, summaryId: string -> string,
                      text0: string, textPosition0: nat, hits0: seq<Hit>, cur0: Option<nat>,
                      ghost total: Shape, ghost promised: bool, ghost done0: Shape, ghost pending: nat,
                      ghost goal: Result<Scan, ScanError>)
    returns (next: nat, text: string, textPosition: nat, hits: seq<Hit>, cur: Option<nat>, ghost done: Shape)
    requires next0 <= |lines|
    requires Tracks(f, summaryId, total, promised, done0, SummaryLayout(f, lines[next0..]), text0, textPosition0, hits0, cur0)
    requires textPosition0 + pending == |text0|
    requires f == Blastp && promised ==> NoStarts(hits0)
    requires ResumesBlock(f, summaryId, Scan(text0, hits0, cur0), lines, next0, goal)
    ensures next0 <= next <= |lines| && (next == |lines| || lines[next] == "")
    ensures Tracks(f, summaryId, total, promised, done, SummaryLayout(f, lines[next..]), text, textPosition, hits, cur)
    ensures textPosition + pending == |text|
    ensures ResumesBlock(f, summaryId, Scan(text, hits, cur), lines, next, goal)
  {
    next, text, textPosition, hits, cur, done := next0, text0, textPosition0, hits0, cur0, done0;
    while next < |lines| && lines[next] != ""
      invariant next0 <= next <= |lines|
      invariant Tracks(f, summaryId, total, promised, done, SummaryLayout(f, lines[next..]), text, textPosition, hits, cur)
      invariant textPosition + pending == |text|
      invariant f == Blastp && promised ==> NoStarts(hits)
      invariant ResumesBlock(f, summaryId, Scan(text, hits, cur), lines, next, goal)
    {
      text, textPosition, hits, cur, done :=
        SummaryLine(f, lines, next, summaryId, text, textPosition, hits, cur, total, promised, done, goal);
      next := next + 1;
    }
  }

  /** One line of a summary block, `next`: it is copied and becomes a new hit, which BLASTP makes current. */
  method SummaryLine(f: Format, lines: seq<string>, next: nat, summaryId: string -> string,
                     text0: string, textPosition0: nat, hits0: seq<Hit>, cur0: Option<nat>,
                     ghost total: Shape, ghost promised: bool, ghost done0: Shape, ghost goal: Result<Scan, ScanError>)
    returns (text: string, textPosition: nat, hits: seq<Hit>, cur: Option<nat>, ghost done: Shape)
    requires next < |lines| && lines[next] != ""
    requires Tracks(f, summaryId, total, promised, done0, SummaryLayout(f, lines[next..]), text0, textPosition0, hits0, cur0)
    requires f == Blastp && promised ==> NoStarts(hits0)
    requires ResumesBlock(f, summaryId, Scan(text0, hits0, cur0), lines, next, goal)
    ensures Tracks(f, summaryId, total, promised, done, SummaryLayout(f, lines[next + 1..]), text, textPosition, hits, cur)
    ensures textPosition == textPosition0 + |lines[next]| + 1 && |text| == |text0| + |lines[next]| + 1
    ensures f == Blastp && promised ==> NoStarts(hits)
    ensures ResumesBlock(f, summaryId, Scan(text, hits, cur), lines, next + 1, goal)
  {
    var line := lines[next];
    SummaryRun(f, summaryId, lines, next, Scan(text0, hits0, cur0));
    SummaryLineStep(f, lines, next);
    cur := if f == Blastp then Some(|hits0|) else cur0;
    AddSummary(f, summaryId, total, promised, done0, SummaryLayout(f, lines[next + 1..]),
               text0, textPosition0, hits0, cur0, line, cur);
    textPosition := textPosition0 + |line| + 1;
    text := text0 + line + "\n";
    hits := hits0 + [NewHit(summaryId(line))];
    done := Shape(done0.copied + [line], done0.summaries + [line]);
  }

  /**
   * One pass of the read loop of either format, at line `at`: the line is
   * copied, then a summary header reads its whole block and any other line
   * is one step of the format's scan.  Answers the index of the next unread
   * line, or the exception the source would throw.
   */
  method ReadLine(f: Format, lines: seq<string>, at: nat, summaryId: string -> string,
                  text0: string, textPosition0: nat, hits0: seq<Hit>, cur0: Option<nat>,
                  ghost total: Shape, ghost promised: bool, ghost done0: Shape, ghost goal: Result<Scan, ScanError>)
    returns (r: Result<nat, ScanError>, text: string, textPosition: nat, hits: seq<Hit>, cur: Option<nat>,
             ghost done: Shape)
    requires at < |lines|
    requires Tracks(f, summaryId, total, promised, done0, Layout(f, lines[at..]), text0, textPosition0, hits0, cur0)
    requires textPosition0 == |text0|
    requires f == Blastp && promised && IsSummaryHeader(f, lines[at]) ==> hits0 == []
    requires Resumes(f, summaryId, Scan(text0, hits0, cur0), lines, at, goal)
    ensures r.Success? ==> at < r.value <= |lines|
    ensures r.Failure? ==> goal == Failure(r.error)
    ensures r.Success? ==> Resumes(f, summaryId, Scan(text, hits, cur), lines, r.value, goal)
    ensures r.Success? ==> textPosition == |text|
    ensures r.Success? ==> Tracks(f, summaryId, total, promised, done, Layout(f, lines[r.value..]),
                                  text, textPosition, hits, cur)
    ensures r.Success? && f == Blastp && !IsSummaryHeader(f, lines[at]) && hits0 == [] ==> hits == []
  {
    var line := lines[at];
    var len := |line| + 1;
    text := text0 + line + "\n";
    var next := at + 1;
    if StartsWith(line, SummaryHeader(f)) {
      var block;
      block, text, textPosition, hits, cur, done :=
        ReadSummaries(f, lines, at, summaryId, text, textPosition0, hits0, cur0, total, promised, done0, text0, goal);
      if block.Failure? {
        return Failure(block.error), text, textPosition, hits, cur, done;
      }
      next := block.value;
      Advance(f, summaryId, total, promised, done, Layout(f, lines[next..]), text, textPosition, hits, cur, textPosition + len);
      textPosition := textPosition + len;
      return Success(next), text, textPosition, hits, cur, done;
    }
    var err;
    err, hits, cur, done := BodyLine(f, lines, at, summaryId, text, textPosition0, hits0, cur0, total, promised, done0, text0, goal);
    if err.Some? {
      return Failure(err.value), text, textPosition0, hits, cur, done;
    }
    Advance(f, summaryId, total, promised, done, Layout(f, lines[next..]), text, textPosition0, hits, cur, textPosition0 + len);
    textPosition := textPosition0 + len;
    r := Success(next);
  }

  /** Line `at`, not a summary header, copied to the text: one step of the format's scan. */
  method BodyLine(f: Format, lines: seq<string>, at: nat, ghost summaryId: string -> string,
                  ghost text: string, textPosition: nat, hits0: seq<Hit>, cur0: Option<nat>,
                  ghost total: Shape, ghost promised: bool, ghost done0: Shape, ghost before: string,
                  ghost goal: Result<Scan, ScanError>)
    returns (err: Option<ScanError>, hits: seq<Hit>, cur: Option<nat>, ghost done: Shape)
    requires at < |lines| && !IsSummaryHeader(f, lines[at])
    requires Tracks(f, summaryId, total, promised, done0, Layout(f, lines[at..]), before, textPosition, hits0, cur0)
    requires text == before + lines[at] + "\n" && textPosition == |before|
    requires Resumes(f, summaryId, Scan(before, hits0, cur0), lines, at, goal)
    ensures err.Some? ==> goal == Failure(err.value)
    ensures err.None? ==> Resumes(f, summaryId, Scan(text, hits, cur), lines, at + 1, goal)
    ensures err.None? ==> Tracks(f, summaryId, total, promised, done, Layout(f, lines[at + 1..]), text, textPosition, hits, cur)
    ensures err.None? && f == Blastp && hits0 == [] ==> hits == []
  {
    BodyRun(f, summaryId, lines, at, Scan(before, hits0, cur0));
    if f == Blastp {
      err, hits, cur, done := BlastpLine(lines, at, summaryId, text, textPosition, hits0, cur0, total, promised, done0, before);
    } else {
      err, hits, cur, done := FastaLine(lines, at, summaryId, text, textPosition, hits0, cur0, total, promised, done0, before);
    }
  }

  /** Under `AtMostOneSummary`, a line after a summary header is not one. */
  lemma OneSummary(lines: seq<string>, first: nat, at: nat)
    requires Promised(Blastp, lines)
    requires first < at < |lines| && IsSummaryHeader(Blastp, lines[first])
    ensures !IsSummaryHeader(Blastp, lines[at])
  {
  }

  /** `readBLASTPFile`: copy the lines, create the summary hits and index the alignments. */
  method ReadBlastp(lines: seq<string>, summaryId: string -> string) returns (r: Result<Report, ScanError>)
    ensures r == ScanReport(Blastp, lines, summaryId)
    ensures r.Success? ==> Scanned(Blastp, lines, summaryId, r.value)
    ensures r.Success? && AtMostOneSummary(Blastp, lines) ==> Closed(r.value.hits)
  {
    var text := "";
    var textPosition: nat := 0;
    var hits: seq<Hit> := [];
    var cur: Option<nat> := None;
    var next := 0;
    ghost var done := Shape([], []);
    ghost var total := Layout(Blastp, lines);
    ghost var promised := Promised(Blastp, lines);
    ghost var goal := Run(Blastp, summaryId, Scan("", [], None), Script(Blastp, lines, 0));
    ghost var first: Option<nat> := None;
    assert lines[0..] == lines;
    while next < |lines|
      invariant next <= |lines|
      invariant Tracks(Blastp, summaryId, total, promised, done, Layout(Blastp, lines[next..]), text, textPosition, hits, cur)
      invariant textPosition == |text|
      invariant Resumes(Blastp, summaryId, Scan(text, hits, cur), lines, next, goal)
      invariant first.None? ==> hits == []
      invariant first.Some? ==> first.value < next && IsSummaryHeader(Blastp, lines[first.value])
    {
      var at := next;
      var step;
      if first.Some? && promised {
        OneSummary(lines, first.value, at);
      }
      step, text, textPosition, hits, cur, done :=
        ReadLine(Blastp, lines, at, summaryId, text, textPosition, hits, cur, total, promised, done, goal);
      if step.Failure? {
        ScanFails(Blastp, summaryId, lines, step.error);
        return Failure(step.error);
      }
      next := step.value;
      if StartsWith(lines[at], BLASTP_SUMMARY) {
        first := Some(at);
      }
    }
    assert lines[next..] == [];
    Finish(Blastp, summaryId, total, promised, done, text, hits, cur);
    ScanEnds(Blastp, summaryId, lines, Scan(text, hits, cur));
    hits := CloseCurrent(hits, cur, textPosition);
    return Success(Report(text, hits));
  }

  /**
   * An alignment header naming `id`, the last line copied: the current hit
   * is closed at the header's offset, then the first hit with the id, if
   * any, is opened there and made current.
   */
  method OpenHit(f: Format, line: string, id: string, ghost summaryId: string -> string, ghost text: string,
                 textPosition: nat, hits0: seq<Hit>, cur0: Option<nat>,
                 ghost total: Shape, ghost promised: bool, ghost done: Shape, ghost rest: Shape)
    returns (found: Option<nat>, hits: seq<Hit>, cur: Option<nat>)
    requires Tracks(f, summaryId, total, promised, done, rest, text, textPosition, hits0, cur0)
    requires |done.copied| > 0 && done.copied[|done.copied| - 1] == line
    requires textPosition == |Joined(done.copied[..|done.copied| - 1])|
    requires IsBlockHeader(f, line) && HeaderId(f, line) == Some(id)
    ensures var closed := CloseCurrent(hits0, cur0, textPosition);
      var k := IndexOfItem(HitIds(closed), id);
      && found == (if k == -1 then None else Some(k))
      && hits == (if k == -1 then closed else closed[k := closed[k].(start := Some(textPosition))])
      && cur == (if k == -1 then cur0 else Some(k))
    ensures found.Some? ==> Tracks(f, summaryId, total, promised, done, rest, text, textPosition, hits, cur)
  {
    CloseBlock(f, summaryId, total, promised, done, rest, text, textPosition, hits0, cur0);
    hits := CloseCurrent(hits0, cur0, textPosition);
    cur := cur0;
    found := FindHit(id, hits);
    if found.Some? {
      var k := found.value;
      OpenBlock(f, summaryId, total, promised, done, rest, text, textPosition, hits, cur, line, k);
      hits := hits[k := hits[k].(start := Some(textPosition))];
      cur := found;
    }
  }

  /**
   * Line `at` of a BLASTP report, other than a summary header, has just been
   * read and appended to the text: an alignment header closes the current
   * hit and opens the one it names (then the GO lookahead runs); an
   * "Identities = " or "  Length = " line sets a field of the current hit.
   * `err` is the exception the source would throw.
   */
  method BlastpLine(lines: seq<string>, at: nat, ghost summaryId: string -> string,
                    ghost text: string, textPosition: nat, hits0: seq<Hit>, cur0: Option<nat>,
                    ghost total: Shape, ghost promised: bool, ghost done0: Shape, ghost before: string)
    returns (err: Option<ScanError>, hits: seq<Hit>, cur: Option<nat>, ghost done: Shape)
    requires at < |lines| && !IsSummaryHeader(Blastp, lines[at])
    requires Tracks(Blastp, summaryId, total, promised, done0, Layout(Blastp, lines[at..]), before, textPosition, hits0, cur0)
    requires text == before + lines[at] + "\n" && textPosition == |before|
    ensures BlastpStep(Scan(before, hits0, cur0), lines[at], GoLook(lines, at)) ==
            if err.Some? then Failure(err.value) else Success(Scan(text, hits, cur))
    ensures err.None? ==> Tracks(Blastp, summaryId, total, promised, done, Layout(Blastp, lines[at + 1..]),
                                 text, textPosition, hits, cur)
    ensures err.None? && hits0 == [] ==> hits == []
    ensures err.None? ==> |hits| == |hits0| && forall k :: 0 <= k < |hits| ==> hits[k].id == hits0[k].id
  {
    var line := lines[at];
    ghost var rest := Layout(Blastp, lines[at + 1..]);
    LineStep(Blastp, lines, at);
    CopyLine(Blastp, summaryId, total, promised, done0, rest, before, textPosition, hits0, cur0, line);
    done := Shape(done0.copied + [line], done0.summaries);
    assert done.copied[..|done.copied| - 1] == done0.copied;
    hits, cur := hits0, cur0;
    if StartsWith(line, ">") {
      err, hits, cur := BlastpHeader(lines, at, summaryId, text, textPosition, hits, cur, total, promised, done, rest, before);
      return err, hits, cur, done;
    } else if Find(line, "Identities = ") > -1 {
      var identity := BlastpIdentity(line);
      if identity.None? {
        return Some(BadIndex), hits, cur, done;
      }
      if cur.None? {
        return Some(NoHit), hits, cur, done;
      }
      SetField(Blastp, summaryId, total, promised, done, rest, text, textPosition, hits, cur,
               hits[cur.value].(identity := identity));
      hits := hits[cur.value := hits[cur.value].(identity := identity)];
      return None, hits, cur, done;
    } else if Find(line, "  Length = ") > -1 {
      if cur.None? {
        return Some(NoHit), hits, cur, done;
      }
      SetField(Blastp, summaryId, total, promised, done, rest, text, textPosition, hits, cur,
               hits[cur.value].(length := Some(BlastpLength(line))));
      hits := hits[cur.value := hits[cur.value].(length := Some(BlastpLength(line)))];
      return None, hits, cur, done;
    }
    return None, hits, cur, done;
  }

  /** `readFASTAFile`: copy the lines, create the summary hits and index the alignments. */
  method ReadFasta(lines: seq<string>, summaryId: string -> string) returns (r: Result<Report, ScanError>)
    ensures r == ScanReport(Fasta, lines, summaryId)
    ensures r.Success? ==> Scanned(Fasta, lines, summaryId, r.value) && Closed(r.value.hits)
  {
    var text := "";
    var textPosition: nat := 0;
    var hits: seq<Hit> := [];
    var cur: Option<nat> := None;
    var next := 0;
    ghost var done := Shape([], []);
    ghost var total := Layout(Fasta, lines);
    ghost var promised := Promised(Fasta, lines);
    ghost var goal := Run(Fasta, summaryId, Scan("", [], None), Script(Fasta, lines, 0));
    assert lines[0..] == lines;
    while next < |lines|
      invariant next <= |lines|
      invariant Tracks(Fasta, summaryId, total, promised, done, Layout(Fasta, lines[next..]), text, textPosition, hits, cur)
      invariant textPosition == |text|
      invariant Resumes(Fasta, summaryId, Scan(text, hits, cur), lines, next, goal)
    {
      var step;
      step, text, textPosition, hits, cur, done :=
        ReadLine(Fasta, lines, next, summaryId, text, textPosition, hits, cur, total, promised, done, goal);
      if step.Failure? {
        ScanFails(Fasta, summaryId, lines, step.error);
        return Failure(step.error);
      }
      next := step.value;
    }
    assert lines[next..] == [];
    Finish(Fasta, summaryId, total, promised, done, text, hits, cur);
    ScanEnds(Fasta, summaryId, lines, Scan(text, hits, cur));
    hits := CloseCurrent(hits, cur, textPosition);
    return Success(Report(text, hits));
  }

  /**
   * Line `at` of a BLASTP report is an alignment header, already copied as
   * the last line of `done`: the current hit is closed, the one the header
   * names is opened and made current, then the GO lookahead runs.
   */
  method BlastpHeader(lines: seq<string>, at: nat, ghost summaryId: string -> string,
                      ghost text: string, textPosition: nat, hits0: seq<Hit>, cur0: Option<nat>,
                      ghost total: Shape, ghost promised: bool, ghost done: Shape, ghost rest: Shape, ghost before: string)
    returns (err: Option<ScanError>, hits: seq<Hit>, cur: Option<nat>)
    requires at < |lines| && StartsWith(lines[at], ">")
    requires Tracks(Blastp, summaryId, total, promised, done, rest, text, textPosition, hits0, cur0)
    requires |done.copied| > 0 && done.copied[|done.copied| - 1] == lines[at]
    requires textPosition == |Joined(done.copied[..|done.copied| - 1])|
    requires text == before + lines[at] + "\n" && textPosition == |before|
    ensures BlastpOpen(Scan(before, hits0, cur0), lines[at], GoLook(lines, at)) ==
            if err.Some? then Failure(err.value) else Success(Scan(text, hits, cur))
    ensures err.None? ==> Tracks(Blastp, summaryId, total, promised, done, rest, text, textPosition, hits, cur)
    ensures err.None? ==> |hits| == |hits0| && forall k :: 0 <= k < |hits| ==> hits[k].id == hits0[k].id
  {
    var line := lines[at];
    var id := BlastpHeaderId(line);
    var found;
    found, hits, cur := OpenHit(Blastp, line, id, summaryId, text, textPosition, hits0, cur0, total, promised, done, rest);
    if found.None? {
      return Some(UnknownHit(id)), hits, cur;
    }
    err, hits := BlastpGo(lines, at, found.value, summaryId, text, textPosition, hits, cur, total, promised, done, rest);
  }

  /**
   * The GO lookahead after the BLASTP alignment header at line `at`, which
   * opened hit `k`: the GO text found before the next "Length" line, when
   * not empty, is set on hit `k`.
   */
  method BlastpGo(lines: seq<string>, at: nat, k: nat, ghost summaryId: string -> string,
                  ghost text: string, textPosition: nat, hits0: seq<Hit>, cur: Option<nat>,
                  ghost total: Shape, ghost promised: bool, ghost done: Shape, ghost rest: Shape)
    returns (err: Option<ScanError>, hits: seq<Hit>)
    requires at < |lines| && k < |hits0| && cur == Some(k)
    requires Tracks(Blastp, summaryId, total, promised, done, rest, text, textPosition, hits0, cur)
    ensures GoLook(lines, at).Failure? ==> err == Some(GoLook(lines, at).error)
    ensures GoLook(lines, at).Success? ==>
      && err.None?
      && hits == (if GoLook(lines, at).value != "" then hits0[k := hits0[k].(go := Some(GoLook(lines, at).value))] else hits0)
      && Tracks(Blastp, summaryId, total, promised, done, rest, text, textPosition, hits, cur)
  {
    var go := ScanGo(lines, at + 1, lines[at]);
    hits := hits0;
    if go.Failure? {
      return Some(go.error), hits;
    }
    if go.value != "" {
      SetField(Blastp, summaryId, total, promised, done, rest, text, textPosition, hits, cur,
               hits[k].(go := Some(go.value)));
      hits := hits[k := hits[k].(go := Some(go.value))];
    }
    err := None;
  }

  /**
   * Line `at` of a FASTA report, other than a summary header, has just been
   * read and appended to the text: an alignment header closes the current
   * hit and opens the one it names; a "Smith-Waterman" line with a score and
   * a " E():" line set fields of the current hit.  `err` is the exception the
   * source would throw.
   */
  method FastaLine(lines: seq<string>, at: nat, ghost summaryId: string -> string,
                   ghost text: string, textPosition: nat, hits0: seq<Hit>, cur0: Option<nat>,
                   ghost total: Shape, ghost promised: bool, ghost done0: Shape, ghost before: string)
    returns (err: Option<ScanError>, hits: seq<Hit>, cur: Option<nat>, ghost done: Shape)
    requires at < |lines| && !IsSummaryHeader(Fasta, lines[at])
    requires Tracks(Fasta, summaryId, total, promised, done0, Layout(Fasta, lines[at..]), before, textPosition, hits0, cur0)
    requires text == before + lines[at] + "\n" && textPosition == |before|
    ensures FastaStep(Scan(before, hits0, cur0), lines[at]) ==
            if err.Some? then Failure(err.value) else Success(Scan(text, hits, cur))
    ensures err.None? ==> Tracks(Fasta, summaryId, total, promised, done, Layout(Fasta, lines[at + 1..]),
                                 text, textPosition, hits, cur)
    ensures err.None? ==> |hits| == |hits0| && forall k :: 0 <= k < |hits| ==> hits[k].id == hits0[k].id
  {
    var line := lines[at];
    ghost var rest := Layout(Fasta, lines[at + 1..]);
    LineStep(Fasta, lines, at);
    CopyLine(Fasta, summaryId, total, promised, done0, rest, before, textPosition, hits0, cur0, line);
    done := Shape(done0.copied + [line], done0.summaries);
    assert done.copied[..|done.copied| - 1] == done0.copied;
    hits, cur := hits0, cur0;
    if StartsWith(line, ">>") {
      var id := FastaHeaderId(line);
      if id.None? {
        return Some(BadIndex), hits, cur, done;
      }
      var found;
      found, hits, cur := OpenHit(Fasta, line, id.value, summaryId, text, textPosition, hits, cur, total, promised, done, rest);
      if found.None? {
        return Some(UnknownHit(id.value)), hits, cur, done;
      }
      return None, hits, cur, done;
    } else if StartsWith(line, "Smith-Waterman") {
      if Find(line, "score:") > -1 {
        if SwScore(line).None? {
          return Some(BadIndex), hits, cur, done;
        }
        if cur.None? {
          return Some(NoHit), hits, cur, done;
        }
        var fields := SmithWaterman(line);
        if fields.None? {
          return Some(BadIndex), hits, cur, done;
        }
        SetField(Fasta, summaryId, total, promised, done, rest, text, textPosition, hits, cur,
                 WithAlignment(hits[cur.value], fields.value));
        hits := hits[cur.value := WithAlignment(hits[cur.value], fields.value)];
      }
    } else if Find(line, " E():") > -1 {
      var eValue := FastaEValue(line);
      if eValue.None? {
        return Some(NoToken), hits, cur, done;
      }
      if cur.None? {
        return Some(NoHit), hits, cur, done;
      }
      SetField(Fasta, summaryId, total, promised, done, rest, text, textPosition, hits, cur,
               hits[cur.value].(eValue := eValue));
      hits := hits[cur.value := hits[cur.value].(eValue := eValue)];
    }
    return None, hits, cur, done;
  }

  /**
   * The viewer's constructor: detect the format, then scan the file with the
   * matching reader; a file that no line identifies fails (the source
   * dereferences the null format).
   */
  method OpenReport(lines: seq<string>, summaryId: string -> string)
    returns (format: Option<Format>, r: Result<Report, ScanError>)
    ensures DecidesFormat(lines, format)
    ensures format.None? ==> r == Failure(NoFormat)
    ensures format.Some? ==> r == ScanReport(format.value, lines, summaryId)
    ensures r.Success? ==> format.Some? && Scanned(format.value, lines, summaryId, r.value)
    ensures r.Success? && format == Some(Fasta) ==> Closed(r.value.hits)
  {
    format := ResultsFormat(lines);
    if format.None? {
      return format, Failure(NoFormat);
    }
    if format.value == Fasta {
      r := ReadFasta(lines, summaryId);
    } else {
      r := ReadBlastp(lines, summaryId);
    }
  }
}
