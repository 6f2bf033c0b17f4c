/**
 * The fields the similarity-report scanner reads from single lines of a
 * BLASTP or FASTA report: the id an alignment header names, the identity and
 * length of a BLASTP block, the Smith-Waterman figures and the E-value of a
 * FASTA block.  Each follows the source's `indexOf`/`substring` arithmetic;
 * None stands for the `substring` that would throw.
 */
module ReportLines {
  import opened Wrappers
  import opened JavaText

  // ------------------------------------------------------------ block headers

  /**
   * The id a BLASTP alignment header names: the text between `>` and the
   * first space (the whole line when there is none), with everything up to
   * and including its first `:` removed.
   */
  function BlastpHeaderId(line: string): string
    requires StartsWith(line, ">")
  {
    var sp := Find(line, " ");
    var id := if sp > -1 then line[1..sp] else line;
    var colon := Find(id, ":");
    if colon > -1 then id[colon + 1..] else id
  }

  /** The id a FASTA alignment header names: `line.substring(2, first space)`, failing without a space. */
  function FastaHeaderId(line: string): Option<string> {
    Substring(line, 2, Find(line, " "))
  }

  /** A BLASTP header `>ns:acc description` names `acc`: the database prefix is dropped. */
  lemma BlastpHeaderIdOf(ns: string, acc: string, rest: string)
    requires ' ' !in ns && ':' !in ns && ' ' !in acc
    ensures BlastpHeaderId(">" + ns + ":" + acc + " " + rest) == acc
  {
    var line := ">" + ns + ":" + acc + " " + rest;
    var sp := |ns| + |acc| + 2;
    assert line[sp..sp + 1] == " " && line[0..sp] == ">" + ns + ":" + acc;
    IndexAt(line, " ", 0, sp, 0);
    var id := line[1..sp];
    assert id == ns + ":" + acc;
    assert id[|ns|..|ns| + 1] == ":" && id[0..|ns|] == ns;
    IndexAt(id, ":", 0, |ns|, 0);
    assert id[|ns| + 1..] == acc;
  }

  /** A BLASTP header `>acc description` without a database prefix names `acc`. */
  lemma BlastpHeaderIdPlain(acc: string, rest: string)
    requires ' ' !in acc && ':' !in acc
    ensures BlastpHeaderId(">" + acc + " " + rest) == acc
  {
    var line := ">" + acc + " " + rest;
    assert line[|acc| + 1..|acc| + 2] == " " && line[0..|acc| + 1] == ">" + acc;
    IndexAt(line, " ", 0, |acc| + 1, 0);
    assert line[1..|acc| + 1] == acc;
    NotFound(acc, ":");
  }

  /** A BLASTP header with neither a space nor a colon names itself, `>` included. */
  lemma BlastpHeaderIdWhole(line: string)
    requires StartsWith(line, ">") && ' ' !in line && ':' !in line
    ensures BlastpHeaderId(line) == line
  {
    NotFound(line, " ");
    NotFound(line, ":");
  }

  /** A FASTA header `>>acc description` names `acc`. */
  lemma FastaHeaderIdOf(acc: string, rest: string)
    requires ' ' !in acc
    ensures FastaHeaderId(">>" + acc + " " + rest) == Some(acc)
  {
    var line := ">>" + acc + " " + rest;
    assert line[|acc| + 2..|acc| + 3] == " " && line[0..|acc| + 2] == ">>" + acc;
    IndexAt(line, " ", 0, |acc| + 2, 0);
    assert line[2..|acc| + 2] == acc;
  }

  /** A FASTA header without a space makes the source's `substring` throw. */
  lemma FastaHeaderIdNoSpace(line: string)
    requires ' ' !in line
    ensures FastaHeaderId(line) == None
  {
    NotFound(line, " ");
  }

  // ---------------------------------------------------------------- BLASTP fields

  /** A BLASTP "Identities = " line: the text between the next '(' and the ')' after it, trimmed. */
  function BlastpIdentity(line: string): Option<string>
    requires Contains(line, "Identities = ")
  {
    var b := IndexOf(line, "(", Find(line, "Identities = ")) + 1;
    match Substring(line, b, IndexOf(line, ")", b))
    case None => None
    case Some(t) => Some(Trim(t))
  }

  /** A BLASTP "  Length = " line: everything after the marker. */
  function BlastpLength(line: string): string
    requires Contains(line, "  Length = ")
  {
    line[Find(line, "  Length = ") + 11..]
  }

  /** "Identities = n/m (p%)": the identity is the text between the parentheses, trimmed. */
  lemma BlastpIdentityOf(pre: string, counts: string, pct: string, rest: string)
    requires 'I' !in pre && '(' !in counts && ')' !in pct
    ensures var line := pre + "Identities = " + counts + "(" + pct + ")" + rest;
      Contains(line, "Identities = ") && BlastpIdentity(line) == Some(Trim(pct))
  {
    var head := pre + "Identities = " + counts + "(";
    IdentitiesMarks(pre, counts, pct, rest);
    Pieces(head, pct, ")", rest);
    BlastpIdentityAt(head + pct + ")" + rest, |head| - 1, |head| + |pct|);
  }

  /** Where the searches of `BlastpIdentity` land on an "Identities = n/m (p%)" line. */
  lemma IdentitiesMarks(pre: string, counts: string, pct: string, rest: string)
    requires 'I' !in pre && '(' !in counts && ')' !in pct
    ensures var line := pre + "Identities = " + counts + "(" + pct + ")" + rest;
      var c := |pre| + 13 + |counts|;
      Find(line, "Identities = ") == |pre| && IndexOf(line, "(", |pre|) == c &&
      IndexOf(line, ")", c + 1) == c + 1 + |pct|
  {
    var a := |pre|;
    var mid := pre + "Identities = " + counts;
    var head := mid + "(";
    var line := head + pct + ")" + rest;
    assert pre[0..] == pre;
    assert line == pre + "Identities = " + (counts + "(" + pct + ")" + rest);
    IndexAfter(pre, "Identities = ", counts + "(" + pct + ")" + rest, 0, 0);
    assert mid[a..] == "Identities = " + counts;
    assert line == mid + "(" + (pct + ")" + rest);
    IndexAfter(mid, "(", pct + ")" + rest, a, 0);
    assert (head + pct)[|head|..] == pct;
    IndexAfter(head + pct, ")", rest, |head|, 0);
  }

  /** The identity is read between the '(' found after the marker and the ')' found after that. */
  lemma BlastpIdentityAt(line: string, open: nat, close: nat)
    requires Contains(line, "Identities = ") && IndexOf(line, "(", Find(line, "Identities = ")) == open
    requires IndexOf(line, ")", open + 1) == close && open < close
    ensures BlastpIdentity(line) == Some(Trim(line[open + 1..close]))
  {
  }

  /** "  Length = n": the length is the rest of the line. */
  lemma BlastpLengthOf(pre: string, n: string)
    requires 'L' !in pre
    ensures Contains(pre + "  Length = " + n, "  Length = ") && BlastpLength(pre + "  Length = " + n) == n
  {
    var line := pre + "  Length = " + n;
    assert line[|pre|..|pre| + 11] == "  Length = " && line[0..|pre|] == pre;
    IndexAt(line, "  Length = ", 0, |pre|, 2);
  }

  // ----------------------------------------------------------------- FASTA fields

  /** The fields a Smith-Waterman line sets; None where the line leaves a field as it was. */
  datatype Alignment = Alignment(
    score: Option<string>,
    identity: Option<string>,
    ungapped: Option<string>,
    overlap: Option<string>,
    queryRange: Option<string>,
    subjectRange: Option<string>)

  /** The score of a Smith-Waterman line: the text after "score:" up to the next ';'. */
  function SwScore(line: string): Option<string>
    requires Contains(line, "score:")
  {
    var i := Find(line, "score:");
    Substring(line, i + 6, IndexOf(line, ";", i))
  }

  /** What one guarded setter of the source does: not called, called with a value, or its substring throws. */
  datatype Step = Skip | Set(value: string) | Throw

  /** `if (guard) set(line.substring(b, e))`, trimmed when `trim` holds. */
  function Guarded(line: string, guard: bool, b: int, e: int, trim: bool): (r: Step)
    ensures r.Skip? <==> !guard
    ensures r.Throw? <==> guard && !(0 <= b <= e <= |line|)
    ensures r.Set? ==> 0 <= b <= e <= |line| && r.value == if trim then Trim(line[b..e]) else line[b..e]
  {
    if !guard then Skip
    else match Substring(line, b, e)
      case None => Throw
      case Some(t) => Set(if trim then Trim(t) else t)
  }

  function Value(s: Step): Option<string> {
    if s.Set? then Some(s.value) else None
  }

  /**
   * The fields of a FASTA "Smith-Waterman" line, following the index
   * arithmetic of the source step by step (including the search for
   * "identity" from the start of the line, and searches from -1 starting at
   * 0); None when one of its substrings is out of range.
   */
  function SmithWaterman(line: string): Option<Alignment>
    requires Contains(line, "score:")
  {
    SwFields(line, SwMarks(line))
  }

  /** Where each search of a Smith-Waterman line lands, -1 when it finds nothing. */
  datatype Marks = Marks(scoreAt: int, semiAt: int, identityAt: int, openAt: int, ungappedAt: int,
                         inAt: int, rangeAt: int, colonAt: int, closeAt: int)

  /** The searches of the source in order, each starting where the previous one left off. */
  function SwMarks(line: string): Marks {
    var i := Find(line, "score:");
    var semi := IndexOf(line, ";", i);
    var b := Find(line, "identity");
    var c := IndexOf(line, "(", b);
    var u := IndexOf(line, "ungapped)", c);
    var e := IndexOf(line, " in ", if c > -1 then u else b);
    var g := IndexOf(line, "(", e);
    var h := IndexOf(line, ":", g + 1);
    Marks(i, semi, b, c, u, e, g, h, IndexOf(line, ")", h + 1))
  }

  /** The setters of a Smith-Waterman line, given where its searches landed. */
  function SwFields(line: string, m: Marks): Option<Alignment> {
    var score := Guarded(line, true, m.scoreAt + 6, m.semiAt, false);
    var identity := Guarded(line, m.identityAt > -1, m.semiAt + 1, m.identityAt, true);
    var ungapped := Guarded(line, m.openAt > -1, m.openAt + 1, m.ungappedAt, true);
    var overlap := Guarded(line, m.inAt > -1 && m.rangeAt > -1, m.inAt + 4, m.rangeAt, true);
    var queryRange := Guarded(line, m.colonAt > -1, m.rangeAt + 1, m.colonAt, false);
    var subjectRange := Guarded(line, m.closeAt > -1, m.colonAt + 1, m.closeAt, false);
    if score.Throw? || identity.Throw? || ungapped.Throw? || overlap.Throw? ||
       queryRange.Throw? || subjectRange.Throw?
    then None
    else Some(Alignment(Value(score), Value(identity), Value(ungapped), Value(overlap),
                        Value(queryRange), Value(subjectRange)))
  }

  /** The E-value of a FASTA line: the first token after " E():", trimmed; None when there is none. */
  function FastaEValue(line: string): Option<string>
    requires Contains(line, " E():")
  {
    match NextToken(line[Find(line, " E():") + 5..])
    case None => None
    case Some(t) => Some(Trim(t))
  }

  /**
   * When the searches land in the order a well-formed line puts them, each
   * setter reads the text between two consecutive marks: the score after
   * "score:", the identity after the ';', the ungapped identity after the '(',
   * the overlap after " in ", and the two ranges either side of the ':'.
   */
  lemma SmithWatermanAt(line: string, m: Marks)
    requires Contains(line, "score:") && SwMarks(line) == m
    requires 0 <= m.scoreAt && m.scoreAt + 6 <= m.semiAt < m.identityAt < m.openAt < m.ungappedAt <= m.inAt
    requires m.inAt + 4 <= m.rangeAt < m.colonAt < m.closeAt <= |line|
    ensures SwScore(line) == Some(line[m.scoreAt + 6..m.semiAt])
    ensures SmithWaterman(line) ==
      Some(Alignment(Some(line[m.scoreAt + 6..m.semiAt]), Some(Trim(line[m.semiAt + 1..m.identityAt])),
                     Some(Trim(line[m.openAt + 1..m.ungappedAt])), Some(Trim(line[m.inAt + 4..m.rangeAt])),
                     Some(line[m.rangeAt + 1..m.colonAt]), Some(line[m.colonAt + 1..m.closeAt])))
  {
    SwFieldsAt(line, m);
  }

  /** A score with no ';' after it makes the first `substring` throw, so no field is set. */
  lemma SmithWatermanNoSemicolon(line: string)
    requires Contains(line, "score:") && IndexOf(line, ";", Find(line, "score:")) == -1
    ensures SmithWaterman(line) == None
  {
  }

  /** The setters read consecutive stretches of the line when the marks are in order. */
  lemma SwFieldsAt(line: string, m: Marks)
    requires 0 <= m.scoreAt && m.scoreAt + 6 <= m.semiAt < m.identityAt < m.openAt < m.ungappedAt <= m.inAt
    requires m.inAt + 4 <= m.rangeAt < m.colonAt < m.closeAt <= |line|
    ensures SwFields(line, m) ==
      Some(Alignment(Some(line[m.scoreAt + 6..m.semiAt]), Some(Trim(line[m.semiAt + 1..m.identityAt])),
                     Some(Trim(line[m.openAt + 1..m.ungappedAt])), Some(Trim(line[m.inAt + 4..m.rangeAt])),
                     Some(line[m.rangeAt + 1..m.colonAt]), Some(line[m.colonAt + 1..m.closeAt])))
  {
    assert Guarded(line, true, m.scoreAt + 6, m.semiAt, false) == Set(line[m.scoreAt + 6..m.semiAt]);
    assert Guarded(line, m.identityAt > -1, m.semiAt + 1, m.identityAt, true)
        == Set(Trim(line[m.semiAt + 1..m.identityAt]));
    assert Guarded(line, m.openAt > -1, m.openAt + 1, m.ungappedAt, true)
        == Set(Trim(line[m.openAt + 1..m.ungappedAt]));
    assert Guarded(line, m.inAt > -1 && m.rangeAt > -1, m.inAt + 4, m.rangeAt, true)
        == Set(Trim(line[m.inAt + 4..m.rangeAt]));
    assert Guarded(line, m.colonAt > -1, m.rangeAt + 1, m.colonAt, false) == Set(line[m.rangeAt + 1..m.colonAt]);
    assert Guarded(line, m.closeAt > -1, m.colonAt + 1, m.closeAt, false) == Set(line[m.colonAt + 1..m.closeAt]);
  }

  /** " E(): v": the E-value is the first token after the marker. */
  lemma FastaEValueOf(pre: string, gap: string, v: string, rest: string)
    requires 'E' !in pre
    requires forall k :: 0 <= k < |gap| ==> IsDelimiter(gap[k])
    requires v != [] && forall k :: 0 <= k < |v| ==> !IsTrimmed(v[k])
    requires rest == [] || IsDelimiter(rest[0])
    ensures var line := pre + " E():" + gap + v + rest;
      Contains(line, " E():") && FastaEValue(line) == Some(v)
  {
    var line := pre + " E():" + gap + v + rest;
    EMarker(pre, gap + v + rest);
    assert line == pre + " E():" + (gap + v + rest);
    NextTokenOf(gap, v, rest);
    assert v + [] == v;
    TrimOfPadded(v, []);
  }

  /** Nothing but delimiters after " E():" makes the source's `nextToken()` throw. */
  lemma FastaEValueMissing(pre: string, gap: string)
    requires 'E' !in pre
    requires forall k :: 0 <= k < |gap| ==> IsDelimiter(gap[k])
    ensures Contains(pre + " E():" + gap, " E():") && FastaEValue(pre + " E():" + gap) == None
  {
    EMarker(pre, gap);
    OnlyDelimiters(gap);
  }

  /** The " E():" search lands right after `pre` and leaves `tail`. */
  lemma EMarker(pre: string, tail: string)
    requires 'E' !in pre
    ensures var line := pre + " E():" + tail;
      Find(line, " E():") == |pre| && line[|pre| + 5..] == tail
  {
    var line := pre + " E():" + tail;
    Pieces(pre, " E():", tail, []);
    assert line + [] == line;
    IndexAt(line, " E():", 0, |pre|, 1);
  }

  /** The pieces of a concatenation, read back as slices of it. */
  lemma Pieces(a: string, b: string, c: string, d: string)
    ensures var s := a + b + c + d;
      s[0..|a|] == a && s[|a|..|a| + |b|] == b && s[|a| + |b|..] == c + d
  {
  }
}
