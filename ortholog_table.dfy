/**
 * The ortholog/paralog qualifier codec of the gene builder's match table.
 *
 * A qualifier value such as
 *   `speciesA:geneX link=ID1,speciesB:geneY link=ID2;description=kinase;cluster_name=C1;rank=3`
 * is a `;`-separated list of components.  Component 0 is a `,`-separated list
 * of gene entries `organism:gene link=target`; the other components are
 * recognised by their key.  Decoding turns every gene entry into one table
 * row; encoding turns one row back into a value whose rank is the row's
 * index; the rank comparator orders values before decoding; and a loose
 * membership test decides whether a value is already present.
 */
module OrthoParalog {
  import opened Wrappers
  import opened JavaText
  import opened Qualifiers

  /**
   * One table row, a field per column in the table's column order: cluster,
   * match, the hidden term (the qualifier name), the type symbol, organism,
   * gene, link and description.  The remove-button column holds nothing.
   */
  datatype Row = Row(cluster: string, matchName: string, term: string, kind: string,
                     organism: string, gene: string, link: string, description: string)

  /** Where decoding throws. */
  datatype Fault =
    | NoComponent(value: string)   // `rowStr.get(0)` on a value without any component
    | NoGene(entry: string)        // `geneNameAndLink[0]` on an entry that splits into nothing
    | NoOrganism(entry: string)    // `gene[0]` on a gene text that splits into nothing
    | NoLink(entry: string)        // `geneNameAndLink[1]` on an entry without a "link=" part
    | BadRank(qualifier: string)   // the comparator's NumberFormatException while sorting

  // ---------------------------------------------------------------- rank comparator

  /** The rank text the comparator reads: the first component starting with "rank", its 5-character key removed; "0" when there is none. */
  function RankText(value: string): string {
    var t := GetString(Tokens(value, ';'), "rank");
    if t == "" then "0"
    else if StartsWith(t, "rank=") || StartsWith(t, "rank ") then t[5..]
    else t
  }

  /** The rank of a value, None when `new Integer` throws on its rank text. */
  function Rank(value: string): Option<int> {
    ParseInt(RankText(value))
  }

  /** `OrthoParalogValueComparator.compare`: `Integer.compareTo` of the two ranks; None when either rank throws. */
  function Compare(a: string, b: string): (r: Option<int>)
    ensures r.Some? <==> Rank(a).Some? && Rank(b).Some?
    ensures r.Some? ==> -1 <= r.value <= 1
    ensures r.Some? ==> (r.value < 0 <==> Rank(a).value < Rank(b).value)
    ensures r.Some? ==> (r.value == 0 <==> Rank(a).value == Rank(b).value)
  {
    match (Rank(a), Rank(b))
    case (Some(x), Some(y)) => Some(if x < y then -1 else if x == y then 0 else 1)
    case _ => None
  }

  /** Every value compares equal to itself, unless its rank throws. */
  lemma CompareReflexive(a: string)
    ensures Rank(a).Some? ==> Compare(a, a) == Some(0)
    ensures Rank(a).None? ==> Compare(a, a) == None
  {
  }

  /** Swapping the arguments negates the comparison. */
  lemma CompareAntisymmetric(a: string, b: string)
    ensures Compare(a, b).Some? <==> Compare(b, a).Some?
    ensures Compare(a, b).Some? ==> Compare(a, b).value == -Compare(b, a).value
  {
  }

  /** A value without a rank component has rank 0. */
  lemma RankAbsent(value: string)
    requires forall k :: 0 <= k < |Tokens(value, ';')| ==> !StartsWith(Tokens(value, ';')[k], "rank")
    ensures Rank(value) == Some(0)
  {
    assert ParseInt("0") == Some(0) by {
      assert AllDigits("0");
      assert DigitsValue("0") == 10 * DigitsValue("") + 0;
    }
  }

  /** A value whose first rank component is `rank=n`, for an int `n >= 0` written out, has rank `n`. */
  lemma RankOf(value: string, n: nat)
    requires n <= MAX_INT && GetString(Tokens(value, ';'), "rank") == "rank=" + NatToString(n)
    ensures Rank(value) == Some(n)
  {
    var t := "rank=" + NatToString(n);
    assert StartsWith(t, "rank=") && t[5..] == NatToString(n);
    ParseNatToString(n);
  }

  // ---------------------------------------------------------------- sorting

  /** Every value's rank parses, so every comparison succeeds. */
  predicate AllRanked(vs: seq<string>) {
    forall k :: 0 <= k < |vs| ==> Rank(vs[k]).Some?
  }

  /** The rank as a sort key; consulted only when every rank parses. */
  function Key(v: string): int {
    match Rank(v)
    case Some(n) => n
    case None => 0
  }

  /*
   * The sort is stated for any key function: the proofs below only compare
   * keys, and the sort of the table uses `Key`.
   */

  predicate SortedBy(vs: seq<string>, key: string -> int) {
    forall i, j :: 0 <= i < j < |vs| ==> key(vs[i]) <= key(vs[j])
  }

  /** The values of key `k`, in their order in `vs`. */
  function WithKey(vs: seq<string>, key: string -> int, k: int): seq<string> {
    if vs == [] then []
    else WithKey(vs[..|vs| - 1], key, k) + (if key(vs[|vs| - 1]) == k then [vs[|vs| - 1]] else [])
  }

  /** `x` placed after every value of `vs` whose key is not greater. */
  function Insert(x: string, vs: seq<string>, key: string -> int): seq<string> {
    if vs == [] || key(vs[|vs| - 1]) <= key(x) then vs + [x]
    else Insert(x, vs[..|vs| - 1], key) + [vs[|vs| - 1]]
  }

  function InsertionSort(vs: seq<string>, key: string -> int): seq<string> {
    if vs == [] then [] else Insert(vs[|vs| - 1], InsertionSort(vs[..|vs| - 1], key), key)
  }

  /**
   * `Collections.sort(values, comparator)`: a stable sort by rank.  With two
   * or more values every value takes part in some comparison, so one rank that
   * does not parse makes the sort throw; a single value is never compared.
   */
  function SortValues(vs: seq<string>): Option<seq<string>> {
    if |vs| < 2 then Some(vs)
    else if AllRanked(vs) then Some(InsertionSort(vs, Key))
    else None
  }

  lemma SortedInit(vs: seq<string>, key: string -> int)
    requires vs != [] && SortedBy(vs, key)
    ensures SortedBy(vs[..|vs| - 1], key)
  {
    var init := vs[..|vs| - 1];
    forall i, j | 0 <= i < j < |init| ensures key(init[i]) <= key(init[j]) {
      assert init[i] == vs[i] && init[j] == vs[j];
    }
  }

  lemma {:induction false} InsertSorted(x: string, vs: seq<string>, key: string -> int)
    requires SortedBy(vs, key)
    ensures SortedBy(Insert(x, vs, key), key)
    decreases |vs|
  {
    if vs != [] && key(vs[|vs| - 1]) > key(x) {
      var init, last := vs[..|vs| - 1], vs[|vs| - 1];
      SortedInit(vs, key);
      InsertSorted(x, init, key);
      assert forall i :: 0 <= i < |init| ==> init[i] == vs[i];
      InsertBounded(x, init, key, key(last));
      var r := Insert(x, init, key);
      assert forall i :: 0 <= i < |r| ==> (r + [last])[i] == r[i];
    }
  }

  /** Inserting keeps every key below a bound that `x` and all of `vs` respect. */
  lemma {:induction false} InsertBounded(x: string, vs: seq<string>, key: string -> int, b: int)
    requires key(x) <= b && forall i :: 0 <= i < |vs| ==> key(vs[i]) <= b
    ensures |Insert(x, vs, key)| == |vs| + 1
    ensures forall i :: 0 <= i < |Insert(x, vs, key)| ==> key(Insert(x, vs, key)[i]) <= b
    decreases |vs|
  {
    if vs != [] && key(vs[|vs| - 1]) > key(x) {
      var init := vs[..|vs| - 1];
      assert forall i :: 0 <= i < |init| ==> init[i] == vs[i];
      InsertBounded(x, init, key, b);
    }
  }

  lemma {:induction false} InsertWithKey(x: string, vs: seq<string>, key: string -> int, k: int)
    requires SortedBy(vs, key)
    ensures WithKey(Insert(x, vs, key), key, k) == WithKey(vs, key, k) + (if key(x) == k then [x] else [])
    decreases |vs|
  {
    if vs == [] || key(vs[|vs| - 1]) <= key(x) {
      assert (vs + [x])[..|vs|] == vs;
    } else {
      var init, last := vs[..|vs| - 1], vs[|vs| - 1];
      SortedInit(vs, key);
      var r := Insert(x, init, key);
      InsertWithKey(x, init, key, k);
      assert (r + [last])[..|r|] == r && (r + [last])[|r|] == last;
      var before := WithKey(init, key, k);
      if key(x) == k {
        assert WithKey(Insert(x, vs, key), key, k) == before + [x];
      } else if key(last) == k {
        assert WithKey(Insert(x, vs, key), key, k) == before + [last];
      } else {
        assert WithKey(Insert(x, vs, key), key, k) == before;
      }
    }
  }

  lemma {:induction false} InsertMultiset(x: string, vs: seq<string>, key: string -> int)
    ensures multiset(Insert(x, vs, key)) == multiset(vs) + multiset{x}
    decreases |vs|
  {
    if vs != [] && key(vs[|vs| - 1]) > key(x) {
      InsertMultiset(x, vs[..|vs| - 1], key);
      assert vs[..|vs| - 1] + [vs[|vs| - 1]] == vs;
    }
  }

  /** The sort orders the values by ascending key. */
  lemma {:induction false} SortSorted(vs: seq<string>, key: string -> int)
    ensures SortedBy(InsertionSort(vs, key), key)
  {
    if vs != [] {
      SortSorted(vs[..|vs| - 1], key);
      InsertSorted(vs[|vs| - 1], InsertionSort(vs[..|vs| - 1], key), key);
    }
  }

  /** The sort is stable: the values of each key keep their relative order. */
  lemma {:induction false} SortStable(vs: seq<string>, key: string -> int, k: int)
    ensures WithKey(InsertionSort(vs, key), key, k) == WithKey(vs, key, k)
  {
    if vs != [] {
      SortStable(vs[..|vs| - 1], key, k);
      SortSorted(vs[..|vs| - 1], key);
      InsertWithKey(vs[|vs| - 1], InsertionSort(vs[..|vs| - 1], key), key, k);
    }
  }

  /** The sort is a permutation of its input. */
  lemma {:induction false} SortPermutes(vs: seq<string>, key: string -> int)
    ensures multiset(InsertionSort(vs, key)) == multiset(vs)
  {
    if vs != [] {
      SortPermutes(vs[..|vs| - 1], key);
      InsertMultiset(vs[|vs| - 1], InsertionSort(vs[..|vs| - 1], key), key);
      assert vs[..|vs| - 1] + [vs[|vs| - 1]] == vs;
    }
  }

  /** The sort before decoding throws exactly when there are two or more values and some rank does not parse. */
  lemma SortValuesFails(vs: seq<string>)
    ensures SortValues(vs).None? <==> |vs| >= 2 && !AllRanked(vs)
  {
  }

  /**
   * Otherwise its result is ordered by ascending rank, a permutation of the
   * values, and stable: the values of each rank keep their relative order.
   * (A single value is left alone whatever its rank.)
   */
  lemma SortValuesOrders(vs: seq<string>)
    requires SortValues(vs).Some?
    ensures var out := SortValues(vs).value;
      (|vs| >= 2 ==> AllRanked(out)) && SortedBy(out, Key) && multiset(out) == multiset(vs) &&
      forall k :: WithKey(out, Key, k) == WithKey(vs, Key, k)
  {
    if |vs| >= 2 {
      var out := InsertionSort(vs, Key);
      SortSorted(vs, Key);
      SortPermutes(vs, Key);
      forall k ensures WithKey(out, Key, k) == WithKey(vs, Key, k) {
        SortStable(vs, Key, k);
      }
      RankedPermutation(vs, out);
    }
  }

  lemma RankedPermutation(vs: seq<string>, out: seq<string>)
    requires AllRanked(vs) && multiset(out) == multiset(vs)
    ensures AllRanked(out)
  {
    forall i | 0 <= i < |out| ensures Rank(out[i]).Some? {
      assert out[i] in multiset(vs);
      var j :| 0 <= j < |vs| && vs[j] == out[i];
    }
  }

  // ---------------------------------------------------------------- decoding

  /**
   * The component carrying `key`, key removed ("description=", "cluster_name="
   * and "match_name=" are 12, 13 and 11 characters long); "" when the value
   * has a single component or no component starts with the key.
   */
  function KeyedPart(parts: seq<string>, key: string): string {
    if |parts| > 1 then
      var t := GetString(parts, key);
      if t == "" then "" else t[|key|..]
    else ""
  }

  /** The type symbol: "O" for the ortholog qualifier, "P" otherwise. */
  function Kind(term: string, ortholog: string): string {
    if term == ortholog then "O" else "P"
  }

  /** The columns every row of one value shares; gene, link and organism are still blank. */
  function Shared(parts: seq<string>, term: string, ortholog: string): Row {
    Row(KeyedPart(parts, "cluster_name="), KeyedPart(parts, "match_name="), term, Kind(term, ortholog),
        "", "", "", KeyedPart(parts, "description="))
  }

  /** One gene entry `organism:gene link=target` completes the shared columns into a row. */
  function DecodeEntry(entry: string, shared: Row): Result<Row, Fault> {
    var nameAndLink := JavaSplit(entry, "link=");
    if nameAndLink == [] then Failure(NoGene(entry))
    else
      var gene := JavaSplit(Trim(nameAndLink[0]), ":");
      if gene == [] then Failure(NoOrganism(entry))
      else if |nameAndLink| < 2 then Failure(NoLink(entry))
      else Success(shared.(organism := gene[0], gene := Trim(nameAndLink[0]), link := Trim(nameAndLink[1])))
  }

  /** `rows` in front of a successful decoding; a failure stays the failure. */
  function Prepend(rows: seq<Row>, r: Result<seq<Row>, Fault>): Result<seq<Row>, Fault> {
    match r
    case Success(more) => Success(rows + more)
    case Failure(f) => Failure(f)
  }

  lemma PrependNothing(r: Result<seq<Row>, Fault>)
    ensures Prepend([], r) == r
  {
    if r.Success? {
      assert [] + r.value == r.value;
    }
  }

  lemma PrependPrepend(rows: seq<Row>, more: seq<Row>, r: Result<seq<Row>, Fault>)
    ensures Prepend(rows, Prepend(more, r)) == Prepend(rows + more, r)
  {
    if r.Success? {
      assert rows + (more + r.value) == rows + more + r.value;
    }
  }

  /** The rows of a value's gene entries, one each, failing at the first entry that throws. */
  function DecodeEntries(entries: seq<string>, shared: Row): Result<seq<Row>, Fault> {
    if entries == [] then Success([])
    else
      match DecodeEntry(entries[0], shared)
      case Failure(f) => Failure(f)
      case Success(row) => Prepend([row], DecodeEntries(entries[1..], shared))
  }

  /** The rows of one qualifier value. */
  function DecodeValue(value: string, term: string, ortholog: string): Result<seq<Row>, Fault> {
    var parts := Tokens(value, ';');
    if parts == [] then Failure(NoComponent(value))
    else DecodeEntries(JavaSplit(parts[0], ","), Shared(parts, term, ortholog))
  }

  function DecodeValues(values: seq<string>, term: string, ortholog: string): Result<seq<Row>, Fault> {
    if values == [] then Success([])
    else
      match DecodeValue(values[0], term, ortholog)
      case Failure(f) => Failure(f)
      case Success(rows) => Prepend(rows, DecodeValues(values[1..], term, ortholog))
  }

  /** The rows of one qualifier: its values sorted by rank, then decoded in that order. */
  function DecodeQualifier(q: Qualifier, ortholog: string): Result<seq<Row>, Fault> {
    match SortValues(q.values)
    case None => Failure(BadRank(q.name))
    case Some(sorted) => DecodeValues(sorted, q.name, ortholog)
  }

  function DecodeQualifiers(qs: seq<Qualifier>, ortholog: string): Result<seq<Row>, Fault> {
    if qs == [] then Success([])
    else
      match DecodeQualifier(qs[0], ortholog)
      case Failure(f) => Failure(f)
      case Success(rows) => Prepend(rows, DecodeQualifiers(qs[1..], ortholog))
  }

  /** The qualifiers the table shows: the ortholog one, then the paralog one, each when present. */
  function Present(orthologQualifier: Option<Qualifier>, paralogQualifier: Option<Qualifier>): seq<Qualifier> {
    (if orthologQualifier.Some? then [orthologQualifier.value] else [])
      + (if paralogQualifier.Some? then [paralogQualifier.value] else [])
  }

  /**
   * The columns of a decoded gene entry: the gene is the trimmed text before
   * the first "link=", the link the trimmed text after it (up to a second
   * "link=", if any), the organism the gene text before its first ':', and the
   * other columns are the shared ones.
   */
  lemma EntryColumns(entry: string, shared: Row)
    requires DecodeEntry(entry, shared).Success?
    ensures var row := DecodeEntry(entry, shared).value;
      var i := Find(entry, "link=");
      i >= 0 && row.gene == Trim(entry[..i]) && row.link == Trim(FirstPiece(entry[i + 5..], "link=")) &&
      row.organism == FirstPiece(row.gene, ":") &&
      row == shared.(organism := row.organism, gene := row.gene, link := row.link)
  {
    var nameAndLink := JavaSplit(entry, "link=");
    SplitFirst(entry, "link=");
    SplitSecond(entry, "link=");
    SplitFirst(Trim(nameAndLink[0]), ":");
  }

  /** An entry without "link=" makes decoding throw. */
  lemma EntryWithoutLink(entry: string, shared: Row)
    requires !Contains(entry, "link=")
    ensures DecodeEntry(entry, shared).Failure?
  {
    assert SplitOn(entry, "link=") == [entry];
  }

  /** Decoding a list of entries throws exactly when some entry throws. */
  lemma {:induction false} EntriesFail(entries: seq<string>, shared: Row)
    ensures DecodeEntries(entries, shared).Failure? <==> exists k :: 0 <= k < |entries| && DecodeEntry(entries[k], shared).Failure?
  {
    if entries != [] {
      var rest := entries[1..];
      EntriesFail(rest, shared);
      if DecodeEntry(entries[0], shared).Success? {
        if DecodeEntries(rest, shared).Failure? {
          var k :| 0 <= k < |rest| && DecodeEntry(rest[k], shared).Failure?;
          assert entries[k + 1] == rest[k];
        } else {
          forall k | 0 <= k < |entries| ensures DecodeEntry(entries[k], shared).Success? {
            if k > 0 {
              assert entries[k] == rest[k - 1];
            }
          }
        }
      }
    }
  }

  /** Otherwise it gives exactly one row per entry, each the entry's own row. */
  lemma {:induction false} EntriesRows(entries: seq<string>, shared: Row)
    requires DecodeEntries(entries, shared).Success?
    ensures var rows := DecodeEntries(entries, shared).value;
      |rows| == |entries| && forall k :: 0 <= k < |entries| ==> DecodeEntry(entries[k], shared) == Success(rows[k])
  {
    if entries != [] {
      var rest := entries[1..];
      EntriesRows(rest, shared);
      var rows := DecodeEntries(entries, shared).value;
      var more := DecodeEntries(rest, shared).value;
      assert rows == [DecodeEntry(entries[0], shared).value] + more;
      forall k | 0 <= k < |entries| ensures DecodeEntry(entries[k], shared) == Success(rows[k]) {
        if k > 0 {
          assert entries[k] == rest[k - 1] && rows[k] == more[k - 1];
        }
      }
    }
  }

  /**
   * One row per gene entry: a value's rows are its gene entries' rows, all
   * sharing the value's description, cluster name and match name.
   */
  lemma OneRowPerEntry(value: string, term: string, ortholog: string)
    requires DecodeValue(value, term, ortholog).Success?
    ensures var parts := Tokens(value, ';');
      var entries := JavaSplit(parts[0], ",");
      var rows := DecodeValue(value, term, ortholog).value;
      |rows| == |entries| &&
      forall k :: 0 <= k < |rows| ==>
        DecodeEntry(entries[k], Shared(parts, term, ortholog)) == Success(rows[k]) &&
        rows[k].description == KeyedPart(parts, "description=") && rows[k].cluster == KeyedPart(parts, "cluster_name=") &&
        rows[k].matchName == KeyedPart(parts, "match_name=") && rows[k].term == term && rows[k].kind == Kind(term, ortholog)
  {
    var parts := Tokens(value, ';');
    var entries := JavaSplit(parts[0], ",");
    var shared := Shared(parts, term, ortholog);
    EntriesRows(entries, shared);
    forall k | 0 <= k < |entries| ensures DecodeEntry(entries[k], shared).Success? {
    }
    forall k | 0 <= k < |entries| ensures DecodeEntry(entries[k], shared).value == shared.(organism := DecodeEntry(entries[k], shared).value.organism, gene := DecodeEntry(entries[k], shared).value.gene, link := DecodeEntry(entries[k], shared).value.link) {
      EntryColumns(entries[k], shared);
    }
  }

  /** The keyed parts: the text after the key of the first component that carries it, when the value has more than one component. */
  lemma KeyedPartOf(parts: seq<string>, key: string)
    ensures |parts| <= 1 || GetString(parts, key) == "" ==> KeyedPart(parts, key) == ""
    ensures |parts| > 1 && GetString(parts, key) != "" ==> GetString(parts, key) == key + KeyedPart(parts, key)
  {
    var t := GetString(parts, key);
    if |parts| > 1 && t != "" {
      assert t == t[..|key|] + t[|key|..];
    }
  }

  /** The rows of every value carry the type symbol of their term. */
  predicate Typed(rows: seq<Row>, ortholog: string) {
    forall k :: 0 <= k < |rows| ==> rows[k].kind == Kind(rows[k].term, ortholog)
  }

  lemma {:induction false} ValuesTyped(values: seq<string>, term: string, ortholog: string)
    requires DecodeValues(values, term, ortholog).Success?
    ensures Typed(DecodeValues(values, term, ortholog).value, ortholog)
    ensures forall k :: 0 <= k < |DecodeValues(values, term, ortholog).value| ==> DecodeValues(values, term, ortholog).value[k].term == term
  {
    if values != [] {
      OneRowPerEntry(values[0], term, ortholog);
      ValuesTyped(values[1..], term, ortholog);
    }
  }

  lemma {:induction false} QualifiersTyped(qs: seq<Qualifier>, ortholog: string)
    requires DecodeQualifiers(qs, ortholog).Success?
    ensures Typed(DecodeQualifiers(qs, ortholog).value, ortholog)
  {
    if qs != [] {
      var sorted := SortValues(qs[0].values).value;
      ValuesTyped(sorted, qs[0].name, ortholog);
      QualifiersTyped(qs[1..], ortholog);
    }
  }

  /** A qualifier's rows come from its values sorted by rank: ordered, permuted and stable as the sort promises. */
  lemma QualifierRowOrder(q: Qualifier, ortholog: string)
    requires DecodeQualifier(q, ortholog).Success?
    ensures SortValues(q.values).Some?
    ensures var sorted := SortValues(q.values).value;
      DecodeValues(sorted, q.name, ortholog) == DecodeQualifier(q, ortholog) &&
      SortedBy(sorted, Key) && multiset(sorted) == multiset(q.values) &&
      forall k :: WithKey(sorted, Key, k) == WithKey(q.values, Key, k)
  {
    SortValuesOrders(q.values);
  }

  /** Two or more values with a rank that does not parse make decoding throw. */
  lemma QualifierBadRank(q: Qualifier, ortholog: string)
    requires |q.values| >= 2 && !AllRanked(q.values)
    ensures DecodeQualifier(q, ortholog) == Failure(BadRank(q.name))
  {
  }

  /** The innermost loop of the table's constructor: one row per gene entry of a value. */
  method EntryRows(entries: seq<string>, shared: Row) returns (r: Result<seq<Row>, Fault>)
    ensures r == DecodeEntries(entries, shared)
  {
    var rows: seq<Row> := [];
    var k := 0;
    assert entries[0..] == entries;
    PrependNothing(DecodeEntries(entries, shared));
    while k < |entries|
      invariant 0 <= k <= |entries|
      invariant DecodeEntries(entries, shared) == Prepend(rows, DecodeEntries(entries[k..], shared))
    {
      assert entries[k..][0] == entries[k] && entries[k..][1..] == entries[k + 1..];
      var geneNameAndLink := JavaSplit(entries[k], "link=");
      if geneNameAndLink == [] {
        return Failure(NoGene(entries[k]));
      }
      var gene := JavaSplit(Trim(geneNameAndLink[0]), ":");
      if gene == [] {
        return Failure(NoOrganism(entries[k]));
      }
      if |geneNameAndLink| < 2 {
        return Failure(NoLink(entries[k]));
      }
      var row := shared.(organism := gene[0], gene := Trim(geneNameAndLink[0]), link := Trim(geneNameAndLink[1]));
      PrependPrepend(rows, [row], DecodeEntries(entries[k + 1..], shared));
      rows := rows + [row];
      k := k + 1;
    }
    assert rows + [] == rows;
    r := Success(rows);
  }

  /** The body of the middle loop: split a value into components and decode its gene entries. */
  method ValueRows(value: string, term: string, ortholog: string) returns (r: Result<seq<Row>, Fault>)
    ensures r == DecodeValue(value, term, ortholog)
  {
    var rowStr := Tokens(value, ';');
    if rowStr == [] {
      return Failure(NoComponent(value));
    }
    var orthoparalogs := JavaSplit(rowStr[0], ",");
    var description := "";
    if |rowStr| > 1 {
      description := GetString(rowStr, "description=");
      if description != "" {
        description := description[12..];
      }
    }
    assert description == KeyedPart(rowStr, "description=");
    var clusterName := "";
    if |rowStr| > 1 {
      clusterName := GetString(rowStr, "cluster_name=");
      if clusterName != "" {
        clusterName := clusterName[13..];
      }
    }
    assert clusterName == KeyedPart(rowStr, "cluster_name=");
    var matchName := "";
    if |rowStr| > 1 {
      matchName := GetString(rowStr, "match_name=");
      if matchName != "" {
        matchName := matchName[11..];
      }
    }
    assert matchName == KeyedPart(rowStr, "match_name=");
    var shared := Row(clusterName, matchName, term, if term == ortholog then "O" else "P", "", "", "", description);
    assert shared == Shared(rowStr, term, ortholog);
    r := EntryRows(orthoparalogs, shared);
  }

  /** The middle loop: sort a qualifier's values by rank and decode each in turn. */
  method QualifierRows(q: Qualifier, ortholog: string) returns (r: Result<seq<Row>, Fault>)
    ensures r == DecodeQualifier(q, ortholog)
  {
    var sorted := SortValues(q.values);
    if sorted.None? {
      return Failure(BadRank(q.name));
    }
    var values := sorted.value;
    var rows: seq<Row> := [];
    var j := 0;
    assert values[0..] == values;
    PrependNothing(DecodeValues(values, q.name, ortholog));
    while j < |values|
      invariant 0 <= j <= |values|
      invariant DecodeValues(values, q.name, ortholog) == Prepend(rows, DecodeValues(values[j..], q.name, ortholog))
    {
      assert values[j..][0] == values[j] && values[j..][1..] == values[j + 1..];
      var more := ValueRows(values[j], q.name, ortholog);
      if more.Failure? {
        return Failure(more.error);
      }
      PrependPrepend(rows, more.value, DecodeValues(values[j + 1..], q.name, ortholog));
      rows := rows + more.value;
      j := j + 1;
    }
    assert rows + [] == rows;
    r := Success(rows);
  }

  /**
   * The row decoding of the table's constructor: the ortholog qualifier's
   * rows, then the paralog qualifier's; `ortholog` is the ortholog qualifier
   * name the type column compares with.
   */
  method BuildRows(orthologQualifier: Option<Qualifier>, paralogQualifier: Option<Qualifier>, ortholog: string)
    returns (r: Result<seq<Row>, Fault>)
    ensures r == DecodeQualifiers(Present(orthologQualifier, paralogQualifier), ortholog)
  {
    var origQualifiers: seq<Qualifier> := [];
    if orthologQualifier.Some? {
      origQualifiers := origQualifiers + [orthologQualifier.value];
    }
    if paralogQualifier.Some? {
      origQualifiers := origQualifiers + [paralogQualifier.value];
    }
    assert origQualifiers == Present(orthologQualifier, paralogQualifier);
    var rowData: seq<Row> := [];
    var i := 0;
    assert origQualifiers[0..] == origQualifiers;
    PrependNothing(DecodeQualifiers(origQualifiers, ortholog));
    while i < |origQualifiers|
      invariant 0 <= i <= |origQualifiers|
      invariant DecodeQualifiers(origQualifiers, ortholog)
             == Prepend(rowData, DecodeQualifiers(origQualifiers[i..], ortholog))
    {
      assert origQualifiers[i..][0] == origQualifiers[i] && origQualifiers[i..][1..] == origQualifiers[i + 1..];
      var more := QualifierRows(origQualifiers[i], ortholog);
      if more.Failure? {
        return Failure(more.error);
      }
      PrependPrepend(rowData, more.value, DecodeQualifiers(origQualifiers[i + 1..], ortholog));
      rowData := rowData + more.value;
      i := i + 1;
    }
    assert rowData + [] == rowData;
    r := Success(rowData);
  }

  // ---------------------------------------------------------------- encoding

  /**
   * `updateQualifierString(row)`, with the text written before the
   * description as a parameter: the source writes none (`EncodeRow`), the
   * decoder looks for "description=" (`EncodeRowKeyed`).  An empty optional
   * column is left out; the row index is written last as the rank.
   */
  function EncodeWith(r: Row, row: nat, descriptionKey: string): string {
    r.gene + " link=" + r.link + ";"
      + Piece(descriptionKey, r.description)
      + Piece("cluster_name=", r.cluster)
      + Piece("match_name=", r.matchName)
      + ("rank=" + NatToString(row))
  }

  /** An optional column appended with its key and a trailing ';', or nothing when it is empty. */
  function Piece(key: string, v: string): string {
    if v != "" then key + v + ";" else ""
  }

  /** The encoder as the source writes it: the description goes in without its key. */
  function EncodeRow(r: Row, row: nat): string {
    EncodeWith(r, row, "")
  }

  /** The encoder the decoder expects: the description goes in as "description=..". */
  function EncodeRowKeyed(r: Row, row: nat): string {
    EncodeWith(r, row, "description=")
  }

  function Opt(b: bool, x: string): seq<string> {
    if b then [x] else []
  }

  /** The components an encoded row consists of, in order. */
  function EncodedParts(r: Row, row: nat, descriptionKey: string): seq<string> {
    [r.gene + " link=" + r.link] +
    (Opt(r.description != "", descriptionKey + r.description) +
     (Opt(r.cluster != "", "cluster_name=" + r.cluster) +
      (Opt(r.matchName != "", "match_name=" + r.matchName) + ["rank=" + NatToString(row)])))
  }

  lemma PieceTokens(key: string, v: string, rest: string)
    requires ';' !in key && ';' !in v
    ensures Tokens(Piece(key, v) + rest, ';') == Opt(v != "", key + v) + Tokens(rest, ';')
  {
    if v != "" {
      var x := key + v;
      assert Piece(key, v) == x + ";";
      assert (x + ";")[..|x|] == x;
      TokensUpTo(x + ";", rest, ';');
      TokensSingle(x, ';');
    } else {
      assert Piece(key, v) + rest == rest;
    }
  }

  /**
   * The encoder's layout: the gene entry `gene link=target`, then the
   * description, cluster name and match name each when non-empty, then
   * `rank=` and the row index, as `;`-separated components.
   */
  lemma EncodedTokens(r: Row, row: nat, descriptionKey: string)
    requires ';' !in r.gene && ';' !in r.link && ';' !in r.description && ';' !in r.cluster && ';' !in r.matchName
    requires ';' !in descriptionKey
    ensures Tokens(EncodeWith(r, row, descriptionKey), ';') == EncodedParts(r, row, descriptionKey)
  {
    var head := r.gene + " link=" + r.link;
    var n := NatToString(row);
    var d := Piece(descriptionKey, r.description);
    var c := Piece("cluster_name=", r.cluster);
    var m := Piece("match_name=", r.matchName);
    var rank := "rank=" + n;
    Reassociate(head + ";", d, c, m, rank);
    assert (head + ";")[..|head|] == head;
    TokensUpTo(head + ";", d + (c + (m + rank)), ';');
    TokensSingle(head, ';');
    PieceTokens(descriptionKey, r.description, c + (m + rank));
    PieceTokens("cluster_name=", r.cluster, m + rank);
    PieceTokens("match_name=", r.matchName, rank);
    assert ';' !in n by {
      assert forall k :: 0 <= k < |n| ==> IsDigit(n[k]);
    }
    TokensSingle(rank, ';');
  }

  /** `getString` over an optional component and the rest. */
  lemma GetStringOpt(b: bool, x: string, rest: seq<string>, key: string)
    ensures GetString(Opt(b, x) + rest, key) == if b && StartsWith(x, key) then x else GetString(rest, key)
  {
    if b {
      GetStringCons(x, rest, key);
    } else {
      assert Opt(b, x) + rest == rest;
    }
  }

  /** The first encoded component carrying `key`, when the gene entry does not. */
  lemma EncodedGetString(r: Row, row: nat, descriptionKey: string, key: string)
    requires !StartsWith(r.gene + " link=" + r.link, key)
    ensures var d, c, m := descriptionKey + r.description, "cluster_name=" + r.cluster, "match_name=" + r.matchName;
      var rank := "rank=" + NatToString(row);
      GetString(EncodedParts(r, row, descriptionKey), key) ==
        if r.description != "" && StartsWith(d, key) then d
        else if r.cluster != "" && StartsWith(c, key) then c
        else if r.matchName != "" && StartsWith(m, key) then m
        else if StartsWith(rank, key) then rank
        else ""
  {
    var d, c, m := descriptionKey + r.description, "cluster_name=" + r.cluster, "match_name=" + r.matchName;
    var rank := "rank=" + NatToString(row);
    var tail := Opt(r.matchName != "", m) + [rank];
    GetStringCons(r.gene + " link=" + r.link, Opt(r.description != "", d) + (Opt(r.cluster != "", c) + tail), key);
    GetStringOpt(r.description != "", d, Opt(r.cluster != "", c) + tail, key);
    GetStringOpt(r.cluster != "", c, tail, key);
    GetStringOpt(r.matchName != "", m, [rank], key);
    GetStringCons(rank, [], key);
  }

  /** A row the decoder reads back from its encoding: fields free of the separators, a key-free trimmed gene, a trimmed non-empty link, and derived columns that agree. */
  predicate Encodable(r: Row, ortholog: string) {
    ';' !in r.gene && ';' !in r.link && ';' !in r.description && ';' !in r.cluster && ';' !in r.matchName &&
    ',' !in r.gene && ',' !in r.link && '=' !in r.gene && !StartsWith(r.gene, "rank") && IsTrim(r.gene) &&
    r.link != "" && IsTrim(r.link) && !Contains(r.link, "link=") &&
    JavaSplit(r.gene, ":") != [] && r.organism == JavaSplit(r.gene, ":")[0] && r.kind == Kind(r.term, ortholog)
  }

  /** The gene entry of an encodable row decodes back to its gene, link and organism. */
  lemma HeadEntry(r: Row, ortholog: string, shared: Row)
    requires Encodable(r, ortholog)
    ensures DecodeEntry(r.gene + " link=" + r.link, shared)
         == Success(shared.(organism := r.organism, gene := r.gene, link := r.link))
  {
    HeadSplit(r.gene, r.link);
    TrimOfPadded(r.gene, " ");
    assert r.link + [] == r.link;
    TrimOfPadded(r.link, []);
  }

  /** `gene link=target` splits at "link=" into the gene with its space and the target. */
  lemma HeadSplit(gene: string, link: string)
    requires '=' !in gene && link != "" && !Contains(link, "link=")
    ensures JavaSplit(gene + " link=" + link, "link=") == [gene + " ", link]
  {
    var g := gene + " ";
    var t := gene + " link=" + link;
    assert t == g + "link=" + link;
    assert g[0..] == g;
    IndexAfter(g, "link=", link, 0, 4);
    assert t[..|g|] == g && t[|g| + 5..] == link;
    assert SplitOn(link, "link=") == [link];
  }

  /** The gene entry of an encodable row starts with no key that holds '='. */
  lemma HeadKeyFree(r: Row, ortholog: string, key: string)
    requires Encodable(r, ortholog) && ' ' !in key && '=' in key
    ensures !StartsWith(r.gene + " link=" + r.link, key)
  {
    StartsBeforeSpace(r.gene, " link=", r.link, key);
  }

  /** The cluster name survives the encoding unless the description poses as one. */
  lemma ClusterRoundTrip(r: Row, row: nat, ortholog: string, descriptionKey: string)
    requires Encodable(r, ortholog)
    requires r.description != "" ==> !StartsWith(descriptionKey + r.description, "cluster_name=")
    ensures KeyedPart(EncodedParts(r, row, descriptionKey), "cluster_name=") == r.cluster
  {
    HeadKeyFree(r, ortholog, "cluster_name=");
    EncodedGetString(r, row, descriptionKey, "cluster_name=");
    FirstDiffers("match_name=" + r.matchName, "cluster_name=");
    FirstDiffers("rank=" + NatToString(row), "cluster_name=");
  }

  /** So does the match name. */
  lemma MatchRoundTrip(r: Row, row: nat, ortholog: string, descriptionKey: string)
    requires Encodable(r, ortholog)
    requires r.description != "" ==> !StartsWith(descriptionKey + r.description, "match_name=")
    ensures KeyedPart(EncodedParts(r, row, descriptionKey), "match_name=") == r.matchName
  {
    HeadKeyFree(r, ortholog, "match_name=");
    EncodedGetString(r, row, descriptionKey, "match_name=");
    FirstDiffers("cluster_name=" + r.cluster, "match_name=");
    FirstDiffers("rank=" + NatToString(row), "match_name=");
  }

  /** The description the decoder finds in an encoded row. */
  lemma DescriptionFound(r: Row, row: nat, ortholog: string, descriptionKey: string)
    requires Encodable(r, ortholog)
    ensures KeyedPart(EncodedParts(r, row, descriptionKey), "description=") ==
      if r.description != "" && StartsWith(descriptionKey + r.description, "description=")
      then (descriptionKey + r.description)[12..] else ""
  {
    HeadKeyFree(r, ortholog, "description=");
    EncodedGetString(r, row, descriptionKey, "description=");
    FirstDiffers("cluster_name=" + r.cluster, "description=");
    FirstDiffers("match_name=" + r.matchName, "description=");
    FirstDiffers("rank=" + NatToString(row), "description=");
  }

  /** The rank the comparator reads from an encoded row is the row index. */
  lemma RankRoundTrip(r: Row, row: nat, ortholog: string, descriptionKey: string)
    requires Encodable(r, ortholog) && ';' !in descriptionKey && row <= MAX_INT
    requires r.description != "" ==> !StartsWith(descriptionKey + r.description, "rank")
    ensures Rank(EncodeWith(r, row, descriptionKey)) == Some(row)
  {
    EncodedTokens(r, row, descriptionKey);
    StartsBeforeSpace(r.gene, " link=", r.link, "rank");
    EncodedGetString(r, row, descriptionKey, "rank");
    FirstDiffers("cluster_name=" + r.cluster, "rank");
    FirstDiffers("match_name=" + r.matchName, "rank");
    assert StartsWith("rank=" + NatToString(row), "rank");
    RankOf(EncodeWith(r, row, descriptionKey), row);
  }

  /** A value whose first component is a single gene entry decodes to that entry's row. */
  lemma SingleEntry(value: string, term: string, ortholog: string, head: string)
    requires Tokens(value, ';') != [] && Tokens(value, ';')[0] == head && JavaSplit(head, ",") == [head]
    requires DecodeEntry(head, Shared(Tokens(value, ';'), term, ortholog)).Success?
    ensures DecodeValue(value, term, ortholog) == Success([DecodeEntry(head, Shared(Tokens(value, ';'), term, ortholog)).value])
  {
    var shared := Shared(Tokens(value, ';'), term, ortholog);
    var row := DecodeEntry(head, shared).value;
    assert [head][0] == head && [head][1..] == [];
    assert DecodeEntries([head], shared) == Prepend([row], DecodeEntries([], shared));
    assert [row] + [] == [row];
  }

  /** Decoding an encoded row gives back the row, with the description the decoder finds. */
  lemma DecodeEncoded(r: Row, row: nat, ortholog: string, descriptionKey: string)
    requires Encodable(r, ortholog) && ';' !in descriptionKey
    requires r.description != "" ==> !StartsWith(descriptionKey + r.description, "cluster_name=")
    requires r.description != "" ==> !StartsWith(descriptionKey + r.description, "match_name=")
    ensures var parts := EncodedParts(r, row, descriptionKey);
      DecodeValue(EncodeWith(r, row, descriptionKey), r.term, ortholog)
        == Success([r.(description := KeyedPart(parts, "description="))])
  {
    var parts := EncodedParts(r, row, descriptionKey);
    var head := r.gene + " link=" + r.link;
    EncodedTokens(r, row, descriptionKey);
    NotFound(head, ",");
    var shared := Shared(parts, r.term, ortholog);
    ClusterRoundTrip(r, row, ortholog, descriptionKey);
    MatchRoundTrip(r, row, ortholog, descriptionKey);
    HeadEntry(r, ortholog, shared);
    SingleEntry(EncodeWith(r, row, descriptionKey), r.term, ortholog, head);
  }

  /**
   * The corrected encoder round-trips: decoding its value gives back exactly
   * the row, and the comparator reads the row index back as the rank.
   */
  lemma EncodeRowKeyedRoundTrip(r: Row, row: nat, ortholog: string)
    requires Encodable(r, ortholog) && row <= MAX_INT
    ensures DecodeValue(EncodeRowKeyed(r, row), r.term, ortholog) == Success([r])
    ensures Rank(EncodeRowKeyed(r, row)) == Some(row)
  {
    var d := "description=" + r.description;
    FirstDiffers(d, "cluster_name=");
    FirstDiffers(d, "match_name=");
    FirstDiffers(d, "rank");
    DecodeEncoded(r, row, ortholog, "description=");
    DescriptionFound(r, row, ortholog, "description=");
    assert StartsWith(d, "description=") && d[12..] == r.description;
    RankRoundTrip(r, row, ortholog, "description=");
  }

  /**
   * The encoder as written loses the description: an encodable row with a
   * description free of '=' decodes with an empty description instead.
   */
  lemma EncodeRowLosesDescription(r: Row, row: nat, ortholog: string)
    requires Encodable(r, ortholog) && r.description != "" && '=' !in r.description
    ensures DecodeValue(EncodeRow(r, row), r.term, ortholog) == Success([r.(description := "")])
    ensures DecodeValue(EncodeRow(r, row), r.term, ortholog) != Success([r])
  {
    var d := "" + r.description;
    assert d == r.description;
    LacksKey(d, "cluster_name=", '=');
    LacksKey(d, "match_name=", '=');
    LacksKey(d, "description=", '=');
    DecodeEncoded(r, row, ortholog, "");
    DescriptionFound(r, row, ortholog, "");
    assert [r.(description := "")][0] != r;
  }

  /** The encoder as written still writes the row index as the rank, unless the description starts with "rank". */
  lemma EncodeRowRank(r: Row, row: nat, ortholog: string)
    requires Encodable(r, ortholog) && row <= MAX_INT && !StartsWith(r.description, "rank")
    ensures Rank(EncodeRow(r, row)) == Some(row)
  {
    assert "" + r.description == r.description;
    RankRoundTrip(r, row, ortholog, "");
  }

  // ---------------------------------------------------------------- row type

  /** `isRowOfType(qualifierName, row)`: whether the row's hidden term column is the name; None when there is no such row (Java throws). */
  function IsRowOfType(table: seq<Row>, qualifierName: string, row: int): (r: Option<bool>)
    ensures r.Some? <==> 0 <= row < |table|
    ensures r.Some? ==> (r.value <==> table[row].term == qualifierName)
  {
    if 0 <= row < |table| then Some(table[row].term == qualifierName) else None
  }

  /** In a decoded table a row is of the ortholog type exactly when its type column says "O". */
  lemma RowTypeAgrees(orthologQualifier: Option<Qualifier>, paralogQualifier: Option<Qualifier>, ortholog: string, k: int)
    requires DecodeQualifiers(Present(orthologQualifier, paralogQualifier), ortholog).Success?
    requires 0 <= k < |DecodeQualifiers(Present(orthologQualifier, paralogQualifier), ortholog).value|
    ensures var rows := DecodeQualifiers(Present(orthologQualifier, paralogQualifier), ortholog).value;
      IsRowOfType(rows, ortholog, k) == Some(rows[k].kind == "O")
  {
    QualifiersTyped(Present(orthologQualifier, paralogQualifier), ortholog);
  }

  // ---------------------------------------------------------------- loose membership

  /** Component 0 of a value after its first '=', or all of it when it has none. */
  function PrimaryValue(parts: seq<string>): string
    requires parts != []
  {
    var i := Find(parts[0], "=");
    if i > -1 then parts[0][i + 1..] else parts[0]
  }

  /**
   * The test `containsStringInStringVector` applies to one candidate: as many
   * components as the query, primary values of which one contains the other,
   * and the query's first component starting with "cluster" equal to the
   * candidate's first one starting with "cluster_name".  Rank and description
   * play no part.
   */
  predicate LooseMatch(query: seq<string>, candidate: string)
    requires query != []
  {
    var c := Tokens(candidate, ';');
    |query| == |c| &&
    (Contains(PrimaryValue(query), PrimaryValue(c)) || Contains(PrimaryValue(c), PrimaryValue(query))) &&
    GetString(query, "cluster") == GetString(c, "cluster_name")
  }

  /** `containsStringInStringVector(qualStr, qualStringVector)`: None when the query has no component (Java throws). */
  method ContainsStringInStringVector(qualStr: string, qualStringVector: seq<string>) returns (r: Option<bool>)
    ensures r.None? <==> Tokens(qualStr, ';') == []
    ensures r.Some? ==> (r.value <==> exists i :: 0 <= i < |qualStringVector| && LooseMatch(Tokens(qualStr, ';'), qualStringVector[i]))
  {
    var orth1 := Tokens(qualStr, ';');
    if orth1 == [] {
      return None;
    }
    var clusterName1 := GetString(orth1, "cluster");
    var value1 := orth1[0];
    var index := Find(value1, "=");
    if index > -1 {
      value1 := value1[index + 1..];
    }
    var i := 0;
    while i < |qualStringVector|
      invariant 0 <= i <= |qualStringVector|
      invariant value1 == PrimaryValue(orth1)
      invariant forall j :: 0 <= j < i ==> !LooseMatch(orth1, qualStringVector[j])
    {
      var orth2 := Tokens(qualStringVector[i], ';');
      if |orth1| == |orth2| {
        var value2 := orth2[0];
        index := Find(value2, "=");
        if index > -1 {
          value2 := value2[index + 1..];
        }
        if Contains(value1, value2) || Contains(value2, value1) {
          var clusterName2 := GetString(orth2, "cluster_name");
          if clusterName1 == clusterName2 {
            return Some(true);
          }
        }
      }
      i := i + 1;
    }
    return Some(false);
  }

  /** A value is found among candidates holding it, when its first "cluster" component is its "cluster_name" one. */
  lemma LooseMatchSelf(value: string)
    requires Tokens(value, ';') != []
    requires GetString(Tokens(value, ';'), "cluster") == GetString(Tokens(value, ';'), "cluster_name")
    ensures LooseMatch(Tokens(value, ';'), value)
  {
    var p := PrimaryValue(Tokens(value, ';'));
    assert p[0..|p|] == p;
  }

  /** The rank component plays no part: candidates differing only in their last `rank=` component match alike. */
  lemma LooseMatchIgnoresRank(query: seq<string>, base: string, rank1: string, rank2: string)
    requires query != [] && Tokens(base, ';') != [] && ';' !in rank1 && ';' !in rank2
    ensures LooseMatch(query, base + ";rank=" + rank1) == LooseMatch(query, base + ";rank=" + rank2)
  {
    RankComponent(base, rank1);
    RankComponent(base, rank2);
  }

  lemma RankComponent(base: string, rank: string)
    requires Tokens(base, ';') != [] && ';' !in rank
    ensures var c := Tokens(base + ";rank=" + rank, ';');
      |c| == |Tokens(base, ';')| + 1 && c != [] && c[0] == Tokens(base, ';')[0] &&
      GetString(c, "cluster_name") == GetString(Tokens(base, ';'), "cluster_name")
  {
    var tail := "rank=" + rank;
    assert base + ";rank=" + rank == base + ";" + tail;
    RankTokens(base, tail);
    RankLookup(Tokens(base, ';'), tail);
  }

  lemma RankTokens(base: string, tail: string)
    requires tail != "" && ';' !in tail
    ensures Tokens(base + ";" + tail, ';') == Tokens(base, ';') + [tail]
  {
    assert base + ";" + tail == base + [';'] + tail;
    TokensJoin(base, tail, ';');
    TokensSingle(tail, ';');
  }

  lemma RankLookup(v: seq<string>, tail: string)
    requires tail != "" && tail[0] == 'r'
    ensures GetString(v + [tail], "cluster_name") == GetString(v, "cluster_name")
  {
    GetStringAppend(v, [tail], "cluster_name");
    FirstDiffers(tail, "cluster_name");
    GetStringCons(tail, [], "cluster_name");
  }

  lemma Reassociate(a: string, b: string, c: string, d: string, e: string)
    ensures a + b + c + d + e == a + (b + (c + (d + e)))
  {
  }
}
