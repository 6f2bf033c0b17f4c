/**
 * The java.lang.String operations the three engines rely on, with Java's
 * semantics written out: `indexOf` answers -1 when there is no occurrence,
 * `substring` fails (Java throws) on out-of-range bounds, `trim` strips every
 * character up to U+0020, `split` on a literal separator drops trailing empty
 * pieces, and `Integer` parsing fails outside the 32-bit range.  Also the two
 * helpers of the Artemis utility classes the engines call:
 * `StringVector.getStrings(s, ";")` (a split that drops empty tokens) and
 * `ArtemisUtils.getString(v, key)` (the first element starting with `key`).
 */
module JavaText {
  import opened Wrappers

  // ---------------------------------------------------------------- searching

  /** `pat` occurs in `s` at index `i`. */
  predicate OccursAt(s: string, pat: string, i: int) {
    0 <= i && i + |pat| <= |s| && s[i..i + |pat|] == pat
  }

  /** The first index at or after `from` where `pat` occurs in `s`, or -1. */
  function IndexFrom(s: string, pat: string, from: nat): (r: int)
    ensures r == -1 || (from <= r && OccursAt(s, pat, r))
    ensures forall i :: from <= i && (r == -1 || i < r) ==> !OccursAt(s, pat, i)
    decreases |s| + 1 - from
  {
    if from + |pat| > |s| then -1
    else if s[from..from + |pat|] == pat then from
    else IndexFrom(s, pat, from + 1)
  }

  /** `s.indexOf(pat, from)`: a negative start index searches from 0. */
  function IndexOf(s: string, pat: string, from: int): int {
    IndexFrom(s, pat, if from < 0 then 0 else from)
  }

  /** `s.indexOf(pat)`. */
  function Find(s: string, pat: string): int {
    IndexFrom(s, pat, 0)
  }

  /** `s.indexOf(pat) > -1`. */
  predicate Contains(s: string, pat: string) {
    Find(s, pat) >= 0
  }

  /** `s.startsWith(p)`. */
  predicate StartsWith(s: string, p: string) {
    |p| <= |s| && s[..|p|] == p
  }

  /** `s.endsWith(p)`. */
  predicate EndsWith(s: string, p: string) {
    |p| <= |s| && s[|s| - |p|..] == p
  }

  /** `s.substring(b, e)`, which throws unless 0 <= b <= e <= |s|. */
  function Substring(s: string, b: int, e: int): (r: Option<string>)
    ensures r.Some? <==> 0 <= b <= e <= |s|
    ensures r.Some? ==> |r.value| == e - b && r.value == s[b..e]
  {
    if 0 <= b <= e <= |s| then Some(s[b..e]) else None
  }

  lemma {:induction false} ContainsIff(s: string, pat: string)
    ensures Contains(s, pat) <==> exists i :: OccursAt(s, pat, i)
  {
    if exists i :: OccursAt(s, pat, i) {
      var i :| OccursAt(s, pat, i);
      assert 0 <= i;
    }
  }

  /** The first occurrence in `a + b` lies in `a` when `a` already holds one. */
  lemma {:induction false} FindInPrefix(a: string, b: string, pat: string)
    requires Find(a, pat) >= 0
    ensures Find(a + b, pat) == Find(a, pat)
  {
    var k := Find(a, pat);
    assert (a + b)[k..k + |pat|] == a[k..k + |pat|];
    forall i | 0 <= i < k ensures !OccursAt(a + b, pat, i) {
      assert !OccursAt(a, pat, i);
      assert (a + b)[i..i + |pat|] == a[i..i + |pat|];
    }
    assert OccursAt(a + b, pat, k);
    var r := Find(a + b, pat);
    assert r != -1 && r <= k;
  }

  /**
   * Searching `pre + pat + rest` from `from` finds the `pat` placed after
   * `pre`, provided some character of `pat`, unlike every character before it
   * in `pat`, does not occur in `pre` from `from` on.
   */
  lemma IndexAfter(pre: string, pat: string, rest: string, from: nat, m: nat)
    requires from <= |pre| && m < |pat|
    requires pat[m] !in pat[..m]
    requires pat[m] !in pre[from..]
    ensures IndexFrom(pre + pat + rest, pat, from) == |pre|
  {
    var s := pre + pat + rest;
    assert forall t :: 0 <= t < m ==> pat[t] == pat[..m][t];
    assert forall i :: from <= i < |pre| ==> pre[i] == pre[from..][i - from];
    assert s[|pre|..|pre| + |pat|] == pat;
    forall i | from <= i < |pre| ensures !OccursAt(s, pat, i) {
      assert s[i + m] == if i + m < |pre| then pre[i + m] else pat[i + m - |pre|];
    }
    assert OccursAt(s, pat, |pre|);
    var r := IndexFrom(s, pat, from);
    assert r != -1 && r <= |pre|;
  }

  /**
   * The search from `from` finds `pat` at `at` when it occurs there and some
   * character of `pat`, not repeated before it in `pat`, does not occur
   * between `from` and `at`.
   */
  lemma IndexAt(s: string, pat: string, from: nat, at: nat, m: nat)
    requires from <= at && at + |pat| <= |s| && s[at..at + |pat|] == pat
    requires m < |pat| && pat[m] !in pat[..m] && pat[m] !in s[from..at]
    ensures IndexFrom(s, pat, from) == at
  {
    assert s[..at][from..] == s[from..at];
    assert s[..at] + pat + s[at + |pat|..] == s;
    IndexAfter(s[..at], pat, s[at + |pat|..], from, m);
  }

  /** The search from `from` finds `pat` right after `pre` when `s` starts with `pre + pat`. */
  lemma IndexPast(s: string, pre: string, pat: string, from: nat, m: nat)
    requires StartsWith(s, pre + pat) && from <= |pre|
    requires m < |pat| && pat[m] !in pat[..m] && pat[m] !in pre[from..]
    ensures IndexFrom(s, pat, from) == |pre|
  {
    assert s[|pre|..|pre| + |pat|] == (pre + pat)[|pre|..];
    assert s[from..|pre|] == pre[from..];
    IndexAt(s, pat, from, |pre|, m);
  }

  lemma PrefixOfPrefix(s: string, a: string, b: string)
    requires StartsWith(s, a + b)
    ensures StartsWith(s, a)
  {
    assert s[..|a|] == (a + b)[..|a|];
  }

  /** A pattern whose first character does not occur in `s` is not found. */
  lemma NotFound(s: string, pat: string)
    requires |pat| > 0 && pat[0] !in s
    ensures Find(s, pat) == -1
  {
  }

  /** `indexOf(x)` on a list of strings: the position of the first element equal to `x`, or -1. */
  function IndexOfItem(s: seq<string>, x: string): (r: int)
    ensures -1 <= r < |s|
    ensures r >= 0 ==> s[r] == x && forall k :: 0 <= k < r ==> s[k] != x
    ensures r == -1 <==> forall k :: 0 <= k < |s| ==> s[k] != x
  {
    if s == [] then -1
    else if s[0] == x then 0
    else
      var i := IndexOfItem(s[1..], x);
      if i == -1 then -1 else i + 1
  }

  // ------------------------------------------------------------------ trimming

  /** The characters `String.trim()` removes: every code point up to U+0020. */
  predicate IsTrimmed(c: char) { c <= ' ' }

  /** `s` without its leading characters that `trim()` removes. */
  function TrimStart(s: string): string {
    if s != [] && IsTrimmed(s[0]) then TrimStart(s[1..]) else s
  }

  /** `s` without its trailing characters that `trim()` removes. */
  function TrimEnd(s: string): string {
    if s != [] && IsTrimmed(s[|s| - 1]) then TrimEnd(s[..|s| - 1]) else s
  }

  /** `s.trim()`. */
  function Trim(s: string): string {
    TrimEnd(TrimStart(s))
  }

  /** `TrimStart` keeps a suffix of `s` that does not begin with a trimmed character. */
  lemma {:induction false} TrimStartSuffix(s: string)
    ensures var r := TrimStart(s);
      |r| <= |s| && r == s[|s| - |r|..] && (r == [] || !IsTrimmed(r[0]))
    decreases |s|
  {
    if s != [] && IsTrimmed(s[0]) {
      TrimStartSuffix(s[1..]);
      var r := TrimStart(s[1..]);
      assert s[1..][|s| - 1 - |r|..] == s[|s| - |r|..];
    }
  }

  /** `TrimEnd` keeps a prefix of `s` that does not end with a trimmed character. */
  lemma {:induction false} TrimEndPrefix(s: string)
    ensures var r := TrimEnd(s);
      |r| <= |s| && r == s[..|r|] && (r == [] || !IsTrimmed(r[|r| - 1]))
    decreases |s|
  {
    if s != [] && IsTrimmed(s[|s| - 1]) {
      TrimEndPrefix(s[..|s| - 1]);
      var r := TrimEnd(s[..|s| - 1]);
      assert s[..|s| - 1][..|r|] == s[..|r|];
    }
  }

  /** `s` has nothing `trim()` would remove. */
  predicate IsTrim(s: string) {
    s == [] || (!IsTrimmed(s[0]) && !IsTrimmed(s[|s| - 1]))
  }

  /** `trim()` leaves nothing that `trim()` would remove, and never lengthens its argument. */
  lemma TrimIsTrim(s: string)
    ensures IsTrim(Trim(s)) && |Trim(s)| <= |s|
  {
    TrimStartSuffix(s);
    var t := TrimStart(s);
    TrimEndPrefix(t);
    var r := TrimEnd(t);
    if r != [] {
      assert r[0] == t[0];
    }
  }

  lemma {:induction false} TrimEndAppendSpace(s: string, tail: string)
    requires forall k :: 0 <= k < |tail| ==> IsTrimmed(tail[k])
    ensures TrimEnd(s + tail) == TrimEnd(s)
    decreases |tail|
  {
    if tail != [] {
      var t := tail[..|tail| - 1];
      assert (s + tail)[..|s + tail| - 1] == s + t;
      TrimEndAppendSpace(s, t);
    } else {
      assert s + tail == s;
    }
  }

  /** Trimming a trimmed text followed by spaces gives the text back. */
  lemma TrimOfPadded(s: string, tail: string)
    requires IsTrim(s)
    requires forall k :: 0 <= k < |tail| ==> IsTrimmed(tail[k])
    ensures Trim(s + tail) == s
  {
    if s == [] {
      assert s + tail == tail;
      TrimStartAllSpace(tail);
    } else {
      assert (s + tail)[0] == s[0];
      assert TrimStart(s + tail) == s + tail;
      TrimEndAppendSpace(s, tail);
    }
  }

  lemma {:induction false} TrimStartAllSpace(s: string)
    requires forall k :: 0 <= k < |s| ==> IsTrimmed(s[k])
    ensures TrimStart(s) == [] && TrimEnd(TrimStart(s)) == []
  {
    if s != [] {
      TrimStartAllSpace(s[1..]);
    }
  }

  // ----------------------------------------------------------------- splitting

  /** Every piece of `s` between occurrences of `sep`, scanning left to right. */
  function SplitOn(s: string, sep: string): (r: seq<string>)
    requires |sep| > 0
    ensures |r| >= 1
    decreases |s|
  {
    var i := Find(s, sep);
    if i < 0 then [s] else [s[..i]] + SplitOn(s[i + |sep|..], sep)
  }

  function DropTrailingEmpty(p: seq<string>): (r: seq<string>)
    ensures |r| <= |p| && r == p[..|r|]
    ensures r == [] || r[|r| - 1] != ""
    ensures forall k :: |r| <= k < |p| ==> p[k] == ""
  {
    if p != [] && p[|p| - 1] == "" then DropTrailingEmpty(p[..|p| - 1]) else p
  }

  /**
   * `s.split(sep)` for a separator without regular-expression metacharacters:
   * when `sep` does not occur the answer is `[s]`, otherwise the pieces with
   * trailing empty pieces removed (possibly none at all).
   */
  function JavaSplit(s: string, sep: string): (r: seq<string>)
    requires |sep| > 0
  {
    var p := SplitOn(s, sep);
    if |p| == 1 then p else DropTrailingEmpty(p)
  }

  function NonEmpty(p: seq<string>): (r: seq<string>)
    ensures forall k :: 0 <= k < |r| ==> r[k] != ""
    ensures |r| <= |p|
  {
    if p == [] then []
    else if p[0] == "" then NonEmpty(p[1..])
    else [p[0]] + NonEmpty(p[1..])
  }

  /** `StringVector.getStrings(s, [c])`: the pieces between `c`s, empty ones dropped. */
  function Tokens(s: string, c: char): (r: seq<string>)
    ensures forall k :: 0 <= k < |r| ==> r[k] != "" && c !in r[k]
  {
    var p := SplitOn(s, [c]);
    PiecesAvoidSep(s, c);
    NonEmptyKeeps(p, c);
    NonEmpty(p)
  }

  lemma {:induction false} PiecesAvoidSep(s: string, c: char)
    ensures forall k :: 0 <= k < |SplitOn(s, [c])| ==> c !in SplitOn(s, [c])[k]
    decreases |s|
  {
    var i := Find(s, [c]);
    if i < 0 {
      forall j | 0 <= j < |s| ensures s[j] != c { assert !OccursAt(s, [c], j); }
    } else {
      forall j | 0 <= j < i ensures s[j] != c { assert !OccursAt(s, [c], j); }
      PiecesAvoidSep(s[i + 1..], c);
    }
  }

  lemma {:induction false} NonEmptyKeeps(p: seq<string>, c: char)
    requires forall k :: 0 <= k < |p| ==> c !in p[k]
    ensures forall k :: 0 <= k < |NonEmpty(p)| ==> c !in NonEmpty(p)[k]
  {
    if p != [] {
      NonEmptyKeeps(p[1..], c);
    }
  }

  /** The text before the first `sep` in `s`, or all of `s` when there is none. */
  function FirstPiece(s: string, sep: string): string {
    var i := Find(s, sep);
    if i < 0 then s else s[..i]
  }

  /** The first piece of a split is the text before the first separator. */
  lemma SplitFirst(s: string, sep: string)
    requires |sep| > 0 && JavaSplit(s, sep) != []
    ensures JavaSplit(s, sep)[0] == FirstPiece(s, sep)
  {
  }

  /** The second piece of a split is the first piece of what follows the first separator. */
  lemma SplitSecond(s: string, sep: string)
    requires |sep| > 0 && |JavaSplit(s, sep)| >= 2
    ensures Find(s, sep) >= 0
    ensures JavaSplit(s, sep)[1] == FirstPiece(s[Find(s, sep) + |sep|..], sep)
  {
    var p := SplitOn(s, sep);
    var i := Find(s, sep);
    if i >= 0 {
      var q := SplitOn(s[i + |sep|..], sep);
      assert p[1] == q[0];
    }
  }

  /** Splitting at a separator character placed between two texts splits each of them. */
  lemma {:induction false} SplitOnJoin(a: string, b: string, c: char)
    ensures SplitOn(a + [c] + b, [c]) == SplitOn(a, [c]) + SplitOn(b, [c])
    decreases |a|
  {
    var s := a + [c] + b;
    var i := Find(a, [c]);
    if i < 0 {
      forall j | 0 <= j < |a| ensures a[j] != c {
        assert !OccursAt(a, [c], j);
      }
      assert a[0..] == a;
      IndexAfter(a, [c], b, 0, 0);
      assert s[..|a|] == a && s[|a| + 1..] == b;
    } else {
      assert s == a + ([c] + b);
      FindInPrefix(a, [c] + b, [c]);
      assert s[..i] == a[..i];
      assert s[i + 1..] == a[i + 1..] + [c] + b;
      SplitOnJoin(a[i + 1..], b, c);
    }
  }

  lemma {:induction false} NonEmptyAppend(p: seq<string>, q: seq<string>)
    ensures NonEmpty(p + q) == NonEmpty(p) + NonEmpty(q)
  {
    if p != [] {
      assert (p + q)[0] == p[0] && (p + q)[1..] == p[1..] + q;
      NonEmptyAppend(p[1..], q);
    } else {
      assert p + q == q;
    }
  }

  /** The tokens of two texts joined by the delimiter are the tokens of each, in order. */
  lemma TokensJoin(a: string, b: string, c: char)
    ensures Tokens(a + [c] + b, c) == Tokens(a, c) + Tokens(b, c)
  {
    SplitOnJoin(a, b, c);
    NonEmptyAppend(SplitOn(a, [c]), SplitOn(b, [c]));
  }

  /** A non-empty text without the delimiter is a single token. */
  lemma TokensSingle(x: string, c: char)
    requires x != "" && c !in x
    ensures Tokens(x, c) == [x]
  {
    NotFound(x, [c]);
    assert NonEmpty([x][1..]) == [];
  }

  /** The empty text has no token. */
  /** Two delimiter-free texts joined by the delimiter are its two tokens. */
  lemma TokensPair(a: string, b: string, c: char)
    requires a != "" && b != "" && c !in a && c !in b
    ensures Tokens(a + [c] + b, c) == [a, b]
  {
    TokensJoin(a, b, c);
    TokensSingle(a, c);
    TokensSingle(b, c);
  }

  lemma TokensEmpty(c: char)
    ensures Tokens("", c) == []
  {
    NotFound("", [c]);
    assert NonEmpty([""][1..]) == [];
  }

  /** `getString` over a list with a first element looks there first. */
  lemma GetStringCons(x: string, rest: seq<string>, key: string)
    ensures GetString([x] + rest, key) == if StartsWith(x, key) then x else GetString(rest, key)
  {
    assert ([x] + rest)[0] == x && ([x] + rest)[1..] == rest;
  }

  /** A text ending in the delimiter has the tokens of the text before it. */
  lemma TokensUpTo(a: string, b: string, c: char)
    requires a != [] && a[|a| - 1] == c
    ensures Tokens(a + b, c) == Tokens(a[..|a| - 1], c) + Tokens(b, c)
  {
    assert a[..|a| - 1] + [c] + b == a + b;
    TokensJoin(a[..|a| - 1], b, c);
  }

  /** A text that does not start with `p` because their first characters differ. */
  lemma FirstDiffers(s: string, p: string)
    requires s != [] && p != [] && s[0] != p[0]
    ensures !StartsWith(s, p)
  {
    if |p| <= |s| {
      assert s[..|p|][0] == s[0];
    }
  }

  /** A text without the character `c` starts with no key that holds `c`. */
  lemma LacksKey(s: string, key: string, c: char)
    requires c in key && c !in s
    ensures !StartsWith(s, key)
  {
    if |key| <= |s| {
      assert forall k :: 0 <= k < |key| ==> s[..|key|][k] == s[k];
    }
  }

  /** `s`, then a text starting with a space, starts with a space-free `key` only when `s` itself does. */
  lemma StartsBeforeSpace(s: string, mid: string, rest: string, key: string)
    requires mid != [] && mid[0] == ' ' && ' ' !in key && !StartsWith(s, key)
    ensures !StartsWith(s + mid + rest, key)
  {
    var t := s + mid + rest;
    if |key| <= |s| {
      assert t[..|key|] == s[..|key|];
    } else {
      assert |key| <= |t| ==> t[..|key|][|s|] == ' ';
    }
  }

  /** `getString` over a concatenation looks in the second part only when the first has no match. */
  lemma {:induction false} GetStringAppend(v: seq<string>, w: seq<string>, key: string)
    requires key != ""
    ensures GetString(v + w, key) == if GetString(v, key) != "" then GetString(v, key) else GetString(w, key)
  {
    if v != [] {
      assert (v + w)[0] == v[0] && (v + w)[1..] == v[1..] + w;
      GetStringAppend(v[1..], w, key);
    } else {
      assert v + w == w;
    }
  }

  /** `ArtemisUtils.getString(v, key)`: the first element starting with `key`, or "". */
  function GetString(v: seq<string>, key: string): (r: string)
    ensures r == "" || StartsWith(r, key)
    ensures r != "" ==> r in v
  {
    if v == [] then ""
    else if StartsWith(v[0], key) then v[0]
    else GetString(v[1..], key)
  }

  // ------------------------------------------------------------- tokenising

  /** The default delimiters of `java.util.StringTokenizer`. */
  predicate IsDelimiter(c: char) {
    c == ' ' || c == '\t' || c == '\n' || c == '\r' || c as int == 12
  }

  function SkipDelimiters(s: string): (r: string)
    ensures |r| <= |s| && r == s[|s| - |r|..]
    ensures r == [] || !IsDelimiter(r[0])
  {
    if s != [] && IsDelimiter(s[0]) then SkipDelimiters(s[1..]) else s
  }

  function TokenRun(s: string): (r: string)
    ensures |r| <= |s| && r == s[..|r|]
    ensures forall k :: 0 <= k < |r| ==> !IsDelimiter(r[k])
    ensures |r| < |s| ==> IsDelimiter(s[|r|])
  {
    if s == [] || IsDelimiter(s[0]) then [] else [s[0]] + TokenRun(s[1..])
  }

  /** `new StringTokenizer(s).nextToken()`, which throws when `s` holds only delimiters. */
  function NextToken(s: string): (r: Option<string>)
    ensures r.Some? ==> r.value != [] && forall k :: 0 <= k < |r.value| ==> !IsDelimiter(r.value[k])
  {
    var t := SkipDelimiters(s);
    if t == [] then None else Some(TokenRun(t))
  }

  /** A text of delimiters only has no token: `nextToken()` throws. */
  lemma {:induction false} OnlyDelimiters(gap: string)
    requires forall k :: 0 <= k < |gap| ==> IsDelimiter(gap[k])
    ensures NextToken(gap) == None
  {
    if gap != [] {
      OnlyDelimiters(gap[1..]);
    }
  }

  /** The first token of delimiters, a token and a text that starts with a delimiter. */
  lemma {:induction false} NextTokenOf(gap: string, tok: string, rest: string)
    requires forall k :: 0 <= k < |gap| ==> IsDelimiter(gap[k])
    requires tok != [] && forall k :: 0 <= k < |tok| ==> !IsDelimiter(tok[k])
    requires rest == [] || IsDelimiter(rest[0])
    ensures NextToken(gap + tok + rest) == Some(tok)
    decreases |gap| + |tok|
  {
    if gap != [] {
      assert (gap + tok + rest)[1..] == gap[1..] + tok + rest;
      NextTokenOf(gap[1..], tok, rest);
    } else {
      assert gap + tok + rest == tok + rest;
      assert SkipDelimiters(tok + rest) == tok + rest;
      TokenRunOf(tok, rest);
    }
  }

  lemma {:induction false} TokenRunOf(tok: string, rest: string)
    requires forall k :: 0 <= k < |tok| ==> !IsDelimiter(tok[k])
    requires rest == [] || IsDelimiter(rest[0])
    ensures TokenRun(tok + rest) == tok
  {
    if tok == [] {
      assert tok + rest == rest;
    } else {
      assert (tok + rest)[1..] == tok[1..] + rest;
      TokenRunOf(tok[1..], rest);
      assert [tok[0]] + tok[1..] == tok;
    }
  }

  // ------------------------------------------------------------------ integers

  const MIN_INT: int := -0x8000_0000
  const MAX_INT: int := 0x7fff_ffff

  predicate IsDigit(c: char) { '0' <= c <= '9' }

  predicate AllDigits(s: string) {
    forall k :: 0 <= k < |s| ==> IsDigit(s[k])
  }

  /** The value of a string of decimal digits, read most significant first. */
  function DigitsValue(s: string): nat
    requires AllDigits(s)
  {
    if s == [] then 0 else 10 * DigitsValue(s[..|s| - 1]) + (s[|s| - 1] - '0') as int
  }

  /**
   * `Integer.parseInt(s)` (the `new Integer(s)` constructor): an optional sign
   * followed by at least one decimal digit, in the 32-bit range; None is the
   * NumberFormatException.
   */
  function ParseInt(s: string): (r: Option<int>)
    ensures r.Some? ==> MIN_INT <= r.value <= MAX_INT
  {
    if s == [] then None
    else if s[0] == '-' || s[0] == '+' then
      if |s| == 1 || !AllDigits(s[1..]) then None
      else
        var v: int := if s[0] == '-' then 0 - DigitsValue(s[1..]) as int else DigitsValue(s[1..]) as int;
        if MIN_INT <= v <= MAX_INT then Some(v) else None
    else if !AllDigits(s) then None
    else if DigitsValue(s) <= MAX_INT then Some(DigitsValue(s))
    else None
  }

  /** The decimal text Java's string concatenation produces for a non-negative int. */
  function NatToString(n: nat): (r: string)
    ensures r != [] && AllDigits(r)
  {
    if n < 10 then ['0' + n as char] else NatToString(n / 10) + ['0' + (n % 10) as char]
  }

  lemma {:induction false} DigitsOfNatToString(n: nat)
    ensures DigitsValue(NatToString(n)) == n
  {
    var s := NatToString(n);
    if n >= 10 {
      DigitsOfNatToString(n / 10);
      assert s[..|s| - 1] == NatToString(n / 10);
    }
  }

  /** Parsing the decimal text of an int gives the int back. */
  lemma ParseNatToString(n: nat)
    requires n <= MAX_INT
    ensures ParseInt(NatToString(n)) == Some(n)
  {
    DigitsOfNatToString(n);
    var s := NatToString(n);
    assert IsDigit(s[0]);
  }
}
