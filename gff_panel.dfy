/**
 * The GFF-tag panel of the gene builder: the feature's GFF-tag qualifiers
 * (ID, Parent, synonyms and so on) held as a list of (name, values)
 * qualifiers, the synonym combo boxes shown for them, and the edits made
 * through the panel: choosing the current synonym, adding and removing a
 * synonym, and replacing the ID.
 *
 * A synonym qualifier holds one value per synonym.  A value `name` is the
 * current synonym; a value `name;current=false` is a former one.  The dialogs
 * only supply inputs, so their answers are parameters: the option dialogs'
 * first button ("CANCEL") is `Cancel`, its other button `Ok`, and a dialog
 * closed from its window frame answers `Closed`, which every action treats as
 * going ahead.
 */
module GffQualifiers {
  import opened Wrappers
  import opened JavaText
  import opened Qualifiers

  /** The marker of a synonym that is no longer the current one. */
  const CURRENT_FALSE := ";current=false"

  /** What a dialog answered. */
  datatype Answer = Ok | Cancel | Closed

  // ---------------------------------------------------------------- GFF tags

  /** `isGffTag`: the fixed GFF tag names, or a synonym tag of the feature. */
  predicate IsGffTag(name: string, synonymTags: set<string>) {
    name == "ID" || name == "feature_id" || name == "Parent" || name == "Derives_from" ||
    name == "feature_relationship_rank" || name == "timelastmodified" || name in synonymTags
  }

  /** The qualifiers `updateFromFeature` keeps, in their order. */
  function GffTags(qs: seq<Qualifier>, synonymTags: set<string>): seq<Qualifier> {
    if qs == [] then []
    else
      var kept := GffTags(qs[..|qs| - 1], synonymTags);
      if IsGffTag(qs[|qs| - 1].name, synonymTags) then kept + [qs[|qs| - 1]] else kept
  }

  /** The filter keeps exactly the GFF-tag qualifiers. */
  lemma {:induction false} GffTagsKeeps(qs: seq<Qualifier>, synonymTags: set<string>)
    ensures forall q :: q in GffTags(qs, synonymTags) <==> q in qs && IsGffTag(q.name, synonymTags)
  {
    if qs != [] {
      GffTagsKeeps(qs[..|qs| - 1], synonymTags);
      assert qs == qs[..|qs| - 1] + [qs[|qs| - 1]];
    }
  }

  /** The filter keeps relative order: filtering a concatenation filters each part. */
  lemma {:induction false} GffTagsAppend(a: seq<Qualifier>, b: seq<Qualifier>, synonymTags: set<string>)
    ensures GffTags(a + b, synonymTags) == GffTags(a, synonymTags) + GffTags(b, synonymTags)
  {
    if b == [] {
      assert a + b == a;
    } else {
      assert (a + b)[..|a + b| - 1] == a + b[..|b| - 1];
      GffTagsAppend(a, b[..|b| - 1], synonymTags);
    }
  }

  /** Filtering a second time changes nothing. */
  lemma {:induction false} GffTagsIdempotent(qs: seq<Qualifier>, synonymTags: set<string>)
    ensures GffTags(GffTags(qs, synonymTags), synonymTags) == GffTags(qs, synonymTags)
  {
    if qs != [] {
      var kept := GffTags(qs[..|qs| - 1], synonymTags);
      GffTagsIdempotent(qs[..|qs| - 1], synonymTags);
      if IsGffTag(qs[|qs| - 1].name, synonymTags) {
        assert (kept + [qs[|qs| - 1]])[..|kept|] == kept;
      }
    }
  }

  // ---------------------------------------------------------------- display order

  /** The components of a value, split on `;`. */
  function Components(v: string): seq<string> {
    Tokens(v, ';')
  }

  /**
   * The combo box items of a synonym qualifier: a value of several components
   * shows its first component, appended; any other value is shown whole and
   * put in front.
   */
  function DisplayItems(values: seq<string>): seq<string> {
    if values == [] then []
    else
      var items := DisplayItems(values[..|values| - 1]);
      var v := values[|values| - 1];
      if |Components(v)| > 1 then items + [Components(v)[0]] else [v] + items
  }

  /** The values of at most one component (the current synonyms), in order. */
  function Singles(values: seq<string>): seq<string> {
    if values == [] then []
    else
      var v := values[|values| - 1];
      Singles(values[..|values| - 1]) + if |Components(v)| > 1 then [] else [v]
  }

  /** The first components of the values of several components (the former synonyms), in order. */
  function Firsts(values: seq<string>): seq<string> {
    if values == [] then []
    else
      var v := values[|values| - 1];
      Firsts(values[..|values| - 1]) + if |Components(v)| > 1 then [Components(v)[0]] else []
  }

  function Reversed(s: seq<string>): seq<string> {
    if s == [] then [] else [s[|s| - 1]] + Reversed(s[..|s| - 1])
  }

  lemma ReversedAppend(s: seq<string>, v: string)
    ensures Reversed(s + [v]) == [v] + Reversed(s)
  {
    assert (s + [v])[..|s|] == s;
  }

  /** The display list is the current synonyms, last first, then the former ones in order. */
  lemma {:induction false} DisplayItemsSplit(values: seq<string>)
    ensures DisplayItems(values) == Reversed(Singles(values)) + Firsts(values)
  {
    if values != [] {
      var init := values[..|values| - 1];
      var v := values[|values| - 1];
      var c := Components(v);
      DisplayItemsSplit(init);
      if |c| > 1 {
        assert Singles(values) == Singles(init) + [] == Singles(init);
        assert DisplayItems(init) + [c[0]] == Reversed(Singles(init)) + (Firsts(init) + [c[0]]);
      } else {
        assert Firsts(values) == Firsts(init) + [] == Firsts(init);
        ReversedAppend(Singles(init), v);
      }
    }
  }

  /** One item per value. */
  lemma {:induction false} DisplayItemsLength(values: seq<string>)
    ensures |DisplayItems(values)| == |values|
  {
    if values != [] {
      DisplayItemsLength(values[..|values| - 1]);
    }
  }

  /** A value appears among the current synonyms exactly when it has at most one component. */
  lemma {:induction false} SinglesMembers(values: seq<string>)
    ensures forall x :: x in Singles(values) <==> x in values && |Components(x)| <= 1
  {
    if values != [] {
      SinglesMembers(values[..|values| - 1]);
      assert values == values[..|values| - 1] + [values[|values| - 1]];
    }
  }

  /** When there is a current synonym, the one shown first (index 0, the selected one) is the last of them. */
  lemma CurrentShownFirst(values: seq<string>)
    requires Singles(values) != []
    ensures DisplayItems(values)[0] == Singles(values)[|Singles(values)| - 1]
    ensures DisplayItems(values)[0] in values && |Components(DisplayItems(values)[0])| <= 1
  {
    DisplayItemsSplit(values);
    SinglesMembers(values);
    assert Reversed(Singles(values))[0] == Singles(values)[|Singles(values)| - 1];
  }

  /** The loop of the combo box construction: items built one value at a time. */
  method DisplayOrder(values: seq<string>) returns (featureSynonym: seq<string>)
    ensures featureSynonym == DisplayItems(values)
  {
    featureSynonym := [];
    var j := 0;
    while j < |values|
      invariant 0 <= j <= |values|
      invariant featureSynonym == DisplayItems(values[..j])
    {
      assert values[..j + 1][..j] == values[..j];
      var strings := Components(values[j]);
      if |strings| > 1 {
        featureSynonym := featureSynonym + [strings[0]];
      } else {
        featureSynonym := [values[j]] + featureSynonym;
      }
      j := j + 1;
    }
    assert values[..j] == values;
  }

  // ---------------------------------------------------------------- set current

  /** Every value has a first component (`getStrings(value, ";").get(0)` does not throw). */
  predicate AllComponents(values: seq<string>) {
    forall k :: 0 <= k < |values| ==> Components(values[k]) != []
  }

  /** The rewrite of one value when `selected` becomes current: the bare selection, or the first component marked not current. */
  function Rewritten(v: string, selected: string): string
    requires Components(v) != []
  {
    if selected == Components(v)[0] then selected else Components(v)[0] + CURRENT_FALSE
  }

  /** The rewrite of all values, in order. */
  function Retagged(values: seq<string>, selected: string): (r: seq<string>)
    requires AllComponents(values)
    ensures |r| == |values|
  {
    if values == [] then []
    else Retagged(values[..|values| - 1], selected) + [Rewritten(values[|values| - 1], selected)]
  }

  /** The set-current rewrite keeps the number of values and rewrites each in place. */
  lemma {:induction false} RetaggedAt(values: seq<string>, selected: string)
    requires AllComponents(values)
    ensures forall k :: 0 <= k < |values| ==> Retagged(values, selected)[k] == Rewritten(values[k], selected)
  {
    if values != [] {
      var init := values[..|values| - 1];
      var r := Retagged(values, selected);
      RetaggedAt(init, selected);
      assert r == Retagged(init, selected) + [Rewritten(values[|values| - 1], selected)];
      forall k | 0 <= k < |values|
        ensures r[k] == Rewritten(values[k], selected)
      {
        if k < |init| {
          assert values[k] == init[k];
        }
      }
    }
  }

  /** A component followed by the marker has two components: itself and "current=false". */
  lemma MarkedComponents(f: string)
    requires f != "" && ';' !in f
    ensures Components(f + CURRENT_FALSE) == [f, "current=false"]
  {
    var marker := "current=false";
    assert CURRENT_FALSE == [';'] + marker;
    assert f + CURRENT_FALSE == f + [';'] + marker;
    assert ';' !in marker;
    TokensPair(f, marker, ';');
  }

  /** A rewritten value keeps its first component, and is bare exactly when it is the selection. */
  lemma RewrittenFirst(v: string, selected: string)
    requires Components(v) != []
    ensures Components(Rewritten(v, selected)) != []
    ensures Components(Rewritten(v, selected))[0] == Components(v)[0]
    ensures |Components(Rewritten(v, selected))| <= 1 <==> selected == Components(v)[0]
  {
    var f := Components(v)[0];
    if selected == f {
      TokensSingle(f, ';');
    } else {
      MarkedComponents(f);
    }
  }

  /**
   * Only first components matter to the rewrite, and it keeps them: rewriting
   * for one selection and then for another is rewriting for the second alone.
   * So a combo box holding the values from before an earlier change of
   * current still rewrites correctly, and the rewrite is idempotent.
   */
  lemma RetaggedTwice(values: seq<string>, first: string, second: string)
    requires AllComponents(values)
    ensures AllComponents(Retagged(values, first))
    ensures Retagged(Retagged(values, first), second) == Retagged(values, second)
  {
    var once := Retagged(values, first);
    RetaggedAt(values, first);
    forall k | 0 <= k < |values|
      ensures Components(once[k]) != [] && Components(once[k])[0] == Components(values[k])[0]
    {
      RewrittenFirst(values[k], first);
    }
    RetaggedAt(once, second);
    RetaggedAt(values, second);
  }

  lemma RetaggedIdempotent(values: seq<string>, selected: string)
    requires AllComponents(values)
    ensures AllComponents(Retagged(values, selected))
    ensures Retagged(Retagged(values, selected), selected) == Retagged(values, selected)
  {
    RetaggedTwice(values, selected, selected);
  }

  /** After the rewrite, the values of one component are the selection itself and nothing else. */
  lemma RetaggedSingles(values: seq<string>, selected: string)
    requires AllComponents(values)
    ensures forall x :: x in Singles(Retagged(values, selected)) ==> x == selected
  {
    var once := Retagged(values, selected);
    RetaggedAt(values, selected);
    SinglesMembers(once);
    forall k | 0 <= k < |values|
      ensures |Components(once[k])| <= 1 ==> once[k] == selected
    {
      RewrittenFirst(values[k], selected);
    }
  }

  /** The value whose first component is the selection stays among the current synonyms. */
  lemma RetaggedKeepsSelection(values: seq<string>, selected: string, k: int)
    requires AllComponents(values) && 0 <= k < |values| && Components(values[k])[0] == selected
    ensures selected in Singles(Retagged(values, selected))
  {
    var once := Retagged(values, selected);
    RetaggedAt(values, selected);
    RewrittenFirst(values[k], selected);
    SinglesMembers(once);
    assert once[k] == selected && once[k] in once;
  }

  /** Once a value's first component is made current, the rebuilt combo box shows it first. */
  lemma RetaggedShownFirst(values: seq<string>, selected: string, k: int)
    requires AllComponents(values) && 0 <= k < |values| && Components(values[k])[0] == selected
    ensures DisplayItems(Retagged(values, selected))[0] == selected
  {
    var once := Retagged(values, selected);
    RetaggedKeepsSelection(values, selected, k);
    RetaggedSingles(values, selected);
    CurrentShownFirst(once);
    assert Singles(once)[|Singles(once)| - 1] in Singles(once);
  }

  // ---------------------------------------------------------------- add synonym

  /** The value a new synonym is stored as: bare when it is to be current, marked otherwise. */
  function NewSynonymValue(text: string, makeCurrent: bool): string {
    if makeCurrent then text else text + CURRENT_FALSE
  }

  /**
   * One value after a synonym is added: when the new one is made current,
   * every value whose first component is not the new value gains the marker,
   * unless it already ends in it.
   */
  function Marked(v: string, newValue: string, makeCurrent: bool): string
    requires Components(v) != []
  {
    if Components(v)[0] != newValue && makeCurrent && !EndsWith(v, CURRENT_FALSE) then v + CURRENT_FALSE else v
  }

  /** All values after a synonym is added, in order. */
  function MarkAll(values: seq<string>, newValue: string, makeCurrent: bool): (r: seq<string>)
    requires AllComponents(values)
    ensures |r| == |values|
  {
    if values == [] then []
    else MarkAll(values[..|values| - 1], newValue, makeCurrent) + [Marked(values[|values| - 1], newValue, makeCurrent)]
  }

  /** The marking keeps the number of values and marks each in place. */
  lemma {:induction false} MarkAllAt(values: seq<string>, newValue: string, makeCurrent: bool)
    requires AllComponents(values)
    ensures forall k :: 0 <= k < |values| ==> MarkAll(values, newValue, makeCurrent)[k] == Marked(values[k], newValue, makeCurrent)
  {
    if values != [] {
      var init := values[..|values| - 1];
      var r := MarkAll(values, newValue, makeCurrent);
      MarkAllAt(init, newValue, makeCurrent);
      assert r == MarkAll(init, newValue, makeCurrent) + [Marked(values[|values| - 1], newValue, makeCurrent)];
      forall k | 0 <= k < |values|
        ensures r[k] == Marked(values[k], newValue, makeCurrent)
      {
        if k < |init| {
          assert values[k] == init[k];
        }
      }
    }
  }

  /** A marked value never ends in the marker twice unless it already did. */
  lemma NoDoubleMarker(v: string, newValue: string, makeCurrent: bool)
    requires Components(v) != [] && !EndsWith(v, CURRENT_FALSE + CURRENT_FALSE)
    ensures !EndsWith(Marked(v, newValue, makeCurrent), CURRENT_FALSE + CURRENT_FALSE)
  {
    var m := Marked(v, newValue, makeCurrent);
    if m != v && |CURRENT_FALSE + CURRENT_FALSE| <= |m| {
      var n := |CURRENT_FALSE|;
      assert m[|m| - 2 * n..][..n] == v[|v| - n..];
    }
  }

  /**
   * After a synonym is added: without "make current" no value changes; with
   * it, every value whose first component is not the new value ends in the
   * marker, values whose first component is the new value are left alone, and
   * no value ends in the marker twice.
   */
  lemma MarkAllMeaning(values: seq<string>, newValue: string, makeCurrent: bool)
    requires AllComponents(values)
    ensures !makeCurrent ==> MarkAll(values, newValue, makeCurrent) == values
    ensures forall k :: 0 <= k < |values| && Components(values[k])[0] == newValue ==>
      MarkAll(values, newValue, makeCurrent)[k] == values[k]
    ensures makeCurrent ==> forall k :: 0 <= k < |values| && Components(values[k])[0] != newValue ==>
      EndsWith(MarkAll(values, newValue, makeCurrent)[k], CURRENT_FALSE)
    ensures forall k :: 0 <= k < |values| && !EndsWith(values[k], CURRENT_FALSE + CURRENT_FALSE) ==>
      !EndsWith(MarkAll(values, newValue, makeCurrent)[k], CURRENT_FALSE + CURRENT_FALSE)
  {
    var m := MarkAll(values, newValue, makeCurrent);
    MarkAllAt(values, newValue, makeCurrent);
    forall k | 0 <= k < |values| && makeCurrent && Components(values[k])[0] != newValue
      ensures EndsWith(m[k], CURRENT_FALSE)
    {
      var v := values[k];
      if !EndsWith(v, CURRENT_FALSE) {
        assert (v + CURRENT_FALSE)[|v|..] == CURRENT_FALSE;
      }
    }
    forall k | 0 <= k < |values| && !EndsWith(values[k], CURRENT_FALSE + CURRENT_FALSE)
      ensures !EndsWith(m[k], CURRENT_FALSE + CURRENT_FALSE)
    {
      NoDoubleMarker(values[k], newValue, makeCurrent);
    }
  }

  /** A new synonym without `;` added as current stays bare, the one current value of its qualifier. */
  lemma NewSynonymStaysCurrent(values: seq<string>, text: string)
    requires text != "" && ';' !in text && AllComponents(values + [text])
    ensures MarkAll(values + [text], text, true)[|values|] == text
  {
    TokensSingle(text, ';');
    MarkAllAt(values + [text], text, true);
    assert (values + [text])[|values|] == text;
  }

  /** The loop of the set-current action: None where a value has no component (`get(0)` throws). */
  method Retag(values: seq<string>, selectedValue: string) returns (r: Option<seq<string>>)
    ensures r.None? <==> !AllComponents(values)
    ensures r.Some? ==> r.value == Retagged(values, selectedValue)
  {
    var newValues: seq<string> := [];
    var i := 0;
    while i < |values|
      invariant 0 <= i <= |values|
      invariant AllComponents(values[..i])
      invariant newValues == Retagged(values[..i], selectedValue)
    {
      assert values[..i + 1][..i] == values[..i];
      var strings := Components(values[i]);
      if strings == [] {
        return None;
      }
      var value;
      if selectedValue == strings[0] {
        value := selectedValue;
      } else {
        value := strings[0] + CURRENT_FALSE;
      }
      newValues := newValues + [value];
      i := i + 1;
    }
    assert values[..i] == values;
    return Some(newValues);
  }

  /** The loop of the add-synonym action: None where a value has no component. */
  method MarkOthers(values: seq<string>, newSynonymValue: string, makeCurrent: bool) returns (r: Option<seq<string>>)
    ensures r.None? <==> !AllComponents(values)
    ensures r.Some? ==> r.value == MarkAll(values, newSynonymValue, makeCurrent)
  {
    var newValues: seq<string> := [];
    var i := 0;
    while i < |values|
      invariant 0 <= i <= |values|
      invariant AllComponents(values[..i])
      invariant newValues == MarkAll(values[..i], newSynonymValue, makeCurrent)
    {
      assert values[..i + 1][..i] == values[..i];
      var thisValue := values[i];
      var str := Components(thisValue);
      if str == [] {
        return None;
      }
      var synonymValue := str[0];
      if synonymValue != newSynonymValue {
        if makeCurrent && !EndsWith(thisValue, CURRENT_FALSE) {
          thisValue := thisValue + CURRENT_FALSE;
        }
      }
      newValues := newValues + [thisValue];
      i := i + 1;
    }
    assert values[..i] == values;
    return Some(newValues);
  }

  /** The list after a qualifier's values are stored: in place at `i`, or appended when there is no qualifier of the name (`i` is -1). */
  function Stored(qs: seq<Qualifier>, i: int, name: string, values: seq<string>): seq<Qualifier>
    requires -1 <= i < |qs|
  {
    if i == -1 then qs + [Qualifier(name, values)] else qs[i := Qualifier(name, values)]
  }

  /** Where a qualifier stored by `Stored` sits. */
  function StoredAt(qs: seq<Qualifier>, i: int): int {
    if i == -1 then |qs| else i
  }

  /** Storing other values at the same place overwrites the first ones. */
  lemma StoredTwice(qs: seq<Qualifier>, i: int, name: string, values: seq<string>, later: seq<string>)
    requires -1 <= i < |qs|
    ensures StoredAt(qs, i) < |Stored(qs, i, name, values)|
    ensures Stored(qs, i, name, values)[StoredAt(qs, i) := Qualifier(name, later)] == Stored(qs, i, name, later)
  {
  }

  /** The values of the synonym qualifier once the new value is added to the first qualifier of the name, or to a new one. */
  function AddedValues(qs: seq<Qualifier>, synonymName: string, newValue: string): seq<string> {
    var i := IndexOfName(qs, synonymName);
    (if i == -1 then [] else qs[i].values) + [newValue]
  }

  // ---------------------------------------------------------------- the panel

  /**
   * A synonym combo box: the qualifier it was built from (the listener keeps
   * that qualifier, not the list entry), its items, the selected index and
   * the index of the current value.
   */
  datatype Combo = Combo(qualifier: Qualifier, items: seq<string>, selected: int, current: int)

  /** A combo box as built for a qualifier: its display items, index 0 selected and current. */
  predicate FreshCombo(c: Combo, name: string) {
    c.qualifier.name == name && c.items == DisplayItems(c.qualifier.values) && c.selected == 0 && c.current == 0
  }

  /** The combo boxes the panel builds, by name; a later qualifier of the same name replaces an earlier one's. */
  function Combos(qs: seq<Qualifier>, synonymTags: set<string>): map<string, Combo> {
    if qs == [] then map[]
    else
      var m := Combos(qs[..|qs| - 1], synonymTags);
      var q := qs[|qs| - 1];
      if q.name in synonymTags then m[q.name := Combo(q, DisplayItems(q.values), 0, 0)] else m
  }

  /** One more qualifier adds or replaces the combo box of its name when it is a synonym qualifier. */
  lemma CombosStep(qs: seq<Qualifier>, i: nat, synonymTags: set<string>)
    requires i < |qs|
    ensures Combos(qs[..i + 1], synonymTags) ==
      if qs[i].name in synonymTags then Combos(qs[..i], synonymTags)[qs[i].name := Combo(qs[i], DisplayItems(qs[i].values), 0, 0)]
      else Combos(qs[..i], synonymTags)
  {
    assert qs[..i + 1][..i] == qs[..i];
  }

  /** Replacing one combo box after a merge is replacing it in the merged-in map. */
  lemma MergeReplace(m: map<string, Combo>, built: map<string, Combo>, name: string, c: Combo)
    ensures (m + built)[name := c] == m + built[name := c]
  {
  }

  /** There is a combo box for each synonym qualifier name and no other, each built fresh from a qualifier of the list. */
  lemma {:induction false} CombosBuilt(qs: seq<Qualifier>, synonymTags: set<string>)
    ensures forall n :: n in Combos(qs, synonymTags) <==> n in synonymTags && exists q :: q in qs && q.name == n
    ensures forall n :: n in Combos(qs, synonymTags) ==>
      FreshCombo(Combos(qs, synonymTags)[n], n) && Combos(qs, synonymTags)[n].qualifier in qs
  {
    if qs != [] {
      CombosBuilt(qs[..|qs| - 1], synonymTags);
      assert qs == qs[..|qs| - 1] + [qs[|qs| - 1]];
    }
  }

  /** A synonym qualifier without values: its combo box has no item 0, so selecting that item throws. */
  predicate Valueless(q: Qualifier, synonymTags: set<string>) {
    q.name in synonymTags && q.values == []
  }

  /**
   * The qualifiers the combo box loop gets through: all of them, or those up
   * to and including the first valueless synonym qualifier, whose combo box
   * is stored before selecting its item 0 throws.
   */
  function Displayed(qs: seq<Qualifier>, synonymTags: set<string>): seq<Qualifier> {
    if qs == [] then []
    else if Valueless(qs[0], synonymTags) then [qs[0]]
    else [qs[0]] + Displayed(qs[1..], synonymTags)
  }

  /**
   * The qualifiers displayed are a prefix of the list, all of it when no
   * synonym qualifier lacks values, and otherwise end at the first one that
   * does.
   */
  lemma {:induction false} DisplayedPrefix(qs: seq<Qualifier>, synonymTags: set<string>)
    ensures Displayed(qs, synonymTags) <= qs
    ensures forall k :: 0 <= k < |Displayed(qs, synonymTags)| - 1 ==> !Valueless(qs[k], synonymTags)
    ensures |Displayed(qs, synonymTags)| < |qs| ==>
      Displayed(qs, synonymTags) != [] && Valueless(qs[|Displayed(qs, synonymTags)| - 1], synonymTags)
    ensures Displayed(qs, synonymTags) == qs <== forall k :: 0 <= k < |qs| ==> !Valueless(qs[k], synonymTags)
  {
    if qs != [] && !Valueless(qs[0], synonymTags) {
      DisplayedPrefix(qs[1..], synonymTags);
    }
  }

  /** The loop stops at the first valueless synonym qualifier, having stored its combo box. */
  lemma DisplayedUpTo(qs: seq<Qualifier>, i: nat, synonymTags: set<string>)
    requires i < |qs| && Valueless(qs[i], synonymTags)
    requires forall k :: 0 <= k < i ==> !Valueless(qs[k], synonymTags)
    ensures Displayed(qs, synonymTags) == qs[..i + 1]
  {
    DisplayedPrefix(qs, synonymTags);
    assert Displayed(qs, synonymTags) == qs[..|Displayed(qs, synonymTags)|];
  }

  /**
   * The display does not throw: every synonym qualifier has a value; the ID
   * qualifier, when there is one, has a first value, and so does the
   * feature_id qualifier then; the timelastmodified qualifier, when there is
   * one, has a first value.
   */
  predicate Displayable(qs: seq<Qualifier>, synonymTags: set<string>) {
    var id := IndexOfName(qs, "ID");
    var featureId := IndexOfName(qs, "feature_id");
    var time := IndexOfName(qs, "timelastmodified");
    (forall k :: 0 <= k < |qs| ==> !Valueless(qs[k], synonymTags)) &&
    (id == -1 || (qs[id].values != [] && (featureId == -1 || qs[featureId].values != []))) &&
    (time == -1 || qs[time].values != [])
  }

  /** The synonym qualifier names offered for removal, in list order. */
  function SynonymTypes(qs: seq<Qualifier>, synonymTags: set<string>): (r: seq<string>)
    ensures forall k :: 0 <= k < |r| ==> r[k] in synonymTags && IndexOfName(qs, r[k]) != -1
  {
    if qs == [] then []
    else
      var types := SynonymTypes(qs[..|qs| - 1], synonymTags);
      var q := qs[|qs| - 1];
      assert forall k :: 0 <= k < |qs| - 1 ==> qs[..|qs| - 1][k] == qs[k];
      if q.name in synonymTags then types + [q.name] else types
  }

  /** `getGffQualifiers` on a list: the edited ID text replaces the ID qualifier when it is new and non-empty; None when there is no ID to read. */
  function ReplaceId(qs: seq<Qualifier>, typed: string): Option<seq<Qualifier>> {
    var i := IndexOfName(qs, "ID");
    if i == -1 || qs[i].values == [] then None
    else if qs[i].values[0] != typed && typed != "" then Some(RemoveAt(qs, i) + [Qualifier("ID", [typed])])
    else Some(qs)
  }

  /**
   * The replacement moves the ID qualifier to the end with the text as its
   * only value and keeps every other qualifier in order; with one ID
   * qualifier, asking again with the same text changes nothing.
   */
  lemma ReplaceIdSettles(qs: seq<Qualifier>, typed: string)
    requires ReplaceId(qs, typed).Some?
    requires IndexOfName(RemoveAt(qs, IndexOfName(qs, "ID")), "ID") == -1
    ensures ReplaceId(ReplaceId(qs, typed).value, typed) == ReplaceId(qs, typed)
  {
    var i := IndexOfName(qs, "ID");
    var rest := RemoveAt(qs, i);
    if qs[i].values[0] != typed && typed != "" {
      IndexOfAppended(rest, Qualifier("ID", [typed]));
    }
  }

  /** The text the ID field starts with, or an empty one, leaves the list as it is. */
  lemma ReplaceIdUnedited(qs: seq<Qualifier>, typed: string)
    requires IndexOfName(qs, "ID") != -1 && qs[IndexOfName(qs, "ID")].values != []
    requires typed == "" || typed == qs[IndexOfName(qs, "ID")].values[0]
    ensures ReplaceId(qs, typed) == Some(qs)
  {
  }

  class GffPanel {
    /** The names `ChadoTransactionManager.isSynonymTag` accepts for the panel's feature. */
    const synonymTags: set<string>
    /** The panel's own list of the feature's GFF-tag qualifiers (`gffQualifiers`). */
    var gffQualifiers: seq<Qualifier>
    /** The synonym combo boxes by qualifier name (`featureSynonyms`); entries are added and replaced, never removed. */
    var featureSynonyms: map<string, Combo>

    /** The panel for a feature with these qualifiers. */
    constructor (featureQualifiers: seq<Qualifier>, synonymTags: set<string>)
      ensures this.synonymTags == synonymTags
      ensures gffQualifiers == GffTags(featureQualifiers, synonymTags)
      ensures featureSynonyms == Combos(Displayed(gffQualifiers, synonymTags), synonymTags)
    {
      this.synonymTags := synonymTags;
      gffQualifiers := [];
      featureSynonyms := map[];
      new;
      var shown := UpdateFromFeature(featureQualifiers);
      assert map[] + Combos(Displayed(gffQualifiers, synonymTags), synonymTags) == Combos(Displayed(gffQualifiers, synonymTags), synonymTags);
    }

    /** `updateFromFeature`: keep copies of the GFF-tag qualifiers, in order, and rebuild the display. */
    method UpdateFromFeature(featureQualifiers: seq<Qualifier>) returns (shown: bool)
      modifies this`gffQualifiers, this`featureSynonyms
      ensures gffQualifiers == GffTags(featureQualifiers, synonymTags)
      ensures featureSynonyms == old(featureSynonyms) + Combos(Displayed(gffQualifiers, synonymTags), synonymTags)
      ensures shown <==> Displayable(gffQualifiers, synonymTags)
    {
      gffQualifiers := [];
      var i := 0;
      while i < |featureQualifiers|
        invariant 0 <= i <= |featureQualifiers|
        invariant gffQualifiers == GffTags(featureQualifiers[..i], synonymTags)
        invariant featureSynonyms == old(featureSynonyms)
      {
        assert featureQualifiers[..i + 1][..i] == featureQualifiers[..i];
        if IsGffTag(featureQualifiers[i].name, synonymTags) {
          gffQualifiers := gffQualifiers + [featureQualifiers[i]];
        }
        i := i + 1;
      }
      assert featureQualifiers[..i] == featureQualifiers;
      shown := ShowQualifiers();
    }

    /**
     * What `createGffQualifiersComponent` does to the panel's state: a fresh
     * combo box per synonym qualifier, up to the first one without values,
     * where selecting item 0 throws; `shown` is false where that happens or
     * where reading a first value of ID, feature_id or timelastmodified throws.
     */
    method ShowQualifiers() returns (shown: bool)
      modifies this`featureSynonyms
      ensures featureSynonyms == old(featureSynonyms) + Combos(Displayed(gffQualifiers, synonymTags), synonymTags)
      ensures shown <==> Displayable(gffQualifiers, synonymTags)
    {
      var built := BuildCombos();
      if !built {
        return false;
      }
      var idIndex := IndexOfName(gffQualifiers, "ID");
      if idIndex != -1 {
        if gffQualifiers[idIndex].values == [] {
          return false;
        }
        var featureIdIndex := IndexOfName(gffQualifiers, "feature_id");
        if featureIdIndex != -1 && gffQualifiers[featureIdIndex].values == [] {
          return false;
        }
      }
      var timeIndex := IndexOfName(gffQualifiers, "timelastmodified");
      shown := timeIndex == -1 || gffQualifiers[timeIndex].values != [];
    }

    /** The combo box loop; `built` is false where it throws at a synonym qualifier without values. */
    method BuildCombos() returns (built: bool)
      modifies this`featureSynonyms
      ensures featureSynonyms == old(featureSynonyms) + Combos(Displayed(gffQualifiers, synonymTags), synonymTags)
      ensures built <==> forall k :: 0 <= k < |gffQualifiers| ==> !Valueless(gffQualifiers[k], synonymTags)
    {
      var qs := gffQualifiers;
      var i := 0;
      while i < |qs|
        invariant 0 <= i <= |qs| && qs == gffQualifiers
        invariant featureSynonyms == old(featureSynonyms) + Combos(qs[..i], synonymTags)
        invariant forall k :: 0 <= k < i ==> !Valueless(qs[k], synonymTags)
      {
        CombosStep(qs, i, synonymTags);
        if qs[i].name in synonymTags {
          MergeReplace(old(featureSynonyms), Combos(qs[..i], synonymTags), qs[i].name, Combo(qs[i], DisplayItems(qs[i].values), 0, 0));
          var selectable := PutCombo(qs[i]);
          if !selectable {
            DisplayedUpTo(qs, i, synonymTags);
            return false;
          }
        }
        i := i + 1;
      }
      assert qs[..i] == qs;
      DisplayedPrefix(qs, synonymTags);
      return true;
    }

    /** One combo box, stored under its qualifier's name; selecting its item 0 throws when it has no items. */
    method PutCombo(qualifier: Qualifier) returns (selectable: bool)
      modifies this`featureSynonyms
      ensures featureSynonyms == old(featureSynonyms)[qualifier.name := Combo(qualifier, DisplayItems(qualifier.values), 0, 0)]
      ensures selectable <==> qualifier.values != []
    {
      var featureSynonym := DisplayOrder(qualifier.values);
      featureSynonyms := featureSynonyms[qualifier.name := Combo(qualifier, featureSynonym, 0, 0)];
      DisplayItemsLength(qualifier.values);
      selectable := featureSynonym != [];
    }

    /**
     * The synonym combo box's action: the user picked item `index` of the
     * combo box for `name`, and `answer` is the confirmation dialog's.  The
     * combo box reports as selected the first item equal to the picked one.
     * Picking the current item does nothing; Cancel restores the selection;
     * otherwise every value of the qualifier the combo box was built from is
     * rewritten, the list entry of that name is replaced in place, and the
     * selected item becomes current.  `done` is false where the rewrite throws.
     * The map keeps combo boxes of earlier displays whose qualifier is no
     * longer listed, so the model also lets the user act on those.
     */
    method SelectSynonym(name: string, index: int, answer: Answer) returns (done: bool)
      requires name in featureSynonyms && 0 <= index < |featureSynonyms[name].items|
      modifies this`gffQualifiers, this`featureSynonyms
      ensures var c := old(featureSynonyms[name]);
        var i := IndexOfName(old(gffQualifiers), c.qualifier.name);
        var s := IndexOfItem(c.items, c.items[index]);
        (s == c.current ==>
          done && gffQualifiers == old(gffQualifiers) && featureSynonyms == old(featureSynonyms)[name := c.(selected := s)]) &&
        (s != c.current && answer == Cancel ==>
          done && gffQualifiers == old(gffQualifiers) && featureSynonyms == old(featureSynonyms)[name := c.(selected := c.current)]) &&
        (s != c.current && answer != Cancel ==>
          (done <==> AllComponents(c.qualifier.values) && i != -1) &&
          (done ==>
            gffQualifiers == old(gffQualifiers)[i := Qualifier(c.qualifier.name, Retagged(c.qualifier.values, c.items[index]))] &&
            featureSynonyms == old(featureSynonyms)[name := c.(selected := s, current := s)]) &&
          (!done ==> gffQualifiers == old(gffQualifiers) && featureSynonyms == old(featureSynonyms)[name := c.(selected := s)]))
    {
      // `getSelectedIndex` finds the first item equal to the selected one
      var picked := featureSynonyms[name];
      var comboBox := picked.(selected := IndexOfItem(picked.items, picked.items[index]));
      if comboBox.selected == comboBox.current {
        featureSynonyms := featureSynonyms[name := comboBox];
        return true;
      }
      if answer == Cancel {
        featureSynonyms := featureSynonyms[name := comboBox.(selected := comboBox.current)];
        return true;
      }
      featureSynonyms := featureSynonyms[name := comboBox];
      var qualifier := comboBox.qualifier;
      var newValues := Retag(qualifier.values, comboBox.items[comboBox.selected]);
      if newValues.None? {
        return false;
      }
      var i := IndexOfName(gffQualifiers, qualifier.name);
      if i == -1 {
        return false;
      }
      var removed := RemoveAt(gffQualifiers, i);
      ReplaceInPlace(gffQualifiers, i, Qualifier(qualifier.name, newValues.value));
      gffQualifiers := removed[..i] + [Qualifier(qualifier.name, newValues.value)] + removed[i..];
      featureSynonyms := featureSynonyms[name := comboBox.(current := comboBox.selected)];
      return true;
    }

    /**
     * `addSynonym`: `select` answers the type dialog, `synonymName` is the
     * chosen synonym type, `text` and `makeCurrent` the typed synonym and the
     * check box, `confirm` the second dialog.  The new value is appended to the
     * first qualifier of that name, or to a new qualifier at the end; then the
     * values are marked and the display rebuilt.  Where a value has no
     * component the marking throws, after the value was stored.
     */
    method AddSynonym(select: Answer, synonymName: string, text: string, makeCurrent: bool, confirm: Answer)
      returns (done: bool)
      modifies this`gffQualifiers, this`featureSynonyms
      ensures select == Cancel || confirm == Cancel || text == "" ==>
        done && gffQualifiers == old(gffQualifiers) && featureSynonyms == old(featureSynonyms)
      ensures !(select == Cancel || confirm == Cancel || text == "") ==>
        var newValue := NewSynonymValue(text, makeCurrent);
        var values := AddedValues(old(gffQualifiers), synonymName, newValue);
        !AllComponents(values) ==>
          !done && featureSynonyms == old(featureSynonyms) &&
          gffQualifiers == Stored(old(gffQualifiers), IndexOfName(old(gffQualifiers), synonymName), synonymName, values)
      ensures !(select == Cancel || confirm == Cancel || text == "") ==>
        var newValue := NewSynonymValue(text, makeCurrent);
        var values := AddedValues(old(gffQualifiers), synonymName, newValue);
        AllComponents(values) ==>
          gffQualifiers == Stored(old(gffQualifiers), IndexOfName(old(gffQualifiers), synonymName), synonymName,
                                  MarkAll(values, newValue, makeCurrent)) &&
          featureSynonyms == old(featureSynonyms) + Combos(Displayed(gffQualifiers, synonymTags), synonymTags) &&
          (done <==> Displayable(gffQualifiers, synonymTags))
    {
      if select == Cancel {
        return true;
      }
      if confirm == Cancel || text == "" {
        return true;
      }
      var newSynonymValue := text;
      if !makeCurrent {
        newSynonymValue := newSynonymValue + CURRENT_FALSE;
      }
      var i := IndexOfName(gffQualifiers, synonymName);
      var values := StoreSynonym(synonymName, newSynonymValue);
      var newValues := MarkOthers(values, newSynonymValue, makeCurrent);
      if newValues.None? {
        return false;
      }
      // the qualifier was stored above, so the lookup finds it
      var index := IndexOfName(gffQualifiers, synonymName);
      assert index == StoredAt(old(gffQualifiers), i);
      var removed := RemoveAt(gffQualifiers, index);
      ReplaceInPlace(gffQualifiers, index, Qualifier(synonymName, newValues.value));
      StoredTwice(old(gffQualifiers), i, synonymName, values, newValues.value);
      gffQualifiers := removed[..index] + [Qualifier(synonymName, newValues.value)] + removed[index..];
      done := ShowQualifiers();
    }

    /** The new value added to the first qualifier of the name, or to a new qualifier at the end. */
    method StoreSynonym(synonymName: string, newSynonymValue: string) returns (values: seq<string>)
      modifies this`gffQualifiers
      ensures values == AddedValues(old(gffQualifiers), synonymName, newSynonymValue)
      ensures gffQualifiers == Stored(old(gffQualifiers), IndexOfName(old(gffQualifiers), synonymName), synonymName, values)
      ensures IndexOfName(gffQualifiers, synonymName) == StoredAt(old(gffQualifiers), IndexOfName(old(gffQualifiers), synonymName))
    {
      var i := IndexOfName(gffQualifiers, synonymName);
      if i == -1 {
        values := [newSynonymValue];
        IndexOfAppended(gffQualifiers, Qualifier(synonymName, values));
        gffQualifiers := gffQualifiers + [Qualifier(synonymName, values)];
      } else {
        values := gffQualifiers[i].values + [newSynonymValue];
        IndexOfReplaced(gffQualifiers, i, Qualifier(synonymName, values));
        gffQualifiers := gffQualifiers[i := Qualifier(synonymName, values)];
      }
    }

    /** `values.remove(v)` on qualifier `i`, which `remove(i)` and `add(i, …)` then put back in its place. */
    method RemoveValue(i: nat, v: nat)
      requires i < |gffQualifiers| && v < |gffQualifiers[i].values|
      modifies this`gffQualifiers
      ensures var q := old(gffQualifiers)[i];
        gffQualifiers == old(gffQualifiers)[i := Qualifier(q.name, q.values[..v] + q.values[v + 1..])]
    {
      var q := gffQualifiers[i];
      var values := q.values[..v] + q.values[v + 1..];
      var removed := RemoveAt(gffQualifiers, i);
      ReplaceInPlace(gffQualifiers, i, Qualifier(q.name, values));
      gffQualifiers := removed[..i] + [Qualifier(q.name, values)] + removed[i..];
    }

    /** The synonym types offered by the type dialog of `removeSynonym`: the synonym names, in list order. */
    method CollectSynonymTypes() returns (synonymTypes: seq<string>)
      ensures synonymTypes == SynonymTypes(gffQualifiers, synonymTags)
    {
      synonymTypes := [];
      var k := 0;
      while k < |gffQualifiers|
        invariant 0 <= k <= |gffQualifiers|
        invariant synonymTypes == SynonymTypes(gffQualifiers[..k], synonymTags)
      {
        assert gffQualifiers[..k + 1][..k] == gffQualifiers[..k];
        if gffQualifiers[k].name in synonymTags {
          synonymTypes := synonymTypes + [gffQualifiers[k].name];
        }
        k := k + 1;
      }
      assert gffQualifiers[..k] == gffQualifiers;
    }

    /**
     * `removeSynonym`: `select` answers the type dialog and `typeIndex` is the
     * synonym type chosen there (out of range when there is none to choose,
     * where the lookup by name throws); `valueIndex` is the position picked in
     * the value list and `confirm` the second dialog.  A qualifier with one
     * value goes; otherwise the first value equal to the picked one goes, as
     * the list reports that one as selected, and the qualifier keeps its place.
     */
    method RemoveSynonym(select: Answer, typeIndex: int, valueIndex: int, confirm: Answer) returns (done: bool)
      modifies this`gffQualifiers, this`featureSynonyms
      ensures var types := SynonymTypes(old(gffQualifiers), synonymTags);
        var unchangedState := gffQualifiers == old(gffQualifiers) && featureSynonyms == old(featureSynonyms);
        (select == Cancel ==> done && unchangedState) &&
        (select != Cancel && !(0 <= typeIndex < |types|) ==> !done && unchangedState) &&
        (select != Cancel && 0 <= typeIndex < |types| && confirm == Cancel ==> done && unchangedState)
      ensures var types := SynonymTypes(old(gffQualifiers), synonymTags);
        select != Cancel && 0 <= typeIndex < |types| && confirm != Cancel ==>
          var name := types[typeIndex];
          var i := IndexOfName(old(gffQualifiers), name);
          var values := old(gffQualifiers)[i].values;
          var rebuilt := featureSynonyms == old(featureSynonyms) + Combos(Displayed(gffQualifiers, synonymTags), synonymTags) &&
            (done <==> Displayable(gffQualifiers, synonymTags));
          (|values| == 1 ==> gffQualifiers == RemoveAt(old(gffQualifiers), i) && rebuilt) &&
          (|values| != 1 && !(0 <= valueIndex < |values|) ==>
            !done && gffQualifiers == old(gffQualifiers) && featureSynonyms == old(featureSynonyms)) &&
          (|values| != 1 && 0 <= valueIndex < |values| ==>
            var v := IndexOfItem(values, values[valueIndex]);
            gffQualifiers == old(gffQualifiers)[i := Qualifier(name, values[..v] + values[v + 1..])] && rebuilt)
    {
      var synonymTypes := CollectSynonymTypes();
      if select == Cancel {
        return true;
      }
      if !(0 <= typeIndex < |synonymTypes|) {
        return false;
      }
      var synonymName := synonymTypes[typeIndex];
      var i := IndexOfName(gffQualifiers, synonymName);
      var values := gffQualifiers[i].values;
      if confirm == Cancel {
        return true;
      }
      if |values| == 1 {
        gffQualifiers := RemoveAt(gffQualifiers, i);
      } else {
        if !(0 <= valueIndex < |values|) {
          return false;
        }
        // `getSelectedIndex` finds the first item equal to the picked one
        var v := IndexOfItem(values, values[valueIndex]);
        RemoveValue(i, v);
      }
      done := ShowQualifiers();
    }

    /** `getGffQualifiers`, where `typed` is the ID field's text: None where there is no ID value to compare with. */
    method GetGffQualifiers(typed: string) returns (r: Option<seq<Qualifier>>)
      modifies this`gffQualifiers
      ensures r == ReplaceId(old(gffQualifiers), typed)
      ensures gffQualifiers == if r.Some? then r.value else old(gffQualifiers)
    {
      var i := IndexOfName(gffQualifiers, "ID");
      if i == -1 || gffQualifiers[i].values == [] {
        return None;
      }
      if gffQualifiers[i].values[0] != typed {
        if typed != "" {
          gffQualifiers := RemoveAt(gffQualifiers, i) + [Qualifier("ID", [typed])];
        }
      }
      return Some(gffQualifiers);
    }
  }
}
