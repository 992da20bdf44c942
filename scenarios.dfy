/**
 * Worked inputs of the merger replayed on the merge loop, with the keys the
 * padding utilities give: the horizontal ones set `padding-left` and
 * `padding-right`, the vertical ones `padding-top` and `padding-bottom`.
 */
module Scenarios {
  import opened Text
  import opened OrderedMaps
  import opened Keys
  import opened Conflicts
  import opened Merging

  // ---------------------------------------------------------------------
  // Removal keys of a two-property utility

  /** Two `;`-terminated names split on `;` into the names and an empty tail. */
  lemma SplitTwo(a: string, b: string)
    requires ';' !in a && ';' !in b
    ensures SplitEach(a + ";" + b + ";", IsSemi) == [a, b, ""]
  {
    var ys := [a + ";", b + ";"];
    assert (a + ";")[..|a|] == a;
    assert (b + ";")[..|b|] == b;
    assert SemiTerminated(ys[0]) && SemiTerminated(ys[1]);
    assert [ys[0], ys[1]][1..] == [ys[1]];
    assert Concat([ys[1]]) == ys[1] + Concat([]);
    assert Concat(ys) == a + ";" + b + ";";
    SplitSemis(ys);
    assert Unsemi(ys) == [a, b];
  }

  lemma FilterIncluded(a: string, b: string)
    requires Included(a) && Included(b)
    ensures Filter([a, b, ""], Included) == [a, b]
  {
    assert [a, b, ""][..2] == [a, b];
    assert [a, b][..1] == [a];
    assert [a][..0] == [];
  }

  /** A property list of two `;`-terminated names yields those names. */
  lemma TwoProperties(a: string, b: string)
    requires Included(a) && Included(b) && ';' !in a && ';' !in b
    ensures IncludeProperties(a + ";" + b + ";") == [a, b]
  {
    SplitTwo(a, b);
    FilterIncluded(a, b);
  }

  /**
   * A utility setting two properties evicts the entries keyed by each of
   * them, whatever the table holds: only single-property utilities consult it.
   */
  lemma TwoPropertyRemovals(table: map<string, seq<string>>, a: string, b: string)
    requires Included(a) && Included(b) && ';' !in a && ';' !in b
    ensures ConflictingKeysIn(table, a + ";" + b + ";", "") == [a + ";", b + ";"]
  {
    TwoProperties(a, b);
    var r := ConflictingKeysIn(table, a + ";" + b + ";", "");
    assert r == Prefixed("", [a, b]);
    assert "" + a == a && "" + b == b;
  }


  // ---------------------------------------------------------------------
  // The merge loop on utilities whose removal keys hit nothing

  /** Deleting an absent key changes nothing, its order included. */
  lemma DelAbsent(m: OrderedMap<string, string>, t: string)
    requires m.Valid() && t !in m.vals
    ensures m.Delete(t) == m
  {
    RemoveKeyAbsent(m.keys, t);
    assert m.vals - {t} == m.vals;
  }

  /** Removal keys that are neither group keys nor present entries delete nothing. */
  lemma {:induction false} PruneMisses(m: OrderedMap<string, string>, g: map<string, seq<string>>, targets: seq<string>)
    requires m.Valid()
    requires forall t :: t in targets ==> t !in g && t !in m.vals
    ensures Prune(m, g, targets) == m
  {
    if |targets| > 0 {
      var pre := targets[..|targets| - 1];
      var t := targets[|targets| - 1];
      PruneMisses(m, g, pre);
      assert TempKeysFor(g, t) == [t];
      DelAbsent(m, t);
      assert DeleteAll(m, [t]) == DeleteAll(m, [t][..0]).Delete(t);
    }
  }
  /** No removal key is one of `keys`. */
  predicate Misses(removals: seq<string>, keys: set<string>) {
    forall t :: t in removals ==> t !in keys
  }

  /** The temporary and group keys of two utilities. */
  function KeysOfPair(a: Keyed, b: Keyed): set<string> {
    {a.keys.tempKey, b.keys.tempKey, a.keys.groupKey, b.keys.groupKey}
  }

  /** Two utilities with distinct temporary keys whose removal keys hit neither utility's keys. */
  predicate Separate(a: Keyed, b: Keyed) {
    && a.keys.tempKey != b.keys.tempKey
    && Misses(a.removals, KeysOfPair(a, b))
    && Misses(b.removals, KeysOfPair(a, b))
  }

  /**
   * A step whose removal keys miss every key the state and the step's
   * group key could hold only stores its token under its temporary key.
   */
  lemma StepMisses(st: MergeState, item: Keyed, ks: set<string>)
    requires st.temp.Valid()
    requires st.group.Keys <= ks && st.temp.vals.Keys <= ks && item.keys.groupKey in ks
    requires Misses(item.removals, ks)
    ensures MergeStep(st, item).temp == st.temp.Set(item.keys.tempKey, item.token)
    ensures MergeStep(st, item).group.Keys <= ks
  {
    PruneMisses(st.temp, Record(st.group, item.keys), item.removals);
  }

  lemma FirstStep(a: Keyed)
    ensures Run([a]) == MergeStep(Run([]), a)
  {
    assert [a][..0] == [];
  }

  lemma SecondStep(a: Keyed, b: Keyed)
    ensures Run([a, b]) == MergeStep(Run([a]), b)
  {
    assert [a, b][..1] == [a];
  }

  lemma ThirdStep(a: Keyed, b: Keyed, b': Keyed)
    ensures Run([a, b, b']) == MergeStep(Run([a, b]), b')
  {
    assert [a, b, b'][..2] == [a, b];
  }

  lemma FourthStep(a: Keyed, b: Keyed, b': Keyed, a': Keyed)
    ensures Run([a, b, b', a']) == MergeStep(Run([a, b, b']), a')
  {
    assert [a, b, b', a'][..3] == [a, b, b'];
  }

  /** Storing under a new key appends it. */
  lemma SetNew(x: string, y: string, u: string, v: string)
    requires x != y
    ensures OrderedMap([x], map[x := u]).Set(y, v) == OrderedMap([x, y], map[x := u, y := v])
  {
  }

  /** Storing under a key that is already present replaces the value where it stands. */
  lemma SetSecond(x: string, y: string, u: string, v: string, v': string)
    requires x != y
    ensures OrderedMap([x, y], map[x := u, y := v]).Set(y, v') == OrderedMap([x, y], map[x := u, y := v'])
  {
  }

  lemma SetFirst(x: string, y: string, u: string, u': string, v: string)
    requires x != y
    ensures OrderedMap([x, y], map[x := u, y := v]).Set(x, u') == OrderedMap([x, y], map[x := u', y := v])
  {
    assert map[x := u, y := v][x := u'] == map[x := u', y := v];
  }

  lemma RunOne(a: Keyed, b: Keyed)
    requires Separate(a, b)
    ensures Run([a]).temp == OrderedMap([a.keys.tempKey], map[a.keys.tempKey := a.token])
    ensures Run([a]).group.Keys <= KeysOfPair(a, b)
  {
    FirstStep(a);
    StepMisses(Run([]), a, KeysOfPair(a, b));
  }

  lemma RunTwo(a: Keyed, b: Keyed)
    requires Separate(a, b)
    ensures Run([a, b]).temp == OrderedMap([a.keys.tempKey, b.keys.tempKey], map[a.keys.tempKey := a.token, b.keys.tempKey := b.token])
    ensures Run([a, b]).group.Keys <= KeysOfPair(a, b)
  {
    SecondStep(a, b);
    RunOne(a, b);
    StepMisses(Run([a]), b, KeysOfPair(a, b));
    SetNew(a.keys.tempKey, b.keys.tempKey, a.token, b.token);
  }

  lemma RunThree(a: Keyed, b: Keyed, b': Keyed)
    requires Separate(a, b)
    requires b'.keys == b.keys && b'.removals == b.removals
    ensures Run([a, b, b']).temp == OrderedMap([a.keys.tempKey, b.keys.tempKey], map[a.keys.tempKey := a.token, b.keys.tempKey := b'.token])
    ensures Run([a, b, b']).group.Keys <= KeysOfPair(a, b)
  {
    ThirdStep(a, b, b');
    RunTwo(a, b);
    StepMisses(Run([a, b]), b', KeysOfPair(a, b));
    SetSecond(a.keys.tempKey, b.keys.tempKey, a.token, b.token, b'.token);
  }

  lemma RunFour(a: Keyed, b: Keyed, b': Keyed, a': Keyed)
    requires Separate(a, b)
    requires a'.keys == a.keys && a'.removals == a.removals
    requires b'.keys == b.keys && b'.removals == b.removals
    ensures Run([a, b, b', a']).temp == OrderedMap([a.keys.tempKey, b.keys.tempKey], map[a.keys.tempKey := a'.token, b.keys.tempKey := b'.token])
  {
    FourthStep(a, b, b', a');
    RunThree(a, b, b');
    StepMisses(Run([a, b, b']), a', KeysOfPair(a, b));
    SetFirst(a.keys.tempKey, b.keys.tempKey, a.token, a'.token, b'.token);
  }

  lemma FilterTwo(u: string, v: string)
    requires u != "" && v != ""
    ensures Filter([u, v], NonEmpty) == [u, v]
  {
    assert [u, v][..1] == [u];
    assert [u][..0] == [];
  }

  lemma JoinTwo(u: string, v: string)
    ensures Join([u, v], " ") == u + " " + v
  {
    assert [u, v][1..] == [v];
  }

  /** Two entries, both non-empty, print in key order. */
  lemma OutputTwo(st: MergeState, x: string, y: string, u: string, v: string)
    requires x != y && u != "" && v != ""
    requires st.temp == OrderedMap([x, y], map[x := u, y := v])
    ensures Output(st) == u + " " + v
  {
    assert st.temp.Values() == [u, v];
    FilterTwo(u, v);
    JoinTwo(u, v);
  }

  /**
   * `a b b' a'`, where the primed utilities share the keys of the unprimed
   * ones and no removal key hits: the later tokens take over the values in
   * place, so `a'` is printed where `a` stood, then `b'`.
   */
  lemma ReplacedInPlace(a: Keyed, b: Keyed, b': Keyed, a': Keyed)
    requires Separate(a, b)
    requires a'.keys == a.keys && a'.removals == a.removals
    requires b'.keys == b.keys && b'.removals == b.removals
    requires a'.token != "" && b'.token != ""
    ensures Output(Run([a, b, b', a'])) == a'.token + " " + b'.token
  {
    RunFour(a, b, b', a');
    OutputTwo(Run([a, b, b', a']), a.keys.tempKey, b.keys.tempKey, a'.token, b'.token);
  }

  // ---------------------------------------------------------------------
  // `px-1 py-2 py-4 px-3`

  /** The padding names meet the conditions of `TwoPropertyRemovals`. */
  lemma PaddingNames()
    ensures Included("padding-left") && Included("padding-right")
    ensures Included("padding-top") && Included("padding-bottom")
    ensures ';' !in "padding-left" && ';' !in "padding-right"
    ensures ';' !in "padding-top" && ';' !in "padding-bottom"
  {
    NotCustom("padding-left");
    NotCustom("padding-right");
    NotCustom("padding-top");
    NotCustom("padding-bottom");
  }

  /**
   * A `px-*` utility: no variant, both its group key and its temporary key
   * list `padding-left` and `padding-right`. Its removal keys are written
   * out here; `PxRemovals` proves they are the ones the table gives.
   */
  function Px(token: string): Keyed {
    Keyed(token, TokenKeys("", "padding-left;padding-right;", "padding-left;padding-right;", "padding-left;padding-right;"),
      ["padding-left;", "padding-right;"])
  }

  /**
   * A `py-*` utility: the group key lists its properties in rule order, the
   * temporary key sorted. Its removal keys are written out; `PyRemovals`
   * proves they are the ones the table gives.
   */
  function Py(token: string): Keyed {
    Keyed(token, TokenKeys("", "padding-top;padding-bottom;", "padding-bottom;padding-top;", "padding-bottom;padding-top;"),
      ["padding-bottom;", "padding-top;"])
  }

  /**
   * The written-out removal keys of `px-*` are the ones the table gives for
   * its content.
   */
  lemma PxRemovals(t: string)
    ensures Px(t).removals == GetConflictingKeys(Px(t).keys.content, "")
  {
    PaddingNames();
    PairRemovals("padding-left", "padding-right");
    PxSpelling();
  }

  /** The same for `py-*`, whose content lists the pair sorted. */
  lemma PyRemovals(t: string)
    ensures Py(t).removals == GetConflictingKeys(Py(t).keys.content, "")
  {
    PaddingNames();
    PairRemovals("padding-bottom", "padding-top");
    PySpelling();
  }

  lemma PxSpelling()
    ensures "padding-left" + ";" + "padding-right" + ";" == "padding-left;padding-right;"
    ensures "padding-left" + ";" == "padding-left;" && "padding-right" + ";" == "padding-right;"
  {
  }

  lemma PySpelling()
    ensures "padding-bottom" + ";" + "padding-top" + ";" == "padding-bottom;padding-top;"
    ensures "padding-bottom" + ";" == "padding-bottom;" && "padding-top" + ";" == "padding-top;"
  {
  }

  /** `TwoPropertyRemovals` on the configured table. */
  lemma PairRemovals(a: string, b: string)
    requires Included(a) && Included(b) && ';' !in a && ';' !in b
    ensures GetConflictingKeys(a + ";" + b + ";", "") == [a + ";", b + ";"]
  {
    TwoPropertyRemovals(ConflictingGroups, a, b);
  }

  /**
   * `'px-1 py-2 py-4 px-3'` merges to `'px-3 py-4'`, for any tokens of those
   * two shapes: `px-3` takes the place `px-1` held, and `py-4` replaces
   * `py-2`.
   */
  lemma AxisPadding(t1: string, t2: string, t3: string, t4: string)
    requires t3 != "" && t4 != ""
    ensures Output(Run([Px(t1), Py(t2), Py(t3), Px(t4)])) == t4 + " " + t3
  {
    var a, b := Px(t1), Py(t2);
    assert a.keys.tempKey[8] != b.keys.tempKey[8];
    assert Separate(a, b);
    ReplacedInPlace(a, b, Py(t3), Px(t4));
  }

  // ---------------------------------------------------------------------
  // `pt-1 px-2 py-3 p-0`

  /** A property list of one `;`-terminated name yields that name. */
  lemma OneProperty(a: string)
    requires Included(a) && ';' !in a
    ensures IncludeProperties(a + ";") == [a]
  {
    NoSemi(a);
    assert a + ";" == a + [';'] + "";
    SplitEachCons(a, ';', "", IsSemi);
    SplitEachNone("", IsSemi);
    assert SplitEach(a + ";", IsSemi) == [a, ""];
    assert [a, ""][..1] == [a];
    assert [a][..0] == [];
    assert !Included("");
  }

  /** Two names sort into their order, whichever order they come in. */
  lemma SortPair(a: string, b: string)
    requires Less(a, b)
    ensures Sort([a, b]) == [a, b] && Sort([b, a]) == [a, b]
  {
    assert [a, b][..1] == [a] && [b, a][..1] == [b];
    assert [a][..0] == [] && [b][..0] == [];
    assert Sort([a]) == [a] && Sort([b]) == [b];
    if Less(b, a) {
      LessTransitive(a, b, a);
      LessIrreflexive(a);
    }
    LessIrreflexive(a);
    assert !LessEq(b, a);
  }

  /** Two names joined with `;`. */
  lemma JoinPair(u: string, v: string)
    ensures Join([u, v], ";") == u + ";" + v
  {
    assert [u, v][1..] == [v];
  }

  lemma AffixPair(a: string, b: string, leading: string)
    requires a != "" && b != "" && leading != ""
    ensures AffixAll([a, b], leading, "") == [leading + "-" + a, leading + "-" + b]
  {
    AffixedSpec(a, leading, "");
    AffixedSpec(b, leading, "");
  }

  /** A single-property utility evicts what the table lists for its property. */
  lemma SingleRemovals(p: string, variant: string)
    requires Included(p) && ';' !in p
    ensures GetConflictingKeys(p + ";", variant) == Prefixed(variant, Lookup(ConflictingGroups, p))
  {
    OneProperty(p);
    ConflictingKeysCases(ConflictingGroups, p + ";", variant);
  }

  lemma SidedTopAffixed(l: string)
    ensures Affixed("top", l, "") in SidedGroup(l, "")
  {
    SidedGroupHasSides(l, "", "top");
  }

  lemma TopAffixed(l: string)
    requires l != ""
    ensures Affixed("top", l, "") == l + "-top"
  {
    AffixedSpec("top", l, "");
    assert l + "-" + "top" == l + "-top";
  }

  lemma LeftRight(l: string)
    requires l != ""
    ensures CombineAffixesString(["left", "right"], l, "") == l + "-left;" + l + "-right"
  {
    assert Less("left", "right");
    SortPair("left", "right");
    AffixPair("left", "right", l);
    assert l + "-" + "left" == l + "-left" && l + "-" + "right" == l + "-right";
    JoinPair(l + "-left", l + "-right");
  }

  lemma TopBottom(l: string)
    requires l != ""
    ensures CombineAffixesString(["top", "bottom"], l, "") == l + "-bottom;" + l + "-top"
  {
    assert Less("bottom", "top");
    SortPair("bottom", "top");
    AffixPair("bottom", "top", l);
    assert l + "-" + "bottom" == l + "-bottom" && l + "-" + "top" == l + "-top";
    JoinPair(l + "-bottom", l + "-top");
  }

  /**
   * A sided shorthand's group lists its `top` side, and after the sides its
   * two axis pairs, each joined in sorted order.
   */
  lemma SidedEntries(l: string)
    requires l != ""
    ensures l + "-top" in SidedGroup(l, "")
    ensures SidedGroup(l, "")[|Sides|] == l + "-left;" + l + "-right"
    ensures SidedGroup(l, "")[|Sides| + 1] == l + "-bottom;" + l + "-top"
  {
    SidedTopAffixed(l);
    TopAffixed(l);
    LeftRight(l);
    TopBottom(l);
  }

  /**
   * The removal keys of a utility setting a sided shorthand `l` alone hold
   * `l-top;`, the horizontal pair `l-left;l-right;` and the vertical pair,
   * sorted, `l-bottom;l-top;`.
   */
  lemma SidedMembers(l: string)
    requires l != ""
    ensures l + "-top" + ";" in Prefixed("", SidedGroup(l, ""))
    ensures l + "-left;" + l + "-right" + ";" in Prefixed("", SidedGroup(l, ""))
    ensures l + "-bottom;" + l + "-top" + ";" in Prefixed("", SidedGroup(l, ""))
  {
    SidedEntries(l);
    var e := SidedGroup(l, "");
    PrefixedHas(e, l + "-top");
    PrefixedAt(e, |Sides|);
    PrefixedAt(e, |Sides| + 1);
  }

  lemma PrefixedHas(e: seq<string>, x: string)
    requires x in e
    ensures x + ";" in Prefixed("", e)
  {
    var i :| 0 <= i < |e| && e[i] == x;
    PrefixedAt(e, i);
  }

  lemma PrefixedAt(e: seq<string>, i: nat)
    requires i < |e|
    ensures e[i] + ";" in Prefixed("", e)
  {
    assert "" + e[i] == e[i];
    assert Prefixed("", e)[i] == e[i] + ";";
  }

  /** A sided shorthand evicts the keys of its table group. */
  lemma SidedRemovals(l: string)
    requires Included(l) && ';' !in l
    requires Lookup(ConflictingGroups, l) == SidedGroup(l, "")
    ensures GetConflictingKeys(l + ";", "") == Prefixed("", SidedGroup(l, ""))
  {
    SingleRemovals(l, "");
  }

  /** `padding` is a sided shorthand of the table. */
  lemma PaddingIsSided()
    ensures Included("padding") && ';' !in "padding"
    ensures Lookup(ConflictingGroups, "padding") == SidedGroup("padding", "")
  {
    NotCustom("padding");
    assert "padding" in PlainKeys;
  }

  /** `p-*`, setting `padding` alone, evicts `padding-top`, `padding-left;padding-right;` and `padding-bottom;padding-top;`. */
  lemma PaddingRemovals()
    ensures "padding-top;" in GetConflictingKeys("padding" + ";", "")
    ensures "padding-left;padding-right;" in GetConflictingKeys("padding" + ";", "")
    ensures "padding-bottom;padding-top;" in GetConflictingKeys("padding" + ";", "")
  {
    PaddingGroup();
    PaddingMembers();
  }

  lemma PaddingGroup()
    ensures GetConflictingKeys("padding" + ";", "") == Prefixed("", SidedGroup("padding", ""))
  {
    PaddingIsSided();
    SidedRemovals("padding");
  }

  lemma PaddingMembers()
    ensures "padding-top;" in Prefixed("", SidedGroup("padding", ""))
    ensures "padding-left;padding-right;" in Prefixed("", SidedGroup("padding", ""))
    ensures "padding-bottom;padding-top;" in Prefixed("", SidedGroup("padding", ""))
  {
    SidedMembers("padding");
    PaddingTopKey();
    PaddingXKey();
    PaddingYKey();
  }

  lemma PaddingTopKey()
    ensures "padding" + "-top" + ";" == "padding-top;"
  {
  }

  lemma PaddingXKey()
    ensures "padding" + "-left;" + "padding" + "-right" + ";" == "padding-left;padding-right;"
  {
  }

  lemma PaddingYKey()
    ensures "padding" + "-bottom;" + "padding" + "-top" + ";" == "padding-bottom;padding-top;"
  {
  }

  /** `padding-top` has no entry in the table, so `pt-*` evicts nothing. */
  lemma PaddingTopRemovals()
    ensures GetConflictingKeys("padding-top" + ";", "") == []
  {
    NotCustom("padding-top");
    assert "padding-top" !in PlainKeys;
    NotATableKey("padding-top");
    assert Lookup(ConflictingGroups, "padding-top") == [];
    SingleRemovals("padding-top", "");
  }

  /** A `pt-*` utility: `padding-top` alone, with removal keys `rs`. */
  function PtWith(token: string, rs: seq<string>): Keyed {
    Keyed(token, TokenKeys("", "padding-top;", "padding-top;", "padding-top;"), rs)
  }

  /** A `p-*` utility: `padding` alone, with removal keys `rs`. */
  function PadWith(token: string, rs: seq<string>): Keyed {
    Keyed(token, TokenKeys("", "padding;", "padding;", "padding;"), rs)
  }

  /** `pt-*` with the removal keys the table gives it. */
  function Pt(token: string): Keyed {
    PtWith(token, GetConflictingKeys("padding-top" + ";", ""))
  }

  /** `p-*` with the removal keys the table gives it. */
  function Pad(token: string): Keyed {
    PadWith(token, GetConflictingKeys("padding" + ";", ""))
  }

  /** Exactly one non-empty entry prints as itself. */
  lemma OutputOne(st: MergeState, x: string, u: string)
    requires u != ""
    requires st.temp == OrderedMap([x], map[x := u])
    ensures Output(st) == u
  {
    assert st.temp.Values() == [u];
    assert [u][..0] == [];
  }

  /**
   * `'pt-1 px-2 py-3 p-0'` merges to `'p-0'`, for any tokens of those
   * shapes. `py-3` already evicts `pt-1`: its removal key `padding-top;` is
   * the group key `pt-1` was recorded under. `p-0` then retires `px-2`
   * through the axis pair `padding-left;padding-right;`, also a group key,
   * and `py-3` through `padding-bottom;padding-top;`, which is no token's
   * group key but is `py-3`'s temporary key. `padding-top;` is among the
   * removal keys of `p-0` too, so `pt-1` would go there had it survived.
   */
  lemma PaddingShorthand(t1: string, t2: string, t3: string, t4: string)
    requires t4 != ""
    ensures Output(Run([Pt(t1), Px(t2), Py(t3), Pad(t4)])) == t4
  {
    PaddingRemovals();
    ShorthandAfterSides(t1, t2, t3, t4, GetConflictingKeys("padding-top" + ";", ""), GetConflictingKeys("padding" + ";", ""));
  }

  /**
   * The same run for any removal keys of `pt-1`, and any removal keys of
   * `p-0` that hold the side and the two axis pairs. The proof shows that
   * `p-0` retires each earlier token, whether or not `py-3` has already
   * evicted it.
   */
  lemma ShorthandAfterSides(t1: string, t2: string, t3: string, t4: string, r1: seq<string>, rs: seq<string>)
    requires t4 != ""
    requires "padding-top;" in rs && "padding-left;padding-right;" in rs && "padding-bottom;padding-top;" in rs
    ensures Output(Run([PtWith(t1, r1), Px(t2), Py(t3), PadWith(t4, rs)])) == t4
  {
    var items, d := [PtWith(t1, r1), Px(t2), Py(t3)], PadWith(t4, rs);
    assert [PtWith(t1, r1), Px(t2), Py(t3), PadWith(t4, rs)] == items + [d];
    NoVerticalGroupKey(items + [d]);
    assert Retires(rs, items + [d], items[2]);
    EvictsEveryone(items, d);
    OutputOne(Run(items + [d]), "padding;", t4);
  }

  /** No token of the run has the sorted vertical pair as its group key. */
  lemma NoVerticalGroupKey(all: seq<Keyed>)
    requires |all| == 4
    requires all[0].keys.groupKey == "padding-top;" && all[1].keys.groupKey == "padding-left;padding-right;"
    requires all[2].keys.groupKey == "padding-top;padding-bottom;" && all[3].keys.groupKey == "padding;"
    ensures forall j :: 0 <= j < |all| ==> all[j].keys.groupKey != "padding-bottom;padding-top;"
  {
    assert "padding-bottom;padding-top;"[8] != "padding-top;padding-bottom;"[8];
    assert "padding-bottom;padding-top;"[8] != "padding-left;padding-right;"[8];
  }
}
