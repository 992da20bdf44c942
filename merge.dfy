/**
 * `merge(code)` as a function of the configuration and the input: each
 * token is keyed, recorded under its group key, evicts the entries its
 * conflicting keys name, and is stored under its temporary key; the result
 * lists the surviving tokens in the order of the insertion-ordered map.
 */
module Merging {
  import opened Wrappers
  import opened Text
  import opened Config
  import opened OrderedMaps
  import Variants
  import Pipeline
  import opened Keys
  import opened Conflicts

  // ---------------------------------------------------------------------
  // The body and the keys of a token

  /** `!result[2].startsWith('@')`: the utility is not an at-rule. */
  predicate NotAtRule(u: Stringified) {
    !StartsWith(BodyText(u.body), "@")
  }

  /**
   * The CSS body the merger keys a token by: the body of the first utility
   * the generator produced for it that is not an at-rule, or the token
   * itself when the generator produced nothing. When every utility is an
   * at-rule the source reads a member of `undefined`.
   */
  function TokenCss(c: Config, token: string): Result<Body> {
    var v :- Pipeline.ParseTokenResult(c, token, "");
    if v.None? then Ok(RawText(token))
    else
      var kept := Filter(v.value.utils, NotAtRule);
      if |kept| == 0 then Err(UndefinedRead("2")) else Ok(kept[0].body)
  }

  /** The first element `Filter` keeps is the first element satisfying the test. */
  lemma {:induction false} FilterFirst<T(!new)>(s: seq<T>, p: T -> bool)
    requires |Filter(s, p)| > 0
    ensures exists i :: 0 <= i < |s| && Filter(s, p)[0] == s[i] && p(s[i]) && forall j :: 0 <= j < i ==> !p(s[j])
  {
    var n := |s| - 1;
    var pre := s[..n];
    assert s == pre + [s[n]];
    FilterSnoc(pre, s[n], p);
    if |Filter(pre, p)| > 0 {
      FilterFirst(pre, p);
      var i :| 0 <= i < |pre| && Filter(pre, p)[0] == pre[i] && p(pre[i]) && forall j :: 0 <= j < i ==> !p(pre[j]);
      assert Filter(s, p)[0] == pre[i] == s[i];
      assert forall j :: 0 <= j < i ==> s[j] == pre[j];
    } else {
      forall j | 0 <= j < n
        ensures !p(s[j])
      {
        assert s[j] == pre[j] && pre[j] in pre;
      }
      assert Filter(s, p)[0] == s[n];
    }
  }

  /**
   * A recognised token is keyed by the body of its first utility that is
   * not an at-rule; an unrecognised or blocked one by its own text; and
   * a token whose utilities are all at-rules fails.
   */
  lemma TokenCssSpec(c: Config, token: string)
    ensures var v := Pipeline.ParseTokenResult(c, token, "");
      v.Ok? && v.value.None? ==> TokenCss(c, token) == Ok(RawText(token))
    ensures var v := Pipeline.ParseTokenResult(c, token, "");
      v.Ok? && v.value.Some? && TokenCss(c, token).Ok? ==>
        exists i :: 0 <= i < |v.value.value.utils| && TokenCss(c, token).value == v.value.value.utils[i].body
          && NotAtRule(v.value.value.utils[i]) && forall j :: 0 <= j < i ==> !NotAtRule(v.value.value.utils[j])
    ensures var v := Pipeline.ParseTokenResult(c, token, "");
      v.Ok? && v.value.Some? ==>
        (TokenCss(c, token).Err? <==> forall u :: u in v.value.value.utils ==> !NotAtRule(u))
    ensures Pipeline.ParseTokenResult(c, token, "").Err? ==> TokenCss(c, token).Err?
  {
    var v := Pipeline.ParseTokenResult(c, token, "");
    if v.Ok? && v.value.Some? {
      var kept := Filter(v.value.value.utils, NotAtRule);
      if |kept| > 0 {
        FilterFirst(v.value.value.utils, NotAtRule);
        assert kept[0] in kept;
      }
    }
  }

  /**
   * The body as the merger reads it as written: the generator's answer for
   * a recognised token is an object, which has no `filter`.
   */
  function TokenCssAsWritten(c: Config, token: string): Result<Body> {
    var v :- Pipeline.ParseTokenResult(c, token, "");
    if v.None? then Ok(RawText(token)) else Err(NotAFunction("filter"))
  }

  /**
   * Every token the generator recognises makes the code as written throw,
   * whereas the model keys it by its first non-at-rule body; on the other
   * tokens the two agree.
   */
  lemma RecognisedTokenThrows(c: Config, token: string)
    ensures var v := Pipeline.ParseTokenResult(c, token, "");
      v.Ok? && v.value.Some? ==> TokenCssAsWritten(c, token) == Err(NotAFunction("filter"))
    ensures var v := Pipeline.ParseTokenResult(c, token, "");
      v.Ok? && v.value.Some? && (exists u :: u in v.value.value.utils && NotAtRule(u)) ==>
        TokenCss(c, token).Ok?
    ensures var v := Pipeline.ParseTokenResult(c, token, "");
      !(v.Ok? && v.value.Some?) ==> TokenCssAsWritten(c, token) == TokenCss(c, token)
  {
    TokenCssSpec(c, token);
  }

  /**
   * The keys of a token: its body, the selector left by its first variant
   * branch, and from them the variant, group key, temporary key and content.
   */
  function KeysSpec(c: Config, token: string): (r: Result<TokenKeys>)
    ensures r.Ok? ==> StartsWith(r.value.tempKey, r.value.variant) && StartsWith(r.value.groupKey, r.value.variant)
    ensures r.Ok? ==> TokenCss(c, token).Ok? && r.value.content == Content(TokenCss(c, token).value)
  {
    var css :- TokenCss(c, token);
    var bs :- Variants.MatchVariants(c, token, "");
    Variants.MatchSpec(c, Variants.Branch(token, token, [], {}));
    Ok(KeysOf(token, bs[0].current, css))
  }

  /** `s.replace(re, f)` changes nothing in a string without `:`. */
  lemma {:induction false} ReplaceDeclsNoColon(s: string, f: string -> string)
    requires ':' !in s
    ensures ReplaceDecls(s, f) == s
  {
    if |s| > 0 {
      assert FirstWhere(s, IsColon) == |s|;
      ReplaceDeclsNoColon(s[1..], f);
      assert s == [s[0]] + s[1..];
    }
  }

  /** A bare name without `:` or white space is its own property list. */
  lemma ContentOfName(t: string)
    requires ':' !in t && NoWs(t)
    ensures Content(RawText(t)) == t
  {
    ReplaceDeclsNoColon(t, Spaced);
    assert FirstWhere(t, IsWs) == |t|;
    assert SplitEach(t, IsWs) == [t];
    assert [t][..0] == [];
    assert Sort([t]) == [t];
    assert Concat([t]) == t + Concat([]);
  }

  lemma WordChars(t: string)
    requires forall i :: 0 <= i < |t| ==> IsWordChar(t[i])
    ensures ':' !in t && NoWs(t)
  {
  }

  /**
   * A token named after a member of `Object.prototype` that the generator
   * does not recognise is keyed fine, but then makes `getConflictingKeys`
   * as written throw; the model evicts nothing for it.
   */
  lemma PrototypeTokenThrows(c: Config, p: string)
    requires p in PrototypeMembers
    requires Pipeline.ParseTokenResult(c, p, "") == Ok(None)
    requires Variants.MatchVariants(c, p, "").Ok?
    ensures KeysSpec(c, p).Ok?
    ensures var k := KeysSpec(c, p).value;
      GetConflictingKeysAsWritten(k.content, k.variant) == Err(NotAFunction("properties.map"))
      && GetConflictingKeys(k.content, k.variant) == []
  {
    PrototypeMemberChars(p);
    WordChars(p);
    ContentOfName(p);
    var k := KeysSpec(c, p).value;
    PrototypeNameThrows(p, k.variant);
  }

  // ---------------------------------------------------------------------
  // Keying every token

  /** A token with its keys and the removal keys its property list yields. */
  datatype Keyed = Keyed(token: string, keys: TokenKeys, removals: seq<string>)

  /** `parseToken(token)` followed by `getConflictingKeys(content, variant)`. */
  function KeyToken(c: Config, t: string): (r: Result<Keyed>)
    ensures r.Ok? <==> KeysSpec(c, t).Ok?
    ensures r.Ok? ==>
      && r.value.token == t && r.value.keys == KeysSpec(c, t).value
      && r.value.removals == GetConflictingKeys(r.value.keys.content, r.value.keys.variant)
      && (forall x :: x in r.value.removals ==> StartsWith(x, r.value.keys.variant))
    ensures r.Err? ==> r.error == KeysSpec(c, t).error
  {
    var k :- KeysSpec(c, t);
    Ok(Keyed(t, k, GetConflictingKeys(k.content, k.variant)))
  }

  /** The keying the merger uses under configuration `c`. */
  function Keyer(c: Config): string -> Result<Keyed> {
    t => KeyToken(c, t)
  }

  /** The keying of each token by `key`, in order. */
  function KeyEach(key: string -> Result<Keyed>, ts: seq<string>): (rs: seq<Result<Keyed>>)
    ensures |rs| == |ts| && forall i :: 0 <= i < |ts| ==> rs[i] == key(ts[i])
  {
    seq(|ts|, i requires 0 <= i < |ts| => key(ts[i]))
  }

  /** The values of a sequence of results; the first error stops it. */
  function Collect<T>(rs: seq<Result<T>>): Result<seq<T>> {
    if |rs| == 0 then Ok([])
    else
      var init :- Collect(rs[..|rs| - 1]);
      var x :- rs[|rs| - 1];
      Ok(init + [x])
  }

  /**
   * Collecting succeeds exactly when every result is a success, and then
   * keeps every value in place; otherwise it fails with the first error.
   */
  lemma {:induction false} CollectSpec<T>(rs: seq<Result<T>>)
    ensures Collect(rs).Ok? <==> forall i :: 0 <= i < |rs| ==> rs[i].Ok?
    ensures Collect(rs).Ok? ==>
      |Collect(rs).value| == |rs| && (forall i :: 0 <= i < |rs| ==> Collect(rs).value[i] == rs[i].value)
    ensures Collect(rs).Err? ==>
      exists i :: 0 <= i < |rs| && rs[i].Err? && Collect(rs).error == rs[i].error
        && forall j :: 0 <= j < i ==> rs[j].Ok?
  {
    if |rs| > 0 {
      var pre := rs[..|rs| - 1];
      CollectSpec(pre);
      assert forall i :: 0 <= i < |pre| ==> pre[i] == rs[i];
    }
  }

  lemma CollectSnoc<T>(rs: seq<Result<T>>, x: Result<T>)
    ensures Collect(rs + [x]) ==
      (if Collect(rs).Err? then Err(Collect(rs).error)
       else if x.Err? then Err(x.error)
       else Ok(Collect(rs).value + [x.value]))
  {
    assert (rs + [x])[..|rs|] == rs;
  }

  /** Once a result has failed, nothing collected after it matters. */
  lemma {:induction false} CollectErr<T>(rs: seq<Result<T>>, more: seq<Result<T>>)
    requires Collect(rs).Err?
    ensures Collect(rs + more) == Collect(rs)
    decreases |more|
  {
    if |more| == 0 {
      assert rs + more == rs;
    } else {
      var n := |more| - 1;
      CollectErr(rs, more[..n]);
      assert rs + more == (rs + more[..n]) + [more[n]];
      CollectSnoc(rs + more[..n], more[n]);
    }
  }

  /** Every token keyed, in order, or the first token's error. */
  function KeyAll(key: string -> Result<Keyed>, ts: seq<string>): Result<seq<Keyed>> {
    Collect(KeyEach(key, ts))
  }

  // ---------------------------------------------------------------------
  // One step of the merge

  datatype MergeState = MergeState(temp: OrderedMap<string, string>, group: map<string, seq<string>>)

  /** The group map after a token: its temporary key pushed under its group key, when it has one. */
  function Record(group: map<string, seq<string>>, k: TokenKeys): map<string, seq<string>> {
    if k.groupKey != "" then group[k.groupKey := Lookup(group, k.groupKey) + [k.tempKey]] else group
  }

  /** `group.get(target) ?? [target]`: the temporary keys a removal key stands for. */
  function TempKeysFor(group: map<string, seq<string>>, target: string): seq<string> {
    if target in group then group[target] else [target]
  }

  function Elems(ks: seq<string>): set<string> {
    set k | k in ks
  }

  lemma MinusUnion(m: map<string, string>, a: set<string>, b: set<string>)
    ensures (m - a) - b == m - (a + b)
  {
    assert forall k :: k in (m - a) - b <==> k in m - (a + b);
  }

  /** `ks.forEach((k) => temp.delete(k))`. */
  function DeleteAll(m: OrderedMap<string, string>, ks: seq<string>): (r: OrderedMap<string, string>)
    requires m.Valid()
    ensures r.Valid()
    ensures r.vals == m.vals - Elems(ks)
  {
    if |ks| == 0 then m
    else
      var pre := ks[..|ks| - 1];
      assert Elems(ks) == Elems(pre) + {ks[|ks| - 1]} by {
        assert ks == pre + [ks[|ks| - 1]];
      }
      MinusUnion(m.vals, Elems(pre), {ks[|ks| - 1]});
      DeleteAll(m, pre).Delete(ks[|ks| - 1])
  }

  /** The temporary keys a list of removal keys evicts. */
  ghost function Doomed(group: map<string, seq<string>>, targets: seq<string>): set<string> {
    if |targets| == 0 then {}
    else Doomed(group, targets[..|targets| - 1]) + Elems(TempKeysFor(group, targets[|targets| - 1]))
  }

  /** The removal loop over every removal key. */
  function Prune(m: OrderedMap<string, string>, group: map<string, seq<string>>, targets: seq<string>): (r: OrderedMap<string, string>)
    requires m.Valid()
    ensures r.Valid()
    ensures r.vals == m.vals - Doomed(group, targets)
  {
    if |targets| == 0 then m
    else
      var pre := targets[..|targets| - 1];
      MinusUnion(m.vals, Doomed(group, pre), Elems(TempKeysFor(group, targets[|targets| - 1])));
      DeleteAll(Prune(m, group, pre), TempKeysFor(group, targets[|targets| - 1]))
  }

  /** The entries a token evicts, given the groups before it. */
  ghost function Evicted(st: MergeState, item: Keyed): set<string> {
    Doomed(Record(st.group, item.keys), item.removals)
  }

  /**
   * One iteration of the merge loop: the token is recorded under its group
   * key, the entries its removal keys name are deleted, and the token is
   * stored under its temporary key, which it then holds whatever came
   * before.
   */
  function MergeStep(st: MergeState, item: Keyed): (r: MergeState)
    requires st.temp.Valid()
    ensures r.temp.Valid()
    ensures r.group == Record(st.group, item.keys)
    ensures r.temp.vals == (st.temp.vals - Evicted(st, item))[item.keys.tempKey := item.token]
  {
    var g := Record(st.group, item.keys);
    var pruned := Prune(st.temp, g, item.removals);
    MergeState(pruned.Set(item.keys.tempKey, item.token), g)
  }

  /** The state after a whole input. */
  function Run(items: seq<Keyed>): (st: MergeState)
    ensures st.temp.Valid()
  {
    if |items| == 0 then MergeState(Empty(), map[])
    else MergeStep(Run(items[..|items| - 1]), items[|items| - 1])
  }

  /** `Array.from(temp.values()).filter(Boolean).join(' ')`. */
  function Output(st: MergeState): string
    requires st.temp.Valid()
  {
    Join(Filter(st.temp.Values(), NonEmpty), " ")
  }

  /** The tokens of the input: `code.split(/\s+/g)` without the empty pieces. */
  function Tokens(code: string): (ts: seq<string>)
    ensures forall t :: t in ts ==> t != "" && NoWs(t)
  {
    Filter(SplitWs(code), NonEmpty)
  }

  /** `merge(code)` with the tokens keyed by `key`. */
  function MergeWith(key: string -> Result<Keyed>, code: string): Result<string> {
    var items :- KeyAll(key, Tokens(code));
    Ok(Output(Run(items)))
  }

  /** `merge(code)` under configuration `c`. */
  function MergeSpec(c: Config, code: string): Result<string> {
    MergeWith(Keyer(c), code)
  }

  // ---------------------------------------------------------------------
  // What a merge guarantees

  /**
   * `merge` fails exactly when some token cannot be keyed, and then with
   * the error of the first such token.
   */
  lemma MergeFails(key: string -> Result<Keyed>, code: string)
    ensures MergeWith(key, code).Err? <==> exists t :: t in Tokens(code) && key(t).Err?
    ensures MergeWith(key, code).Err? ==>
      exists i ::
        && 0 <= i < |Tokens(code)| && key(Tokens(code)[i]).Err?
        && MergeWith(key, code).error == key(Tokens(code)[i]).error
        && (forall j :: 0 <= j < i ==> key(Tokens(code)[j]).Ok?)
  {
    var ts := Tokens(code);
    var rs := KeyEach(key, ts);
    CollectSpec(rs);
    if MergeWith(key, code).Err? {
      var i :| 0 <= i < |rs| && rs[i].Err? && Collect(rs).error == rs[i].error
        && forall j :: 0 <= j < i ==> rs[j].Ok?;
      assert ts[i] in ts;
    } else {
      forall t | t in ts ensures key(t).Ok? {
        var i :| 0 <= i < |ts| && ts[i] == t;
        assert rs[i].Ok?;
      }
    }
  }

  /** Under a configuration, a token cannot be keyed exactly when its keys cannot be derived. */
  lemma KeyerFails(c: Config, t: string)
    ensures Keyer(c)(t).Err? <==> KeysSpec(c, t).Err?
    ensures Keyer(c)(t).Err? ==> Keyer(c)(t).error == KeysSpec(c, t).error
  {
  }

  /** `v` is the token of the latest item of `items` whose temporary key is `k`. */
  ghost predicate LatestFor(items: seq<Keyed>, k: string, v: string) {
    exists i :: 0 <= i < |items| && items[i].keys.tempKey == k && v == items[i].token
      && forall j :: i < j < |items| ==> items[j].keys.tempKey != k
  }

  lemma LatestForLast(items: seq<Keyed>)
    requires |items| > 0
    ensures LatestFor(items, items[|items| - 1].keys.tempKey, items[|items| - 1].token)
  {
    assert 0 <= |items| - 1 < |items|;
  }

  lemma LatestForExtend(pre: seq<Keyed>, x: Keyed, k: string, v: string)
    requires LatestFor(pre, k, v) && x.keys.tempKey != k
    ensures LatestFor(pre + [x], k, v)
  {
    var items := pre + [x];
    var i :| 0 <= i < |pre| && pre[i].keys.tempKey == k && v == pre[i].token
      && forall j :: i < j < |pre| ==> pre[j].keys.tempKey != k;
    assert items[i] == pre[i];
    assert forall j :: i < j < |items| ==> items[j].keys.tempKey != k by {
      forall j | i < j < |items| ensures items[j].keys.tempKey != k {
        if j < |pre| { assert items[j] == pre[j]; }
      }
    }
  }

  /**
   * Every entry that remains holds the token of the latest item stored
   * under that temporary key: later tokens win, whatever came between.
   */
  lemma {:induction false} LatestWins(items: seq<Keyed>)
    ensures forall k :: k in Run(items).temp.vals ==> LatestFor(items, k, Run(items).temp.vals[k])
  {
    if |items| > 0 {
      var n := |items| - 1;
      var pre := items[..n];
      assert items == pre + [items[n]];
      LatestWins(pre);
      var st := Run(pre);
      var r := Run(items);
      assert r == MergeStep(st, items[n]);
      forall k | k in r.temp.vals
        ensures LatestFor(items, k, r.temp.vals[k])
      {
        if k == items[n].keys.tempKey {
          LatestForLast(items);
        } else {
          assert k in st.temp.vals && r.temp.vals[k] == st.temp.vals[k];
          LatestForExtend(pre, items[n], k, st.temp.vals[k]);
        }
      }
    }
  }

  /** The group map only ever holds, under a group key, temporary keys of tokens with that group key. */
  ghost predicate GroupsFrom(group: map<string, seq<string>>, items: seq<Keyed>) {
    forall g :: g in group ==>
      (g != "" && forall x :: x in group[g] ==>
        exists i :: 0 <= i < |items| && items[i].keys.groupKey == g && items[i].keys.tempKey == x)
  }

  lemma {:induction false} GroupsRecorded(items: seq<Keyed>)
    ensures GroupsFrom(Run(items).group, items)
  {
    if |items| > 0 {
      var n := |items| - 1;
      var pre := items[..n];
      GroupsRecorded(pre);
      var st := Run(pre);
      var r := Run(items);
      assert r.group == Record(st.group, items[n].keys);
      forall g | g in r.group
        ensures g != "" && forall x :: x in r.group[g] ==>
          exists i :: 0 <= i < |items| && items[i].keys.groupKey == g && items[i].keys.tempKey == x
      {
        forall x | x in r.group[g]
          ensures exists i :: 0 <= i < |items| && items[i].keys.groupKey == g && items[i].keys.tempKey == x
        {
          if g == items[n].keys.groupKey && g != "" && x !in Lookup(st.group, g) {
            assert x == items[n].keys.tempKey;
          } else {
            assert g in st.group && x in st.group[g];
            var i :| 0 <= i < |pre| && pre[i].keys.groupKey == g && pre[i].keys.tempKey == x;
            assert items[i] == pre[i];
          }
        }
      }
    }
  }

  lemma {:induction false} DoomedByTarget(group: map<string, seq<string>>, targets: seq<string>, k: string)
    requires k in Doomed(group, targets)
    ensures exists t :: t in targets && k in TempKeysFor(group, t)
  {
    var n := |targets| - 1;
    if k in Doomed(group, targets[..n]) {
      DoomedByTarget(group, targets[..n], k);
      var t :| t in targets[..n] && k in TempKeysFor(group, t);
      assert t in targets;
    } else {
      assert targets[n] in targets;
    }
  }

  /** What the group map holds after recording a token. */
  lemma RecordMembers(group: map<string, seq<string>>, k: TokenKeys, t: string, x: string)
    requires t in Record(group, k) && x in Record(group, k)[t]
    ensures (t == k.groupKey && x == k.tempKey) || (t in group && x in group[t])
  {
  }

  /**
   * A token evicts an entry only through one of its removal keys: the key
   * is that entry's temporary key, or the group key under which it, or an
   * earlier token, recorded that temporary key.
   */
  lemma EvictionNeedsKey(st: MergeState, items: seq<Keyed>, item: Keyed, k: string)
    requires GroupsFrom(st.group, items) && k in Evicted(st, item)
    ensures exists t ::
      && t in item.removals
      && (|| t == k
          || (t == item.keys.groupKey && k == item.keys.tempKey)
          || exists i :: 0 <= i < |items| && items[i].keys.groupKey == t && items[i].keys.tempKey == k)
  {
    var g := Record(st.group, item.keys);
    DoomedByTarget(g, item.removals, k);
    var t :| t in item.removals && k in TempKeysFor(g, t);
    if t !in g {
      assert k == t;
    } else {
      RecordMembers(st.group, item.keys, t, k);
      if !(t == item.keys.groupKey && k == item.keys.tempKey) {
        assert t in st.group && k in st.group[t];
        var i :| 0 <= i < |items| && items[i].keys.groupKey == t && items[i].keys.tempKey == k;
      }
    }
  }

  /** Every removal key dooms all the temporary keys it stands for. */
  lemma {:induction false} DoomedHas(group: map<string, seq<string>>, targets: seq<string>, t: string)
    requires t in targets
    ensures Elems(TempKeysFor(group, t)) <= Doomed(group, targets)
  {
    var n := |targets| - 1;
    if t != targets[n] {
      assert t in targets[..n] by {
        var i :| 0 <= i < |targets| && targets[i] == t;
        assert targets[..n][i] == t;
      }
      DoomedHas(group, targets[..n], t);
    }
  }

  /** Once recorded, a token's temporary key stays under its group key, whatever follows. */
  lemma {:induction false} GroupsHold(items: seq<Keyed>)
    ensures forall i :: 0 <= i < |items| && items[i].keys.groupKey != "" ==>
      items[i].keys.groupKey in Run(items).group && items[i].keys.tempKey in Run(items).group[items[i].keys.groupKey]
  {
    if |items| > 0 {
      var n := |items| - 1;
      var pre := items[..n];
      GroupsHold(pre);
      var g := Run(pre).group;
      var k := items[n].keys;
      assert Run(items).group == Record(g, k);
      forall i | 0 <= i < |items| && items[i].keys.groupKey != ""
        ensures items[i].keys.groupKey in Run(items).group && items[i].keys.tempKey in Run(items).group[items[i].keys.groupKey]
      {
        if i < n {
          assert items[i] == pre[i];
          RecordKeeps(g, k, items[i].keys.groupKey, items[i].keys.tempKey);
        }
      }
    }
  }

  /** Recording a token keeps every temporary key the group map held. */
  lemma RecordKeeps(group: map<string, seq<string>>, k: TokenKeys, g: string, x: string)
    requires g in group && x in group[g]
    ensures g in Record(group, k) && x in Record(group, k)[g]
  {
    if g == k.groupKey && g != "" {
      assert Lookup(group, g) == group[g];
      assert Record(group, k)[g] == group[g] + [k.tempKey];
    }
  }

  /** The group map is keyed only by the tokens' group keys. */
  lemma {:induction false} GroupKeysOf(items: seq<Keyed>)
    ensures forall g :: g in Run(items).group ==> exists i :: 0 <= i < |items| && items[i].keys.groupKey == g
  {
    if |items| > 0 {
      var n := |items| - 1;
      var pre := items[..n];
      GroupKeysOf(pre);
      assert Run(items).group == Record(Run(pre).group, items[n].keys);
      forall g | g in Run(items).group
        ensures exists i :: 0 <= i < |items| && items[i].keys.groupKey == g
      {
        if g != items[n].keys.groupKey {
          var i :| 0 <= i < |pre| && pre[i].keys.groupKey == g;
          assert items[i] == pre[i];
        }
      }
    }
  }

  /**
   * Removal keys `rs` retire token `x`: they name its group key, or they
   * name its temporary key and no token of `items` has that as a group key.
   */
  ghost predicate Retires(rs: seq<string>, items: seq<Keyed>, x: Keyed) {
    || (x.keys.groupKey != "" && x.keys.groupKey in rs)
    || (x.keys.tempKey in rs && forall j :: 0 <= j < |items| ==> items[j].keys.groupKey != x.keys.tempKey)
  }

  /** A token whose removal keys retire every earlier token is all that remains. */
  lemma EvictsEveryone(items: seq<Keyed>, item: Keyed)
    requires forall i :: 0 <= i < |items| ==> Retires(item.removals, items + [item], items[i])
    ensures Run(items + [item]).temp.keys == [item.keys.tempKey]
    ensures Run(items + [item]).temp.vals == map[item.keys.tempKey := item.token]
  {
    var all := items + [item];
    assert all[..|items|] == items;
    var st := Run(items);
    var g := Record(st.group, item.keys);
    assert Run(all).group == g;
    GroupsHold(all);
    GroupKeysOf(all);
    LatestWins(items);
    forall k | k in st.temp.vals
      ensures k in Evicted(st, item)
    {
      var i :| 0 <= i < |items| && items[i].keys.tempKey == k && st.temp.vals[k] == items[i].token
        && forall j :: i < j < |items| ==> items[j].keys.tempKey != k;
      assert all[i] == items[i];
      var gk := items[i].keys.groupKey;
      if gk != "" && gk in item.removals {
        DoomedHas(g, item.removals, gk);
      } else {
        DoomedHas(g, item.removals, k);
        assert k !in g;
      }
    }
    var m := Run(all).temp;
    var x := item.keys.tempKey;
    assert m.vals == map[x := item.token];
    OnlyKey(m.keys, x);
  }

  /** Distinct keys that are all `x`, with `x` among them, are `[x]`. */
  lemma OnlyKey(keys: seq<string>, x: string)
    requires Distinct(keys) && x in keys && forall y :: y in keys ==> y == x
    ensures keys == [x]
  {
    FirstTwo(keys);
    assert keys[0] in keys;
  }

  /** The first two of more than one distinct keys differ, and both are keys. */
  lemma FirstTwo(keys: seq<string>)
    ensures Distinct(keys) && |keys| > 1 ==> keys[0] != keys[1] && keys[1] in keys
  {
  }

  // ---------------------------------------------------------------------
  // Variant scoping

  /** One variant text is a prefix of the other. */
  predicate Comparable(a: string, b: string) {
    StartsWith(a, b) || StartsWith(b, a)
  }

  lemma SharedPrefixes(s: string, a: string, b: string)
    requires StartsWith(s, a) && StartsWith(s, b)
    ensures Comparable(a, b)
  {
    if |a| <= |b| {
      assert b[..|a|] == s[..|b|][..|a|] == s[..|a|];
    } else {
      assert a[..|b|] == s[..|a|][..|b|] == s[..|b|];
    }
  }

  /** A keyed token whose keys and removal keys all begin with its variant. */
  ghost predicate Scoped(x: Keyed) {
    && StartsWith(x.keys.tempKey, x.keys.variant)
    && StartsWith(x.keys.groupKey, x.keys.variant)
    && forall r :: r in x.removals ==> StartsWith(r, x.keys.variant)
  }

  /** Every token the merger keys is scoped to its variant. */
  lemma KeyAllScoped(c: Config, ts: seq<string>)
    requires KeyAll(Keyer(c), ts).Ok?
    ensures forall x :: x in KeyAll(Keyer(c), ts).value ==> Scoped(x)
  {
    var rs := KeyEach(Keyer(c), ts);
    CollectSpec(rs);
    forall x | x in KeyAll(Keyer(c), ts).value
      ensures Scoped(x)
    {
      var i :| 0 <= i < |Collect(rs).value| && Collect(rs).value[i] == x;
      KeyTokenScoped(c, ts[i]);
    }
  }

  lemma KeyTokenScoped(c: Config, t: string)
    requires KeyToken(c, t).Ok?
    ensures Scoped(KeyToken(c, t).value) && Keyer(c)(t) == KeyToken(c, t)
  {
  }

  /**
   * A token evicts an entry only when some earlier token that wrote that
   * entry's temporary key has a variant comparable with its own: one of the
   * two variants is a prefix of the other.
   */
  lemma EvictionWithinScope(items: seq<Keyed>, item: Keyed, k: string)
    requires forall x :: x in items ==> Scoped(x)
    requires Scoped(item)
    requires k in Run(items).temp.vals && k in Evicted(Run(items), item)
    ensures exists i :: 0 <= i < |items| && items[i].keys.tempKey == k && Comparable(items[i].keys.variant, item.keys.variant)
  {
    var st := Run(items);
    GroupsRecorded(items);
    LatestWins(items);
    EvictionNeedsKey(st, items, item, k);
    var t :| t in item.removals
      && (|| t == k
          || (t == item.keys.groupKey && k == item.keys.tempKey)
          || exists i :: 0 <= i < |items| && items[i].keys.groupKey == t && items[i].keys.tempKey == k);
    assert StartsWith(t, item.keys.variant);
    var j :| 0 <= j < |items| && items[j].keys.tempKey == k && st.temp.vals[k] == items[j].token
      && forall l :: j < l < |items| ==> items[l].keys.tempKey != k;
    assert items[j] in items;
    if t == k {
      SharedPrefixes(k, items[j].keys.variant, item.keys.variant);
    } else if t == item.keys.groupKey && k == item.keys.tempKey {
      SharedPrefixes(k, items[j].keys.variant, item.keys.variant);
    } else {
      var i :| 0 <= i < |items| && items[i].keys.groupKey == t && items[i].keys.tempKey == k;
      assert items[i] in items;
      SharedPrefixes(t, items[i].keys.variant, item.keys.variant);
    }
  }

  /**
   * An entry whose temporary key only tokens under variants unrelated to the
   * new token's ever wrote survives that token unchanged.
   */
  lemma UnrelatedVariantsSurvive(items: seq<Keyed>, item: Keyed, k: string)
    requires forall x :: x in items ==> Scoped(x)
    requires Scoped(item)
    requires k in Run(items).temp.vals
    requires forall i :: 0 <= i < |items| && items[i].keys.tempKey == k ==>
      !Comparable(items[i].keys.variant, item.keys.variant)
    ensures k in Run(items + [item]).temp.vals
    ensures Run(items + [item]).temp.vals[k] == Run(items).temp.vals[k]
  {
    assert (items + [item])[..|items|] == items;
    LatestWins(items);
    var j :| 0 <= j < |items| && items[j].keys.tempKey == k && Run(items).temp.vals[k] == items[j].token
      && forall l :: j < l < |items| ==> items[l].keys.tempKey != k;
    if k == item.keys.tempKey {
      assert items[j] in items;
      SharedPrefixes(k, items[j].keys.variant, item.keys.variant);
    }
    if k in Evicted(Run(items), item) {
      EvictionWithinScope(items, item, k);
    }
  }

  lemma {:induction false} DeleteAllKeepsOrder(m: OrderedMap<string, string>, ks: seq<string>, a: string, b: string)
    requires m.Valid() && Precedes(m.keys, a, b) && a !in Elems(ks) && b !in Elems(ks)
    ensures Precedes(DeleteAll(m, ks).keys, a, b)
  {
    if |ks| > 0 {
      var pre := ks[..|ks| - 1];
      assert Elems(pre) <= Elems(ks);
      assert ks[|ks| - 1] in Elems(ks);
      DeleteAllKeepsOrder(m, pre, a, b);
      RemoveKeyKeepsOrder(DeleteAll(m, pre).keys, ks[|ks| - 1], a, b);
    }
  }

  lemma {:induction false} PruneKeepsOrder(m: OrderedMap<string, string>, group: map<string, seq<string>>, targets: seq<string>, a: string, b: string)
    requires m.Valid() && Precedes(m.keys, a, b) && a !in Doomed(group, targets) && b !in Doomed(group, targets)
    ensures Precedes(Prune(m, group, targets).keys, a, b)
  {
    if |targets| > 0 {
      var pre := targets[..|targets| - 1];
      PruneKeepsOrder(m, group, pre, a, b);
      DeleteAllKeepsOrder(Prune(m, group, pre), TempKeysFor(group, targets[|targets| - 1]), a, b);
    }
  }

  /** Entries a token does not evict keep their relative order. */
  lemma StepKeepsOrder(st: MergeState, item: Keyed, a: string, b: string)
    requires st.temp.Valid() && Precedes(st.temp.keys, a, b)
    requires a !in Evicted(st, item) && b !in Evicted(st, item)
    ensures Precedes(MergeStep(st, item).temp.keys, a, b)
  {
    var g := Record(st.group, item.keys);
    var pruned := Prune(st.temp, g, item.removals);
    PruneKeepsOrder(st.temp, g, item.removals, a, b);
    var i, j :| 0 <= i < j < |pruned.keys| && pruned.keys[i] == a && pruned.keys[j] == b;
    var after := pruned.Set(item.keys.tempKey, item.token).keys;
    assert after[i] == a && after[j] == b;
  }

  /** A token whose key was evicted, or was never present, ends up last. */
  lemma NewEntryGoesLast(st: MergeState, item: Keyed)
    requires st.temp.Valid()
    requires item.keys.tempKey !in st.temp.vals || item.keys.tempKey in Evicted(st, item)
    ensures var ks := MergeStep(st, item).temp.keys; |ks| > 0 && ks[|ks| - 1] == item.keys.tempKey
  {
    var pruned := Prune(st.temp, Record(st.group, item.keys), item.removals);
    assert item.keys.tempKey !in pruned.vals;
  }

  lemma {:induction false} SplitWsAllWs(s: string)
    requires AllWs(s)
    ensures forall k :: 0 <= k < |SplitWs(s)| ==> SplitWs(s)[k] == ""
    decreases |s|
  {
    var i := FirstWhere(s, IsWs);
    if i < |s| {
      assert i == 0;
      var j := i + FirstWhere(s[i..], c => !IsWs(c));
      assert AllWs(s[j..]);
      SplitWsAllWs(s[j..]);
    }
  }

  lemma BlankTokens(code: string)
    requires AllWs(code)
    ensures Tokens(code) == []
  {
    SplitWsAllWs(code);
    var pieces := SplitWs(code);
    assert forall x :: x in pieces ==> x == "";
    FilterNone(pieces, NonEmpty);
  }

  /** An input of white space only merges to the empty string. */
  lemma MergeBlank(key: string -> Result<Keyed>, code: string)
    requires AllWs(code)
    ensures MergeWith(key, code) == Ok("")
  {
    BlankTokens(code);
    var rs := KeyEach(key, []);
    assert rs == [];
    assert KeyAll(key, []) == Ok([]);
    assert Run([]).temp.Values() == [];
  }
}
