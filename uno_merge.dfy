/**
 * The object `createUnoMerge` returns: a generator, a cache of the keys
 * derived for each token, and `merge` and `setConfig` over them. Its
 * methods are proved to compute what the functions of `Merging` describe.
 */
module UnoMerges {
  import opened Wrappers
  import opened Text
  import opened Config
  import opened OrderedMaps
  import Variants
  import Pipeline
  import opened Generators
  import opened Keys
  import opened Conflicts
  import opened Merging

  /** A cache key the generator filled for a token without white space was filled for that token alone. */
  lemma CacheKeyOfWord(raw: string, alias: string)
    ensures NoWs(Pipeline.CacheKey(raw, alias)) ==> alias == "" && Pipeline.CacheKey(raw, alias) == raw
  {
    if alias != "" {
      assert Pipeline.CacheKey(raw, alias)[|raw|] == ' ';
    }
  }

  /** The tokens among the first `i + 1` pieces of the input. */
  lemma PieceSnoc(pieces: seq<string>, i: nat)
    requires i < |pieces|
    ensures pieces[i] == "" ==> Filter(pieces[..i + 1], NonEmpty) == Filter(pieces[..i], NonEmpty)
    ensures pieces[i] != "" ==> Filter(pieces[..i + 1], NonEmpty) == Filter(pieces[..i], NonEmpty) + [pieces[i]]
  {
    assert pieces[..i + 1][..i] == pieces[..i];
    assert Filter(pieces[..i], NonEmpty) + [] == Filter(pieces[..i], NonEmpty);
  }

  lemma KeyAllSnoc(key: string -> Result<Keyed>, ts: seq<string>, t: string, items: seq<Keyed>)
    requires KeyAll(key, ts) == Ok(items)
    ensures key(t).Ok? ==> KeyAll(key, ts + [t]) == Ok(items + [key(t).value])
    ensures key(t).Err? ==> KeyAll(key, ts + [t]) == Err(key(t).error)
  {
    assert KeyEach(key, ts + [t]) == KeyEach(key, ts) + [key(t)];
    CollectSnoc(KeyEach(key, ts), key(t));
  }

  /** Keying stops at the first failure: what follows it does not matter. */
  lemma KeyAllStops(key: string -> Result<Keyed>, ts: seq<string>, more: seq<string>)
    requires KeyAll(key, ts).Err?
    ensures KeyAll(key, ts + more) == KeyAll(key, ts)
  {
    assert KeyEach(key, ts + more) == KeyEach(key, ts) + KeyEach(key, more);
    CollectErr(KeyEach(key, ts), KeyEach(key, more));
  }

  lemma SplitAt(s: seq<string>, n: nat)
    requires n <= |s|
    ensures s == s[..n] + s[n..]
  {
  }

  /** A failure among the first `i + 1` pieces is the failure of the whole input. */
  lemma PiecesStop(key: string -> Result<Keyed>, pieces: seq<string>, i: nat)
    requires i < |pieces| && KeyAll(key, Filter(pieces[..i + 1], NonEmpty)).Err?
    ensures KeyAll(key, Filter(pieces, NonEmpty)) == KeyAll(key, Filter(pieces[..i + 1], NonEmpty))
  {
    var front, back := pieces[..i + 1], pieces[i + 1..];
    SplitAt(pieces, i + 1);
    FilterAppend(front, back, NonEmpty);
    KeyAllStops(key, Filter(front, NonEmpty), Filter(back, NonEmpty));
  }

  /** What the keying under `c` gives for a token, from the token's keys. */
  lemma KeyerAgrees(c: Config, t: string, k: Result<TokenKeys>)
    requires k == KeysSpec(c, t)
    ensures k.Ok? ==> Keyer(c)(t) == Ok(Keyed(t, k.value, GetConflictingKeys(k.value.content, k.value.variant)))
    ensures k.Err? ==> Keyer(c)(t) == Err(k.error)
  {
    assert Keyer(c)(t) == KeyToken(c, t);
  }

  lemma MergeWithResult(key: string -> Result<Keyed>, code: string)
    ensures KeyAll(key, Tokens(code)).Err? ==> MergeWith(key, code) == Err(KeyAll(key, Tokens(code)).error)
    ensures KeyAll(key, Tokens(code)).Ok? ==> MergeWith(key, code) == Ok(Output(Run(KeyAll(key, Tokens(code)).value)))
  {
  }

  lemma RunSnoc(items: seq<Keyed>, item: Keyed)
    ensures Run(items + [item]) == MergeStep(Run(items), item)
  {
    assert (items + [item])[..|items|] == items;
  }

  /**
   * One pass of the loop in `merge` for a keyed token: its temporary key
   * is pushed under its group key, every temporary key its conflicting
   * keys stand for is deleted, and the token is stored.
   */
  method MergeToken(temp: OrderedMap<string, string>, group: map<string, seq<string>>, item: Keyed)
    returns (temp': OrderedMap<string, string>, group': map<string, seq<string>>)
    requires temp.Valid()
    ensures temp'.Valid()
    ensures MergeState(temp', group') == MergeStep(MergeState(temp, group), item)
  {
    var token, keys, removeKeys := item.token, item.keys, item.removals;
    group' := group;
    if keys.groupKey != "" {
      var groupValue := Lookup(group', keys.groupKey);
      group' := group'[keys.groupKey := groupValue + [keys.tempKey]];
    }
    temp' := temp;
    for j := 0 to |removeKeys|
      invariant temp'.Valid() && temp' == Prune(temp, group', removeKeys[..j])
    {
      assert removeKeys[..j + 1][..j] == removeKeys[..j];
      temp' := DeleteKeys(temp', TempKeysFor(group', removeKeys[j]));
    }
    assert removeKeys[..|removeKeys|] == removeKeys;
    temp' := temp'.Set(keys.tempKey, token);
  }

  /** `tempKeys.forEach((k) => temp.delete(k))`. */
  method DeleteKeys(temp: OrderedMap<string, string>, tempKeys: seq<string>) returns (temp': OrderedMap<string, string>)
    requires temp.Valid()
    ensures temp'.Valid() && temp' == DeleteAll(temp, tempKeys)
  {
    temp' := temp;
    for l := 0 to |tempKeys|
      invariant temp'.Valid() && temp' == DeleteAll(temp, tempKeys[..l])
    {
      assert tempKeys[..l + 1][..l] == tempKeys[..l];
      temp' := temp'.Delete(tempKeys[l]);
    }
    assert tempKeys[..|tempKeys|] == tempKeys;
  }

  /** Every entry of a key cache holds the keys of its token under `c`. */
  ghost predicate CacheHolds(c: Config, cache: map<string, TokenKeys>) {
    forall t :: t in cache ==> KeysSpec(c, t) == Ok(cache[t])
  }

  lemma StoreSame(cache: map<string, TokenKeys>, t: string)
    requires t in cache
    ensures cache[t := cache[t]] == cache
  {
  }

  lemma CacheHit(c: Config, cache: map<string, TokenKeys>, t: string)
    requires CacheHolds(c, cache) && t in cache
    ensures KeysSpec(c, t) == Ok(cache[t])
  {
  }

  lemma CacheExtend(c: Config, cache: map<string, TokenKeys>, t: string, k: TokenKeys)
    requires CacheHolds(c, cache) && KeysSpec(c, t) == Ok(k)
    ensures CacheHolds(c, cache[t := k])
  {
  }

  /**
   * How the keys of a token follow from the generator's answer and the
   * token's variant branches: the first failure of either is the failure of
   * the keying, and otherwise the keys come from the first non-at-rule body
   * and the first branch.
   */
  lemma KeysFromParse(c: Config, token: string)
    ensures var v := Pipeline.ParseTokenResult(c, token, "");
      var bs := Variants.MatchVariants(c, token, "");
      && (v.Err? ==> KeysSpec(c, token) == Err(v.error))
      && (v.Ok? && v.value.Some? && |Filter(v.value.value.utils, NotAtRule)| == 0 ==>
            KeysSpec(c, token) == Err(UndefinedRead("2")))
      && (TokenCss(c, token).Ok? && bs.Err? ==> KeysSpec(c, token) == Err(bs.error))
      && (TokenCss(c, token).Ok? && bs.Ok? ==>
            |bs.value| > 0 &&
            KeysSpec(c, token) == Ok(KeysOf(token, bs.value[0].current, TokenCss(c, token).value)))
      && (v.Ok? && v.value.None? ==> TokenCss(c, token) == Ok(RawText(token)))
      && (v.Ok? && v.value.Some? && |Filter(v.value.value.utils, NotAtRule)| > 0 ==>
            TokenCss(c, token) == Ok(Filter(v.value.value.utils, NotAtRule)[0].body))
  {
    Variants.MatchSpec(c, Variants.Branch(token, token, [], {}));
  }

  /**
   * One non-empty piece keyed: on success the keyed tokens grow by it, on
   * failure its error is the answer of the whole merge.
   */
  lemma KeyedPiece(c: Config, code: string, pieces: seq<string>, i: nat, tokens: seq<string>, items: seq<Keyed>,
                   k: Result<TokenKeys>)
    requires pieces == SplitWs(code) && i < |pieces| && pieces[i] != ""
    requires tokens == Filter(pieces[..i], NonEmpty) && KeyAll(Keyer(c), tokens) == Ok(items)
    requires k == KeysSpec(c, pieces[i])
    ensures Filter(pieces[..i + 1], NonEmpty) == tokens + [pieces[i]]
    ensures k.Err? ==> MergeSpec(c, code) == Err(k.error)
    ensures k.Ok? ==>
      KeyAll(Keyer(c), tokens + [pieces[i]])
      == Ok(items + [Keyed(pieces[i], k.value, GetConflictingKeys(k.value.content, k.value.variant))])
  {
    var key := Keyer(c);
    PieceSnoc(pieces, i);
    KeyerAgrees(c, pieces[i], k);
    KeyAllSnoc(key, tokens, pieces[i], items);
    if k.Err? {
      PiecesStop(key, pieces, i);
      MergeWithResult(key, code);
    }
  }

  /** Every piece keyed: the merge answers with the output of the run. */
  lemma MergedAll(c: Config, code: string, pieces: seq<string>, tokens: seq<string>, items: seq<Keyed>)
    requires pieces == SplitWs(code)
    requires tokens == Filter(pieces[..|pieces|], NonEmpty) && KeyAll(Keyer(c), tokens) == Ok(items)
    ensures MergeSpec(c, code) == Ok(Output(Run(items)))
  {
    assert pieces[..|pieces|] == pieces;
    MergeWithResult(Keyer(c), code);
  }

  class UnoMerge {
    const generator: Generator
    var cache: map<string, TokenKeys>

    /** The generator is consistent, and every cached entry holds the keys of its token. */
    ghost predicate Valid()
      reads this, generator
    {
      && generator.Valid()
      && CacheHolds(generator.config, cache)
    }

    /** `createUnoMerge(config)`: a fresh generator and an empty cache. */
    constructor(c: Config)
      ensures Valid() && fresh(generator)
      ensures generator.config == c && cache == map[]
    {
      generator := new Generator(c);
      cache := map[];
    }

    /**
     * `parseToken(token)`: the cached keys, or the keys derived from the
     * generator's answer and its first variant branch, which are then
     * cached. The only caller passes pieces of `code.split(/\s+/)`, which
     * hold no white space.
     */
    method ParseToken(token: string) returns (r: Result<TokenKeys>)
      requires Valid() && NoWs(token)
      modifies this, generator
      ensures Valid() && generator.config == old(generator.config)
      ensures r == KeysSpec(generator.config, token)
      ensures r.Ok? ==> cache == old(cache)[token := r.value]
      ensures r.Err? ==> cache == old(cache)
    {
      ghost var c := generator.config;
      if token in cache {
        CacheHit(c, cache, token);
        StoreSame(cache, token);
        return Ok(cache[token]);
      }
      assert Pipeline.CacheKey(token, "") == token;
      if token !in generator.blocked && token in generator.cache {
        var o := generator.origin[token];
        CacheKeyOfWord(o.0, o.1);
      }
      var v := generator.ParseToken(token, "");
      r := KeysFromAnswer(token, v);
      if r.Ok? {
        CacheExtend(c, cache, token, r.value);
        cache := cache[token := r.value];
      }
    }

    /** The keys derived from the generator's answer for a token and from its first variant branch. */
    method KeysFromAnswer(token: string, v: Result<Option<Pipeline.CacheValue>>) returns (r: Result<TokenKeys>)
      requires v == Pipeline.ParseTokenResult(generator.config, token, "")
      ensures r == KeysSpec(generator.config, token)
    {
      KeysFromParse(generator.config, token);
      if v.Err? {
        return Err(v.error);
      }
      var css: Body;
      if v.value.None? {
        css := RawText(token);
      } else {
        var kept := Filter(v.value.value.utils, NotAtRule);
        if |kept| == 0 {
          return Err(UndefinedRead("2"));
        }
        css := kept[0].body;
      }
      var bs := generator.MatchVariants(token, "");
      if bs.Err? {
        return Err(bs.error);
      }
      return Ok(KeysOf(token, bs.value[0].current, css));
    }

    /**
     * `merge(code)`: every non-empty piece of the input is keyed, recorded
     * under its group key, evicts what its conflicting keys name, and is
     * stored under its temporary key; the surviving tokens are joined.
     */
    method Merge(code: string) returns (r: Result<string>)
      requires Valid()
      modifies this, generator
      ensures Valid() && generator.config == old(generator.config)
      ensures r == MergeSpec(generator.config, code)
    {
      ghost var c := generator.config;
      var temp: OrderedMap<string, string> := Empty();
      var group: map<string, seq<string>> := map[];
      var pieces := SplitWs(code);
      ghost var items: seq<Keyed> := [];
      ghost var tokens: seq<string> := [];
      for i := 0 to |pieces|
        invariant Valid() && generator.config == c
        invariant tokens == Filter(pieces[..i], NonEmpty)
        invariant KeyAll(Keyer(c), tokens) == Ok(items)
        invariant temp.Valid() && MergeState(temp, group) == Run(items)
      {
        var failed;
        failed, temp, group, tokens, items := MergePiece(code, pieces, i, temp, group, tokens, items);
        if failed.Some? {
          return Err(failed.value);
        }
      }
      MergedAll(c, code, pieces, tokens, items);
      r := Ok(Output(MergeState(temp, group)));
    }

    /** One pass of the loop in `merge`: piece `i` skipped when empty, else keyed and merged. */
    method MergePiece(ghost code: string, pieces: seq<string>, i: nat,
                      temp: OrderedMap<string, string>, group: map<string, seq<string>>,
                      ghost tokens: seq<string>, ghost items: seq<Keyed>)
      returns (failed: Option<Error>, temp': OrderedMap<string, string>, group': map<string, seq<string>>,
               ghost tokens': seq<string>, ghost items': seq<Keyed>)
      requires Valid() && pieces == SplitWs(code) && i < |pieces|
      requires tokens == Filter(pieces[..i], NonEmpty) && KeyAll(Keyer(generator.config), tokens) == Ok(items)
      requires temp.Valid() && MergeState(temp, group) == Run(items)
      modifies this, generator
      ensures Valid() && generator.config == old(generator.config)
      ensures failed.Some? ==> MergeSpec(generator.config, code) == Err(failed.value)
      ensures failed.None? ==>
        && tokens' == Filter(pieces[..i + 1], NonEmpty) && KeyAll(Keyer(generator.config), tokens') == Ok(items')
        && temp'.Valid() && MergeState(temp', group') == Run(items')
    {
      var token := pieces[i];
      PieceSnoc(pieces, i);
      failed, temp', group', tokens', items' := None, temp, group, tokens, items;
      if token == "" {
        return;
      }
      ghost var c := generator.config;
      var k := ParseToken(token);
      KeyedPiece(c, code, pieces, i, tokens, items, k);
      if k.Err? {
        failed := Some(k.error);
        return;
      }
      var removeKeys := GetConflictingKeys(k.value.content, k.value.variant);
      var item := Keyed(token, k.value, removeKeys);
      RunSnoc(items, item);
      temp', group' := MergeToken(temp, group, item);
      tokens', items' := tokens + [token], items + [item];
    }

    /** `setConfig(config)`: the cache is cleared and the generator reconfigured. */
    method SetConfig(c: Option<Config>)
      requires Valid()
      modifies this, generator
      ensures Valid() && cache == map[]
      ensures generator.config == (if c.Some? then c.value else old(generator.config))
    {
      cache := map[];
      generator.SetConfig(c);
    }
  }
}
