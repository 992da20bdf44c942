/**
 * The generator object: its configuration and the collections `parseToken`,
 * `applyVariants` and `setConfig` update in place (the token cache, the set
 * of blocked tokens and the parent orders). Every method is proved to
 * compute what the specification functions of the other modules describe.
 */
module Generators {
  import opened Wrappers
  import opened Config
  import opened Sorting
  import opened OrderedMaps
  import opened Variants
  import opened Rules
  import AV = Apply
  import opened Shortcuts
  import opened Grouping
  import opened Pipeline
  import Text

  /** `acc` in front of a successful result; an error is kept. */
  function Prepend<T>(acc: seq<T>, r: Result<seq<T>>): Result<seq<T>> {
    if r.Ok? then Ok(acc + r.value) else r
  }

  lemma PrependAssoc<T>(a: seq<T>, b: seq<T>, r: Result<seq<T>>)
    ensures Prepend(a, Prepend(b, r)) == Prepend(a + b, r)
  {
    if r.Ok? {
      Text.Associative(a, b, r.value);
    }
  }

  /** One more branch parsed: its utilities move from the part still to do to the part done. */
  lemma ParseBranchesStep(c: Config, bs: seq<Branch>, j: nat, ctx: RuleCtx, internal: bool, sp: Option<seq<string>>,
                          parsed: seq<Parsed>, p: Option<seq<Parsed>>)
    requires j < |bs| && p == Rules.ParseBranch(c, bs[j], ctx, internal, sp)
    requires Rules.ParseBranches(c, bs, ctx, internal, sp) == parsed + Rules.ParseBranches(c, bs[j..], ctx, internal, sp)
    ensures Rules.ParseBranches(c, bs, ctx, internal, sp)
      == (parsed + p.GetOr([])) + Rules.ParseBranches(c, bs[j + 1..], ctx, internal, sp)
  {
    ParseBranchesFrom(c, bs, j, ctx, internal, sp);
    Text.Associative(parsed, p.GetOr([]), Rules.ParseBranches(c, bs[j + 1..], ctx, internal, sp));
  }

  lemma ParseBranchesDone(c: Config, bs: seq<Branch>, ctx: RuleCtx, internal: bool, sp: Option<seq<string>>, parsed: seq<Parsed>)
    requires Rules.ParseBranches(c, bs, ctx, internal, sp) == parsed + Rules.ParseBranches(c, bs[|bs|..], ctx, internal, sp)
    ensures Rules.ParseBranches(c, bs, ctx, internal, sp) == parsed
  {
    assert bs[|bs|..] == [];
    assert parsed + [] == parsed;
  }

  /** The expanded items from `j` on: item `j`'s utilities, then the rest's. */
  lemma ParsedOfStep(c: Config, items: seq<Item>, j: nat, ctx: RuleCtx, m: RuleMeta)
    requires j < |items|
    ensures items[j].SItem? ==>
      var pr := Rules.ParseUtil(c, FromToken(items[j].s), ctx, true, m.prefix);
      ParsedOf(c, items[j..], ctx, m)
        == if pr.Err? then Err(pr.error) else Prepend(pr.value.GetOr([]), ParsedOf(c, items[j + 1..], ctx, m))
    ensures items[j].InlineItem? ==>
      var here := [ParsedUtil(Infinite, "{inline}", items[j].entries, None, items[j].handles)];
      ParsedOf(c, items[j..], ctx, m) == Prepend(here, ParsedOf(c, items[j + 1..], ctx, m))
  {
    assert items[j..][0] == items[j] && items[j..][1..] == items[j + 1..];
  }

  /** A result less its `parentOrders` writes. */
  function UtilsOf(r: Result<(seq<Stringified>, seq<ParentWrite>)>): Result<seq<Stringified>> {
    if r.Ok? then Ok(r.value.0) else Err(r.error)
  }

  lemma {:induction false} ApplyWritesAppend(m: map<string, int>, a: seq<ParentWrite>, b: seq<ParentWrite>)
    ensures ApplyWrites(m, a + b) == ApplyWrites(ApplyWrites(m, a), b)
    decreases |b|
  {
    if |b| == 0 {
      assert a + b == a;
    } else {
      ApplyWritesAppend(m, a, b[..|b| - 1]);
      assert (a + b)[..|a + b| - 1] == a + b[..|b| - 1];
    }
  }

  class Generator {
    var config: Config
    var cache: map<string, Option<CacheValue>>
    var blocked: set<string>
    var parentOrders: map<string, int>
    /** The token and alias each cache key was filled for. */
    ghost var origin: map<string, (string, string)>

    /**
     * Every cached value is what parsing its token under the current
     * configuration gives, and every token in `blocked` is blocked.
     */
    ghost predicate Valid()
      reads this
    {
      Consistent(config, cache, origin, blocked)
    }

    constructor(c: Config)
      ensures Valid()
      ensures config == c && cache == map[] && blocked == {} && parentOrders == map[]
    {
      config := c;
      cache := map[];
      blocked := {};
      parentOrders := map[];
      origin := map[];
    }

    /** `setConfig`: a new configuration clears every collection; no configuration changes nothing. */
    method SetConfig(c: Option<Config>)
      requires Valid()
      modifies this
      ensures Valid()
      ensures c.None? ==>
        config == old(config) && cache == old(cache) && blocked == old(blocked) && parentOrders == old(parentOrders)
      ensures c.Some? ==> config == c.value && cache == map[] && blocked == {} && parentOrders == map[]
    {
      if c.None? {
        return;
      }
      blocked := {};
      parentOrders := map[];
      cache := map[];
      config := c.value;
    }

    // ---------------------------------------------------------------------
    // matchVariants

    /** The scan over the variants: the first one that applies to `b`. */
    method FirstVariant(b: Branch) returns (r: Option<nat>)
      ensures r == FirstApplicable(config, b, 0)
    {
      var j := 0;
      while j < |config.variants|
        invariant j <= |config.variants|
        invariant forall k :: 0 <= k < j ==> TryVariant(config, k, b).Skip?
      {
        if !TryVariant(config, j, b).Skip? {
          return Some(j);
        }
        j := j + 1;
      }
      return None;
    }

    /** The `while (applied)` loop of `match`, recursing into the clones of a split. */
    method MatchFrom(b0: Branch) returns (r: Result<seq<Branch>>)
      requires b0.applied <= VariantIds(config)
      ensures r == Match(config, b0)
      decreases |VariantIds(config) - b0.applied|, 1, Room(b0)
    {
      var b := b0;
      while true
        invariant b0.applied <= b.applied <= VariantIds(config)
        invariant |VariantIds(config) - b.applied| <= |VariantIds(config) - b0.applied|
        invariant Match(config, b) == Match(config, b0)
        decreases |VariantIds(config) - b.applied|, Room(b)
      {
        var f := FirstVariant(b);
        if f.None? {
          return Ok([b]);
        }
        var i := f.value;
        MatchUnfold(config, b, i);
        var step := TryVariant(config, i, b);
        if step.Single? {
          var next := Variants.Apply(b, i, step.h);
          if |next.handlers| > 500 {
            return Err(TooManyVariants(b.raw));
          }
          SingleStep(config, b, i, step.h);
          b := next;
        } else {
          if config.variants[i].multiPass {
            return Err(MultiPassArray);
          }
          DiffAddCard(VariantIds(config), b.applied, i);
          r := MatchClones(b, i, step.hs);
          return;
        }
      }
    }

    /** `clones.flatMap((c) => match(c))`. */
    method MatchClones(b: Branch, i: nat, hs: seq<Handler>) returns (r: Result<seq<Branch>>)
      requires b.applied <= VariantIds(config) && i < |config.variants| && i !in b.applied
      ensures r == Variants.MatchClones(config, b, i, hs, 0)
      decreases |VariantIds(config) - (b.applied + {i})|, 2, |hs|
    {
      var acc: seq<Branch> := [];
      var k := 0;
      assert forall v: seq<Branch> :: [] + v == v;
      while k < |hs|
        invariant k <= |hs|
        invariant Variants.MatchClones(config, b, i, hs, 0) == Prepend(acc, Variants.MatchClones(config, b, i, hs, k))
      {
        ClonesUnfold(config, b, i, hs, k);
        var first := MatchFrom(Variants.Apply(b, i, hs[k]));
        if first.Err? {
          return Err(first.error);
        }
        ghost var rest := Variants.MatchClones(config, b, i, hs, k + 1);
        assert rest.Ok? ==> acc + (first.value + rest.value) == (acc + first.value) + rest.value;
        acc := acc + first.value;
        k := k + 1;
      }
      assert acc + [] == acc;
      return Ok(acc);
    }

    /** `matchVariants(raw, current)`. */
    method MatchVariants(raw: string, current: string) returns (r: Result<seq<Branch>>)
      ensures r == Variants.MatchVariants(config, raw, current)
    {
      r := MatchFrom(Branch(raw, if current == "" then raw else current, [], {}));
    }

    // ---------------------------------------------------------------------
    // resolveCSSResult and parseUtil

    /** One group of entries: the control entries folded into handlers and meta, the body entries renamed. */
    method ResolveGroup(raw: string, es: seq<RuleEntry>, index: nat, meta: RuleMeta, handlers: seq<Handler>) returns (p: Parsed)
      ensures p == ResolveValue(config.virtualKey, raw, Group(es), index, meta, handlers)
    {
      var ctl := Controls(handlers, meta);
      var body: Entries := [];
      for k := 0 to |es|
        invariant ctl == ControlsOf(es[..k], Controls(handlers, meta))
        invariant |body| == k
        invariant forall m :: 0 <= m < k ==> body[m] == ResolveEntry(config.virtualKey, es[m])
      {
        assert es[..k + 1][..k] == es[..k];
        ctl := ControlStep(ctl, es[k]);
        body := body + [ResolveEntry(config.virtualKey, es[k])];
      }
      assert es[..|es|] == es;
      assert body == ResolveEntries(config.virtualKey, es);
      p := ParsedUtil(At(index), raw, body, Some(ctl.meta), ctl.variants);
    }

    /** `resolveCSSResult`: empty values dropped, then one utility per value. */
    method ResolveCSSResult(raw: string, result: seq<CssValue>, index: nat, meta: RuleMeta, handlers: seq<Handler>)
      returns (r: Option<seq<Parsed>>)
      ensures r == Resolve(config.virtualKey, raw, result, index, meta, handlers)
    {
      var vs: seq<CssValue> := [];
      for j := 0 to |result|
        invariant vs == NonEmptyValues(result[..j])
      {
        NonEmptyValuesSnoc(result[..j], result[j]);
        assert result[..j + 1] == result[..j] + [result[j]];
        if NonEmptyValue(result[j]) {
          vs := vs + [result[j]];
        }
      }
      assert result[..|result|] == result;
      if |vs| == 0 {
        return None;
      }
      var out: seq<Parsed> := [];
      for j := 0 to |vs|
        invariant |out| == j
        invariant forall m :: 0 <= m < j ==> out[m] == ResolveValue(config.virtualKey, raw, vs[m], index, meta, handlers)
      {
        var p: Parsed;
        match vs[j] {
          case RawCss(t) =>
            p := RawUtil(At(index), t, meta);
          case Group(es) =>
            p := ResolveGroup(raw, es, index, meta, handlers);
        }
        out := out + [p];
      }
      assert out == ResolveValues(config.virtualKey, raw, vs, index, meta, handlers);
      return Some(out);
    }

    /** One dynamic rule: the internal and prefix checks, the matcher, then the handler's result resolved. */
    method TryRule(rule: DynamicRule, b: Branch, ctx: RuleCtx, internal: bool, sp: Option<seq<string>>)
      returns (r: Option<seq<Parsed>>)
      ensures r == Rules.TryRule(config, rule, b, ctx, internal, sp)
    {
      if rule.meta.internal && !internal {
        return None;
      }
      var u := Unprefixed(rule.meta, b.current, sp);
      if u.None? {
        return None;
      }
      var m := rule.matcher(u.value);
      if m.None? {
        return None;
      }
      r := ResolveCSSResult(b.raw, rule.handler(m.value, ctx), rule.index, rule.meta, b.handlers);
    }

    /** `parse` inside `parseUtil`: the static rule, else the first dynamic rule that yields something. */
    method ParseBranch(b: Branch, ctx: RuleCtx, internal: bool, sp: Option<seq<string>>) returns (r: Option<seq<Parsed>>)
      ensures r == Rules.ParseBranch(config, b, ctx, internal, sp)
    {
      if StaticApplies(config, b.current, internal) {
        var st := config.rulesStatic[b.current];
        r := ResolveCSSResult(b.raw, st.body, st.index, st.meta, b.handlers);
        return;
      }
      var rules := config.rulesDynamic;
      var j := 0;
      while j < |rules|
        invariant j <= |rules|
        invariant forall k :: 0 <= k < j ==> Rules.TryRule(config, rules[k], b, ctx, internal, sp).None?
      {
        r := TryRule(rules[j], b, ctx, internal, sp);
        if r.Some? {
          FirstRuleAt(config, rules, b, ctx, internal, sp, j);
          return;
        }
        j := j + 1;
      }
      return None;
    }

    /** `variantResults.flatMap((i) => parse(i))`. */
    method ParseBranches(bs: seq<Branch>, ctx: RuleCtx, internal: bool, sp: Option<seq<string>>) returns (parsed: seq<Parsed>)
      ensures parsed == Rules.ParseBranches(config, bs, ctx, internal, sp)
    {
      parsed := [];
      assert bs[0..] == bs;
      assert parsed + Rules.ParseBranches(config, bs[0..], ctx, internal, sp) == Rules.ParseBranches(config, bs, ctx, internal, sp);
      for j := 0 to |bs|
        invariant Rules.ParseBranches(config, bs, ctx, internal, sp) == parsed + Rules.ParseBranches(config, bs[j..], ctx, internal, sp)
      {
        var p := ParseBranch(bs[j], ctx, internal, sp);
        ParseBranchesStep(config, bs, j, ctx, internal, sp, parsed, p);
        parsed := parsed + p.GetOr([]);
      }
      ParseBranchesDone(config, bs, ctx, internal, sp, parsed);
    }

    /** `parseUtil`: the branches of a token (or the one given), each parsed, in order. */
    method ParseUtil(input: ParseInput, ctx: RuleCtx, internal: bool, sp: Option<seq<string>>)
      returns (r: Result<Option<seq<Parsed>>>)
      ensures r == Rules.ParseUtil(config, input, ctx, internal, sp)
    {
      var bs: seq<Branch>;
      match input {
        case FromToken(t) =>
          var m := MatchVariants(t, "");
          if m.Err? {
            return Err(m.error);
          }
          bs := m.value;
        case FromBranch(b) =>
          bs := [b];
      }
      var parsed := ParseBranches(bs, ctx, internal, sp);
      if |parsed| == 0 {
        return Ok(None);
      }
      return Ok(Some(parsed));
    }

    // ---------------------------------------------------------------------
    // applyVariants and stringifyUtil

    /**
     * `applyVariants`: the composed handlers run on the start context, the
     * parent order recorded when both parent and order are set, then the
     * post-processors run on the utility object.
     */
    method ApplyVariants(entries: Entries, handlers: seq<Handler>, raw: string) returns (obj: UtilObject)
      modifies this`parentOrders
      ensures obj == AV.ApplyVariants(config, entries, handlers, raw).0
      ensures parentOrders == ApplyWrites(old(parentOrders), WritesOf(AV.ApplyVariants(config, entries, handlers, raw).1))
    {
      var handler := AV.ReduceRight(AV.SortHandlers(handlers), AV.Identity());
      var x := handler(AV.StartCtx(config, raw, entries));
      if x.parent.Some? && x.parentOrder.Some? {
        ghost var w := ParentWrite(x.parent.value, x.parentOrder.value);
        assert [w][..0] == [];
        parentOrders := parentOrders[x.parent.value := x.parentOrder.value];
      }
      obj := AV.ObjectOf(x);
      var ps := config.postprocess;
      for j := 0 to |ps|
        invariant obj == AV.Postprocess(ps[..j], AV.ObjectOf(x))
      {
        assert ps[..j + 1][..j] == ps[..j];
        obj := ps[j](obj);
      }
      assert ps[..|ps|] == ps;
    }

    /** `stringifyUtil`: raw utilities kept, parsed ones through their handlers, empty bodies dropped. */
    method StringifyUtil(p: Parsed) returns (u: Option<Stringified>)
      modifies this`parentOrders
      ensures u == AV.StringifyUtil(config, p).0
      ensures parentOrders == ApplyWrites(old(parentOrders), WritesOf(AV.StringifyUtil(config, p).1))
    {
      match p {
        case RawUtil(index, css, meta) =>
          return Some(Stringified(index, None, RawText(css), None, meta, None));
        case ParsedUtil(index, raw, entries, meta, handlers) =>
          var obj := ApplyVariants(entries, handlers, raw);
          if EntriesToCss(obj.entries) == "" {
            return None;
          }
          var m := meta.GetOr(EmptyMeta);
          var ruleMeta := m.(layer := AV.OrElse(obj.layer, m.layer), sort := AV.OrElse(obj.sort, m.sort));
          return Some(Stringified(index, Some(obj.selector), Decls(obj.entries), obj.parent, ruleMeta, obj.noMerge));
      }
    }

    /** `parseUtil(...)?.map(stringifyUtil).filter(notNull)`. */
    method StringifyAll(ps: seq<Parsed>) returns (us: seq<Stringified>)
      modifies this`parentOrders
      ensures us == Pipeline.StringifyAll(config, ps).0
      ensures parentOrders == ApplyWrites(old(parentOrders), Pipeline.StringifyAll(config, ps).1)
    {
      us := [];
      ghost var ws: seq<ParentWrite> := [];
      for j := 0 to |ps|
        invariant (us, ws) == Pipeline.StringifyAll(config, ps[..j])
        invariant parentOrders == ApplyWrites(old(parentOrders), ws)
      {
        ghost var su := AV.StringifyUtil(config, ps[j]);
        StringifyAllSnoc(config, ps, j);
        ApplyWritesAppend(old(parentOrders), ws, WritesOf(su.1));
        var u := StringifyUtil(ps[j]);
        us := us + (if u.Some? then [u.value] else []);
        ws := ws + WritesOf(su.1);
      }
      assert ps[..|ps|] == ps;
    }

    // ---------------------------------------------------------------------
    // stringifyShortcuts

    /** The parsed utilities of the expanded items, in order; no `parentOrders` write happens here. */
    method ParseExpanded(items: seq<Item>, ctx: RuleCtx, m: RuleMeta) returns (r: Result<seq<Parsed>>)
      ensures r == ParsedOf(config, items, ctx, m)
    {
      var ps: seq<Parsed> := [];
      var j := 0;
      assert forall v: seq<Parsed> :: [] + v == v;
      while j < |items|
        invariant j <= |items|
        invariant ParsedOf(config, items, ctx, m) == Prepend(ps, ParsedOf(config, items[j..], ctx, m))
      {
        ParsedOfStep(config, items, j, ctx, m);
        match items[j] {
          case SItem(s) =>
            var pr := ParseUtil(FromToken(s), ctx, true, m.prefix);
            if pr.Err? {
              return Err(pr.error);
            }
            PrependAssoc(ps, pr.value.GetOr([]), ParsedOf(config, items[j + 1..], ctx, m));
            ps := ps + pr.value.GetOr([]);
          case InlineItem(handles, entries) =>
            var here := [ParsedUtil(Infinite, "{inline}", entries, None, handles)];
            PrependAssoc(ps, here, ParsedOf(config, items[j + 1..], ctx, m));
            ps := ps + here;
        }
        j := j + 1;
      }
      assert items[j..] == [];
      assert ps + [] == ps;
      return Ok(ps);
    }

    /** One utility of a shortcut: a raw one kept apart, a parsed one added to its group. */
    method CollectItem(parent: Branch, m: RuleMeta, item: Parsed, raws: seq<Stringified>, layers: LayerMap, ghost ws: seq<ParentWrite>)
      returns (raws': seq<Stringified>, layers': LayerMap, ghost w: seq<ParentWrite>)
      requires ValidLayers(layers)
      modifies this`parentOrders
      ensures Collected(raws', layers', ws + w) == CollectStep(config, parent, m, Collected(raws, layers, ws), item)
      ensures ValidLayers(layers')
      ensures parentOrders == ApplyWrites(old(parentOrders), w)
    {
      match item {
        case RawUtil(index, css, rawMeta) =>
          raws', layers', w := raws + [Stringified(index, None, RawText(css), None, rawMeta, None)], layers, [];
          assert ws + w == ws;
        case ParsedUtil(index, raw, entries, itemMeta, handlers) =>
          w := WritesOf(AV.ApplyVariants(config, entries, handlers + parent.handlers, parent.raw).1);
          var obj := ApplyVariants(entries, handlers + parent.handlers, parent.raw);
          var layer := AV.OrElse(obj.layer, m.layer);
          var gi := GroupItem(obj.entries, NoMergeFlag(obj, item), obj.sort.GetOr(0));
          raws', layers' := raws, AddItem(layers, layer, obj.selector, obj.parent, index, gi);
      }
    }

    /** The sorted utilities of a shortcut, collected one by one. */
    method CollectAll(parent: Branch, m: RuleMeta, sorted: seq<Parsed>)
      returns (raws: seq<Stringified>, layers: LayerMap, ghost ws: seq<ParentWrite>)
      modifies this`parentOrders
      ensures Collected(raws, layers, ws) == Collect(config, parent, m, sorted)
      ensures parentOrders == ApplyWrites(old(parentOrders), ws)
    {
      raws, layers, ws := [], Empty(), [];
      for k := 0 to |sorted|
        invariant Collected(raws, layers, ws) == Collect(config, parent, m, sorted[..k])
        invariant ValidLayers(layers)
        invariant parentOrders == ApplyWrites(old(parentOrders), ws)
      {
        assert sorted[..k + 1][..k] == sorted[..k];
        ghost var w;
        raws, layers, w := CollectItem(parent, m, sorted[k], raws, layers, ws);
        ApplyWritesAppend(old(parentOrders), ws, w);
        ws := ws + w;
      }
      assert sorted[..|sorted|] == sorted;
    }

    /**
     * `stringifyShortcuts`: the expanded items parsed and sorted by index,
     * passed through their handlers and the shortcut's, grouped by layer,
     * selector and parent, then emitted after the raw utilities.
     */
    method StringifyShortcuts(parent: Branch, ctx: RuleCtx, expanded: seq<Item>, meta: Option<RuleMeta>)
      returns (r: Result<seq<Stringified>>)
      modifies this`parentOrders
      ensures r == UtilsOf(Grouping.StringifyShortcuts(config, parent, ctx, expanded, meta))
      ensures Grouping.StringifyShortcuts(config, parent, ctx, expanded, meta).Ok? ==>
        parentOrders == ApplyWrites(old(parentOrders), Grouping.StringifyShortcuts(config, parent, ctx, expanded, meta).value.1)
      ensures Grouping.StringifyShortcuts(config, parent, ctx, expanded, meta).Err? ==> parentOrders == old(parentOrders)
    {
      var m := ShortcutMeta(config, meta);
      var parsed := ParseExpanded(UniqItems(expanded, {}), ctx, m);
      if parsed.Err? {
        return Err(parsed.error);
      }
      var sorted := StableSort(parsed.value, IndexKey);
      var raws, layers, ws := CollectAll(parent, m, sorted);
      assert Grouping.StringifyShortcuts(config, parent, ctx, expanded, meta)
        == Ok((raws + EmitLayers(layers, layers.keys, m), ws));
      return Ok(raws + EmitLayers(layers, layers.keys, m));
    }

    // ---------------------------------------------------------------------
    // parseToken

    /** `handleVariantResult`: a shortcut's utilities, or else the rules' ones. */
    method HandleBranch(raw: string, alias: string, b: Branch) returns (r: Result<seq<Stringified>>)
      modifies this`parentOrders
      ensures r == UtilsOf(Pipeline.HandleBranch(config, raw, alias, b))
      ensures Pipeline.HandleBranch(config, raw, alias, b).Ok? ==>
        parentOrders == ApplyWrites(old(parentOrders), Pipeline.HandleBranch(config, raw, alias, b).value.1)
      ensures Pipeline.HandleBranch(config, raw, alias, b).Err? ==> parentOrders == old(parentOrders)
    {
      var ctx := BranchCtx(raw, b);
      var e := ExpandShortcut(config, b.current, ctx, DefaultDepth);
      if e.Err? {
        return Err(e.error);
      }
      if e.value.Some? {
        r := StringifyShortcuts(Named(alias, b), ctx, e.value.value.items, e.value.value.meta);
        return;
      }
      var ps := ParseUtil(FromBranch(Named(alias, b)), ctx, false, None);
      if ps.Err? {
        return Err(ps.error);
      }
      if ps.value.None? {
        return Ok([]);
      }
      var us := StringifyAll(ps.value.value);
      return Ok(us);
    }

    /** `variantResults.flatMap(handleVariantResult)`: each branch handled in order. */
    method HandleAll(raw: string, alias: string, bs: seq<Branch>) returns (r: Result<seq<Stringified>>)
      modifies this`parentOrders
      ensures r == UtilsOf(Pipeline.HandleAll(config, raw, alias, bs))
      ensures Pipeline.HandleAll(config, raw, alias, bs).Ok? ==>
        parentOrders == ApplyWrites(old(parentOrders), Pipeline.HandleAll(config, raw, alias, bs).value.1)
      ensures parentOrders == ApplyWrites(old(parentOrders), WritesMade(Pipeline.HandleEach(config, raw, alias, bs)))
    {
      r := HandleEach(raw, alias, bs, Pipeline.HandleEach(config, raw, alias, bs));
    }

    /** The branches handled in order, their utilities gathered until one fails. */
    method HandleEach(raw: string, alias: string, bs: seq<Branch>, ghost rs: seq<Result<(seq<Stringified>, seq<ParentWrite>)>>)
      returns (r: Result<seq<Stringified>>)
      requires |rs| == |bs| && forall i :: 0 <= i < |bs| ==> rs[i] == Pipeline.HandleBranch(config, raw, alias, bs[i])
      modifies this`parentOrders
      ensures r == UtilsOf(Gather(rs))
      ensures Gather(rs).Ok? ==> parentOrders == ApplyWrites(old(parentOrders), Gather(rs).value.1)
      ensures parentOrders == ApplyWrites(old(parentOrders), WritesMade(rs))
    {
      var utils: seq<Stringified> := [];
      ghost var ws: seq<ParentWrite> := [];
      for k := 0 to |bs|
        invariant Gather(rs[..k]) == Ok((utils, ws))
        invariant parentOrders == ApplyWrites(old(parentOrders), ws)
      {
        GatherSnoc(rs, k);
        var u := HandleBranch(raw, alias, bs[k]);
        if u.Err? {
          GatherErr(rs, k + 1);
          assert rs[..k + 1][..k] == rs[..k];
          WritesMadeGathered(rs[..k]);
          WritesMadeErr(rs, k + 1);
          return Err(u.error);
        }
        ApplyWritesAppend(old(parentOrders), ws, rs[k].value.1);
        utils := utils + u.value;
        ws := ws + rs[k].value.1;
      }
      assert rs[..|bs|] == rs;
      WritesMadeGathered(rs);
      return Ok(utils);
    }

    /** `config.preprocess.reduce((acc, p) => p(acc) ?? acc, raw)`. */
    method Preprocess(raw: string) returns (current: string)
      ensures current == Pipeline.Preprocess(config.preprocess, raw)
    {
      var ps := config.preprocess;
      current := raw;
      for j := 0 to |ps|
        invariant current == Pipeline.Preprocess(ps[..j], raw)
      {
        assert ps[..j + 1][..j] == ps[..j];
        current := ps[j](current).GetOr(current);
      }
      assert ps[..|ps|] == ps;
    }

    /**
     * The parse of a token neither blocked nor cached: pre-processing, the
     * blocklist, the variants, and the handling of every branch.
     */
    method ParseFresh(raw: string, alias: string) returns (r: Result<Option<CacheValue>>, blocks: bool)
      modifies this`parentOrders
      ensures r == ParseTokenResult(config, raw, alias)
      ensures blocks <==> ParseTokenSpec(config, raw, alias) == Ok(Blocked)
      ensures r.Ok? ==> parentOrders == ApplyWrites(old(parentOrders), WritesOfOutcome(ParseTokenSpec(config, raw, alias).value))
      ensures parentOrders == ApplyWrites(old(parentOrders), ParseWrites(config, raw, alias))
    {
      var current := Preprocess(raw);
      if IsBlocked(config, current) {
        return Ok(None), true;
      }
      var bs := MatchVariants(raw, current);
      if bs.Err? {
        return Err(bs.error), false;
      }
      if AllBlocked(config, bs.value) {
        return Ok(None), true;
      }
      var utils := HandleAll(raw, alias, bs.value);
      if utils.Err? {
        return Err(utils.error), false;
      }
      if |utils.value| > 0 {
        return Ok(Some(CacheValue(bs.value[0].current, utils.value))), false;
      }
      return Ok(None), false;
    }

    /**
     * `parseToken(raw, alias)`: a blocked token gives nothing; a cached key
     * gives its cached value; otherwise the token is parsed, the outcome
     * cached under the key (and the token remembered as blocked when it is),
     * and the parent orders written. Whenever the key was filled for this
     * same token and alias, or the token is blocked, the answer is what
     * parsing it afresh gives.
     */
    method ParseToken(raw: string, alias: string) returns (r: Result<Option<CacheValue>>)
      requires Valid()
      modifies this
      ensures Valid() && config == old(config)
      ensures raw in old(blocked) ==>
        r == Ok(None) && cache == old(cache) && blocked == old(blocked) && parentOrders == old(parentOrders)
      ensures raw !in old(blocked) && CacheKey(raw, alias) in old(cache) ==>
        r == Ok(old(cache)[CacheKey(raw, alias)]) && cache == old(cache) && blocked == old(blocked)
        && parentOrders == old(parentOrders)
      ensures raw !in old(blocked) && CacheKey(raw, alias) !in old(cache) ==>
        && r == ParseTokenResult(config, raw, alias)
        && (r.Ok? ==>
              && cache == old(cache)[CacheKey(raw, alias) := r.value]
              && blocked == (if ParseTokenSpec(config, raw, alias).value.Blocked? then old(blocked) + {raw} else old(blocked))
              && parentOrders == ApplyWrites(old(parentOrders), WritesOfOutcome(ParseTokenSpec(config, raw, alias).value)))
        && (r.Err? ==> cache == old(cache) && blocked == old(blocked) && parentOrders == ApplyWrites(old(parentOrders), ParseWrites(config, raw, alias)))
      ensures raw in old(blocked) || CacheKey(raw, alias) !in old(cache) || old(origin)[CacheKey(raw, alias)] == (raw, alias) ==>
        r == ParseTokenResult(config, raw, alias)
    {
      if raw in blocked {
        BlockedSpec(config, raw, alias);
        return Ok(None);
      }
      var key := CacheKey(raw, alias);
      if key in cache {
        return Ok(cache[key]);
      }
      var blocks;
      r, blocks := ParseFresh(raw, alias);
      if r.Err? {
        return;
      }
      Store(raw, alias, r.value, blocks);
    }

    /** Filling the cache (and the blocklist) with a fresh outcome keeps them consistent. */
    method Store(raw: string, alias: string, v: Option<CacheValue>, blocks: bool)
      requires Valid()
      requires ParseTokenSpec(config, raw, alias).Ok? && v == Cached(ParseTokenSpec(config, raw, alias).value)
      requires blocks <==> ParseTokenSpec(config, raw, alias).value.Blocked?
      modifies this`cache, this`blocked, this`origin
      ensures Valid()
      ensures cache == old(cache)[CacheKey(raw, alias) := v]
      ensures blocked == if blocks then old(blocked) + {raw} else old(blocked)
    {
      ConsistentStore(config, cache, origin, blocked, raw, alias);
      if blocks {
        blocked := blocked + {raw};
      }
      cache := cache[CacheKey(raw, alias) := v];
      origin := origin[CacheKey(raw, alias) := (raw, alias)];
    }
  }

  /**
   * Every cache key holds what parsing the token and alias it was filled for
   * gives under `c`, and every token in `blocked` is blocked under `c`.
   */
  ghost predicate Consistent(c: Config, cache: map<string, Option<CacheValue>>, origin: map<string, (string, string)>, blocked: set<string>) {
    && (forall k :: k in cache ==>
          && k in origin && CacheKey(origin[k].0, origin[k].1) == k
          && ParseTokenSpec(c, origin[k].0, origin[k].1).Ok?
          && cache[k] == Cached(ParseTokenSpec(c, origin[k].0, origin[k].1).value))
    && (forall r :: r in blocked ==> TokenBlocked(c, r))
  }

  /** Storing a fresh outcome keeps the cache and the blocklist consistent. */
  lemma ConsistentStore(c: Config, cache: map<string, Option<CacheValue>>, origin: map<string, (string, string)>,
                        blocked: set<string>, raw: string, alias: string)
    requires Consistent(c, cache, origin, blocked) && ParseTokenSpec(c, raw, alias).Ok?
    ensures var o := ParseTokenSpec(c, raw, alias).value;
      var key := CacheKey(raw, alias);
      Consistent(c, cache[key := Cached(o)], origin[key := (raw, alias)], if o.Blocked? then blocked + {raw} else blocked)
  {
    var o := ParseTokenSpec(c, raw, alias).value;
    var key := CacheKey(raw, alias);
    var cache', origin' := cache[key := Cached(o)], origin[key := (raw, alias)];
    forall k | k in cache'
      ensures && k in origin' && CacheKey(origin'[k].0, origin'[k].1) == k
              && ParseTokenSpec(c, origin'[k].0, origin'[k].1).Ok?
              && cache'[k] == Cached(ParseTokenSpec(c, origin'[k].0, origin'[k].1).value)
    {
      if k != key {
        assert k in cache && cache'[k] == cache[k] && origin'[k] == origin[k];
      }
    }
    BlockedSpec(c, raw, alias);
  }

  lemma {:induction false} NonEmptyValuesSnoc(vs: seq<CssValue>, v: CssValue)
    ensures NonEmptyValues(vs + [v]) == NonEmptyValues(vs) + (if NonEmptyValue(v) then [v] else [])
  {
    if |vs| == 0 {
      assert [v][1..] == [];
    } else {
      assert (vs + [v])[1..] == vs[1..] + [v];
      NonEmptyValuesSnoc(vs[1..], v);
    }
  }
}
