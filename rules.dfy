/**
 * Rule resolution: `resolveCSSResult` turns a rule's normalised result into
 * parsed utilities, interpreting control entries; `parseUtil` tries the
 * static rule for the selector and then the dynamic rules in order.
 */
module Rules {
  import opened Wrappers
  import opened Text
  import opened Config
  import opened Variants

  // -----------------------------------------------------------------------
  // resolveCSSResult

  predicate NonEmptyValue(v: CssValue) {
    match v
    case RawCss(t) => t != ""
    case Group(es) => |es| > 0
  }

  /** `normalizeCSSValues(result).filter(i => i.length)` */
  function NonEmptyValues(vs: seq<CssValue>): (r: seq<CssValue>)
    ensures |r| <= |vs|
    ensures forall i :: 0 <= i < |r| ==> NonEmptyValue(r[i])
    ensures |r| == 0 <==> forall i :: 0 <= i < |vs| ==> !NonEmptyValue(vs[i])
  {
    if |vs| == 0 then []
    else if NonEmptyValue(vs[0]) then [vs[0]] + NonEmptyValues(vs[1..])
    else NonEmptyValues(vs[1..])
  }

  function ParentHandler(p: string): Handler {
    Handler(None, 0, None, None, Some(p), None, None, None)
  }

  function SelectorHandler(f: (string, Entries) -> string): Handler {
    Handler(None, 0, None, Some(f), None, None, None, None)
  }

  function LayerHandler(l: string): Handler {
    Handler(None, 0, None, None, None, None, Some(l), None)
  }

  /** The variant handlers and meta a group of entries accumulates. */
  datatype Controls = Controls(variants: seq<Handler>, meta: RuleMeta)

  /** One entry's effect on the accumulated handlers and meta. */
  function ControlStep(acc: Controls, e: RuleEntry): Controls {
    match e
    case VariantsFn(f) => acc.(variants := f(acc.variants).GetOr(acc.variants))
    case VariantsList(hs) => acc.(variants := hs + acc.variants)
    case ParentCtl(p) => acc.(variants := [ParentHandler(p)] + acc.variants)
    case SelectorCtl(f) => acc.(variants := [SelectorHandler(f)] + acc.variants)
    case LayerCtl(l) => acc.(variants := [LayerHandler(l)] + acc.variants)
    case SortCtl(n) => acc.(meta := acc.meta.(sort := Some(n)))
    case NoMergeCtl(b) => acc.(meta := acc.meta.(noMerge := Some(b)))
    case Css(_, _) => acc
    case BodyCtl(_) => acc
    case ShortcutsNoMergeCtl(_) => acc
  }

  /** The entries of a group interpreted in order. */
  function ControlsOf(es: seq<RuleEntry>, acc: Controls): Controls {
    if |es| == 0 then acc
    else ControlStep(ControlsOf(es[..|es| - 1], acc), es[|es| - 1])
  }

  /** A rule entry as it stays in the body; a body control entry is renamed to the virtual key. */
  function ResolveEntry(virtualKey: string, e: RuleEntry): Entry {
    match e
    case Css(p, v) => Decl(p, v)
    case BodyCtl(v) => Decl(virtualKey, v)
    case VariantsFn(_) => Marker(VariantsSym)
    case VariantsList(_) => Marker(VariantsSym)
    case ParentCtl(_) => Marker(ParentSym)
    case SelectorCtl(_) => Marker(SelectorSym)
    case LayerCtl(_) => Marker(LayerSym)
    case SortCtl(_) => Marker(SortSym)
    case NoMergeCtl(_) => Marker(NoMergeSym)
    case ShortcutsNoMergeCtl(_) => Marker(ShortcutsNoMergeSym)
  }

  function ResolveEntries(virtualKey: string, es: seq<RuleEntry>): (r: Entries)
    ensures |r| == |es|
    ensures forall i :: 0 <= i < |es| ==> r[i] == ResolveEntry(virtualKey, es[i])
  {
    if |es| == 0 then [] else [ResolveEntry(virtualKey, es[0])] + ResolveEntries(virtualKey, es[1..])
  }

  /** One normalised value as a parsed (or raw) utility. */
  function ResolveValue(virtualKey: string, raw: string, v: CssValue, index: nat, meta: RuleMeta, handlers: seq<Handler>): Parsed {
    match v
    case RawCss(t) => RawUtil(At(index), t, meta)
    case Group(es) =>
      var ctl := ControlsOf(es, Controls(handlers, meta));
      ParsedUtil(At(index), raw, ResolveEntries(virtualKey, es), Some(ctl.meta), ctl.variants)
  }

  function ResolveValues(virtualKey: string, raw: string, vs: seq<CssValue>, index: nat, meta: RuleMeta, handlers: seq<Handler>): (r: seq<Parsed>)
    ensures |r| == |vs|
    ensures forall i :: 0 <= i < |vs| ==> r[i] == ResolveValue(virtualKey, raw, vs[i], index, meta, handlers)
  {
    if |vs| == 0 then []
    else [ResolveValue(virtualKey, raw, vs[0], index, meta, handlers)] + ResolveValues(virtualKey, raw, vs[1..], index, meta, handlers)
  }

  /**
   * `resolveCSSResult`: nothing when no value is left after dropping empty
   * ones, otherwise one utility per value, each carrying the rule's index; a
   * string value stays raw CSS.
   */
  function Resolve(virtualKey: string, raw: string, result: seq<CssValue>, index: nat, meta: RuleMeta, handlers: seq<Handler>): (r: Option<seq<Parsed>>)
    ensures r.None? <==> forall i :: 0 <= i < |result| ==> !NonEmptyValue(result[i])
    ensures r.Some? ==> |r.value| == |NonEmptyValues(result)| > 0
    ensures r.Some? ==> forall i :: 0 <= i < |r.value| ==> r.value[i].index == At(index)
    ensures r.Some? ==> forall i :: 0 <= i < |r.value| ==>
      (r.value[i].RawUtil? <==> NonEmptyValues(result)[i].RawCss?)
  {
    var vs := NonEmptyValues(result);
    if |vs| == 0 then None else Some(ResolveValues(virtualKey, raw, vs, index, meta, handlers))
  }


  /** Only a sort entry sets the sort, and only a no-merge entry the no-merge flag. */
  lemma StepMeta(acc: Controls, e: RuleEntry)
    ensures ControlStep(acc, e).meta.sort == if e.SortCtl? then Some(e.sort) else acc.meta.sort
    ensures ControlStep(acc, e).meta.noMerge == if e.NoMergeCtl? then Some(e.noMerge) else acc.meta.noMerge
  {
  }


  /** Without a sort entry the group keeps the rule's own sort. */
  lemma {:induction false} ControlsSortUnset(es: seq<RuleEntry>, acc: Controls)
    requires forall i :: 0 <= i < |es| ==> !es[i].SortCtl?
    ensures ControlsOf(es, acc).meta.sort == acc.meta.sort
  {
    if |es| > 0 {
      var init := es[..|es| - 1];
      forall i | 0 <= i < |init| ensures !init[i].SortCtl? {
        assert init[i] == es[i];
      }
      ControlsSortUnset(init, acc);
      StepMeta(ControlsOf(init, acc), es[|es| - 1]);
    }
  }

  /** The meta's sort is the value of the group's last sort entry. */
  lemma {:induction false} ControlsSortLast(es: seq<RuleEntry>, acc: Controls, i: nat)
    requires i < |es| && es[i].SortCtl?
    requires forall j :: i < j < |es| ==> !es[j].SortCtl?
    ensures ControlsOf(es, acc).meta.sort == Some(es[i].sort)
  {
    var n := |es| - 1;
    var init := es[..n];
    StepMeta(ControlsOf(init, acc), es[n]);
    if i < n {
      assert init[i] == es[i];
      forall j | i < j < |init| ensures !init[j].SortCtl? {
        assert init[j] == es[j];
      }
      ControlsSortLast(init, acc, i);
    }
  }

  /** Without a no-merge entry the group keeps the rule's own no-merge flag. */
  lemma {:induction false} ControlsNoMergeUnset(es: seq<RuleEntry>, acc: Controls)
    requires forall i :: 0 <= i < |es| ==> !es[i].NoMergeCtl?
    ensures ControlsOf(es, acc).meta.noMerge == acc.meta.noMerge
  {
    if |es| > 0 {
      var init := es[..|es| - 1];
      forall i | 0 <= i < |init| ensures !init[i].NoMergeCtl? {
        assert init[i] == es[i];
      }
      ControlsNoMergeUnset(init, acc);
      StepMeta(ControlsOf(init, acc), es[|es| - 1]);
    }
  }

  /** The meta's no-merge flag is the value of the group's last no-merge entry. */
  lemma {:induction false} ControlsNoMergeLast(es: seq<RuleEntry>, acc: Controls, i: nat)
    requires i < |es| && es[i].NoMergeCtl?
    requires forall j :: i < j < |es| ==> !es[j].NoMergeCtl?
    ensures ControlsOf(es, acc).meta.noMerge == Some(es[i].noMerge)
  {
    var n := |es| - 1;
    var init := es[..n];
    StepMeta(ControlsOf(init, acc), es[n]);
    if i < n {
      assert init[i] == es[i];
      forall j | i < j < |init| ensures !init[j].NoMergeCtl? {
        assert init[j] == es[j];
      }
      ControlsNoMergeLast(init, acc, i);
    }
  }

  /** Entries never change the meta's internal flag, prefixes or layer. */
  lemma {:induction false} ControlsKeepMeta(es: seq<RuleEntry>, acc: Controls)
    ensures ControlsOf(es, acc).meta.internal == acc.meta.internal
    ensures ControlsOf(es, acc).meta.prefix == acc.meta.prefix
    ensures ControlsOf(es, acc).meta.layer == acc.meta.layer
  {
    if |es| > 0 {
      ControlsKeepMeta(es[..|es| - 1], acc);
    }
  }

  /**
   * Without a variants-function entry, the group's own handlers are put in
   * front of the context's: these stay, in order, at the end of the list.
   */
  lemma {:induction false} ControlsKeepContextHandlers(es: seq<RuleEntry>, acc: Controls)
    requires forall i :: 0 <= i < |es| ==> !es[i].VariantsFn?
    ensures exists pre :: ControlsOf(es, acc).variants == pre + acc.variants
  {
    if |es| == 0 {
      assert ControlsOf(es, acc).variants == [] + acc.variants;
    } else {
      var init := es[..|es| - 1];
      ControlsKeepContextHandlers(init, acc);
      var pre :| ControlsOf(init, acc).variants == pre + acc.variants;
      var prev := ControlsOf(init, acc);
      match es[|es| - 1]
      case VariantsList(hs) => assert ControlsOf(es, acc).variants == (hs + pre) + acc.variants;
      case ParentCtl(p) => assert ControlsOf(es, acc).variants == ([ParentHandler(p)] + pre) + acc.variants;
      case SelectorCtl(f) => assert ControlsOf(es, acc).variants == ([SelectorHandler(f)] + pre) + acc.variants;
      case LayerCtl(l) => assert ControlsOf(es, acc).variants == ([LayerHandler(l)] + pre) + acc.variants;
      case SortCtl(_) => assert ControlsOf(es, acc).variants == pre + acc.variants;
      case NoMergeCtl(_) => assert ControlsOf(es, acc).variants == pre + acc.variants;
      case Css(_, _) => assert ControlsOf(es, acc).variants == pre + acc.variants;
      case BodyCtl(_) => assert ControlsOf(es, acc).variants == pre + acc.variants;
      case ShortcutsNoMergeCtl(_) => assert ControlsOf(es, acc).variants == pre + acc.variants;
    }
  }

  // -----------------------------------------------------------------------
  // parseUtil

  /** The first of `ps` that `s` starts with. */
  function FirstPrefix(ps: seq<string>, s: string): (r: Option<string>)
    ensures r.Some? ==> r.value in ps && StartsWith(s, r.value)
    ensures r.None? <==> forall p :: p in ps ==> !StartsWith(s, p)
  {
    if |ps| == 0 then None
    else if StartsWith(s, ps[0]) then Some(ps[0])
    else FirstPrefix(ps[1..], s)
  }

  /**
   * The selector a rule's matcher sees: unchanged for a rule without
   * prefixes; inside a shortcut with prefixes, unchanged when the two prefix
   * lists share one and skipped otherwise; elsewhere with the first matching
   * prefix stripped, and skipped when none matches.
   */
  function Unprefixed(meta: RuleMeta, processed: string, shortcutPrefix: Option<seq<string>>): (r: Option<string>)
    ensures meta.prefix.None? ==> r == Some(processed)
    ensures meta.prefix.Some? && shortcutPrefix.Some? ==>
      (r.Some? <==> exists p :: p in meta.prefix.value && p in shortcutPrefix.value) &&
      (r.Some? ==> r.value == processed)
    ensures meta.prefix.Some? && shortcutPrefix.None? ==>
      (r.Some? <==> exists p :: p in meta.prefix.value && StartsWith(processed, p)) &&
      (r.Some? ==> exists p :: p in meta.prefix.value && processed == p + r.value)
  {
    match meta.prefix
    case None => Some(processed)
    case Some(ps) =>
      match shortcutPrefix
      case Some(sps) =>
        if exists p :: p in ps && p in sps then Some(processed) else None
      case None =>
        match FirstPrefix(ps, processed)
        case None => None
        case Some(p) =>
          assert processed == p + processed[|p|..];
          Some(processed[|p|..])
  }

  /** What one dynamic rule yields for a branch; `None` moves on to the next rule. */
  function TryRule(c: Config, rule: DynamicRule, b: Branch, ctx: RuleCtx, internal: bool, shortcutPrefix: Option<seq<string>>): (r: Option<seq<Parsed>>)
    ensures r.Some? ==> |r.value| > 0
  {
    if rule.meta.internal && !internal then None
    else
      match Unprefixed(rule.meta, b.current, shortcutPrefix)
      case None => None
      case Some(u) =>
        match rule.matcher(u)
        case None => None
        case Some(m) => Resolve(c.virtualKey, b.raw, rule.handler(m, ctx), rule.index, rule.meta, b.handlers)
  }

  /** The result of the first rule of `rules` that yields something. */
  function FirstRule(c: Config, rules: seq<DynamicRule>, b: Branch, ctx: RuleCtx, internal: bool, sp: Option<seq<string>>): (r: Option<seq<Parsed>>)
    ensures r.Some? ==> |r.value| > 0
    ensures r.None? <==> forall i :: 0 <= i < |rules| ==> TryRule(c, rules[i], b, ctx, internal, sp).None?
  {
    if |rules| == 0 then None
    else
      var here := TryRule(c, rules[0], b, ctx, internal, sp);
      if here.Some? then here
      else
        assert forall i :: 1 <= i < |rules| ==> rules[i] == rules[1..][i - 1];
        FirstRule(c, rules[1..], b, ctx, internal, sp)
  }

  /** When rule `j` is the first that yields something, its result is the one picked. */
  lemma {:induction false} FirstRuleAt(c: Config, rules: seq<DynamicRule>, b: Branch, ctx: RuleCtx, internal: bool, sp: Option<seq<string>>, j: nat)
    requires j < |rules| && TryRule(c, rules[j], b, ctx, internal, sp).Some?
    requires forall k :: 0 <= k < j ==> TryRule(c, rules[k], b, ctx, internal, sp).None?
    ensures FirstRule(c, rules, b, ctx, internal, sp) == TryRule(c, rules[j], b, ctx, internal, sp)
    decreases j
  {
    if j > 0 {
      assert TryRule(c, rules[0], b, ctx, internal, sp).None?;
      forall k | 0 <= k < j - 1
        ensures TryRule(c, rules[1..][k], b, ctx, internal, sp).None?
      {
        assert rules[1..][k] == rules[k + 1];
      }
      FirstRuleAt(c, rules[1..], b, ctx, internal, sp, j - 1);
      assert rules[1..][j - 1] == rules[j];
    }
  }

  /**
   * The static rule for the selector applies: it exists and is visible from
   * here. The source also tests that the rule's body is truthy; a
   * `StaticRule` always carries a body (a list of CSS values, and even an
   * empty list is truthy), so that test always passes.
   */
  predicate StaticApplies(c: Config, processed: string, internal: bool) {
    processed in c.rulesStatic && (internal || !c.rulesStatic[processed].meta.internal)
  }

  /** `parse` inside `parseUtil`: the static rule first, then the dynamic rules in order. */
  function ParseBranch(c: Config, b: Branch, ctx: RuleCtx, internal: bool, sp: Option<seq<string>>): (r: Option<seq<Parsed>>)
    ensures r.Some? ==> |r.value| > 0
  {
    if StaticApplies(c, b.current, internal) then
      var st := c.rulesStatic[b.current];
      Resolve(c.virtualKey, b.raw, st.body, st.index, st.meta, b.handlers)
    else FirstRule(c, c.rulesDynamic, b, ctx, internal, sp)
  }

  function ParseBranches(c: Config, bs: seq<Branch>, ctx: RuleCtx, internal: bool, sp: Option<seq<string>>): seq<Parsed> {
    if |bs| == 0 then []
    else ParseBranch(c, bs[0], ctx, internal, sp).GetOr([]) + ParseBranches(c, bs[1..], ctx, internal, sp)
  }

  /** The branches from `j` on: branch `j`'s utilities, then the rest's. */
  lemma ParseBranchesFrom(c: Config, bs: seq<Branch>, j: nat, ctx: RuleCtx, internal: bool, sp: Option<seq<string>>)
    requires j < |bs|
    ensures ParseBranches(c, bs[j..], ctx, internal, sp) ==
      ParseBranch(c, bs[j], ctx, internal, sp).GetOr([]) + ParseBranches(c, bs[j + 1..], ctx, internal, sp)
  {
    assert bs[j..][1..] == bs[j + 1..];
  }

  /** The input of `parseUtil`: a token still to be matched, or one matched branch. */
  datatype ParseInput = FromToken(token: string) | FromBranch(branch: Branch)

  /** `parseUtil`: all branches' utilities, or nothing when none parses. */
  function ParseUtil(c: Config, input: ParseInput, ctx: RuleCtx, internal: bool, sp: Option<seq<string>>): Result<Option<seq<Parsed>>> {
    var bs :- match input
      case FromToken(t) => MatchVariants(c, t, "")
      case FromBranch(b) => Ok([b]);
    var parsed := ParseBranches(c, bs, ctx, internal, sp);
    if |parsed| == 0 then Ok(None) else Ok(Some(parsed))
  }

  /** An applicable static rule shadows every dynamic rule. */
  lemma StaticShadowsDynamic(c: Config, ds: seq<DynamicRule>, b: Branch, ctx: RuleCtx, internal: bool, sp: Option<seq<string>>)
    requires StaticApplies(c, b.current, internal)
    ensures ParseBranch(c, b, ctx, internal, sp) == ParseBranch(c.(rulesDynamic := ds), b, ctx, internal, sp)
  {}

  function PublicRules(rules: seq<DynamicRule>): (r: seq<DynamicRule>)
    ensures forall i :: 0 <= i < |r| ==> !r[i].meta.internal
  {
    if |rules| == 0 then []
    else if rules[0].meta.internal then PublicRules(rules[1..])
    else [rules[0]] + PublicRules(rules[1..])
  }

  /** Outside shortcuts, internal rules are invisible: dropping them changes nothing. */
  lemma {:induction false} InternalRulesHidden(c: Config, rules: seq<DynamicRule>, b: Branch, ctx: RuleCtx, sp: Option<seq<string>>)
    ensures FirstRule(c, rules, b, ctx, false, sp) == FirstRule(c, PublicRules(rules), b, ctx, false, sp)
  {
    if |rules| > 0 {
      InternalRulesHidden(c, rules[1..], b, ctx, sp);
      if !rules[0].meta.internal {
        assert ([rules[0]] + PublicRules(rules[1..]))[1..] == PublicRules(rules[1..]);
      }
    }
  }

  /**
   * Parsing a matched branch yields utilities exactly when some branch
   * parses, and those come from the branches in order.
   */
  lemma {:induction false} ParseBranchesEmpty(c: Config, bs: seq<Branch>, ctx: RuleCtx, internal: bool, sp: Option<seq<string>>)
    ensures |ParseBranches(c, bs, ctx, internal, sp)| == 0 <==>
      forall i :: 0 <= i < |bs| ==> ParseBranch(c, bs[i], ctx, internal, sp).None?
  {
    if |bs| > 0 {
      ParseBranchesEmpty(c, bs[1..], ctx, internal, sp);
      assert forall i :: 1 <= i < |bs| ==> bs[i] == bs[1..][i - 1];
    }
  }
}
