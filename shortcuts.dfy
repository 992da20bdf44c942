/**
 * Shortcut expansion (`expandShortcut`): the first shortcut that matches
 * gives a list of utilities (split on white space, deduplicated) and inline
 * CSS values; when none matches, the token's variants are peeled off, the
 * rest is expanded, and the variant text is put back in front of each
 * result. Every string result is itself expanded again, one level deeper,
 * up to the depth limit.
 */
module Shortcuts {
  import opened Wrappers
  import opened Text
  import opened Config
  import opened Variants
  import opened Rules

  /** An expansion item: a utility, or an inline CSS value with its own variant handlers. */
  datatype Item = SItem(s: string) | InlineItem(handles: seq<Handler>, entries: Entries)

  datatype Expansion = Expansion(items: seq<Item>, meta: Option<RuleMeta>)

  /** The shortcut the scan stopped at: its result (possibly falsy) and meta. */
  datatype Found = Found(result: ShortcutResult, meta: Option<RuleMeta>)

  /** The depth `expandShortcut` is called with by default. */
  const DefaultDepth: nat := 5

  /** The input a shortcut is matched against: with its first matching prefix stripped, or skipped. */
  function ShortcutInput(s: Shortcut, input: string): (r: Option<string>)
    ensures (s.meta.None? || s.meta.value.prefix.None?) ==> r == Some(input)
    ensures s.meta.Some? && s.meta.value.prefix.Some? ==>
      (r.None? <==> forall p :: p in s.meta.value.prefix.value ==> !StartsWith(input, p))
  {
    if s.meta.Some? && s.meta.value.prefix.Some? then
      match FirstPrefix(s.meta.value.prefix.value, input)
      case None => None
      case Some(p) => Some(input[|p|..])
    else Some(input)
  }

  /**
   * Whether the scan stops at shortcut `s`: a static shortcut stops it on an
   * exact match whatever its value, a dynamic one only with a truthy result.
   */
  function TryShortcut(s: Shortcut, input: string, ctx: RuleCtx): (r: Option<Found>)
    ensures s.StaticShortcut? ==> (r.Some? <==> ShortcutInput(s, input) == Some(s.key))
    ensures s.DynamicShortcut? && r.Some? ==> Truthy(r.value.result)
    ensures r.Some? ==> r.value.meta == s.meta
  {
    match ShortcutInput(s, input)
    case None => None
    case Some(u) =>
      match s
      case StaticShortcut(key, value, meta) => if key == u then Some(Found(value, meta)) else None
      case DynamicShortcut(matcher, handler, meta) =>
        match matcher(u)
        case None => None
        case Some(m) =>
          match handler(m, ctx)
          case None => None
          case Some(res) => if Truthy(res) then Some(Found(res, meta)) else None
  }

  /** The first shortcut the scan stops at. */
  function FindShortcut(ss: seq<Shortcut>, input: string, ctx: RuleCtx): (r: Option<Found>)
    ensures r.None? <==> forall i :: 0 <= i < |ss| ==> TryShortcut(ss[i], input, ctx).None?
    ensures r.Some? ==> exists i :: (0 <= i < |ss| && TryShortcut(ss[i], input, ctx) == r &&
      forall j :: 0 <= j < i ==> TryShortcut(ss[j], input, ctx).None?)
  {
    if |ss| == 0 then None
    else
      var here := TryShortcut(ss[0], input, ctx);
      if here.Some? then here
      else
        var r := FindShortcut(ss[1..], input, ctx);
        assert r.Some? ==> exists i :: (0 <= i < |ss| && TryShortcut(ss[i], input, ctx) == r &&
          forall j :: 0 <= j < i ==> TryShortcut(ss[j], input, ctx).None?) by {
          if r.Some? {
            var i :| 0 <= i < |ss[1..]| && TryShortcut(ss[1..][i], input, ctx) == r &&
              forall j :: 0 <= j < i ==> TryShortcut(ss[1..][j], input, ctx).None?;
            assert TryShortcut(ss[i + 1], input, ctx) == r;
            assert forall j :: 1 <= j < i + 1 ==> ss[j] == ss[1..][j - 1];
          }
        }
        assert r.None? ==> forall i :: 0 <= i < |ss| ==> TryShortcut(ss[i], input, ctx).None? by {
          assert forall j :: 1 <= j < |ss| ==> ss[j] == ss[1..][j - 1];
        }
        r
  }

  function StringsOf(r: ShortcutResult): seq<string> {
    match r
    case Plain(s) => [s]
    case Values(vs) => TokensOf(vs)
  }

  function TokensOf(vs: seq<ShortcutValue>): seq<string> {
    if |vs| == 0 then []
    else (if vs[0].Token? then [vs[0].s] else []) + TokensOf(vs[1..])
  }

  function InlinesOf(r: ShortcutResult): (items: seq<Item>)
    ensures forall i :: 0 <= i < |items| ==> items[i].InlineItem? && items[i].handles == []
  {
    match r
    case Plain(_) => []
    case Values(vs) => InlineValues(vs)
  }

  function InlineValues(vs: seq<ShortcutValue>): (items: seq<Item>)
    ensures forall i :: 0 <= i < |items| ==> items[i].InlineItem? && items[i].handles == []
  {
    if |vs| == 0 then []
    else (if vs[0].InlineCss? then [InlineItem([], vs[0].entries)] else []) + InlineValues(vs[1..])
  }

  /** Each string trimmed, its variant groups expanded and split on white space. */
  function SplitAll(c: Config, strs: seq<string>): (r: seq<string>)
    ensures forall i :: 0 <= i < |r| ==> NoWs(r[i])
  {
    if |strs| == 0 then []
    else SplitWs(c.expandVariantGroup(Trim(strs[0]))) + SplitAll(c, strs[1..])
  }

  /** The utilities a matched shortcut lists: split on white space and deduplicated. */
  function Candidates(c: Config, r: ShortcutResult): (strs: seq<string>)
    ensures NoDup(strs)
    ensures forall i :: 0 <= i < |strs| ==> NoWs(strs[i])
  {
    var all := SplitAll(c, StringsOf(r));
    var u := Uniq(all);
    assert forall i :: 0 <= i < |u| ==> u[i] in all;
    u
  }

  /** The results of expanding a branch's residual, with the branch's variant text put back. */
  function Reattach(b: Branch, items: seq<Item>): seq<string> {
    if |items| == 0 then []
    else (if items[0].SItem? then [ReplaceFirst(b.raw, b.current, items[0].s)] else []) + Reattach(b, items[1..])
  }

  /** The inline values of a residual's expansion, the branch's handlers appended to theirs. */
  function Rehandle(b: Branch, items: seq<Item>): (r: seq<Item>)
    ensures forall i :: 0 <= i < |r| ==> r[i].InlineItem?
  {
    if |items| == 0 then []
    else if items[0].InlineItem? then [InlineItem(items[0].handles + b.handlers, items[0].entries)] + Rehandle(b, items[1..])
    else Rehandle(b, items[1..])
  }

  /** `filter(x => !!x)`: drops empty strings. */
  function Keep(items: seq<Item>): (r: seq<Item>)
    ensures forall i :: 0 <= i < |r| ==> r[i].SItem? ==> r[i].s != ""
  {
    if |items| == 0 then []
    else if items[0].SItem? && items[0].s == "" then Keep(items[1..])
    else [items[0]] + Keep(items[1..])
  }

  /** `expandShortcut(input, context, depth)`. */
  function ExpandShortcut(c: Config, input: string, ctx: RuleCtx, depth: nat): (r: Result<Option<Expansion>>)
    decreases depth, 2, 0
  {
    if depth == 0 then Ok(None)
    else
      var found := FindShortcut(c.shortcuts, input, ctx);
      var meta := if found.Some? then found.value.meta else None;
      if found.Some? && Truthy(found.value.result) then
        Finish(c, Candidates(c, found.value.result), InlinesOf(found.value.result), meta, ctx, depth - 1)
      else
        var bs :- MatchVariants(c, input, "");
        var pair :- FromVariants(c, bs, ctx, depth - 1, [], []);
        Finish(c, pair.0, pair.1, meta, ctx, depth - 1)
  }

  /**
   * The nested expansion through variants: for each branch whose residual
   * differs from the raw token, expand the residual; the last branch that
   * expands decides the results.
   */
  function FromVariants(c: Config, bs: seq<Branch>, ctx: RuleCtx, d: nat, strs: seq<string>, inl: seq<Item>): Result<(seq<string>, seq<Item>)>
    decreases d + 1, 0, |bs|
  {
    if |bs| == 0 then Ok((strs, inl))
    else
      var b := bs[0];
      if b.raw != b.current then
        var e :- ExpandShortcut(c, b.current, ctx, d);
        if e.Some? then FromVariants(c, bs[1..], ctx, d, Reattach(b, e.value.items), Rehandle(b, e.value.items))
        else FromVariants(c, bs[1..], ctx, d, strs, inl)
      else FromVariants(c, bs[1..], ctx, d, strs, inl)
  }

  /** The end of `expandShortcut`: nothing when there are no results, else each string re-expanded one level deeper. */
  function Finish(c: Config, strs: seq<string>, inl: seq<Item>, meta: Option<RuleMeta>, ctx: RuleCtx, d: nat): Result<Option<Expansion>>
    decreases d + 1, 1, 0
  {
    if |strs| == 0 && |inl| == 0 then Ok(None)
    else
      var expanded :- ExpandEach(c, strs, ctx, d);
      Ok(Some(Expansion(Keep(expanded + inl), meta)))
  }

  /** Each string's own expansion, or the string itself when it does not expand. */
  function ExpandEach(c: Config, strs: seq<string>, ctx: RuleCtx, d: nat): Result<seq<Item>>
    decreases d + 1, 0, |strs|
  {
    if |strs| == 0 then Ok([])
    else
      var e :- ExpandShortcut(c, strs[0], ctx, d);
      var rest :- ExpandEach(c, strs[1..], ctx, d);
      Ok((if e.Some? then e.value.items else [SItem(strs[0])]) + rest)
  }

  function SItems(strs: seq<string>): (r: seq<Item>)
    ensures |r| == |strs|
    ensures forall i :: 0 <= i < |strs| ==> r[i] == SItem(strs[i])
  {
    if |strs| == 0 then [] else [SItem(strs[0])] + SItems(strs[1..])
  }

  /** Depth zero expands nothing. */
  lemma ExpandDepthZero(c: Config, input: string, ctx: RuleCtx)
    ensures ExpandShortcut(c, input, ctx, 0) == Ok(None)
  {}

  /** At the last level, no string is expanded further: each stands for itself. */
  lemma {:induction false} ExpandEachLastLevel(c: Config, strs: seq<string>, ctx: RuleCtx)
    ensures ExpandEach(c, strs, ctx, 0) == Ok(SItems(strs))
  {
    if |strs| > 0 {
      ExpandEachLastLevel(c, strs[1..], ctx);
      assert SItems(strs) == [SItem(strs[0])] + SItems(strs[1..]);
    }
  }

  /**
   * A shortcut matched one level above the depth limit yields its utilities,
   * deduplicated and in order, without empty strings, followed by its inline
   * values, together with its meta.
   */
  lemma ExpandMatchedLastLevel(c: Config, input: string, ctx: RuleCtx)
    requires FindShortcut(c.shortcuts, input, ctx).Some?
    requires Truthy(FindShortcut(c.shortcuts, input, ctx).value.result)
    ensures var f := FindShortcut(c.shortcuts, input, ctx).value;
      var strs := Candidates(c, f.result);
      var inl := InlinesOf(f.result);
      ExpandShortcut(c, input, ctx, 1) ==
        if |strs| == 0 && |inl| == 0 then Ok(None)
        else Ok(Some(Expansion(Keep(SItems(strs) + inl), f.meta)))
  {
    var f := FindShortcut(c.shortcuts, input, ctx).value;
    ExpandEachLastLevel(c, Candidates(c, f.result), ctx);
  }

  /**
   * A token that no shortcut matches and from which no variant peels
   * anything expands to nothing.
   */
  lemma ExpandNothingMatches(c: Config, input: string, ctx: RuleCtx, depth: nat)
    requires depth > 0
    requires FindShortcut(c.shortcuts, input, ctx).None?
    requires Terminal(c, Branch(input, input, [], {}))
    ensures ExpandShortcut(c, input, ctx, depth) == Ok(None)
  {
    var b := Branch(input, input, [], {});
    assert MatchVariants(c, input, "") == Ok([b]);
    assert FromVariants(c, [b][1..], ctx, depth - 1, [], []) == Ok(([], []));
    assert FromVariants(c, [b], ctx, depth - 1, [], []) == Ok(([], []));
  }

  /** Every result of an expansion that is a string is a non-empty one. */
  lemma ExpandNonEmptyStrings(c: Config, input: string, ctx: RuleCtx, depth: nat)
    ensures var r := ExpandShortcut(c, input, ctx, depth);
      r.Ok? && r.value.Some? ==> forall i :: 0 <= i < |r.value.value.items| ==>
        r.value.value.items[i].SItem? ==> r.value.value.items[i].s != ""
  {}
  // ---------------------------------------------------------------------
  // Nested expansion through variants, at any depth

  /** Each string of a residual's expansion comes back with the branch's variant text around it. */
  lemma {:induction false} ReattachMembers(b: Branch, items: seq<Item>)
    ensures forall s :: s in Reattach(b, items) <==>
      exists i :: 0 <= i < |items| && items[i].SItem? && s == ReplaceFirst(b.raw, b.current, items[i].s)
  {
    if |items| > 0 {
      ReattachMembers(b, items[1..]);
      var head := if items[0].SItem? then [ReplaceFirst(b.raw, b.current, items[0].s)] else [];
      assert Reattach(b, items) == head + Reattach(b, items[1..]);
      forall s | s in Reattach(b, items)
        ensures exists i :: 0 <= i < |items| && items[i].SItem? && s == ReplaceFirst(b.raw, b.current, items[i].s)
      {
        if s !in head {
          var i :| 0 <= i < |items[1..]| && items[1..][i].SItem? && s == ReplaceFirst(b.raw, b.current, items[1..][i].s);
          assert items[i + 1] == items[1..][i];
        }
      }
      forall s | exists i :: 0 <= i < |items| && items[i].SItem? && s == ReplaceFirst(b.raw, b.current, items[i].s)
        ensures s in Reattach(b, items)
      {
        var i :| 0 <= i < |items| && items[i].SItem? && s == ReplaceFirst(b.raw, b.current, items[i].s);
        if i > 0 {
          assert items[1..][i - 1] == items[i];
        }
      }
    }
  }

  /** Each inline value of a residual's expansion keeps its handlers, the branch's after them. */
  lemma {:induction false} RehandleMembers(b: Branch, items: seq<Item>)
    ensures forall x :: x in Rehandle(b, items) <==>
      exists i :: 0 <= i < |items| && items[i].InlineItem? && x == InlineItem(items[i].handles + b.handlers, items[i].entries)
  {
    if |items| > 0 {
      RehandleMembers(b, items[1..]);
      var head := if items[0].InlineItem? then [InlineItem(items[0].handles + b.handlers, items[0].entries)] else [];
      assert Rehandle(b, items) == head + Rehandle(b, items[1..]);
      forall x | x in Rehandle(b, items)
        ensures exists i :: 0 <= i < |items| && items[i].InlineItem? && x == InlineItem(items[i].handles + b.handlers, items[i].entries)
      {
        if x !in head {
          var i :| 0 <= i < |items[1..]| && items[1..][i].InlineItem? && x == InlineItem(items[1..][i].handles + b.handlers, items[1..][i].entries);
          assert items[i + 1] == items[1..][i];
        }
      }
      forall x | exists i :: 0 <= i < |items| && items[i].InlineItem? && x == InlineItem(items[i].handles + b.handlers, items[i].entries)
        ensures x in Rehandle(b, items)
      {
        var i :| 0 <= i < |items| && items[i].InlineItem? && x == InlineItem(items[i].handles + b.handlers, items[i].entries);
        if i > 0 {
          assert items[1..][i - 1] == items[i];
        }
      }
    }
  }

  /** The expansions of the branches' residuals at depth `d`, in order. */
  function Residuals(c: Config, bs: seq<Branch>, ctx: RuleCtx, d: nat): (es: seq<Result<Option<Expansion>>>)
    ensures |es| == |bs|
  {
    if |bs| == 0 then [] else [ExpandShortcut(c, bs[0].current, ctx, d)] + Residuals(c, bs[1..], ctx, d)
  }

  /** Entry `j` of the residual expansions is the expansion of branch `j`'s residual. */
  lemma {:induction false} ResidualsAt(c: Config, bs: seq<Branch>, ctx: RuleCtx, d: nat, j: nat)
    requires j < |bs|
    ensures Residuals(c, bs, ctx, d)[j] == ExpandShortcut(c, bs[j].current, ctx, d)
  {
    if j > 0 {
      ResidualsAt(c, bs[1..], ctx, d, j - 1);
    }
  }

  /** A branch that peels a variant off and whose residual expands to something. */
  predicate Expanding(b: Branch, e: Result<Option<Expansion>>) {
    b.raw != b.current && e.Ok? && e.value.Some?
  }

  /** No branch that peels a variant off has a residual whose expansion fails. */
  predicate NoFailure(bs: seq<Branch>, es: seq<Result<Option<Expansion>>>)
    requires |es| == |bs|
  {
    forall j :: 0 <= j < |bs| ==> bs[j].raw != bs[j].current ==> es[j].Ok?
  }

  /** Branch `k` is the last that is expanding. */
  predicate LastExpanding(bs: seq<Branch>, es: seq<Result<Option<Expansion>>>, k: nat)
    requires |es| == |bs|
  {
    k < |bs| && Expanding(bs[k], es[k]) && forall j :: k < j < |bs| ==> !Expanding(bs[j], es[j])
  }

  /**
   * The loop over the branches with the residual expansions given as data:
   * an expanding branch replaces the results so far by its own, a failing
   * one stops with its error, any other leaves them.
   */
  function Pick(bs: seq<Branch>, es: seq<Result<Option<Expansion>>>, strs: seq<string>, inl: seq<Item>): Result<(seq<string>, seq<Item>)>
    requires |es| == |bs|
  {
    if |bs| == 0 then Ok((strs, inl))
    else if bs[0].raw != bs[0].current && es[0].Err? then Err(es[0].error)
    else if Expanding(bs[0], es[0]) then Pick(bs[1..], es[1..], Reattach(bs[0], es[0].value.value.items), Rehandle(bs[0], es[0].value.value.items))
    else Pick(bs[1..], es[1..], strs, inl)
  }

  /** The nested expansion is that loop over the residuals' own expansions. */
  lemma {:induction false} FromVariantsPicks(c: Config, bs: seq<Branch>, ctx: RuleCtx, d: nat, strs: seq<string>, inl: seq<Item>)
    ensures FromVariants(c, bs, ctx, d, strs, inl) == Pick(bs, Residuals(c, bs, ctx, d), strs, inl)
    decreases |bs|
  {
    if |bs| > 0 {
      var e := ExpandShortcut(c, bs[0].current, ctx, d);
      var es := Residuals(c, bs, ctx, d);
      assert es[0] == e && es[1..] == Residuals(c, bs[1..], ctx, d);
      if Expanding(bs[0], e) {
        FromVariantsPicks(c, bs[1..], ctx, d, Reattach(bs[0], e.value.value.items), Rehandle(bs[0], e.value.value.items));
      } else {
        FromVariantsPicks(c, bs[1..], ctx, d, strs, inl);
      }
    }
  }

  /** The loop fails exactly when some branch that peels a variant off has a failing residual. */
  lemma {:induction false} PickFails(bs: seq<Branch>, es: seq<Result<Option<Expansion>>>, strs: seq<string>, inl: seq<Item>)
    requires |es| == |bs|
    ensures Pick(bs, es, strs, inl).Err? <==> !NoFailure(bs, es)
    decreases |bs|
  {
    if |bs| > 0 {
      if Expanding(bs[0], es[0]) {
        PickFails(bs[1..], es[1..], Reattach(bs[0], es[0].value.value.items), Rehandle(bs[0], es[0].value.value.items));
      } else {
        PickFails(bs[1..], es[1..], strs, inl);
      }
      if !NoFailure(bs[1..], es[1..]) {
        var j :| 0 <= j < |bs[1..]| && bs[1..][j].raw != bs[1..][j].current && !es[1..][j].Ok?;
        assert bs[j + 1] == bs[1..][j] && es[j + 1] == es[1..][j];
      }
      if !NoFailure(bs, es) && (bs[0].raw == bs[0].current || es[0].Ok?) {
        var j :| 0 <= j < |bs| && bs[j].raw != bs[j].current && !es[j].Ok?;
        assert bs[1..][j - 1] == bs[j] && es[1..][j - 1] == es[j];
      }
    }
  }

  /** When no branch is expanding and none fails, the results passed in are the results. */
  lemma {:induction false} PickNone(bs: seq<Branch>, es: seq<Result<Option<Expansion>>>, strs: seq<string>, inl: seq<Item>)
    requires |es| == |bs| && NoFailure(bs, es)
    requires forall j :: 0 <= j < |bs| ==> !Expanding(bs[j], es[j])
    ensures Pick(bs, es, strs, inl) == Ok((strs, inl))
    decreases |bs|
  {
    if |bs| > 0 {
      assert !Expanding(bs[0], es[0]);
      PickNone(bs[1..], es[1..], strs, inl);
    }
  }

  /**
   * The last expanding branch decides the results: its residual's strings
   * with its variant text put back, and its inline values with its
   * handlers appended.
   */
  lemma {:induction false} PickLastWins(bs: seq<Branch>, es: seq<Result<Option<Expansion>>>, strs: seq<string>, inl: seq<Item>, k: nat)
    requires |es| == |bs| && NoFailure(bs, es) && LastExpanding(bs, es, k)
    ensures Pick(bs, es, strs, inl) == Ok((Reattach(bs[k], es[k].value.value.items), Rehandle(bs[k], es[k].value.value.items)))
    decreases |bs|
  {
    var strs', inl' := strs, inl;
    if Expanding(bs[0], es[0]) {
      strs', inl' := Reattach(bs[0], es[0].value.value.items), Rehandle(bs[0], es[0].value.value.items);
    }
    assert Pick(bs, es, strs, inl) == Pick(bs[1..], es[1..], strs', inl');
    if k == 0 {
      PickNone(bs[1..], es[1..], strs', inl');
    } else {
      PickLastWins(bs[1..], es[1..], strs', inl', k - 1);
    }
  }

  /** The meta of the shortcut found for a token, if any. */
  function FoundMeta(c: Config, input: string, ctx: RuleCtx): Option<RuleMeta> {
    var found := FindShortcut(c.shortcuts, input, ctx);
    if found.Some? then found.value.meta else None
  }

  /** A token no shortcut matches, whose variant match gives branches `bs`. */
  ghost predicate Unmatched(c: Config, input: string, ctx: RuleCtx, bs: seq<Branch>) {
    && !(FindShortcut(c.shortcuts, input, ctx).Some? && Truthy(FindShortcut(c.shortcuts, input, ctx).value.result))
    && MatchVariants(c, input, "") == Ok(bs)
  }

  /** A token no shortcut matches is finished with the results of the loop over its branches. */
  lemma ExpandUnmatched(c: Config, input: string, ctx: RuleCtx, depth: nat, bs: seq<Branch>)
    requires depth > 0 && Unmatched(c, input, ctx, bs)
    ensures var p := Pick(bs, Residuals(c, bs, ctx, depth - 1), [], []);
      && (p.Err? ==> ExpandShortcut(c, input, ctx, depth) == Err(p.error))
      && (p.Ok? ==> ExpandShortcut(c, input, ctx, depth) == Finish(c, p.value.0, p.value.1, FoundMeta(c, input, ctx), ctx, depth - 1))
  {
    FromVariantsPicks(c, bs, ctx, depth - 1, [], []);
  }

  /**
   * At any depth, a token no shortcut matches is expanded through its
   * variants: the last branch whose residual expands one level deeper gives
   * the results, each string being the raw token with the residual replaced
   * by a string of the residual's expansion, and each inline value carrying
   * its own handlers followed by the branch's; those results are then
   * re-expanded one level deeper.
   */
  lemma ExpandThroughVariants(c: Config, input: string, ctx: RuleCtx, depth: nat, bs: seq<Branch>, k: nat)
    requires depth > 0 && Unmatched(c, input, ctx, bs)
    requires NoFailure(bs, Residuals(c, bs, ctx, depth - 1)) && LastExpanding(bs, Residuals(c, bs, ctx, depth - 1), k)
    ensures var e := Residuals(c, bs, ctx, depth - 1)[k].value.value;
      ExpandShortcut(c, input, ctx, depth) == Finish(c, Reattach(bs[k], e.items), Rehandle(bs[k], e.items), FoundMeta(c, input, ctx), ctx, depth - 1)
  {
    PickLastWins(bs, Residuals(c, bs, ctx, depth - 1), [], [], k);
    ExpandUnmatched(c, input, ctx, depth, bs);
  }

  /** At any depth, a token no shortcut matches, none of whose residuals expands or fails, expands to nothing. */
  lemma ExpandNoResidualExpands(c: Config, input: string, ctx: RuleCtx, depth: nat, bs: seq<Branch>)
    requires depth > 0 && Unmatched(c, input, ctx, bs)
    requires NoFailure(bs, Residuals(c, bs, ctx, depth - 1))
    requires forall j :: 0 <= j < |bs| ==> !Expanding(bs[j], Residuals(c, bs, ctx, depth - 1)[j])
    ensures ExpandShortcut(c, input, ctx, depth) == Ok(None)
  {
    PickNone(bs, Residuals(c, bs, ctx, depth - 1), [], []);
    ExpandUnmatched(c, input, ctx, depth, bs);
  }

  /** At any depth, a token no shortcut matches fails exactly when a residual's expansion fails. */
  lemma ExpandFailsThroughVariants(c: Config, input: string, ctx: RuleCtx, depth: nat, bs: seq<Branch>)
    requires depth > 0 && Unmatched(c, input, ctx, bs)
    ensures !NoFailure(bs, Residuals(c, bs, ctx, depth - 1)) ==> ExpandShortcut(c, input, ctx, depth).Err?
  {
    PickFails(bs, Residuals(c, bs, ctx, depth - 1), [], []);
    ExpandUnmatched(c, input, ctx, depth, bs);
  }

  /**
   * Every string is re-expanded one level deeper: the whole fails exactly
   * when one string's expansion fails; otherwise a string that does not
   * expand stands for itself, and one that does contributes all its items.
   */
  lemma {:induction false} ExpandEachMembers(c: Config, strs: seq<string>, ctx: RuleCtx, d: nat)
    ensures ExpandEach(c, strs, ctx, d).Ok? <==> forall i :: 0 <= i < |strs| ==> ExpandShortcut(c, strs[i], ctx, d).Ok?
    ensures ExpandEach(c, strs, ctx, d).Ok? ==> forall i :: 0 <= i < |strs| ==>
      && (ExpandShortcut(c, strs[i], ctx, d).value.None? ==> SItem(strs[i]) in ExpandEach(c, strs, ctx, d).value)
      && (ExpandShortcut(c, strs[i], ctx, d).value.Some? ==> forall it :: it in ExpandShortcut(c, strs[i], ctx, d).value.value.items ==> it in ExpandEach(c, strs, ctx, d).value)
    decreases |strs|
  {
    if |strs| > 0 {
      ExpandEachMembers(c, strs[1..], ctx, d);
      forall i | 1 <= i < |strs|
        ensures strs[1..][i - 1] == strs[i]
      {
      }
    }
  }
}
