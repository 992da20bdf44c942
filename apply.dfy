/**
 * Applying variant handlers (`applyVariants`) and stringifying one parsed
 * utility (`stringifyUtil`). The handlers are sorted by `order` and composed
 * with `reduceRight`; `Steps` is the same composition read as handlers
 * applied one after another, and `ReduceRightIsSteps` proves the two agree.
 */
module Apply {
  import opened Wrappers
  import opened Config
  import opened Sorting

  /** The variant handler context, less the prefix and pseudo parts no handler here changes. */
  datatype VCtx = VCtx(
    selector: string,
    entries: Entries,
    parent: Option<string>,
    parentOrder: Option<int>,
    layer: Option<string>,
    sort: Option<int>)

  predicate TruthyStr(o: Option<string>) { o.Some? && o.value != "" }

  predicate TruthyInt(o: Option<int>) { o.Some? && o.value != 0 }

  function OrElse<T>(a: Option<T>, b: Option<T>): Option<T> {
    if a.Some? then a else b
  }

  /** The context one handler hands on (through the default handle) to the handlers after it. */
  function HandlerStep(h: Handler, x: VCtx): VCtx {
    var entries := if h.body.Some? then h.body.value(x.entries).GetOr(x.entries) else x.entries;
    var selector := if h.selector.Some? then h.selector.value(x.selector, entries) else "";
    VCtx(
      if selector != "" then selector else x.selector,
      entries,
      if TruthyStr(h.parent) then h.parent else x.parent,
      if TruthyInt(h.parentOrder) then h.parentOrder else x.parentOrder,
      if TruthyStr(h.layer) then h.layer else x.layer,
      if TruthyInt(h.sort) then h.sort else x.sort)
  }

  /** The reducer of `reduceRight`: wrap the composition built so far behind one handler. */
  function Wrap(h: Handler, previous: VCtx -> VCtx): VCtx -> VCtx {
    (x: VCtx) => previous(HandlerStep(h, x))
  }

  /** `hs.reduceRight(Wrap, acc)`. */
  function ReduceRight(hs: seq<Handler>, acc: VCtx -> VCtx): VCtx -> VCtx {
    if |hs| == 0 then acc
    else ReduceRight(hs[..|hs| - 1], Wrap(hs[|hs| - 1], acc))
  }

  function Identity(): VCtx -> VCtx {
    (x: VCtx) => x
  }

  /** The handlers applied to a context one after another, first to last. */
  function Steps(hs: seq<Handler>, x: VCtx): VCtx {
    if |hs| == 0 then x
    else HandlerStep(hs[|hs| - 1], Steps(hs[..|hs| - 1], x))
  }

  /** The composition `reduceRight` builds applies the handlers first to last. */
  lemma {:induction false} ReduceRightIsSteps(hs: seq<Handler>, acc: VCtx -> VCtx, x: VCtx)
    ensures ReduceRight(hs, acc)(x) == acc(Steps(hs, x))
  {
    if |hs| > 0 {
      var init, last := hs[..|hs| - 1], hs[|hs| - 1];
      ReduceRightIsSteps(init, Wrap(last, acc), x);
    }
  }

  /** The last non-empty value of `os`, or `dflt` when there is none. */
  function LastStr(os: seq<Option<string>>, dflt: Option<string>): Option<string> {
    if |os| == 0 then dflt
    else if TruthyStr(os[|os| - 1]) then os[|os| - 1]
    else LastStr(os[..|os| - 1], dflt)
  }

  /** The last non-zero value of `os`, or `dflt` when there is none. */
  function LastInt(os: seq<Option<int>>, dflt: Option<int>): Option<int> {
    if |os| == 0 then dflt
    else if TruthyInt(os[|os| - 1]) then os[|os| - 1]
    else LastInt(os[..|os| - 1], dflt)
  }

  lemma {:induction false} LastStrUnset(os: seq<Option<string>>, dflt: Option<string>)
    requires forall i :: 0 <= i < |os| ==> !TruthyStr(os[i])
    ensures LastStr(os, dflt) == dflt
  {
    if |os| > 0 {
      var init := os[..|os| - 1];
      forall i | 0 <= i < |init| ensures !TruthyStr(init[i]) {
        assert init[i] == os[i];
      }
      LastStrUnset(init, dflt);
    }
  }

  lemma {:induction false} LastStrAt(os: seq<Option<string>>, dflt: Option<string>, i: nat)
    requires i < |os| && TruthyStr(os[i])
    requires forall j :: i < j < |os| ==> !TruthyStr(os[j])
    ensures LastStr(os, dflt) == os[i]
  {
    var n := |os| - 1;
    if i < n {
      var init := os[..n];
      assert init[i] == os[i];
      forall j | i < j < |init| ensures !TruthyStr(init[j]) {
        assert init[j] == os[j];
      }
      LastStrAt(init, dflt, i);
    }
  }

  lemma {:induction false} LastIntUnset(os: seq<Option<int>>, dflt: Option<int>)
    requires forall i :: 0 <= i < |os| ==> !TruthyInt(os[i])
    ensures LastInt(os, dflt) == dflt
  {
    if |os| > 0 {
      var init := os[..|os| - 1];
      forall i | 0 <= i < |init| ensures !TruthyInt(init[i]) {
        assert init[i] == os[i];
      }
      LastIntUnset(init, dflt);
    }
  }

  lemma {:induction false} LastIntAt(os: seq<Option<int>>, dflt: Option<int>, i: nat)
    requires i < |os| && TruthyInt(os[i])
    requires forall j :: i < j < |os| ==> !TruthyInt(os[j])
    ensures LastInt(os, dflt) == os[i]
  {
    var n := |os| - 1;
    if i < n {
      var init := os[..n];
      assert init[i] == os[i];
      forall j | i < j < |init| ensures !TruthyInt(init[j]) {
        assert init[j] == os[j];
      }
      LastIntAt(init, dflt, i);
    }
  }

  function Layers(hs: seq<Handler>): (os: seq<Option<string>>)
    ensures |os| == |hs| && forall i :: 0 <= i < |hs| ==> os[i] == hs[i].layer
  {
    seq(|hs|, i requires 0 <= i < |hs| => hs[i].layer)
  }

  function Parents(hs: seq<Handler>): (os: seq<Option<string>>)
    ensures |os| == |hs| && forall i :: 0 <= i < |hs| ==> os[i] == hs[i].parent
  {
    seq(|hs|, i requires 0 <= i < |hs| => hs[i].parent)
  }

  function ParentOrders(hs: seq<Handler>): (os: seq<Option<int>>)
    ensures |os| == |hs| && forall i :: 0 <= i < |hs| ==> os[i] == hs[i].parentOrder
  {
    seq(|hs|, i requires 0 <= i < |hs| => hs[i].parentOrder)
  }

  function Sorts(hs: seq<Handler>): (os: seq<Option<int>>)
    ensures |os| == |hs| && forall i :: 0 <= i < |hs| ==> os[i] == hs[i].sort
  {
    seq(|hs|, i requires 0 <= i < |hs| => hs[i].sort)
  }

  /** Each of the four settings after the handlers is the last one a handler gives. */
  lemma {:induction false} StepsSettings(hs: seq<Handler>, x: VCtx)
    ensures Steps(hs, x).layer == LastStr(Layers(hs), x.layer)
    ensures Steps(hs, x).parent == LastStr(Parents(hs), x.parent)
    ensures Steps(hs, x).parentOrder == LastInt(ParentOrders(hs), x.parentOrder)
    ensures Steps(hs, x).sort == LastInt(Sorts(hs), x.sort)
  {
    if |hs| > 0 {
      var n := |hs| - 1;
      var init := hs[..n];
      StepsSettings(init, x);
      assert Layers(hs)[..n] == Layers(init);
      assert Parents(hs)[..n] == Parents(init);
      assert ParentOrders(hs)[..n] == ParentOrders(init);
      assert Sorts(hs)[..n] == Sorts(init);
    }
  }

  /**
   * The layer is that of the last handler giving a non-empty one, and the
   * initial context's when none does.
   */
  lemma StepsLayer(hs: seq<Handler>, x: VCtx)
    ensures (forall i :: 0 <= i < |hs| ==> !TruthyStr(hs[i].layer)) ==> Steps(hs, x).layer == x.layer
    ensures forall i :: 0 <= i < |hs| && TruthyStr(hs[i].layer) && (forall j :: i < j < |hs| ==> !TruthyStr(hs[j].layer)) ==>
      Steps(hs, x).layer == hs[i].layer
  {
    StepsSettings(hs, x);
    if forall i :: 0 <= i < |hs| ==> !TruthyStr(hs[i].layer) {
      LastStrUnset(Layers(hs), x.layer);
    }
    forall i | 0 <= i < |hs| && TruthyStr(hs[i].layer) && (forall j :: i < j < |hs| ==> !TruthyStr(hs[j].layer))
      ensures Steps(hs, x).layer == hs[i].layer
    {
      LastStrAt(Layers(hs), x.layer, i);
    }
  }

  /** The parent is that of the last handler giving a non-empty one. */
  lemma StepsParent(hs: seq<Handler>, x: VCtx)
    ensures (forall i :: 0 <= i < |hs| ==> !TruthyStr(hs[i].parent)) ==> Steps(hs, x).parent == x.parent
    ensures forall i :: 0 <= i < |hs| && TruthyStr(hs[i].parent) && (forall j :: i < j < |hs| ==> !TruthyStr(hs[j].parent)) ==>
      Steps(hs, x).parent == hs[i].parent
  {
    StepsSettings(hs, x);
    if forall i :: 0 <= i < |hs| ==> !TruthyStr(hs[i].parent) {
      LastStrUnset(Parents(hs), x.parent);
    }
    forall i | 0 <= i < |hs| && TruthyStr(hs[i].parent) && (forall j :: i < j < |hs| ==> !TruthyStr(hs[j].parent))
      ensures Steps(hs, x).parent == hs[i].parent
    {
      LastStrAt(Parents(hs), x.parent, i);
    }
  }

  /** The parent order is that of the last handler giving a non-zero one. */
  lemma StepsParentOrder(hs: seq<Handler>, x: VCtx)
    ensures (forall i :: 0 <= i < |hs| ==> !TruthyInt(hs[i].parentOrder)) ==> Steps(hs, x).parentOrder == x.parentOrder
    ensures forall i :: 0 <= i < |hs| && TruthyInt(hs[i].parentOrder) && (forall j :: i < j < |hs| ==> !TruthyInt(hs[j].parentOrder)) ==>
      Steps(hs, x).parentOrder == hs[i].parentOrder
  {
    StepsSettings(hs, x);
    if forall i :: 0 <= i < |hs| ==> !TruthyInt(hs[i].parentOrder) {
      LastIntUnset(ParentOrders(hs), x.parentOrder);
    }
    forall i | 0 <= i < |hs| && TruthyInt(hs[i].parentOrder) && (forall j :: i < j < |hs| ==> !TruthyInt(hs[j].parentOrder))
      ensures Steps(hs, x).parentOrder == hs[i].parentOrder
    {
      LastIntAt(ParentOrders(hs), x.parentOrder, i);
    }
  }

  /** The sort is that of the last handler giving a non-zero one. */
  lemma StepsSort(hs: seq<Handler>, x: VCtx)
    ensures (forall i :: 0 <= i < |hs| ==> !TruthyInt(hs[i].sort)) ==> Steps(hs, x).sort == x.sort
    ensures forall i :: 0 <= i < |hs| && TruthyInt(hs[i].sort) && (forall j :: i < j < |hs| ==> !TruthyInt(hs[j].sort)) ==>
      Steps(hs, x).sort == hs[i].sort
  {
    StepsSettings(hs, x);
    if forall i :: 0 <= i < |hs| ==> !TruthyInt(hs[i].sort) {
      LastIntUnset(Sorts(hs), x.sort);
    }
    forall i | 0 <= i < |hs| && TruthyInt(hs[i].sort) && (forall j :: i < j < |hs| ==> !TruthyInt(hs[j].sort))
      ensures Steps(hs, x).sort == hs[i].sort
    {
      LastIntAt(Sorts(hs), x.sort, i);
    }
  }

  /** Handlers without a body function leave the entries alone. */
  lemma {:induction false} StepsEntries(hs: seq<Handler>, x: VCtx)
    requires forall i :: 0 <= i < |hs| ==> hs[i].body.None?
    ensures Steps(hs, x).entries == x.entries
  {
    if |hs| > 0 {
      StepsEntries(hs[..|hs| - 1], x);
    }
  }

  function OrderKey(h: Handler): Idx { At(h.order) }

  /** The handlers in ascending `order`, ties in list order. */
  function SortHandlers(hs: seq<Handler>): seq<Handler> {
    StableSort(hs, OrderKey)
  }

  /** The post-processors applied to the utility object, first to last. */
  function Postprocess(ps: seq<UtilObject -> UtilObject>, obj: UtilObject): UtilObject {
    if |ps| == 0 then obj else ps[|ps| - 1](Postprocess(ps[..|ps| - 1], obj))
  }

  /** The context `applyVariants` starts from. */
  function StartCtx(c: Config, raw: string, entries: Entries): VCtx {
    VCtx(c.escapeSelector(raw), entries, None, None, None, None)
  }

  /** The context after all handlers. */
  function FinalCtx(c: Config, entries: Entries, handlers: seq<Handler>, raw: string): VCtx {
    ReduceRight(SortHandlers(handlers), Identity())(StartCtx(c, raw, entries))
  }

  /** The write into `parentOrders`: only when both a parent and its order are set. */
  function ParentWriteOf(x: VCtx): (w: Option<ParentWrite>)
    ensures w.Some? <==> x.parent.Some? && x.parentOrder.Some?
    ensures w.Some? ==> w.value == ParentWrite(x.parent.value, x.parentOrder.value)
  {
    if x.parent.Some? && x.parentOrder.Some? then Some(ParentWrite(x.parent.value, x.parentOrder.value))
    else None
  }

  /** The utility object before post-processing. */
  function ObjectOf(x: VCtx): UtilObject {
    UtilObject(x.selector, x.entries, x.parent, x.layer, x.sort, None)
  }

  /**
   * `applyVariants`: the post-processed utility object and the
   * `parentOrders` write it makes.
   */
  function ApplyVariants(c: Config, entries: Entries, handlers: seq<Handler>, raw: string): (UtilObject, Option<ParentWrite>) {
    var x := FinalCtx(c, entries, handlers, raw);
    (Postprocess(c.postprocess, ObjectOf(x)), ParentWriteOf(x))
  }

  /**
   * Without post-processors, the utility object is the start context with the
   * sorted handlers applied first to last, and parent, layer and sort are
   * those of the last handler that sets each.
   */
  lemma ApplyVariantsSpec(c: Config, entries: Entries, handlers: seq<Handler>, raw: string)
    requires c.postprocess == []
    ensures var x := Steps(SortHandlers(handlers), StartCtx(c, raw, entries));
      ApplyVariants(c, entries, handlers, raw) == (ObjectOf(x), ParentWriteOf(x))
  {
    ReduceRightIsSteps(SortHandlers(handlers), Identity(), StartCtx(c, raw, entries));
  }

  /** With no handler and no post-processor, a utility keeps its escaped selector and entries. */
  lemma ApplyNoHandlers(c: Config, entries: Entries, raw: string)
    requires c.postprocess == []
    ensures ApplyVariants(c, entries, [], raw) ==
      (UtilObject(c.escapeSelector(raw), entries, None, None, None, None), None)
  {
    ApplyVariantsSpec(c, entries, [], raw);
  }

  /**
   * `stringifyUtil`: a raw utility keeps its text and meta; a parsed one is
   * passed through its variant handlers and dropped when its body renders
   * empty, the handlers' layer and sort taking precedence over the rule's.
   * The `parentOrders` write happens either way.
   */
  function StringifyUtil(c: Config, p: Parsed): (r: (Option<Stringified>, Option<ParentWrite>))
    ensures p.RawUtil? ==> r.1.None? && r.0 == Some(Stringified(p.index, None, RawText(p.css), None, p.rawMeta, None))
    ensures p.ParsedUtil? ==>
      var (obj, w) := ApplyVariants(c, p.entries, p.handlers, p.raw);
      var meta := p.meta.GetOr(EmptyMeta);
      && r.1 == w
      && (r.0.None? <==> EntriesToCss(obj.entries) == "")
      && (r.0.Some? ==>
            (&& r.0.value.body == Decls(obj.entries) && r.0.value.selector == Some(obj.selector)
             && r.0.value.index == p.index && r.0.value.parent == obj.parent
             && r.0.value.meta.layer == (if obj.layer.Some? then obj.layer else meta.layer)
             && r.0.value.meta.sort == (if obj.sort.Some? then obj.sort else meta.sort)
             && r.0.value.meta.internal == meta.internal && r.0.value.meta.prefix == meta.prefix))
  {
    match p
    case RawUtil(index, css, meta) => (Some(Stringified(index, None, RawText(css), None, meta, None)), None)
    case ParsedUtil(index, raw, entries, meta, handlers) =>
      var (obj, w) := ApplyVariants(c, entries, handlers, raw);
      if EntriesToCss(obj.entries) == "" then (None, w)
      else
        var m := meta.GetOr(EmptyMeta);
        var ruleMeta := m.(layer := OrElse(obj.layer, m.layer), sort := OrElse(obj.sort, m.sort));
        (Some(Stringified(index, Some(obj.selector), Decls(obj.entries), obj.parent, ruleMeta, obj.noMerge)), w)
  }
}
