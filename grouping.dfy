/**
 * Stringifying an expanded shortcut (`stringifyShortcuts`): the expanded
 * utilities are parsed, sorted by rule index and passed through their
 * variant handlers together with the shortcut's own; the results are
 * grouped by layer, then selector, then parent, and each group is emitted
 * with no-merge entries apart from mergeable ones, the mergeable ones
 * flattened into a single body unless marked `shortcutsNoMerge`.
 */
module Grouping {
  import opened Wrappers
  import opened Config
  import opened OrderedMaps
  import opened Sorting
  import opened Variants
  import opened Rules
  import opened Apply
  import opened Shortcuts

  /** One utility's contribution to a group: entries, no-merge flag, sort. */
  datatype GroupItem = GroupItem(entries: Entries, noMerge: bool, sort: int)

  /** A group's items and the index of the first utility that created it. */
  datatype Bucket = Bucket(items: seq<GroupItem>, index: Idx)

  type ParentMap = OrderedMap<Option<string>, Bucket>
  type SelectorMap = OrderedMap<string, ParentMap>
  type LayerMap = OrderedMap<Option<string>, SelectorMap>

  ghost predicate ValidLayers(lm: LayerMap) {
    && lm.Valid()
    && (forall l :: l in lm.vals ==> lm.vals[l].Valid())
    && (forall l, s :: l in lm.vals && s in lm.vals[l].vals ==> lm.vals[l].vals[s].Valid())
  }

  /** The bucket at (layer, selector, parent), if any. */
  function BucketAt(lm: LayerMap, layer: Option<string>, selector: string, parent: Option<string>): Option<Bucket> {
    if layer in lm.vals && selector in lm.vals[layer].vals && parent in lm.vals[layer].vals[selector].vals
    then Some(lm.vals[layer].vals[selector].vals[parent])
    else None
  }

  function SelectorsAt(lm: LayerMap, layer: Option<string>): SelectorMap {
    if layer in lm.vals then lm.vals[layer] else Empty()
  }

  function ParentsAt(sm: SelectorMap, selector: string): ParentMap {
    if selector in sm.vals then sm.vals[selector] else Empty()
  }

  /**
   * `getFallback` on the layer, then on the selector and parent, then `push`:
   * the item is appended to its group, a new group taking `index`.
   */
  function AddItem(lm: LayerMap, layer: Option<string>, selector: string, parent: Option<string>, index: Idx, item: GroupItem): (r: LayerMap)
    requires ValidLayers(lm)
    ensures ValidLayers(r)
  {
    var sm := SelectorsAt(lm, layer);
    var pm := ParentsAt(sm, selector);
    var b := TargetBucket(lm, layer, selector, parent, index);
    lm.Set(layer, sm.Set(selector, pm.Set(parent, b.(items := b.items + [item]))))
  }

  /** Adding an item appends it to its own group, a new group taking `index`. */
  lemma AddItemOwn(lm: LayerMap, layer: Option<string>, selector: string, parent: Option<string>, index: Idx, item: GroupItem)
    requires ValidLayers(lm)
    ensures var before := BucketAt(lm, layer, selector, parent);
      BucketAt(AddItem(lm, layer, selector, parent, index, item), layer, selector, parent) ==
        Some(if before.Some? then before.value.(items := before.value.items + [item]) else Bucket([item], index))
  {
    var sm := SelectorsAt(lm, layer);
    var pm := ParentsAt(sm, selector);
    var b := TargetBucket(lm, layer, selector, parent, index);
    var b' := b.(items := b.items + [item]);
    var pm' := pm.Set(parent, b');
    var sm' := sm.Set(selector, pm');
    var r := lm.Set(layer, sm');
    assert AddItem(lm, layer, selector, parent, index, item) == r;
    assert r.vals[layer] == sm' && sm'.vals[selector] == pm' && pm'.vals[parent] == b';
    assert BucketAt(r, layer, selector, parent) == Some(b');
    if BucketAt(lm, layer, selector, parent).None? {
      assert b == Bucket([], index);
      assert [] + [item] == [item];
    }
  }

  /** The group an item is added to, before the item is appended. */
  function TargetBucket(lm: LayerMap, layer: Option<string>, selector: string, parent: Option<string>, index: Idx): Bucket {
    var pm := ParentsAt(SelectorsAt(lm, layer), selector);
    if parent in pm.vals then pm.vals[parent] else Bucket([], index)
  }

  /** Adding an item changes no other group. */
  lemma AddItemOther(lm: LayerMap, layer: Option<string>, selector: string, parent: Option<string>, index: Idx, item: GroupItem,
                     l: Option<string>, s: string, p: Option<string>)
    requires ValidLayers(lm)
    requires l != layer || s != selector || p != parent
    ensures BucketAt(AddItem(lm, layer, selector, parent, index, item), l, s, p) == BucketAt(lm, l, s, p)
  {
    var sm := SelectorsAt(lm, layer);
    var pm := ParentsAt(sm, selector);
    var b := TargetBucket(lm, layer, selector, parent, index);
    var pm' := pm.Set(parent, b.(items := b.items + [item]));
    var sm' := sm.Set(selector, pm');
    assert AddItem(lm, layer, selector, parent, index, item) == lm.Set(layer, sm');
    if l != layer {
      OtherLayer(lm, layer, sm', l, s, p);
    } else if s != selector {
      OtherSelector(lm, layer, sm', selector, pm', s, p);
    } else {
      OtherParent(lm, layer, selector, pm, parent, b.(items := b.items + [item]), p);
    }
  }

  lemma OtherLayer(lm: LayerMap, layer: Option<string>, sm': SelectorMap, l: Option<string>, s: string, p: Option<string>)
    requires lm.Valid() && l != layer
    ensures BucketAt(lm.Set(layer, sm'), l, s, p) == BucketAt(lm, l, s, p)
  {
    var r := lm.Set(layer, sm');
    assert (l in r.vals) == (l in lm.vals);
    assert l in r.vals ==> r.vals[l] == lm.vals[l];
  }

  lemma OtherSelector(lm: LayerMap, layer: Option<string>, sm': SelectorMap, selector: string, pm': ParentMap, s: string, p: Option<string>)
    requires ValidLayers(lm) && s != selector
    requires SelectorsAt(lm, layer).Valid()
    requires sm' == SelectorsAt(lm, layer).Set(selector, pm')
    ensures BucketAt(lm.Set(layer, sm'), layer, s, p) == BucketAt(lm, layer, s, p)
  {
    var sm := SelectorsAt(lm, layer);
    var r := lm.Set(layer, sm');
    assert r.vals[layer] == sm';
    assert (s in sm'.vals) == (s in sm.vals);
    assert s in sm'.vals ==> sm'.vals[s] == sm.vals[s];
  }

  lemma OtherParent(lm: LayerMap, layer: Option<string>, selector: string, pm: ParentMap, parent: Option<string>, nb: Bucket, p: Option<string>)
    requires ValidLayers(lm) && p != parent
    requires pm == ParentsAt(SelectorsAt(lm, layer), selector)
    ensures var pm' := pm.Set(parent, nb);
      BucketAt(lm.Set(layer, SelectorsAt(lm, layer).Set(selector, pm')), layer, selector, p) == BucketAt(lm, layer, selector, p)
  {
    var pm' := pm.Set(parent, nb);
    var sm := SelectorsAt(lm, layer);
    var sm' := sm.Set(selector, pm');
    var r := lm.Set(layer, sm');
    assert r.vals[layer].vals[selector] == pm';
    assert (p in pm'.vals) == (p in pm.vals);
    assert p in pm'.vals ==> pm'.vals[p] == pm.vals[p];
  }

  /** `uniq(expanded)`: repeated strings dropped, every inline value kept. */
  function UniqItems(items: seq<Item>, seen: set<string>): seq<Item> {
    if |items| == 0 then []
    else if items[0].SItem? then
      if items[0].s in seen then UniqItems(items[1..], seen)
      else [items[0]] + UniqItems(items[1..], seen + {items[0].s})
    else [items[0]] + UniqItems(items[1..], seen)
  }

  /** The parsed utilities of the expanded items: strings through internal rules, inline values as they are. */
  function ParsedOf(c: Config, items: seq<Item>, ctx: RuleCtx, meta: RuleMeta): Result<seq<Parsed>> {
    if |items| == 0 then Ok([])
    else
      var here :- match items[0]
        case SItem(s) =>
          var r :- ParseUtil(c, FromToken(s), ctx, true, meta.prefix);
          Ok(r.GetOr([]))
        case InlineItem(handles, entries) => Ok([ParsedUtil(Infinite, "{inline}", entries, None, handles)]);
      var rest :- ParsedOf(c, items[1..], ctx, meta);
      Ok(here + rest)
  }

  function IndexKey(p: Parsed): Idx { p.index }

  /** `!!(noMerge ?? item[3]?.noMerge)` */
  function NoMergeFlag(obj: UtilObject, item: Parsed): bool
    requires item.ParsedUtil?
  {
    var fromMeta := if item.meta.Some? then item.meta.value.noMerge else None;
    OrElse(obj.noMerge, fromMeta) == Some(true)
  }

  /** What the loop over the sorted utilities accumulates. */
  datatype Collected = Collected(raws: seq<Stringified>, layers: LayerMap, writes: seq<ParentWrite>)

  function WritesOf(w: Option<ParentWrite>): seq<ParentWrite> {
    if w.Some? then [w.value] else []
  }

  /** One iteration of the loop in `stringifyShortcuts`. */
  function CollectStep(c: Config, parent: Branch, meta: RuleMeta, acc: Collected, item: Parsed): (r: Collected)
    requires ValidLayers(acc.layers)
    ensures ValidLayers(r.layers)
  {
    match item
    case RawUtil(index, css, rawMeta) =>
      acc.(raws := acc.raws + [Stringified(index, None, RawText(css), None, rawMeta, None)])
    case ParsedUtil(index, raw, entries, itemMeta, handlers) =>
      var (obj, w) := ApplyVariants(c, entries, handlers + parent.handlers, parent.raw);
      var layer := OrElse(obj.layer, meta.layer);
      var gi := GroupItem(obj.entries, NoMergeFlag(obj, item), obj.sort.GetOr(0));
      Collected(acc.raws, AddItem(acc.layers, layer, obj.selector, obj.parent, index, gi), acc.writes + WritesOf(w))
  }

  function Collect(c: Config, parent: Branch, meta: RuleMeta, ps: seq<Parsed>): (r: Collected)
    ensures ValidLayers(r.layers)
  {
    if |ps| == 0 then Collected([], Empty(), [])
    else CollectStep(c, parent, meta, Collect(c, parent, meta, ps[..|ps| - 1]), ps[|ps| - 1])
  }

  // -----------------------------------------------------------------------
  // Emitting the groups

  predicate HasShortcutsNoMerge(es: Entries) {
    exists i :: 0 <= i < |es| && es[i] == Marker(ShortcutsNoMergeSym)
  }

  function FilterNoMerge(items: seq<GroupItem>, flag: bool): (r: seq<GroupItem>)
    ensures forall i :: 0 <= i < |r| ==> r[i].noMerge == flag
    ensures |r| <= |items|
  {
    if |items| == 0 then []
    else (if items[0].noMerge == flag then [items[0]] else []) + FilterNoMerge(items[1..], flag)
  }

  function FilterMarked(items: seq<GroupItem>, marked: bool): (r: seq<GroupItem>)
    ensures forall i :: 0 <= i < |r| ==> HasShortcutsNoMerge(r[i].entries) == marked
    ensures |r| <= |items|
  {
    if |items| == 0 then []
    else (if HasShortcutsNoMerge(items[0].entries) == marked then [items[0]] else []) + FilterMarked(items[1..], marked)
  }

  /** `Math.max` of the sorts of a non-empty list. */
  function MaxSort(items: seq<GroupItem>): (m: int)
    requires |items| > 0
    ensures forall i :: 0 <= i < |items| ==> items[i].sort <= m
    ensures exists i :: 0 <= i < |items| && items[i].sort == m
  {
    if |items| == 1 then items[0].sort
    else
      var rest := MaxSort(items[1..]);
      assert forall i :: 1 <= i < |items| ==> items[i] == items[1..][i - 1];
      if items[0].sort < rest then rest else items[0].sort
  }

  function FlattenEntries(items: seq<GroupItem>): Entries {
    if |items| == 0 then [] else items[0].entries + FlattenEntries(items[1..])
  }

  /** The place a group is emitted at. */
  datatype Site = Site(index: Idx, selector: string, parent: Option<string>, layer: Option<string>)

  function Emitted(site: Site, meta: RuleMeta, flag: bool, maxSort: int, es: Entries): seq<Stringified> {
    if EntriesToCss(es) == "" then []
    else [Stringified(site.index, Some(site.selector), Decls(es), site.parent,
                      meta.(noMerge := Some(flag), sort := Some(maxSort), layer := site.layer), None)]
  }

  function EmitEach(site: Site, meta: RuleMeta, flag: bool, maxSort: int, items: seq<GroupItem>): seq<Stringified> {
    if |items| == 0 then []
    else Emitted(site, meta, flag, maxSort, items[0].entries) + EmitEach(site, meta, flag, maxSort, items[1..])
  }

  /**
   * `stringify(flatten, noMerge, pairs)`: one utility for all entries when
   * flattening, one per item otherwise, all carrying the largest sort; empty
   * bodies dropped.
   */
  function Stringify(site: Site, meta: RuleMeta, flatten: bool, flag: bool, items: seq<GroupItem>): seq<Stringified> {
    if |items| == 0 then []
    else
      var maxSort := MaxSort(items);
      if flatten then Emitted(site, meta, flag, maxSort, FlattenEntries(items))
      else EmitEach(site, meta, flag, maxSort, items)
  }

  function EmitClass(site: Site, meta: RuleMeta, flag: bool, items: seq<GroupItem>): seq<Stringified> {
    var cls := FilterNoMerge(items, flag);
    Stringify(site, meta, false, flag, FilterMarked(cls, true)) + Stringify(site, meta, true, flag, FilterMarked(cls, false))
  }

  function EmitBucket(site: Site, meta: RuleMeta, b: Bucket): seq<Stringified> {
    EmitClass(site, meta, true, b.items) + EmitClass(site, meta, false, b.items)
  }

  function EmitParents(pm: ParentMap, keys: seq<Option<string>>, selector: string, layer: Option<string>, meta: RuleMeta): seq<Stringified>
    requires forall k :: k in keys ==> k in pm.vals
  {
    if |keys| == 0 then []
    else
      var b := pm.vals[keys[0]];
      EmitBucket(Site(b.index, selector, keys[0], layer), meta, b) + EmitParents(pm, keys[1..], selector, layer, meta)
  }

  function EmitSelectors(sm: SelectorMap, keys: seq<string>, layer: Option<string>, meta: RuleMeta): seq<Stringified>
    requires forall k :: k in keys ==> k in sm.vals && sm.vals[k].Valid()
  {
    if |keys| == 0 then []
    else
      var pm := sm.vals[keys[0]];
      assert keys[0] in keys;
      assert pm.Valid();
      EmitParents(pm, pm.keys, keys[0], layer, meta) + EmitSelectors(sm, keys[1..], layer, meta)
  }

  function EmitLayers(lm: LayerMap, keys: seq<Option<string>>, meta: RuleMeta): seq<Stringified>
    requires ValidLayers(lm)
    requires forall k :: k in keys ==> k in lm.vals
  {
    if |keys| == 0 then []
    else
      var sm := lm.vals[keys[0]];
      EmitSelectors(sm, sm.keys, keys[0], meta) + EmitLayers(lm, keys[1..], meta)
  }

  /** The meta `stringifyShortcuts` defaults to: the shortcuts layer. */
  function ShortcutMeta(c: Config, meta: Option<RuleMeta>): RuleMeta {
    meta.GetOr(RuleMeta(false, None, c.shortcutsLayer, None, None))
  }

  /** `stringifyShortcuts`: the raw utilities first, then the groups; with the `parentOrders` writes made. */
  function StringifyShortcuts(c: Config, parent: Branch, ctx: RuleCtx, expanded: seq<Item>, meta: Option<RuleMeta>): Result<(seq<Stringified>, seq<ParentWrite>)> {
    var m := ShortcutMeta(c, meta);
    var ps :- ParsedOf(c, UniqItems(expanded, {}), ctx, m);
    var col := Collect(c, parent, m, StableSort(ps, IndexKey));
    Ok((col.raws + EmitLayers(col.layers, col.layers.keys, m), col.writes))
  }

  // -----------------------------------------------------------------------
  // Properties

  /** The utility a group of mergeable items becomes. */
  lemma {:induction false} FlattenUnmarked(items: seq<GroupItem>)
    requires forall i :: 0 <= i < |items| ==> !HasShortcutsNoMerge(items[i].entries)
    ensures FilterMarked(items, false) == items
    ensures FilterMarked(items, true) == []
  {
    if |items| > 0 {
      FlattenUnmarked(items[1..]);
    }
  }

  lemma {:induction false} SplitByFlag(items: seq<GroupItem>, flag: bool)
    requires forall i :: 0 <= i < |items| ==> items[i].noMerge == flag
    ensures FilterNoMerge(items, flag) == items
    ensures FilterNoMerge(items, !flag) == []
  {
    if |items| > 0 {
      SplitByFlag(items[1..], flag);
    }
  }

  /**
   * A group whose items share one no-merge flag and carry no
   * `shortcutsNoMerge` marker becomes at most one utility: all the items'
   * entries in order, the largest sort, that flag, and the group's index,
   * selector, parent and layer.
   */
  lemma MergedGroup(site: Site, meta: RuleMeta, b: Bucket, flag: bool)
    requires |b.items| > 0
    requires forall i :: 0 <= i < |b.items| ==> !HasShortcutsNoMerge(b.items[i].entries) && b.items[i].noMerge == flag
    ensures EmitBucket(site, meta, b) == Emitted(site, meta, flag, MaxSort(b.items), FlattenEntries(b.items))
  {
    SplitByFlag(b.items, flag);
    FlattenUnmarked(b.items);
  }

  /** Items marked `shortcutsNoMerge` are each emitted on their own, all with the largest sort of their class. */
  lemma MarkedGroup(site: Site, meta: RuleMeta, b: Bucket, flag: bool)
    requires |b.items| > 0
    requires forall i :: 0 <= i < |b.items| ==> HasShortcutsNoMerge(b.items[i].entries) && b.items[i].noMerge == flag
    ensures EmitBucket(site, meta, b) == EmitEach(site, meta, flag, MaxSort(b.items), b.items)
  {
    SplitByFlag(b.items, flag);
    MarkedAll(b.items);
  }

  lemma {:induction false} MarkedAll(items: seq<GroupItem>)
    requires forall i :: 0 <= i < |items| ==> HasShortcutsNoMerge(items[i].entries)
    ensures FilterMarked(items, true) == items
    ensures FilterMarked(items, false) == []
  {
    if |items| > 0 {
      MarkedAll(items[1..]);
    }
  }

  /** Every utility a group emits has the group's place and a sort that is the largest of its class. */
  lemma {:induction false} EmitEachSite(site: Site, meta: RuleMeta, flag: bool, maxSort: int, items: seq<GroupItem>)
    ensures forall u :: u in EmitEach(site, meta, flag, maxSort, items) ==>
      u.index == site.index && u.selector == Some(site.selector) && u.parent == site.parent &&
      u.meta.layer == site.layer && u.meta.sort == Some(maxSort) && u.meta.noMerge == Some(flag)
  {
    if |items| > 0 {
      EmitEachSite(site, meta, flag, maxSort, items[1..]);
    }
  }
}
