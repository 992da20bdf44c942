/**
 * The resolved rule set the matching pipeline consumes: variants, static and
 * dynamic rules, shortcuts, the blocklist and the pre- and post-processors.
 * Every user-supplied callback (a variant's match function, a rule or
 * shortcut handler, a blocklist predicate, a processor) is a total function
 * whose result is a closed tagged union, so that the pipeline's own control
 * logic is all that remains to be modelled. Configuration resolution itself
 * is not part of this model: a `Config` is handed in already resolved.
 */
module Config {
  import opened Wrappers
  import opened Text

  // -----------------------------------------------------------------------
  // CSS entries

  /** The keys of control entries (the framework's `symbols`). */
  datatype Sym =
    | VariantsSym | ParentSym | SelectorSym | LayerSym | SortSym | NoMergeSym
    | ShortcutsNoMergeSym

  /**
   * One entry of a resolved CSS body: a declaration, or a control entry that
   * stays in the body after it has been interpreted (only its key matters
   * from then on).
   */
  datatype Entry = Decl(prop: string, value: string) | Marker(sym: Sym)

  type Entries = seq<Entry>

  /**
   * The text of a body: each declaration as `prop:value;`, control entries
   * contributing nothing.
   */
  function EntriesToCss(es: Entries): (css: string)
    ensures css == "" <==> forall i :: 0 <= i < |es| ==> es[i].Marker?
  {
    if |es| == 0 then ""
    else
      match es[0]
      case Decl(p, v) => p + ":" + v + ";" + EntriesToCss(es[1..])
      case Marker(_) => EntriesToCss(es[1..])
  }

  // -----------------------------------------------------------------------
  // Variants

  /**
   * A variant handler. Absent members are `None`; the members the source
   * reads with `||` treat a falsy value (empty string, zero) as absent.
   */
  datatype Handler = Handler(
    matcher: Option<string>,
    order: int,
    body: Option<Entries -> Option<Entries>>,
    selector: Option<(string, Entries) -> string>,
    parent: Option<string>,
    parentOrder: Option<int>,
    layer: Option<string>,
    sort: Option<int>)

  /** The handler `{ matcher: s }` a variant returning a string stands for. */
  function MatcherHandler(s: string): Handler {
    Handler(Some(s), 0, None, None, None, None, None, None)
  }

  /** What a variant's match function returns. */
  datatype VariantMatch =
    | NoMatch
    | Str(s: string)
    | One(h: Handler)
    | Many(hs: seq<Handler>)

  /** A variant: its match function receives the current selector and the raw token. */
  datatype Variant = Variant(multiPass: bool, matchFn: (string, string) -> VariantMatch)

  // -----------------------------------------------------------------------
  // Rules

  datatype RuleMeta = RuleMeta(
    internal: bool,
    prefix: Option<seq<string>>,
    layer: Option<string>,
    sort: Option<int>,
    noMerge: Option<bool>)

  const EmptyMeta := RuleMeta(false, None, None, None, None)

  /** The part of the rule context that handlers may read. */
  datatype RuleCtx = RuleCtx(rawSelector: string, currentSelector: string)

  /** One entry of a rule handler's normalised result. */
  datatype RuleEntry =
    | Css(prop: string, value: string)
    | VariantsFn(f: seq<Handler> -> Option<seq<Handler>>)
    | VariantsList(hs: seq<Handler>)
    | ParentCtl(parent: string)
    | SelectorCtl(selectorFn: (string, Entries) -> string)
    | LayerCtl(layer: string)
    | SortCtl(sort: int)
    | NoMergeCtl(noMerge: bool)
    | BodyCtl(value: string)
    | ShortcutsNoMergeCtl(flag: bool)

  /** A normalised CSS value: raw CSS text, or a group of entries. */
  datatype CssValue = RawCss(text: string) | Group(entries: seq<RuleEntry>)

  datatype StaticRule = StaticRule(index: nat, body: seq<CssValue>, meta: RuleMeta)

  datatype DynamicRule = DynamicRule(
    index: nat,
    matcher: string -> Option<seq<string>>,
    handler: (seq<string>, RuleCtx) -> seq<CssValue>,
    meta: RuleMeta)

  // -----------------------------------------------------------------------
  // Shortcuts

  datatype ShortcutValue = Token(s: string) | InlineCss(entries: Entries)

  /** A shortcut's expansion: one string, or a list of values. */
  datatype ShortcutResult = Plain(s: string) | Values(vs: seq<ShortcutValue>)

  predicate Truthy(r: ShortcutResult) {
    r.Plain? ==> r.s != ""
  }

  datatype Shortcut =
    | StaticShortcut(key: string, value: ShortcutResult, meta: Option<RuleMeta>)
    | DynamicShortcut(
        matcher: string -> Option<seq<string>>,
        handler: (seq<string>, RuleCtx) -> Option<ShortcutResult>,
        meta: Option<RuleMeta>)

  // -----------------------------------------------------------------------
  // Blocklist and processors

  datatype BlockValue = Exact(s: string) | Test(pred: string -> bool)

  datatype BlockRule = BlockRule(value: BlockValue, message: Option<string>)

  datatype UtilObject = UtilObject(
    selector: string,
    entries: Entries,
    parent: Option<string>,
    layer: Option<string>,
    sort: Option<int>,
    noMerge: Option<bool>)

  datatype Config = Config(
    variants: seq<Variant>,
    rulesStatic: map<string, StaticRule>,
    rulesDynamic: seq<DynamicRule>,
    shortcuts: seq<Shortcut>,
    shortcutsLayer: Option<string>,
    blocklist: seq<BlockRule>,
    preprocess: seq<string -> Option<string>>,
    postprocess: seq<UtilObject -> UtilObject>,
    /** `toEscapedSelector` of the framework */
    escapeSelector: string -> string,
    /** `expandVariantGroup` of the framework */
    expandVariantGroup: string -> string,
    /** the framework's `VirtualKey`, the key a body control entry is renamed to */
    virtualKey: string)

  /** The naturals below `n`. */
  function Below(n: nat): (ids: set<nat>)
    ensures forall i: nat :: i in ids <==> i < n
    ensures |ids| == n
  {
    if n == 0 then {} else Below(n - 1) + {n - 1}
  }

  /** The indices of the configured variants; a variant's identity is its index. */
  function VariantIds(c: Config): (ids: set<nat>)
    ensures forall i: nat :: i in ids <==> i < |c.variants|
    ensures |ids| == |c.variants|
  {
    Below(|c.variants|)
  }

  // -----------------------------------------------------------------------
  // Results of the pipeline

  /** The index a parsed utility sorts by; inline shortcut values use +Infinity. */
  datatype Idx = At(n: int) | Infinite

  predicate IdxLess(a: Idx, b: Idx) {
    match (a, b)
    case (At(x), At(y)) => x < y
    case (At(_), Infinite) => true
    case (Infinite, _) => false
  }

  /** A parsed utility, or a raw one carrying CSS text. */
  datatype Parsed =
    | ParsedUtil(index: Idx, raw: string, entries: Entries, meta: Option<RuleMeta>, handlers: seq<Handler>)
    | RawUtil(index: Idx, css: string, rawMeta: RuleMeta)

  datatype Body = Decls(entries: Entries) | RawText(text: string)

  /** A stringified utility: index, selector, body, parent, meta, noMerge. */
  datatype Stringified = Stringified(
    index: Idx,
    selector: Option<string>,
    body: Body,
    parent: Option<string>,
    meta: RuleMeta,
    noMerge: Option<bool>)

  /** A write into the generator's `parentOrders` map. */
  datatype ParentWrite = ParentWrite(parent: string, order: int)

  function ApplyWrites(m: map<string, int>, ws: seq<ParentWrite>): map<string, int> {
    if |ws| == 0 then m
    else ApplyWrites(m, ws[..|ws| - 1])[ws[|ws| - 1].parent := ws[|ws| - 1].order]
  }
}
