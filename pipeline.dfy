/**
 * The blocklist (`isBlocked`, `getBlocked`) and the specification of
 * `parseToken`: preprocess, blocklist, variant matching, then for each
 * branch either the shortcut path or the rule path, and the value the
 * generator caches.
 */
module Pipeline {
  import opened Wrappers
  import opened Config
  import opened Variants
  import opened Rules
  import opened Apply
  import opened Shortcuts
  import opened Grouping

  // -----------------------------------------------------------------------
  // Blocklist

  predicate Hits(v: BlockValue, raw: string) {
    match v
    case Exact(s) => s == raw
    case Test(f) => f(raw)
  }

  /** `isBlocked`: the empty selector, or one some blocklist entry hits. */
  predicate IsBlocked(c: Config, raw: string) {
    raw == "" || exists i :: 0 <= i < |c.blocklist| && Hits(c.blocklist[i].value, raw)
  }

  /** `getBlocked`: the first blocklist entry that hits, with its message. */
  function GetBlocked(bl: seq<BlockRule>, raw: string): (r: Option<BlockRule>)
    ensures r.Some? ==> exists i :: (0 <= i < |bl| && bl[i] == r.value && Hits(r.value.value, raw) &&
      forall j :: 0 <= j < i ==> !Hits(bl[j].value, raw))
    ensures r.None? ==> forall i :: 0 <= i < |bl| ==> !Hits(bl[i].value, raw)
  {
    if |bl| == 0 then None
    else if Hits(bl[0].value, raw) then Some(bl[0])
    else
      var r := GetBlocked(bl[1..], raw);
      assert forall j :: 1 <= j < |bl| ==> bl[j] == bl[1..][j - 1];
      assert r.Some? ==> exists i :: (0 <= i < |bl| && bl[i] == r.value && Hits(r.value.value, raw) &&
        forall j :: 0 <= j < i ==> !Hits(bl[j].value, raw)) by {
        if r.Some? {
          var i :| 0 <= i < |bl[1..]| && bl[1..][i] == r.value && Hits(r.value.value, raw) &&
            forall j :: 0 <= j < i ==> !Hits(bl[1..][j].value, raw);
          assert bl[i + 1] == r.value;
        }
      }
      r
  }

  /** A non-empty selector is blocked exactly when `getBlocked` finds an entry for it. */
  lemma BlockedIffFound(c: Config, raw: string)
    ensures IsBlocked(c, raw) <==> raw == "" || GetBlocked(c.blocklist, raw).Some?
  {}

  // -----------------------------------------------------------------------
  // parseToken

  /** The pre-processors applied in order, a `None` answer keeping the selector. */
  function Preprocess(ps: seq<string -> Option<string>>, raw: string): string {
    if |ps| == 0 then raw
    else
      var acc := Preprocess(ps[..|ps| - 1], raw);
      ps[|ps| - 1](acc).GetOr(acc)
  }

  /** `${raw}${alias ? ` ${alias}` : ''}` */
  function CacheKey(raw: string, alias: string): string {
    raw + (if alias != "" then " " + alias else "")
  }

  datatype CacheValue = CacheValue(current: string, utils: seq<Stringified>)

  /** What `parseToken` found for a token not yet cached. */
  datatype TokenOutcome =
    | Blocked
    | Unmatched(writes: seq<ParentWrite>)
    | Matched(value: CacheValue, writes: seq<ParentWrite>)

  /** The stringified utilities of a parsed list, `undefined` ones dropped, and the writes made. */
  function StringifyAll(c: Config, ps: seq<Parsed>): (seq<Stringified>, seq<ParentWrite>) {
    if |ps| == 0 then ([], [])
    else
      var (us, ws) := StringifyAll(c, ps[..|ps| - 1]);
      var (u, w) := StringifyUtil(c, ps[|ps| - 1]);
      (us + (if u.Some? then [u.value] else []), ws + WritesOf(w))
  }

  /** The context a branch is handled in: the raw token and the branch's selector. */
  function BranchCtx(raw: string, b: Branch): RuleCtx {
    RuleCtx(raw, b.current)
  }

  /** The branch the utilities are built from: named by the alias when there is one. */
  function Named(alias: string, b: Branch): Branch {
    b.(raw := if alias != "" then alias else b.raw)
  }

  /** `handleVariantResult`: a shortcut's utilities, or else the rules' ones. */
  function HandleBranch(c: Config, raw: string, alias: string, b: Branch): Result<(seq<Stringified>, seq<ParentWrite>)> {
    var ctx := BranchCtx(raw, b);
    var e :- ExpandShortcut(c, b.current, ctx, DefaultDepth);
    if e.Some? then StringifyShortcuts(c, Named(alias, b), ctx, e.value.items, e.value.meta)
    else
      var ps :- ParseUtil(c, FromBranch(Named(alias, b)), ctx, false, None);
      if ps.None? then Ok(([], [])) else Ok(StringifyAll(c, ps.value))
  }

  /** The branches' utilities and writes concatenated in order; the first failing branch's error otherwise. */
  function Gather(rs: seq<Result<(seq<Stringified>, seq<ParentWrite>)>>): Result<(seq<Stringified>, seq<ParentWrite>)> {
    if |rs| == 0 then Ok(([], []))
    else
      var init :- Gather(rs[..|rs| - 1]);
      var last :- rs[|rs| - 1];
      Ok((init.0 + last.0, init.1 + last.1))
  }

  /** `variantResults.flatMap(handleVariantResult)`. */
  function HandleAll(c: Config, raw: string, alias: string, bs: seq<Branch>): Result<(seq<Stringified>, seq<ParentWrite>)> {
    Gather(HandleEach(c, raw, alias, bs))
  }

  function HandleEach(c: Config, raw: string, alias: string, bs: seq<Branch>): (rs: seq<Result<(seq<Stringified>, seq<ParentWrite>)>>)
    ensures |rs| == |bs|
    ensures forall i :: 0 <= i < |bs| ==> rs[i] == HandleBranch(c, raw, alias, bs[i])
  {
    if |bs| == 0 then [] else [HandleBranch(c, raw, alias, bs[0])] + HandleEach(c, raw, alias, bs[1..])
  }

  /** Once a branch fails, gathering more branches keeps that error. */
  lemma {:induction false} GatherErr(rs: seq<Result<(seq<Stringified>, seq<ParentWrite>)>>, k: nat)
    requires k <= |rs| && Gather(rs[..k]).Err?
    ensures Gather(rs) == Gather(rs[..k])
    decreases |rs|
  {
    if k < |rs| {
      assert rs[..|rs| - 1][..k] == rs[..k];
      GatherErr(rs[..|rs| - 1], k);
    } else {
      assert rs[..k] == rs;
    }
  }

  /** One more successful branch: its utilities and writes appended. */
  lemma GatherSnoc(rs: seq<Result<(seq<Stringified>, seq<ParentWrite>)>>, k: nat)
    requires k < |rs| && Gather(rs[..k]).Ok?
    ensures rs[k].Ok? ==>
      Gather(rs[..k + 1]) == Ok((Gather(rs[..k]).value.0 + rs[k].value.0, Gather(rs[..k]).value.1 + rs[k].value.1))
    ensures rs[k].Err? ==> Gather(rs[..k + 1]) == Err(rs[k].error)
  {
    assert rs[..k + 1][..k] == rs[..k];
  }

  /**
   * The `parentOrders` writes the branches make before the first failing
   * one: a failing branch writes nothing, and no branch after it runs.
   */
  function WritesMade(rs: seq<Result<(seq<Stringified>, seq<ParentWrite>)>>): seq<ParentWrite> {
    if |rs| == 0 then []
    else
      var n := |rs| - 1;
      if Gather(rs[..n]).Ok? && rs[n].Ok? then WritesMade(rs[..n]) + rs[n].value.1
      else WritesMade(rs[..n])
  }

  /** When every branch succeeds, the writes made are the gathered ones. */
  lemma {:induction false} WritesMadeGathered(rs: seq<Result<(seq<Stringified>, seq<ParentWrite>)>>)
    requires Gather(rs).Ok?
    ensures WritesMade(rs) == Gather(rs).value.1
  {
    if |rs| > 0 {
      WritesMadeGathered(rs[..|rs| - 1]);
    }
  }

  /** Once a branch fails, the branches after it add no writes. */
  lemma {:induction false} WritesMadeErr(rs: seq<Result<(seq<Stringified>, seq<ParentWrite>)>>, k: nat)
    requires k <= |rs| && Gather(rs[..k]).Err?
    ensures WritesMade(rs) == WritesMade(rs[..k])
    decreases |rs|
  {
    if k < |rs| {
      var init := rs[..|rs| - 1];
      assert init[..k] == rs[..k];
      WritesMadeErr(init, k);
      GatherErr(init, k);
    } else {
      assert rs[..k] == rs;
    }
  }

  /** One more stringified utility: appended when kept, its write appended either way. */
  lemma StringifyAllSnoc(c: Config, ps: seq<Parsed>, j: nat)
    requires j < |ps|
    ensures var prev := StringifyAll(c, ps[..j]);
      var u := StringifyUtil(c, ps[j]);
      StringifyAll(c, ps[..j + 1]) == (prev.0 + (if u.0.Some? then [u.0.value] else []), prev.1 + WritesOf(u.1))
  {
    assert ps[..j + 1][..j] == ps[..j];
  }

  predicate AllBlocked(c: Config, bs: seq<Branch>) {
    forall i :: 0 <= i < |bs| ==> IsBlocked(c, bs[i].current)
  }

  /** `parseToken(raw, alias)` for a token neither blocked nor cached yet. */
  function ParseTokenSpec(c: Config, raw: string, alias: string): Result<TokenOutcome> {
    var current := Preprocess(c.preprocess, raw);
    if IsBlocked(c, current) then Ok(Blocked)
    else
      var bs :- MatchVariants(c, raw, current);
      if AllBlocked(c, bs) then Ok(Blocked)
      else
        var h :- HandleAll(c, raw, alias, bs);
        if |h.0| > 0 then Ok(Matched(CacheValue(bs[0].current, h.0), h.1))
        else Ok(Unmatched(h.1))
  }

  /** The value cached and returned for an outcome; `None` stands for both `null` and `undefined`. */
  function Cached(o: TokenOutcome): Option<CacheValue> {
    if o.Matched? then Some(o.value) else None
  }

  function ParseTokenResult(c: Config, raw: string, alias: string): Result<Option<CacheValue>> {
    var o :- ParseTokenSpec(c, raw, alias);
    Ok(Cached(o))
  }

  /** The `parentOrders` writes a successful `parseToken` makes. */
  function WritesOfOutcome(o: TokenOutcome): seq<ParentWrite> {
    if o.Blocked? then [] else o.writes
  }

  /**
   * The `parentOrders` writes of parsing a token afresh, whether the parse
   * succeeds or fails: nothing when it is blocked or its variants fail,
   * otherwise those of its branches up to the first failing one.
   */
  function ParseWrites(c: Config, raw: string, alias: string): seq<ParentWrite> {
    var current := Preprocess(c.preprocess, raw);
    if IsBlocked(c, current) then []
    else
      match MatchVariants(c, raw, current)
      case Err(_) => []
      case Ok(bs) => if AllBlocked(c, bs) then [] else WritesMade(HandleEach(c, raw, alias, bs))
  }

  /** On success, the writes made are those of the outcome. */
  lemma ParseWritesOk(c: Config, raw: string, alias: string)
    requires ParseTokenSpec(c, raw, alias).Ok?
    ensures ParseWrites(c, raw, alias) == WritesOfOutcome(ParseTokenSpec(c, raw, alias).value)
  {
    var current := Preprocess(c.preprocess, raw);
    if !IsBlocked(c, current) && !AllBlocked(c, MatchVariants(c, raw, current).value) {
      WritesMadeGathered(HandleEach(c, raw, alias, MatchVariants(c, raw, current).value));
    }
  }

  /** Whether `parseToken` blocks a token: this does not depend on the alias. */
  predicate TokenBlocked(c: Config, raw: string) {
    var current := Preprocess(c.preprocess, raw);
    IsBlocked(c, current) ||
    (MatchVariants(c, raw, current).Ok? && AllBlocked(c, MatchVariants(c, raw, current).value))
  }

  /** `parseToken` blocks exactly the tokens `TokenBlocked` names, whatever the alias. */
  lemma BlockedSpec(c: Config, raw: string, alias: string)
    ensures ParseTokenSpec(c, raw, alias) == Ok(Blocked) <==> TokenBlocked(c, raw)
  {}

  /** Without pre-processors, the empty token is blocked. */
  lemma EmptyTokenBlocked(c: Config, alias: string)
    requires c.preprocess == []
    ensures ParseTokenSpec(c, "", alias) == Ok(Blocked)
  {}

  /**
   * A recognised token caches the selector left after the first branch's
   * variants and a non-empty list of utilities.
   */
  lemma MatchedSpec(c: Config, raw: string, alias: string)
    requires ParseTokenSpec(c, raw, alias).Ok? && ParseTokenSpec(c, raw, alias).value.Matched?
    ensures var v := ParseTokenSpec(c, raw, alias).value.value;
      var bs := MatchVariants(c, raw, Preprocess(c.preprocess, raw));
      bs.Ok? && |bs.value| > 0 && v.current == bs.value[0].current && |v.utils| > 0
  {}
}
