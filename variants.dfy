/**
 * Variant matching (`matchVariants`): peel variants off a token one at a
 * time, restarting from the first configured variant after every
 * application, and branch when a variant answers with several handlers.
 * `Match` is the specification the generator's method is proved against.
 */
module Variants {
  import opened Wrappers
  import opened Config

  /**
   * A matched result: the raw token, the selector left after the variants
   * applied so far, their handlers (most recently applied first) and the
   * indices of the variants applied.
   */
  datatype Branch = Branch(raw: string, current: string, handlers: seq<Handler>, applied: set<nat>)

  /** What trying one variant on a branch yields. */
  datatype Step = Skip | Single(h: Handler) | Split(hs: seq<Handler>)

  /** Trying variant `i` on branch `b`: the body of the scan over the variants. */
  function TryVariant(c: Config, i: nat, b: Branch): Step
    requires i < |c.variants|
  {
    var v := c.variants[i];
    if !v.multiPass && i in b.applied then Skip
    else
      match v.matchFn(b.current, b.raw)
      case NoMatch => Skip
      case Str(s) => if s == "" || s == b.current then Skip else Single(MatcherHandler(s))
      case One(h) => Single(h)
      case Many(hs) =>
        if |hs| == 0 then Skip
        else if |hs| == 1 then Single(hs[0])
        else Split(hs)
  }

  /** The first variant at or after `i` that applies to `b`. */
  function FirstApplicable(c: Config, b: Branch, i: nat): (r: Option<nat>)
    requires i <= |c.variants|
    decreases |c.variants| - i
    ensures r.Some? ==> i <= r.value < |c.variants| && !TryVariant(c, r.value, b).Skip?
    ensures r.Some? ==> forall j :: i <= j < r.value ==> TryVariant(c, j, b).Skip?
    ensures r.None? <==> forall j :: i <= j < |c.variants| ==> TryVariant(c, j, b).Skip?
  {
    if i == |c.variants| then None
    else if !TryVariant(c, i, b).Skip? then Some(i)
    else FirstApplicable(c, b, i + 1)
  }

  /** No variant applies any more: the branch is finished. */
  predicate Terminal(c: Config, b: Branch) {
    FirstApplicable(c, b, 0).None?
  }

  /** The branch after applying handler `h` of variant `i`. */
  function Apply(b: Branch, i: nat, h: Handler): Branch {
    Branch(b.raw, h.matcher.GetOr(b.current), [h] + b.handlers, b.applied + {i})
  }

  /** How many more single applications the 500-handler guard allows. */
  function Room(b: Branch): nat {
    if |b.handlers| <= 500 then 501 - |b.handlers| else 0
  }

  lemma DiffAddCard(ids: set<nat>, a: set<nat>, i: nat)
    requires i in ids && i !in a
    ensures |ids - (a + {i})| == |ids - a| - 1
  {
    assert ids - a == (ids - (a + {i})) + {i};
  }

  /** The branches `matchVariants` produces from `b`, or the error it throws. */
  function Match(c: Config, b: Branch): Result<seq<Branch>>
    requires b.applied <= VariantIds(c)
    decreases |VariantIds(c) - b.applied|, 1, Room(b)
  {
    match FirstApplicable(c, b, 0)
    case None => Ok([b])
    case Some(i) =>
      match TryVariant(c, i, b)
      case Single(h) =>
        var next := Apply(b, i, h);
        if |next.handlers| > 500 then Err(TooManyVariants(b.raw))
        else
          if i in b.applied then
            assert next.applied == b.applied;
            Match(c, next)
          else
            DiffAddCard(VariantIds(c), b.applied, i);
            Match(c, next)
      case Split(hs) =>
        if c.variants[i].multiPass then Err(MultiPassArray)
        else
          DiffAddCard(VariantIds(c), b.applied, i);
          MatchClones(c, b, i, hs, 0)
      case Skip => assert false; Ok([b])
  }

  /** The branches of the clones `k ..` of `b` for the handlers `hs` of variant `i`, in order. */
  function MatchClones(c: Config, b: Branch, i: nat, hs: seq<Handler>, k: nat): Result<seq<Branch>>
    requires b.applied <= VariantIds(c) && i < |c.variants| && i !in b.applied
    requires k <= |hs|
    decreases |VariantIds(c) - (b.applied + {i})|, 2, |hs| - k
  {
    if k == |hs| then Ok([])
    else
      var first :- Match(c, Apply(b, i, hs[k]));
      var rest :- MatchClones(c, b, i, hs, k + 1);
      Ok(first + rest)
  }

  /** One round of the matching loop: what `Match` does once it has found the first applicable variant. */
  lemma MatchUnfold(c: Config, b: Branch, i: nat)
    requires b.applied <= VariantIds(c)
    requires FirstApplicable(c, b, 0) == Some(i)
    ensures TryVariant(c, i, b).Single? ==>
      var next := Apply(b, i, TryVariant(c, i, b).h);
      Match(c, b) == (if |next.handlers| > 500 then Err(TooManyVariants(b.raw)) else Match(c, next))
    ensures TryVariant(c, i, b).Split? ==>
      Match(c, b) == (if c.variants[i].multiPass then Err(MultiPassArray)
                      else MatchClones(c, b, i, TryVariant(c, i, b).hs, 0))
  {}

  /** One clone: its branches in front of the later clones' ones, or its error. */
  lemma ClonesUnfold(c: Config, b: Branch, i: nat, hs: seq<Handler>, k: nat)
    requires b.applied <= VariantIds(c) && i < |c.variants| && i !in b.applied
    requires k < |hs|
    ensures var first := Match(c, Apply(b, i, hs[k]));
      MatchClones(c, b, i, hs, k) ==
        (if first.Err? then Err(first.error)
         else var rest := MatchClones(c, b, i, hs, k + 1);
              if rest.Err? then rest else Ok(first.value + rest.value))
  {}

  /** A single application within the guard: matching goes on from the new branch, which is closer to the end. */
  lemma SingleStep(c: Config, b: Branch, i: nat, h: Handler)
    requires b.applied <= VariantIds(c)
    requires FirstApplicable(c, b, 0) == Some(i) && TryVariant(c, i, b) == Single(h)
    requires |Apply(b, i, h).handlers| <= 500
    ensures var next := Apply(b, i, h);
      && b.applied <= next.applied <= VariantIds(c)
      && Match(c, next) == Match(c, b)
      && (|VariantIds(c) - next.applied| < |VariantIds(c) - b.applied|
          || (|VariantIds(c) - next.applied| == |VariantIds(c) - b.applied| && Room(next) < Room(b)))
  {
    var next := Apply(b, i, h);
    MatchUnfold(c, b, i);
    if i !in b.applied {
      DiffAddCard(VariantIds(c), b.applied, i);
    } else {
      assert next.applied == b.applied;
    }
  }

  /** `matchVariants(raw, current)`: matching starts from `current || raw`. */
  function MatchVariants(c: Config, raw: string, current: string): Result<seq<Branch>> {
    Match(c, Branch(raw, if current == "" then raw else current, [], {}))
  }

  function Max(a: int, b: int): int { if a < b then b else a }

  /** What every branch `b2` grown from `b` satisfies. */
  ghost predicate GrownFrom(c: Config, b: Branch, b2: Branch) {
    && b2.raw == b.raw
    && b.applied <= b2.applied <= VariantIds(c)
    && |b.handlers| <= |b2.handlers|
    && b2.handlers[|b2.handlers| - |b.handlers|..] == b.handlers
    && Terminal(c, b2)
    && |b2.handlers| <= Max(|b.handlers|, 500) + |VariantIds(c) - b.applied|
    && ((forall v :: 0 <= v < |c.variants| ==> !c.variants[v].multiPass) ==>
          |b2.handlers| == |b.handlers| + |b2.applied - b.applied|)
  }

  ghost predicate ErrorOf(b: Branch, e: Error) {
    e == MultiPassArray || e == TooManyVariants(b.raw)
  }

  lemma GrownFromTrans(c: Config, b: Branch, b1: Branch, b2: Branch, i: nat)
    requires b1.raw == b.raw && b.applied + {i} == b1.applied && i !in b.applied
    requires |b1.handlers| == |b.handlers| + 1 && b1.handlers[1..] == b.handlers
    requires b1.applied <= VariantIds(c)
    requires GrownFrom(c, b1, b2)
    requires |b1.handlers| <= Max(|b.handlers|, 500) + 1
    ensures GrownFrom(c, b, b2)
  {
    DiffAddCard(VariantIds(c), b.applied, i);
    DiffAddCard(b2.applied, b.applied, i);
    assert b2.handlers[|b2.handlers| - |b.handlers|..] == b1.handlers[1..];
  }

  lemma GrownFromSame(c: Config, b: Branch, b1: Branch, b2: Branch, i: nat)
    requires b1.raw == b.raw && b1.applied == b.applied && i in b.applied
    requires |b1.handlers| == |b.handlers| + 1 && b1.handlers[1..] == b.handlers
    requires !(forall v :: 0 <= v < |c.variants| ==> !c.variants[v].multiPass)
    requires b1.applied <= VariantIds(c)
    requires GrownFrom(c, b1, b2)
    requires |b1.handlers| <= 500
    ensures GrownFrom(c, b, b2)
  {
    assert b2.handlers[|b2.handlers| - |b.handlers|..] == b1.handlers[1..];
  }

  /**
   * Every branch `matchVariants` returns is finished (no variant applies to
   * it any more), keeps the raw token, extends the handler list of the branch
   * it grew from, carries at most 500 handlers plus one per variant that
   * split it, and, when no variant is multi-pass, has applied each variant at
   * most once; at least one branch is returned. The only errors are the
   * multi-pass array error and the too-many-variants error naming the raw
   * token.
   */
  lemma {:induction false} MatchSpec(c: Config, b: Branch)
    requires b.applied <= VariantIds(c)
    ensures Match(c, b).Ok? ==> |Match(c, b).value| >= 1
    ensures Match(c, b).Ok? ==> forall b2 :: b2 in Match(c, b).value ==> GrownFrom(c, b, b2)
    ensures Match(c, b).Err? ==> ErrorOf(b, Match(c, b).error)
    decreases |VariantIds(c) - b.applied|, 1, Room(b), 1
  {
    match FirstApplicable(c, b, 0)
    case None =>
      assert Match(c, b) == Ok([b]);
    case Some(i) =>
      match TryVariant(c, i, b)
      case Single(h) =>
        SingleSpec(c, b, i, h);
      case Split(hs) =>
        MatchUnfold(c, b, i);
        if !c.variants[i].multiPass {
          DiffAddCard(VariantIds(c), b.applied, i);
          ClonesSpec(c, b, i, hs, 0);
        }
      case Skip =>
        assert false;
  }

  /** `MatchSpec` when the first applicable variant answers with one handler. */
  lemma {:induction false} SingleSpec(c: Config, b: Branch, i: nat, h: Handler)
    requires b.applied <= VariantIds(c)
    requires FirstApplicable(c, b, 0) == Some(i) && TryVariant(c, i, b) == Single(h)
    ensures Match(c, b).Ok? ==> |Match(c, b).value| >= 1
    ensures Match(c, b).Ok? ==> forall b2 :: b2 in Match(c, b).value ==> GrownFrom(c, b, b2)
    ensures Match(c, b).Err? ==> ErrorOf(b, Match(c, b).error)
    decreases |VariantIds(c) - b.applied|, 1, Room(b), 0
  {
    MatchUnfold(c, b, i);
    var next := Apply(b, i, h);
    if |next.handlers| <= 500 {
      assert Match(c, b) == Match(c, next);
      assert next.handlers[1..] == b.handlers;
      if i in b.applied {
        assert next.applied == b.applied;
        MatchSpec(c, next);
        if Match(c, next).Ok? {
          forall b2 | b2 in Match(c, next).value ensures GrownFrom(c, b, b2) {
            GrownFromSame(c, b, next, b2, i);
          }
        }
      } else {
        DiffAddCard(VariantIds(c), b.applied, i);
        MatchSpec(c, next);
        if Match(c, next).Ok? {
          forall b2 | b2 in Match(c, next).value ensures GrownFrom(c, b, b2) {
            GrownFromTrans(c, b, next, b2, i);
          }
        }
      }
    }
  }

  lemma {:induction false} ClonesSpec(c: Config, b: Branch, i: nat, hs: seq<Handler>, k: nat)
    requires b.applied <= VariantIds(c) && i < |c.variants| && i !in b.applied
    requires k <= |hs|
    ensures MatchClones(c, b, i, hs, k).Ok? ==> |MatchClones(c, b, i, hs, k).value| >= |hs| - k
    ensures MatchClones(c, b, i, hs, k).Ok? ==>
      forall b2 :: b2 in MatchClones(c, b, i, hs, k).value ==> GrownFrom(c, b, b2)
    ensures MatchClones(c, b, i, hs, k).Err? ==> ErrorOf(b, MatchClones(c, b, i, hs, k).error)
    decreases |VariantIds(c) - (b.applied + {i})|, 2, |hs| - k, 0
  {
    if k < |hs| {
      var clone := Apply(b, i, hs[k]);
      assert clone.handlers[1..] == b.handlers;
      MatchSpec(c, clone);
      ClonesSpec(c, b, i, hs, k + 1);
      if MatchClones(c, b, i, hs, k).Ok? {
        var first := Match(c, clone).value;
        var rest := MatchClones(c, b, i, hs, k + 1).value;
        assert MatchClones(c, b, i, hs, k).value == first + rest;
        forall b2 | b2 in first ensures GrownFrom(c, b, b2) {
          GrownFromTrans(c, b, clone, b2, i);
        }
      }
    }
  }

  /**
   * With no applicable variant, `matchVariants(raw, current)` returns the
   * single branch `[raw, current || raw, [], {}]`.
   */
  lemma NoVariantApplies(c: Config, raw: string, current: string)
    requires Terminal(c, Branch(raw, if current == "" then raw else current, [], {}))
    ensures MatchVariants(c, raw, current) == Ok([Branch(raw, if current == "" then raw else current, [], {})])
  {}
}
