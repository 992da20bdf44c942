/**
 * The keys `createUnoMerge`'s inner `parseToken` derives for one token from
 * the CSS body the generator produced for it: the variant prefix, the group
 * key (the variant followed by the token's non-custom property names), the
 * temporary key (the variant followed by its sorted property list) and that
 * property list itself.
 */
module Keys {
  import opened Wrappers
  import opened Text
  import opened Config

  /** The characters of the regular-expression class `\w`. */
  predicate IsWordChar(c: char) {
    'a' <= c <= 'z' || 'A' <= c <= 'Z' || '0' <= c <= '9' || c == '_'
  }

  // ---------------------------------------------------------------------
  // The important marker in a token: `/^!|!$|\B!\b/`

  /** Whether `/^!|!$|\B!\b/` matches the character at position `i` of `s`. */
  predicate BangAt(s: string, i: nat)
    requires i < |s|
  {
    s[i] == '!' &&
    (i == 0 || i == |s| - 1 || (!IsWordChar(s[i - 1]) && i + 1 < |s| && IsWordChar(s[i + 1])))
  }

  /** The leftmost position from `i` on where the marker pattern matches. */
  function FirstBang(s: string, i: nat): (r: Option<nat>)
    requires i <= |s|
    ensures r.Some? ==> i <= r.value < |s| && BangAt(s, r.value)
    ensures r.Some? ==> forall k :: i <= k < r.value ==> !BangAt(s, k)
    ensures r.None? ==> forall k :: i <= k < |s| ==> !BangAt(s, k)
    decreases |s| - i
  {
    if i == |s| then None else if BangAt(s, i) then Some(i) else FirstBang(s, i + 1)
  }

  /** `token.replace(/^!|!$|\B!\b/, '')`: the first marker match is dropped. */
  function StripImportant(s: string): string {
    match FirstBang(s, 0)
    case None => s
    case Some(k) => s[..k] + s[k + 1..]
  }

  /**
   * At most one `!` goes, and nothing else: a leading `!` is the one removed,
   * a token with no `!` is untouched, and a trailing `!` is removed when no
   * earlier `!` stands between word boundaries.
   */
  lemma StripImportantSpec(s: string)
    ensures multiset(StripImportant(s)) == multiset(s) || multiset(StripImportant(s)) + multiset{'!'} == multiset(s)
    ensures |s| > 0 && s[0] == '!' ==> StripImportant(s) == s[1..]
    ensures '!' !in s ==> StripImportant(s) == s
    ensures |s| > 0 && s[|s| - 1] == '!' && (forall k :: 0 <= k < |s| - 1 ==> !BangAt(s, k)) ==>
      StripImportant(s) == s[..|s| - 1]
  {
    match FirstBang(s, 0)
    case None =>
      assert |s| > 0 ==> !BangAt(s, 0) && !BangAt(s, |s| - 1);
    case Some(k) =>
      assert s == s[..k] + [s[k]] + s[k + 1..];
      if |s| > 0 && s[|s| - 1] == '!' && (forall k :: 0 <= k < |s| - 1 ==> !BangAt(s, k)) {
        assert BangAt(s, |s| - 1);
        assert s[|s| - 1..] == [s[|s| - 1]];
      }
  }

  // ---------------------------------------------------------------------
  // `/!important\b/`

  predicate ImportantAt(css: string, i: nat) {
    OccursAt(css, "!important", i) && (i + 10 == |css| || !IsWordChar(css[i + 10]))
  }

  /** `/!important\b/.test(css)`. */
  predicate HasImportant(css: string) {
    exists i :: 0 <= i < |css| && ImportantAt(css, i)
  }

  // ---------------------------------------------------------------------
  // `css.replace(/(?:([^:]+)):[^;]+;/g, f)`

  predicate IsColon(c: char) { c == ':' }
  predicate IsSemi(c: char) { c == ';' }

  /**
   * The match of `/([^:]+):[^;]+;/` at the start of `s`: the captured name
   * and the length matched. Both runs are greedy and neither can backtrack,
   * so the name runs to the first `:` and the value to the next `;`.
   */
  function DeclMatch(s: string): (r: Option<(string, nat)>)
    ensures r.Some? ==> 3 <= r.value.1 <= |s|
  {
    var i := FirstWhere(s, IsColon);
    if i == 0 || i == |s| then None
    else
      var j := FirstWhere(s[i + 1..], IsSemi);
      if j == 0 || i + 1 + j == |s| then None
      else Some((s[..i], i + j + 2))
  }

  /**
   * A global replacement of that pattern, `f` receiving the captured name;
   * where no match starts the search moves on by one character.
   */
  function ReplaceDecls(s: string, f: string -> string): string
    decreases |s|
  {
    if |s| == 0 then ""
    else
      match DeclMatch(s)
      case Some((p, n)) => f(p) + ReplaceDecls(s[n..], f)
      case None => [s[0]] + ReplaceDecls(s[1..], f)
  }

  /** The property names of the declarations, in order. */
  function Names(es: Entries): (ns: seq<string>)
    ensures forall n :: n in ns <==> exists i :: 0 <= i < |es| && es[i].Decl? && es[i].prop == n
  {
    if |es| == 0 then []
    else
      var rest := Names(es[1..]);
      assert forall i :: 1 <= i < |es| ==> es[i] == es[1..][i - 1];
      (if es[0].Decl? then [es[0].prop] else []) + rest
  }

  function ConcatMap(ns: seq<string>, f: string -> string): string {
    if |ns| == 0 then "" else f(ns[0]) + ConcatMap(ns[1..], f)
  }

  /**
   * Declarations whose text the pattern matches once each: a name that is
   * non-empty and has no `:`, a value that is non-empty and has no `;`.
   */
  predicate WellFormed(es: Entries) {
    forall i :: 0 <= i < |es| && es[i].Decl? ==>
      es[i].prop != "" && ':' !in es[i].prop && es[i].value != "" && ';' !in es[i].value
  }

  lemma DeclMatchOne(p: string, v: string, rest: string)
    requires p != "" && ':' !in p && v != "" && ';' !in v
    ensures var s := p + ":" + v + ";" + rest;
      DeclMatch(s) == Some((p, |p| + |v| + 2)) && s[|p| + |v| + 2..] == rest
  {
    var s := p + ":" + v + ";" + rest;
    var i := FirstWhere(s, IsColon);
    assert s[|p|] == ':';
    assert forall k :: 0 <= k < |p| ==> s[k] == p[k] && !IsColon(s[k]);
    assert i == |p|;
    var t := s[i + 1..];
    assert t == v + ";" + rest;
    var j := FirstWhere(t, IsSemi);
    assert t[|v|] == ';';
    assert forall k :: 0 <= k < |v| ==> t[k] == v[k] && !IsSemi(t[k]);
    assert j == |v|;
    assert s[..i] == p;
  }

  /** On a well-formed body the pattern sees exactly its declarations, in order. */
  lemma {:induction false} ReplaceDeclsOfEntries(es: Entries, f: string -> string)
    requires WellFormed(es)
    ensures ReplaceDecls(EntriesToCss(es), f) == ConcatMap(Names(es), f)
  {
    if |es| > 0 {
      assert WellFormed(es[1..]) by {
        forall i | 0 <= i < |es| - 1 ensures es[1..][i] == es[i + 1] {}
      }
      ReplaceDeclsOfEntries(es[1..], f);
      match es[0]
      case Decl(p, v) =>
        var rest := EntriesToCss(es[1..]);
        DeclMatchOne(p, v, rest);
        assert EntriesToCss(es) == p + ":" + v + ";" + rest;
      case Marker(_) =>
        assert Names(es) == Names(es[1..]);
    }
  }

  // ---------------------------------------------------------------------
  // The keys of a token

  /** The CSS text of a body: `entriesToCss` of its declarations, or raw text. */
  function BodyText(css: Body): string {
    match css
    case Decls(es) => EntriesToCss(es)
    case RawText(t) => t
  }

  /** The replacement `'$1; '`. */
  function Spaced(p: string): string { p + "; " }

  /** The replacement that drops custom properties and keeps `name;` otherwise. */
  function GroupName(p: string): string {
    if StartsWith(p, "--") then "" else p + ";"
  }

  /** The property list: names followed by `; `, split on white space, sorted, joined. */
  function Content(css: Body): string {
    Concat(Sort(SplitEach(ReplaceDecls(BodyText(css), Spaced), IsWs)))
  }

  function GroupBody(css: Body): string {
    ReplaceDecls(BodyText(css), GroupName)
  }

  /**
   * The variant of a token: the token without its important marker and
   * without the selector its variants leave, prefixed with `!` when the
   * body holds an `!important`.
   */
  function VariantOf(token: string, current: string, css: Body): string {
    (if HasImportant(BodyText(css)) then "!" else "") + ReplaceFirst(StripImportant(token), current, "")
  }

  datatype TokenKeys = TokenKeys(variant: string, groupKey: string, tempKey: string, content: string)

  /** The keys of a token whose first variant branch leaves `current` and whose body is `css`. */
  function KeysOf(token: string, current: string, css: Body): (k: TokenKeys)
    ensures StartsWith(k.groupKey, k.variant) && StartsWith(k.tempKey, k.variant)
    ensures k.content == Content(css) && k.tempKey == k.variant + k.content
    ensures HasImportant(BodyText(css)) ==> StartsWith(k.variant, "!")
  {
    var v := VariantOf(token, current, css);
    var g := v + GroupBody(css);
    var t := v + Content(css);
    assert g[..|v|] == v && t[..|v|] == v;
    TokenKeys(v, g, t, Content(css))
  }

  function Semis(ns: seq<string>): (r: seq<string>)
    ensures |r| == |ns| && forall i :: 0 <= i < |ns| ==> r[i] == ns[i] + ";"
  {
    if |ns| == 0 then [] else [ns[0] + ";"] + Semis(ns[1..])
  }

  lemma {:induction false} SplitSpaced(ns: seq<string>)
    requires forall n :: n in ns ==> NoWs(n)
    ensures SplitEach(ConcatMap(ns, Spaced), IsWs) == Semis(ns) + [""]
  {
    if |ns| > 0 {
      var n := ns[0];
      var rest := ConcatMap(ns[1..], Spaced);
      var s := ConcatMap(ns, Spaced);
      assert s == n + ";" + " " + rest;
      var i := FirstWhere(s, IsWs);
      assert s[|n|] == ';' && s[|n| + 1] == ' ';
      assert ns[0] in ns && NoWs(n);
      assert forall k :: 0 <= k < |n| ==> s[k] == n[k] && !IsWs(s[k]);
      assert !IsWs(s[|n|]) && IsWs(s[|n| + 1]);
      assert i == |n| + 1;
      assert s[..i] == n + ";";
      assert s[i + 1..] == rest;
      SplitSpaced(ns[1..]);
    }
  }

  lemma InsertEmpty(l: seq<string>)
    ensures Insert("", l) == [""] + l
  {}

  /**
   * The property list of a declaration body is its property names, each
   * followed by `;`, in sorted order.
   */
  lemma ContentOfDecls(es: Entries)
    requires WellFormed(es) && forall n :: n in Names(es) ==> NoWs(n)
    ensures Content(Decls(es)) == Concat(Sort(Semis(Names(es))))
  {
    var ns := Names(es);
    ReplaceDeclsOfEntries(es, Spaced);
    SplitSpaced(ns);
    var l := Semis(ns) + [""];
    assert l[..|l| - 1] == Semis(ns);
    InsertEmpty(Sort(Semis(ns)));
  }

  /** The group key of a declaration body names each non-custom property once, with `;`. */
  lemma GroupOfDecls(es: Entries)
    requires WellFormed(es)
    ensures GroupBody(Decls(es)) == ConcatMap(Names(es), GroupName)
  {
    ReplaceDeclsOfEntries(es, GroupName);
  }
}
