/**
 * Which earlier entries a token evicts: `combineAffixes`, the table of
 * shorthand properties and the longhands they override, and
 * `getConflictingKeys`.
 */
module Conflicts {
  import opened Wrappers
  import opened Text
  import opened Keys

  // ---------------------------------------------------------------------
  // combineAffixes

  /**
   * One name with its affixes: `[leading, s, trailing].filter(Boolean).join('-')`.
   * An absent option is the empty string, which the filter drops alike.
   */
  function Affixed(s: string, leading: string, trailing: string): string {
    Join(Filter([leading, s, trailing], NonEmpty), "-")
  }

  lemma AffixParts(s: string, leading: string, trailing: string)
    requires s != ""
    ensures Filter([leading, s, trailing], NonEmpty) ==
      (if leading != "" then [leading] else []) + [s] + (if trailing != "" then [trailing] else [])
  {
    FilterSnoc([], leading, NonEmpty);
    FilterSnoc([leading], s, NonEmpty);
    FilterSnoc([leading, s], trailing, NonEmpty);
    assert [] + [leading] == [leading] && [leading] + [s] == [leading, s] && [leading, s] + [trailing] == [leading, s, trailing];
  }

  lemma AffixedSpec(s: string, leading: string, trailing: string)
    requires s != ""
    ensures leading != "" && trailing != "" ==> Affixed(s, leading, trailing) == leading + "-" + s + "-" + trailing
    ensures leading != "" && trailing == "" ==> Affixed(s, leading, trailing) == leading + "-" + s
    ensures leading == "" && trailing != "" ==> Affixed(s, leading, trailing) == s + "-" + trailing
    ensures leading == "" && trailing == "" ==> Affixed(s, leading, trailing) == s
  {
    AffixParts(s, leading, trailing);
    var f := Filter([leading, s, trailing], NonEmpty);
    assert Affixed(s, leading, trailing) == Join(f, "-");
    if leading != "" && trailing != "" {
      assert f == [leading, s, trailing] && f[1..] == [s, trailing] && f[1..][1..] == [trailing];
      assert Join([s, trailing], "-") == s + "-" + Join([trailing], "-");
      assert Join(f, "-") == leading + "-" + Join([s, trailing], "-");
    } else if leading != "" {
      assert f == [leading, s] && f[1..] == [s];
      assert Join(f, "-") == leading + "-" + Join([s], "-");
    } else if trailing != "" {
      assert f == [s, trailing] && f[1..] == [trailing];
      assert Join(f, "-") == s + "-" + Join([trailing], "-");
    } else {
      assert f == [s];
    }
  }

  function AffixAll(content: seq<string>, leading: string, trailing: string): (r: seq<string>)
    ensures |r| == |content|
    ensures forall i :: 0 <= i < |r| ==> r[i] == Affixed(content[i], leading, trailing)
  {
    if |content| == 0 then [] else [Affixed(content[0], leading, trailing)] + AffixAll(content[1..], leading, trailing)
  }

  /** `combineAffixes(content, { leading, trailing })`: the names sorted, then affixed. */
  function CombineAffixes(content: seq<string>, leading: string, trailing: string): seq<string> {
    AffixAll(Sort(content), leading, trailing)
  }

  /** `combineAffixesString`: the affixed names joined with `;`. */
  function CombineAffixesString(content: seq<string>, leading: string, trailing: string): string {
    Join(CombineAffixes(content, leading, trailing), ";")
  }

  /**
   * `combineAffixes` yields one affixed name per input name, and an affixed
   * name appears exactly when its bare name was given, in any order.
   */
  lemma CombineAffixesSpec(content: seq<string>, leading: string, trailing: string)
    ensures |CombineAffixes(content, leading, trailing)| == |content|
    ensures forall x :: x in CombineAffixes(content, leading, trailing) <==>
      exists i :: 0 <= i < |content| && x == Affixed(content[i], leading, trailing)
    ensures Sorted(Sort(content))
  {
    var sorted := Sort(content);
    var r := CombineAffixes(content, leading, trailing);
    SortSorted(content);
    SortMembers(content);
    forall x ensures x in r <==> exists i :: 0 <= i < |content| && x == Affixed(content[i], leading, trailing)
    {
      if x in r {
        var k :| 0 <= k < |r| && r[k] == x;
        assert sorted[k] in sorted;
        var i :| 0 <= i < |content| && content[i] == sorted[k];
      }
      if exists i :: 0 <= i < |content| && x == Affixed(content[i], leading, trailing) {
        var i :| 0 <= i < |content| && x == Affixed(content[i], leading, trailing);
        assert content[i] in content;
        var k :| 0 <= k < |sorted| && sorted[k] == content[i];
        assert r[k] == x;
      }
    }
  }

  lemma {:induction false} JoinNoChar(parts: seq<string>, sep: string, c: char)
    requires c !in sep && forall i :: 0 <= i < |parts| ==> c !in parts[i]
    ensures c !in Join(parts, sep)
  {
    if |parts| > 1 {
      JoinNoChar(parts[1..], sep, c);
    }
  }

  /** Splitting a `;`-join of names without `;` on `;` gives the names back. */
  lemma NoSemi(p: string)
    requires ';' !in p
    ensures forall k :: 0 <= k < |p| ==> !IsSemi(p[k])
  {
    forall k | 0 <= k < |p|
      ensures !IsSemi(p[k])
    {
      assert p[k] in p;
    }
  }

  lemma {:induction false} JoinSplitSemi(parts: seq<string>)
    requires |parts| >= 1 && forall i :: 0 <= i < |parts| ==> ';' !in parts[i]
    ensures SplitEach(Join(parts, ";"), IsSemi) == parts
  {
    var p := parts[0];
    NoSemi(p);
    if |parts| == 1 {
      SplitEachNone(p, IsSemi);
    } else {
      JoinSplitSemi(parts[1..]);
      assert Join(parts, ";") == p + [';'] + Join(parts[1..], ";");
      SplitEachCons(p, ';', Join(parts[1..], ";"), IsSemi);
      assert parts == [p] + parts[1..];
    }
  }

  /** `combineAffixesString` splits back into `combineAffixes` when no name holds `;`. */
  lemma CombineAffixesStringSplits(content: seq<string>, leading: string, trailing: string)
    requires |content| >= 1 && ';' !in leading && ';' !in trailing
    requires forall i :: 0 <= i < |content| ==> ';' !in content[i]
    ensures SplitEach(CombineAffixesString(content, leading, trailing), IsSemi) == CombineAffixes(content, leading, trailing)
  {
    var sorted := Sort(content);
    var r := CombineAffixes(content, leading, trailing);
    forall k | 0 <= k < |r| ensures ';' !in r[k] {
      assert sorted[k] in multiset(content);
      var i :| 0 <= i < |content| && content[i] == sorted[k];
      var xs := [leading, sorted[k], trailing];
      var f := Filter(xs, NonEmpty);
      forall j | 0 <= j < |f| ensures ';' !in f[j] {
        assert f[j] in xs;
      }
      JoinNoChar(f, "-", ';');
    }
    JoinSplitSemi(r);
  }

  // ---------------------------------------------------------------------
  // The table of shorthands

  /** The four sides, the logical sides and the two axes. */
  const Sides: seq<string> := ["top", "bottom", "left", "right", "inline", "inline-start", "inline-end", "block", "block-start", "block-end"]

  /**
   * A shorthand that takes each side: its side longhands, and the two
   * axis pairs that a token setting both sides at once carries as content.
   */
  function SidedGroup(leading: string, trailing: string): seq<string> {
    CombineAffixes(Sides, leading, trailing)
    + [CombineAffixesString(["left", "right"], leading, trailing),
       CombineAffixesString(["top", "bottom"], leading, trailing)]
  }

  /** The key of the two start corners of `border-radius`, which holds a `;`. */
  function StartCorners(): string {
    CombineAffixesString(["end-start", "start-start"], "border", "radius")
  }

  /** The keys of the table that hold no `;`: the only ones a property name can reach. */
  const PlainKeys: set<string> := {
    "overflow", "overscroll-behavior", "inset", "inset-inline", "inset-block", "gap",
    "padding", "padding-inline", "padding-block", "margin", "margin-inline", "margin-block",
    "border-radius", "border-width", "border-inline-width", "border-block-width",
    "border-color", "border-inline-color", "border-block-color", "scroll-margin", "scroll-padding"}

  /** The properties the table lists under `key`, a key of the table. */
  function GroupEntry(key: string): seq<string> {
    if key == "overflow" then CombineAffixes(["x", "y"], "overflow", "")
    else if key == "overscroll-behavior" then CombineAffixes(["x", "y"], "overscroll-behavior", "")
    else if key == "inset" then
      ["left", "right", "top", "bottom", "inset-inline", "inset-block",
       CombineAffixesString(["left", "right"], "", ""), CombineAffixesString(["top", "bottom"], "", "")]
    else if key == "inset-inline" then ["left", "right"]
    else if key == "inset-block" then ["top", "bottom"]
    else if key == "gap" then CombineAffixes(["row", "column"], "", "gap")
    else if key == "padding" then SidedGroup("padding", "")
    else if key == "padding-inline" then CombineAffixes(["left", "right", "inline-start", "inline-end"], "padding", "")
    else if key == "padding-block" then CombineAffixes(["top", "bottom", "block-start", "block-end"], "padding", "")
    else if key == "margin" then SidedGroup("margin", "")
    else if key == "margin-inline" then CombineAffixes(["left", "right", "inline-start", "inline-end"], "margin", "")
    else if key == "margin-block" then CombineAffixes(["top", "bottom", "block-start", "block-end"], "margin", "")
    else if key == "border-radius" then
      CombineAffixes(["start-start", "start-end", "end-end", "end-start", "top-left", "top-right", "bottom-right", "bottom-left"], "border", "radius")
      + [StartCorners(),
         CombineAffixesString(["start-end", "end-end"], "border", "radius"),
         CombineAffixesString(["top-left", "top-right"], "border", "radius"),
         CombineAffixesString(["bottom-left", "bottom-right"], "border", "radius"),
         CombineAffixesString(["top-left", "bottom-left"], "border", "radius"),
         CombineAffixesString(["top-right", "bottom-right"], "border", "radius")]
    else if key == "border-width" then SidedGroup("border", "width")
    else if key == "border-inline-width" then CombineAffixes(["left", "right"], "border", "width")
    else if key == "border-block-width" then CombineAffixes(["top", "bottom"], "border", "width")
    else if key == "border-color" then SidedGroup("border", "color")
    else if key == "border-inline-color" then CombineAffixes(["left", "right"], "border", "color")
    else if key == "border-block-color" then CombineAffixes(["top", "bottom"], "border", "color")
    else if key == "scroll-margin" then SidedGroup("scroll-margin", "")
    else if key == "scroll-padding" then SidedGroup("scroll-padding", "")
    else CombineAffixes(["end-start", "start-start"], "border", "radius")
  }

  /**
   * `conflictingGroups`: the properties a single-property token overrides,
   * by the property it sets. The entry keyed by the two start corners
   * holds a `;` in its key, so no single property name reaches it.
   */
  const ConflictingGroups: map<string, seq<string>> :=
    map k | k in PlainKeys + {StartCorners()} :: GroupEntry(k)

  /** `table[p] ?? []`, reading only the table's own entries. */
  function Lookup(table: map<string, seq<string>>, p: string): seq<string> {
    if p in table then table[p] else []
  }

  lemma JoinHasSemi(parts: seq<string>)
    requires |parts| >= 2
    ensures ';' in Join(parts, ";")
  {
    var s := Join(parts, ";");
    assert s == parts[0] + ";" + Join(parts[1..], ";");
    assert s[|parts[0]|] == ';';
  }

  /** Every key of the table is one of the plain keys or holds a `;`. */
  lemma TableKeys()
    ensures forall k :: k in ConflictingGroups ==> k in PlainKeys || ';' in k
  {
    var parts := CombineAffixes(["end-start", "start-start"], "border", "radius");
    JoinHasSemi(parts);
    assert StartCorners() == Join(parts, ";");
  }

  lemma NotATableKey(p: string)
    requires ';' !in p && p !in PlainKeys
    ensures p !in ConflictingGroups
  {
    TableKeys();
  }

  /** A shorthand's side longhands are among the keys it evicts. */
  lemma SidedGroupHasSides(leading: string, trailing: string, side: string)
    requires side in Sides
    ensures Affixed(side, leading, trailing) in SidedGroup(leading, trailing)
  {
    var i :| 0 <= i < |Sides| && Sides[i] == side;
    CombineAffixesSpec(Sides, leading, trailing);
  }

  // ---------------------------------------------------------------------
  // getConflictingKeys

  /** A property that takes part in conflicts: present and not a custom property. */
  predicate Included(p: string) {
    p != "" && !StartsWith(p, "--")
  }

  /** The property list split on `;`, custom properties and empty pieces dropped. */
  function IncludeProperties(content: string): (ps: seq<string>)
    ensures forall p :: p in ps ==> Included(p) && ';' !in p
  {
    var pieces := SplitEach(content, IsSemi);
    assert forall p :: p in pieces ==> ';' !in p by {
      forall p | p in pieces ensures ';' !in p {
        var k :| 0 <= k < |pieces| && pieces[k] == p;
        assert forall i :: 0 <= i < |p| ==> !IsSemi(pieces[k][i]);
      }
    }
    Filter(pieces, Included)
  }

  /** Each name as a key: `${variant}${p};`. */
  function Prefixed(variant: string, ps: seq<string>): (r: seq<string>)
    ensures |r| == |ps| && forall i :: 0 <= i < |ps| ==> r[i] == variant + ps[i] + ";"
    ensures forall i :: 0 <= i < |ps| ==> StartsWith(r[i], variant)
  {
    if |ps| == 0 then []
    else
      assert (variant + ps[0] + ";")[..|variant|] == variant;
      [variant + ps[0] + ";"] + Prefixed(variant, ps[1..])
  }

  /** The `flatMap` over the table. */
  function GroupLookups(table: map<string, seq<string>>, variant: string, ps: seq<string>): (r: seq<string>)
    ensures forall i :: 0 <= i < |r| ==> StartsWith(r[i], variant)
  {
    if |ps| == 0 then [] else Prefixed(variant, Lookup(table, ps[0])) + GroupLookups(table, variant, ps[1..])
  }

  /** `getConflictingKeys` over a given table. */
  function ConflictingKeysIn(table: map<string, seq<string>>, content: string, variant: string): (r: seq<string>)
    ensures forall i :: 0 <= i < |r| ==> StartsWith(r[i], variant)
  {
    var inc := IncludeProperties(content);
    if |inc| > 1 then Prefixed(variant, inc) else GroupLookups(table, variant, inc)
  }

  /**
   * `getConflictingKeys(content, variant)`: a token with several properties
   * evicts the entries keyed by each of them; a token with one property
   * evicts the longhands the table lists for it. Every key carries the
   * token's variant.
   */
  function GetConflictingKeys(content: string, variant: string): (r: seq<string>)
    ensures forall i :: 0 <= i < |r| ==> StartsWith(r[i], variant)
  {
    ConflictingKeysIn(ConflictingGroups, content, variant)
  }

  /** The three cases of `getConflictingKeys`, stated on the included properties. */
  lemma ConflictingKeysCases(table: map<string, seq<string>>, content: string, variant: string)
    ensures var inc := IncludeProperties(content);
      |inc| > 1 ==>
        forall x :: x in ConflictingKeysIn(table, content, variant) <==> exists p :: p in inc && x == variant + p + ";"
    ensures var inc := IncludeProperties(content);
      |inc| == 1 ==> ConflictingKeysIn(table, content, variant) == Prefixed(variant, Lookup(table, inc[0]))
    ensures IncludeProperties(content) == [] ==> ConflictingKeysIn(table, content, variant) == []
  {
    var inc := IncludeProperties(content);
    if |inc| > 1 {
      var r := ConflictingKeysIn(table, content, variant);
      forall x ensures x in r <==> exists p :: p in inc && x == variant + p + ";" {
        if exists p :: p in inc && x == variant + p + ";" {
          var p :| p in inc && x == variant + p + ";";
          var i :| 0 <= i < |inc| && inc[i] == p;
          assert r[i] == x;
        }
      }
    } else if |inc| == 1 {
      assert GroupLookups(table, variant, inc) == Prefixed(variant, Lookup(table, inc[0])) + GroupLookups(table, variant, []);
    }
  }

  /** A piece list ending in `;`-terminated names splits back into those names. */
  function Unsemi(ys: seq<string>): (r: seq<string>)
    requires forall i :: 0 <= i < |ys| ==> |ys[i]| > 0
    ensures |r| == |ys| && forall i :: 0 <= i < |ys| ==> r[i] == ys[i][..|ys[i]| - 1]
  {
    if |ys| == 0 then [] else [ys[0][..|ys[0]| - 1]] + Unsemi(ys[1..])
  }

  predicate SemiTerminated(y: string) {
    |y| > 0 && y[|y| - 1] == ';' && ';' !in y[..|y| - 1]
  }

  lemma {:induction false} SplitSemis(ys: seq<string>)
    requires forall i :: 0 <= i < |ys| ==> SemiTerminated(ys[i])
    requires forall i :: 0 <= i < |ys| ==> |ys[i]| > 0
    ensures SplitEach(Concat(ys), IsSemi) == Unsemi(ys) + [""]
  {
    if |ys| > 0 {
      var y := ys[0];
      var n := y[..|y| - 1];
      var rest := Concat(ys[1..]);
      var s := Concat(ys);
      assert y == n + ";";
      assert s == n + ";" + rest;
      var i := FirstWhere(s, IsSemi);
      assert forall k :: 0 <= k < |n| ==> s[k] == n[k] && !IsSemi(s[k]);
      assert s[|n|] == ';';
      assert i == |n|;
      assert s[..i] == n && s[i + 1..] == rest;
      SplitSemis(ys[1..]);
    }
  }

  lemma {:induction false} SemisMembers(ns: seq<string>)
    ensures forall p :: p + ";" in Semis(ns) <==> p in ns
  {
    forall p ensures p + ";" in Semis(ns) <==> p in ns {
      if p + ";" in Semis(ns) {
        var j :| 0 <= j < |ns| && Semis(ns)[j] == p + ";";
        assert (ns[j] + ";")[..|ns[j]|] == ns[j] && (p + ";")[..|p|] == p;
      }
      if p in ns {
        var j :| 0 <= j < |ns| && ns[j] == p;
        assert Semis(ns)[j] == p + ";";
      }
    }
  }

  lemma UnsemiMembers(l: seq<string>)
    requires forall i :: 0 <= i < |l| ==> SemiTerminated(l[i])
    requires forall i :: 0 <= i < |l| ==> |l[i]| > 0
    ensures forall p :: p in Unsemi(l) <==> p + ";" in l
  {
    forall p ensures p in Unsemi(l) <==> p + ";" in l {
      if p in Unsemi(l) {
        var i :| 0 <= i < |l| && Unsemi(l)[i] == p;
        assert l[i] == l[i][..|l[i]| - 1] + [l[i][|l[i]| - 1]];
      }
      if p + ";" in l {
        var i :| 0 <= i < |l| && l[i] == p + ";";
        assert l[i][..|l[i]| - 1] == p;
      }
    }
  }

  /**
   * On a well-formed declaration body, the properties `getConflictingKeys`
   * considers are exactly the token's own non-custom property names.
   */
  lemma OwnProperties(es: Config.Entries)
    requires WellFormed(es)
    requires forall n :: n in Names(es) ==> NoWs(n) && ';' !in n
    ensures forall p :: p in IncludeProperties(Content(Config.Decls(es))) <==> p in Names(es) && !StartsWith(p, "--")
  {
    var ns := Names(es);
    assert forall n :: n in ns ==> NoWs(n);
    ContentOfDecls(es);
    var l := Sort(Semis(ns));
    SortedSemis(ns);
    SplitSemis(l);
    UnsemiMembers(l);
    SemisMembers(ns);
    assert forall n :: n in ns ==> n != "" by {
      forall n | n in ns ensures n != "" {
        var i :| 0 <= i < |es| && es[i].Decl? && es[i].prop == n;
      }
    }
    var pieces := Unsemi(l) + [""];
    assert SplitEach(Content(Config.Decls(es)), IsSemi) == pieces;
    assert IncludeProperties(Content(Config.Decls(es))) == Filter(pieces, Included);
    IncludedPieces(l, ns);
  }

  lemma SemiTerminatedOf(n: string)
    requires ';' !in n
    ensures SemiTerminated(n + ";") && |n + ";"| > 0
  {
    assert (n + ";")[..|n|] == n;
  }

  lemma SortedSemis(ns: seq<string>)
    requires forall n :: n in ns ==> ';' !in n
    ensures forall i :: 0 <= i < |Sort(Semis(ns))| ==> SemiTerminated(Sort(Semis(ns))[i]) && |Sort(Semis(ns))[i]| > 0
    ensures forall y :: y in Sort(Semis(ns)) <==> y in Semis(ns)
  {
    var l := Sort(Semis(ns));
    SortMembers(Semis(ns));
    forall i | 0 <= i < |l| ensures SemiTerminated(l[i]) && |l[i]| > 0 {
      assert l[i] in Semis(ns);
      var j :| 0 <= j < |ns| && Semis(ns)[j] == l[i];
      assert ns[j] in ns;
      SemiTerminatedOf(ns[j]);
    }
  }

  lemma IncludedPieces(l: seq<string>, ns: seq<string>)
    requires forall i :: 0 <= i < |l| ==> |l[i]| > 0
    requires forall p :: p in Unsemi(l) <==> p + ";" in l
    requires forall y :: y in l <==> y in Semis(ns)
    requires forall p :: p + ";" in Semis(ns) <==> p in ns
    requires forall n :: n in ns ==> n != ""
    ensures forall p :: p in Filter(Unsemi(l) + [""], Included) <==> p in ns && !StartsWith(p, "--")
  {
    var pieces := Unsemi(l) + [""];
    forall p ensures p in Filter(pieces, Included) <==> p in ns && !StartsWith(p, "--") {
      var y := p + ";";
      assert p in pieces <==> p == "" || p in Unsemi(l);
      assert p in Unsemi(l) <==> y in l;
      assert y in l <==> y in Semis(ns);
      assert y in Semis(ns) <==> p in ns;
    }
  }

  // ---------------------------------------------------------------------
  // The table read as a plain object

  /**
   * The members every object inherits from `Object.prototype`; indexing the
   * table with one of them yields a function or an object, never an array.
   */
  const PrototypeMembers: set<string> := {
    "constructor", "toString", "toLocaleString", "valueOf", "hasOwnProperty",
    "isPrototypeOf", "propertyIsEnumerable", "__proto__", "__defineGetter__",
    "__defineSetter__", "__lookupGetter__", "__lookupSetter__"}

  /** `table[p] ?? []` as written: an inherited member has no `map`. */
  function LookupAsWritten(table: map<string, seq<string>>, p: string): Result<seq<string>> {
    if p in table then Ok(table[p])
    else if p in PrototypeMembers then Err(NotAFunction("properties.map"))
    else Ok([])
  }

  function GroupLookupsAsWritten(table: map<string, seq<string>>, variant: string, ps: seq<string>): Result<seq<string>> {
    if |ps| == 0 then Ok([])
    else
      var first :- LookupAsWritten(table, ps[0]);
      var rest :- GroupLookupsAsWritten(table, variant, ps[1..]);
      Ok(Prefixed(variant, first) + rest)
  }

  /** `getConflictingKeys` as written, where the table is a plain object. */
  function ConflictingKeysAsWritten(table: map<string, seq<string>>, content: string, variant: string): Result<seq<string>> {
    var inc := IncludeProperties(content);
    if |inc| > 1 then Ok(Prefixed(variant, inc)) else GroupLookupsAsWritten(table, variant, inc)
  }

  function GetConflictingKeysAsWritten(content: string, variant: string): Result<seq<string>> {
    ConflictingKeysAsWritten(ConflictingGroups, content, variant)
  }

  /** Away from the inherited member names, the code as written agrees with the model. */
  lemma AsWrittenAgrees(table: map<string, seq<string>>, content: string, variant: string)
    requires forall p :: p in IncludeProperties(content) ==> p !in PrototypeMembers
    ensures ConflictingKeysAsWritten(table, content, variant) == Ok(ConflictingKeysIn(table, content, variant))
  {
    var inc := IncludeProperties(content);
    if |inc| == 1 {
      assert inc[0] in inc;
      assert GroupLookupsAsWritten(table, variant, inc[1..]) == Ok([]);
      assert GroupLookups(table, variant, inc) == Prefixed(variant, Lookup(table, inc[0])) + GroupLookups(table, variant, []);
    }
  }

  /** The inherited members are spelled with word characters only. */
  lemma PrototypeMemberChars(p: string)
    requires p in PrototypeMembers
    ensures forall i :: 0 <= i < |p| ==> IsWordChar(p[i])
  {
  }

  lemma NotCustom(p: string)
    requires p != "" && p[0] != '-'
    ensures Included(p)
  {
    assert |p| >= 2 ==> p[..2][0] == p[0] && "--"[0] == '-';
  }

  lemma SingleName(p: string)
    requires Included(p) && ';' !in p
    ensures IncludeProperties(p) == [p]
  {
    var i := FirstWhere(p, IsSemi);
    assert forall k :: 0 <= k < |p| ==> !IsSemi(p[k]);
    assert i == |p|;
    assert SplitEach(p, IsSemi) == [p];
    assert [p][..0] == [];
  }

  lemma SingleMemberThrows(table: map<string, seq<string>>, p: string, variant: string)
    requires Included(p) && ';' !in p && p !in table && p in PrototypeMembers
    ensures ConflictingKeysAsWritten(table, p, variant) == Err(NotAFunction("properties.map"))
    ensures ConflictingKeysIn(table, p, variant) == []
  {
    SingleName(p);
    assert GroupLookups(table, variant, [p]) == Prefixed(variant, Lookup(table, p)) + GroupLookups(table, variant, []);
  }

  lemma MemberNoSemi(p: string)
    requires p in PrototypeMembers
    ensures p != "" && p[0] != '-' && ';' !in p
  {
  }

  lemma MemberNotPlain(p: string)
    requires p in PrototypeMembers
    ensures p !in PlainKeys
  {
  }

  /**
   * A token whose property list is a single inherited member name, such as
   * `constructor`, makes the code as written throw; the model evicts nothing.
   */
  lemma PrototypeNameThrows(p: string, variant: string)
    requires p in PrototypeMembers
    ensures GetConflictingKeysAsWritten(p, variant) == Err(NotAFunction("properties.map"))
    ensures GetConflictingKeys(p, variant) == []
  {
    MemberNoSemi(p);
    MemberNotPlain(p);
    NotATableKey(p);
    NotCustom(p);
    SingleMemberThrows(ConflictingGroups, p, variant);
  }
}
