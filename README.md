# uno-merge, modelled in Dafny

uno-merge merges a string of UnoCSS utility classes. Later classes win over
earlier ones that set the same CSS properties under the same variant, and a
single-property shorthand retires the longhands it overrides. It has two parts:

- **The merger** (`createUnoMerge` in `src/uno-merge.ts`) derives four keys
  for every token: a variant, a group key, a temporary key and a property
  list. It then folds the tokens into two maps. One is an insertion-ordered
  map from temporary key to token. The other maps group keys to the
  temporary keys recorded under them. `getConflictingKeys` names the entries
  each token evicts. It uses `conflictingGroups`, the table of shorthands
  that `combineAffixes` and `combineAffixesString` build.
- **The generator** (`src/generator.ts`) is a synchronous copy of the UnoCSS
  matching pipeline. It answers "which CSS does this token produce":
  - `matchVariants` peels variants off the token.
  - `parseUtil` and `resolveCSSResult` run the static and dynamic rules.
  - `expandShortcut` and `stringifyShortcuts` handle shortcuts.
  - `applyVariants` and `stringifyUtil` apply variant handlers.
  - `parseToken` caches all of this, and the blocklist gates it.

The model keeps the source's own form:

- State that the source updates in place becomes a class:
  - `UnoMerges.UnoMerge` holds the merger's key cache.
  - `Generators.Generator` holds the generator's `cache`, `blocked` and
    `parentOrders`.
  - Every loop of the source that updates state is a method with its
    invariants. The loops of `expandShortcut` (over the shortcuts and over
    the matched branches) change nothing and are kept as recursion over
    values, in `Shortcuts.FindShortcut` and `Shortcuts.FromVariants`.
- Each method is proved to compute a specification function over values. The
  properties the merger and the pipeline promise are lemmas about those
  functions:
  - `Merging`: the merge, as functions of the configuration and the input.
  - `Keys` and `Conflicts`: key derivation and eviction.
  - `Variants`: variant matching.
  - `Rules`: rule resolution.
  - `Apply`: applying variant handlers.
  - `Shortcuts` and `Grouping`: shortcut expansion and grouping.
  - `Pipeline`: `parseToken`.
- JavaScript's `Map` is `OrderedMaps.OrderedMap`. `set` on a present key keeps
  its place, and `delete` followed by `set` moves the key to the end.
- Configuration-supplied callbacks are total functions that return closed
  tagged unions. These callbacks are variant matchers, rule and shortcut
  handlers, blocklist predicates, pre- and post-processors,
  `toEscapedSelector` and `expandVariantGroup`.

Where the code and its documentation disagree, the model follows the code:

- The 500-handler guard of `matchVariants` is checked per branch, after each
  single application (`src/generator.ts:216-217`). It is not a global limit,
  and it is not checked when a variant splits the branch.
- `stringifyShortcuts` gives every utility of a group the largest sort of its
  no-merge class, including the items emitted one by one
  (`src/generator.ts:676-682`).
- A static shortcut whose value is falsy still stops the scan; only its meta
  is kept (`src/generator.ts:567-573`).

## Model

| member | source | states |
|---|---|---|
| UnoMerges.UnoMerge.constructor | src/uno-merge.ts:6-8 | a new merger owns a fresh generator over the configuration and an empty key cache |
| UnoMerges.UnoMerge.ParseToken | src/uno-merge.ts:10-34 | the keys returned are exactly the keys `Merging.KeysSpec` derives for the token; a success is cached under the token, a failure leaves the cache alone, and the generator keeps its configuration |
| UnoMerges.UnoMerge.KeysFromAnswer | src/uno-merge.ts:16-29 | the keys built from the generator's answer and from the first variant branch equal `Merging.KeysSpec` of the token |
| UnoMerges.UnoMerge.Merge | src/uno-merge.ts:36-63 | the loop over the split input returns `Merging.MergeSpec`, the merge of the configuration and the input, error cases included |
| UnoMerges.UnoMerge.MergePiece | src/uno-merge.ts:40-59 | one loop pass: an empty piece is skipped; a failing piece's error is the error of the whole merge; otherwise the loop state equals `Run` of the tokens keyed so far |
| UnoMerges.UnoMerge.SetConfig | src/uno-merge.ts:69-72 | the key cache is always cleared; the generator takes the new configuration, and no configuration leaves it as it was |
| UnoMerges.MergeToken | src/uno-merge.ts:46-59 | the group push, the removal loop and the store compute `Merging.MergeStep` of the token |
| UnoMerges.DeleteKeys | src/uno-merge.ts:56 | deleting the temporary keys one by one gives `DeleteAll`, the map less those keys |
| UnoMerges.KeysFromParse | src/uno-merge.ts:16-29 | the keying fails with the generator's error, or with the `undefined` read when every utility is an at-rule, or with the variant error; otherwise the keys come from the first non-at-rule body and the first branch |
| UnoMerges.KeyedPiece | src/uno-merge.ts:40-44 | a piece that cannot be keyed makes the merge fail with its error; a keyed piece extends the keyed tokens by one |
| UnoMerges.MergedAll | src/uno-merge.ts:60-62 | once every piece is keyed, the merge answers with the output of the run |
| UnoMerges.CacheHit | src/uno-merge.ts:11-14 | a cached entry holds the keys `KeysSpec` derives, so a cache hit answers what recomputing would |
| UnoMerges.CacheExtend | src/uno-merge.ts:31 | storing the derived keys keeps every cached entry correct |
| UnoMerges.CacheKeyOfWord | src/generator.ts:89 | a generator cache key without white space was filled for that token with no alias |
| UnoMerges.KeyAllStops | src/uno-merge.ts:40-44 | keying stops at the first failing token; later tokens do not change the answer |
| Merging.TokenCssSpec | src/uno-merge.ts:16-17 | an unrecognised or blocked token is keyed by its own text; a recognised one by the body of its first non-at-rule utility; the body fails exactly when every utility is an at-rule |
| Merging.RecognisedTokenThrows | src/uno-merge.ts:16 | as written, every recognised token throws, because the generator's answer is an object without `filter`; the corrected body is defined whenever a non-at-rule exists; on other tokens both agree |
| Merging.KeysSpec | src/uno-merge.ts:19-29 | the group key and the temporary key both start with the variant, and the property list is that of the token's body |
| Merging.PrototypeTokenThrows | src/uno-merge.ts:149-157 | an unrecognised token named after an `Object.prototype` member is keyed fine, then makes `getConflictingKeys` as written throw; the corrected table lookup evicts nothing |
| Merging.KeyToken | src/uno-merge.ts:44-52 | keying succeeds exactly when the keys can be derived; the removal keys are `getConflictingKeys` of the property list and all start with the variant |
| Merging.KeyEach | src/uno-merge.ts:40-44 | each token is keyed in order, one result per token |
| Merging.CollectSpec | src/uno-merge.ts:40-44 | collecting succeeds exactly when every token is keyed, and keeps the values in place; otherwise it fails with the first error |
| Merging.CollectErr | src/uno-merge.ts:40-44 | after a failure, further results do not change the collected answer |
| Merging.DeleteAll | src/uno-merge.ts:56 | deleting a list of keys leaves a valid ordered map whose entries are the old ones less those keys |
| Merging.Prune | src/uno-merge.ts:54-57 | the removal loop leaves exactly the entries whose keys no removal target stands for |
| Merging.MergeStep | src/uno-merge.ts:46-59 | one token: its temporary key is recorded under its group key; the evicted entries go; the token is stored under its temporary key, whatever was there before |
| Merging.Run | src/uno-merge.ts:37-60 | the state after a whole input keeps the ordered map valid |
| Merging.Tokens | src/uno-merge.ts:40-42 | the tokens merged are non-empty and hold no white space |
| Merging.MergeFails | src/uno-merge.ts:40-44 | the merge fails exactly when some token cannot be keyed, and then with the error of the first such token |
| Merging.KeyerFails | src/uno-merge.ts:44 | under a configuration, a token fails to be keyed exactly when its keys cannot be derived, with the same error |
| Merging.LatestWins | src/uno-merge.ts:59-62 | every surviving entry holds the token of the latest item stored under its temporary key, so at most one token per temporary key survives and it is an input token |
| Merging.GroupsRecorded | src/uno-merge.ts:46-50 | the group map holds, under a non-empty group key, only temporary keys of tokens with that group key |
| Merging.EvictionNeedsKey | src/uno-merge.ts:52-57 | an entry is evicted only through a removal key: the entry's own temporary key, or a group key under which that temporary key was recorded |
| Merging.KeyAllScoped | src/uno-merge.ts:28-52 | every keyed token's temporary key, group key and removal keys begin with its variant |
| Merging.EvictionWithinScope | src/uno-merge.ts:52-57 | a token evicts an entry only if an earlier token that wrote that entry's temporary key has a variant that is a prefix of the evicting token's variant, or that the evicting variant is a prefix of |
| Merging.UnrelatedVariantsSurvive | src/uno-merge.ts:52-59 | an entry written only under variants that are neither a prefix nor an extension of the new token's variant survives that token with its value |
| Merging.GroupsHold | src/uno-merge.ts:46-50 | after a run, every token with a group key has its temporary key recorded under that group key |
| Merging.GroupKeysOf | src/uno-merge.ts:46-50 | the group map is keyed only by group keys of tokens of the run |
| Merging.EvictsEveryone | src/uno-merge.ts:52-59 | a token whose removal keys name each earlier token's group key, or its temporary key when no token uses that as a group key, leaves only itself in the ordered map |
| Merging.DeleteAllKeepsOrder | src/uno-merge.ts:56 | deleting keys keeps the relative order of the entries that are not deleted |
| Merging.PruneKeepsOrder | src/uno-merge.ts:54-57 | the removal loop keeps the relative order of the entries it does not evict |
| Merging.StepKeepsOrder | src/uno-merge.ts:59-62 | entries a token does not evict keep their relative order |
| Merging.NewEntryGoesLast | src/uno-merge.ts:59 | a token whose temporary key was absent or was just evicted ends up last |
| Merging.MergeBlank | src/uno-merge.ts:40-42 | an input of white space only merges to the empty string |
| Merging.BlankTokens | src/uno-merge.ts:40-42 | an input of white space only has no tokens |
| Merging.FilterFirst | src/uno-merge.ts:17 | the first element a filter keeps is the first element that passes the test |
| Merging.ContentOfName | src/uno-merge.ts:26 | a bare name without `:` or white space is its own property list |
| Keys.FirstBang | src/uno-merge.ts:21 | the leftmost position where `/^!\|!$\|\B!\b/` matches, and no match before it |
| Keys.StripImportantSpec | src/uno-merge.ts:21 | at most one `!` is removed and nothing else: a leading `!` goes, a token without `!` is untouched, a trailing `!` goes when no earlier marker matches |
| Keys.DeclMatch | src/uno-merge.ts:4 | a declaration match consumes at least three characters and stays within the text |
| Keys.Names | src/uno-merge.ts:26-28 | the property names are exactly those of the body's declarations |
| Keys.ReplaceDeclsOfEntries | src/uno-merge.ts:4 | on a well-formed body, the global replacement sees exactly the declarations, in order |
| Keys.KeysOf | src/uno-merge.ts:21-29 | the group and temporary keys start with the variant, the temporary key is the variant followed by the property list, and an `!important` body gives a `!` variant |
| Keys.ContentOfDecls | src/uno-merge.ts:26 | the property list of a declaration body is its names, each followed by `;`, sorted and joined |
| Keys.GroupOfDecls | src/uno-merge.ts:28 | the group-key text of a declaration body is each property name followed by `;`, in order, with custom properties dropped |
| Keys.SplitSpaced | src/uno-merge.ts:26 | splitting `name; ` pieces on white space gives each name with `;` and an empty tail |
| Conflicts.AffixedSpec | src/uno-merge.ts:172 | the affixed name is the non-empty parts of leading, name and trailing joined by `-`, in all four cases |
| Conflicts.AffixAll | src/uno-merge.ts:172 | one affixed name per name, in place |
| Conflicts.CombineAffixesSpec | src/uno-merge.ts:166-173 | one result per input name, and a name appears exactly when its bare name was given; the names are taken in sorted order |
| Conflicts.CombineAffixesStringSplits | src/uno-merge.ts:175-180 | the `;`-joined string splits back into `combineAffixes` when no part holds `;` |
| Conflicts.TableKeys | src/uno-merge.ts:82-146 | every key of the table is a plain name or holds a `;` |
| Conflicts.NotATableKey | src/uno-merge.ts:82-146 | a name without `;` that is not a plain key is absent from the table |
| Conflicts.SidedGroupHasSides | src/uno-merge.ts:82-146 | a sided shorthand lists each of its side longhands |
| Conflicts.IncludeProperties | src/uno-merge.ts:149 | every kept piece is non-empty, not a custom property, and holds no `;` |
| Conflicts.Prefixed | src/uno-merge.ts:152 | each key is the variant, the name and `;`, one per name |
| Conflicts.GroupLookups | src/uno-merge.ts:154-158 | every looked-up key starts with the variant |
| Conflicts.ConflictingKeysIn | src/uno-merge.ts:148-159 | every removal key starts with the variant |
| Conflicts.GetConflictingKeys | src/uno-merge.ts:148-159 | every removal key starts with the token's variant; what that buys the merge is `Merging.EvictionWithinScope` |
| Conflicts.ConflictingKeysCases | src/uno-merge.ts:148-159 | several properties give exactly `variant+p+;` for each; one property gives the table's entries for it, prefixed; none gives nothing |
| Conflicts.OwnProperties | src/uno-merge.ts:149 | on a declaration body, the properties considered are exactly the token's non-custom property names |
| Conflicts.AsWrittenAgrees | src/uno-merge.ts:154-158 | away from inherited member names, the table read as a plain object agrees with the model |
| Conflicts.SingleMemberThrows | src/uno-merge.ts:155-157 | a single inherited member name makes the plain-object read throw, while the model evicts nothing |
| Conflicts.PrototypeNameThrows | src/uno-merge.ts:155-157 | a property list that is one inherited member name, such as `constructor`, makes the code as written throw; the model evicts nothing |
| Conflicts.SingleName | src/uno-merge.ts:149 | a single plain name without `;` is its own list of properties |
| Variants.FirstApplicable | src/generator.ts:161-211 | the first variant from `i` on that does not skip, with every earlier one skipping; none exactly when all skip |
| Variants.MatchSpec | src/generator.ts:153-221 | at least one branch is returned; every branch is finished, keeps the raw token and extends the handler list it grew from; a branch has at most the larger of its start count and 500 handlers, plus one per variant not yet applied; without multi-pass variants it gains exactly one handler per newly applied variant, so each variant is applied at most once; the only errors are the multi-pass array error and the too-many-variants error naming the token |
| Variants.SingleSpec | src/generator.ts:206-217 | the same guarantees when the first applicable variant gives one handler |
| Variants.ClonesSpec | src/generator.ts:195-202 | the clones yield at least one branch each, every one grown from the original, with the same errors |
| Variants.MatchUnfold | src/generator.ts:184-217 | one round: a single handler restarts the scan on the new branch unless the guard trips; several handlers throw for a multi-pass variant and otherwise branch |
| Variants.ClonesUnfold | src/generator.ts:202 | a clone's branches come before those of the later clones, and the first error stops the rest |
| Variants.SingleStep | src/generator.ts:206-210 | a single application within the guard adds to the applied set, leaves the answer unchanged and brings the loop closer to its end |
| Variants.NoVariantApplies | src/generator.ts:213-228 | with no applicable variant, the answer is the single branch of the raw token, `current` or the raw token, no handlers and no variants |
| Generators.Generator.constructor | src/generator.ts:30-34 | a new generator has the configuration and empty cache, blocked set and parent orders |
| Generators.Generator.SetConfig | src/generator.ts:50-66 | a new configuration clears the cache, the blocked set and the parent orders; no configuration changes nothing |
| Generators.Generator.FirstVariant | src/generator.ts:161-211 | the scan over the variants returns the first applicable one |
| Generators.Generator.MatchFrom | src/generator.ts:153-221 | the `while (applied)` loop returns `Variants.Match` of its branch |
| Generators.Generator.MatchClones | src/generator.ts:195-202 | matching the clones in order returns `Variants.MatchClones` |
| Generators.Generator.MatchVariants | src/generator.ts:143-229 | returns `Variants.MatchVariants` of the token and the current selector |
| Generators.Generator.ResolveGroup | src/generator.ts:433-497 | the loop over one group's entries returns `Rules.ResolveValue` of that group |
| Generators.Generator.ResolveCSSResult | src/generator.ts:413-500 | returns `Rules.Resolve` of the rule's result |
| Generators.Generator.TryRule | src/generator.ts:340-401 | one dynamic rule's checks and result equal `Rules.TryRule` |
| Generators.Generator.ParseBranch | src/generator.ts:320-403 | the static rule, else the loop over dynamic rules, returns `Rules.ParseBranch` |
| Generators.Generator.ParseBranches | src/generator.ts:405 | parsing the branches in order returns `Rules.ParseBranches` |
| Generators.Generator.ParseUtil | src/generator.ts:310-411 | returns `Rules.ParseUtil` of the input |
| Generators.Generator.ApplyVariants | src/generator.ts:231-289 | the utility object is `Apply.ApplyVariants`, and `parentOrders` receives exactly its write |
| Generators.Generator.StringifyUtil | src/generator.ts:502-532 | returns `Apply.StringifyUtil`, and `parentOrders` receives its write |
| Generators.Generator.StringifyAll | src/generator.ts:122 | stringifying a parsed list in order keeps the defined utilities and makes the writes of `Pipeline.StringifyAll` |
| Generators.Generator.ParseExpanded | src/generator.ts:635-649 | the expanded items parse to `Grouping.ParsedOf` |
| Generators.Generator.CollectItem | src/generator.ts:655-669 | one iteration of the grouping loop computes `Grouping.CollectStep` and makes its writes |
| Generators.Generator.CollectAll | src/generator.ts:652-669 | the grouping loop computes `Grouping.Collect` of the sorted utilities and makes its writes |
| Generators.Generator.StringifyShortcuts | src/generator.ts:627-700 | returns the utilities of `Grouping.StringifyShortcuts`; its parent-order writes happen on success, and a failure writes nothing |
| Generators.Generator.HandleBranch | src/generator.ts:111-125 | returns the utilities of `Pipeline.HandleBranch`, shortcut path or rule path, and makes its writes on success; a failing branch writes nothing |
| Generators.Generator.HandleAll | src/generator.ts:127 | returns the utilities of `Pipeline.HandleAll` over all branches; whether it succeeds or fails, `parentOrders` holds the writes of the branches before the first failing one (`Pipeline.WritesMade`) |
| Generators.Generator.HandleEach | src/generator.ts:127 | the branches handled in order, their utilities gathered until one fails; the writes of the branches handled before a failure stay in `parentOrders` |
| Generators.Generator.Preprocess | src/generator.ts:95 | returns `Pipeline.Preprocess`, each pre-processor applied in order, a `None` answer keeping the selector |
| Generators.Generator.ParseFresh | src/generator.ts:95-140 | returns `Pipeline.ParseTokenResult`, reports whether the token is blocked, and writes the outcome's parent orders; on failure the writes made before it stay (`Pipeline.ParseWrites`) |
| Generators.Generator.ParseToken | src/generator.ts:82-141 | a blocked token gives nothing and changes nothing; a cached key gives its value unchanged; otherwise the fresh answer is cached, a blocked token is remembered, and the parent orders are written; a failing parse leaves the cache and the blocked set alone but keeps the writes its earlier branches made; whenever the key was filled for this token and alias, the answer is what parsing afresh gives |
| Generators.Generator.Store | src/generator.ts:98-140 | the cache and blocked set are updated with the outcome and stay consistent |
| Generators.ConsistentStore | src/generator.ts:98-140 | storing a fresh outcome keeps every cache entry equal to a fresh parse of its token and keeps every blocked token blocked |
| Pipeline.GetBlocked | src/generator.ts:708-716 | the first blocklist entry that hits, with every earlier entry missing; none exactly when no entry hits |
| Pipeline.BlockedIffFound | src/generator.ts:702-716 | a selector is blocked exactly when it is empty or `getBlocked` finds an entry for it |
| Pipeline.BlockedSpec | src/generator.ts:97-109 | `parseToken` blocks a token exactly when its pre-processed form is blocked or every branch's selector is, whatever the alias |
| Pipeline.EmptyTokenBlocked | src/generator.ts:97-101 | without pre-processors, the empty token is blocked |
| Pipeline.MatchedSpec | src/generator.ts:129-136 | a recognised token caches the selector of its first branch and a non-empty list of utilities |
| Pipeline.GatherSnoc | src/generator.ts:127 | one more successful branch appends its utilities and writes, and a failing one makes its error the answer |
| Pipeline.GatherErr | src/generator.ts:127 | once a branch fails, later branches do not change the answer |
| Pipeline.WritesMadeGathered | src/generator.ts:127 | when every branch succeeds, the writes made are exactly the gathered writes |
| Pipeline.WritesMadeErr | src/generator.ts:127 | once a branch fails, the branches after it add no writes |
| Pipeline.ParseWritesOk | src/generator.ts:95-140 | on success, the writes of a fresh parse are those of its outcome |
| Pipeline.HandleEach | src/generator.ts:127 | each branch is handled, one result per branch, in order |
| Rules.NonEmptyValues | src/generator.ts:419 | only non-empty values are kept, and none is left exactly when all were empty |
| Rules.Resolve | src/generator.ts:413-500 | nothing exactly when every value is empty; otherwise one utility per kept value, each carrying the rule's index, a raw utility exactly when the value is raw CSS text |
| Rules.ResolveEntries | src/generator.ts:436-495 | one resolved entry per rule entry, in place |
| Rules.StepMeta | src/generator.ts:472-486 | only a sort entry sets the sort and only a no-merge entry sets the no-merge flag |
| Rules.ControlsSortLast | src/generator.ts:472-478 | the sort is that of the group's last sort entry |
| Rules.ControlsSortUnset | src/generator.ts:472-478 | without a sort entry the rule's own sort stays |
| Rules.ControlsNoMergeLast | src/generator.ts:480-486 | the no-merge flag is that of the group's last no-merge entry |
| Rules.ControlsNoMergeUnset | src/generator.ts:480-486 | without a no-merge entry the rule's own flag stays |
| Rules.ControlsKeepMeta | src/generator.ts:436-495 | entries never change the internal flag, the prefixes or the layer of the meta |
| Rules.ControlsKeepContextHandlers | src/generator.ts:438-470 | without a variants function, the group's handlers go in front of the context's, which stay in order at the end |
| Rules.FirstPrefix | src/generator.ts:359 | the first prefix the selector starts with; none exactly when no prefix matches |
| Rules.Unprefixed | src/generator.ts:347-366 | a rule without prefixes sees the selector unchanged; inside a shortcut, a rule is tried unchanged exactly when the prefix lists share one; elsewhere the first matching prefix is stripped, and the rule is skipped when none matches |
| Rules.TryRule | src/generator.ts:340-401 | a rule that yields something yields at least one utility |
| Rules.FirstRule | src/generator.ts:339-402 | the dynamic rules yield nothing exactly when each one yields nothing; a result is non-empty |
| Rules.FirstRuleAt | src/generator.ts:339-402 | when rule `j` is the first to yield something, its result is the one used |
| Rules.ParseBranch | src/generator.ts:320-403 | a branch that parses yields at least one utility |
| Rules.StaticShadowsDynamic | src/generator.ts:333-336 | an applicable static rule shadows every dynamic rule |
| Rules.InternalRulesHidden | src/generator.ts:343-344 | outside shortcuts, dropping the internal rules changes nothing |
| Rules.PublicRules | src/generator.ts:343-344 | the rules kept are not internal |
| Rules.ParseBranchesEmpty | src/generator.ts:405-408 | parsing yields nothing exactly when no branch parses |
| Rules.ParseBranchesFrom | src/generator.ts:405 | the branches' utilities come in branch order |
| Apply.ReduceRightIsSteps | src/generator.ts:236-258 | the `reduceRight` composition applies the sorted handlers first to last |
| Apply.StepsSettings | src/generator.ts:250-254 | each of layer, parent, parent order and sort after the handlers is the last value a handler gives |
| Apply.StepsLayer | src/generator.ts:253 | the layer is that of the last handler that gives a non-empty layer, or the initial layer when none does |
| Apply.StepsParent | src/generator.ts:241-251 | the parent is that of the last handler that gives a non-empty parent, or the initial parent |
| Apply.StepsParentOrder | src/generator.ts:241-252 | the parent order is that of the last handler that gives a non-zero one, or the initial one |
| Apply.StepsSort | src/generator.ts:254 | the sort is that of the last handler that gives a non-zero sort, or the initial sort |
| Apply.StepsEntries | src/generator.ts:240 | handlers without a body function leave the entries alone |
| Apply.LastStrAt | src/generator.ts:250-253 | the last non-empty value is the one at the last position that has one |
| Apply.LastStrUnset | src/generator.ts:250-253 | with no non-empty value the default stays |
| Apply.LastIntAt | src/generator.ts:252-254 | the last non-zero value is the one at the last position that has one |
| Apply.LastIntUnset | src/generator.ts:252-254 | with no non-zero value the default stays |
| Apply.ParentWriteOf | src/generator.ts:267-270 | `parentOrders` is written exactly when both parent and parent order are set, with those two values |
| Apply.ApplyVariantsSpec | src/generator.ts:231-289 | without post-processors, the utility object is the start context with the stably sorted handlers applied first to last, and the write is that of the result |
| Apply.ApplyNoHandlers | src/generator.ts:260-283 | with no handler and no post-processor, a utility keeps its escaped selector and its entries, and nothing is written |
| Apply.StringifyUtil | src/generator.ts:502-532 | a raw utility keeps its text and meta and writes nothing; a parsed one is dropped exactly when its body renders empty; otherwise the handlers' layer and sort take precedence over the rule's, and the internal flag and prefixes are kept |
| Shortcuts.ShortcutInput | src/generator.ts:555-565 | a shortcut without prefixes sees the input unchanged; one with prefixes skips exactly when no prefix matches |
| Shortcuts.TryShortcut | src/generator.ts:567-586 | a static shortcut stops the scan exactly on an exact match of the unprefixed input; a dynamic one stops it only with a truthy result; the meta is the shortcut's |
| Shortcuts.FindShortcut | src/generator.ts:554-587 | the first shortcut that stops the scan, every earlier one passing; none exactly when none stops it |
| Shortcuts.Candidates | src/generator.ts:590 | the strings of a result, trimmed, group-expanded and split on white space, hold no white space and no duplicate |
| Shortcuts.InlinesOf | src/generator.ts:591 | the inline values of a result carry no handlers |
| Shortcuts.Rehandle | src/generator.ts:607-609 | the inline results of a residual stay inline values |
| Shortcuts.Keep | src/generator.ts:622 | the string results kept are non-empty |
| Shortcuts.SplitAll | src/generator.ts:590 | the pieces hold no white space |
| Shortcuts.ExpandDepthZero | src/generator.ts:539-540 | depth zero expands nothing |
| Shortcuts.ExpandEachLastLevel | src/generator.ts:620 | at the last level, every string stands for itself |
| Shortcuts.ExpandMatchedLastLevel | src/generator.ts:589-624 | at depth one, a matched shortcut yields its strings, deduplicated and in order, followed by its inline values, with empty strings dropped and the shortcut's meta; nothing when it has neither |
| Shortcuts.ExpandNothingMatches | src/generator.ts:595-616 | a token that no shortcut matches, and from which no variant peels anything, expands to nothing |
| Shortcuts.ReattachMembers | src/generator.ts:605 | the strings of a branch's results are exactly the raw token with the residual replaced by each string of the residual's expansion |
| Shortcuts.RehandleMembers | src/generator.ts:607-609 | the inline results of a branch are exactly the residual's inline values, each with its own handlers followed by the branch's |
| Shortcuts.ResidualsAt | src/generator.ts:602 | entry `j` of the residual expansions is the expansion of branch `j`'s residual one level deeper |
| Shortcuts.FromVariantsPicks | src/generator.ts:598-612 | the loop over the branches is a fold over the residuals' own expansions |
| Shortcuts.PickFails | src/generator.ts:598-612 | the loop fails exactly when a branch that peels a variant off has a residual whose expansion fails |
| Shortcuts.PickNone | src/generator.ts:598-612 | when no branch expands and none fails, the loop keeps the results it started with |
| Shortcuts.PickLastWins | src/generator.ts:598-612 | the last branch whose residual expands decides the results; earlier branches' results are overwritten |
| Shortcuts.ExpandUnmatched | src/generator.ts:595-624 | at any depth, a token no shortcut matches fails with the loop's error, or else is finished with the loop's results and the found meta |
| Shortcuts.ExpandThroughVariants | src/generator.ts:595-624 | at any depth, a token no shortcut matches expands to the re-expansion of the last expanding branch's reattached strings and rehandled inline values |
| Shortcuts.ExpandNoResidualExpands | src/generator.ts:595-616 | at any depth, a token no shortcut matches, none of whose residuals expands or fails, expands to nothing |
| Shortcuts.ExpandFailsThroughVariants | src/generator.ts:598-612 | at any depth, a failing residual expansion makes the token's expansion fail |
| Shortcuts.ExpandEachMembers | src/generator.ts:620 | re-expansion fails exactly when one string's expansion fails; otherwise a string that does not expand stands for itself and one that does contributes all its items |
| Shortcuts.ExpandNonEmptyStrings | src/generator.ts:618-622 | every string in an expansion is non-empty |
| Grouping.AddItem | src/generator.ts:664-668 | adding an item keeps the three-level map well formed |
| Grouping.AddItemOwn | src/generator.ts:664-668 | the item is appended to its own group, and a new group takes the utility's index |
| Grouping.AddItemOther | src/generator.ts:664-668 | adding an item changes no other group |
| Grouping.CollectStep | src/generator.ts:655-669 | one iteration keeps the map well formed |
| Grouping.Collect | src/generator.ts:655-669 | the whole loop keeps the map well formed |
| Grouping.FilterNoMerge | src/generator.ts:689-690 | each class holds only items with its no-merge flag |
| Grouping.FilterMarked | src/generator.ts:694-695 | each part holds only items whose `shortcutsNoMerge` marking is the one asked for |
| Grouping.MaxSort | src/generator.ts:676 | the largest sort of the items, reached by one of them |
| Grouping.MergedGroup | src/generator.ts:671-699 | a group whose items share one flag and carry no `shortcutsNoMerge` marker becomes at most one utility with all the entries, the largest sort, that flag, and the group's index, selector, parent and layer |
| Grouping.MarkedGroup | src/generator.ts:688-695 | marked items are each emitted on their own, all with the largest sort of their class |
| Grouping.EmitEachSite | src/generator.ts:678-682 | every emitted utility has the group's index, selector, parent and layer, the largest sort and the class's flag |
| Grouping.FlattenUnmarked | src/generator.ts:694-695 | unmarked items all go to the flattened part |
| Grouping.SplitByFlag | src/generator.ts:689-690 | items sharing a flag all go to that flag's class |
| Grouping.MarkedAll | src/generator.ts:694-695 | marked items all go to the part emitted one by one |
| Sorting.StableSortSpec | src/generator.ts:650 | the sort is a permutation of its input, ordered by key, that keeps equal-keyed elements in input order |
| Sorting.StableSortSorted | src/generator.ts:236-237 | a sequence whose keys are all equal is left as it is |
| Sorting.SortOrder | src/generator.ts:650 | the sort order is a permutation of the positions, sorted stably by key |
| Sorting.InsertPos | src/generator.ts:650 | inserting a later position keeps the positions stably sorted |
| OrderedMaps.OrderedMap.Set | src/uno-merge.ts:59 | `set` replaces the value of a present key in place and appends a new key |
| OrderedMaps.OrderedMap.Delete | src/uno-merge.ts:56 | `delete` forgets the key and keeps the others in order |
| OrderedMaps.OrderedMap.Values | src/uno-merge.ts:62 | the values come in key order |
| OrderedMaps.RemoveKey | src/uno-merge.ts:56 | the keys left are exactly the others |
| OrderedMaps.Empty | src/uno-merge.ts:37 | a new map is valid and has no keys |
| OrderedMaps.GetFallback | src/generator.ts:664-666 | `getFallback` gives the present value, or stores and gives the fallback |
| OrderedMaps.SetPresentKeepsPosition | src/uno-merge.ts:59 | replacing the value of a present key does not move it |
| OrderedMaps.DeleteThenSetMovesToEnd | src/uno-merge.ts:56-59 | a key deleted and then set again moves to the end |
| OrderedMaps.RemoveKeyKeepsOrder | src/uno-merge.ts:56 | deleting a key keeps the relative order of the others |
| Text.SplitWs | src/uno-merge.ts:40 | `split(/\s+/)` gives at least one piece, none holding white space |
| Text.SplitEach | src/uno-merge.ts:149 | `split(';')` gives at least one piece, none holding the separator |
| Text.Filter | src/uno-merge.ts:62 | `filter` keeps exactly the elements that pass the test, in order |
| Text.FilterAppend | src/uno-merge.ts:40-42 | filtering a concatenation filters each part |
| Text.Sort | src/uno-merge.ts:171 | the default sort is a permutation of its input |
| Text.SortSorted | src/uno-merge.ts:26 | the default sort orders its result |
| Text.SortMembers | src/uno-merge.ts:171 | sorting keeps exactly the elements it is given |
| Text.Uniq | src/generator.ts:590 | `uniq` keeps every element once |
| Text.UniqFirstOccurrenceOrder | src/generator.ts:636 | `uniq` keeps elements in the order of their first occurrence |
| Text.IndexOf | src/uno-merge.ts:21 | the first occurrence of the pattern, none before it |
| Text.ReplaceFirst | src/uno-merge.ts:21 | `replace` with a string pattern replaces the first occurrence only and leaves a string without the pattern alone |
| Text.ReplaceFirstNoWs | src/generator.ts:605 | replacing within a string without white space by such a string keeps it without white space |
| Config.EntriesToCss | src/generator.ts:520-523 | a body renders empty exactly when it holds no declaration |
| Config.VariantIds | src/generator.ts:162 | the identities of the variants are their indices |
| Scenarios.AxisPadding | src/uno-merge.ts:36-63 | `'px-1 py-2 py-4 px-3'` merges to `'px-3 py-4'`: for any tokens of those two shapes, `px-3` takes the place of `px-1` and `py-4` replaces `py-2` |
| Scenarios.PaddingShorthand | src/uno-merge.ts:36-63 | `'pt-1 px-2 py-3 p-0'` merges to `'p-0'`: for any tokens of those four shapes with the removal keys the table gives them, only the `p-*` token is printed |
| Scenarios.ShorthandAfterSides | src/uno-merge.ts:52-59 | after a `pt-*`, a `px-*` and a `py-*` token, a `p-*` token whose removal keys hold `padding-top;` and the two sorted axis pairs is all that remains: `py-*` has already evicted `pt-*`, and `p-*` evicts the other two |
| Scenarios.PaddingRemovals | src/uno-merge.ts:93-97 | `p-*` evicts `padding-top;`, `padding-left;padding-right;` and `padding-bottom;padding-top;` |
| Scenarios.PaddingTopRemovals | src/uno-merge.ts:148-159 | `padding-top` is not a table key, so `pt-*` evicts nothing |
| Scenarios.SidedRemovals | src/uno-merge.ts:148-159 | a single-property shorthand whose table entry is a sided group evicts exactly that group's keys, each followed by `;` |
| Scenarios.SidedMembers | src/uno-merge.ts:93-97 | a sided group lists its `top` side and both axis pairs, the pairs joined in sorted order |
| Scenarios.LeftRight | src/uno-merge.ts:166-180 | `combineAffixesString(["left","right"], {leading: l})` is `l-left;l-right` |
| Scenarios.TopBottom | src/uno-merge.ts:166-180 | `combineAffixesString(["top","bottom"], {leading: l})` sorts to `l-bottom;l-top` |
| Scenarios.SingleRemovals | src/uno-merge.ts:148-159 | a utility setting one included property evicts that property's table entry, each key prefixed by the variant |
| Scenarios.ReplacedInPlace | src/uno-merge.ts:59-62 | in `a b b' a'`, where the primed tokens share the keys of the unprimed ones, `a'` prints where `a` stood, then `b'` |
| Scenarios.TwoPropertyRemovals | src/uno-merge.ts:151-152 | a two-property utility evicts the entries keyed by each property, whatever the table holds |
| Scenarios.PxRemovals | src/uno-merge.ts:151-152 | the removal keys of a `px-*` token are exactly what the table gives for its content, `padding-left;` and `padding-right;` |
| Scenarios.PyRemovals | src/uno-merge.ts:151-152 | the removal keys of a `py-*` token are exactly what the table gives for its content, `padding-bottom;` and `padding-top;` |
| Scenarios.StepMisses | src/uno-merge.ts:52-59 | a step whose removal keys hit nothing only stores the token |
| Scenarios.OutputTwo | src/uno-merge.ts:62 | two non-empty entries print in key order, separated by a space |

## Left out

- Configuration resolution and construction are not modelled. This covers `create`, the `resolveConfig` call in `setConfig`, `createGenerator`, and the deprecated `UnoGenerator` constructor and its console warning (`src/generator.ts:41-48`, `65`, `719-737`). They are asynchronous and external, so a `Config` is handed in already resolved.
- `getConfig` (`src/uno-merge.ts:65-67`) only reads the generator's configuration, which the class exposes as a field.
- `isAsyncFunction` and the checks for async functions, iterators and generators are left out (`src/generator.ts:165-173`, `374-396`, `743-751`). These are runtime reflection, so every callback is taken as synchronous with a tagged result.
- Four helpers of `@unocss/core` are not part of this model: `entriesToCss`, `normalizeCSSValues`, `toEscapedSelector` and `expandVariantGroup`. The model takes them as follows:
  - A body is a list of declarations, rendered as `prop:value;`.
  - Rule results arrive already normalised.
  - The other two are configuration functions.
- The preset rule tables are not part of this model either. That is why the `px-1 py-2 py-4 px-3` example is proved for tokens with the keys those utilities have. It is not derived from real rules.
- The property-name regular expression is modelled on declaration lists only (`src/uno-merge.ts:4`, `26`, `28`). A raw-text body is matched character by character, as the greedy pattern does.
- `config.details`, `warnOnce`, `constructCustomCSS` and `makeContext` are diagnostics or callbacks. The rule context keeps only the raw and current selectors.
- `activatedRules` is left out because it is only written, never read.
- A variant handler's own `handle` is left out. Only the default handler is modelled, so the composition is a left-to-right application of the handlers.
- The `prefix` and `pseudo` parts of the variant handler context are left out. No handler here changes them, so the selector is the escaped selector as transformed.
- Variant identity is object identity in the source. In the model it is the variant's index in the configuration.
- `Conflicts.GetConflictingKeys`: keeps tokens apart only when neither variant is a prefix of the other, and the model proves no more. The empty variant is a prefix of every key. So is `md:` of `md:hover:`. Under the same reading of the code, `merge('hover:pt-1 x;hover:padding-top')` drops `hover:pt-1` when no rule recognises the second token. Its variant is empty, its text has the two properties `x` and `hover:padding-top`, and `hover:padding-top;` is the group key of `hover:pt-1`.
- `Generators.Generator.ParseToken`: a cache key filled for a different token and alias with the same key text answers with that entry. The contract promises a fresh-parse answer only when the key was filled for this token and alias, as the source does.
- `UnoMerges.UnoMerge.SetConfig`: atomic in the model, asynchronous in the source. `setConfig` clears the key cache and returns the generator's `setConfig` promise (`src/uno-merge.ts:69-72`). A `merge` run before that promise settles can refill the key cache under the old configuration, and those entries outlive the change. The model takes callers to await `setConfig` before merging again, which is what keeps `Valid()` and `CacheHit` true.
- `Generators.Generator.SetConfig`: atomic in the model, asynchronous in the source. The collections are cleared first, and `this.config` is assigned only after `await resolveConfig` (`src/generator.ts:61-65`). Parses in between refill the cache, the blocked set and the parent orders under the old configuration. The model assumes callers await the call, as they must for the cache invariant to hold.
- `Shortcuts.Reattach`: a string-pattern `replace` whose replacement is literal. The source's `raw.replace(inputWithoutVariant, item)` (`src/generator.ts:605`) expands JavaScript's replacement patterns `$$`, `$&`, `` $` `` and `$'` in `item`. A shortcut whose expansion holds one of them, such as `btn` to `text-[$&]` used as `hover:btn`, yields `hover:text-[btn]` in the source and `hover:text-[$&]` in the model. Expansions without `$` agree.
- `Variants.MatchSpec`: "a variant that is not multi-pass is applied at most once in a branch" is proved only for configurations with no multi-pass variant. With a mix, a branch does not record which variant gave each handler, so the count cannot be split by variant. What holds in every configuration is that a variant already applied and not multi-pass is skipped (`Variants.TryVariant`).
- `Text.Sort`: orders strings by code point. `Array.prototype.sort` compares UTF-16 code units, and the two orders differ for characters from U+10000 up (surrogate pairs sort below U+E000 to U+FFFF). CSS property names are ASCII, so the sorted property lists agree.
- `UnoMerges.UnoMerge.ParseToken` requires a token without white space. Its only caller passes pieces of `code.split(/\s+/)`, so a generator cache key can only have been filled for the token itself.

## Findings

| source | as written | input that shows it | evidently intended | confidence | as-written member | corrected member |
|---|---|---|---|---|---|---|
| src/uno-merge.ts:16 | `generator.parseToken(token)?.filter(...)` calls `filter` on the generator's `{ current, utils }` answer, which is an object | any token the generator recognises, e.g. one matched by a static rule | filter the answer's `utils` for the non-at-rule bodies | not executed | Merging.RecognisedTokenThrows | Merging.TokenCssSpec |
| src/uno-merge.ts:155 | `conflictingGroups[p] ?? []` indexes a plain object, so an inherited member such as `constructor` gives a function, and `.map` on it throws | `merge('constructor')` with a configuration that does not recognise `constructor` | read only the table's own entries | not executed | Conflicts.PrototypeNameThrows | Conflicts.ConflictingKeysCases |
