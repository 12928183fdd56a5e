# Models and proofs for the server tooling

This project models the parts of the repository whose correctness is hardest to see by reading, and
proves what the rest of the repository relies on. `dafny verify dfyconfig.toml` checks all of it. Every
lemma writes its induction out (`{:induction false}`), so no proof rests on induction guessed by the
verifier.

## What is modelled

**The casecache index** (`Paths`, `CaseIndex`, `GameTree`, `DirtySet`, `Resolve`, `IndexTheorems`,
`Ancestors`, `Exclusions`, `WalkPaths`, `Buckets`, `DirtyProtocol`). The game tree is a datatype in which any
directory may fail to open and any entry may be misjudged. `BuildWalk` fills the bucket chains of class
`Index`, `ResolvePath` answers from them, class `Dirty` is the set of files created at run time. The theorems
compare the answers with the tree. In `DirtyProtocol` any number of threads take `dirty_add` and `resolve`
apart into the steps at which the scheduler can switch between them: the gate read without the lock, the
mutex, every link of a chain.

**The theater flattener** (`KeyValues`, `Rearrange`, `MergeLaws`, `BaseOrder`, `BaseOrderLaws`,
`Associativity`, `Lookups`, `Shuffles`, `Overlay`, `Diamonds`, `Absorption`, `Grouping`, `SectionOrder`,
`Syntax`, `Spellings`, `Orphans`, `OrphanPaths`, `Flatten`, `BaseLines`). Trees with repeated keys, the
recursive first-match merge, its one reordered section, the tokenizer, parser and printer, the clean-up of
attachments, and the loader with its `#base` chains. These notions carry the results: `Look` (the first-match
lookup, with how far a failing one gets), `Fits` (nothing a base repeats shows under this derived tree),
`Settled` (a sibling that repeats an earlier name adds nothing to it), `Absorbable` (all the children of a
name put together absorb each of them), `Same` (two lists of children act alike on whatever they are merged
into), `Beside` (equal but for the order in which sections kept in base order hold children of different
names) and `NoLeafOverBlock` (no path is a leaf in one base and a filled block in the next).

**The VPK writer and its two readers** (`Bytes`, `WordBytes`, `VpkTree`, `VpkReaders`, `VpkPack`,
`VpkRoundTrip`, `VpkBytes`). CRC-32 and MD5 are parameters.

**The DXT codec and the VTF container** (`BitFields`, `Dxt`, `DxtRoundTrip`, `DxtNumbers`, `DxtEncoded`,
`Vtf`, `VtfLaws`, `VtfNumbers`). The block formats are BC1 and BC3 of the Khronos Data Format Specification
1.3, sections 18.1, 18.2 and 18.4; the alpha tables are the code's own, whose weights add up to 8 over 7 and
to 6 over 5.

**The certificate reloaders** (`CertReload`, `CertFreshness`, `PoolRuns`). Classes `ClientCertReloader` and
`CaCertReloader` are one call at a time. The two machines beside them interleave the stats and reads of any
number of calls with changes of the files; `UndisturbedCall` and `UndisturbedPool` say that a call nothing
disturbs is the method's.

**The line-prefixing writer** (`PrefixedWriter`, `PrefixLaws`, `PrefixWords`) and **the workshop lock**
(`Sorting`, `TextOrder`, `WorkshopLock`, `WorkshopLaws`, `WorkshopNames`, `Markers`, `MarkerLaws`,
`MarkerWords`, `Rendering`).

Round trips and refinements compare one part of the model with another, so a slip that both share would go
unseen. The modules `Exclusions`, `WalkPaths`, `Buckets`, `SectionOrder`, `Spellings`, `BaseLines`,
`OrphanPaths`, `DxtNumbers`, `DxtEncoded`, `VtfNumbers`, `VpkBytes`, `PrefixWords`, `WorkshopNames` and
`MarkerWords` therefore say what the operations do without those parts: in literal names, characters and
bytes, in inequalities between numbers, and in paths through a tree.

## What turned out not to hold, and exactly when it does

- The index reports a file that exists as missing where the first directory on the way that could not be
  opened has an upper-case letter in its name, and nowhere else: `FalseEnoentExactly`. The listing is
  searched for the folded name. With two siblings that differ in case only even lower-case names are not
  safe: `TwinHidesGap`. `EnoentExactly` settles every tree, and `OnlyTwinsHideLowerCase` says that nothing but
  such a twin can hide a lower-case path.
- The test for the game root has no component boundary. A neighbour such as
  `/opt/insurgency-server-old`, with everything below it, is answered from the listing of `/opt`, and is missing
  where that does not list the name in lower case: `NamesBeginningLikeTheRoot`.
- The grouping of a `#base` chain can show. Outside base order it shows nowhere, for any two bases, exactly when
  what they hold, one behind the other, acts as their merge does: `GroupsExactly`, `ActAlikeExactly`. Where that is
  so, no lookup in whole files tells the groupings apart either: `GroupingShowsNowhere`. For settled bases, base
  order included, the grouping shows exactly where some path is a leaf in one base and a filled block in the next:
  `GroupsFreelyExactly`. Without settled bases it can show where no path is: `RepeatsDoNotGroup`.
- A merged tree can answer what neither side does: a block that a base repeats under one name is merged into
  the first of that name. One merge reads as the derived side over the base exactly when the base fits:
  `FitsExactly`. A base fits under every derived tree exactly when it is settled: `OverlaysExactly`. The vendored
  weapon upgrades are not settled, as they repeat a filled "Silencer_SG" whose second block alone has
  "excluded_weapons". They fit under a derived theater that leaves this list of attachments alone, as the list is
  taken over whole; where a derived theater has such a list of its own, without those weapons, the first block
  gets what only the second one has: `LaterTwinLeaks`.
- A base merged in twice can differ from the base merged in once. It is the same, whatever it is merged into,
  exactly when the base is absorbable: `AbsorbedExactly` for sections and below, `FileAbsorbedExactly` for whole
  files. Two filled blocks of one name do not decide it either way: `RepeatsEitherWay`.
- The clean-up lets one kind of misapplied attachment through, the one whose list of weapons names nothing:
  `OnlyEmptyListsMisapply`, `EmptyListIsKept`. Such a list shows the attachment on every weapon.
- A packed directory reads back exactly when every file has an extension and a name in front of it:
  `ReadsBackExactly`. A file such as `.gitignore` ends its level early.
- A VTF level takes the bytes readers expect exactly in DXT1, DXT5, RGBA8888 and BGRA8888:
  `SizeMatchesExactly`. The compiler accepts DXT3 and RGBA16161616F as well, and writes half of them.
- Cached certificates are right in every interleaving exactly when every matching pair that could be read
  between two moments with the same two file times is the pair of the second moment: `CachedRightExactly`, for
  any histories of both files. With one key that matches throughout that means that no file time comes back around
  different bytes (`OneKeyTells`): restoring an older file together with its time can leave the newer
  pair cached under it. Calls begun after the last rotation return the current pair exactly when that condition
  holds of the last versions: `QuietIsCurrentExactly`. The same goes for the CA pool: `PoolRightExactly`,
  `PoolQuietExactly`.
- The prefixed output depends on how it was cut into writes exactly where a cut separates a carriage return
  from its line feed: `ChunkingShowsExactly`.
- A server's layers agree with its manifest exactly when no server's name has a hyphen:
  `LayersAgreeExactly`.

## Model

| member | source | states |
|---|---|---|
| Paths.ExclusionInherited | tools/casecache/casecache.c:66-110 | whatever lies below an excluded path is excluded, by the anchored list and by the built-in substrings |
| Paths.UnderDirExactly | tools/casecache/casecache.c:66-75 | a configured exclusion matches exactly its directory and what lies below it, not a name that begins like it |
| CaseIndex.Index.Put | tools/casecache/casecache.c:213-217 | a prepended node leaves every key looking up what was put last under it; nothing else changes |
| CaseIndex.Index.Find | tools/casecache/casecache.c:200-204 | the chain scan returns the node put last under the key, or nothing |
| CaseIndex.LookupFinds | tools/casecache/casecache.c:200-217 | a lookup finds something exactly when the key was put, and what it finds was put under that key |
| GameTree.BuildWalk | tools/casecache/casecache.c:218-257 | the recursive walk puts exactly the nodes the tree gives, in readdir order, and skips what is excluded or does not open |
| GameTree.IndexOne | tools/casecache/casecache.c:261-274 | one listing becomes one directory node, or nothing where it does not open |
| GameTree.DoInit | tools/casecache/casecache.c:277-303 | after initialisation the index holds "/", "/opt" and the walk of the game root |
| DirtySet.Dirty.Insert | tools/casecache/casecache.c:319-325 | adds one key, keeps every chain free of repeats, and raises the gate exactly when the set is not empty |
| DirtySet.Dirty.Has | tools/casecache/casecache.c:327-333 | true exactly for the keys that were added |
| Exclusions.TrackedExactly | tools/casecache/casecache.c:103-110 | the cache answers for a path exactly when it begins like the game root, is shorter than 4096 characters, has none of the six built-in pieces anywhere in it, and neither is nor lies below a configured directory |
| Exclusions.BuiltInsPassThrough | tools/casecache/casecache.c:337-341 | whatever was indexed, dirty or configured, a path with one of the six pieces in it, whatever is in front of it and behind it, is passed through |
| Exclusions.BuiltInsNotIndexed | tools/casecache/casecache.c:246-248 | no node below the game root has a path with one of the six pieces in it |
| Exclusions.OthersPassThrough | tools/casecache/casecache.c:337-342 | so is every path outside the game root, in a configured directory, or of 4096 characters and more |
| Exclusions.TheRestIsAnswered | tools/casecache/casecache.c:340-344 | every other path is a hit where some node has its fold, and the hit is a spelling of such a node |
| Exclusions.FoldTable | tools/casecache/casecache.c:195-211 | folding makes the 26 capital letters small, one by one, and changes no other character |
| WalkPaths.WalkedExactly | tools/casecache/casecache.c:218-257 | a node is put exactly where the entries on the way to it are directories, by their type or by a stat where the listing does not say, and open, and no path on the way is excluded, by a built-in piece or a configured directory |
| WalkPaths.WalkedInOrder | tools/casecache/casecache.c:232-255 | entries are walked in readdir order, each with all that lies below it, behind their directory |
| WalkPaths.AncestorsFirst | tools/casecache/casecache.c:277-303 | in front of the walk of the game root stand the listings of "/" and "/opt", where they open |
| Buckets.HashByCharacter | tools/casecache/casecache.c:190-194 | the hash starts from the offset basis, and each character is mixed in by exclusive or and a multiplication modulo 2 to the 32nd |
| Buckets.BucketByHash | tools/casecache/casecache.c:193-320 | the bucket is the hash modulo 524288 in the index and modulo 4096 in the set |
| Buckets.ChainsOf | tools/casecache/casecache.c:319-333 | the set has 4096 chains, none holds a key twice, a key was added exactly where its chain holds it, and the gate is up exactly where one was added |
| Buckets.CountsNodes | tools/casecache/casecache.c:213-217 | the index counts the nodes put into it, and its chains answer with the node put last |
| Resolve.DirtyAdd | tools/casecache/casecache.c:311-326 | remembers the folded path exactly when the path is one the cache answers for |
| Resolve.WalkUp | tools/casecache/casecache.c:350-365 | the loop that cuts the path at its last slash answers as the deepest indexed ancestor does |
| Resolve.ResolvePath | tools/casecache/casecache.c:337-366 | the whole of resolve: filters, hit, dirty check, ancestor walk, kill switch |
| IndexTheorems.HitIsSound | tools/casecache/casecache.c:218-257 | whatever could not be opened, a hit names a path of the tree that is not excluded and differs from the query in case only |
| IndexTheorems.IndexRefinesTree | tools/casecache/casecache.c:337-366 | after a complete build a tracked query is a hit exactly when some path of the tree that is not excluded has its fold |
| IndexTheorems.LookupAt | tools/casecache/casecache.c:200-257 | looking up an existing spelling finds that spelling's own node or none, where no siblings differ in case only |
| IndexTheorems.OneMoreEntry | tools/casecache/casecache.c:222-232 | what it takes for siblings not to differ in case only: each entry has another fold than those before it, and so on below |
| IndexTheorems.FalseEnoentExactly | tools/casecache/casecache.c:350-364 | a tracked path that exists as spelled is answered ENOENT exactly when it is not dirty and the first unopened directory on the way is not in lower case |
| IndexTheorems.NamesBeginningLikeTheRoot | tools/casecache/casecache.c:340-341 | names that merely begin like the game root, and all paths below them, are answered ENOENT exactly when they are not dirty and the listing of /opt lacks the folded name |
| Ancestors.HolderExactly | tools/casecache/casecache.c:218-257 | whatever the tree repeats, the index holds something for a path exactly when the walk reaches a path of the same fold, and what it holds is that path's node |
| Ancestors.EnoentExactly | tools/casecache/casecache.c:337-366 | for any tree, a tracked path is answered ENOENT exactly when it is not dirty, the walk reached no path of its fold, and the deepest ancestor whose fold it reached - the spelling put last - is a directory that does not list the folded next name (without any, /opt does not list the root) |
| Ancestors.OnlyTwinsHideLowerCase | tools/casecache/casecache.c:350-364 | where `/opt`, if listed, lists the root and no directory lists a name twice, an existing lower-case path is answered ENOENT only where an ancestor of it has a second spelling that differs in case only |
| Ancestors.OneMoreName | tools/casecache/casecache.c:222-232 | what it takes for no directory to list a name twice |
| Ancestors.TwinHidesGap | tools/casecache/casecache.c:361-361 | a tree with two siblings that differ in case only, all lower case on the way, where an existing path is answered ENOENT |
| DirtyProtocol.NextKeeps | tools/casecache/casecache.c:311-333 | every step of every thread keeps the invariant: mutual exclusion, chains without repeats, returned keys present, gate up before an add returns |
| DirtyProtocol.RunsKeep | tools/casecache/casecache.c:308-366 | the invariant holds after any schedule of any number of threads |
| DirtyProtocol.NoEnoentAfterAdd | tools/casecache/casecache.c:311-345 | in every run, a resolve called after an add of a path with the same fold had returned does not answer ENOENT |
| DirtyProtocol.ResolvesAreAtomic | tools/casecache/casecache.c:337-366 | every resolve answers as if it had run at one moment between call and return |
| DirtyProtocol.NoInversion | tools/casecache/casecache.c:311-345 | in every run, once a resolve has answered with its key in the set, every resolve of that fold that asks the set and answers later finds it too |
| DirtyProtocol.ChainsHoldTheAdded | tools/casecache/casecache.c:308-326 | in every run no chain holds a key twice, every key whose add returned is there, and no key that was never added |
| DirtyProtocol.ReadsAreLockFree | tools/casecache/casecache.c:310-317 | while no tracked path was written, no thread is at or behind the mutex |
| DirtyProtocol.OnlyMissesAsk | tools/casecache/casecache.c:337-345 | in every run a resolve asks the set only for a path that the cache answers for and the index does not hold |
| KeyValues.MergeInto | tools/theater-build/build.py:172-194 | the merge with its search loop, append and reordering computes the merge of the two trees |
| KeyValues.Search | tools/theater-build/build.py:183-189 | the position of the first child of that name in any case, or the end |
| Rearrange.ReorderPermutes | tools/theater-build/build.py:193-194 | moving placed children to the front loses none and repeats none |
| BaseOrder.ArrangedPermutes | tools/theater-build/build.py:190-194 | the rearranged section is a permutation of the engine-order one |
| BaseOrder.ArrangedPicks | tools/theater-build/build.py:190-194 | every name has the same first match in the rearranged section as in engine order |
| BaseOrder.ArrangedShape | tools/theater-build/build.py:172-194 | first one child per base name in base order, then the derived side's other children in their own order |
| BaseOrder.BaseKeepsItsIds | tools/theater-build/build.py:36-43 | with distinct base names, the first positions carry the base's names in base order whatever the derived side restates |
| SectionOrder.UpgradesInBaseOrder | tools/theater-build/build.py:169-194 | in a section named weapon_upgrades, in any case, over a base of distinct names, child k of the merged section has the k-th name of the base |
| SectionOrder.SectionSpellings | tools/theater-build/build.py:169-180 | "Weapon_Upgrades" is such a name and "ammo" is not |
| SectionOrder.OthersInDerivedOrder | tools/theater-build/build.py:180-194 | in every other section, and at every other depth, the derived children stand first, each where it stood |
| SectionOrder.NamesMatch | tools/theater-build/build.py:182-184 | names match exactly where they are the same but for the case of letters, which a table lists |
| SectionOrder.MatchedOrAppended | tools/theater-build/build.py:181-189 | a child of the base is merged into the first child of its name, whatever its case, or comes last where there is none |
| BaseOrderLaws.ArrangedAssoc | tools/theater-build/build.py:190-194 | arranging onto an arranged section is arranging onto its parts, where merging the children is associative |
| Associativity.GroupsFreelyExactly | tools/theater-build/build.py:172-194 | for settled bases of one name (at the top level, with no section named twice) the grouping of a chain does not matter, as ordered trees and at every depth, exactly when no path is a leaf in one and a filled block in the next |
| Associativity.BasesClose | tools/theater-build/build.py:224-229 | the merge of two usable bases is a usable base |
| Grouping.GroupsExactly | tools/theater-build/build.py:172-194 | for any two bases outside base order, settled or not, the grouping of a chain does not matter, as ordered trees, exactly when the two lists of children one after the other and the merged list act alike, or where one is a leaf the further one brings nothing |
| Grouping.ActAlikeExactly | tools/theater-build/build.py:172-194 | two lists of a base's children give the same result on whatever they are merged into exactly when the same names first appear in the same order, each name's children amount to the same, and what the blocks of a name hold acts alike again |
| Grouping.SettledGroups | tools/theater-build/build.py:172-194 | for settled bases that is the absence of a leaf over a filled block |
| Grouping.GroupingShowsNowhere | tools/theater-build/build.py:172-194 | at every depth, whole files included: where two bases group, no lookup tells the groupings apart and the trees differ at most in the order of children of different names in sections kept in base order |
| Grouping.RepeatsDoNotGroup | tools/theater-build/build.py:181-189 | two bases without a leaf over a filled block, the nearer one repeating a block, whose grouping shows |
| Lookups.FoundStays | tools/theater-build/build.py:172-194 | no derived value is ever overwritten and no leaf in the way gives way, whatever is merged in |
| Shuffles.ThoseArranged | tools/theater-build/build.py:190-194 | rearranging a section moves no two children of one name past each other |
| Shuffles.BesideMerge | tools/theater-build/build.py:172-194 | a merge at the top of a file or of a section is the merge in engine order, but for the order in which sections kept in base order hold children of different names |
| Shuffles.BesideAlike | tools/theater-build/build.py:172-194 | no lookup tells at which depth a merge was made |
| Overlay.FitsExactly | tools/theater-build/build.py:172-194 | for any derived tree and any base: every lookup in the merge is the derived side's answer over the base's, exactly when what the base repeats shows nowhere under that tree |
| Overlay.NothingLost | tools/theater-build/build.py:172-194 | for any derived tree and any base: an answer of either side is never lost and never changed by merging |
| Overlay.LaterTwinLeaks | theaters/vendor/tug-scripts-3.9/theater_tug_39_default_weapon_upgrades.theater:12306-12325 | where a base repeats a name and the later block has a child that neither the first nor the derived side has, the merge answers a path that both sides miss |
| Overlay.SettledFits | tools/theater-build/build.py:172-194 | a settled base fits under every derived tree, at every depth |
| Overlay.MergeOverlays | tools/theater-build/build.py:172-194 | over a settled base a lookup in the merged tree is the derived side's answer where it has one and the base's otherwise, failing lookups included |
| Overlay.OverlaysExactly | tools/theater-build/build.py:172-194 | a base shows through under every derived tree and for every lookup exactly when it is settled |
| Overlay.SettledCloses | tools/theater-build/build.py:224-229 | the merge of two settled bases is settled, at every depth |
| Diamonds.MergedTwiceIsMergedOnce | tools/theater-build/build.py:172-194 | outside base order a settled base merged in again changes nothing, as an ordered tree |
| Diamonds.DiamondAddsNothing | tools/theater-build/build.py:22-25 | in engine order what one base has already brought along, and is settled, adds nothing when another base brings it along, where no leaf of the first base stands over a filled block of it |
| Diamonds.DiamondFile | tools/theater-build/build.py:22-25 | for whole files and at every depth: a settled file that one base has brought along adds nothing when another base brings it along, up to the order of children of different names in sections kept in base order; the including files need not be settled |
| Diamonds.DiamondSections | tools/theater-build/build.py:22-25 | section by section: the same names in the same order, equal sections, and a permutation where base order is kept |
| Diamonds.DiamondAddsNoAnswer | tools/theater-build/build.py:22-25 | so no lookup anywhere tells whether the second base brought the file along, base order included |
| Diamonds.RepeatedBlocksAreNotAbsorbed | tools/theater-build/build.py:181-189 | one base that is not absorbed: two filled blocks of one name, a level down, merged into an empty tree once and twice |
| Absorption.AbsorbedExactly | tools/theater-build/build.py:172-194 | below the top level, base order included: merging a base in a second time changes nothing, into whatever tree, as ordered trees, exactly when the base is absorbable |
| Absorption.FileAbsorbedExactly | tools/theater-build/build.py:224-229 | for files whose sections are named once: the same file merged in again changes nothing, into whatever tree, exactly when each section is absorbable and stays as it is when merged into itself |
| Absorption.SelfMerge | tools/theater-build/build.py:172-194 | a section merged into itself stays as it is exactly when it absorbs itself and, where base order is kept, its repeats stand last |
| Absorption.NoOpExactly | tools/theater-build/build.py:172-194 | outside base order a merge changes nothing exactly when the derived side absorbs the base |
| Absorption.SettledIsAbsorbable | tools/theater-build/build.py:172-194 | settled bases are absorbable |
| Absorption.RepeatsEitherWay | tools/theater-build/build.py:181-189 | a base of two filled blocks of one name is absorbed by every tree, and the same two blocks one level further down are not |
| Syntax.Tokens | tools/theater-build/build.py:109-140 | the tokenizer loop yields the tokens of the text up to its first error |
| Syntax.ParseChildren | tools/theater-build/build.py:143-166 | the parser loop, with every error it raises and the tokenizer's errors in their place |
| Syntax.Write | tools/theater-build/build.py:238-252 | writes the lines of a tree, or fails exactly where some string holds a double quote |
| Syntax.LexWritten | tools/theater-build/build.py:109-140 | the tokenizer yields a printed tree's own tokens, whatever else its strings hold |
| Spellings.SpelledLexes | tools/theater-build/build.py:109-140 | any sequence of quoted and bare words, braces, comments and runs of the twelve white-space characters, however they are mixed, lexes to its words and braces in order, with the error of its end, if any |
| Spellings.EveryTextIsSpelled | tools/theater-build/build.py:109-140 | every text at all is such a sequence, so that settles the tokenizer on all texts |
| Spellings.OnlyWhiteIsSkipped | tools/theater-build/build.py:115-118 | a character by itself is skipped exactly where it is one of the twelve |
| Spellings.LineEndsDoNotMatter | tools/theater-build/build.py:113-118 | a text with a carriage return in front of each line feed outside strings has the tokens it has without |
| Spellings.ParserStops | tools/theater-build/build.py:143-166 | the five ways in which the parser gives up, each behind any number of whole children |
| Spellings.ParserStopsInside | tools/theater-build/build.py:143-166 | the tokenizer's error comes out where the tokens end, and an error inside a block is the outer block's error |
| Spellings.PrintedInWords | tools/theater-build/build.py:244-252 | the lines that are printed for a value and for a block, quotes, tabs, braces and line ends included |
| Syntax.RenderedReadsBack | tools/theater-build/build.py:300-303 | rendering fails exactly on double quotes; otherwise tokenizing and parsing the text, header included, gives back exactly the one tree |
| Orphans.DropOrphans | tools/theater-build/build.py:268-297 | the walk that reassigns children drops exactly the orphans, reports them, and crashes exactly where "weapons" is a value |
| Orphans.CleanKeepsTheRest | tools/theater-build/build.py:275-297 | what is kept is the attachments that were no orphans, in their order, and nothing outside the attachment sections is touched |
| Orphans.OrphansAreTheMisapplied | tools/theater-build/build.py:45-60 | with any weapon registered, an attachment is dropped exactly when its list names something and it would show on a weapon the list does not name |
| Orphans.NothingMisapplied | tools/theater-build/build.py:45-60 | afterwards no attachment whose list names something applies to a registered weapon its list does not name |
| Orphans.OnlyEmptyListsMisapply | tools/theater-build/build.py:283-290 | afterwards an attachment that declares a list applies to some registered weapon the list does not name exactly when the list holds no value |
| Orphans.EmptyListIsKept | tools/theater-build/build.py:286-290 | an attachment with an empty list is no orphan and applies to every weapon |
| Orphans.RegisteredUnchanged | tools/theater-build/build.py:271-272 | the clean-up leaves the registered weapons as they were |
| Orphans.SecondPassDropsNothing | tools/theater-build/build.py:268-297 | a second pass changes nothing and drops nothing |
| OrphanPaths.OrphanInWords | tools/theater-build/build.py:258-290 | an attachment is an orphan exactly when its first child named weapons is a block with a value in it and none of those values is the name, in any case, of a weapon whose first child named IsBase is no value other than 0 and the empty one |
| OrphanPaths.Sifted | tools/theater-build/build.py:282-292 | each attachment by itself is kept or dropped, and both lists keep their order |
| OrphanPaths.RegisteredInWords | tools/theater-build/build.py:258-272 | the registered weapons are the children of the first section named weapons that are no bases; without that section there are none, and where it is a value it crashes |
| OrphanPaths.CleanInWords | tools/theater-build/build.py:275-297 | at every path that does not lead through a block named viewmodel_attachments or world_attachments below a definition, the same node stands as before, and in such a block all its children but the orphans, in order |
| OrphanPaths.MetExactly | tools/theater-build/build.py:275-297 | an attachment is met exactly where a path leads to it through a section, a definition, any blocks of other names, and a block of one of the two names |
| Flatten.LoadFile | tools/theater-build/build.py:209-230 | the recursive loader over in-memory files, every error, and the recursion limit for circular chains |
| BaseLines.OpensExactly | tools/theater-build/build.py:209-223 | a file opens exactly where it is found, parses, and is one block with nothing beside it but #base lines, in any case |
| BaseLines.FirstDirectoryCounts | tools/theater-build/build.py:202-207 | a file is taken from the first directory that has it, and is missing exactly where none has |
| BaseLines.LoadsAlongItsLines | tools/theater-build/build.py:215-230 | loading goes along the file's top level as it is parsed, from first to last |
| BaseLines.LineByLine | tools/theater-build/build.py:224-229 | the file of a #base line is merged into what all the lines before it have left, and before all the lines behind it |
| BaseLines.LooksAlongItsLines | tools/theater-build/build.py:215-230 | the lookup along the include tree asks the files of the #base lines in the order of the lines |
| Flatten.FlatteningPreservesLookups | tools/theater-build/build.py:209-230 | where the base fits at every merge the load performs, every lookup in the flattened theater is the lookup along the include tree without any merging |
| Flatten.SettledFilesFit | tools/theater-build/build.py:209-230 | where every file that parses is settled, every merge fits, and what is loaded is settled again |
| Flatten.SectionsStayDistinct | tools/theater-build/build.py:224-229 | a file that names each section once still does after its bases are merged in, whatever they repeat |
| Flatten.BuiltTheaterReadsBack | tools/theater-build/build.py:310-318 | whatever loads can be written after the clean-up, and what is written reads back as the tree that was built |
| Bytes.UnpackPack | tools/workshop/pack_vpk.py:84-84 | unpacking undoes packing for every number that fits the width |
| VpkTree.TreeReadsBack | tools/workshop/pack_vpk.py:77-87 | reading the written directory yields its records in order and stops at its end, whatever follows |
| VpkTree.TruncationIsPrefix | tools/bspaudit/collect_content_index.py:40-66 | any bytes at all, cut off anywhere, yield a prefix of what they yield whole |
| VpkTree.NothingNameless | tools/workshop/pack_vpk.py:128-139 | no reader ever yields an entry without a name or an extension |
| VpkReaders.Entries | tools/bspaudit/collect_content_index.py:48-66 | the three nested loops end and collect what one scan of the bytes collects |
| VpkReaders.ReadStr | tools/bspaudit/collect_content_index.py:41-46 | the string up to the next NUL and the position behind it, or failure where there is none |
| VpkPack.JoinUndoesSplit | tools/workshop/pack_vpk.py:49-55 | joining the three levels gives the path back exactly when its directory's name does not mean the root |
| VpkPack.GroupsCount | tools/workshop/pack_vpk.py:73-87 | grouped and sorted, every key occurs as often as it was collected |
| VpkPack.MetasAt | tools/workshop/pack_vpk.py:65-70 | with distinct keys each entry's metadata is its own |
| VpkRoundTrip.Layout | tools/workshop/pack_vpk.py:64-70 | the loop that grows the archive and fills the metadata |
| VpkRoundTrip.WriteTree | tools/workshop/pack_vpk.py:77-87 | the nested loops write the directory, or raise exactly where a number does not fit 32 bits |
| VpkRoundTrip.Build | tools/workshop/pack_vpk.py:61-109 | both files, or failure exactly for a name without a dot, an empty set, or a number that does not fit |
| VpkRoundTrip.ReadsBackExactly | tools/workshop/pack_vpk.py:72-87 | reading yields exactly the packed entries, each as often as packed, exactly when every entry has a name and an extension |
| VpkRoundTrip.SlicesCover | tools/workshop/pack_vpk.py:64-70 | the slices follow each other from the archive's start to its end, and each is its file's bytes |
| VpkRoundTrip.Verify | tools/workshop/pack_vpk.py:112-151 | the independent parser with every assertion it can raise, on names that decode |
| VpkRoundTrip.PackedVerifies | tools/workshop/pack_vpk.py:154-160 | distinct paths without NUL, with a name and an extension and no directory whose name means the root, verify once packed, with as many files seen as were packed |
| VpkRoundTrip.DistinctExactly | tools/workshop/pack_vpk.py:145-151 | a list of files has as many paths as files exactly where no path repeats |
| VpkRoundTrip.ContentIndex | tools/bspaudit/collect_content_index.py:22-66 | the content index of a directory file of either version, as far as it goes |
| VpkRoundTrip.DamagedFileIsPrefix | tools/bspaudit/collect_content_index.py:64-66 | any file cut off anywhere yields the first ones of the paths it yielded whole |
| VpkRoundTrip.ContentOfBuilt | tools/bspaudit/collect_content_index.py:22-66 | a directory file built from entries without NUL that have a name and an extension yields the path of every record, in order |
| VpkBytes.RecordInBytes | tools/workshop/pack_vpk.py:84-84 | the 18 bytes of a record, each number at its offset |
| VpkBytes.OneFileInBytes | tools/workshop/pack_vpk.py:77-87 | the bytes of a directory with one file |
| VpkBytes.ExtsInBytes | tools/workshop/pack_vpk.py:77-87 | with more behind it, a level is written the same but for its end (`NamesInBytes` and `PathsInBytes` for the other two) |
| VpkBytes.HeaderInBytes | tools/workshop/pack_vpk.py:89-97 | the 28 bytes of the header, each number at its offset |
| VpkBytes.DirectoryInBytes | tools/workshop/pack_vpk.py:99-102 | header, tree, and the three checksums, each of the bytes it covers |
| VpkBytes.LevelsInBytes | tools/bspaudit/collect_content_index.py:48-62 | at each level a name leads one level down, a zero by itself one level up or to the end, and a name without a zero ends the reading |
| VpkBytes.NameInBytes | tools/bspaudit/collect_content_index.py:57-63 | a name is followed by 18 bytes, read at their offsets, and by the preloaded bytes they announce, which are skipped |
| VpkBytes.ShortRecord | tools/bspaudit/collect_content_index.py:61-66 | with fewer than 18 bytes behind a name the reading ends |
| VpkBytes.NameInWords | tools/bspaudit/collect_content_index.py:63-63 | path, slash, name, dot and extension, without the path where it is empty or a space |
| VpkBytes.ContentInBytes | tools/bspaudit/collect_content_index.py:29-38 | the tree starts at byte 12 in version 1 and at byte 28 in every other; a short file and any other signature have none |
| VpkBytes.SplitInWords | tools/workshop/pack_vpk.py:46-55 | a path is split at its last slash and, behind that, at its last dot; without a dot it is refused |
| VpkBytes.DirectoryInOrder | tools/workshop/pack_vpk.py:77-81 | at each level the names stand in the order of their bytes |
| VpkBytes.PacksExactly | tools/workshop/pack_vpk.py:42-97 | packing fails exactly where there is no file, a name has no dot, an offset or length that is recorded takes more than 32 bits, or the directory does |
| VpkBytes.HeaderChecked | tools/workshop/pack_vpk.py:112-119 | what verify asks of the header and of both checksums, at the offsets the header gives |
| BitFields.FieldsReadBack | fastdl/tools/dxt.go:84-84 | fields shifted into place and or-ed together are read back by shifting and masking |
| Dxt.Search | fastdl/tools/dxt.go:73-83 | the search from an impossible distance finds the first of the smallest distances |
| Dxt.Encode | fastdl/tools/dxt.go:37-132 | the encoder's loops write the blocks row by row, alpha half first in DXT5 |
| Dxt.SixBytes | fastdl/tools/dxt.go:116-118 | the loop of shifts writes the 48 alpha bits lowest byte first |
| Dxt.Paint | fastdl/tools/dxt.go:176-207 | one block sets its own pixels, where the image reaches, and no others |
| Dxt.Decode | fastdl/tools/dxt.go:135-211 | every pixel is its block's, or clear where the block is not wholly there |
| DxtRoundTrip.RepackIsSame | fastdl/tools/dxt.go:14-22 | expanding a packed colour and packing it again gives the packed colour, for all 65536 |
| DxtRoundTrip.PaletteSteps | fastdl/tools/dxt.go:65-68 | the interpolated colours lie between the endpoints, in order |
| DxtRoundTrip.AlphasStepDown | fastdl/tools/dxt.go:94-98 | the interpolated alphas step down in order, and the first can be larger than a byte |
| DxtRoundTrip.SolidIsNearest | fastdl/tools/dxt.go:70-71 | in a block whose endpoints pack to one colour, index 0 is nearest in whichever palette a decoder uses |
| DxtRoundTrip.ColourOfBlock | fastdl/tools/dxt.go:58-86 | each pixel of a block decodes to the nearest entry of the palette a decoder has for it, and opaque in DXT1 |
| DxtRoundTrip.AlphaOfBlock | fastdl/tools/dxt.go:88-118 | each alpha decodes to the nearest table entry, within the block's range, so without wrapping; the extremes come back exactly |
| DxtRoundTrip.DecodedIsNearest | fastdl/tools/dxt.go:37-211 | for images of any size and both formats, every pixel decodes to the nearest colour and alpha of its own block |
| DxtRoundTrip.TruncatedIsClear | fastdl/tools/dxt.go:143-146 | cut off anywhere, a pixel decodes as before or stays clear |
| DxtNumbers.ColourInNumbers | fastdl/tools/dxt.go:170-206 | each pixel of a block decodes to an endpoint, to two thirds of one and one third of the other, or, in the other mode of DXT1, to half of each or to transparent black, each rounded down; the endpoints are the 5, 6 and 5 bits of two numbers scaled to 255 |
| DxtNumbers.FourPixels | fastdl/tools/dxt.go:170-206 | of four pixels of a block with the four indices, the first two are the endpoints and the other two lie between them by those inequalities |
| DxtNumbers.AlphaInNumbers | fastdl/tools/dxt.go:152-178 | the alpha of each pixel lies between the two endpoints by sevenths, weights adding up to 8, or by fifths, adding up to 6 |
| DxtNumbers.PlaceInNumbers | fastdl/tools/dxt.go:141-146 | which bytes a pixel is decoded from, and that it is clear where they are not all there |
| DxtEncoded.EndpointsInNumbers | fastdl/tools/dxt.go:46-64 | the endpoints that are written are the largest and the smallest value of each channel in the block |
| DxtEncoded.NearestInNumbers | fastdl/tools/dxt.go:69-85 | the index that is written stands for a colour than which none of the four is closer |
| DxtEncoded.NearestAlphaInNumbers | fastdl/tools/dxt.go:88-118 | the same for alpha and its eight values |
| DxtEncoded.EncodedInNumbers | fastdl/tools/dxt.go:26-45 | where the encoder writes which sixteen pixels, with the last column and row repeated beyond the edge |
| Vtf.Halve | fastdl/tools/vtf.go:211-239 | the box filter's loops average the pixels under each halved one that the image has |
| Vtf.BuildLevels | fastdl/tools/vtf.go:125-133 | the mip loop ends and yields the chain of halvings |
| Vtf.EncodeLevel | fastdl/tools/vtf.go:168-186 | a level's bytes, block-coded or one pixel after the other in the format's channel order |
| Vtf.WriteVtf | fastdl/tools/vtf.go:119-166 | the file: header, then the levels smallest first |
| VtfLaws.LevelShape | fastdl/tools/vtf.go:128-132 | level i has the sides shifted right by i, at least 1, and only the last level is 1 by 1 |
| VtfLaws.LevelCount | fastdl/tools/vtf.go:151-151 | sides of k bits make at most k levels |
| VtfLaws.SizeMatchesExactly | fastdl/tools/vtf.go:71-77 | a level takes the bytes readers expect exactly in DXT1, DXT5, RGBA8888 and BGRA8888 |
| VtfLaws.BodyLength | fastdl/tools/vtf.go:156-159 | in those formats the mips take the sum of the sizes readers expect |
| VtfLaws.HeaderReadsBack | fastdl/tools/vtf.go:94-154 | every header field reads back as written, at its own offset |
| VtfLaws.FullSizeIsLast | fastdl/tools/vtf.go:156-161 | the last chunk of the file is the full-size image |
| VtfLaws.UnpackedExactly | fastdl/tools/main.go:24-34 | for sides below 65536 the converter hands the decoder the full-size image's bytes exactly when the format is DXT1 or DXT5 |
| VtfLaws.ReadBackIsNearest | fastdl/tools/main.go:20-34 | written and converted back, every pixel is the nearest its block has |
| VtfLaws.MipsStayInRange | fastdl/tools/vtf.go:211-239 | no mip has a channel outside the source's range |
| VtfLaws.OddEdgeIsDropped | fastdl/tools/vtf.go:213-221 | the last column and row of odd sides never reach a mip |
| VtfNumbers.HalvedInNumbers | fastdl/tools/vtf.go:211-239 | a halved image has half the columns and rows, at least one, and each channel of a pixel is the mean of the four it covers, rounded down, where a side of one pixel counts twice |
| VtfNumbers.SizeInNumbers | fastdl/tools/vtf.go:51-77 | the size of a level in each format, and none in any other |
| VtfNumbers.PixelsInOrder | fastdl/tools/vtf.go:168-186 | four bytes a pixel, row by row, red first, or in BGRA8888 blue first |
| VtfNumbers.HeaderInNumbers | fastdl/tools/vtf.go:135-154 | every one of the 80 bytes of the header by its offset |
| VtfNumbers.ReadInNumbers | fastdl/tools/vtf.go:94-117 | from which offsets a reader takes each field of any header, whoever wrote it |
| VtfNumbers.SmallestFirst | fastdl/tools/vtf.go:156-161 | in front of each level lie the header and every smaller level |
| VtfNumbers.PlainFile | fastdl/tools/vtf.go:125-161 | without mips the image follows the header, which counts one level |
| VtfNumbers.RefusedExactly | fastdl/tools/main.go:20-34 | the three reasons for which the converter refuses a file, in their order |
| CertReload.ClientCertReloader.GetClientCertificate | tools/stats-api/tlsreload.go:121-148 | succeeds exactly where both files are there and the cached pair is for their times or what is read loads; success leaves what it returned cached under the times just seen, failure leaves all as it was; only matching pairs ever come in |
| CertReload.CaCertReloader.Pool | tools/stats-api/tlsreload.go:163-188 | succeeds exactly where the file is there and the cached pool is for its time or what is read parses; success leaves what it returned cached under that time, failure leaves all as it was; only pools that parse ever come in |
| CertReload.PoolIsPairCall | tools/stats-api/tlsreload.go:154-188 | one call for the pool is one call for a pair whose key never changes and matches whatever parses |
| CertReload.RunKeeps | tools/stats-api/tlsreload.go:121-148 | each step of a call, between any changes of the files, keeps the invariant |
| CertReload.RunsKeep | tools/stats-api/tlsreload.go:110-148 | in every run: one call at a time, every returned pair matches, a loaded one was on disk after its call's own stat, a cached one was loaded under the times just seen |
| CertFreshness.CachedIsWhatWasSeen | tools/stats-api/tlsreload.go:134-136 | where no time comes back around other bytes, a cached answer is the two versions its call had stat'ed |
| CertFreshness.FreshTimesNeverReturn | tools/stats-api/tlsreload.go:134-136 | a new time for each replacement is enough for that |
| CertFreshness.FreshGrows | tools/stats-api/tlsreload.go:134-136 | times stay fresh exactly as long as each replacement has a time that none before it had |
| CertFreshness.QuietIsCurrent | tools/stats-api/tlsreload.go:121-148 | once rotations stop, every call that begins and succeeds returns the current pair, where no other matching pair was readable since a look that saw the last versions' times |
| CertFreshness.QuietIsCurrentExactly | tools/stats-api/tlsreload.go:121-148 | for any histories of both files that condition is exactly when this holds in all interleavings |
| CertFreshness.LateLooksExactly | tools/stats-api/tlsreload.go:121-148 | the same with calls under way at the last rotation, for every call that looked at both files after it |
| CertFreshness.CachedRightExactly | tools/stats-api/tlsreload.go:134-145 | for any histories of both files, matching or not: all interleavings give right cached answers exactly when no matching pair was readable between two moments of the same two times but the pair of the second |
| CertFreshness.OneKeyTells | tools/stats-api/tlsreload.go:134-136 | with one key that matches every certificate that condition is that no time comes back around different bytes |
| CertFreshness.NoReturnTells | tools/stats-api/tlsreload.go:134-136 | where neither file's times come back the condition holds, whatever matches |
| CertFreshness.UndisturbedCall | tools/stats-api/tlsreload.go:121-148 | the steps of a call nothing disturbs leave the cache and the result of the method |
| PoolRuns.PoolRunIsPairRun | tools/stats-api/tlsreload.go:154-188 | every run of calls for the pool, interleaved with changes of its file, is a run of calls for a pair with a constant key |
| PoolRuns.PoolAnswers | tools/stats-api/tlsreload.go:163-188 | in every run: every returned pool parses, a loaded one was on disk after its call's own stat, a cached one was loaded under the time just seen |
| PoolRuns.PoolIsWhatWasSeen | tools/stats-api/tlsreload.go:171-173 | where no time comes back around other bytes, a cached pool is the version its call had stat'ed |
| PoolRuns.PoolQuietIsCurrent | tools/stats-api/tlsreload.go:163-188 | once the file stops changing, every call that begins and succeeds returns the current pool, where no other bundle that parses was readable since a look that saw the last version's time |
| PoolRuns.PoolQuietExactly | tools/stats-api/tlsreload.go:163-188 | for any history of the file that condition is exactly when this holds in all interleavings |
| PoolRuns.PoolRightExactly | tools/stats-api/tlsreload.go:171-185 | for any history of the file: all interleavings give right cached pools exactly when no bundle that parses was readable between two moments of the same time but the one of the second |
| PoolRuns.UndisturbedPool | tools/stats-api/tlsreload.go:163-188 | the steps of a call nothing disturbs leave the cache and the result of the method |
| PrefixedWriter.Writer.Write | tools/server-runner/writer.go:30-103 | hands on one piece a line, returns the full length, leaves the buffer empty and remembers whether a line is open |
| PrefixLaws.PiecesStamp | tools/server-runner/writer.go:38-92 | what the loop hands on line by line is a prefix in front of each character that starts a line |
| PrefixLaws.WriteAll | tools/server-runner/writer.go:30-103 | after any sequence of writes the underlying writer has received exactly the text whose laws follow |
| PrefixLaws.ChunkingShowsExactly | tools/server-runner/writer.go:63-75 | the output is the input with one prefix before each line exactly when no write boundary splits a carriage return from its line feed; each split costs one prefix |
| PrefixLaws.StrippingRecovers | tools/server-runner/writer.go:13-14 | removing the prefixes from the output recovers the input, however it was cut |
| PrefixWords.LineInWords | tools/server-runner/writer.go:38-92 | a line goes out in one piece with its break, which is a line feed, a carriage return, or both, and what is behind it starts a line |
| PrefixWords.RestInWords | tools/server-runner/writer.go:46-54 | what has no break goes out in one piece and leaves the line open; nothing changes nothing |
| WorkshopLock.Partition | tools/workshop/workshop_lock.py:115-138 | the loops fill the buckets, or raise exactly where a group has no count or an item is hashed into none |
| WorkshopLock.DockerfileLayers | tools/workshop/workshop_lock.py:256-267 | the stages named in a server's COPY lines, in order |
| WorkshopLaws.SplitUndoesJoin | tools/workshop/workshop_lock.py:96-98 | splitting a group's name gives its subscribers back where none has a hyphen |
| WorkshopLaws.HoldsExactly | tools/workshop/workshop_lock.py:115-138 | a bucket holds an id exactly where an item of that id has its group and key |
| WorkshopLaws.ExactlyOneBucket | tools/workshop/workshop_lock.py:115-138 | every item is in one bucket and in no other |
| WorkshopLaws.StagesDiffer | tools/workshop/workshop_lock.py:141-142 | no two buckets share a stage name, as keys have no hyphen |
| WorkshopLaws.LayersAgreeExactly | tools/workshop/workshop_lock.py:256-279 | with non-empty subscriber sets, the ids behind every server's COPY lines are the ids in its manifest exactly when no subscriber's name has a hyphen |
| WorkshopLaws.BucketIsCell | tools/workshop/workshop_lock.py:131-137 | a bucket lists the ids of its group and key in ascending numeric order, and is never empty |
| WorkshopLaws.AddingTouchesOneBucket | tools/workshop/workshop_lock.py:21-26 | an item added anywhere changes its own bucket only, and that by one id |
| WorkshopLaws.ManifestAscends | tools/workshop/workshop_lock.py:277-279 | the manifest lists ids in ascending numeric order |
| WorkshopNames.GroupInWords | tools/workshop/workshop_lock.py:96-98 | a group is named after its subscribers in text order, with a hyphen between each two |
| WorkshopNames.BucketInWords | tools/workshop/workshop_lock.py:110-137 | an item of at least the limit, where that is not 0, has a bucket under its own id, and every other one the two or more digits of its hash modulo the count of its group |
| WorkshopNames.RaisesExactly | tools/workshop/workshop_lock.py:127-134 | partitioning raises exactly where an item's group has no count, or the count 0 and the item is below the limit |
| WorkshopNames.StageInWords | tools/workshop/workshop_lock.py:141-142 | what a stage is called |
| WorkshopNames.ManifestGoesUp | tools/workshop/workshop_lock.py:277-279 | ids go up as the numbers their digits spell, not as texts |
| WorkshopNames.BucketGoesUp | tools/workshop/workshop_lock.py:137-137 | so they do in every bucket |
| WorkshopNames.LayersInTextOrder | tools/workshop/workshop_lock.py:256-262 | the COPY lines go through groups and keys in text order |
| Sorting.SortSorts | tools/workshop/workshop_lock.py:137-137 | sorted() by a total order is in order |
| Sorting.SortIsStable | tools/workshop/workshop_lock.py:137-137 | what compares equal comes out in the order it went in |
| TextOrder.LexicographicExactly | tools/workshop/workshop_lock.py:98-98 | one text is not after another exactly where it is its beginning or has the smaller element at the first difference |
| TextOrder.SortedAs | tools/workshop/workshop_lock.py:98-98 | by an order that tells all elements apart, a list has one arrangement only, and sorting gives it |
| Markers.Rendered | tools/workshop/workshop_lock.py:347-360 | splices one region after the other and stops at the first that fails |
| Markers.SpliceIsPut | tools/workshop/workshop_lock.py:336-344 | splicing succeeds exactly where the opening marker has a closing one after it, and replaces that span |
| MarkerWords.SpliceInWords | tools/workshop/workshop_lock.py:333-344 | what a splice writes, with the markers spelled out: the opening one, each line on a line of its own, the closing one |
| MarkerWords.SpliceFails | tools/workshop/workshop_lock.py:336-342 | it stops exactly where a marker is missing, and raises exactly where the closing one stands only in front of the opening one |
| MarkerLaws.Overwrite | tools/workshop/workshop_lock.py:336-344 | spliced twice, the last lines stay |
| MarkerLaws.CommuteInOrder | tools/workshop/workshop_lock.py:355-356 | splices of regions that lie apart commute |
| Rendering.OneMoreRegion | tools/workshop/workshop_lock.py:347-360 | what it takes for a file to be ready for rendering: each region is there and lies apart from each of the others |
| Rendering.PutReady | tools/workshop/workshop_lock.py:336-344 | a splice leaves every region there and apart from the others |
| Rendering.RenderForgets | tools/workshop/workshop_lock.py:347-360 | after any rendering, a rendering of at least its regions gives what it would have given at once |
| Rendering.RenderIsFixpoint | tools/workshop/workshop_lock.py:363-394 | rendering what was rendered changes nothing, so the check passes |
| Rendering.OutsideIsKept | tools/workshop/workshop_lock.py:336-344 | with the regions emptied, the text before and the text after are the same |
| Rendering.EveryRegionHolds | tools/workshop/workshop_lock.py:347-360 | afterwards every region holds exactly what was generated for it |

## Left out

Casecache
- The libc interposition layer, the DIR wrapper, run-time renames, `..`, `.`, empty components and symlinks; these paths go through `Tracked` and `AnswerFor` as any string does, but the theorems about the tree speak of normalised ones.
- Parsing of CASECACHE_EXCLUDE: the list is a parameter. Allocation failure and the truncation of over-long child paths by `snprintf` during the build.
- DirtyProtocol.RunsKeep: steps are sequentially consistent; the weaker ordering of the plain `volatile` gate is not modelled. The index is frozen before the first call, as `pthread_once` makes it.
- IndexTheorems.FalseEnoentExactly: asks for siblings that do not differ in case only, and that a readable `/opt` lists the game root; `EnoentExactly` asks for neither.

Theater flattener
- KeyValues.MergeInto: works on values, so it does not capture that Python changes the derived tree in place, nor aliasing between a base and a tree it was merged into (the source copies before it appends).
- Line numbers in error messages, the files the loader notes as used, and the names in the report of dropped attachments beyond the attachments themselves.
- Grouping.GroupsExactly: is about engine order; for files and sections kept in base order `GroupingShowsNowhere` says one way what `GroupsFreelyExactly` says both ways of settled bases.
- Diamonds.DiamondFile: asks that the shared file be settled and that no leaf of the first including file stand over a filled block of it.
- Absorption.FileAbsorbedExactly: asks for files in which no section is named twice.
- Flatten.FlatteningPreservesLookups: goes one way, as an answer that leaks at one merge may be covered again by a nearer file.
- Syntax.RenderedReadsBack: the file name in the header comment must have no line break; with one, the rest of the name would be read as text.
- Text is Latin-1, as the loader reads it; case folding is Python's for those characters.
- Flatten.LoadFile: files are maps from names to texts, and the interpreter's recursion limit is a parameter.

VPK
- Walking the directory and reading the files; the names are the bytes of their UTF-8 form, which sort as the text does. `normalise` and the scan for Steam libraries.
- VpkRoundTrip.Verify: names are bytes, so the error for names that are not UTF-8 is not modelled.
- VpkRoundTrip.PackedVerifies: asks for distinct paths without NUL, a name and an extension, and no directory that is empty or a single space; MD5 is any function to 16 bytes and CRC any function.

DXT and VTF
- Bit operations are arithmetic on naturals: or-ing a field into zero bits is adding it. Images are rows of pixels instead of one byte buffer with a stride.
- Reflectivity and bump scale are parameters, as bit patterns. File input and output. Second-generation losses beyond `RepackIsSame`, and conformance of the alpha tables.
- Dxt.Encode: asks for at least one pixel, as the program panics on an empty image.
- VtfLaws.UnpackedExactly: is about sides below 65536, the range of the header's fields.

Certificate reloader
- CertReload.RunsKeep: loading is a relation between a certificate's and a key's bytes; X.509 and TLS are not modelled. A file is read at one moment.

Prefixed writer
- PrefixedWriter.Writer.Write: errors of the underlying writer and the mutex between writers are not modelled.

Workshop lock
- Fetching, pinning and the default bucket counts; sizes and comments in the generated lines; the text of the manifest around its ids. The digest is a parameter.
- WorkshopLaws.LayersAgreeExactly: asks for items with at least one subscriber and ids without a hyphen.
- Rendering.RenderIsFixpoint: asks that the regions are there and do not overlap, that their names have no line break, and that no generated line holds a marker.
