# Orphan-page finder of the Arbitrum documentation site

The documentation site ships a maintenance script that reports documentation
pages and images that nothing reaches. It walks every file below the
documentation root `../arbitrum-docs` and fills five lists:

- `resources`: one entry per file, the path below the root with its first
  `.mdx`, then its first `.md`, removed;
- `resourcesLinkedInDocs`: the resolved target of every internal link in a
  page, without repeats;
- `resourcesImportedInDocs`: the resolved target of every
  `import Name from '….md(x)';` line in a page, without repeats;
- `resourcesLinkedInSidebar`: `/` + id for every `doc` item reached,
  through its categories, from a Docusaurus sidebar given as an item list,
  repeats kept;
- `dirsAutogeneratedInSidebar`: `/` + dirName for every `autogenerated`
  item with a non-empty dirName reached the same way, repeats kept.

A sidebar given in the categories shorthand (an object rather than a list)
is skipped whole, and a shorthand category object inside an item list has
no `type` and is skipped too, so pages named only there are not covered.

A link is first cut at its first `#` unless it starts with `#`. Then:

- a link on `https://developer.offchainlabs.com`, `https://developer.arbitrum.io`
  or `https://docs.arbitrum.io` keeps only what lies between the first and
  the second occurrence of the host's domain (`offchainlabs.com` or
  `arbitrum.io`): it loses its host, and also everything from a repeated
  domain onwards;
- any other `http(s)` link, a link holding `:`, a link starting with `@` and
  a pure anchor are dropped;
- everything else is a relative link.

Kept links and import paths are resolved against the page that holds them:

- `./` is taken from the page's folder;
- when the link starts with `../`, every `../` in it, leading or not, drops
  one folder, and the first three characters per `../` are cut;
- a leading `/` is forced;
- the first `.mdx` and then the first `.md` are removed.

A resource is an orphan when all of these hold:

- no autogenerated directory is a raw string prefix of it;
- no sidebar `doc` names it;
- no page imports it;
- it is not a `.png` that a page links to.

The script lists the orphans and exits with status 1 when there is one and
with status 0 otherwise.

The model follows the script's code in four places where a looser reading
is possible:

- when a link starts with `../`, every `../` in it counts as a move up, not
  only the leading ones (`PathResolution.NonLeadingBackMovesCounted`); a link
  that starts with neither `./` nor `../` moves up no folder at all, whatever
  it holds (`PathResolution.PlainLinkIgnoresOrigin`);
- on a documentation host, only the piece up to a second occurrence of the
  domain is kept (`LinkClassification.RepeatedDomainCut`);
- the autogenerated test is a raw prefix test (`OrphanDetection.RawPrefixCovers`);
- the two sidebar lists keep repeats, while the two page lists do not.

Layout, one module per file:

- `js_strings.dfy` (`JsStrings`): the JavaScript string operations the script
  relies on, with the meaning of each proved. These are `indexOf`, `includes`,
  `startsWith`, `endsWith`, `split` with a string separator, `join`,
  `substring` and `replace` with a string pattern.
- `path_resolution.dfy` (`PathResolution`): `getFullPathToResource`, as a
  function and as the step-by-step method, with its properties.
- `link_classification.dfy` (`LinkClassification`): the anchor cut and the
  host, discard and relative branches applied to each extracted link.
- `unique_lists.dfy` (`UniqueLists`): the push-unless-present idiom used for
  the two page lists.
- `sidebar.dfy` (`Sidebar`): the sidebar items and the walk over them.
- `orphan_detection.dfy` (`OrphanDetection`): the orphan test and the exit
  status.
- `orphan_pages.dfy` (`OrphanPages`): the five module-level arrays as the
  fields of class `Collector`, the functions that push into them as its
  methods, and the whole run as `FindOrphanPages`. Each method is proved
  against a specification function of its inputs and the old state.

## Model

| member | source | states |
|---|---|---|
| PathResolution.GetFullPathToResource | website/src/scripts/find-orphan-pages.ts:86-120 | The resolver run step by step, with the folder list popped once per `../` in a loop, returns exactly the resolved path `FullPathToResource` that the lemmas below characterise |
| PathResolution.FullPathIsRooted | website/src/scripts/find-orphan-pages.ts:111-117 | Every resolved path starts with `/`, whatever the link and origin, even after the extension removal |
| PathResolution.StripKeepsRoot | website/src/scripts/find-orphan-pages.ts:117 | Removing the first occurrence of a pattern that starts with `.` keeps a leading `/` |
| PathResolution.SameFolderLink | website/src/scripts/find-orphan-pages.ts:88-93 | `./name` from the page `dir/file` resolves to `dir/name`, minus its extension; at the top level this is `/name` |
| PathResolution.AncestorLink | website/src/scripts/find-orphan-pages.ts:96-109 | `n` leading `../` then a rest free of `../`, from a page `n` folders below `dir`, resolves to `dir/rest` minus its extension |
| PathResolution.AncestorResolution | website/src/scripts/find-orphan-pages.ts:96-109 | A link of `n >= 1` leading `../` passes the `./` branch untouched, and the `../` branch pops the file and `n` folders, then keeps the rest |
| PathResolution.AncestorBeyondRoot | website/src/scripts/find-orphan-pages.ts:101-108 | When the `../` moves use up the origin's folders, the result falls back to `/` + rest, because popping an empty array does nothing |
| PathResolution.LeadingBackMoves | website/src/scripts/find-orphan-pages.ts:98 | Counting `../` by splitting finds exactly `n` in `n` copies of `../` followed by a rest without one |
| PathResolution.BackMovesOfInnerDotDot | website/src/scripts/find-orphan-pages.ts:98 | The count includes a `../` inside the link: `../x/../y` counts 2 |
| PathResolution.AncestorOfInnerDotDot | website/src/scripts/find-orphan-pages.ts:96-109 | From `/a/b/c/d.md`, the `../` branch turns `../x/../y` into `/a/./y`: it pops two folders and cuts six characters |
| PathResolution.NonLeadingBackMovesCounted | website/src/scripts/find-orphan-pages.ts:96-117 | The whole resolver turns `../x/../y` from `/a/b/c/d.md` into `/a/./y`, not the `/a/b/y` a path normaliser would give |
| PathResolution.PlainLinkIgnoresOrigin | website/src/scripts/find-orphan-pages.ts:88-117 | A link that starts with neither `./` nor `../` does not depend on its origin: it is only given a leading `/` and stripped of its extension, even when it holds `../` further on |
| PathResolution.InnerDotDotNotLeading | website/src/scripts/find-orphan-pages.ts:96-117 | `a/../b` from `/x/y/z.md` becomes `/a/../b`: a `../` that is not at the start moves up no folder |
| PathResolution.RootedUntouched | website/src/scripts/find-orphan-pages.ts:112-114 | A path already starting with `/` passes the `../` branch and the leading-slash step unchanged |
| PathResolution.DirPrefixOfFolder | website/src/scripts/find-orphan-pages.ts:89-92 | Splitting a folder path on `/` and joining it back with a trailing `/` gives the folder followed by `/` |
| PathResolution.ElementsOfPath | website/src/scripts/find-orphan-pages.ts:89 | Splitting `dir/y1/…/yn` on `/` gives the elements of `dir` followed by `y1 … yn` when no `yi` holds `/` |
| PathResolution.StripExtensionOf | website/src/scripts/find-orphan-pages.ts:117 | For a name without `.md`, the extension step removes a trailing `.mdx` or `.md` and leaves the bare name alone |
| PathResolution.RelativeToRootOf | website/src/scripts/find-orphan-pages.ts:163 | Removing `../arbitrum-docs` from a path under the root gives the path below the root |
| PathResolution.RootedLinkMatchesResource | website/src/scripts/find-orphan-pages.ts:111-117 | A link `/rel` resolves to the same name that the directory walk records for the file `../arbitrum-docs/rel` |
| PathResolution.SiblingLinkMatchesResource | website/src/scripts/find-orphan-pages.ts:88-93 | A `./name` link in `dir/file` resolves to the same name that the directory walk records for `dir/name` |
| JsStrings.IndexOf | website/src/scripts/find-orphan-pages.ts:131 | `indexOf` finds an occurrence with none before it, and reports none exactly when the pattern occurs nowhere |
| JsStrings.SplitOnJoin | website/src/scripts/find-orphan-pages.ts:132 | Joining the pieces of `split(sep)` with `sep` gives the text back, and no piece holds `sep` |
| JsStrings.SplitJoinChar | website/src/scripts/find-orphan-pages.ts:89 | Splitting the join of pieces free of a one-character separator gives the pieces back |
| JsStrings.SplitCharCount | website/src/scripts/find-orphan-pages.ts:131-132 | Splitting on one character gives a single piece exactly when the character is absent |
| JsStrings.SplitAppendChar | website/src/scripts/find-orphan-pages.ts:89-90 | Splitting `a/b`, with `b` free of `/`, gives the split of `a` followed by `b`, so `pop` removes exactly `b` |
| JsStrings.SplitWith | website/src/scripts/find-orphan-pages.ts:132 | A text that holds the separator splits into at least two pieces |
| JsStrings.SplitWithout | website/src/scripts/find-orphan-pages.ts:132 | A text without the separator splits into itself alone |
| JsStrings.ReplaceFirstByIndex | website/src/scripts/find-orphan-pages.ts:117 | `replace` with a string pattern cuts out only the first occurrence that `indexOf` finds, and returns the text unchanged when there is none |
| LinkClassification.StripAnchor | website/src/scripts/find-orphan-pages.ts:131-133 | The cut link is a prefix of the link that stops just before its first `#`; a link starting with `#` is kept whole |
| LinkClassification.ClassifyLink | website/src/scripts/find-orphan-pages.ts:129-160 | The per-link step. The lemmas below prove what it gives: nothing for a pure anchor, for an `http(s)` link on any other host, and for a cut link holding `:` or starting with `@` (`ExternalLinkDiscarded`, `RelativeLinkKept`, `ClassifiedHasNoAnchor`); the cut link itself for any other relative link (`RelativeLinkKept`); and on the three documentation hosts the piece between the first and second occurrence of the domain (`KnownHostLink`, `RepeatedDomainCut`). Every kept path is free of `#` |
| LinkClassification.ClassifiedHasNoAnchor | website/src/scripts/find-orphan-pages.ts:129-160 | A pure anchor is discarded, and every kept path is free of `#` |
| LinkClassification.KnownHostLink | website/src/scripts/find-orphan-pages.ts:136-145 | On each of the three documentation hosts, the host followed by a path, with or without an anchor, yields that path |
| LinkClassification.DocsLinkExample | website/src/scripts/find-orphan-pages.ts:139-145 | `https://docs.arbitrum.io/intro#setup` yields `/intro` |
| LinkClassification.RepeatedDomainCut | website/src/scripts/find-orphan-pages.ts:136-145 | On each documentation host, splitting on the domain keeps only the piece up to its second occurrence: a link made of the host, a path, the domain again and anything at all after it (an anchor included) gives that path |
| LinkClassification.RepeatedDomainExample | website/src/scripts/find-orphan-pages.ts:139-145 | `https://docs.arbitrum.io/a/arbitrum.io/b` yields `/a/` |
| LinkClassification.HostStripped | website/src/scripts/find-orphan-pages.ts:136-145 | Splitting on the host's domain keeps exactly the path that follows the host when the path does not repeat the domain |
| LinkClassification.HostDomainIndex | website/src/scripts/find-orphan-pages.ts:136-145 | Each host's domain ends the host, and it is the first occurrence there |
| LinkClassification.HostBranch | website/src/scripts/find-orphan-pages.ts:136-145 | A link on a documentation host takes the old-host branch exactly when that host is `developer.offchainlabs.com` |
| LinkClassification.ExternalLinkDiscarded | website/src/scripts/find-orphan-pages.ts:146-148 | Every `http://` or `https://` link on another host is discarded |
| LinkClassification.RelativeLinkKept | website/src/scripts/find-orphan-pages.ts:149-160 | A non-`http(s)` link is kept exactly when it is not an anchor and its cut form holds no `:` and does not start with `@`; what is kept is the cut form |
| LinkClassification.NotHttp | website/src/scripts/find-orphan-pages.ts:136-148 | A non-`http(s)` link stays so after the anchor cut and lies on none of the three hosts |
| LinkClassification.StripAnchorPrefix | website/src/scripts/find-orphan-pages.ts:131-146 | A `#`-free prefix test gives the same answer before and after the anchor cut |
| LinkClassification.AnchorStartKept | website/src/scripts/find-orphan-pages.ts:131-159 | The anchor cut keeps whether a link starts with `#` |
| LinkClassification.StripAtFirstAnchor | website/src/scripts/find-orphan-pages.ts:131-133 | A `#`-free link is unchanged by the cut, and the same link followed by `#anchor` is cut back to it |
| UniqueLists.DedupAppend | website/src/scripts/find-orphan-pages.ts:166-168 | A path already present leaves the list unchanged; an absent one is appended at the end. The elements are the old ones plus the path, and a repeat-free list stays repeat-free |
| UniqueLists.DedupAppendAll | website/src/scripts/find-orphan-pages.ts:186-189 | Pushing a batch unless present extends the list, holds exactly the old entries and the batch, and keeps it repeat-free |
| UniqueLists.DedupAppendAllConcat | website/src/scripts/find-orphan-pages.ts:129-169 | Pushing two batches in turn is pushing their concatenation |
| Sidebar.Leaves | website/src/scripts/find-orphan-pages.ts:17-65 | The flattened sidebar holds no category |
| Sidebar.WalkRecordsLeaves | website/src/scripts/find-orphan-pages.ts:17-65 | The recursive walk records exactly the `doc` leaves and the named `autogenerated` leaves of the flattened sidebar, in walk order |
| Sidebar.ItemsAppend | website/src/scripts/find-orphan-pages.ts:61-65 | Walking two runs of items records the first run's entries, then the second's |
| Sidebar.ItemsSnoc | website/src/scripts/find-orphan-pages.ts:61-65 | Walking one more item appends what that item records |
| Sidebar.CategoryContributesItems | website/src/scripts/find-orphan-pages.ts:25-31 | A category records exactly what its items record |
| Sidebar.SilentItemsRecordNothing | website/src/scripts/find-orphan-pages.ts:18-56 | Bare strings, categories without items, links, unknown types and autogenerated items without a dirName record nothing, wherever they stand |
| Sidebar.DocItemExample | website/src/scripts/find-orphan-pages.ts:34-37 | A `doc` item `intro` records `/intro` in the sidebar list and nothing in the autogenerated list |
| Sidebar.AutogeneratedItemExample | website/src/scripts/find-orphan-pages.ts:40-46 | An `autogenerated` item `guides` records `/guides` in the autogenerated list only |
| Sidebar.EntriesRooted | website/src/scripts/find-orphan-pages.ts:35-45 | Every sidebar entry starts with `/`, and every directory entry also names something after it |
| Sidebar.SkippedSidebarsRecordNothing | website/src/scripts/find-orphan-pages.ts:68-81 | Missing, shorthand and empty sidebar values record nothing |
| OrphanDetection.Orphans | website/src/scripts/find-orphan-pages.ts:218-230 | No more orphans are listed than there are resources |
| OrphanDetection.IsOrphan | website/src/scripts/find-orphan-pages.ts:220-227 | The four-part test. `OrphansMembership` proves that a resource is reported exactly when it passes it, `PngCarveOut` that page links count only for `.png` resources, and `RawPrefixCovers` that the directory test is a raw prefix test |
| OrphanDetection.ExitCode | website/src/scripts/find-orphan-pages.ts:232-239 | The status is 0 exactly when the orphan list is empty, and 1 otherwise. `ExitCodeMeaning` lifts this to: 0 exactly when no resource is an orphan |
| OrphanDetection.OrphansMembership | website/src/scripts/find-orphan-pages.ts:219-229 | A path is listed exactly when it is a resource and fails all four coverage tests |
| OrphanDetection.OrphansAppend | website/src/scripts/find-orphan-pages.ts:219-229 | The filter keeps resource order: the orphans of two runs are the orphans of each, in turn |
| OrphanDetection.OrphansIdempotent | website/src/scripts/find-orphan-pages.ts:219-229 | Filtering the orphans again changes nothing |
| OrphanDetection.ExitCodeMeaning | website/src/scripts/find-orphan-pages.ts:232-239 | The status is 0 exactly when no resource is an orphan, and 1 exactly when some resource is one |
| OrphanDetection.PngCarveOut | website/src/scripts/find-orphan-pages.ts:226 | A linked `.png` is covered, and page links play no part for any other resource |
| OrphanDetection.RawPrefixCovers | website/src/scripts/find-orphan-pages.ts:221-223 | The autogenerated directory `/guides` covers `/guidesX` as well as `/guides/x` |
| OrphanDetection.ThreeResourcesExample | website/src/scripts/find-orphan-pages.ts:218-239 | Resources `/a /b /c`, with `/a` in the sidebar and `/b` imported, leave `/c` as the orphan and give status 1 |
| OrphanPages.ResolvedLink | website/src/scripts/find-orphan-pages.ts:129-163 | What one raw link contributes is empty or a single path starting with `/` |
| OrphanPages.GatherIncludes | website/src/scripts/find-orphan-pages.ts:198-208 | What any visited file contributes is part of what the whole walk collects |
| OrphanPages.Collector.constructor | website/src/scripts/find-orphan-pages.ts:10-14 | The five arrays start empty |
| OrphanPages.Collector.GetResourcePathsAndLinks | website/src/scripts/find-orphan-pages.ts:194-209 | Visiting the files in walk order appends their resource names, and pushes their resolved links and imports unless present; the sidebar lists are left alone and the invariant is kept |
| OrphanPages.Collector.VisitFile | website/src/scripts/find-orphan-pages.ts:202-206 | One file adds its resource name, then its resolved links and imports, unless present |
| OrphanPages.Collector.AddResource | website/src/scripts/find-orphan-pages.ts:203-205 | Appends the file's name below the root without its extension, and changes nothing else |
| OrphanPages.Collector.ExtractLinksFromMdFile | website/src/scripts/find-orphan-pages.ts:124-191 | Pushes the resolved kept links, then the resolved import paths, each unless present, resolving against the page's path below the root |
| OrphanPages.Collector.AddLinkedResources | website/src/scripts/find-orphan-pages.ts:129-169 | The link loop pushes the resolved path of every kept link, in order, unless present |
| OrphanPages.Collector.ProcessLink | website/src/scripts/find-orphan-pages.ts:129-168 | One link callback pushes the link's resolved path unless the link is discarded or the path is present |
| OrphanPages.Collector.AddImportedResources | website/src/scripts/find-orphan-pages.ts:176-190 | The import loop pushes the resolved path of every captured import, in order, unless present |
| OrphanPages.Collector.ProcessImport | website/src/scripts/find-orphan-pages.ts:178-189 | One import pushes its resolved path unless present |
| OrphanPages.Collector.GetResourcesFromSidebarItem | website/src/scripts/find-orphan-pages.ts:17-58 | One item appends exactly its `doc` and `autogenerated` entries, depth first |
| OrphanPages.Collector.GetResourcesFromSidebarObj | website/src/scripts/find-orphan-pages.ts:61-65 | A list of items appends its items' entries in order |
| OrphanPages.Collector.ExtractResourcesLinkedInSidebar | website/src/scripts/find-orphan-pages.ts:68-82 | Every item-list sidebar appends its entries, in order, and every other sidebar value is skipped |
| OrphanPages.Collector.DetectOrphans | website/src/scripts/find-orphan-pages.ts:218-239 | Returns the orphans among the resources, in order, under the current lists, and the matching status |
| OrphanPages.FindOrphanPages | website/src/scripts/find-orphan-pages.ts:212-239 | The whole run returns the orphans among the files' resource names under the final lists, and the matching status |
| OrphanPages.FindOrphanPagesMeaning | website/src/scripts/find-orphan-pages.ts:218-239 | The run reports a path exactly when it is a resource that fails all four tests, and exits with 1 exactly when such a resource exists |
| OrphanPages.ImportedPageIsNotOrphan | website/src/scripts/find-orphan-pages.ts:176-189 | A page that any page imports is never reported |
| OrphanPages.SidebarDocIsNotOrphan | website/src/scripts/find-orphan-pages.ts:34-37 | A page that a sidebar names with a `doc` item, however deeply nested in categories, is never reported |
| OrphanPages.LinkedPngIsNotOrphan | website/src/scripts/find-orphan-pages.ts:226 | A `.png` that any page links to is never reported |
| OrphanPages.AutogeneratedDirCovers | website/src/scripts/find-orphan-pages.ts:39-44 | A named `autogenerated` item of an item-list sidebar, however deeply nested in categories, covers every resource starting with `/` + its dirName: none is reported |

## Left out

- The directory walk's file-system calls (`readdirSync`, `lstatSync`) and `path.join`: the files come as a list of `DocFile`s in walk order, with their paths already joined. Directory order and path normalisation are therefore not modelled.
- Reading a file (`readFileSync`) and the `markdown-link-extractor` package: each file's raw links are given as input.
- The import regular expression: each file's captured import paths are given as input, so what the pattern matches or misses is not modelled.
- The `sidebars` module: it is given as a list of sidebar values, one per key. An empty sidebars object is the empty list.
- A `doc` item without an `id`: the script would push `/undefined`, but the model requires an id.
- `console.warn`, `console.error` and `console.log`: warnings and the printed orphan list are not modelled. The printed list is the returned sequence.
- `process.exit`: the exit status is returned as a value.
- Strings are sequences of characters. JavaScript's UTF-16 code units and surrogate pairs are not distinguished.
- TypeScript types and the casts to `SidebarItemConfig[]` are not modelled. A sidebar value that is neither an item list nor the categories shorthand is treated as missing.

