# tore.moe theme core, in Dafny

A model of the helper core of the tore.moe Astro blog theme, with its properties proved. The core builds list URLs and their pagination, resolves the localized theme configuration, and flattens and searches the menu. It also sorts, tags and filters posts and portfolios. It derives page descriptions and SEO metadata, reads and writes cookies, and holds the inline script that picks the light or dark theme before the first paint.

Layout: one module per source file.
- `js.dfy` holds the JavaScript built-ins the code relies on: `split`, `join`, `trim`, `indexOf`, `replace` of the first match, `slice`, `toLowerCase` and number-to-text. It also holds `Option` and `Result`.
- `collections.dfy` holds `Set` insertion order, `filter`, `flatMap` and a stable sort.
- `paths.dfy` holds the page-param logic of `generatePaginationPaths`.
- The other files follow the source, one each:
  - `normalize`, `link`, `tag`, `filter` and `print`;
  - `theme` (`src/config/theme.ts`);
  - `menu`, `posts`, `portfolios`, `description` and `seo`;
  - `i18n`, `cookie` and `pagination`;
  - `setup_theme` (`public/scripts/setup-theme.js`).

Where the code changes state step by step, the model does too:
- `buildPager`, the flattening loop and the tag and category collectors are methods with loops. Each is proved equal to a function that defines its result, and the properties are lemmas about that function.
- The theme configuration cell is a class whose `DefineConfig` replaces its contents.
- `document.cookie` is a `Document` object. Its `cookie` field holds what reading it returns. Its `written` field logs every string assigned to it.
- `<html>`'s class list is a `Root` object.

Calls the model cannot see are parameters:
- `encodeURIComponent` and `decodeURIComponent`;
- `toUTCString` and `toISOString`;
- `Date.now()`;
- how the browser merges an assigned cookie into `document.cookie`;
- `matchMedia`;
- Astro's `paginate`;
- URL resolution against the site URL;
- the loaded content collections;
- the Markdown-cleaning regular expressions of `extractDescription`.

The cookie attributes follow the Set-Cookie syntax of section 4.1.1 of RFC 6265. The pairs read back follow the Cookie header shape of section 4.2.1 of RFC 6265.

For CJK text, `extractCJKDescription` keeps whole sentences while they fit and stops once the text reaches `min(50, 0.6 * maxLength)` characters. On `这是第一句。这是第二句，比较长一些。` with `maxLength` 20, the two sentences come to 18 characters with their `。`, within the cap. The stop length is `min(50, 12)`, first reached after the second sentence, so both sentences are kept (`Description.CJKExampleKeepsBoth`).

## Model

| member | source | states |
|---|---|---|
| Print.Truthy | src/lib/print.ts:7 | `filter(Boolean)` keeps exactly the present, non-empty arguments, in order, and never more than were given |
| Print.PrintNothing | src/lib/print.ts:6-8 | with no truthy argument the result is `''` |
| Print.PrintConcat | src/lib/print.ts:6-8 | printing two argument lists joins their prints with one separator, and a side that prints nothing adds no separator |
| Print.PrintSingle | src/lib/print.ts:6-8 | a single truthy argument among falsy ones prints as itself, with no separator |
| Print.PrintSplit | src/lib/print.ts:6-8 | splitting the print on its separator gives back the truthy arguments, when none of them contains the separator |
| Normalize.NormalizeEmpty | src/lib/normalize.ts:2 | an undefined or empty argument is `/` |
| Normalize.NormalizeShape | src/lib/normalize.ts:1-18 | the result starts with `/`, holds no `//`, and ends in `/` only when it is `/` itself |
| Normalize.NormalizeKeepsOtherChars | src/lib/normalize.ts:5-15 | apart from slashes the result is the trimmed input, character for character |
| Normalize.DropTrailingSlashUnslashed | src/lib/normalize.ts:15 | the last step removes at most one slash and nothing else |
| Normalize.NormalizeNoWhitespace | src/lib/normalize.ts:1-18 | input without whitespace normalizes to a string without whitespace |
| Normalize.NormalizeFixedPoint | src/lib/normalize.ts:1-18 | a path that is already normal comes back unchanged |
| Normalize.SegmentPath | src/lib/normalize.ts:1-18 | `/` plus one plain segment is a normal path |
| Normalize.AppendSegment | src/lib/normalize.ts:1-18 | a normal path other than `/`, plus `/` and one segment, is normal |
| Normalize.NormalizeIdempotent | src/lib/normalize.ts:1-18 | on input without whitespace, normalizing twice equals normalizing once |
| Normalize.NormalizeNotIdempotentWithWhitespace | src/lib/normalize.ts:5-15 | with whitespace it does not hold: `a /` gives `/a `, which then gives `/a` |
| Normalize.CollapseRunsProps | src/lib/normalize.ts:12 | the global replacement leaves no `//`, keeps the non-slash characters, and keeps a leading slash |
| Normalize.CollapseFirstRunProps | src/lib/normalize.ts:11 | the first replacement keeps a leading slash and every non-slash character |
| Link.PaginateLinkShape | src/lib/link.ts:7-13 | every link is a normalized path |
| Link.PaginateLinkFirstPage | src/lib/link.ts:10 | a missing page, or a page of 1 or less, gives the normalized bare link |
| Link.PaginateLinkPage | src/lib/link.ts:10-12 | for page `n > 1` the link is the path followed by the `page` param that the paths generator gives page `n` |
| Link.PaginateLinkNormalFirstPage | src/lib/link.ts:7-13 | a normal path passes through unchanged on the first page |
| Link.CategoryLinkShape | src/lib/link.ts:15-22 | `/categories/{c}`, with `/{prefix}/{n}` after it from page 2 on |
| Link.TagLinkShape | src/lib/link.ts:24-30 | `/tags/{t}`, with `/{prefix}/{n}` after it from page 2 on |
| Link.PortfoliosLinkFirstPage | src/lib/link.ts:32-39 | the portfolio list link without a page is `/portfolios` |
| Link.PortfolioTagLinkShape | src/lib/link.ts:41-48 | `/portfolios/tags/{t}`, with the page suffix after the tag |
| Link.FilterSegmentCases | src/lib/link.ts:54 | the segment is the stored column, else the text `undefined`, which differs from `getFilterColumn`'s default |
| Link.FilterLinkUnsetColumn | src/lib/link.ts:50-57 | with no filter configured, the first-page filter link is `{base}/undefined/{filter}` |
| Link.FilterLinkWithColumnShape | src/lib/link.ts:50-57 | with the column of `getFilterColumn`, the link is `{base}/{column}/{filter}` plus the page suffix |
| Link.FilterLinkWithColumnDefault | src/lib/link.ts:50-57 | without a filter entry, that corrected link uses `filters` where the source writes `undefined` |
| Link.FilterLinksAgreeWhenConfigured | src/lib/link.ts:50-57 | with a non-empty column configured, both builders agree |
| Link.CategoryFilterLinkShape | src/lib/link.ts:59-70 | `/categories/{c}/{column}/{filter}` in that order, with the page suffix last |
| Link.CategoryLinkExample | src/lib/link.ts:15-22 | with default settings, page 3 of `coding` is `/categories/coding/page/3` |
| Tag.RouteCases | src/lib/tag.ts:5 | the route is the tag, the page, or `tag/page`, depending on which of them is truthy |
| Tag.RealTagIsRoutePrefix | src/lib/tag.ts:3-9 | the result is the route up to the first `/{prefix}/`, or the whole route; it never contains the separator |
| Tag.RealTagWithoutPage | src/lib/tag.ts:3-9 | without a page, the tag up to its first `/{prefix}/` |
| Tag.RealTagEmptyTag | src/lib/tag.ts:3-9 | with an empty tag, the page string up to its first separator |
| Tag.RealTagOfPageParam | src/lib/tag.ts:3-9 | round trip: for every page `n`, the tag comes back whole when the separator does not occur in `tag/prefix` |
| Tag.RealTagStraddle | src/lib/tag.ts:3-9 | a tag ending in `/page` loses that end: tag `x/page` with page `page/2` gives `x` |
| Filter.GetFilterColumn | src/lib/filter.ts:13-15 | the column is never empty |
| Filter.GetFilterColumnCases | src/lib/filter.ts:6-15 | the configured non-empty column, else `filters`, also for an empty string |
| Theme.IsLocalizedConfigCases | src/config/theme.ts:51-58 | false for a missing config, a record or array, and an empty object; otherwise true exactly when some key holds `-` |
| Theme.GetLocalizedValueUnlocalized | src/config/theme.ts:235-254 | a non-localized config comes back unchanged |
| Theme.GetLocalizedValueExact | src/config/theme.ts:242 | an exact key with a truthy value wins |
| Theme.GetLocalizedValueLanguage | src/config/theme.ts:245-247 | otherwise the first key that starts with the language part wins; this is a prefix test, not a subtag comparison |
| Theme.GetLocalizedValueFirst | src/config/theme.ts:250-251 | otherwise the first key's value |
| Theme.GetLocalizedValueIsSomeValue | src/config/theme.ts:237-252 | a localized config always resolves to the value of one of its keys |
| Theme.ResolveThemeConfig | src/config/theme.ts:260-278 | meta, datetime and pagination pass through unchanged |
| Theme.ThemeStore.DefineConfig | src/config/theme.ts:283-288 | afterwards the cell holds exactly the argument, which is also returned |
| Theme.ThemeStore.GetThemeConfig | src/config/theme.ts:260-278 | resolves the cell for the given locale, and for `zh-CN` when none is given |
| Theme.DefineThenResolve | src/config/theme.ts:260-288 | after `defineConfig(c)`, `getThemeConfig` sees `c` alone, resolved for `zh-CN` when no locale is given |
| Theme.ExampleMenuExact | src/config/theme.ts:242 | `en-US` resolves the example menu by its exact key |
| Theme.ExampleMenuLanguage | src/config/theme.ts:245-247 | `en-GB` takes the `en-US` menu |
| Theme.ExampleMenuFirst | src/config/theme.ts:250-251 | `ja-JP` falls back to the first key, `zh-CN` |
| Theme.ExampleMenuPrefixNotSubtag | src/config/theme.ts:245-246 | `z-Q` picks `zh-CN`, because `zh-CN` starts with `z` |
| Menu.FlattenMenuItems | src/lib/menu.ts:6-19 | the loop's output is the pre-order flattening: each present item, then its children, with nulls skipped at every depth |
| Menu.FlattenOne | src/lib/menu.ts:9-15 | a null entry contributes nothing; an item is followed by its flattened children |
| Menu.FlattenConcat | src/lib/menu.ts:6-19 | flattening distributes over concatenation, so it keeps order |
| Menu.FlattenLength | src/lib/menu.ts:6-19 | one output entry per non-null node of the tree |
| Menu.FlattenChildless | src/lib/menu.ts:6-19 | a list without children flattens to its present items, in order |
| Menu.GetFlattenedMenu | src/lib/menu.ts:24-28 | the menu resolved for the locale, `zh-CN` when none is given: `[]` when no menu is resolved; a `TypeError` exactly when the menu resolves to a plain keyed object |
| Menu.FindIndex | src/lib/menu.ts:35-43 | `find`: the first matching position, with no match before it, or none at all |
| Menu.FindMenuItemById | src/lib/menu.ts:33-36 | throws exactly when the menu does; otherwise the first flattened item whose id equals the query ignoring case |
| Menu.FindMenuItemByHref | src/lib/menu.ts:41-44 | throws exactly when the menu does; otherwise the first flattened item whose href is exactly the query |
| Menu.IdMatchIgnoresCase | src/lib/menu.ts:35 | `Coding` finds the item with id `coding` |
| I18n.GetSupportedLocales | src/lib/i18n.ts:30-32 | exactly the configured locales other than `cimode`, or `[]` when none are configured |
| I18n.SupportedLocalesUnchanged | src/lib/i18n.ts:30-32 | locales without `cimode` come back as they are |
| I18n.GetOGLocale | src/lib/i18n.ts:37-40 | the same length; only the first `-` becomes `_` |
| I18n.OGLocaleOfRegion | src/lib/i18n.ts:37-40 | `lang-region` gives `lang_region`, whatever the region holds |
| I18n.OGLocaleAlternatesSpec | src/lib/i18n.ts:45-49 | exactly the Open Graph forms of the supported locales other than the current one |
| I18n.OGLocaleAlternatesConcat | src/lib/i18n.ts:45-49 | the alternates distribute over concatenation, so order is kept |
| I18n.GenerateLanguageAlternates | src/lib/i18n.ts:4-25 | one entry per locale, in order, then exactly one `x-default` entry whose href is the canonical URL |
| I18n.AlternateReplacesLocaleSegment | src/lib/i18n.ts:14-15 | when the URL holds `/{current}/`, its first occurrence is replaced by `/{locale}/`; the current locale's entry is the URL itself |
| I18n.AlternateAppendsLocaleSegment | src/lib/i18n.ts:14-16 | otherwise one trailing `/` is dropped and `/{locale}/` is appended |
| I18n.LanguageAlternatesSpec | src/lib/i18n.ts:9-22 | the locale entries come first and in order; `x-default` is last and unique when no locale bears that name |
| Collections.DedupMembers | src/lib/posts.ts:115-123 | `Array.from(set)` holds exactly the values added |
| Collections.DedupNoDuplicates | src/lib/posts.ts:115-123 | each value is listed once |
| Collections.DedupFirstOccurrenceOrder | src/lib/posts.ts:115-123 | values are listed in the order of their first `add` |
| Collections.DedupIdempotent | src/lib/posts.ts:115-123 | going through a `Set` twice equals going through it once |
| Collections.CollectSet | src/lib/posts.ts:117-121 | the nested loop of `add` calls produces the deduplicated stream of the values it is given |
| Collections.CollectSetSpec | src/lib/posts.ts:113-124 | the collected values are distinct, are exactly those produced, and keep first-production order |
| Collections.SortBySpec | src/lib/posts.ts:31-35 | the sort yields an ordered permutation of its input |
| Collections.InsertTies | src/lib/posts.ts:31-35 | inserting an element puts it before every element with its key and leaves the order of other keys alone |
| Collections.SortByStable | src/lib/posts.ts:31-35 | the sort is stable, as the built-in `sort` is: for every key, the elements with that key keep their input order |
| Posts.GetPaginationConfig | src/lib/posts.ts:14-20 | each field as configured, else 10, `-date` or `page` when the field or the whole entry is missing |
| Posts.GetPaginationConfigKeepsFalsy | src/lib/posts.ts:16-18 | `??` keeps a page size of 0 and empty strings |
| Posts.OrderField | src/lib/posts.ts:28-29 | the order field is `orderBy` without its leading `-` |
| Posts.CompareMatchesSortKey | src/lib/posts.ts:31-35 | the comparator orders by the timestamp, negated for descending; it ties exactly on equal keys |
| Posts.SortedPostsOrder | src/lib/posts.ts:25-36 | the sorted posts are a permutation, ordered by timestamp, descending exactly when `orderBy` starts with `-` |
| Posts.SortedPostsStable | src/lib/posts.ts:31-35 | posts the comparator ties, with equal order timestamps, keep their collection order |
| Posts.AddLinksToItems | src/lib/posts.ts:41-46 | the same posts in order, each linked at `/posts/{slug}`, taking `data.slug` first |
| Posts.PostLinkIsNormal | src/lib/posts.ts:44 | a plain slug gives a link that `normalize` leaves unchanged |
| Posts.GetAllTags | src/lib/posts.ts:113-124 | the loop yields the deduplicated tags of the sorted posts |
| Posts.AllTagsSpec | src/lib/posts.ts:113-124 | the tags are distinct, are exactly the tags of the collection, and keep first-occurrence order |
| Posts.FilterPostsByTag | src/lib/posts.ts:129-134 | exactly the posts whose tags include the tag; posts without tags never match |
| Posts.FilterPostsByTagConcat | src/lib/posts.ts:133 | the filter keeps relative order |
| Posts.FilterPostsByCategory | src/lib/posts.ts:182-190 | exactly the posts with a category equal to the query ignoring case |
| Posts.FilterPostsByCategoryIgnoresCase | src/lib/posts.ts:186 | querying a category or its lowercase selects the same posts |
| Posts.CategoryCodingExample | src/lib/posts.ts:182-190 | a post in `coding` is found under `Coding` |
| Posts.CategoryIdsMembers | src/lib/posts.ts:169-173 | the ids contributed are exactly the lowercased non-empty ids of the kept items |
| Posts.CategoryStreamThrows | src/lib/posts.ts:167-174 | once a menu throws, later locales do not change the outcome |
| Posts.GetAllCategories | src/lib/posts.ts:162-177 | the loop over `zh-CN` and `en-US` computes the categories, or the error the first throwing menu raises |
| Posts.AllCategoriesDistinct | src/lib/posts.ts:162-177 | with no throwing menu, each category is listed once |
| Posts.AllCategoriesSpec | src/lib/posts.ts:162-177 | with no throwing menu, exactly the lowercased ids of the two locales' flattened menus |
| Posts.PaginationPathsPageParam | src/lib/posts.ts:65-90 | every generated page has a `page` param: none for page 1, `{prefix}/{n}` otherwise |
| Paths.MergeParams | src/lib/posts.ts:75 | `{ ...base, ...locale }`: every key of either, with the locale's value winning |
| Paths.PageParam | src/lib/posts.ts:85 | none exactly for page 1; otherwise `{prefix}/` followed by the page number's digits |
| Paths.WithPage | src/lib/posts.ts:81-87 | the same result with only the `page` param set |
| Paths.GeneratePathsOrigin | src/lib/posts.ts:71-89 | every page comes from a `paginate` run for one target path, over the merged params |
| Paths.GeneratePathsDefault | src/lib/posts.ts:71 | without locale paths there is one run, over the base params alone |
| Paths.GeneratePathsNoLocales | src/lib/posts.ts:71 | an empty locale-paths array yields no pages, since an empty array is truthy |
| Portfolios.GetPaginationConfig | src/lib/portfolios.ts:13-19 | each field as configured, else 9, `-date` or `page` |
| Portfolios.CompareMatchesSortKey | src/lib/portfolios.ts:30-42 | the comparator orders by pin status first, then by timestamp, and ties exactly on equal keys |
| Portfolios.SortedPortfoliosPinnedFirst | src/lib/portfolios.ts:24-43 | a permutation in which every pinned entry precedes every unpinned one |
| Portfolios.SortedPortfoliosByDate | src/lib/portfolios.ts:39-41 | within one pin status, timestamps are ordered, descending exactly when `orderBy` starts with `-` |
| Portfolios.SortedPortfoliosStable | src/lib/portfolios.ts:30-42 | entries the comparator ties, with the same pin status and equal timestamps, keep their collection order |
| Portfolios.AddLinksToItems | src/lib/portfolios.ts:48-53 | the same entries in order, each linked at `/portfolios/{slug}` |
| Portfolios.PortfolioLinkIsNormal | src/lib/portfolios.ts:51 | a plain slug gives a link that `normalize` leaves unchanged |
| Portfolios.GetAllTags | src/lib/portfolios.ts:120-131 | the loop yields the deduplicated tags of the sorted entries |
| Portfolios.AllTagsSpec | src/lib/portfolios.ts:120-131 | the tags are distinct and exactly those of the collection |
| Portfolios.FilterPortfoliosByTag | src/lib/portfolios.ts:136-141 | exactly the entries whose tags include the tag |
| Portfolios.FilterPortfoliosByTagConcat | src/lib/portfolios.ts:140 | the filter keeps relative order |
| Portfolios.PaginationPathsPageParam | src/lib/portfolios.ts:72-97 | no `page` param on page 1; `{prefix}/{n}` otherwise |
| Pagination.SafeCurrent | src/lib/pagination.ts:26 | the current page clamped into `[1, max(1, totalPages)]` |
| Pagination.NeighboursMembers | src/lib/pagination.ts:36-38 | the neighbour loop pushes exactly the window's pages strictly between 1 and the last page |
| Pagination.SortedDistinctSpec | src/lib/pagination.ts:41 | the result ascends strictly and holds exactly the input values |
| Pagination.CandidatesShown | src/lib/pagination.ts:32-38 | the pushed pages are exactly the first, the last and the in-range neighbours |
| Pagination.CollectPages | src/lib/pagination.ts:27-38 | the pushes, in push order |
| Pagination.BuildPager | src/lib/pagination.ts:20-74 | the method returns the control described by `PagerOf` |
| Pagination.PagerOfWellFormed | src/lib/pagination.ts:20-74 | `[]` for no pages; otherwise the rules listed below this table |
| Pagination.ExactlyOneActive | src/lib/pagination.ts:62 | with a non-negative neighbour count, exactly one page entry is active: the clamped current page |
| Pagination.PageCountBound | src/lib/pagination.ts:32-41 | at most `2n+3` page entries |
| Pagination.BodyEllipses | src/lib/pagination.ts:53-64 | an ellipsis stands exactly between two shown pages that are not consecutive |
| Description.CountPartition | src/lib/description.ts:71-80 | the CJK count is the sum of the Han, kana and Hangul counts |
| Description.DetectLanguage | src/lib/description.ts:69-88 | always one of `en`, `zh`, `ja` and `ko` |
| Description.DetectedIsCJK | src/lib/description.ts:50-76 | the detected code takes the CJK rules exactly when CJK characters exceed 30% |
| Description.DetectedScriptShare | src/lib/description.ts:76-84 | `ja` or `ko` only when that script alone exceeds a tenth of the text |
| Description.IsCJKExamples | src/lib/description.ts:93-95 | `zh-HK` is not in the list |
| Description.CJKSentences | src/lib/description.ts:102-103 | the pieces of the split hold no CJK terminator |
| Description.SplitWhereFirst | src/lib/description.ts:103 | splitting at the first terminator gives the text before it, then the split of the rest |
| Description.SplitWhereTwo | src/lib/description.ts:103 | two terminated pieces split into those pieces and the empty piece after the last terminator |
| Description.CJKExampleSplit | src/lib/description.ts:102-103 | `这是第一句。这是第二句，比较长一些。` splits into its two sentences and a trailing empty piece |
| Description.CJKExampleKeepsBoth | src/lib/description.ts:100-140 | with `maxLength` 20 that text is described by itself: both sentences are kept, since 18 characters fit and the stop length 12 is first reached after the second |
| Description.LatinSplitNoBreak | src/lib/description.ts:147 | text with no terminator followed by whitespace is a single sentence |
| Description.ExtractCJKDescription | src/lib/description.ts:100-140 | the loop, with its two exits and the fallback, computes the CJK description |
| Description.CJKSentencePath | src/lib/description.ts:107-129 | a non-empty loop result is the greedy run of kept sentences: it fits, each earlier run was below the stop length, and the next would not fit or was not needed |
| Description.CJKSentenceBound | src/lib/description.ts:112-123 | a sentence-path result fits in `maxLength` and ends in `。` |
| Description.CJKFallbackShape | src/lib/description.ts:132-137 | the fallback is the whole text when it fits, else the first `maxLength` characters plus `...` |
| Description.ExtractLatinDescription | src/lib/description.ts:145-188 | the loop, with its two exits and the fallback, computes the Latin description |
| Description.LatinSentencePath | src/lib/description.ts:151-172 | a non-empty loop result is the greedy run of punctuated sentences joined by spaces |
| Description.LatinSentenceBound | src/lib/description.ts:155-166 | a sentence-path result fits in `maxLength` and ends in `.`, `!` or `?` |
| Description.LatinFallbackShape | src/lib/description.ts:175-185 | a longer text is cut at `maxLength`, or at a last space past 80% of it, and gets `...` |
| Description.CJKSentenceLoop | src/lib/description.ts:107-129 | the `for` loop over the CJK sentences, with its `continue` and two `break`s, ends with the accumulated description of the sentence path |
| Description.LatinSentenceLoop | src/lib/description.ts:151-172 | the `for` loop over the Latin sentences, with its `continue` and two `break`s, ends with the accumulated description of the sentence path |
| Description.CJKDescriptionBound | src/lib/description.ts:100-140 | the CJK description is at most `maxLength` plus the three characters of `...`, and non-empty for non-empty text |
| Description.LatinDescriptionBound | src/lib/description.ts:145-188 | the Latin description is at most `maxLength` plus the three characters of `...`, and non-empty for non-empty text |
| Description.LatinFallbackBound | src/lib/description.ts:175-185 | the truncation fallback, cut at the last space or not, is at most `maxLength + 3` long and non-empty for non-empty text |
| Description.ExtractDescription | src/lib/description.ts:8-64 | the method computes `DescriptionOf`: `''` for empty content, else the CJK or Latin rules for the given or detected locale, applied to the cleaned text |
| Description.DescriptionOfEmpty | src/lib/description.ts:13-47 | empty content, or content that cleans to nothing, gives `''` |
| Description.DescriptionBound | src/lib/description.ts:100-188 | never longer than the cap plus `...`; empty only for empty text |
| Description.RegionalChineseIsLatin | src/lib/description.ts:50-61 | a supplied locale outside the list, such as `zh-HK`, takes the Latin rules |
| Seo.GetArticleAuthors | src/lib/seo.ts:54-59 | always one author: the profile name, else the site author, else `''` |
| Seo.GenerateTitle | src/lib/seo.ts:64-72 | the site title or `''` without a content title; the content title without a site title; else both around `separator or ' - '` |
| Seo.TitleIsPrint | src/lib/seo.ts:64-72 | the title equals the theme's `print` of the two titles with separator `separator or ' - '` |
| Seo.TitleEnds | src/lib/seo.ts:71 | with both titles set, the result starts with the content title and ends with the site title |
| Seo.GetOGImage | src/lib/seo.ts:29-42 | the content image, else the configured default, else `/images/og-default.jpg`, resolved against the site |
| Seo.TagMeta | src/lib/seo.ts:198-201 | one `article:tag` meta per tag, in order |
| Seo.BasicMetaSpec | src/lib/seo.ts:146-172 | ten basic metas; the author falls back to `''`; keywords are the content tags, else the site keywords, else empty, joined with `, `; both colours are `PUBLIC_THEME_COLOR`, else `#1f2937` |
| Seo.ArticleMetaSpec | src/lib/seo.ts:175-203 | the author meta comes first, with the profile name, else `Caster`; published, modified and section metas appear exactly when their value is set and, for dates, the ISO text is not empty; the tags come last |
| Seo.SEOPropsSpec | src/lib/seo.ts:77-208 | throws exactly without `i18n`; otherwise the rules listed below this table |
| Seo.SEOPropsNames | src/lib/seo.ts:80-138 | the page title is `generateTitle` of the site separator, content title and site title; the site name is the site title, else `荡れ`; the Twitter site is the site title; the canonical and Open Graph URLs are `canonicalUrl` |
| Cookie.BeforeSemicolon | src/lib/cookie.ts:26 | `split(';').shift()`: the text before the first `;`, or everything |
| Cookie.CookieValueUnique | src/lib/cookie.ts:19-31 | when `; name=` occurs once, the decoded text after it up to the next `;`, or null when that text is empty |
| Cookie.CookieValueAbsent | src/lib/cookie.ts:25-30 | an absent name gives null |
| Cookie.CookieValueDuplicate | src/lib/cookie.ts:25-30 | a name that occurs twice or more gives null |
| Cookie.HasCookieCases | src/lib/cookie.ts:97-99 | false for a missing, duplicated or empty-valued cookie; true for a single non-empty one |
| Cookie.SetCookie | src/lib/cookie.ts:39-75 | with a document, exactly one string is written, `CookieString`, and the store takes it in |
| Cookie.CookieStringIsJoin | src/lib/cookie.ts:54-72 | the written string is the pair and the attributes joined with `;` |
| Cookie.CookieStringFields | src/lib/cookie.ts:54-72 | split on `;`, the written string gives the pair and the attributes back, in order |
| Cookie.DefaultAttributes | src/lib/cookie.ts:46-52 | with no options: a 30-day expiry from now, path `/`, samesite `lax`, and nothing else |
| Cookie.AllAttributes | src/lib/cookie.ts:57-72 | every attribute present, in the fixed order expires, path, domain, secure, samesite |
| Cookie.FalsyAttributesOmitted | src/lib/cookie.ts:57-69 | an expiry of 0 days, or an empty path, leaves that attribute out; a `Date` at the epoch does not |
| Cookie.RemovalStringShape | src/lib/cookie.ts:82-90 | an empty value, an expiry at time 0, the caller's path (default `/`) and domain, and samesite `lax` |
| Cookie.RemoveCookie | src/lib/cookie.ts:82-90 | writes exactly the removal string |
| Cookie.Put | src/lib/cookie.ts:114 | `rec[k] = v`: a present key keeps its place and takes the new value; a new key goes last |
| Cookie.PutDistinct | src/lib/cookie.ts:114 | keys stay distinct |
| Cookie.CollectSpec | src/lib/cookie.ts:111-116 | distinct names, each mapped to the decoded value of the last piece that names it |
| Cookie.EntryCutsAtSecondEquals | src/lib/cookie.ts:112 | `name=value=rest` contributes `value` alone: what follows a second `=` is lost |
| Cookie.EntryOfPair | src/lib/cookie.ts:112-114 | a whitespace-free `name=value` contributes that pair |
| Cookie.EntryNeedsValue | src/lib/cookie.ts:113 | a piece without `=`, or with nothing after it, contributes nothing |
| Cookie.EntryNeedsName | src/lib/cookie.ts:113 | a piece with nothing before its first `=` contributes nothing |
| Cookie.GetAllCookies | src/lib/cookie.ts:105-120 | `{}` without a document; otherwise each piece's pair, put in turn |
| Cookie.ClearAllCookies | src/lib/cookie.ts:125-130 | one removal per name of `getAllCookies()`, in key order, with the names read before the first removal |
| Cookie.RemoveAll | src/lib/cookie.ts:127-129 | the `forEach` writes one removal string per name, in order, and `document.cookie` reads as the store applied to each in turn |
| SetupTheme.CookiePairs | public/scripts/setup-theme.js:8 | `[]` exactly for an empty cookie; joining the pairs with `; ` gives the cookie back |
| SetupTheme.ThemeClasses | public/scripts/setup-theme.js:6-43 | the rules listed below this table |
| SetupTheme.SetupTheme | public/scripts/setup-theme.js:5-45 | the script, with its loop and `break`, leaves exactly the class list `ThemeClasses` describes |
| SetupTheme.NoCookieFollowsSystem | public/scripts/setup-theme.js:8-38 | without cookies, `dark` is set exactly when the system prefers dark |
| SetupTheme.ScanSkipsPrefix | public/scripts/setup-theme.js:12-19 | pairs with other names are passed over |
| SetupTheme.ScanMissing | public/scripts/setup-theme.js:12-19 | the search finds nothing exactly when every name decodes and none is `theme` |
| SetupTheme.PairFields | public/scripts/setup-theme.js:13-16 | the value is everything after the first `=`, later `=` signs included |
| SetupTheme.FirstThemeCookieWins | public/scripts/setup-theme.js:12-19 | the first pair named `theme` decides, whatever follows it |
| SetupTheme.MalformedNameLeavesClasses | public/scripts/setup-theme.js:14-43 | a name that fails to decode before any theme cookie leaves the class list untouched |

Four rows of the table point to rules that take more than one line:
- `Pagination.PagerOfWellFormed`, for one page or more, states:
  - there is one prev entry: it links to the page before the clamped current page, with no link on page 1, and is disabled exactly on page 1;
  - there is one next entry, built the same way at the other end;
  - the shown pages are exactly the first, the last and the in-range neighbours of the current page, increasing;
  - each page entry links to its page.
- `Seo.SEOPropsSpec`, when it does not throw, states:
  - the description falls back from the content to the site to `''`;
  - the `article` type, the article block and the article metas appear exactly for articles, after the ten basic metas;
  - the block's authors are `getArticleAuthors` and its tags are the content tags;
  - the Open Graph locale is `getOGLocale(locale)`;
  - the locale alternates are `getOGLocaleAlternates(locale, supported)`;
  - the language alternates are `generateLanguageAlternates` over the supported locales;
  - the page title is `generateTitle` of the site separator, the content title and the site title;
  - the site name is the site title, else `荡れ`, and the Twitter site is the site title;
  - the canonical URL and the Open Graph URL are both `canonicalUrl`;
  - the Open Graph title, the Twitter title and the image alt are one value: the content title, else the page title.
- `Cookie.SetCookie` and `Cookie.ClearAllCookies` also state that `document.cookie` reads as the browser's store applied to each string written, in turn.
- `SetupTheme.ThemeClasses` states:
  - a decoding error leaves the classes as they were;
  - otherwise `dark` is present exactly when the theme cookie is `dark`, or when it is neither `dark` nor `light` and the system prefers dark;
  - every other class is unchanged.

## Findings

| source | as written | input that shows it | evidently intended | confidence | as-written member | corrected member |
|---|---|---|---|---|---|---|
| src/lib/link.ts:54 | the filter segment is `${getFilterConfig()?.column}`, which is the text `undefined` when no filter is configured | no `filter` entry: `getFilterLink({ base: '/posts', filter: 'x' })` gives `/posts/undefined/x` | the column from `getFilterColumn()`, which falls back to `filters` (src/lib/filter.ts:13-15) | medium, not executed | Link.FilterLinkUnsetColumn | Link.FilterLinkWithColumnShape |

## Left out

- Characters: a Dafny `char` stands for one UTF-16 code unit, so astral characters are not split into surrogate pairs. `trim`, `\s` and `toLowerCase` use the ASCII whitespace and letters only.
- Foreign calls are parameters:
  - `encodeURIComponent` and `decodeURIComponent`;
  - `Date.now()`, `toUTCString` and `toISOString`;
  - the browser's cookie store, `matchMedia` and Astro's `paginate`;
  - URL resolution, `import.meta.env` and the content collections.
  
  Their own behaviour is not modelled.
- Cookie.CookieValue: a `URIError` thrown by `decodeURIComponent` in `getCookie` and `getAllCookies` is not modelled; decoding is total there. The theme script does model it, as its `catch`.
- Cookie.GetAllCookies: the record keeps insertion order. JavaScript lists integer-like keys first, so `clearAllCookies` may remove such names in a different order than modelled.
- Cookie.SetCookie: `document.cookie` is a field, and the browser's merging of an assignment is the `store` parameter. Expiry, path and domain matching by the browser are not modelled.
- Description.DescriptionOf: the Markdown cleaning of `extractDescription` (src/lib/description.ts:16-44) is the `clean` parameter. Its regular expressions are not modelled.
- Theme.ResolveThemeConfig: the contract states only the fields that pass through. What the localized fields resolve to is stated by the `GetLocalizedValue` lemmas.
- Seo.ArticleMetaSpec: the published and modified metas also require a non-empty ISO string. A real `toISOString` never returns one empty, but the parameter could.
- Seo.GenerateSEOProps: the constant entries are not part of the result value: charset, image type and size, Twitter card and the favicon link. A truthy `i18n` without `options` would also throw; that is not modelled.
- Posts.GetSortedPosts and Portfolios.GetSortedPortfolios: dates are timestamps given with the entry. An unparsable date, whose `getTime()` is `NaN`, is not modelled.
- The `getMainPageStaticPaths`, `getTagStaticPaths`, `getCategoryStaticPaths` and `getPortfoliosStaticPaths` wrappers only compose modelled functions with Astro's `paginate` and `buildStaticPaths`. They are not modelled separately.
- SetupTheme.SetupTheme: errors other than a `URIError` from decoding are not modelled, such as a missing `document.documentElement`. The `console.error` in the `catch` is left out.
- Cookie.ExpiresTime: a number of days is a whole number. A fractional count such as `0.5`, which `expires * 24 * 60 * 60 * 1000` accepts, is not expressible, and neither is `NaN`.
- Print.Truthy: the arguments are strings or missing. The other falsy values (`0`, `NaN`, `false`) and the text `join` makes of a truthy non-string are not modelled.
- Pagination.BuildPager: the page numbers are integers. Non-integer or `NaN` arguments are not modelled.
