# scribe, modelled in Dafny

scribe is a small static-site generator. Markdown posts with a YAML front
matter block and pug page templates are turned into HTML files. A JSON
configuration file names the source and output directories. This project
models the deterministic layer under scribe's reactive build pipeline, and
proves what that layer promises.

- **Configuration loading** (`src/core/config.ts`). Checks that the required
  keys are present and are strings, then runs the type checks and collects
  every message. Resolves each path against the configuration file's
  location. `styleIndex` and `layoutPath` are resolved in two hops, against
  the resolved `styles` and `layouts`. Checks that the directories and files
  exist, then merges with defaults.
- **The validation result** (`src/core/validation.ts`). The tagged
  success/failure record, and the `validate`, `validateAll`,
  `validateSequence`, `map` and `flatMap` combinators the loader composes.
- **Paths** (`src/core/path.ts`). `normalize` replaces the first `~` with
  the home directory. `parse` and `resolve` build on it. All three sit on
  Node's POSIX `path.normalize`, `path.join`, `dirname` and `basename`,
  which are written out segment by segment.
- **Posts** (`src/core/post.ts`).
  - `validatePost` checks title, subtitle, date and category in order and
    throws on the first failure.
  - `reducePostContext` stores a post under its title in one shared context
    object. It is modelled as a class with a `Reduce` method, plus a fold
    that specifies it.
- **Pages** (`src/core/page.ts`).
  - `toPage` derives a page's title and output path from its template's
    stem.
  - `reducePages` stores pages by title in one object. The class keeps the
    insertion order that `Object.values` reports.
- **Front matter** (`src/adapters/grayMatter.ts`). Slugs, excerpts and tags.
  The `||` defaulting of `fileToFrontmatter` is modelled, with gray-matter
  as a parameter.
- **The two pipeline drafts** (`src/scribe.ts`, `src/scribey.ts`).
  - `fileToPost` in both drafts.
  - `compilePages` in both drafts, as methods with loops. The later draft
    isolates each page's failure; the earlier one aborts the batch.
  - The `/.+\/_.+/` partial-template filter.
  - The page stream, folded sequentially.
  - The derived output locations.
- **Earlier configuration defaults** (`src/io/config.ts`). A constant tree
  of paths under `HOME`, deep-merged under the user's object with Ramda's
  `mergeDeepLeft`.

JavaScript values are the `Js.Value` datatype. Falsiness, `||`, `typeof`,
`R.type` and `String(v)` are written out. A call that may throw returns a
`Js.Completion`: a normal value or a thrown message. Filesystem queries, the
home directory, date validity, gray-matter, the markdown renderer and the
page compiler are all parameters.

Behaviours of the code worth noting:

- Tags: the whole `tags` text is trimmed once and then split on `,`; the
  pieces themselves are not trimmed.
- Partial templates: a template is a partial when its path matches
  `/.+\/_.+/`. The match needs a character before the `/` and one after the
  `_`, so `/_a` is not a partial.
- Configuration keys: the loader knows five required paths and two optional
  ones, `styleIndex` and `layoutPath`.
- Excerpt: gray-matter's own extracted excerpt takes precedence over the
  metadata `excerpt`, which takes precedence over the body's first line.
- Trimming: `R.trim` falls back to Ramda's own whitespace list on current
  engines, so it also strips U+180E, which `\s` does not match.

## Model

| member | source | states |
|---|---|---|
| Js.Or | src/adapters/grayMatter.ts:38 | `a \|\| b` is `a` when `a` is truthy, otherwise `b`; the result is falsy only when both are |
| Js.Get | src/core/config.ts:102 | a missing property reads as `undefined`, a present one as its value |
| Js.Falsy | src/adapters/grayMatter.ts:38 | among the modelled values, `!v` holds for `undefined`, `null`, `false`, `0` and `''` only |
| Js.TypeOf | src/core/config.ts:72 | `typeof` gives one of the five type names, and `"string"` exactly for strings |
| Js.RType | src/core/config.ts:102 | `R.type(v) === 'String'` holds exactly for strings |
| Js.ToStr | src/scribe.ts:34 | string conversion leaves a string unchanged |
| Validation.SuccessOf | src/core/validation.ts:3-5 | `Success.of(v)` is tagged success, not failure, and carries `v` |
| Validation.FailureOf | src/core/validation.ts:9-11 | `Failure.of(e)` is tagged failure, not success, and carries `e` |
| Validation.TagsExclusive | src/core/validation.ts:7-13 | every result is exactly one of success and failure |
| Validation.FoldOf | src/core/validation.ts:15-17 | `Result.fold` gives back the wrapped value whatever the tag |
| Validation.Catch | src/scribe.ts:29-45 | the try/catch boundary passes exactly the normal returns and fails with the thrown message |
| Validation.Pass | src/core/config.ts:98-99 | `pass(v)` is tagged success and carries `v` |
| Validation.Fail | src/core/config.ts:98-99 | `fail(message)` is tagged failure and carries the one message |
| Validation.Validate | src/core/config.ts:98-99 | `validate(pred)(msg)` passes a value unchanged exactly when the predicate holds, otherwise fails with the one message |
| Validation.FailedMessagesInclude | src/core/config.ts:111-118 | every message of a failing validator is among the collected messages |
| Validation.FailedMessagesFrom | src/core/config.ts:131-136 | every collected message comes from some failing validator |
| Validation.ValidateAll | src/core/config.ts:131-136 | `validateAll` passes the value exactly when every validator passes, and otherwise fails with all failing validators' messages in order |
| Validation.FailedMessagesAppend | src/core/config.ts:113-118 | concatenated validator groups report the first group's messages, then the second's |
| Validation.ValidateAllAppend | src/core/config.ts:131-136 | concatenated validator groups pass exactly when both groups pass |
| Validation.Map | src/core/config.ts:170 | `map` turns a success carrying `v` into a success carrying `f(v)`, and passes a failure's messages through |
| Validation.FlatMap | src/core/config.ts:171 | `flatMap` gives `f(v)` on a success carrying `v`, and passes a failure through unchanged |
| Validation.ValidateSequence | src/core/config.ts:111-119 | a failure of `validateSequence` is the failure some stage returned |
| Validation.ValidateSequenceAppend | src/core/config.ts:111-119 | running two groups of stages in sequence is `flatMap` of the second over the first |
| Validation.ValidateSequenceShortCircuit | src/core/config.ts:111-119 | a failing first stage is the result, whatever follows it |
| Strings.Split | src/adapters/grayMatter.ts:22-25 | `split` gives one piece more than there are separators, and no piece holds the separator |
| Strings.JoinSplit | src/adapters/grayMatter.ts:22-25 | joining the pieces of a split gives back the string |
| Strings.SplitJoin | src/adapters/grayMatter.ts:22-25 | splitting a join of separator-free pieces gives back the pieces |
| Strings.ReplaceFirst | src/core/path.ts:12 | a regex replace without `g` replaces the first occurrence only, and leaves a string without one unchanged |
| Strings.TrimStartDropsSpace | src/adapters/grayMatter.ts:9 | the trim removes only characters of Ramda's whitespace list at the start |
| Strings.TrimEndDropsSpace | src/adapters/grayMatter.ts:9 | the trim removes only characters of Ramda's whitespace list at the end |
| Strings.Trim | src/adapters/grayMatter.ts:9 | `R.trim` leaves none of Ramda's whitespace list (`\s` and U+180E) at either end, and leaves a string already trimmed as it is |
| Strings.TrimInside | src/adapters/grayMatter.ts:9 | what the trim keeps is one contiguous slice of its input |
| Strings.TrimDropsSpaceOnly | src/adapters/grayMatter.ts:9 | the trim keeps one slice of its input and removes only trim whitespace before and after it |
| Strings.AsciiLower | src/adapters/grayMatter.ts:11 | lower-casing maps `A`-`Z` into `a`-`z` and leaves every other character as it is |
| Strings.IndexOf | src/core/path.ts:12 | the first occurrence, or -1 when there is none |
| Strings.LastIndexOf | src/core/page.ts:6 | the last occurrence, or -1 when there is none |
| Strings.DotMatch | src/core/page.ts:6 | `/\..+/` matches at the first `.` followed by a character that is not a line terminator |
| Strings.StripDotSuffixSingleLine | src/core/page.ts:5-6 | on a one-line name, removing the `/\..+/` match keeps the text before its first `.` that is not last |
| Paths.PosixNormalize | src/core/path.ts:13 | `path.normalize` never returns the empty string and keeps a path absolute or relative |
| Paths.NormalizeSpelled | src/core/path.ts:13 | a path made of plain names is already normalized |
| Paths.JoinPaths | src/core/path.ts:42 | `path.join` never returns the empty string, and a join starting from an absolute path is absolute |
| Paths.JoinSpelled | src/core/path.ts:40 | joining plain relative names onto an absolute directory spells the concatenated path |
| Paths.Join3AsJoin2 | src/scribe.ts:141 | `join(a, b, c)` is `join(a, b + '/' + c)` |
| Paths.DirName | src/core/path.ts:26 | the parent of an absolute path is absolute |
| Paths.Basename | src/core/path.ts:26 | a base name holds no `/` |
| Paths.DirNameSpelled | src/core/path.ts:26 | the parent of `/n1/.../nk` is `/n1/.../nk-1`, and its base name is `nk` |
| Paths.Normalize | src/core/path.ts:11-14 | a path without `~` is only normalized |
| Paths.NormalizeFirstTilde | src/core/path.ts:11-14 | only the first `~`, wherever it stands, becomes the home directory |
| Paths.NormalizeKeepsAbsolute | src/core/path.ts:11-14 | the home replacement never makes an absolute path relative |
| Paths.Parse | src/core/path.ts:22-31 | `parse` records the normalized path, whether it is absolute, whether it is a directory, and its parent and base name |
| Paths.ParseSpelled | src/core/path.ts:22-31 | a path made of plain names without `~` parses to itself with the right absoluteness |
| Paths.Resolve | src/core/path.ts:37-40 | an absolute target is returned as is; a relative one is joined onto the base directory, or onto the base's parent when the base is not a directory |
| Paths.ResolveIntoDirectory | src/core/path.ts:37-40 | `resolve` from a directory `/d` to `r` gives `/d/r` |
| Paths.ResolveBesideFile | src/core/path.ts:37-40 | `resolve` from a file `/d/f` to `r` gives `/d/r` |
| Paths.ResolveFromAbsolute | src/core/path.ts:37-40 | resolving against an absolute base gives an absolute path |
| Paths.Stem | src/adapters/grayMatter.ts:14-15 | the stem holds no `/` and is no longer than the base name |
| Paths.StemSpelled | src/adapters/grayMatter.ts:14-15 | the stem of `/.../stem.ext` is `stem` |
| Ramda.MergeValue | src/io/config.ts:20-21 | a deep merge keeps the keys of both objects, merges shared object values again, and otherwise takes one side whole |
| Ramda.MergeDeepRight | src/core/config.ts:163-164 | `mergeDeepRight` keeps the keys of both objects |
| Ramda.MergeDeepLeft | src/io/config.ts:20-21 | `mergeDeepLeft` keeps the keys of both objects |
| Ramda.MergeFlip | src/io/config.ts:20-21 | `mergeDeepLeft(l, r)` is `mergeDeepRight(r, l)` |
| Ramda.MergeSelf | src/io/config.ts:20-21 | merging a value with itself gives it back |
| Ramda.MergeEmpty | src/io/config.ts:20-21 | merging with `{}` on either side changes nothing |
| Ramda.MergeDeepLeftNonObject | src/io/config.ts:20-21 | a key whose left value is not an object keeps that value |
| Ramda.MergeDeepLeftNested | src/io/config.ts:20-21 | two objects under one key are merged key by key, the left values staying |
| Ramda.MergeDeepLeftAt | src/io/config.ts:20-21 | per key, `mergeDeepLeft` keeps a one-sided value, the left of two non-objects, and merges two objects again |
| Config.RequiredMessageInjective | src/core/config.ts:68-69 | distinct keys have distinct "is required" messages |
| Config.Checks | src/core/config.ts:112 | `keys.map(check)` has one validator per key, in key order |
| Config.KeysValidTyped | src/core/config.ts:39-47 | a configuration passes the key checks exactly when the five required keys are strings and the two optional keys are falsy or strings |
| Config.MissingMessagesExact | src/core/config.ts:98-99 | a key's "is required" message is reported exactly when the key is required and absent |
| Config.PresenceMessages | src/core/config.ts:112 | the presence stage reports the missing keys' messages in key order |
| Config.MissingKeysReported | src/core/config.ts:111-112 | with a required key missing, the key stage fails with exactly the missing keys' messages, and the type stage never runs |
| Config.TypeStageDecides | src/core/config.ts:111-119 | with every required key present, the type stage alone decides |
| Config.ChecksPass | src/core/config.ts:112-117 | a mapped group of checks passes exactly when each key's check passes |
| Config.ChecksMessages | src/core/config.ts:112-117 | a mapped group reports each failing key's message, and only those |
| Config.ValidateConfigKeys | src/core/config.ts:111-119 | the presence stage, then the type stage; what it accepts is stated by `Config.KeysValidIff` |
| Config.KeysValidIff | src/core/config.ts:111-119 | `validateConfigKeys` passes exactly the configurations with every required key present and every key of the right type, and passes them unchanged |
| Config.ValidateConfigValues | src/core/config.ts:131-136 | a success passes the configuration through unchanged |
| Config.ValuesValidIff | src/core/config.ts:121-136 | `validateConfigValues` passes exactly when the required paths are directories and the set optional paths are files |
| Config.ValuesFailureNamesEach | src/core/config.ts:121-136 | a value failure names every path that is not a directory, or not a file, as required |
| Config.ValuesFailureOnlyFailing | src/core/config.ts:121-136 | every message of a value failure belongs to a failing path |
| Config.ResolveRequired | src/core/config.ts:149-153 | a required path resolves to a non-empty string |
| Config.ResolveOptional | src/core/config.ts:154-159 | a falsy optional path stays as it is, and a set one resolves to a string |
| Config.ConfigOf | src/core/config.ts:148-160 | the resolved object holds exactly the seven keys, each with its value |
| Config.ResolveConfigPaths | src/core/config.ts:146-161 | each required path is resolved against the configuration file, and `styleIndex`/`layoutPath` against the resolved `styles`/`layouts` |
| Config.ResolvedAbsolute | src/core/config.ts:146-161 | from an absolute configuration path, every resolved path that is set is absolute |
| Config.StyleIndexTwoHops | src/core/config.ts:154-156 | with the config at `/d/f`, `styles: s` and `styleIndex: i` resolve to `/d/s` and `/d/s/i` |
| Config.MergeWithDefaults | src/core/config.ts:163-164 | the merge keeps every key of the configuration, and fills an absent `styleIndex` or `layoutPath` with `''` |
| Config.LoadConfig | src/core/config.ts:166-173 | a load succeeds only when the keys validate |
| Config.LoadStopsAtKeys | src/core/config.ts:166-173 | a key failure is the loader's result |
| Config.LoadFailsAtValues | src/core/config.ts:166-173 | after the key stage, the loader fails exactly when the resolved paths fail the value checks |
| Config.LoadSuccess | src/core/config.ts:166-173 | a loaded configuration passed the key checks, is the resolved configuration with the optional defaults merged in, and each required path is an existing directory |
| Config.RequiredDirectories | src/core/config.ts:121-124 | configuration values that pass the checks name five directories |
| Config.StyleIndexLeftUndefined | src/core/config.ts:154-164 | as written, a loaded configuration without `styleIndex` holds `undefined` there, not `''` |
| Config.OptionalKeysDistinct | src/core/config.ts:29-37 | the optional keys differ from each other and from the required keys |
| Config.DropFalsyOptional | src/core/config.ts:154-159 | an unset optional key is dropped and every other key is kept |
| Config.LoadCorrectedAllStrings | src/core/config.ts:163-173 | with unset optional keys dropped, every key of a loaded configuration is a string, and `''` fills those unset keys |
| Posts.CategoryListSpelled | src/core/post.ts:29-30 | the category list reads `opinion, story, tutorial, concept, review` |
| Posts.JoinCommaFive | src/core/post.ts:30 | `R.join(', ')` puts a comma and a space between neighbouring parts |
| Posts.Problems | src/core/post.ts:17-34 | a post has no problem exactly when title and subtitle are truthy, the date is valid and the category is one of the five |
| Posts.ValidatePost | src/core/post.ts:11-37 | `validatePost` returns the post unchanged exactly when it has no problem, and otherwise throws the first problem followed by the source path |
| Posts.FailFast | src/core/post.ts:17-19 | a missing title is reported before anything else |
| Posts.MessageEndsWithSource | src/core/post.ts:15 | every thrown message ends with `for post: <sourcePath>.` |
| Posts.ErrorFor | src/core/post.ts:15 | a message is the problem text followed by `for post: <sourcePath>.` |
| Posts.AddPost | src/core/post.ts:40 | the post is stored under its title, and every other title keeps its post |
| Posts.FoldPosts | src/core/post.ts:39-43 | the stored posts after `scan` has applied `reducePostContext` to each post in order; stated by `Posts.FoldPostsKeys`, `FoldPostsLast` and `FoldPostsUntouched` |
| Posts.FoldPostsKeys | src/core/post.ts:39-43 | after a sequence of posts, the context holds exactly the earlier titles and the titles of the posts seen |
| Posts.FoldPostsLast | src/core/post.ts:39-43 | the last post with a given title wins |
| Posts.FoldPostsUntouched | src/core/post.ts:39-43 | a title no post carries keeps its post |
| Posts.PostContext.constructor | src/scribe.ts:122 | the context starts as `{posts: {}}` |
| Posts.PostContext.Reduce | src/core/post.ts:39-43 | `reducePostContext` updates the context in place and returns that same object |
| Posts.ScanPosts | src/scribe.ts:121-124 | scanning the posts with one fresh context leaves it holding the fold of the posts |
| Pages.ToPage | src/core/page.ts:8-15 | the title is the template's stem, and the page is written to `join(destinationDirectory, title + '.html')` under the template path given |
| Pages.ToPageTitle | src/core/page.ts:5-6 | on a one-line file name, the title is the name up to its first `.` that has text after it (and holds no `.`), or the whole name when there is none |
| Pages.ToPageSpelled | src/core/page.ts:5-15 | template `/t/stem.ext` gives title `stem` and output `<destination>/stem.html` |
| Pages.AddPage | src/core/page.ts:17-21 | the page is stored under its title; a replaced title keeps its place in the `Object.values` order and a new title goes last; the title order stays well formed and every page stays under its own title |
| Pages.FoldPages | src/core/page.ts:17-21 | the page table after `reducePages` has been applied to each page in order; stated by the `Pages.FoldPages*` lemmas |
| Pages.FoldPagesInvariant | src/core/page.ts:17-21 | folding pages keeps the title order well formed and every page under its own title |
| Pages.FoldPagesLast | src/core/page.ts:17-21 | the last page with a given title wins |
| Pages.FoldPagesUntouched | src/core/page.ts:17-21 | a title no page carries keeps its page, and earlier titles keep their places |
| Pages.FoldPagesDrawn | src/core/page.ts:17-21 | every stored page was stored before or is one of the folded pages |
| Pages.ValuesOf | src/scribe.ts:57 | `Object.values` lists one page per title, in title order |
| Pages.PageContext.constructor | src/scribe.ts:130 | the page context starts empty and well formed |
| Pages.PageContext.Reduce | src/core/page.ts:17-21 | `reducePages` updates the context in place as `AddPage` says and returns that same object |
| GrayMatter.KeepSpaceAndWord | src/adapters/grayMatter.ts:8 | only whitespace and word characters remain; one character is kept exactly when it is whitespace or a word character |
| GrayMatter.KeepSpaceAndWordAppend | src/adapters/grayMatter.ts:8 | the filter of a concatenation is the concatenation of the filtered parts, so every whitespace and word character of the title is kept, in order |
| GrayMatter.KeepSpaceAndWordKeeps | src/adapters/grayMatter.ts:8 | a title made only of whitespace and word characters is kept whole |
| GrayMatter.TitleToSlug | src/adapters/grayMatter.ts:7-12 | a slug is never longer than its title |
| GrayMatter.TitleToSlugShape | src/adapters/grayMatter.ts:7-12 | a slug has only `[a-z0-9_-]`, has a `-` exactly where the trimmed title has whitespace, every other character is the lower-cased title character at that place, and it neither starts nor ends with `-` |
| GrayMatter.TrimKeepsWords | src/adapters/grayMatter.ts:8-9 | trimming the filtered title leaves only whitespace and word characters |
| GrayMatter.DashLowerShape | src/adapters/grayMatter.ts:10-11 | dashing and lower-casing filtered text gives slug characters, with `-` exactly where it had whitespace and the lower-cased character everywhere else |
| GrayMatter.ContentToExcerpt | src/adapters/grayMatter.ts:17-20 | the excerpt holds no newline |
| GrayMatter.ExcerptIsFirstLine | src/adapters/grayMatter.ts:17-20 | the excerpt is the body up to its first newline, or the whole body when it has none |
| GrayMatter.SplitTags | src/adapters/grayMatter.ts:22-25 | there is one tag more than there are commas in the trimmed text |
| GrayMatter.TagsRoundTrip | src/adapters/grayMatter.ts:22-25 | joining the tags with `,` gives back the trimmed text |
| GrayMatter.FileToFrontmatter | src/adapters/grayMatter.ts:27-45 | `fileToFrontmatter` throws exactly when gray-matter throws or `tags` is truthy and not a string, and passes gray-matter's message on |
| GrayMatter.FrontmatterCopies | src/adapters/grayMatter.ts:35-44 | category, published, subtitle and title are copied; falsy tags give `[]`, and string tags join back to their trimmed text |
| GrayMatter.SlugFromFilepath | src/adapters/grayMatter.ts:40 | without a metadata slug, the slug of `/.../name.md` is `name` |
| GrayMatter.SlugFromMetadata | src/adapters/grayMatter.ts:40 | a truthy metadata slug is kept |
| GrayMatter.ExcerptFromBody | src/adapters/grayMatter.ts:37-38 | without an extracted or metadata excerpt, the excerpt is the body's first line |
| GrayMatter.ExcerptPrecedence | src/adapters/grayMatter.ts:37-38 | a truthy extracted excerpt wins; otherwise a truthy metadata excerpt is used |
| Scribe.FileToPost | src/scribe.ts:20-46 | `fileToPost` passes exactly when both adapters return, keeping the front matter, HTML and source path; otherwise it fails with the first thrown message, front matter first |
| Scribe.PostDestinationSpelled | src/scribe.ts:32-35 | a post with slug `s` is written to `<dir>/s.html` |
| Scribe.CompileIsolated | src/scribe.ts:52-67 | there is one result per page |
| Scribe.CompileIsolatedEach | src/scribe.ts:57-63 | a page's result fails exactly when its own compilation throws, carries that message, and otherwise passes the compiled file unchanged |
| Scribe.CompileIsolatedAppend | src/scribe.ts:57-63 | adding pages leaves the earlier pages' results as they were |
| Scribe.CompilePages | src/scribe.ts:52-67 | the loop pushes, for every page in `Object.values` order, the pass or fail of compiling that page alone |
| Scribe.IsPartial | src/scribe.ts:128 | some `/_` has a non-line-terminator before the `/` and after the `_`; tied to the regular expression by `Scribe.PartialPatternIff` |
| Scribe.PartialPatternIff | src/scribe.ts:128 | the position test matches exactly the paths that `/.+\/_.+/` matches |
| Scribe.NoUnderscoreNotPartial | src/scribe.ts:128 | a path with no `_` right after a `/` is not a partial |
| Scribe.PageEvents | src/scribe.ts:127-129 | every page that reaches the fold comes from a non-partial template through `toPage` |
| Scribe.PageEventsKeep | src/scribe.ts:127-129 | every non-partial template becomes a page |
| Scribe.ScanPages | src/scribe.ts:127-132 | filtering, `toPage` and `scan(reducePages, {})` over one fresh context give the fold of the page events |
| Scribe.ScannedPagesNotPartial | src/scribe.ts:127-132 | no partial template reaches the page context, and every page sits under its own title |
| Scribe.OutputPathsSpelled | src/scribe.ts:101 | under `/d`, posts go to `/d/posts` and the stylesheet to `/d/css/styles.css` |
| Scribey.FileToPost | src/scribey.ts:32-50 | the earlier `fileToPost` returns exactly when the renderer and front matter return and the slug is a string; otherwise it throws the first error, HTML first |
| Scribey.DestinationSpelled | src/scribey.ts:43-47 | as written, a post with slug `s` is written to `<dir>/s/.html` |
| Scribey.DestinationDiffers | src/scribey.ts:43-47 | the two drafts never agree on where a post goes |
| Scribey.CompilePages | src/scribey.ts:55-65 | the loop yields the compiled files in page order, or the first throw |
| Scribey.AbortingAgreesIsolated | src/scribey.ts:55-65 | the aborting batch succeeds exactly when every isolated result passes, then with the same files in order; otherwise it throws the first failing page's message |
| Scribey.FixedNamesSpelled | src/scribey.ts:89 | the style entry is `<styles>/index.scss` and the post layout `<layouts>/post.pug` |
| IoConfig.HomeOr | src/io/config.ts:5-6 | `HOME \|\| '~'` is `HOME` when set and not empty, and `~` otherwise |
| IoConfig.ToConfig | src/io/config.ts:20-21 | `toConfig` holds the keys of the defaults and of the user object |
| IoConfig.NoArgumentGivesDefaults | src/io/config.ts:20-21 | `toConfig()` gives the defaults |
| IoConfig.DefaultWins | src/io/config.ts:20-21 | a key on both sides that is not an object on both keeps the default |
| IoConfig.FixedTopLevel | src/io/config.ts:15-17 | `destination`, `exclude` and `include` always keep their defaults; arrays are not merged element by element |
| IoConfig.UserOnlyKept | src/io/config.ts:20-21 | a key only the user sets is kept |
| IoConfig.SourceMerged | src/io/config.ts:9-14 | a user `source` object is merged key by key: the default paths stay and user-only keys survive |
| IoConfig.RootUnderHome | src/io/config.ts:5 | under home `/h`, the site root is `/h/dev/timmstelzer` |
| IoConfig.PostsUnderHome | src/io/config.ts:6 | under home `/h`, posts are read from `/h/posts` |
| IoConfig.DestinationUnderHome | src/io/config.ts:15 | under home `/h`, the output goes to `/h/dev/timmstelzer/dist` |
| IoConfig.RootWithoutHome | src/io/config.ts:5 | without `HOME`, the site root is the relative `~/dev/timmstelzer` |
| IoConfig.RelativeJoin3 | src/io/config.ts:5 | `path.join` of three plain names spells the relative path they make |

## Left out

- File watching, reading and writing: chokidar, `fs` and the write-stream cache. The configuration loader's `readAndParse` step is left out too; the model starts from the parsed object.
- The reactive stream topology: `combineLatest`, `debounceTime`, `merge`, `flatMap` and timing. `scan` is modelled as a sequential fold over a finite sequence of events.
- The browserSync server, console logging and the entry point.
- The markdown, pug and scss adapters: they are parameters that return a value or throw.
- `new Date(published)` and date validity: an oracle over the `published` value.
- `existsSync`, `lstatSync`, `isFile` and `homedir`: fields of `Paths.Env`.
- Gray-matter's parsing of the YAML block: a parameter returning the metadata, the body and the extracted excerpt, or a throw.
- The fields of `path.parse` other than `root`, `dir` and `base`: `name` and `ext` are not used by the code.
- Numbers are integers. Floating point is not modelled, and neither is `String(n)` for non-integer numbers.
- `Object.values` lists integer-like keys first in ascending order; the model lists titles in insertion order only.
- A `$` pattern in the home directory would be expanded by `String.prototype.replace`; the model inserts the home directory literally.
- The exact texts of the `TypeError`s raised by `R.trim` on a non-string and by `path.join` on a non-string are approximations.
- Scribe.FileToPost: the post's HTML field is named `postContent` in the source, so the `content` key of `T.Post` is never set; the model stores the HTML as the post's content.
- Posts.AddPost / Pages.AddPage: a title `__proto__` is stored as a key; in the source, assigning to `__proto__` on a plain object replaces its prototype and adds no own key, so that post or page never reaches `Object.values`.
- Posts.ScanPosts: `scan` emits the same mutated context object on every event; the model returns the context after the last event only.
- Scribe.CompilePages: the context objects are taken as they are when the batch starts; their aliasing across stream events is not modelled.
- Compositions that do not type-check across drafts are modelled function by function, not composed:
  - `readAndParse` is not exported by `src/core/file.ts`;
  - `T.ParsedPath` is absent from `src/types.ts`;
  - `src/scribe.ts:112` passes the throwing `validatePost` to `flatMap`.
- The combinators `validate`, `validateAll`, `validateSequence`, `map`, `flatMap`, `pass` and `fail` are imported from validation modules whose text is not part of this model. They are modelled from how `src/core/config.ts` and `src/scribe.ts` use them.

## Findings

| source | as written | input that shows it | evidently intended | confidence | as-written member | corrected member |
|---|---|---|---|---|---|---|
| src/core/config.ts:154-164 | `styleIndex: c.styleIndex && …` always writes the key, so `mergeDeepRight({styleIndex: ''}, c)` keeps `undefined` when the user omits it | a valid configuration without `styleIndex` loads with `styleIndex: undefined`, not the string the `Config` type promises | an omitted optional path becomes `''` | not executed | Config.StyleIndexLeftUndefined | Config.LoadCorrectedAllStrings |
| src/scribey.ts:43-47 | `path.join(dir, slug, '.html')` makes `.html` its own path segment | slug `a` in directory `/d` gives `/d/a/.html` | `/d/a.html`, as the later draft writes it | not executed | Scribey.DestinationSpelled | Scribe.PostDestinationSpelled |
