# HTML-Builder in Dafny

A verified model of the static-page build pipeline of HTML-Builder. The
pipeline takes a project folder made of:

- an HTML template with `{{name}}` placeholders;
- a `components` folder of HTML fragments;
- a `styles` folder of CSS files;
- an `assets` folder.

Into `project-dist` it writes:

- `index.html`: the template with every placeholder replaced by its fragment;
- `style.css`: every stylesheet, concatenated in listing order;
- a copy of the assets folder.

The model covers three scripts:

- `06-build-page/index.js`, the `HTMLBuilder` class. This is the whole pipeline: chainable path setters, then `build`.
- `04-copy-directory/index.js`, which mirrors a folder into a cleared destination.
- `05-merge-styles/index.js`, the stand-alone stylesheet bundler.

The filesystem is a value, `FsTree.Node`. It is a directory tree whose entries are files, directories or other entries (links, devices). Directory listings keep their order. The `Storage.FileSystem` object holds the current tree, and its methods stand in for the Node filesystem calls. Each method's new tree is given by a function of the old tree. Each one fails, leaving the tree as it was, where the real call would throw.

The source's loops and recursive copies are methods with loop invariants:

- clearing a directory;
- copying a directory;
- appending stylesheets;
- reading the fragments;
- the builder's `#copyDir`.

Each method is proved against a specification function, for example `CopyDirectory.CopyResult`, `MergeStyles.MergeResult`, `AssetCopy.CopyDirResult` and `BuildPage.BuildResult`. The lemmas prove what those functions promise.

Modules:

- `FsTree`, `FsLemmas`: the tree, path lookup, update, `mkdir -p`, and the facts about them.
- `Storage`: the filesystem object and its operations.
- `Paths`: `path.resolve` as a fold over path segments.
- `Placeholders`: the `{{[a-z]+}}` replacement, with a hand-written matcher.
- `Fragments`: the fragment registry of `#getTemplatesData`.
- `CopyDirectory`: `04-copy-directory`.
- `MergeStyles`: `05-merge-styles`, also used by the builder's `#mergeStyles`.
- `AssetCopy`: the builder's merging `#copyDir`.
- `BuildPage`: the `HTMLBuilder` class.
- `BuildProperties`: setter order, what `build` leaves in `project-dist`, and a default build, first or repeated, end to end.

## Model

| member | source | states |
|---|---|---|
| Storage.FileSystem.ReadDir | 06-build-page/index.js:134-136 | a listing is the directory's entries in order, with their kinds; it fails on a missing path or a non-directory |
| Storage.FileSystem.ReadFile | 06-build-page/index.js:109-111 | reading gives a regular file's contents, and fails on anything else |
| Storage.FileSystem.WriteFile | 06-build-page/index.js:115-122 | writing creates or truncates a file whose parent directory exists; otherwise nothing changes and it fails |
| Storage.FileSystem.AppendFile | 06-build-page/index.js:142-146 | appending adds data at the end of an existing file; nothing else changes |
| Storage.FileSystem.MakeDir | 06-build-page/index.js:93 | a recursive mkdir creates the missing directories of a path and fails where a prefix is not a directory |
| Storage.FileSystem.Unlink | 06-build-page/index.js:159-161 | unlink removes one regular file and fails on anything else |
| Storage.FileSystem.RemoveTree | 06-build-page/index.js:163-165 | a recursive rm removes one directory subtree |
| Paths.ResolveOne | 06-build-page/index.js:235-237 | resolving one part gives the part when it is absolute, else the base followed by the part |
| Paths.ResolveTwo | 06-build-page/index.js:235-237 | resolving two parts is resolving the second against the first's result |
| Placeholders.LetterRun | 06-build-page/index.js:118 | the length of the longest prefix of lower-case letters |
| Placeholders.MatchLen | 06-build-page/index.js:118 | a match at the front of the text is at least `{{a}}` long and fits in the text |
| Placeholders.MatchLenIff | 06-build-page/index.js:118 | the matcher reports length n exactly when the first n characters are `{{` + one or more of a-z + `}}` |
| Placeholders.MatchFound | 06-build-page/index.js:118 | what the matcher reports is a placeholder |
| Placeholders.Scan | 06-build-page/index.js:117-120 | the template splits into text and placeholder pieces that put back together give the template, with no match possible inside a text piece |
| Placeholders.ScanUnique | 06-build-page/index.js:117-120 | there is only one such left-to-right split of a template |
| Placeholders.ReplaceRender | 06-build-page/index.js:117-120 | replacing in a split template keeps every text piece and puts its fragment, or "", in place of every placeholder |
| Placeholders.ReplaceIsRender | 06-build-page/index.js:117-120 | the replacement of any template is that rendering of its unique split |
| Placeholders.NoPlaceholderUnchanged | 06-build-page/index.js:117-120 | a template containing no placeholder comes out unchanged |
| Placeholders.ReplaceFront | 06-build-page/index.js:119 | a placeholder at the front becomes its registered fragment, or "" when none is registered |
| Placeholders.ReplaceCopy | 06-build-page/index.js:117-120 | a character other than `{` is copied to the output |
| Placeholders.ReplaceNoBrace | 06-build-page/index.js:117-120 | text without a `{` is copied through unchanged |
| Placeholders.PatternExamples | 06-build-page/index.js:118 | `{{header}}` and `{{missing}}` match; `{{Header}}`, `{{}}` and `{{foot-er}}` do not: the pattern wants one or more lower-case letters and nothing else |
| Placeholders.ShortIsPlaceholder | 06-build-page/index.js:118 | one lower-case letter between braces matches |
| Placeholders.ReplaceHoleText | 06-build-page/index.js:117-120 | a placeholder followed by plain text becomes its fragment followed by that text |
| Placeholders.ReplaceTwoHoles | 06-build-page/index.js:117-120 | two adjacent placeholders between plain texts are both replaced, with the texts kept |
| Placeholders.TemplateExample | 06-build-page/index.js:117-120 | `<div>{{header}}{{missing}}</div>` with only `header` registered gives `<div><h1>Hi</h1></div>` |
| Placeholders.FragmentNotRescanned | 06-build-page/index.js:117-120 | a fragment whose text is itself a placeholder appears literally; replacement is single-pass |
| Placeholders.PlaceholderSurvives | 06-build-page/index.js:117-120 | one pass can leave a placeholder in the page: for any lower-case letters a and b, when `{{a}}` has no fragment (or an empty one) `{{{{a}}b}}` becomes the placeholder `{{b}}` |
| Fragments.Stem | 06-build-page/index.js:224 | a base name with its `.html` extension cut off, except the name `.html`, which has no extension |
| Fragments.RegisterFails | 06-build-page/index.js:220-226 | reading the fragments fails exactly when some `.html` name in the listing is not a regular file |
| Fragments.RegisterKeys | 06-build-page/index.js:220-226 | a key is registered exactly when it is `{{` + the stem of some listed `.html` name + `}}` |
| Fragments.RegisterLastWins | 06-build-page/index.js:222-226 | a key holds the contents of the last listed `.html` file with that key |
| Fragments.RegisterKeeps | 06-build-page/index.js:222-226 | a key that no later file maps to keeps its contents |
| Fragments.KeyUsable | 06-build-page/index.js:224-226 | a fragment can fill a placeholder exactly when its stem is a non-empty run of lower-case letters |
| Fragments.KeyExamples | 06-build-page/index.js:224-226 | `header.html` registers `{{header}}`; `.html` and `.html.html` share the key `{{.html}}` |
| CopyDirectory.ClearDirectory | 04-copy-directory/index.js:25-48 | clearing removes every file and directory directly under the directory, and keeps other entries; it fails only when the directory cannot be listed |
| CopyDirectory.ClearLeavesOnlyOthers | 04-copy-directory/index.js:29-43 | after clearing, the directory lists exactly its former other-kind entries, in order |
| CopyDirectory.ClearIdempotent | 04-copy-directory/index.js:25-48 | clearing an already cleared directory changes nothing |
| CopyDirectory.ClearOutside | 04-copy-directory/index.js:25-48 | clearing changes nothing outside the directory |
| CopyDirectory.CopyFile | 04-copy-directory/index.js:9-23 | the destination file gets the source file's contents; when the source is not a readable file the copy fails but still creates or truncates a writable destination to an empty file, and when the destination cannot be written nothing changes |
| CopyDirectory.CopyDirectory | 04-copy-directory/index.js:50-78 | the new tree and outcome are the mkdir, clear and per-entry copy of the specification function |
| CopyDirectory.CopyEntry | 04-copy-directory/index.js:61-72 | one source entry is added to the destination listing: a file is copied, a directory mirrored recursively, an other entry skipped |
| CopyDirectory.CopyStart | 04-copy-directory/index.js:55-59 | the destination is created and cleared before the source is listed; a source that cannot be listed leaves the cleared destination |
| CopyDirectory.CopyIntoFile | 04-copy-directory/index.js:65-67 | a file copy succeeds exactly when no entry of that name is left in the destination |
| CopyDirectory.CopyIntoChild | 04-copy-directory/index.js:69-71 | a subdirectory is mirrored into a new same-named directory, unless a kept other entry has that name |
| CopyDirectory.PopulateFresh | 04-copy-directory/index.js:61-74 | copying a listing into names it does not use appends the listing with other entries pruned at every depth |
| CopyDirectory.MadeDest | 04-copy-directory/index.js:55 | after mkdir the destination lists its old entries, or nothing when it was missing |
| CopyDirectory.CopyMirrorsSource | 04-copy-directory/index.js:55-74 | after the copy the destination holds its old other entries plus the source tree with other entries left out, at every depth; the source is unchanged |
| CopyDirectory.CopyIntoMissing | 04-copy-directory/index.js:50-78 | copying into a missing destination makes it an exact copy of the source's files and directories |
| CopyDirectory.CopyMissingSource | 04-copy-directory/index.js:55-77 | when the source is missing, the copy fails but the destination exists and holds only its other entries |
| CopyDirectory.CopyBlockedDest | 04-copy-directory/index.js:55-77 | when the destination is a file, nothing changes and the copy fails |
| CopyDirectory.DefaultDestDisjoint | 04-copy-directory/index.js:50-53 | for a source named by plain path segments, the default destination `<src>-copy` neither contains nor is inside the source |
| CopyDirectory.CopyDirectoryFrom | 04-copy-directory/index.js:50-53 | both paths are resolved against the script's directory, and the destination defaults to `<src>-copy` |
| CopyDirectory.CopyFilesFolder | 04-copy-directory/index.js:80 | the script copies `files` into `files-copy` next to it |
| MergeStyles.BundleStyles | 05-merge-styles/index.js:18-30 | the bundle is truncated, then every selected stylesheet is appended in listing order; the result is the specification function's |
| MergeStyles.CssFilesAreFiles | 05-merge-styles/index.js:22-24 | every selected entry is a regular file of the listing |
| MergeStyles.CssFilesMembers | 05-merge-styles/index.js:22-24 | an entry is selected exactly when it is a regular file whose name ends in `.css` |
| MergeStyles.CssFilesAppend | 05-merge-styles/index.js:22-24 | the selection keeps listing order |
| MergeStyles.ContentsAppend | 05-merge-styles/index.js:26-30 | concatenation distributes over listing parts |
| MergeStyles.BundleAppend | 05-merge-styles/index.js:22-30 | the bundle of a listing split in two is the two bundles one after the other |
| MergeStyles.BundleLength | 05-merge-styles/index.js:26-30 | the bundle's length is the sum of the selected files' lengths, with no separator |
| MergeStyles.NoCssEmptyBundle | 05-merge-styles/index.js:18-24 | with no selected file the bundle is empty |
| MergeStyles.BundleExample | 05-merge-styles/index.js:22-30 | `b.css`, `notes.txt`, a directory `old.css` and `a.css` bundle to the two stylesheets in listing order |
| MergeStyles.MergeReadsBack | 05-merge-styles/index.js:18-30 | the bundle holds the concatenation when the styles folder can be listed and is empty otherwise; nothing outside the bundle changes |
| MergeStyles.MergeIdempotent | 05-merge-styles/index.js:8-34 | bundling a second time changes nothing |
| MergeStyles.MergeAgain | 05-merge-styles/index.js:8-34 | bundling the result of a bundle gives the same result |
| MergeStyles.MergeStylesFrom | 05-merge-styles/index.js:8-16 | the defaults are `styles`, `project-dist` and `bundle.css`, with the bundle directly inside the destination |
| AssetCopy.CopyDirStart | 06-build-page/index.js:187-189 | the destination is created, not cleared, and keeps its entries; a source that cannot be listed fails after the mkdir |
| AssetCopy.MergeFileStep | 06-build-page/index.js:195-200 | a file copy succeeds exactly when the destination name is free or a file, and then puts the file's contents there |
| AssetCopy.MergeDirStep | 06-build-page/index.js:202-207 | a subdirectory is merged recursively into the same-named destination entry |
| AssetCopy.MergeKeepsUnnamed | 06-build-page/index.js:185-212 | a destination entry whose name is not in the source survives the copy, even a failed one |
| AssetCopy.MergeCopiesFiles | 06-build-page/index.js:191-200 | after a successful copy, every source file is in the destination listing with its contents |
| AssetCopy.MergeFreshIsPopulate | 06-build-page/index.js:185-212 | copying into free names gives the same listing as the mirror of the copy script |
| AssetCopy.CopyDirIntoMissing | 06-build-page/index.js:185-212 | copying into a missing destination succeeds when the source can be listed and mirrors its files and directories; the source is unchanged |
| AssetCopy.FileOntoDirFails | 06-build-page/index.js:195-200 | a file cannot be copied onto a directory of the same name |
| AssetCopy.MergeCopiesDir | 06-build-page/index.js:202-207 | after a successful copy, each source subdirectory is in the destination as the merge of its contents |
| AssetCopy.MergeCopiesDeep | 06-build-page/index.js:185-212 | a file at any depth of the source listing is at the same relative path in the merged listing |
| AssetCopy.CopyDirCopiesFiles | 06-build-page/index.js:185-212 | after a successful copy, every file of the source, at any depth, is at the same relative path under the destination with the same contents |
| AssetCopy.CopyDirOutside | 06-build-page/index.js:185-212 | the copy changes nothing outside the destination |
| BuildPage.HTMLBuilder.constructor | 06-build-page/index.js:15-45 | the new builder holds the defaults resolved against the script's directory |
| BuildPage.HTMLBuilder.SetRootDir | 06-build-page/index.js:47-50 | the root is resolved against the old root, and nothing else changes |
| BuildPage.HTMLBuilder.SetDistDir | 06-build-page/index.js:52-55 | only the dist directory changes, resolved against the root; the same builder is returned |
| BuildPage.HTMLBuilder.SetSourceAssetsDir | 06-build-page/index.js:57-60 | only the assets source changes, resolved against the root |
| BuildPage.HTMLBuilder.SetDistAssetsDir | 06-build-page/index.js:62-65 | only the dist assets directory changes, resolved against the current dist directory |
| BuildPage.HTMLBuilder.SetSourceTemplatesDir | 06-build-page/index.js:67-70 | only the components directory changes, resolved against the root |
| BuildPage.HTMLBuilder.SetSourceStylesDir | 06-build-page/index.js:72-75 | only the styles directory changes, resolved against the root |
| BuildPage.HTMLBuilder.SetSourceTemplateFile | 06-build-page/index.js:77-80 | only the template file changes, resolved against the root |
| BuildPage.HTMLBuilder.SetOutputHtmlFile | 06-build-page/index.js:82-85 | only the page name changes, and it is stored unresolved |
| BuildPage.HTMLBuilder.SetCssBundleName | 06-build-page/index.js:87-90 | only the bundle path changes, resolved against the current dist directory |
| BuildPage.HTMLBuilder.Build | 06-build-page/index.js:92-105 | mkdir and clear of dist, then page, bundle and assets; the tree and the per-step report are the specification function's |
| BuildPage.HTMLBuilder.CreateOutputHtml | 06-build-page/index.js:107-126 | the page is the template with its placeholders replaced; it is written into the dist directory only when the template and every fragment can be read |
| BuildPage.HTMLBuilder.GetTemplatesData | 06-build-page/index.js:214-233 | the registry read in the loop is the fragment registry of the listing, and nothing changes |
| BuildPage.HTMLBuilder.MergeStyles | 06-build-page/index.js:128-150 | the bundle step is the stand-alone bundler on the builder's paths |
| BuildPage.HTMLBuilder.ClearDirectory | 06-build-page/index.js:152-172 | the same clear as the copy script's |
| BuildPage.HTMLBuilder.CopyFile | 06-build-page/index.js:174-183 | the same file copy as the copy script's: the contents on success, an empty destination when only the source fails, nothing changed when the destination cannot be written |
| BuildPage.HTMLBuilder.CopyDir | 06-build-page/index.js:185-212 | the new tree and outcome are the merging copy of the specification function, stopping at the first failure |
| BuildPage.HTMLBuilder.CopyDirEntry | 06-build-page/index.js:191-207 | one source entry is merged into the destination: a file copied, a directory merged recursively, an other entry skipped |
| BuildProperties.DefaultCallsIdle | 06-build-page/index.js:36-90 | on resolved settings, every setter called without an argument changes nothing |
| BuildProperties.DistPathsFixedAtCall | 06-build-page/index.js:52-90 | a later dist change leaves the dist assets directory and the bundle where they were; called again, they follow the new dist directory |
| BuildProperties.OutputNameUnresolved | 06-build-page/index.js:82-85 | the page name is stored as given and resolved against the dist directory only when the page is written |
| BuildProperties.DefaultPathsApart | 06-build-page/index.js:18-34 | with the default layout, the dist directory and its outputs are apart from every source path |
| BuildProperties.DefaultsReady | 06-build-page/index.js:18-45 | the default builder writes `index.html`, `style.css` and `assets` directly inside `project-dist` |
| BuildProperties.MergeOutside | 06-build-page/index.js:128-150 | bundling changes nothing outside the bundle file |
| BuildProperties.HtmlOutside | 06-build-page/index.js:107-126 | writing the page changes nothing outside the page file |
| BuildProperties.BuildOutside | 06-build-page/index.js:92-105 | when every output lies inside the dist directory, a build changes nothing outside it |
| BuildProperties.BuildBlocked | 06-build-page/index.js:92-93 | when the dist path is a file, the build stops at mkdir and changes nothing |
| BuildProperties.PutKeepsOutputs | 06-build-page/index.js:115-122 | writing an output name keeps the dist directory free of stale entries |
| BuildProperties.MakeKeepsOutputs | 06-build-page/index.js:187 | creating the assets directory keeps the dist directory free of stale entries |
| BuildProperties.CssKeepsOutputs | 06-build-page/index.js:130-146 | bundling keeps the dist directory free of stale entries |
| BuildProperties.AssetsKeepOutputs | 06-build-page/index.js:185-212 | copying the assets keeps the dist directory free of stale entries |
| BuildProperties.DistAfterBuild | 06-build-page/index.js:92-105 | after a build, every dist entry is the page, the bundle, the assets directory or a kept other entry from before |
| BuildProperties.HtmlStep | 06-build-page/index.js:107-126 | into a dist directory holding none of the output names, the page is written exactly when the template and the fragments can be read, with the replaced template as contents, and is absent otherwise |
| BuildProperties.CssStep | 06-build-page/index.js:128-150 | after the page, the bundle holds the stylesheets in order, or is empty when the styles folder cannot be listed, and the page is untouched |
| BuildProperties.AssetsStep | 06-build-page/index.js:185-212 | after the bundle, the assets folder is mirrored into an absent `assets` directory exactly when it can be listed, and otherwise `assets` is left an empty directory |
| BuildProperties.BuildPrepared | 06-build-page/index.js:93-95 | creating and clearing the dist directory leaves it holding only its old other-kind entries, with no output name taken when none of them uses one, and the sources unchanged |
| BuildProperties.DefaultBuild | 06-build-page/index.js:92-105 | a default build, first or repeated, whose leftover other-kind entries use no output name, leaves nothing from an earlier run under the output names: the page is the replaced template exactly when template and fragments can be read (and absent otherwise), the bundle is the in-order concatenation (empty when the styles cannot be listed), and `assets` mirrors the assets folder exactly when it can be listed (empty otherwise) |
| BuildProperties.FirstBuildNoStale | 06-build-page/index.js:92-95 | a first build, with no dist directory yet, always meets that condition |
| BuildProperties.OutputsWithin | 06-build-page/index.js:97-104 | after the clear, the page, bundle and asset steps change nothing outside the dist directory and inside it only add files and directories, keeping its other-kind entries in order |
| BuildProperties.ClearWithin | 06-build-page/index.js:152-183 | clearing a directory undoes any change made only within it that kept its other-kind entries |
| BuildProperties.BuildTwice | 06-build-page/index.js:92-105 | a default build is idempotent: a second build on the tree the first one left, whose leftover other-kind entries use no output name, gives exactly the same tree and the same per-step report |

## Left out

- The scripts `01-read-file`, `02-write-file` and `03-files-in-folder` are not part of this model. They only pipe standard streams and print listings.
- Real filesystem calls, streams and `pipeline` are the `Storage.FileSystem` object on a tree value. Symbolic links and devices are "other" entries. They cannot be read, written or listed through, and they are never followed.
- Concurrency in clearing and copying is not modelled: the `Promise.all` fan-out (`04-copy-directory/index.js:31-43, 61-74`, `06-build-page/index.js:156-168`) runs one entry after the other in listing order.
- `BuildPage.HTMLBuilder.Build`: the page, bundle and asset steps are started without being awaited (`06-build-page/index.js:97-104`), each rethrows its error, and the top-level `build()` call has no handler, so a failing step is an unhandled rejection that by default ends the process and can cut short the steps still running (a missing template can leave `style.css` empty or partial). The model runs the three steps one after the other, each to completion, and reports each failure on its own; the per-step guarantees of `BuildProperties.DefaultBuild` hold for that sequential run.
- Stream timing in bundling is not modelled. Several read streams are piped into one write stream (`05-merge-styles/index.js:26-30`, `06-build-page/index.js:142-146`). With `pipe`'s default end-on-finish, the first stream to end can close the bundle early, and output can interleave. The model gives the intended in-order concatenation.
- `MergeStyles.BundleStyles`: reading a selected stylesheet cannot fail in the model, since every selected entry is a regular file of the listing. Read errors after the listing (permissions, files removed meanwhile) are not modelled.
- `path.resolve` is a fold over segment sequences, where an absolute part restarts the path. `..`, `.` and platform separators are not normalised.
- File contents are opaque strings. The `utf-8` encoding options are not modelled.
- Error messages are not modelled: `throw new Error(error)` in the builder and `stderr.write` in the scripts. A failure is a boolean outcome that leaves the partial state behind.
- `BuildPage.HTMLBuilder.Build` does not report a failed clear of the dist directory. After a successful mkdir, the directory can always be listed, so the clear cannot fail.
- `CopyDirectory.CopyDirectory`, `AssetCopy.CopyDirResult` and `BuildPage.HTMLBuilder.CopyDir` require the source and destination to be apart. When one is inside the other, the source program copies a tree into itself while listing it; that is not modelled.
- `BuildPage.HTMLBuilder.Build`, `BuildPage.HTMLBuilder.MergeStyles`, `MergeStyles.BundleStyles` and `MergeStyles.MergeStylesFrom` require that the bundle is not directly inside the styles folder, which every call in the scripts meets; otherwise the bundle would be listed as one of its own inputs. `BuildPage.HTMLBuilder.Build` also requires that the assets source and destination are apart.
- New entries are added at the end of a directory listing; real listing order is up to the platform.
- `BuildPage.HTMLBuilder.ResolvePath` is a function with no contract of its own; the setters' contracts state its effect.
- The placeholder replacement is a single pass and can leave a placeholder in the page (`Placeholders.PlaceholderSurvives`). The code does this; a statement that no placeholder survives does not hold for it.
- `06-build-page` merges assets into the destination without clearing it first (`06-build-page/index.js:185-212`); the model follows the code. In a build, the dist directory has just been cleared, so the merge only meets other-kind entries.
- `CopyDirectory.DefaultDestDisjoint`: holds for sources named by plain path segments. The script builds the default destination by string concatenation, so `srcDir: 'files/'` gives `files/-copy` and `srcDir: '.'` gives `.-copy`; both resolve inside the source, and the copy then lists a tree it is writing into. Paths here are segment sequences without `.`, `..` or separators, so that case is not modelled.
- `BuildProperties.DistAfterBuild`: for an arbitrary previous dist directory it states only which names remain (kept other-kind entries and output names). The contents of every output are stated by `BuildProperties.DefaultBuild`, for runs where no leftover other-kind entry (a link, say) uses an output name; when one does, the step writing that name fails and the leftover entry stays.
- `CopyDirectory.CopyFile` reads the source before truncating the destination. Copying a file onto itself is a race between the two streams in the source; the model leaves the file as it was.
