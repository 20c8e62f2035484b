# skynet-cli in Dafny

A model of the core of `skycli`, a command line tool that uploads a
directory to a Skynet portal and then uploads an HTML page listing it. The model covers
the parts of the tool that are logic rather than plumbing:

- the **Tree Walker** `recListFiles`, which flattens a directory tree into
  joined paths, depth first, in listing order, pruning what `skip` rejects;
- the **Tree Renderer** `recBuildDirHTML`, which walks the same tree again
  and emits nested `<li>`/`<ul>` markup with one `class="doc"` leaf per file,
  linking `sia://` + the file's skylink;
- the string helpers `trimTrailingSlash`, `path.join` and `path.basename`
  (the last two as `dir + "/" + name` and "text after the last slash");
- the mock branch of `upload`, which draws a 64-character skylink from a
  fixed alphabet;
- the result map of the **Batch Uploader** `uploadMultiple`;
- `parseArgs`, the `skip` filter and the page wrapper `init` builds around
  the rendered tree.

The file system is an `Entry` tree (`File` or `Dir`, each with a name and a
symbolic-link flag, a directory with its ordered children). The network is
replaced by per-file `Outcome`s.

Files:

- `strings.dfy`: module `Strings`, the string helpers.
- `tree.dfy`: module `Tree`.
  - The tree.
  - `ListFiles`, the walker as a function.
  - An independent reference definition: a path is listed exactly when it is the path of an accepted chain of entries.
  - The loop form `RecListFiles`.
- `markup.dfy`: module `Markup`, tokens (`Open`/`Close`/`Chars`), their text, and a stack checker for well-nestedness.
- `render.dfy`: module `Render`.
  - The outline the renderer draws, its tokens and its leaves.
  - The central agreement theorem.
  - The loop form `RecBuildDirHTML`, proved to produce the outline's text.
- `upload.dfy`: module `Upload`.
  - The mock skylink.
  - `upload`'s outcome.
  - The batch map as written.
  - The corrected all-or-nothing batch.
- `cli.dfy`: module `Cli`.
  - `skip`, `parseArgs` (as a function and as the source's loop) and the page wrapper.
  - The end-to-end statements that join walk, upload and render.

The central theorem is `Render.LeavesAgreeWithListing`. The renderer's leaves,
in order, are exactly the walker's paths, each paired with the map's entry
for it and with its base name. So, by `Render.NoUndefinedLinks`, when the map
holds every listed path, no leaf links to `sia://undefined`.

## Model

| member | source | states |
|---|---|---|
| Strings.TrimTrailingSlash | src/utils.ts:99-104 | the result is a prefix of the input; it is one character shorter exactly when the input ends in `/`, and the input itself otherwise |
| Strings.BaseName | src/utils.ts:38 | the base name contains no `/`, is a suffix of the path, and when shorter than the path is preceded by `/` |
| Strings.BaseNameOfJoin | src/utils.ts:27-38 | the base name of `dir` joined with a slash-free `name` is `name` |
| Tree.Kept | src/utils.ts:11 | `filter(skip)` keeps exactly the entries `skip` accepts and is no longer than the listing |
| Tree.RecListFiles | src/utils.ts:9-20 | the accumulating loop, recursing into accepted directories, returns exactly `ListFiles` of the listing |
| Tree.ListFilesKept | src/utils.ts:11-18 | listing the filtered entries gives the same paths as listing all of them, since rejected entries contribute nothing |
| Tree.PrunedEntry | src/utils.ts:11 | removing a rejected entry, file or whole subtree, leaves the result unchanged |
| Tree.ListFilesAppend | src/utils.ts:12-18 | the walk of two concatenated listings is the concatenation of their walks, so order follows listing order |
| Tree.Splice | src/utils.ts:12-17 | an accepted subdirectory's files appear at that directory's position among its siblings; an accepted file takes its own position |
| Tree.ListedUnderDir | src/utils.ts:14-17 | every returned path starts with `dir + "/"` |
| Tree.EntryUnderDir | src/utils.ts:14-17 | every path an accepted entry contributes starts with `dir` joined with its name, followed by nothing or by `/` |
| Tree.ListFilesIsReachable | src/utils.ts:11-18 | a path is returned exactly when it is `dir` joined with the names of a chain of directories ending in a file, each entry of which `skip` accepts |
| Tree.ListedIsReachable | src/utils.ts:11-18 | every returned path is the path of an accepted chain from the listing |
| Tree.ReachableIsListed | src/utils.ts:11-18 | the path of every accepted chain from the listing is returned |
| Tree.EntryContributes | src/utils.ts:12-17 | what one entry of a listing contributes is part of the listing's result |
| Tree.ContributedBy | src/utils.ts:12-17 | every returned path comes from one particular entry of the listing |
| Tree.SiblingsDisjoint | src/utils.ts:14-17 | two siblings with different slash-free names contribute disjoint sets of paths |
| Tree.ListFilesNoDuplicates | src/utils.ts:9-20 | in a tree whose sibling names are distinct and slash-free, no path is returned twice |
| Tree.EntryNoDuplicates | src/utils.ts:12-17 | one entry of such a tree contributes no path twice |
| Markup.BalancedElement | src/utils.ts:29-34 | an opening tag, a balanced inner stream and the matching closing tag form a balanced stream |
| Markup.BalancedIsWellNested | src/utils.ts:23-42 | a balanced token stream is well nested from the empty stack of open elements |
| Render.RecBuildDirHTML | src/utils.ts:23-42 | the loop that appends the source's literal tags and recurses into directories builds exactly the text of the outline's tokens |
| Render.AppendEntry | src/utils.ts:27-39 | one pass of the loop appends, for a directory, the group literals around the recursive markup, and for a file the leaf literals; the text appended is that of the entry's item's tokens |
| Render.GroupText | src/utils.ts:29-34 | the literals appended for a directory, `<li role="treeitem" aria-expanded="false"><span>name</span><ul role="group">` + children + `</ul></li>`, are the text of its group's tokens |
| Render.DocText | src/utils.ts:37-39 | the literals appended for a file, `<li role="treeitem" class="doc"><a href="sia://link">caption</a></li>`, are the text of its leaf's tokens |
| Render.OutlineKept | src/utils.ts:25-26 | the renderer's filtered listing draws the same outline as the full listing |
| Render.OutlineAppend | src/utils.ts:26-40 | the outline of two concatenated listings is the concatenation of their outlines |
| Render.LeavesAgreeWithListing | src/utils.ts:23-42 | the leaves of the rendered outline, in order, are `(Lookup(skylinks, p), BaseName(p))` for each path `p` of `ListFiles` over the same tree and filter |
| Render.EntryLeavesAgree | src/utils.ts:26-39 | the leaves one entry renders are the links of the paths that entry contributes to the walk |
| Render.NoUndefinedLinks | src/utils.ts:38 | when every listed path is a key of the map, the number of leaves equals the number of listed files and leaf `i` links to the skylink of file `i` |
| Render.MissingPathLinksUndefined | src/utils.ts:38 | a listed path missing from the map yields a leaf linking to `undefined` |
| Render.DepthIsDirDepth | src/utils.ts:29-34 | the `<ul role="group">` nesting depth of the outline equals the directory depth of the accepted tree |
| Render.TokensBalanced | src/utils.ts:26-40 | the tokens of any rendered items are balanced |
| Render.ItemBalanced | src/utils.ts:29-39 | each leaf and each group is a balanced token stream |
| Upload.MockSkylink | src/utils.ts:44-52 | the 64-round loop returns a string of exactly 64 characters, each the alphabet character picked in its round, so all come from the alphabet |
| Upload.Upload | src/utils.ts:45-66 | in mock mode a 64-character string whose character `k` is the alphabet character picked in round `k`, otherwise the portal's skylink, or an error whose message is `Upload failed, ` followed by the cause |
| Upload.MockUploads | src/utils.ts:73-75 | starting one mock-mode `upload` per file gives one successful outcome per file, each a 64-character skylink from the alphabet, as `Cli.MockRunLinksResolved` requires |
| Upload.UploadMultiple | src/utils.ts:70-97 | the loop inserts each success; the result is always the map, never an error, and an empty file list gives the empty map |
| Upload.CollectKeys | src/utils.ts:73-90 | a file is a key exactly when one of its uploads succeeded, and it maps to a skylink one of its uploads returned |
| Upload.CollectExact | src/utils.ts:84 | with distinct paths, every successful upload's file maps to exactly the skylink that upload returned |
| Upload.AllSucceeded | src/utils.ts:73-90 | with distinct paths and no failure, the keys are exactly the files and there are as many keys as files |
| Upload.MockBatchShaped | src/utils.ts:44-52 | in mock mode every file is a key and maps to a 64-character skylink from the alphabet |
| Upload.FailureYieldsPartialMap | src/utils.ts:92-96 | a batch whose second upload fails still yields a map, holding the first file alone |
| Upload.FirstFailure | src/utils.ts:92-94 | the index of the first failed outcome: every earlier outcome succeeded, and the one there failed unless it is the length |
| Upload.UploadAll | src/utils.ts:92-96 | the corrected batch fails exactly when some upload failed, with that upload's message; otherwise its keys are exactly the files, each mapped to a skylink its upload returned |
| Upload.FailureIsReported | src/utils.ts:92-94 | the same failing batch is reported as the failure's message by the corrected collection |
| Cli.HiddenNeverListed | src/index.ts:131-133 | every path listed with `skip` lies on a chain of which no entry is a symbolic link and no entry's name starts with `.` |
| Cli.HiddenSubtreePruned | src/index.ts:131-133 | a hidden or symlinked directory contributes no path and no markup, whatever lies below it |
| Cli.NormalizePortal | src/index.ts:103 | the normalised portal ends in `/`; it is unchanged when it already did and gains exactly one `/` otherwise |
| Cli.Parse | src/index.ts:75-123 | fewer than two arguments exit with the usage text; a configuration has `args[1]` as its directory and a portal ending in `/` |
| Cli.ParseArgs | src/index.ts:75-123 | the loop that updates the `out` record while stepping by two returns exactly what `Parse` gives |
| Cli.ScanStops | src/index.ts:86-100 | the option loop stops exactly when some option position holds something other than `-p`/`--portal`, and then with the reason the first such option gives |
| Cli.ScanFindsStop | src/index.ts:86-100 | an option position holding something other than `-p`/`--portal` stops the loop |
| Cli.ScanStopWitness | src/index.ts:86-100 | a stopped loop stopped at the first option that is not `-p`/`--portal` |
| Cli.ScanPortal | src/index.ts:86-91 | when only `-p`/`--portal` options occur, the loop ends with the value of the last one, or undefined when the last `-p` has nothing after it |
| Cli.OptionExitIff | src/index.ts:79-100 | parsing exits with the usage, help or unknown-option message exactly when there are fewer than two arguments or some option other than `-p`/`--portal` |
| Cli.FirstBadOptionExits | src/index.ts:92-99 | the first option position holding something other than `-p`/`--portal` decides the exit: help for `-h`/`--help`, unknown option otherwise |
| Cli.LastPortalWins | src/index.ts:84-103 | with only portal options and an existing directory, no option keeps `https://siasky.net/`, an even count takes the last argument normalised, and a trailing `-p` crashes |
| Cli.DirectoryChecks | src/index.ts:106-114 | a missing directory and a path that is not a directory each exit with their message; otherwise the configuration is returned |
| Cli.PageWellNested | src/index.ts:40-43 | the page, heading and outer tree list around any rendered items, is well nested |
| Cli.BuildTreeHtml | src/index.ts:40-43 | heading, `<ul role="tree" aria-labelledby="tree_label">`, the rendered directory and `</ul>`, appended in turn, are the text of the page's tokens |
| Cli.IndexLinksResolved | src/index.ts:26-43 | with the corrected batch succeeding, every leaf of the page, in listing order, links to a skylink the upload of its file returned |
| Cli.MockRunLinksResolved | src/index.ts:26-42 | in mock mode every leaf links to a 64-character skylink from the alphabet, never to `undefined` |
| Cli.AsWrittenPageHasUndefinedLink | src/index.ts:31-42 | as written, two visible files whose second upload fails give a page with two leaves whose second links to `undefined` |

## Left out

- File system access (`fs.readdirSync`, `existsSync`, `statSync`): the tree is the `Entry` datatype, and the two directory checks of `parseArgs` are the parameters `pathExists` and `isDirectory`. A directory that cannot be listed is not modelled.
- A symbolic link is `File(name, true)`: `readdirSync` with file types reports a link as not a directory, so a link that `skip` kept would be listed as a path and never descended into. A `Dir` with `symlink` set stands for nothing `readdirSync` returns; `Skip` rejects both, but under another filter the model would descend into such a `Dir`.
- `path.join` normalisation: `Join` is `dir + "/" + name`. So `Join(".", "a")` is `./a` where `path.join` gives `a`, and `Join("x/", "a")` is `x//a` where `path.join` gives `x/a`; collapsed `..` segments are not modelled either. The `dir + "/"` prefix of `Tree.ListedUnderDir` is therefore a fact about the model, and the `./a`, `./b` of the Findings row would be listed by the source as `a`, `b` for the directory `.`. For the same reason `BaseName` is the text after the last `/`, and `path.basename`'s dropping of a trailing slash is not modelled.
- Walk and render see the same `Entry` tree. The source reads the disk twice, in `recListFiles` (src/utils.ts:11, called at src/index.ts:26) and again in `recBuildDirHTML` (src/utils.ts:25, called at src/index.ts:42), with the whole batch upload in between; a directory changed between the two reads, or listed in a different order the second time, is not modelled, and `Render.LeavesAgreeWithListing` depends on that.
- The map of skylinks is a plain object `{}` in the source (src/utils.ts:71), and `map<string, string>` has none of the keys a plain object inherits from `Object.prototype`. For the directory `.`, `path.join` gives a top-level file `__proto__` the key `__proto__`. Storing a string under that key (src/utils.ts:84) is silently ignored, and the leaf (src/utils.ts:38) links to `sia://[object Object]` although the upload succeeded. A failed upload of a top-level `constructor`, `toString` or another inherited name links to the text of the inherited function instead of `undefined`. `Upload.CollectExact`, `Upload.UploadMultiple`, `Render.Lookup`, `Render.NoUndefinedLinks` and `Render.MissingPathLinksUndefined` are therefore statements about paths that are not inherited property names.
- Names are not HTML-escaped by the source, and the model does not escape them either; well-nestedness is proved over tokens, so a name containing markup is still treated as raw text.
- The HTTP upload (axios, `FormData`, the read stream, the `api/skyfile?filename=` URL at src/utils.ts:59): the portal's answer is the `Answer` parameter of `Upload.Upload`. A response lacking a `skylink` field, which makes the source store `undefined`, is not modelled.
- Upload.UploadMultiple: models the map once every upload has settled. In the source, the rejection-handling `catch` stops waiting at the first failure, so uploads still in flight may be missing from the map when it is returned. The model's map contains the source's.
- Upload.UploadMultiple: the `.catch` that rejects with `Could not upload file …` when `upload` itself rejects is not modelled, since `upload` catches its own errors. The stdout progress dots and the `DEBUG` messages are not modelled either.
- Upload.UploadAll: reports the first failure in file order. `Promise.all` reports the first failure in time, which depends on the network.
- `Math.random`: the index drawn in each round of the mock loop is the `picks` parameter. `process.env.MOCK_UPLOADS` is the `mockUploads` parameter.
- Terminal output (chalk, figlet, clear, `console.log`, the usage text) and `process.exit`: an exit is the `Exit` result with its reason.
- The portal reachability `GET` at src/index.ts:115-120 sends its request and does not wait for the answer, so it never affects the value returned.
- `args[0]`, the `upload` word of the usage line, is never examined by `parseArgs`, and the model does not examine it either.
- The `out` record is an alias of the `defaults` object, so `parseArgs` mutates `defaults`. Within one run this is invisible, and the model copies the record instead.
- `-p` with nothing after it makes `trimTrailingSlash(undefined)` throw a `TypeError`. This is the `Crash` result.
- The rest of `init` (src/index.ts:45-62) is not modelled: the HTML template in `./tpl`, the temporary file, the page upload and the final message. So is the `!skylink` check, which never fires for an `Error` value.

## Findings

| source | as written | input that shows it | evidently intended | confidence | as-written member | corrected member |
|---|---|---|---|---|---|---|
| src/utils.ts:92-96 | the `Error` built in `Promise.all(...).catch(err => new Error(err))` is discarded and the partial map is returned, so `init`'s `instanceof Error` check never fires and the failed file's leaf links to `sia://undefined` | files `./a`, `./b` where the upload of `./b` fails | return the batch error when any upload fails, as `init` expects | not executed | Upload.UploadMultiple | Upload.UploadAll |
