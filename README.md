# SFTP deploy script, modelled in Dafny

`deploy.js` pushes a fixed list of site files (SYNC: `.htaccess`, `404.html`,
`config.json`, `favicon.ico`, `index.php`) to a server over SFTP. It builds the
connection options from `deploy.json` and connects. Each item is then handled in turn:

- a missing item is skipped with a warning;
- a directory is uploaded recursively;
- anything else is uploaded as one file.

Before every put, `ensureRemoteDir` stats each running prefix of the parent directory
and creates the missing ones. With `--dry` the script issues no `mkdir` and no put and
only prints what it would put. The session is ended in a `finally` block.

The model has five modules:

- `Paths` (paths.dfy): `posixJoin`, and the JavaScript string operations it is built
  from: `filter(Boolean)`, `join("/")`, `split("/")` and the two regular-expression
  replacements. It also has Node's `path.posix.dirname` and the running prefixes that
  `ensureRemoteDir` builds.
- `Remote` (remote.dfy): the SFTP session as an abstract state, and a `World` class
  whose methods stand for the client calls (`connect`, `stat`, `mkdir`, `fastPut`,
  `end`) and for `console` lines.
  - The state has the remote directories and the remote files, each file mapped to the
    local file last put there.
  - It also has a trace of every call and console line, in order. A `stat` records
    whether it found its path.
  - Which calls the server refuses is fixed in advance by a `Faults` value, so every
    step is a function of the state.
- `EnsureDir` (ensure.dfy): `ensureRemoteDir`, as a specification function and as the
  imperative loop `EnsureRemoteDir`, which is proved equal to it.
- `Upload` (upload.dfy): `uploadFile` and `uploadDirRecursive`, over a local tree
  `Entry = File | Dir | Other`. Each is a specification function plus a method proved
  equal to it.
- `Deploy` (deploy.dfy): the connection options and the SYNC loop of `main`, with its
  `try`/`finally`. `BuildConnectOptions`, `SyncLoop` and `RunDeploy` are imperative and proved
  equal to `ConnectOptionsFor`, `DeployItems` over SYNC and `DeploySpec`.

Each method is proved equal to its specification function. The lemmas are about those
functions. Reference definitions serve as partners for the lemmas:

- `Prefixes` for the `stat` calls;
- `FilesOf`/`PlannedTransfers` for the transfers;
- `Planned` for the per-item console lines;
- `Stored` for the resulting remote files.

Some behaviour of the code is modelled as written:

- Every prefix `ensureRemoteDir` visits is absolute, even for a relative directory.
  The running prefix starts as `""` and then becomes `"/" + segment` (deploy.js:33-35).
  So a relative `remoteRoot` such as `www` makes the script stat and create `/www`,
  while the put goes to `www/...`. With no `remoteRoot`, the parent of a file is `.`
  and the visited prefix is `/.`.
- `cfg.port ?? 22` gives 22 only when the port is absent; a configured 0 stays 0.
  Password and passphrase count only when non-empty (JavaScript truthiness), and so
  does the key path.
- When both are configured, the code passes both a password and a private key
  (`ConnectOptionsFields`).
- An `end()` that rejects inside `finally` replaces the loop's error, as JavaScript
  `finally` does (`DeployErrors`).

## Model

| member | source | states |
|---|---|---|
| Paths.CompactFacts | deploy.js:21 | `filter(Boolean)` keeps exactly the non-empty parts: the result has no empty string, only strings from the input, every non-empty string as often as the input has it, and is the input when no part is empty |
| Paths.CompactCounts | deploy.js:21 | every non-empty string occurs in the filtered parts exactly as often as in the input |
| Paths.SplitFacts | deploy.js:32 | JavaScript `split("/")`: at least one chunk, no chunk contains `/`, and joining the chunks with `/` gives the input back |
| Paths.SplitNoSlash | deploy.js:32 | a slash-free stretch at the front of a string becomes the front of its first chunk; the other chunks are those of the rest |
| Paths.SegmentsFacts | deploy.js:32 | `split("/").filter(Boolean)`: every segment is non-empty and slash-free |
| Paths.ReplaceBackslashes | deploy.js:23 | same length, no backslash left, every other character unchanged |
| Paths.CollapseSlashesFacts | deploy.js:24 | the collapsed string has no two consecutive slashes; is never longer; removes only slashes, so its segments are those of the input; keeps the first and the last character; brings in no backslash; leaves a string without double slashes unchanged |
| Paths.CollapseSlashesShape | deploy.js:24 | the collapsed string has no two consecutive slashes, is never longer, keeps the first character, brings in no backslash, and is the input when the input has no double slash |
| Paths.CollapseSlashesSegments | deploy.js:24 | replacing runs of slashes by one slash leaves the non-empty slash-separated segments unchanged |
| Paths.CollapseSlashesLast | deploy.js:24 | collapsing keeps the last character of a non-empty string |
| Paths.SegmentsCons | deploy.js:32 | a non-slash character in front of a string starts a new first segment or extends the existing one, and the other segments stay |
| Paths.NormalizeFacts | deploy.js:23-24 | the two replacements leave no backslash and no double slash, never lengthen the string, leave a non-empty string non-empty, and keep the segments and the first and last character of the backslash-replaced string, so the second replacement removes only slashes |
| Paths.NormalizeShape | deploy.js:23-24 | the two replacements leave no backslash and no double slash, never lengthen the string, and leave a non-empty string non-empty |
| Paths.NormalizeIdempotent | deploy.js:23-24 | applying the two replacements twice is applying them once |
| Paths.PosixJoinFacts | deploy.js:19-25 | the result has no backslash and no double slash, and is empty exactly when every part is empty |
| Paths.PosixJoinIgnoresEmpty | deploy.js:19-21 | an empty part anywhere does not change the join |
| Paths.PosixJoinNormalized | deploy.js:23-24 | applying the slash normalisation again to the output changes nothing |
| Paths.PosixJoinAssociative | deploy.js:19-25 | joining a joined path with more parts equals joining all parts at once, which is what the nested `posixJoin(remoteDir, name)` calls of a recursive upload rely on |
| Paths.DirnameOfChild | deploy.js:51 | `path.posix.dirname(dir + "/" + name)` is `dir` for a slash-free name and a dir not ending in `/` |
| Paths.ChildOfJoin | deploy.js:65 | `posixJoin(dir, name)` of a plain name is the normalised dir, then `/`, then the name, and its dirname is the normalised dir |
| Paths.ChildOfAnyJoin | deploy.js:19-25 | for any dir whose join is non-empty, `posixJoin(dir, name)` of a plain name appends the name after the normalised dir's trailing slash or after a new `/`, and the dirname of the result has the same running prefixes as the normalised dir |
| Paths.ChildOfEmptyJoin | deploy.js:19-25 | `posixJoin("", name)` of a plain name is the name itself |
| Paths.JoinAfterSlash | deploy.js:19-25 | when the normalised dir ends in `/`, `posixJoin(dir, name)` of a plain name is that dir followed directly by the name |
| Paths.DirnameAfterSlash | deploy.js:32-35 | the parent of a plain name right after a directory's trailing slash has the running prefixes of that directory |
| Paths.SegmentsTrailingSlash | deploy.js:32 | a trailing slash does not change the segments |
| Paths.PrefixesShape | deploy.js:32-35 | one prefix per non-empty segment; the first is `/` plus the first segment; each next one extends the previous by `/` and the next segment; each one is absolute and splits back into exactly its segments |
| Paths.AbsoluteRelativeSamePrefixes | deploy.js:33-35 | `d` and `"/" + d` give the same prefix sequence |
| Paths.RootHasNoPrefixes | deploy.js:32-34 | `""`, `"/"` and any slash-only path give no prefixes |
| Remote.World.Connect | deploy.js:92 | appends the connect call; it succeeds unless the server refuses the connection |
| Remote.World.Stat | deploy.js:38 | appends the stat with its result; it finds the path exactly when it is a remote directory or file |
| Remote.World.Mkdir | deploy.js:42 | appends the mkdir; the directory is added exactly when the server accepts and the path does not exist |
| Remote.World.FastPut | deploy.js:57 | appends the put; the remote file is stored exactly when the server accepts |
| Remote.World.End | deploy.js:115 | appends the end call; it succeeds unless the server refuses |
| Remote.World.Log | deploy.js:54 | appends the console line |
| EnsureDir.EnsureStepsFrame | deploy.js:34-47 | a visit appends only stat and mkdir calls, one stat per path in order, and never changes remote files |
| EnsureDir.EnsureStepsMkdirs | deploy.js:36-42 | every mkdir comes straight after a stat of the same path that found nothing |
| EnsureDir.EnsureStepsDirs | deploy.js:39-46 | the directories afterwards are exactly the ones before plus `Created`: none in a dry run, otherwise every visited path the server does not refuse and that is not a file |
| EnsureDir.EnsureStepsDry | deploy.js:42 | in a dry run only the trace changes, by exactly one stat per path |
| EnsureDir.EnsureStepsAllExist | deploy.js:36-39 | when every path exists, the visit is one successful stat per path and nothing else |
| EnsureDir.EnsureVisitsPrefixes | deploy.js:31-48 | `ensureRemoteDir(d)` stats exactly `Prefixes(d)` in order, one per non-empty segment; it issues only stat and mkdir, each mkdir right after a failed stat of its path, and never touches files |
| EnsureDir.EnsureRootIsNoOp | deploy.js:32-34 | for `""`, `"/"` or a slash-only path, nothing at all happens: no stat, no mkdir |
| EnsureDir.EnsureDryOnlyStats | deploy.js:40-42 | a dry call issues only stats, one per prefix, and changes neither directories nor files |
| EnsureDir.EnsureCreatesAll | deploy.js:39-46 | when the server accepts the mkdir calls, every prefix is a directory afterwards, unless it is a remote file |
| EnsureDir.EnsureIdempotent | deploy.js:31-48 | a second call with the same directory leaves the remote tree as the first left it |
| EnsureDir.EnsureSecondCallNoMkdir | deploy.js:36-46 | after a call whose mkdirs were accepted, a second call issues no mkdir: only stats, each of which finds its path |
| EnsureDir.PrefixNext | deploy.js:33-35 | each update of `cur`, from its start value `"/"` or `""` or from the previous prefix, gives the next running prefix |
| EnsureDir.EnsureRemoteDir | deploy.js:31-48 | the loop over the running prefix `cur` leaves exactly the state `Ensure` describes |
| Upload.UploadFileParentFirst | deploy.js:50-59 | all stat/mkdir calls of `ensureRemoteDir(dirname(remoteFile))` come first and visit exactly its prefixes. Then comes the put with its confirmation, or the refused put alone, or in a dry run only the `[dry] put` line. Only a refused put fails. With accepted mkdirs, the parent's prefixes are directories when the put is issued |
| Upload.UploadFileDry | deploy.js:53-55 | a dry upload succeeds, changes nothing remote, issues no mkdir or put, and ends with the `[dry] put` line |
| Upload.FileTailTransfers | deploy.js:53-58 | whatever path `uploadFile` takes after ensuring the parent, it transfers exactly its one file |
| Upload.UploadFileTrace | deploy.js:50-59 | the events of `uploadFile` are those of `ensureRemoteDir` then the put part |
| Upload.UploadFileReport | deploy.js:50-59 | the transfers of a file upload are its one file, as `WalkReport` describes |
| Upload.UploadEntryReport | deploy.js:63-71 | one entry transfers the files `FilesOfEntry` lists (a directory's files recursively, a file itself, another entry nothing), stopping at a refused put |
| Upload.UploadEntriesReport | deploy.js:61-73 | a directory upload transfers a prefix of the reference list `FilesOf` (listing order, remote paths `posixJoin(remoteDir, name)` per level). On success it is the whole list with every put accepted; on failure it ends with the first refused put and the error names it |
| Upload.WalkReportOk | deploy.js:61-73 | a walk described by `WalkReport` succeeds exactly when it ran dry or the server accepts every listed put |
| Upload.UploadDirSucceeds | deploy.js:61-73 | `uploadDirRecursive` succeeds exactly when it runs dry or every put of a regular file below it is accepted, and then it has transferred exactly those files, in order |
| Upload.UploadEntriesDry | deploy.js:61-73 | a dry directory upload succeeds, issues no mkdir and no put, and changes nothing remote |
| Upload.UploadEntriesEvents | deploy.js:61-73 | an upload issues only stat, mkdir and put calls and the put notices: never a connect, an end or a per-item line |
| Upload.StoredKeys | deploy.js:57 | storing transfers keeps every earlier remote file and adds exactly the transferred paths; the last transfer decides what a path holds |
| Upload.UploadFileStores | deploy.js:57 | a successful real file upload stores the file at its remote path and changes no other file |
| Upload.UploadEntriesStores | deploy.js:61-73 | a successful real directory upload stores every regular file of the tree, in listing order, and changes no other file |
| Upload.UploadFile | deploy.js:50-59 | the method leaves the state and returns the outcome that `UploadFileSpec` describes |
| Upload.UploadDirRecursive | deploy.js:61-73 | the loop with recursion leaves the state and returns the outcome that `UploadEntries` describes |
| Deploy.ConnectOptionsFields | deploy.js:77-88 | port 22 exactly when no port is configured (0 stays 0); host and username copied; a password exactly when a non-empty one is configured; a key exactly when a key path is configured, with the file's contents; a passphrase only with a key and when non-empty; failure exactly when the key file cannot be read, naming its resolved path |
| Deploy.BuildConnectOptions | deploy.js:77-88 | the field-by-field construction yields exactly `ConnectOptionsFor` |
| Deploy.DeployItemShape | deploy.js:96-112 | one item prints its classification line first (skip, dir with its target, or file with its remote path) and then only upload events; its transfers are those of `ItemTransfers`, as `WalkReport` describes |
| Deploy.DeployItemDecisions | deploy.js:96-112 | one item prints exactly one per-item line, the planned one |
| Deploy.DeployItemsReport | deploy.js:95-113 | the loop transfers a prefix of `PlannedTransfers` and stops at the first refused put, as `WalkReport` describes |
| Deploy.DeployItemsEvents | deploy.js:95-113 | the loop issues only per-item lines and upload events: never a connect, an end or `Done.` |
| Deploy.DeployItemsDecisions | deploy.js:95-113 | when the loop succeeds it has printed exactly the planned line of every item, in SYNC order |
| Deploy.DeployItemsAppend | deploy.js:95-113 | the loop over `a + b` is the loop over `a` followed, unless it failed, by the loop over `b`, so an error stops every later item |
| Deploy.MissingItemsOnlyWarn | deploy.js:96-100 | missing items only print their `SKIP missing` warnings, in order; they never fail and never stop the loop |
| Deploy.DeployItemsDry | deploy.js:95-113 | a dry loop succeeds, issues no mkdir and no put, and changes nothing remote |
| Deploy.DeployItemsStore | deploy.js:95-113 | a successful real loop stores every planned transfer, in order |
| Deploy.DeployTrace | deploy.js:90-118 | after an accepted connect the events are the banner, the connect, the loop's events, the end, and `Done.` exactly on success; success means `end()` and the loop both succeeded; the loop's error is reported when `end()` succeeds |
| Deploy.DeployKeyUnreadable | deploy.js:85-86 | an unreadable key file fails the run before anything is printed or sent |
| Deploy.DeployConnectRefused | deploy.js:90-92 | a refused connect leaves only the banner and the connect: no item and no `end()` |
| Deploy.DeploySession | deploy.js:90-118 | after an accepted connect, `end()` is called exactly once, whether the loop failed or not. It comes after every other remote call and after every item, and only `Done.` can follow it. The banner is first and the connect second |
| Deploy.DeployErrors | deploy.js:85-121 | the reported error is the unreadable key, else the refused connect, else a refused `end()` (which replaces a loop error), else a refused put |
| Deploy.DeploySucceeds | deploy.js:75-119 | `main` succeeds exactly when the key is readable, connect and end are accepted, and the run is dry or every planned put is accepted |
| Deploy.FramedQuiet | deploy.js:90-118 | the banner, connect, end and `Done.` around the loop add no transfer and no per-item line |
| Deploy.DeployOkReport | deploy.js:75-119 | a successful `main` printed exactly the planned per-item lines and transferred exactly the planned files, in order |
| Deploy.DeployStores | deploy.js:95-116 | a successful real run leaves the remote files as storing the planned transfers in order would |
| Deploy.DeployDry | deploy.js:75-119 | a dry `main` changes nothing remote and issues no mkdir and no put; it fails only on an unreadable key or a refused connect or end |
| Deploy.DryRunMatchesRealRun | deploy.js:95-113 | a dry run prints the same per-item lines and announces the same transfers, in the same order, as any successful real run on the same configuration and local tree |
| Deploy.DecisionUnderRoot | deploy.js:102-106 | an item with a plain remote name other than `.` is skipped exactly when its local path is missing; otherwise, for any root whose normalisation is non-empty, it targets the name right below that normalised root and the parent that `uploadFile` ensures has the root's running prefixes; below a root with no trailing slash the target is the root, `/`, the name, and the parent is the root itself; an empty root leaves the bare name |
| Deploy.SyncNamesArePlain | deploy.js:10-16 | every SYNC item's remote name is a plain segment other than `.` |
| Deploy.SyncItemStep | deploy.js:96-112 | one pass of the loop body, with its `continue` for a missing item, leaves the state and returns the outcome that `DeployItem` describes |
| Deploy.SyncLoop | deploy.js:94-113 | the `try` block's loop, which stops at the first error, leaves the state `DeployItems` describes over SYNC and hands on exactly its error |
| Deploy.RunDeploy | deploy.js:75-119 | `main` with its options building, the SYNC loop and `finally` leaves the state and returns the outcome that `DeploySpec` describes |

## Left out

- The SFTP client library is not modelled. Its calls are abstract steps on the remote state, and a fixed `Faults` value decides which ones the server refuses.
  - A `mkdir` of an existing path counts as refused.
  - There are no network errors beyond those refusals.
  - `stat` never fails except by not finding its path.
- Local filesystem access is not modelled either. `existsSync`, `statSync` and `readdirSync` become the map `local` from resolved paths to `Entry` trees. The readable key files become the map `keyFiles`.
  - Errors of `statSync` or `readdirSync` on an existing path are not modelled.
  - Neither are symbolic links: a link is an `Other` entry, while `statSync` would follow it.
- `Deploy.Resolve` models `path.resolve` as prefixing the working directory to a relative path. Normalisation of `.`, `..` and repeated separators is not modelled.
- `Upload.LocalJoin` models `path.join(dir, name)` as `dir + "/" + name`, without its normalisation.
- The script reads `deploy.json` and checks `process.argv` for `--dry`. Instead, the configuration is the `Config` value and the dry flag is a parameter. A missing `remoteRoot` is modelled as the empty string, which `posixJoin` treats the same way.
- Console lines are recorded as structured messages, not as the exact text, so the printed `undefined` for a missing `remoteRoot` does not appear.
- `console.error(e)` and `process.exit(1)` become the `Failed` outcome.
- `async`/`await` is not modelled: every call is awaited in order, so the model is sequential.
- scripts/deploy-service.js is not part of this model. It is a one-call wrapper around a module that is not available.
