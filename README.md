# CICDScript core, modelled in Dafny

CICDScript is a small CI/CD runner. Its configuration is an XML document. The runner fills
`{key}` placeholders in that document from the root's attributes and from external `key=value`
arguments. It then walks the `build` section in document order. For each `dependency` it copies a
path. For each `buildExecutable` it runs a program. Every copy goes through one operation that
takes either a filesystem path or a Subversion URL at each end. A name allocator picks `name`,
`name_2`, `name_3`, ... so that deployed packages do not collide.

The project models that core as follows:

- `Svn`: the Subversion adapter.
  - `URLCheck` is the address classifier: a case-sensitive prefix test.
  - The `SvnController` class fixes its credential arguments at construction.
  - Export, import, copy and list are modelled by the exact command line each one runs and the
    value it returns. Each succeeds exactly when that command line exits 0.
- `Copier`: the copy operation and the name allocator.
  - `SelectStrategy` is the 2x2 strategy table; `Copy` applies the chosen strategy.
  - The filesystem-to-filesystem strategy is the method `CopyFromFsToFs`. It has the source's
    loop and is proved equal to the specification `FsToFsEffect`.
  - `GetVacantName` is the allocator. It takes the listing, strips it, and calls `FirstVacant`.
    `FirstVacant` has the source's `while` loop, an invariant tying the loop to
    `VacantIndexFrom`, and a termination measure: the set of listed names not yet tried.
- `Xml`: the element tree.
  - Attribute dicts are association lists that keep insertion order.
  - `Iter` is document order; `Find` returns the first child with a tag.
- `Template`: the templating pass.
  - `Format` is `str.format` with keyword arguments.
  - `Merge` builds the context: root attributes, overridden by the external arguments.
  - `FormatTree` substitutes over a subtree.
  - `ProduceRoot` and the loop method `ProduceXmlRoot` produce the templated root.
- `Processor`: the node walk.
  - `Plan` reads a node into the action it asks for.
  - `Walk` is the specification of the walk. `Process` is the source's loop over `iter()`,
    proved equal to `Walk`.
  - `Build` composes templating, finding the `build` section, and the walk.

The host is modelled as oracles in `Host.Env`: glob, directory listing, `mkdir`, the exit status
and output of a command line, the directories an `svn export` leaves on disk, and whether a build
executable succeeds and which directories it creates. The one piece of host state threaded through
the model is the set of existing directories. A copy updates it with every directory it creates:
`mkdir`, the target of `shutil.copytree` together with a copy of each directory below the source,
the export's directories, and a build executable's. The failures the model covers (a failed
command line, a listing or `mkdir` that fails, a missing attribute, a bad external argument, a
templating error, a copy with nothing to copy or a directory copied onto a file name) become a
`Host.Error`, returned in a `Result`. The failures it does not cover are listed under "Left out".

Behaviours of the code worth noting:

- The server-side copy wraps the log message in literal double quotes (CICDScript.py:93). The import
  passes the message as it is (CICDScript.py:88).
- A filesystem-to-repository copy whose glob matches nothing returns an empty list; it does not fail
  (CICDScript.py:131).
- The context dict is the root's own attribute dict (CICDScript.py:345). The root's attribute values
  are therefore rewritten one at a time, and each is formatted against the dict as far as it has
  been rewritten. Descendants see the fully rewritten root attributes. `ProduceRootAliasExample`
  shows the effect: a child's `{b}` whose root has `b="{a}"` and `a="1"` becomes `1`, not `{a}`.
- Substitution also covers the `{{` and `}}` escapes and the error cases of `str.format`, not only
  `{key}`.
- With an empty context nothing is substituted, so braces in the tree stay as they are
  (CICDScript.py:352).

## Model

| member | source | states |
|---|---|---|
| Svn.URLCheckIsPrefixTest | CICDScript.py:75-76 | the URL regular expression accepts exactly the strings that begin, case-sensitively, with http://, https://, ftp://, ftps:// or file:/// |
| Svn.Classify | CICDScript.py:62 | a path is a repository address exactly when it begins with one of the five prefixes, and a filesystem path otherwise |
| Svn.AuthArgsCarryCredentials | CICDScript.py:67-73 | the credential list is flag/value pairs; `--username` carries the user exactly when one is given; `--password` carries the password exactly when both a user and a password are given |
| Svn.PasswordWithoutUserIgnored | CICDScript.py:70-73 | with no user, or an empty one, the credential list is empty whatever the password |
| Svn.SvnController.constructor | CICDScript.py:65-73 | the controller's credential arguments are those built from the user and password |
| Svn.ImportTargetIsChild | CICDScript.py:87 | the imported URL is `dest + "/"` followed by the source's base name, and its own base name is the source's |
| Svn.SvnController.Export | CICDScript.py:78-83 | export succeeds exactly when its command line exits 0 and returns the destination path; otherwise it fails naming that command line |
| Svn.SvnController.Import | CICDScript.py:85-90 | import succeeds exactly when its command line exits 0 and returns the URL of the new child |
| Svn.SvnController.Copy | CICDScript.py:92-95 | a server-side copy succeeds exactly when its command line, with the quoted message, exits 0 and returns the destination URL |
| Svn.SvnController.List | CICDScript.py:97-101 | listing succeeds exactly when `svn ls` exits 0 and returns that command's output lines |
| Copier.SelectStrategy | CICDScript.py:158-164 | the selected strategy reads its source from a repository exactly when the source is a URL, and writes to a repository exactly when the destination is one |
| Copier.StrategyTableBijective | CICDScript.py:158-159 | the table is total and one-to-one: each strategy is selected by exactly one pair of address kinds |
| Copier.CopyFromVcsToVcs | CICDScript.py:122-123 | a repository-to-repository copy succeeds exactly when the copy command exits 0 and yields the one-element list `[dest]` |
| Copier.CopyFromVcsToFs | CICDScript.py:126-127 | a repository-to-filesystem copy succeeds exactly when the export command exits 0 and yields `[dest]` |
| Copier.ImportAll | CICDScript.py:131 | importing a list of matches succeeds exactly when every import does, and yields one URL per match, in match order, each the import target of its match |
| Copier.TreeCopyMirrors | CICDScript.py:146-147 | `copytree` recreates the source's tree: every directory below the source has a copy at the same relative path below the target, and every copied directory lies below the target |
| Copier.PlacedUnderShape | CICDScript.py:145-149 | a match is placed at `dest + "/" + basename` or at `os.path.join(dest, basename)`; either way the path lies under the destination and its own base name is the match's |
| Copier.CopyOneIntoShape | CICDScript.py:145-149 | copying one match into a directory appends exactly one path and keeps the earlier ones; a directory goes to `dest + "/" + basename` and brings its tree, a file goes to `os.path.join(dest, basename)` and creates no directory |
| Copier.CopyAllIntoShape | CICDScript.py:144-149 | copying into a directory yields one path per glob match, in glob order, each at `dest + "/" + basename` or `os.path.join(dest, basename)` of its match, and only adds directories |
| Copier.FsToFsCases | CICDScript.py:138-155 | a missing separator-terminated destination is created first, and a failed `mkdir` fails the copy with nothing else done; a copy into an existing or created directory always succeeds; a directory destination gets one entry per match, each at `dest + "/" + basename` or `os.path.join(dest, basename)`; any other destination receives only the first match, fails when there is none, and fails when that match is a directory |
| Copier.CopyFromFsToFs | CICDScript.py:134-155 | the loop leaves exactly the result and the directory set that `FsToFsEffect` specifies |
| Copier.Copy | CICDScript.py:163-164 | `copy` computes exactly the effect of the strategy that the table selects, and a successful export adds the directories its command leaves on disk |
| Copier.CopyFromRepository | CICDScript.py:122-127 | a repository source is never globbed: the effect does not depend on the glob oracle; a server-side copy leaves the directories unchanged, and a successful export adds exactly the directories its command leaves; success means the copy or export command exited 0; the result is `[dest]` |
| Copier.CopyToRepository | CICDScript.py:130-131 | a filesystem-to-repository copy returns one URL per glob match, in glob order, each `dest + "/" + basename(match)` |
| Copier.CandidateInjective | CICDScript.py:178 | distinct counters give distinct candidate names |
| Copier.VacantIndexFrom | CICDScript.py:177-179 | the search that starts at a counter stops at the first candidate not listed, after trying every candidate before it, and it terminates because the listing is finite |
| Copier.VacantName | CICDScript.py:175-181 | the chosen name is never listed; it is `name` exactly when `name` is not listed; otherwise it is `name_k` for the least k >= 2 whose candidate is not listed |
| Copier.VacantNameStartsAtTwo | CICDScript.py:176-178 | when `name` is listed and `name_2` is not, the result is `name_2`, whatever higher suffixes exist |
| Copier.VacantNameThird | CICDScript.py:175-181 | when `name` and `name_2` are listed and `name_3` is not, the result is `name_3` |
| Copier.StrippedNames | CICDScript.py:172 | the stripped list holds exactly the listed entries that start with `name`, each with one extension removed |
| Copier.StrippedNamesPair | CICDScript.py:172 | a two-entry listing whose entries both start with `name` strips to those two entries, each without its extension, in order |
| Copier.ListEntries | CICDScript.py:171 | for a URL the listing is exactly the `svn ls` result; for any other path it succeeds exactly when the directory can be read, yields its entries, and otherwise fails naming the path |
| Copier.VacantNameAtSource | CICDScript.py:171 | the name found for a URL does not depend on the filesystem, and the name found for a filesystem path does not depend on the command oracles |
| Copier.FirstVacant | CICDScript.py:175-181 | the loop returns exactly the vacant name: the first of `name`, `name_2`, `name_3`, ... that is not listed |
| Copier.GetVacantName | CICDScript.py:169-181 | the loop returns exactly the name `VacantNameAt` specifies: the listing from the repository or the directory, then the first vacant candidate |
| Copier.VacantNameFreeExample | CICDScript.py:171-181 | a listing with no entry that starts with the name keeps the name |
| Copier.VacantNameTakenExample | CICDScript.py:171-181 | for any name free of '.' and '/', a listing holding `name.zip` gives `name_2` |
| Copier.VacantNameSecondExample | CICDScript.py:171-181 | a listing holding `name.zip` and `name_2.zip` gives `name_3` |
| Copier.VacantNameGapExample | CICDScript.py:171-181 | a listing holding `name.zip` and `name_5.zip` gives `name_2`: a higher suffix does not move the counter |
| Copier.StripExtZip | CICDScript.py:172 | an archive `base.zip`, for a base free of '.' and '/', strips to `base` |
| Copier.SuffixedName | CICDScript.py:178 | a candidate `name + suffix` starts with the name and, when both parts are free of '.' and '/', so is it |
| Copier.ArchiveListing | CICDScript.py:172 | `base1.zip` and `base2.zip`, for base names that start with the name and are free of '.' and '/', strip to `base1` and `base2` |
| Paths.BasenameIsLastComponent | CICDScript.py:87 | a base name is a suffix of its path and contains no separator, and a separator precedes it when it is shorter than the path |
| Paths.BasenamePathJoin | CICDScript.py:149 | a file copied into a directory lands at a path whose base name is the file's |
| Paths.StripExtNoDot | CICDScript.py:172 | a name without any '.' is left unchanged |
| Paths.StripExt | CICDScript.py:172 | stripping the extension leaves a prefix of the name; it strips exactly when the last component has a '.' preceded, within that component, by a character other than '.'; when it strips, it removes a last '.' and what follows it, which holds no '.' and no separator |
| Paths.StripExtExamples | CICDScript.py:172 | `foo_2.zip` strips to `foo_2` |
| Paths.StripExtLastOnlyExample | CICDScript.py:172 | only the last extension goes: `a.tar.gz` strips to `a.tar` |
| Paths.StripExtUnchangedExamples | CICDScript.py:172 | a name whose only dot leads it (`.bashrc`) and a name whose dot is in a directory part (`pkg.d/`) are unchanged |
| Xml.Get | CICDScript.py:200 | an attribute lookup is absent exactly when no attribute has the key, and otherwise returns a value stored under it |
| Xml.AssignKeys | CICDScript.py:357 | assigning to a key keeps the dict's keys unique and in order, and appends the key when it is new |
| Xml.AssignMap | CICDScript.py:357 | assigning to a key changes the mapping at that key only |
| Xml.AsMapKeys | CICDScript.py:357 | the mapping of an attribute list has exactly the list's keys as its domain |
| Xml.AsMapGet | CICDScript.py:200 | looking a key up in the list agrees with the mapping: absent exactly when outside its domain, else the mapped value |
| Xml.Iter | CICDScript.py:228 | iteration starts with the element itself |
| Xml.IterAllAppend | CICDScript.py:228 | iterating two runs of siblings is iterating the first, then the second |
| Xml.IterChildOrder | CICDScript.py:228 | document order: the element, then the subtrees of the children before child `i`, then child `i`'s subtree, then the subtrees after it |
| Xml.IterAllMembers | CICDScript.py:228 | an element is met when iterating siblings exactly when it lies in the subtree of one of them |
| Xml.IterMembers | CICDScript.py:228 | iteration meets exactly the element itself and every element in the subtree of one of its children |
| Xml.Find | CICDScript.py:364 | `find` returns the first child with the tag: every earlier child has another tag; it returns none exactly when no child has the tag |
| Template.FieldValue | CICDScript.py:355 | a replacement field resolves exactly when it is a keyword name present in the context, and then to that key's value |
| Template.FormatUnparse | CICDScript.py:355-357 | formatting the rendered form of literals and keyword fields gives each literal and each field's value in order, and fails exactly when a field's key is missing |
| Template.FormatPlain | CICDScript.py:355 | text without braces is unchanged under any context |
| Template.FormatReleaseWith | CICDScript.py:355 | `{env}-release` with `env` bound to any value `v` becomes `v-release` |
| Template.FormatMissingKeyExample | CICDScript.py:355 | `{env}-release` with no `env` fails with the missing key named |
| Template.FormatPositionalExample | CICDScript.py:355 | a numeric field fails, because there are no positional arguments |
| Template.FormatStrayBraceExample | CICDScript.py:355 | a single closing brace is a syntax error |
| Template.ParseExtArg | CICDScript.py:349 | an external argument that parses is its key, '=' and its value, neither holding another '='; otherwise it fails naming the argument |
| Template.ParseExtArgJoin | CICDScript.py:349 | every `key=value` with exactly one '=' parses back to its key and value |
| Template.ParseExtArgs | CICDScript.py:349 | the arguments parse exactly when each does, to one pair per argument in order |
| Template.UpdateAllKeys | CICDScript.py:349 | updating the root attributes keeps them a dict and keeps the root's keys first, in their order |
| Template.UpdateAllMap | CICDScript.py:349 | after the update, the mapping is the root's overridden by the pairs, with the later of two equal keys winning |
| Template.Merge | CICDScript.py:348-349 | with no external arguments the context is the root's attributes; otherwise the merge succeeds exactly when every argument parses |
| Template.MergeWins | CICDScript.py:345-349 | the merged context keeps the root's keys first and maps each key to its external value when one is given, else to the root's value |
| Template.FormatAttrs | CICDScript.py:356-357 | formatted attributes keep their keys and order, and each value is its original, formatted |
| Template.FormatTree | CICDScript.py:353-357 | a formatted subtree has the same shape and tags, and every text and attribute value is its original, formatted under the context |
| Template.FormatForest | CICDScript.py:353-357 | a formatted list of subtrees has one templated subtree per original, in order |
| Template.FormatTreeComplete | CICDScript.py:353-357 | any templating of a subtree is the one `FormatTree` produces, so substitution has a single result |
| Template.FormatOwnAttrs | CICDScript.py:356-357 | rewriting the root's own attributes keeps their keys and order |
| Template.FormatOwnAttrsValues | CICDScript.py:356-357 | rewriting from position `i` leaves the earlier values alone, and each value from `i` on is its original formatted against the dict as rewritten so far: the values before it new, itself and those after it original |
| Template.ProduceXmlRoot | CICDScript.py:340-359 | the loop that rewrites the root's attributes in place returns exactly the root `ProduceRoot` specifies |
| Template.ProduceRootWithoutContext | CICDScript.py:352 | with no root attributes and no arguments, the tree is returned untouched, placeholders included |
| Template.ProduceRootShape | CICDScript.py:352-357 | a produced root keeps its tag, its children's number and the merged keys; its text is formatted under the merged context; each root attribute value is its original formatted against the dict as rewritten up to it; every child subtree is formatted under the fully rewritten root attributes |
| Template.ProduceRootAliasExample | CICDScript.py:345-357 | a child's `{b}` under a root with `a="1"` and `b="{a}"` becomes `1`, because the root's attributes are rewritten while they serve as context |
| Processor.Required | CICDScript.py:200 | a required attribute is read exactly when present, and otherwise fails naming the key |
| Processor.Plan | CICDScript.py:199-234 | a dependency asks to copy `dest` from `path` with the message "Copied from " + path; a build executable asks to run the first glob match of `path`, with `args` defaulting to empty; every other tag asks for nothing |
| Processor.ProcessNode | CICDScript.py:229-234 | handling one node carries out exactly the step `Step` specifies: nothing for other tags, the copy for a dependency, the run for a build executable, which adds the directories the program creates when it succeeds |
| Processor.WalkPerformsPlan | CICDScript.py:227-234 | a successful walk attempted exactly the planned actions, in document order |
| Processor.WalkFollowsPlan | CICDScript.py:227-234 | when every node's action can be read, the actions a walk attempted are a prefix of the plan |
| Processor.WalkIgnoresOtherTags | CICDScript.py:233-234 | nodes that are neither dependencies nor build executables do nothing and cannot fail |
| Processor.WalkAppend | CICDScript.py:227-234 | walking two runs of nodes is walking the first, then the second from the directories it left; when the first fails, the walk ends there with its result, directories and actions |
| Processor.Process | CICDScript.py:227-234 | the loop over `iter()` gives exactly the result, directories and actions of `Walk` over the nodes in document order |
| Processor.BuildNeedsTemplate | CICDScript.py:289 | a templating failure ends the build before any action is attempted and leaves the directories unchanged |
| Processor.BuildNeedsSection | CICDScript.py:364 | a templated root without a `build` child ends the build with an error before any action is attempted |
| Processor.BuildPerformsPlan | CICDScript.py:364 | a successful build found the root's first `build` child and attempted exactly the actions planned for that section, in document order |

## Left out

- Subprocess calls (`svn`, build executables): each is modelled by whether its exact command line exits 0 and, for `svn ls`, by its output lines. Process streams, the console output and `sys.exit` are not modelled.
- `__runExecutable`: the change of working directory and its restoration, and `shlex` tokenisation, are not modelled. A run is an oracle on the first glob match and the argument string. Every failure, including a missing `path` and an empty glob, ends the walk with an error.
- Filesystem I/O is modelled by oracles: `glob.glob`, `os.listdir`, `os.mkdir`, and the existence of directories (`os.path.isdir` as set membership, without path normalisation). `shutil.copy` and `shutil.copytree` are modelled by the path they return and the directories they create: `copytree` recreates the target and the source's directories below it, as the directory set records them. Their own I/O errors are not modelled, except copying a directory onto a file name.
- The glob oracle does not see files created during the run: it is fixed for the whole run.
- Paths are POSIX: `os.sep` is '/'. The runner's check for a trailing '\\' is kept as written.
- Paths.StripExt: models `os.path.splitext` as "strip the last `.suffix` of the base name, ignoring leading dots". Its other corner cases are not modelled.
- Template.Format: attribute access, indexing, conversions and format specs in a field (`.`, `[`, `!`, `:`) always fail. Python evaluates some of these successfully.
- The `VCSInterface` base class: it is used only through `SvnController`, and there is one implementation.
- `Deployer.process`: the timestamp, the archive, the deploy copy and the path-record file are not modelled; this model covers the build phase only.
- `MasterProcessor`: argument parsing, stream and log-file set-up, and XML parsing (`ET.parse`) are not modelled. `Build` takes a parsed root.
- Locale decoding of `svn ls` output: listing output is given as lines of text.
- Templating rebuilds the tree as a value instead of mutating nodes in place. It visits the nodes in the same order and uses the same context at each node. `ProduceXmlRoot` keeps the in-place update only for the root's own attributes, where the aliasing is observable.
- Members that only compute have no contract of their own. The lemmas and methods named here state their properties:
  - `Svn.ImportTarget`: `Svn.ImportTargetIsChild`.
  - `Paths.Basename`: `Paths.BasenameIsLastComponent`.
  - `Svn.URLCheck`: `Svn.URLCheckIsPrefixTest` and `Svn.Classify`.
  - `Svn.AuthArgs`: `Svn.AuthArgsCarryCredentials`, `Svn.PasswordWithoutUserIgnored` and `Svn.SvnController.constructor`.
  - `Copier.CopyFromFsToVcs`: `Copier.ImportAll` and `Copier.CopyToRepository`.
  - `Copier.FsToFsEffect`: `Copier.FsToFsCases` and `Copier.CopyFromFsToFs`.
  - `Copier.CopyEffect`: `Copier.Copy`, `Copier.CopyFromRepository` and `Copier.CopyToRepository`.
  - `Copier.VacantNameAt`: `Copier.GetVacantName`, `Copier.ListEntries`, `Copier.VacantNameAtSource` and `Copier.VacantName`.
  - `Template.Format`: `Template.FormatUnparse`, `Template.FieldValue`, `Template.FormatPlain`, `Template.FormatReleaseWith`, `Template.FormatMissingKeyExample`, `Template.FormatPositionalExample` and `Template.FormatStrayBraceExample`.
  - `Template.ProduceRoot`: `Template.ProduceXmlRoot`, `Template.ProduceRootShape`, `Template.ProduceRootWithoutContext` and `Template.ProduceRootAliasExample`.
  - `Processor.Perform` and `Processor.Step`: `Processor.ProcessNode`.
  - `Processor.Walk`: `Processor.Process`, `Processor.WalkPerformsPlan`, `Processor.WalkFollowsPlan`, `Processor.WalkIgnoresOtherTags` and `Processor.WalkAppend`.
  - `Processor.Build`: `Processor.BuildNeedsTemplate`, `Processor.BuildNeedsSection` and `Processor.BuildPerformsPlan`.
