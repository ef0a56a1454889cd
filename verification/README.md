# KiCI in Dafny

A model of the parts of KiCI that must agree with each other, across machines,
across callbacks and across processes, with proofs that they do, or of exactly
when they do. `dafny verify dfyconfig.toml` checks the whole project.

| files | what they model |
|---|---|
| `EcmaRegExp`, `Glob`, `Whitespace`, `KiciIgnore` | `.kici/.kiciignore`: patterns compiled to regular expressions, and the matcher over them |
| `SourceTree`, `LineEndings`, `SourceDigest`, `PosixPath`, `DigestAgreement` | the `.kici/` source digest: which files it covers, its hash input, and whether an agent reproduces it |
| `TarWalk` | the bounded-concurrency walk that fills node-tar's caches |
| `CoalescingCache`, `LockFileCache`, `ContentRequirementsCache`, `LockFile` | two coalescing caches as one protocol, and the validation of lock files |
| `Labels`, `LabelMatch` | label selectors over memoized `RegExp` objects |
| `IdleShutdown`, `AgentServer` | the agent's job acceptance, draining and idle shutdown |
| `VitestWorkers` | the lock-free claim on a machine-wide worker budget |
| `UpstreamOutputs` | how the outputs of needed jobs are selected and folded |
| `ShellQuote`, `SshOption`, `Tmp`, `ReleaseVersion`, `Strings` | printers checked against readers, temp scopes, version order, string operations |

Code that changes state is written as classes and loops, each proved against a
function or relation about which the properties are then proved. Callbacks,
handlers and file-system steps are single steps of a machine; the theorems range
over every sequence of them.

Where the code does not keep a promise on every input, the project says exactly
when it does:

- **Digest agreement.** The tarball drops every path that *starts with*
  `.kici/node_modules`, while the digest excludes the directory of that name. A
  file `.kici/node_modules.md` is hashed, earns no warning and never reaches the
  agent. Compiler and agent agree if and only if no hashed path starts with that
  text (`DigestAgreement.AgreementIff`), whatever happens to the files the rules
  exclude; a routine run without such a path always agrees (`RoutineRunAgrees`).
  The comments that call the tarball a superset of the hashed set do not hold for
  such a file.
- **One job at a time.** `JobRunner.execute` awaits twice before it enters a job
  in `activeJobs`, and until then the agent looks idle to its own handlers. Two
  dispatches in that window are both acked, and a single-job agent that
  re-registers in it shuts down under the job it accepted. At most one job runs
  if and only if nothing is accepted in such a window
  (`AgentServer.OneJobIffNoOverlap`). Names in `activeJobs` are job ids, so a job
  accepted twice at once can hide its twin: every active job is named throughout
  a run if and only if no job ends while its twin is active (`NamedIffNoTwinEnds`,
  `TwinsHideEachOther`). No timer is pending over a job if and only if no handler
  is about to arm one over a job `activeJobs` does not show (`TimerClearIff`), and
  an unasked shutdown abandons an accepted job if and only if there is such a job
  (`IdleShutdownAbandonsOnlyUnseen`).
- **Cache keys.** The parts of a key are joined by colons. A key belongs to one
  request alone if and only if no part holds a colon
  (`CoalescingCache.SharingIffColon`); colon-free leading parts are enough to keep
  requests of one cache apart.
- **Memoized regexes.** The memo key joins flags and source by a space. With a
  space in the flags, which the schema allows, a matcher whose regex cannot
  compile is answered by another's if that one is already in the table; otherwise
  the memo table is invisible (`LabelMatch.RegexCache.MatcherMatches`,
  `ClashAnswersForAnother`).
- **Splitting matchers.** `partitionMatchers` looks at `kind` and not at the rest:
  a `regex` element without a source splits into a pattern that matches any host.
  What it takes and the schema refuses is stated exactly
  (`LabelMatch.SplitterIsLooserIff`); validation before caching keeps it out of
  every lock a caller is given (`LockFileCache.EveryServedLockRoutes`).
- **`**` and line breaks.** `**` compiles to `.*`, which stops at a line
  terminator; the documented reading does not. The two agree on a path, over all
  patterns, if and only if it holds no line terminator (`Glob.ReadingsAgreeIff`).
- **Version order.** Mixing all-digit prereleases with others can make a cycle;
  the order is transitive exactly when no prerelease is enclosed the wrong way
  round (`ReleaseVersion.TransitiveIff`).

One limit is approached from both sides without being met. The digest's parts are
delimited by NULs. The hash input tells trees apart when no text holds a NUL
followed by `.kici/` (`SourceDigest.InputIffContent`); one that goes on from there
like a member can imitate it (`SourceDigest.NulsImitateAnotherTree`). Agreement
between compiler and agent does not depend on it.

## Model

| member | source | states |
|---|---|---|
| Glob.GlobToRegExpSource | packages/core/src/kici-ignore.ts:134-154 | the loop emits, wildcard by wildcard, the text that the glob stands for |
| Glob.AnchoredMeaning | packages/core/src/kici-ignore.ts:175-178 | the anchored text is a valid ECMAScript pattern and accepts exactly the paths a direct glob matcher matches whole, for every pattern and path |
| Glob.FloatingMeaning | packages/core/src/kici-ignore.ts:175-178 | the unanchored text accepts exactly the paths with a suffix, beginning at a segment boundary, that the glob matches |
| Glob.OneWildcard | packages/core/src/kici-ignore.ts:35-35 | `?` matches one character that is no slash, `*` what holds no slash |
| Glob.GlobConcat | packages/core/src/kici-ignore.ts:35-35 | two globs one after the other match exactly what splits between them, unless a star would be torn apart |
| Glob.BareDependsOnLastSegment | packages/core/src/kici-ignore.ts:33-35 | a pattern without a slash or `**` looks at the last segment of the path and nothing else |
| Glob.CodeAndDocumentation | packages/core/src/kici-ignore.ts:35-35 | whatever the compiled pattern matches is documented to match, and on a path without line terminators the two readings agree |
| Glob.ReadingsAgreeIff | packages/core/src/kici-ignore.ts:139-142 | the compiled and the documented readings agree on a path, over all patterns, exactly when it holds no line terminator |
| Glob.LineBreakPartsThem | packages/core/src/kici-ignore.ts:139-142 | a path that is a line break is one they part on |
| Glob.LiteralMatchesItself | packages/core/src/kici-ignore.ts:148-151 | a pattern without wildcards matches itself only, metacharacters included |
| KiciIgnore.ParseKiciIgnore | packages/core/src/kici-ignore.ts:118-126 | yields the trimmed lines that are neither blank nor comments, unescaping a leading `#` |
| KiciIgnore.FileDeclares | packages/core/src/kici-ignore.ts:111-126 | a file written line by line declares exactly the patterns written in it, in order; comments, blank lines and outer white space say nothing, and a leading `#` can be escaped |
| Whitespace.TrimIs | packages/core/src/kici-ignore.ts:121-121 | trimming takes away exactly the outer white space |
| KiciIgnore.CrlfDeclaresTheSame | packages/core/src/kici-ignore.ts:118-126 | a CRLF checkout of the ignore file declares the same patterns |
| KiciIgnore.CompilePattern | packages/core/src/kici-ignore.ts:156-180 | null exactly when nothing is left to match; otherwise the compiled pattern accepts exactly what the pattern, read as a glob, matches |
| KiciIgnore.WrittenReadsBack | packages/core/src/kici-ignore.ts:156-180 | every rule can be written and is read back: what negates, what anchors, what asks for a directory, and the body |
| KiciIgnore.NamesMatchByPlace | packages/core/src/kici-ignore.ts:33-35 | a bare name matches at any depth, one with a leading slash at the top alone, and a literal with a slash inside only where it says |
| KiciIgnore.DecideSelf | packages/core/src/kici-ignore.ts:199-207 | the loop agrees with the verdict of the rules on the path itself |
| KiciIgnore.LastApplicableDecides | packages/core/src/kici-ignore.ts:200-207 | of the patterns that apply the last decides: it excludes unless it is negated |
| KiciIgnore.IsExcluded | packages/core/src/kici-ignore.ts:189-218 | a path is excluded exactly when it or some directory above it is excluded by itself |
| KiciIgnore.ExcludedByParent | packages/core/src/kici-ignore.ts:209-217 | a path is excluded exactly when the directory it stands in is, or it is itself |
| KiciIgnore.ExclusionIsClosed | packages/core/src/kici-ignore.ts:209-217 | everything beneath an excluded directory is excluded, whatever later patterns re-include |
| KiciIgnore.AnyMatchExcludes | packages/core/src/kici-ignore.ts:200-207 | without a re-including pattern, any match excludes |
| KiciIgnore.NoMatchKeeps | packages/core/src/kici-ignore.ts:200-207 | a path no pattern applies to is kept |
| KiciIgnore.FindUncoveredRunRewrittenPaths | packages/core/src/kici-ignore.ts:227-236 | returns, sorted and once each, exactly the run-rewritten paths the patterns do not exclude |
| KiciIgnore.CoveringMeans | packages/core/src/kici-ignore.ts:227-236 | covering `node_modules/` is excluding it as a directory, covering the other two is excluding them as files |
| KiciIgnore.DefaultsCoverRunRewritten | packages/core/src/kici-source-digest.ts:109-111 | the default patterns cover every run-rewritten path |
| SourceTree.Collector.IsDropped | packages/core/src/kici-source-digest.ts:213-217 | an entry is dropped exactly when it is not the pinned root ignore file and a forced or declared pattern excludes it |
| SourceTree.Collector.Walk | packages/core/src/kici-source-digest.ts:207-225 | the pruning walk pushes, in reading order, exactly what filtering the whole subtree would keep |
| SourceTree.DroppedSubtree | packages/core/src/kici-source-digest.ts:217-219 | nothing beneath a dropped directory would have survived the filter |
| SourceTree.CollectSourcePaths | packages/core/src/kici-source-digest.ts:202-229 | the members are the sorted list, each once, of all leaves the filter keeps; directory order does not matter |
| SourceTree.LeavesAreWhatStands | packages/core/src/kici-source-digest.ts:202-229 | the leaves are exactly what is no directory, each at the path of names that leads down to it |
| SourceTree.ListsUnique | packages/core/src/kici-source-digest.ts:228-228 | a member set has one sorted listing |
| LineEndings.NormalizeIdempotent | packages/core/src/crypto.ts:27-29 | normalizing twice is normalizing once |
| LineEndings.EachBreakBecomesLf | packages/core/src/crypto.ts:16-29 | CRLF, a lone CR and a lone LF each become one LF, whatever stands around them |
| LineEndings.NormalizeConcat | packages/core/src/crypto.ts:16-29 | a text is normalized piece by piece, as long as no CRLF is torn apart |
| LineEndings.NormalizeLeavesNoCr | packages/core/src/crypto.ts:27-29 | no carriage return is left |
| LineEndings.NormalizeUndoesCrlf | packages/core/src/crypto.ts:16-29 | normalizing undoes an LF-to-CRLF conversion |
| LineEndings.CheckoutIsInvisible | packages/core/src/crypto.ts:16-29 | a text and its CRLF checkout normalize alike |
| SourceDigest.LoadKiciIgnoreRules | packages/core/src/kici-source-digest.ts:97-120 | a readable file is the whole pattern list, otherwise the defaults stand; the missing run-rewritten paths are exactly those not covered |
| SourceDigest.DeclaredOrDefault | packages/core/src/kici-source-digest.ts:97-120 | the text at the root ignore file, read through a link if it is one, is the whole list; with none to read the defaults stand |
| SourceDigest.HashKiciSourceTree | packages/core/src/kici-source-digest.ts:250-270 | hashes an input determined by the tree alone, or returns the empty string for a missing directory |
| SourceDigest.RepointingMovesTheInput | packages/core/src/kici-source-digest.ts:220-242 | two trees that differ in the target of one hashed link alone have one input exactly when the targets are the same, line endings aside |
| SourceDigest.EditingMovesTheInput | packages/core/src/kici-source-digest.ts:250-270 | two trees that differ in the text of one hashed file alone have one input exactly when the texts are the same, line endings aside |
| SourceDigest.HashedAsText | packages/core/src/kici-source-digest.ts:238-247 | a link is hashed as `symlink:` and its target, a file that cannot be read as an empty one |
| SourceDigest.HashInputUnique | packages/core/src/kici-source-digest.ts:250-270 | a tree has one hash input |
| SourceDigest.EncodeDetermines | packages/core/src/kici-source-digest.ts:267-269 | members whose texts hold no NUL followed by `.kici/` encode alike exactly when they are alike: the encoding is uniquely decodable |
| SourceDigest.NulsAreAmbiguous | packages/core/src/kici-source-digest.ts:267-267 | one part whose text holds a delimiter encodes as two parts do, whatever the parts |
| SourceDigest.NulsImitateAnotherTree | packages/core/src/kici-source-digest.ts:250-270 | for any two ordinary names and texts there is a tree of one file and a tree of two that are hashed differently but have one hash input |
| SourceDigest.InputIffContent | packages/core/src/kici-source-digest.ts:250-270 | for trees whose texts hold no NUL followed by `.kici/` the inputs are equal exactly when the maps from member to normalized contribution are |
| SourceDigest.NulFreeIsSealed | packages/core/src/kici-source-digest.ts:267-267 | a text without NULs is such a text |
| SourceDigest.LessContentOtherInput | packages/core/src/kici-source-digest.ts:250-270 | a tree that hashes only some of what another hashes has a shorter input, whatever the texts hold |
| SourceDigest.WritingTheLockMovesNothing | packages/core/src/kici-source-digest.ts:133-149 | writing or deleting the lock file never changes the hash input |
| SourceDigest.LockFileNeverHashed | packages/core/src/kici-ignore.ts:67-78 | the lock file is excluded whatever the patterns say |
| SourceDigest.LinkedModulesExcluded | packages/core/src/kici-ignore.ts:42-49 | under the defaults `node_modules` is left out as a directory or a link to one, and hashed as anything else |
| SourceDigest.IgnoreFileAlwaysHashed | packages/core/src/kici-ignore.ts:100-109 | behind every hash input of a tree whose root ignore file is no directory stands a listing that holds it with its normalized text, whatever the patterns say |
| SourceDigest.EditingTheRulesMovesTheInput | packages/core/src/kici-ignore.ts:103-107 | two trees whose ignore files differ, line endings aside, have different inputs |
| PosixPath.NormalizeTellsEscape | packages/core/src/kici-source-digest.ts:304-305 | the twice-normalized path begins with `..` exactly when walking its segments goes above the start at some prefix |
| DigestAgreement.EscapesIffClimbsOut | packages/core/src/kici-source-digest.ts:300-306 | for a target that is not absolute the answer is `escapes` exactly when the depth count from the member's directory goes below zero at some prefix |
| DigestAgreement.AbsoluteIffRooted | packages/core/src/kici-source-digest.ts:300-306 | the answer is `absolute` exactly for a target with a leading slash or a drive letter |
| PosixPath.DirnameDropsTheName | packages/core/src/kici-source-digest.ts:303-305 | the directory of a path is what stands before its last slash |
| DigestAgreement.RunRewrittenPlaces | packages/core/src/kici-source-digest.ts:341-347 | which paths lie at or under a run-rewritten one |
| DigestAgreement.RunRewrittenTarget | packages/core/src/kici-source-digest.ts:341-347 | the path answered is the one that covers the member |
| DigestAgreement.CollectSourceSymlinks | packages/core/src/kici-source-digest.ts:314-338 | returns the links among the sorted members, with their targets |
| DigestAgreement.LinksInOrder | packages/core/src/kici-source-digest.ts:308-338 | the links stand in ascending order of member, once each |
| DigestAgreement.FindDigestReproducibilityWarnings | packages/core/src/kici-source-digest.ts:366-409 | returns the warnings for rewritten paths, then those for links |
| DigestAgreement.WarningsInOrder | packages/core/src/kici-source-digest.ts:366-409 | first the warnings for rewritten paths, then those for links, each kind at most once a member and in ascending order of member |
| DigestAgreement.WarningsAreEarned | packages/core/src/kici-source-digest.ts:349-365 | the warnings are exactly those some hashed member earns |
| DigestAgreement.NoWarningsMeansReproducible | packages/core/src/kici-source-digest.ts:349-365 | with no missing path, no warning is given exactly when no hashed member is rewritten by a run or is a link the tarball cannot carry |
| DigestAgreement.SamePatterns | packages/core/src/kici-source-digest.ts:97-111 | after pack, extract, checkout and the run, which may do as they like with whatever the rules exclude, the agent reads the same rules |
| DigestAgreement.AgentContent | packages/core/src/kici-source-digest.ts:243-270 | what the agent hashes is what the compiler hashed, less what the tarball filter dropped, whatever became of the excluded files |
| DigestAgreement.AgreementIff | packages/core/src/kici-source-digest.ts:122-131 | with nothing missing and no hashed member that earns a warning, compiler and agent have the same hash input if and only if no hashed path starts with the tarball's excluded prefix; files the rules exclude may change, appear or go |
| DigestAgreement.SilenceMeansAgreementIff | packages/core/src/kici-source-digest.ts:349-409 | the same read off the reports: nothing missing and an empty warning list |
| DigestAgreement.RoutineRunAgrees | packages/core/src/kici-source-digest.ts:133-167 | without an ignore file the hash input survives whatever becomes of `types/`, `kici.lock.json`, `pnpm-lock.yaml` and the run-rewritten paths, if the tarball carries the rest, CRLF checkout included |
| DigestAgreement.UntouchedByRules | packages/core/src/kici-ignore.ts:49-64 | under the default patterns nothing a routine run touches is hashed |
| DigestAgreement.PrefixTestLosesAFile | packages/core/src/kici-source-digest.ts:122-131 | a file named `node_modules.md` is hashed, earns no warning and never reaches the agent |
| DigestAgreement.PrefixTestBreaksAgreement | packages/core/src/kici-source-digest.ts:349-365 | for that tree nothing is missing, the warning list is empty and the two hash inputs differ |
| TarWalk.Walk.Visit | packages/core/src/tar-single-link.ts:96-120 | a popped item is settled if cached, else asked for; nothing owed is forgotten |
| TarWalk.Walk.Pump | packages/core/src/tar-single-link.ts:121-128 | starts queued items while slots remain, and leaves the walk settled, or with calls in flight |
| TarWalk.Walk.Settle | packages/core/src/tar-single-link.ts:92-95 | gives a slot back and pumps, keeping the work left from growing |
| TarWalk.Walk.Answer | packages/core/src/tar-single-link.ts:99-119 | after every callback at most 16 slots are taken, and the walk is settled once or still has calls in flight; each strictly lowers the work left unless it fails; a failure rejects and later callbacks are ignored |
| TarWalk.FinishedIsExact | packages/core/src/tar-single-link.ts:122-122 | with nothing queued or in flight the caches hold exactly the reachable entries |
| TarWalk.ShownUnderItsPath | packages/core/src/tar-single-link.ts:46-50 | an entry below a root is shown to the filter under the path of the root, a slash and the names on the way joined by slashes; below `./` under the names alone |
| TarWalk.ModulesAreShownWhole | packages/core/src/tar-single-link.ts:46-50 | `node_modules` below the root `.kici` is shown as `.kici/node_modules` |
| TarWalk.ExactInPlainTerms | packages/core/src/tar-single-link.ts:99-119 | what is cached, said by disk, roots, names and filter alone |
| TarWalk.SingleLinkTarCaches | packages/core/src/tar-single-link.ts:71-132 | for callbacks in any order and any failures the walk always ends, settles once, rejects exactly when a call failed, which none does if every root exists and the event loop fails none, and otherwise caches exactly what stands where every directory on the way is let in by the filter under the path that leads to it, with link count 1 |
| CoalescingCache.OneFetchPerKey | packages/orchestrator/src/lockfile-cache.ts:86-101 | at most one keyed fetch per key is outstanding, over every history of calls, settlements, cleanups and evictions |
| CoalescingCache.CallsCoalesce | packages/orchestrator/src/lockfile-cache.ts:89-90 | while a fetch is outstanding every call for its key joins it and none begins |
| CoalescingCache.UnansweredIffWaiting | packages/orchestrator/src/lockfile-cache.ts:87-102 | a call goes unanswered exactly as long as the fetch it waits for is out |
| CoalescingCache.SettlingAnswersAll | packages/orchestrator/src/lockfile-cache.ts:87-102 | when a fetch settles everyone who waits for it is given what it settled with |
| CoalescingCache.ReadingThroughIsPrivate | packages/orchestrator/src/lockfile-cache.ts:73-78 | a call that may not be cached fetches for itself, and nothing of it is stored or counted |
| CoalescingCache.EntriesStay | packages/orchestrator/src/lockfile-cache.ts:80-84 | an entry stays until it is evicted or replaced; evicting it takes no other |
| CoalescingCache.FinallyKeepsTable | packages/orchestrator/src/lockfile-cache.ts:94-99 | clearing a key never removes another fetch's entry |
| CoalescingCache.FailureIsNotRetained | packages/orchestrator/src/lockfile-cache.ts:94-99 | once every fetch for a key has failed and been cleared, the next call begins a new one |
| CoalescingCache.AnswersAreFinal | packages/orchestrator/src/lockfile-cache.ts:97-101 | an answer given to a caller never changes, so all joiners of a fetch get one result |
| CoalescingCache.OnlyValuesAreStored | packages/orchestrator/src/lockfile-cache.ts:163-163 | the store holds only values that a fetch for that key gave: no rejection and no null |
| CoalescingCache.CachingIsTransparent | packages/orchestrator/src/lockfile-cache.ts:55-102 | if keys tell the requests apart and fetches answer as a direct call would, every caller gets the direct answer to its own request |
| CoalescingCache.EveryAnswerWasJudged | packages/orchestrator/src/lockfile-cache.ts:139-164 | whatever holds of all settled answers holds of every answer given to any caller |
| CoalescingCache.KeysAreInjective | packages/orchestrator/src/lockfile-cache.ts:71-71 | requests with colon-free leading components have different keys unless they are the same |
| CoalescingCache.SharingIffColon | packages/orchestrator/src/lockfile-cache.ts:71-71 | a key belongs to one request alone exactly when no component holds a colon |
| CoalescingCache.SharedKeyMisleads | packages/orchestrator/src/lockfile-cache.ts:71-84 | when two requests that differ share a key, the second caller is given the wrong answer |
| CoalescingCache.CountersAreExact | packages/orchestrator/src/lockfile-cache.ts:80-92 | hits count the calls answered from the store, misses the keyed fetches begun |
| CoalescingCache.FetchedOnceUnlessItFailed | packages/orchestrator/src/content-requirements-cache.ts:58-61 | while nothing is evicted a key is fetched again only after every earlier fetch for it failed |
| LockFileCache.LockFileCache.Get | packages/orchestrator/src/lockfile-cache.ts:55-102 | one call is one step of the protocol; only an explicit `cacheable: false` reads through |
| LockFileCache.LockFileCache.FetchAndValidate | packages/orchestrator/src/lockfile-cache.ts:104-165 | settles with the judgement of what was fetched: corrupt rejects, absent or failed is null, valid is stored under its key |
| LockFileCache.LockFileCache.Finally | packages/orchestrator/src/lockfile-cache.ts:97-99 | the cleanup is one step of the protocol |
| LockFileCache.EveryServedLockRoutes | packages/orchestrator/src/lockfile-cache.ts:139-164 | every lock any caller is ever given passed validation, so the splitter throws on no list of it and reads each element as the schema does |
| LockFileCache.LockCacheIsTransparent | packages/orchestrator/src/lockfile-cache.ts:45-102 | with colon-free provider and repository, every caller gets what a direct fetch and validation gives |
| LockFileCache.LockAnswerSays | packages/orchestrator/src/lockfile-cache.ts:112-165 | in that setting a caller is answered `null` exactly when the provider has no file or fails, a parse error exactly when the file is unparseable, the fault exactly when the lock fails that check, and otherwise the lock |
| ContentRequirementsCache.ContentRequirementsCache.Get | packages/orchestrator/src/content-requirements-cache.ts:67-97 | one call is one step of the protocol |
| ContentRequirementsCache.ContentRequirementsCache.FetchAndCache | packages/orchestrator/src/content-requirements-cache.ts:99-124 | stores every entry fetched, absent files included; an error rejects and stores nothing |
| ContentRequirementsCache.SplitRepoRejoins | packages/orchestrator/src/content-requirements-cache.ts:106-108 | the owner holds no slash and the two parts make the identifier again |
| ContentRequirementsCache.SplitAtSlash | packages/orchestrator/src/content-requirements-cache.ts:106-108 | `owner/name` with no slash in the owner is cut into the two |
| ContentRequirementsCache.ContentCacheIsTransparent | packages/orchestrator/src/content-requirements-cache.ts:58-97 | with all but the path colon-free, every caller gets what a direct call gives |
| ContentRequirementsCache.ContentAnswerSays | packages/orchestrator/src/content-requirements-cache.ts:99-124 | in that setting a caller is answered the entry the provider holds for that owner, name, path and commit, and an error exactly when the fetch fails |
| LockFile.SchemaWindow | packages/orchestrator/src/lockfile-validate.ts:46-90 | a lock is compatible exactly when its schema is at or above 42 and it asks for a whole reader version from 1 to 44; below 42 it is too old, else asking for no whole version from 1 on it has none, and asking for one above 44 it is too new |
| LockFile.ElementsAreMatchers | packages/orchestrator/src/lockfile-validate.ts:92-102 | accepts exactly the lists of well-formed matchers |
| LockFile.MatchersValid | packages/orchestrator/src/lockfile-validate.ts:110-132 | accepts exactly the locks whose static jobs hold only well-formed matcher lists |
| LockFile.JobListsAre | packages/orchestrator/src/lockfile-validate.ts:110-132 | a job's lists are those in its four fields, the include groups one by one |
| LockFile.RegexesSafe | packages/orchestrator/src/lockfile-redos-guard.ts:22-39 | accepts exactly the locks whose static jobs hold only safe regexes |
| LockFile.Validate | packages/orchestrator/src/lockfile-cache.ts:145-161 | reports the first failing check, in order |
| LockFile.FaultsAreFound | packages/orchestrator/src/lockfile-cache.ts:145-161 | inside the window a lock has a bad matcher exactly when a list of a static job, told by its field, holds an element that is none; failing that an unsafe regex exactly when such a list holds one; else no fault |
| LockFile.ValidLocksRoute | packages/orchestrator/src/lockfile-validate.ts:104-109 | the splitter throws on no matcher list of a static job of a valid lock, and takes each element for the matcher the schema takes it for |
| LockFile.RoutingAloneIsNotEnough | packages/orchestrator/src/lockfile-validate.ts:4-12 | a lock whose job asks for a regex with no source would route; only validation refuses it |
| Labels.CanonicalizeIdempotent | packages/engine/src/labels-canonical.ts:26-29 | folding is idempotent, for any lower-casing that is and that leaves no outer white space |
| Labels.CanonicalIffSpelledAlike | packages/engine/src/labels-canonical.ts:26-29 | two labels fold alike exactly when they are the same letters, case and outer white space aside, for any lower-casing |
| Labels.AsciiLowersLabels | packages/engine/src/labels-canonical.ts:26-29 | lower-casing ASCII letters is such a lower-casing |
| LabelMatch.RegExp.Test | packages/engine/src/labels-match.ts:50-52 | answers and moves `lastIndex` as section 22.2.7.2 of ECMA-262 says |
| LabelMatch.SearchFindsFirst | packages/engine/src/labels-match.ts:50-52 | a search ends where the first match from the index on ends, and finds nothing exactly when there is none |
| LabelMatch.StickyLooksOnce | packages/engine/src/regex-flags.ts:4-9 | a sticky one looks at the index alone |
| LabelMatch.StripKeepsTheRest | packages/engine/src/regex-flags.ts:21-26 | exactly `g` and `y` are dropped |
| LabelMatch.KeyDeterminesBoth | packages/engine/src/labels-match.ts:39-40 | a memo key determines flags and source when the flags hold no space |
| LabelMatch.KeysCanClash | packages/engine/src/labels-match.ts:39-40 | with a space in the flags two matchers share a key |
| LabelMatch.ClashAnswersForAnother | packages/engine/src/labels-match.ts:34-52 | once one of the two is compiled, the other, for which no regex can be built, is given its verdict |
| LabelMatch.RegexCache.CompileRegexMatcher | packages/engine/src/labels-match.ts:38-47 | returns a stateless regex, adds at most its own entry, and throws only if the regex does not compile and its key is free |
| LabelMatch.RegexCache.MatcherMatches | packages/engine/src/labels-match.ts:49-52 | in any state of the memo table the verdict is a fresh stateless regex's verdict exactly when no other matcher's regex sits under the key, which needs a space in the flags; otherwise it is that regex's |
| LabelMatch.RegexCache.MatcherSatisfiedBy | packages/engine/src/labels-match.ts:74-83 | the same for a label set: nothing carries over from one label to the next |
| LabelMatch.SatisfiedIffSomeMatch | packages/engine/src/labels-match.ts:74-83 | a label set satisfies a regex exactly when it matches somewhere in some label |
| LabelMatch.MemoizedGlobalAlternates | packages/engine/src/regex-flags.ts:4-9 | a memoized `g` regex that matches a whole text denies the same text next time |
| LabelMatch.CanonicalizeMatcherIdempotent | packages/engine/src/labels-match.ts:63-72 | folding a matcher is idempotent |
| LabelMatch.CanonicalRegexFolds | packages/engine/src/labels-match.ts:66-71 | folding a regex adds `i`, drops `g` and `y`, and keeps the source and every other flag |
| LabelMatch.ExactIgnoresSpelling | packages/engine/src/labels-match.ts:54-83 | an exact selector is met exactly when some host label is spelled like it |
| LabelMatch.PartitionMatchers | packages/engine/src/labels-match.ts:118-142 | throws exactly on a list with an element it cannot take apart, which is not every element the schema refuses; satisfying what it returns is satisfying every matcher it read |
| LabelMatch.MatcherIsSaid | packages/orchestrator/src/lockfile-validate.ts:92-102 | a matcher is read from exactly the fields that hold it |
| LabelMatch.SplitterIsLooserIff | packages/engine/src/labels-match.ts:125-140 | the splitter takes what the schema refuses exactly on a regex element whose source is no string, or whose flags are absent or null |
| LabelMatch.ValidElementsSplit | packages/engine/src/labels-match.ts:125-140 | what the schema admits splits without a throw, as the same matcher |
| LabelMatch.SourcelessRegexMatchesAny | packages/engine/src/labels-match.ts:131-137 | a regex element with nothing else splits without a throw and is satisfied by any host with a label |
| LabelMatch.TargetsIntersect | packages/engine/src/labels-match.ts:103-116 | a host is kept exactly when every target value admits it |
| LabelMatch.TargetsOnlyNarrow | packages/engine/src/labels-match.ts:91-96 | targets compose by intersection, so adding one only narrows |
| LabelMatch.TargetThrowsIff | packages/engine/src/labels-match.ts:103-116 | evaluation stops at the first value that does not admit the host, and gives its verdict or its throw |
| AgentServer.StepAnswers | packages/agent/src/server.ts:289-336 | a dispatch gets one answer at once, an ack exactly when not draining and with no active job |
| AgentServer.EveryDispatchIsAnsweredOnce | packages/agent/src/server.ts:280-418 | over any run the messages answer the dispatches one for one in order, and the executions are the acked jobs |
| AgentServer.DrainingNeverReverts | packages/agent/src/server.ts:600-603 | draining and shutdown never revert, and once draining nothing is accepted |
| AgentServer.ShutdownBegins | packages/agent/src/server.ts:402-508 | shutdown begins exactly on an explicit stop, or when no job is active and the agent is asked to drain, a drain check or the timer comes, or it learns it is idle with no time left to wait |
| AgentServer.DrainingBegins | packages/agent/src/server.ts:280-690 | draining begins exactly with a shutdown, a request to drain, the one job of a single-job agent, or a workspace that could not be reset where that is configured |
| AgentServer.ShuttingDownAcksNothing | packages/agent/src/server.ts:289-300 | once shutdown has begun the agent drains: every dispatch is rejected and none is acked, whatever comes |
| AgentServer.SingleJobAcceptsOnce | packages/agent/src/server.ts:338-344 | a single-job agent accepts at most one dispatch in its lifetime, across any reconnects |
| AgentServer.DrainIsAlwaysTold | packages/agent/src/server.ts:468-471 | a registered agent that drains has told this registration so, or is shutting down |
| AgentServer.AtMostOneTimer | packages/agent/src/server.ts:437-456 | at most one idle timer is pending, only on a scaler-managed agent, and the handlers can cancel it |
| AgentServer.ShutdownNeedsNoActiveJobs | packages/agent/src/server.ts:449-454 | no shutdown but an explicit stop begins while `activeJobs` holds a job |
| AgentServer.CompletionLeaves | packages/agent/src/server.ts:402-414 | finishing a job arms the timer or shuts down a registered, idle, scaler-managed agent |
| AgentServer.RegistrationLeaves | packages/agent/src/idle-shutdown.ts:15-45 | a registration that is not warm does the same, and a served single-job agent shuts down at once |
| AgentServer.WarmRegistrationWaits | packages/agent/src/idle-shutdown.ts:26-45 | joining a warm pool cancels the timer and begins no shutdown |
| AgentServer.NoStranding | packages/agent/src/server.ts:458-508 | a registered idle scaler-managed agent, last registered not warm or with a job finished since, always has its timer armed or its shutdown begun |
| AgentServer.LinkIsHistory | packages/agent/src/server.ts:458-508 | connected, warm and a job finished since are what the events say |
| AgentServer.ToldWhileDraining | packages/agent/src/server.ts:468-471 | a registration counts as told only while it stands and the agent drains |
| AgentServer.OneJobIffNoOverlap | packages/agent/src/execution/job-runner.ts:583-632 | at most one job runs at a time through a run exactly when no dispatch is accepted while an earlier job is still starting |
| AgentServer.TwoAtOnceAreBothAcked | packages/agent/src/server.ts:303-336 | two dispatches that arrive together are both acked |
| AgentServer.TimerClearIff | packages/agent/src/server.ts:467-508 | no timer is ever pending over a job exactly when no handler is about to arm one, as can be told before it, over a job missing from `activeJobs`, that is still starting or whose name a twin took away |
| AgentServer.IdleShutdownAbandonsOnlyUnseen | packages/agent/src/server.ts:449-454 | from any state, an unasked shutdown abandons an accepted job exactly when, before it, some job is missing from `activeJobs`: starting, unless its start just failed, or active without its name |
| AgentServer.NamedIffNoTwinEnds | packages/agent/src/execution/job-runner.ts:604-632 | `activeJobs` holds every active job throughout a run exactly when no job in it ends while the same job, accepted again, is active |
| AgentServer.StepTimers | packages/agent/src/server.ts:437-456 | a step arms a timer exactly when its handler will, told from the state before; otherwise the timers are left alone or cleared, an accepted dispatch clears and forgets them, and the one that is due fires |
| AgentServer.TwinsHideEachOther | packages/agent/src/execution/job-runner.ts:604-632 | a job accepted twice at once leaves `activeJobs` empty when the first ends, with the second still active |
| AgentServer.StartingAtOnceKeepsAll | packages/agent/src/server.ts:303-321 | if nothing happens between a job's acceptance and its start, one job runs at a time, no timer is armed over a job, and no unasked shutdown abandons one |
| AgentServer.ReconnectWhileStartingShutsDown | packages/agent/src/server.ts:472-478 | a single-job agent that re-registers while its accepted job is starting shuts down at once |
| AgentServer.Server.OnJobDispatch | packages/agent/src/server.ts:280-350 | the handler is one step of the machine |
| AgentServer.Server.OnExecutionSettled | packages/agent/src/server.ts:366-415 | the handler is one step of the machine |
| AgentServer.Server.OnRegisterAck | packages/agent/src/server.ts:467-508 | the handler is one step of the machine |
| AgentServer.Server.OnTimeout | packages/agent/src/server.ts:449-454 | the handler is one step of the machine |
| AgentServer.Server.OnDrainSignal | packages/agent/src/server.ts:672-690 | the handler is one step of the machine |
| VitestWorkers.ShareAntitone | hack/lib/vitest-workers.ts:52-56 | more claimants never widen a share |
| VitestWorkers.AloneTakesAllButOne | hack/lib/vitest-workers.ts:46-56 | a suite alone takes every core but one |
| VitestWorkers.ShareIsWidest | hack/lib/vitest-workers.ts:52-56 | one worker more for each claimant would exceed the budget |
| VitestWorkers.EqualSharesFit | hack/lib/vitest-workers.ts:51-56 | n equal shares take no more than the budget, or one worker each |
| VitestWorkers.ShareSumBound | hack/lib/vitest-workers.ts:18-23 | staggered claims total at most the budget times one plus the binary logarithm |
| VitestWorkers.ShareSumBeyond | hack/lib/vitest-workers.ts:20-23 | past the budget each further claimant adds one worker |
| VitestWorkers.StaggeredExamples | hack/lib/vitest-workers.ts:20-23 | 13 workers at four suites and 16 at seven, against a budget of 7 |
| VitestWorkers.Registry.LiveClaimants | hack/lib/vitest-workers.ts:79-100 | counts each entry that names a live process, and leaves exactly those and the dead ones it may not delete; a directory that cannot be read counts as empty |
| VitestWorkers.CountedAndKept | hack/lib/vitest-workers.ts:79-100 | an entry is counted exactly when it reads as a positive number of a live process, and stays exactly when it is counted or cannot be deleted |
| VitestWorkers.Registry.Claim | hack/lib/vitest-workers.ts:116-138 | claims nothing when opted out or in a pool worker; otherwise the caller registers if it can, is counted if it is registered, and gets the share of the count, all of the budget when the directory cannot be read |
| VitestWorkers.RunInv | hack/lib/vitest-workers.ts:67-138 | over every interleaving of registering, listing, probing, capping, exits and kills, no live entry is lost and every count covers the live claimants it saw |
| VitestWorkers.CapIsNotIdle | hack/lib/vitest-workers.ts:116-138 | a cap is at least the share of those listed and alive when its holder looked |
| VitestWorkers.ExitLeavesNothing | hack/lib/vitest-workers.ts:134-138 | who exits with a cap is in no later listing |
| VitestWorkers.IthHolderHoldsItsShare | hack/lib/vitest-workers.ts:106-115 | the i-th registered live holder of a cap holds at most the share of i claimants |
| VitestWorkers.OvershootIsLogarithmic | hack/lib/vitest-workers.ts:20-23 | however many hold caps at any moment, they total at most the budget times one plus the binary logarithm of their number, and past the budget one worker more for each |
| VitestWorkers.SimultaneousStartsFit | hack/lib/vitest-workers.ts:106-107 | when all register before any lists, the caps total at most the budget, or one worker each |
| ShellQuote.QuotedReadsBack | packages/core/src/shell-quote.ts:1-7 | a quoted value adds exactly itself to the word being read, wherever it stands |
| ShellQuote.QuotedIsOneWord | packages/core/src/shell-quote.ts:1-7 | the shell reads any quoted value as one word equal to it |
| ShellQuote.QuotedListReadsBack | packages/core/src/shell-quote.ts:1-7 | a quoted argument list reads back as the list |
| SshOption.SshFileListOption | packages/core/src/ssh-option.ts:16-24 | refuses exactly the lists holding a double quote; any other prints to text that the shell and then ssh read back as the option and the paths |
| SshOption.NoFileHoldsAQuote | packages/core/src/ssh-option.ts:13-14 | ssh reads no file name with a double quote in it, so none could be printed |
| Tmp.TriedAtMostOnce | packages/core/src/tmp.ts:50-58 | over any run each root's removal is tried at most once |
| Tmp.DisposeTriesTheRest | packages/core/src/tmp.ts:139-155 | a dispose tries the untried roots newest first and leaves persisted ones alone; afterwards none is left on the list |
| Tmp.PersistedOnesSurvive | packages/core/src/tmp.ts:117-155 | a directory made to persist is removed only if that one is cleaned up by name; every other one is once the scope is disposed of |
| Tmp.TempHandle.Cleanup | packages/core/src/tmp.ts:50-58 | removes the root on the first call only, whether or not that works |
| Tmp.TempScope.Mktemp | packages/core/src/tmp.ts:117-136 | registers a handle unless it is persisted |
| Tmp.TempScope.CleanupHandle | packages/core/src/tmp.ts:121-125 | takes the handle off the list and tries its root if no one has |
| Tmp.TempScope.Dispose | packages/core/src/tmp.ts:139-155 | tries every listed root newest first however many fail, and collects exactly the failures |
| Tmp.ThrowsIffOneFailed | packages/core/src/tmp.ts:151-153 | the collected failures are non-empty exactly when some removal failed |
| Tmp.FailuresInOrder | packages/core/src/tmp.ts:139-155 | the failures are collected as often as they happen and in the order tried |
| ReleaseVersion.ParseIff | packages/core/src/release-version.ts:2-2 | a string is a version exactly when it is the print of a well-formed one, and that one is read |
| ReleaseVersion.CompareReleaseVersions | packages/core/src/release-version.ts:15-29 | throws exactly when a string is no version; otherwise compares the three parts in turn, then the prereleases |
| ReleaseVersion.PartsDecideInTurn | packages/core/src/release-version.ts:15-29 | the larger major is later whatever follows, then the minor, then the patch part; between equal parts a prerelease comes before none, digits compare as numbers and others as strings |
| ReleaseVersion.NumeralOrder | packages/core/src/release-version.ts:17-20 | of two numerals of one length the smaller has the smaller digit where they first differ |
| ReleaseVersion.CompareFlips | packages/core/src/release-version.ts:11-29 | swapping the arguments flips the sign |
| ReleaseVersion.PrereleaseBelowItsBase | packages/core/src/release-version.ts:11-14 | a prerelease is below its own base and on the same side of every other base |
| ReleaseVersion.TransitiveIff | packages/core/src/release-version.ts:6-9 | the order is transitive on a set of versions exactly when no two all-digit prereleases enclose, as strings, one that is not, against their order as numbers |
| ReleaseVersion.OneKindIsOrdered | packages/core/src/release-version.ts:6-14 | it is so when all prereleases are digits and when none is |
| ReleaseVersion.MixedKindsCycle | packages/core/src/release-version.ts:6-9 | 10 < 1a < 9 < 10 |
| UpstreamOutputs.ChildPatternIsPrefix | packages/orchestrator/src/orchestrator-core.ts:1274-1277 | the escaped LIKE pattern selects exactly the names that start with the base name, a space and a parenthesis |
| UpstreamOutputs.SlicingInvertsNaming | packages/orchestrator/src/orchestrator-core.ts:1497-1503 | slicing a child's name gives back the suffix it was built from |
| UpstreamOutputs.BuildHostOutputsEnvelope | packages/orchestrator/src/orchestrator-core.ts:1456-1480 | the loops compute the fold of the children in host order |
| UpstreamOutputs.HostRowsAreFound | packages/orchestrator/src/orchestrator-core.ts:1315-1327 | each host child's row is found under its label, or the host its name spells, with its own outputs, and in the list its status says |
| UpstreamOutputs.SortInOrder | packages/orchestrator/src/orchestrator-core.ts:1456-1470 | the children are folded in name order |
| UpstreamOutputs.OutputsListValues | packages/orchestrator/src/orchestrator-core.ts:1449-1455 | each key lists its values across hosts, in host order |
| UpstreamOutputs.OneMoreHost | packages/orchestrator/src/orchestrator-core.ts:1471-1478 | the last host in order adds its value at the end of each list it has a key for, and changes no other |
| UpstreamOutputs.OutcomesAreListed | packages/orchestrator/src/orchestrator-core.ts:1470-1475 | the succeeded and failed hosts are those with that status, in host order |
| UpstreamOutputs.ByHostFindsEachHost | packages/orchestrator/src/orchestrator-core.ts:1471-1472 | with distinct hosts `byHost` holds each host's own outputs |
| UpstreamOutputs.ByHostHoldsHosts | packages/orchestrator/src/orchestrator-core.ts:1471-1472 | `byHost` has an entry for no other host |
| UpstreamOutputs.OutputsAreConserved | packages/orchestrator/src/orchestrator-core.ts:1471-1478 | the lists hold as many values as the hosts have entries |
| UpstreamOutputs.BuildMatrixOutputsEnvelope | packages/orchestrator/src/orchestrator-core.ts:1488-1505 | the loop computes the fold of the children in name order |
| UpstreamOutputs.MatrixRowsAreFound | packages/orchestrator/src/orchestrator-core.ts:1330-1337 | each matrix child's outputs are found under the suffix of its name, and every key of theirs is in `merged` |
| UpstreamOutputs.MergedTakesTheLast | packages/orchestrator/src/orchestrator-core.ts:1482-1487 | `merged` takes each key from the last child that defines it |
| UpstreamOutputs.ByMatrixFindsEachChild | packages/orchestrator/src/orchestrator-core.ts:1497-1503 | each child is found under the suffix it was named from |
| UpstreamOutputs.BuildUpstreamOutputsByBase | packages/orchestrator/src/orchestrator-core.ts:1302-1347 | the loop computes the shape of each base, later bases overriding |
| UpstreamOutputs.BuiltByBase | packages/orchestrator/src/orchestrator-core.ts:1302-1347 | the result holds exactly the bases asked for that have a shape, each with its own |
| UpstreamOutputs.ShapeTellsTheRows | packages/orchestrator/src/orchestrator-core.ts:1296-1344 | any host child makes a host envelope, failing that any matrix child with outputs a matrix envelope; failing both, the shape is flat exactly when the first row of that name that is no matrix child has outputs, and it is those |
| UpstreamOutputs.QueryLosesNothing | packages/orchestrator/src/orchestrator-core.ts:1552-1575 | building from the rows the query selects gives what building from every row would |
| UpstreamOutputs.QuerySelects | packages/orchestrator/src/orchestrator-core.ts:1552-1575 | the query selects exactly the rows of a base name and those whose name goes on from it with a space and a parenthesis |
| UpstreamOutputs.RowOrderDoesNotMatter | packages/orchestrator/src/orchestrator-core.ts:1555-1580 | with distinct names and hosts and a strict name order, the result does not depend on the order of the rows |

## Left out

- Characters: a string is a sequence of Unicode scalar values, where JavaScript has UTF-16 code units; lone surrogates are not modelled, and pattern compilation is read without flags.
- SHA-256, the `safe-regex` judgement, `localeCompare`, `process.kill`, directory reads and all other input and output are parameters; nothing is assumed of SHA-256, so statements are about its input.
- Unreadable directories: `hashKiciSourceTree` and the warning functions answer with nothing when a directory cannot be read; the model's trees can always be listed, and only file reads may fail.
- The file tree is finite, does not change while it is read, and holds directories, files and links with what they resolve to; other kinds of entry and case-insensitive file systems are not modelled.
- The run, the tarball, extraction and checkout are the relation `ArrivesAs`, over the files the rules keep: what a run rewrites, what packing drops, which links arrive changed, and LF-to-CRLF conversion. It says nothing of files the rules exclude, so those may change in any way; node-tar itself is not modelled.
- SourceDigest.InputIffContent: asks that no text hold a NUL followed by `.kici/`; which trees that hold one still have an input of their own is not characterised.
- The warning texts, `hashedSymlinkDriftNote`, `findKiciDir`, `normalizeRegexFlags`, the label formatters, `getStats` and the `kiciTmpBase` lookup: one branch each.
- TarWalk.SingleLinkTarCaches: POSIX paths only, the tree is static during the walk, and the filter judges all spellings of one entry alike; symbolic links are leaves.
- TarWalk.ExactInPlainTerms: asks that no listed name be empty or hold a slash, as none can.
- KiciIgnore.FileDeclares: a pattern that begins with `\#` has no line that declares it.
- KiciIgnore.WrittenReadsBack: an unrooted body that begins with `\!` has no pattern that means it, nor has an empty one.
- LabelMatch.SearchFindsFirst: with `u` or `v`, texts with surrogate pairs are left to `Search` itself.
- LabelMatch.SatisfiedIffSomeMatch: flags without `u` and `v`.
- CoalescingCache.CachingIsTransparent: credentials are not part of a request, as they are not part of a key; that the fetch does not depend on them is part of being a function of the request.
- LockFile.RegexesSafe: whether one regex is safe is a parameter.
- LockFile.SchemaWindow: numbers are reals, without NaN or infinities.
- Labels.CanonicalizeIdempotent: that `toLowerCase` is idempotent and leaves no outer white space on a trimmed string is asked of it, not proved from Unicode's tables.
- LabelMatch.PartitionMatchers: a `regex` element without a source is read as the empty pattern `new RegExp(undefined)` makes; that its memo key spells the source `undefined` is not modelled.
- LabelMatch.RegExp.Test: how a pattern matches at one index is a parameter; the search over indices and `lastIndex` are not.
- AgentServer.NoStranding: the time a timer takes, reboot requests, metrics and log transport are not modelled; a timer may fire at any moment after it is set.
- AgentServer.DrainIsAlwaysTold: a status handed to an open connection counts as told.
- VitestWorkers.RunInv: process ids are not reused, liveness probes are accurate, entries can be written and the directory listed, in one step each; `Registry.Claim` covers the calls where one of them fails.
- VitestWorkers.Registry.Claim: a registry directory that cannot be made ends the claim with an error, which is not modelled.
- ShellQuote.QuotedReadsBack: the reader refuses input that would expand, operate or end a command, instead of carrying it out.
- SshOption.SshFileListOption: ssh is modelled as the function's own description has it; tilde expansion comes after and is not part of this model.
- Tmp.TriedAtMostOnce: cleanups run one after another; two in flight at once are not modelled. Labels and base directories are left out.
- ReleaseVersion.CompareReleaseVersions: numeric parts are unbounded, where JavaScript rounds above 2^53.
- UpstreamOutputs.BuildUpstreamOutputsByBase: cells arrive parsed; `upstreamBaseNamesFromNeeds`, statuses, invoke results and secret outputs are not modelled, nor JavaScript's prototype keys.
- UpstreamOutputs.RowOrderDoesNotMatter: names are compared by any strict total order; `localeCompare` is one when no two names collate alike.
- The orchestrator's bootstrap, cluster, queue and webhook wiring, configuration schemas, command tables and transports: composition and declarations.
