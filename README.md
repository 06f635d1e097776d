# gitobjects core in Dafny

A model of the object layer of gitobjects, a Go library that reads a git
repository's objects by running `git` and parsing its output. The model
covers four parts.

- **Commits.** `Commit.Instantiate` runs `git cat-file -p <sha1>` and reads
  the header lines (`tree`, `parent`, `author`, `committer`) and then the
  message. `Commit.InstantiateTree` links a commit to its root tree through
  the repository's tree cache. Unlike `Tree.Instantiate` (tree.go:36-38),
  `Commit.Instantiate` has no `instantiated` guard: a second call appends
  the parents again (`CommitText.ApplyTwice`). The model follows the code.
  Modules: `Commits` (`commit.dfy`), with the text-level reading in
  `CommitText` (`commit_text.dfy`).
- **Trees and their cache.** `Tree.Instantiate` parses each listing line:
  a 52-byte metadata prefix, a tab, then the name. A child tree is looked
  up in the cache, or else created, cached and instantiated recursively.
  `Entry` gives an entry's kind and its instantiated child tree.
  `treeCacheConcurrentSafe` maps a sha1 to a tree and never evicts.
  Modules: `Objects` (`objects.dfy`), with the line format in
  `TreeListing` (`tree_listing.dfy`).
- **The blob walk.** `Tree.StreamBlobPathsUnique` walks depth first over
  instantiated trees. It sends each blob it reaches with its path, and it
  skips every entry whose sha1 is already in the caller's seen-map. Module:
  `BlobWalk` (`walk.dfy`).
- **The discovery pipeline of `StreamObjectsOfType`.** It has these stages:
  - the loose-object walk (`LooseObjects`, `loose.dfy`);
  - the pack-index glob and the `git show-index` reader (`PackIndex`,
    `packs.dfy`);
  - the per-id classifier that runs `git cat-file -t` (`Classifier`,
    `classify.dfy`);
  - the two fan-in merges (`FanIn`, `fanin.dfy`).

  Each stage is a sequence function that says what the stage sends and how
  it ends. For the loose walk, the pack stages and the classifier, the
  goroutine's loop is a method proved equal to that function. The fan-in
  forwarders are modelled by the function `FanIn.Interleave` alone, with
  no method, since each forwarder's loop only copies items.

How the model represents the system:

- **The runner.** The `git` runner is an oracle: `Repo.run` maps an argument
  vector to an output or a failure. `Repo.calls` records the commands run.
- **Panics.** A Go panic is one of two things:
  - a `requires`, when it guards the caller's own state: an entry with no
    child; a tree with no sha1 (`Tree.Instantiate`); a commit with no sha1
    (`Commit.Instantiate`, commit.go:33-35); a commit whose tree the caller
    already set with an earlier `InstantiateTree`; a commit whose tree is
    asked for before it was set (`Commit.Tree`, commit.go:84-91, whose two
    panics, no tree sha1 and tree not yet instantiated, both mean that
    `tree` is still nil);
  - a `Panicked` outcome, when the runner's output triggers it (a listing
    line too short to index byte 52, a header `tree` line without a value,
    a kind other than "tree" or "blob", a commit whose text had no `tree`
    line when its tree is asked for).
- **Cancellation.** A cancelled context is a budget: the number of
  cancellation checks that still find the context live (`Stages.Cancel`).
- **The scheduler.** A fan-in stage's interleaving is an input schedule.

Shared pieces:

- `Base` (`base.dfy`): runner results, errors and outcomes.
- `Text` (`text.dfy`): `strings.Split`, a join, the line scanner,
  `strings.TrimRight` for newlines and `filepath.Join`.
- `Stages` (`stages.dfy`): runs and cancellation.

## Model

| member | source | states |
|---|---|---|
| Text.Split | commit.go:44 | strings.Split gives at least one field and no field holds the separator |
| Text.JoinSplit | commit.go:44 | joining the fields of a split with the separator gives back the string |
| Text.SplitJoin | tree.go:55 | splitting fields joined by a separator they do not contain gives back the fields |
| Text.ScanLines | commit.go:40-43 | the scanner's lines never contain a newline |
| Text.ScanTerminatedLines | commit.go:40-43 | scanning newline-terminated lines gives back exactly those lines |
| Text.SplitCount | findobjects.go:121-122 | a split has exactly one field more than the string has separators |
| Text.PathJoin | tree.go:128-132 | the joined path starts with the parent path and ends with the name, with one slash between them when both are non-empty |
| Text.TrimTrailingNewlines | findobjects.go:218 | the result is a prefix of the input, does not end in a newline, and only newlines were removed |
| TreeListing.ParseLine | tree.go:49-86 | a line parses exactly when it is longer than 52 bytes, has a tab at byte 52, at least three metadata fields and kind tree or blob; byte 52 not a tab is the reported format error; the fields are the first three of the prefix split on spaces and the name is everything after the tab |
| TreeListing.ParseRenderLine | tree.go:49-59 | every entry git can print parses back from its line unchanged |
| CommitText.HeaderStep | commit.go:46-57 | one header line never touches the message, only appends to the parents, and changes them only when its key is "parent" |
| CommitText.ApplyTwice | commit.go:32-70 | reading the same lines again from the fields a first read produced changes only the parents, which get the header's parents appended once more, so a commit with parents is not left as it was |
| CommitText.HeaderAppliedSnoc | commit.go:45-58 | reading one more well-formed header line applies that line's switch case to the fields read so far |
| CommitText.RenderRoundTrip | commit.go:40-70 | for any printable commit, reading the text git prints for it gives its tree sha1, its parents in order, its author and committer lines and its message, with the message's inner newlines restored |
| CommitText.ValuesOfConcat | commit.go:45-58 | the values of one header key in two header blocks are the values in the first followed by those in the second |
| CommitText.WellFormedConcat | commit.go:45-58 | two header blocks together are free of the value-less "tree"/"parent" panic exactly when each is |
| CommitText.ParentValues | commit.go:49-50 | the printed parent lines are well formed, one per parent |
| Commits.Commit.Bare | findobjects.go:228-230 | a commit known only by its sha1: no tree, every read field empty |
| Commits.Commit.Instantiate | commit.go:32-78 | one `cat-file -p` call; a runner failure is reported and changes no field; otherwise it ends normally exactly when no header "tree"/"parent" line lacks a value, and the fields are then the old fields updated by every header line and then by the message lines |
| Commits.Commit.ReadLines | commit.go:41-69 | the scanner loop ends normally exactly when the header is well formed, with the fields the header and message give |
| Commits.Commit.ReadHeaderLine | commit.go:45-58 | one header line updates the fields as its switch case says and leaves the message and tree alone |
| Commits.Commit.ReadHeaderLineAt | commit.go:45-58 | after header line i the fields are those of lines 0..i, and the message is untouched |
| Commits.Commit.InstantiateTree | commit.go:94-113 | no tree sha1 is a panic with no runner call and nothing changed; otherwise a cached tree is taken with no runner call, whether or not it is instantiated; otherwise a new tree is cached and set on the commit before it is instantiated, so it stays set on failure; a failure is wrapped with the commit and tree sha1; for a new tree, as `Tree.Instantiate` gives it: one `cat-file -p` call, a runner failure leaves it empty, and otherwise its entries are resolved from the listing's lines up to the line the wrapped outcome stopped at; the cache only grows, every tree it gains is a new object, and on a normal end every one of them is instantiated |
| Objects.Entry.Type | entry.go:17-25 | "tree" exactly when the tree child is set, "blob" exactly when only the blob child is |
| Objects.Entry.TreeChild | entry.go:35-45 | on success the entry's tree is returned instantiated; on failure no tree and the error wrapped with the entry's sha1; an already instantiated tree costs no runner call; otherwise, as `Tree.Instantiate` gives it: one `cat-file -p` call, a runner failure adds no entry, and otherwise the listing's lines are resolved into entries up to the line the wrapped outcome stopped at; every tree the cache gains is a new object, and on a normal end every one of them is instantiated |
| Objects.ResolvedStays | tree.go:66-80 | an entry stays resolved against the cache while the cache only grows, as it does in Instantiate, which stores a child only under a missing key |
| Objects.Tree.constructor | tree.go:71-73 | a new tree knows only its sha1: no entries, not instantiated |
| Objects.Tree.Instantiate | tree.go:32-98 | idempotent once instantiated; otherwise one `cat-file -p` call first, a runner failure reported with nothing added, and each listing line turned into an entry whose child is the cached or a newly created tree, or a blob; it is instantiated exactly when it ends normally; the cache only grows, every tree it gains is a new object, and when the call ends normally every one of them is instantiated |
| Objects.Tree.ReadListing | tree.go:48-89 | the entries gain one resolved entry per line read, and a stop names the line that caused it; when every line was read, every tree the cache gained is instantiated |
| Objects.Tree.ReadLine | tree.go:49-88 | a line adds one entry built from its fields; a bad tab, a panic or a failing child tree adds none; a line that adds its entry leaves every tree the cache gained instantiated |
| Objects.Tree.ReadNext | tree.go:48-89 | one pass of the loop over the listing: a line that adds its entry extends the resolved entries to that line, any other line ends the pass with the stop it names; the trees cached since the loop began are all instantiated after each line that adds its entry, and none of them is the tree being read |
| Objects.ResolveChild | tree.go:67-80 | a cache hit gives the cached tree with no runner call; a miss caches a new tree for the id before instantiating it, and the child is instantiated exactly when that ends normally, along with every other tree cached during the call |
| Objects.TreeCache.constructor | tree_cache.go:13-17 | NewTreeCache is empty |
| Objects.TreeCache.Has | tree_cache.go:19-24 | true exactly when the key is present |
| Objects.TreeCache.Get | tree_cache.go:26-31 | the stored tree and true when present; no tree and false otherwise |
| Objects.TreeCache.Set | tree_cache.go:33-37 | binds the key to the tree and leaves every other key as it was |
| Objects.TreeCache.CreateIfNotPresent | tree_cache.go:39-52 | a present key returns its tree and leaves the cache unchanged; a missing one gets a new empty tree for that sha1, stored and returned |
| Objects.Repo.CmdOutput | repo.go:75-79 | returns what the runner gives for the arguments and records the call |
| BlobWalk.WalkEntries | tree.go:111-141 | the walk specification: a walk never removes a sha1 from the seen-set; a subtree walked below the empty path ends the walk in a panic once it returns, since that nested call closed both channels |
| BlobWalk.WalkSeenBound | tree.go:119-136 | a walk adds to the seen-set only sha1s of entries of the trees reachable from the root |
| BlobWalk.StreamBlobPathsUniqueAt | tree.go:111-141 | the recursive walk method sends, and leaves in the seen-set, exactly what the walk specification does |
| BlobWalk.VisitEntry | tree.go:119-139 | one entry of the walk: skipped when seen, else marked seen and then sent as a blob, descended into as an instantiated tree, or a panic, including the one after an empty-named subtree of the root |
| BlobWalk.StreamBlobPathsUnique | tree.go:100-109 | a walk from the root with the empty path, updating the caller's seen-map in place |
| BlobWalk.WalkSkip | tree.go:121-123 | an entry already seen sends nothing and changes nothing |
| BlobWalk.WalkBlob | tree.go:124-130 | an unseen blob is marked seen and sent with its path joined to the parent's |
| BlobWalk.WalkChild | tree.go:114-136 | an unseen instantiated subtree is marked seen and walked under the joined path with the shared seen-set; when that path is empty the walk panics after the subtree, with what the subtree sent |
| BlobWalk.EmptyNameSubtreePanics | tree.go:114-136 | a root whose only entry is an empty instantiated subtree with an empty name sends nothing and panics |
| BlobWalk.WalkStuck | tree.go:133-138 | an uninstantiated subtree or an entry with no child ends the walk as a panic |
| BlobWalk.WalkFresh | tree.go:119-139 | every blob sent was not in the seen-set before, is in it afterwards, and no blob is sent twice |
| BlobWalk.WalkVisits | tree.go:119-124 | a walk that ends normally has marked every entry it passed as seen |
| BlobWalk.WalkAllSeen | tree.go:119-123 | when all entries are already seen the walk sends nothing and leaves the seen-set alone |
| BlobWalk.SingleBlobWalk | tree.go:124-130 | a root with one blob sends that blob once under its bare name |
| Stages.CancelPrepend | findobjects.go:79-85 | cancelling a run after items that fit the budget sends those items and cancels the rest that many checks sooner |
| LooseObjects.LooseIdShape | findobjects.go:182-193 | what LooseId gives: a path has an id exactly when its name matches ^[0-9a-f]{38}$ and its parent's ^[0-9a-f]{2}$; the id is 40 hex digits made of the parent then the name |
| LooseObjects.LooseStage | findobjects.go:177-203 | the loose stage never sends more ids than its live checks |
| LooseObjects.LooseNeverFails | findobjects.go:177-202 | the loose stage never ends with a reported error: only normally, on cancellation too, or with the nil-information panic |
| LooseObjects.FindLooseObjectFiles | findobjects.go:162-203 | the walk function applied in walk order sends and ends exactly as the loose stage specifies |
| LooseObjects.LooseSentAreIds | findobjects.go:183-193 | every id sent is 40 lower-case hex digits |
| LooseObjects.LooseCancel | findobjects.go:187-192 | cancelled after `budget` checks, the walk sends the first `budget` ids of the uncancelled walk and stops without error when that walk sends more; otherwise it runs as if never cancelled |
| LooseObjects.LooseComplete | findobjects.go:177-197 | uncancelled, every file with an id is sent, in walk order, and the walk ends without error |
| PackIndex.FindPackFiles | findobjects.go:67-87 | every glob match is sent in order, up to the cancellation |
| PackIndex.IndexLineShape | findobjects.go:121-127 | a show-index line yields an id exactly when it holds exactly two spaces |
| PackIndex.IndexLineRoundTrip | findobjects.go:121-137 | a show-index line of three single-token fields yields its middle field |
| PackIndex.IndexLines | findobjects.go:120-138 | the scan over one file's lines never sends more than the budget, and reads every line when it does not stop |
| PackIndex.IndexLinesStop | findobjects.go:120-136 | a scan that stops early stops quietly on cancellation or with the error naming the first line that is not three fields |
| PackIndex.ReadIndex | findobjects.go:119-138 | the scanner loop sends and stops exactly as the scan over the lines specifies |
| PackIndex.Present | findobjects.go:140-155 | the collected errors are empty exactly when wait, close and scan all succeeded |
| PackIndex.PackStage | findobjects.go:95-158 | one pack processor never sends more ids than its live checks |
| PackIndex.PackStageErrors | findobjects.go:95-158 | a pack processor never panics, and reports only a setup failure, a malformed line or a non-empty set of finishing errors |
| PackIndex.ParsePackFile | findobjects.go:90-159 | one pack processor sends and ends exactly as the pack stage specifies: a setup failure, a bad line or a finishing error ends it with that error |
| PackIndex.PackStageNext | findobjects.go:95-158 | after one file the stage has sent that file's ids, and either stopped with that file's verdict or goes on with the next file |
| PackIndex.IndexLinesCancel | findobjects.go:130-136 | cancelled after `budget` checks, a file's scan sends the first `budget` ids and stops without error when the uncancelled scan sends more; otherwise it is the uncancelled scan |
| PackIndex.PackCancel | findobjects.go:130-136 | cancelled after `budget` checks, the pack stage sends the first `budget` ids of the uncancelled stage and stops without error when that stage sends more; otherwise it is the uncancelled stage |
| PackIndex.PackComplete | findobjects.go:95-158 | uncancelled, over files that open and finish cleanly, every id of every index is sent in order and the stage ends without error |
| PackIndex.IndexLinesComplete | findobjects.go:120-138 | uncancelled, a file whose lines all have three fields sends every line's id |
| Classifier.Judge | findobjects.go:213-233 | an id is forwarded only when the context is live |
| Classifier.JudgeCases | findobjects.go:213-233 | forwarded exactly for an id of the requested kind "commit" with a live context; passed over exactly for another kind; a runner failure exactly when `cat-file -t` fails; a quiet stop exactly when the kind matches and the context is done; a panic exactly when the kind matches a live context and is not "commit" |
| Classifier.Classified | findobjects.go:212-235 | the processor never sends more ids than its budget of live checks |
| Classifier.ParseObjectSha1 | findobjects.go:207-236 | the processor loop sends new bare commits for exactly the ids the classifier specification sends and ends the same way |
| Classifier.Examine | findobjects.go:213-233 | one id: one `cat-file -t` call, and a new bare commit exactly when the id is forwarded |
| Classifier.ClassifiedNext | findobjects.go:212-235 | the classification of a list continues at the next id as that id's verdict says |
| Classifier.ClassifiedSound | findobjects.go:218-219 | every id sent is one of the input ids and of the requested kind |
| Classifier.ClassifiedComplete | findobjects.go:212-235 | uncancelled, with `cat-file -t` answering for every id, a "commit" processor sends exactly the commits among its ids, in order, and ends without error |
| Classifier.ClassifiedCancel | findobjects.go:220-225 | cancelled after `budget` checks, the processor sends the first `budget` ids of its uncancelled run and stops without error when that run sends more, or sends exactly `budget` and then panics (the check precedes the panic); otherwise it is the uncancelled run |
| FanIn.Interleave | findobjects.go:245-250 | the forwarders deliver one item per scheduled step, each taken from the input the step names |
| FanIn.MergeIsUnion | findobjects.go:245-250 | a fan-in that drains all its inputs sends exactly their items, each as often as it was received |
| FanIn.MergeKeepsOrder | findobjects.go:273-278 | each forwarder delivers its input's items in the order received |
| FanIn.MergeObjectSha1s | findobjects.go:239-263 | the merged id stream holds exactly the loose ids and the ids of every pack processor |
| FanIn.MergeProcessedObjects | findobjects.go:267-291 | the response stream holds exactly the objects of every processor, each processor's in its own order |

## Left out

- Goroutines, channels, `sync.WaitGroup` and the locks of `Tree` and the tree cache are left out. Each operation runs to completion. A fan-in's interleaving is an input schedule.
- Channel closing is left out, including that only the final merger closes the error channel. The one exception is the blob walk's double close after an empty-named subtree of the root, which `BlobWalk.WalkEntries` models as a panic. After that panic the seen-set is the one the subtree left. Go marks further entries before it panics, but the panic ends the process, so no caller sees that set. The error channel is modelled as the `outcome` each stage ends with.
- The distribution of ids among the two pack processors and the four object processors is left out. Each processor is modelled over the items it receives.
- `Repo.Command`, `NewRepo` and the rest of `repo.go` are left out. The `git` runner is the oracle `Repo.run`.
- `filepath.Walk`, `filepath.Glob` and `os.Open` are not modelled. Their results (the visits, the glob's matches, each pack file's setup, lines and finishing errors) are inputs.
- The walk function's error parameter is not modelled. Its only other failure path (a walk error other than the cancel signal) cannot arise because the walk function returns no other error. A path without file information is modelled as a panic, because `info.IsDir()` is called on a nil value.
- `bufio.Scanner`'s 64 KiB line limit and its dropping of a trailing `\r` are not modelled. Scanning is a split on newlines.
- The scanner-error returns of Commit.Instantiate (commit.go:71-75) and Tree.Instantiate (tree.go:91-95) are not modelled: after the runner gives output, both end only normally or with a panic. A scanner over an in-memory buffer fails only on the 64 KiB line limit, which is left out above. For pack files the scanner reads a pipe, and its error is an input (`PackFile.scanError`).
- Strings are Go byte strings, one `char` per byte, so the offsets 52 and 53 of a tree listing line are byte offsets. UTF-8 decoding is not modelled.
- Error and panic message texts are not modelled; errors are data. The classifier's panic for an unsupported kind carries a constant text instead of the kind.
- `errors.Wrapf` context is modelled only as the wrapping constructors (`InChildTree`, `InCommitTree`).
- `filepath.Join` is modelled as joining with a slash and skipping an empty parent. Its path cleaning is not modelled.
- The `show-index` process left running, never waited for, after a malformed line or a cancellation (findobjects.go:122-133) is not modelled.
- `blob.go`, `objects.go` and the `Object` interface are left out. A blob is its sha1.
- The commit's `committer` field is never assigned in commit.go (only `committerLine` is, commit.go:53-54), so it is not modelled.
- `Commit.Message`, `Entry.Name`, `Entry.Sha1`, `Tree.Type`, `Tree.Sha1` and `Commit.Type`/`Sha1` are field reads or constants. They are fields or functions with no contract, with no row above. `Commit.Tree` is a field read too; its `requires tree != null` stands for the panics of commit.go:84-91, and it has no row because it states nothing about its result beyond the field.
- The seen-map of the blob walk is a `SeenSet` object for the public entry point. Inside the recursion it is threaded as a value, which is equivalent for a single goroutine.
- Classifier.ParseObjectSha1: the record of runner calls is stated only as extended, not call by call. Examine states the single call per id.
- Objects.Tree.Instantiate: the runner calls made by nested child instantiation are stated only as extending the record.
