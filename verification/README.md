# Models of wksctl's stateful and algebraic parts

A Dafny project that models the parts of wksctl in which something can go wrong quietly, and proves what they are for.
`dafny verify dfyconfig.toml` checks all of it.

There is one module a file.

- **The JSON query** (`QueryMachine`, `JsonDocument`, `QueryRefinement`, `QueryContexts`, `QueryTraversal`,
  `QueryPaths`, `CollectStrings`, `QueryExamples`): the token automaton with its three stacks is proved against a
  recursive walk of the document, and the walk against a statement about paths. The automaton panics on some documents
  and loses its place on others; which, and what it returns then, is proved, too.
- **Image references** (`Text`, `Regex`, `RegexPreference`, `RegexLanguage`, `ImageGrammar`, `ImageAlphabets`,
  `ImageScans`, `ImagePieces`, `ReferenceScan`, `ReferenceSplitter`, `ImageReference`, `ImageUpdates`, `Images`,
  `ImageTexts`, `ImageReadings`): regular expressions with Go's leftmost-first preference and captures, a
  deterministic splitter that is equal to the reference expression, the laws of parsing, printing and rewriting, and
  what they do, said on the texts themselves.
- **Objects and manifests** (`JsonObjects`, `Objects`, `Manifests`, `Transform`, `ImageTransform`): nested mutable
  maps on the heap. A ghost tree names the maps of a document; each operation is proved to leave a heap that holds the
  result of the operation on the document as a value, and the laws are proved on the values.
- **Embedded files** (`SeekableFile`, `DirectoryPages`): the seekable file over a decompressor that only goes forward,
  and directory pages. The same code stands in the three generated file systems.
- **Command output** (`LineScanner`, `ProcessScript`, `OutputCollector`, `OutputProgress`, `OutputInterleavings`,
  `CommandExecutor`): two reader goroutines with their line scanners, a lock, an unbuffered channel, the main
  goroutine, and the process with its two bounded pipes as a state machine, over every interleaving; appending is a
  load and a store. A method with an arbitrary scheduler runs it.
- **CIDR blocks** (`Powers`, `Cidr`): the overlap test on addresses in Go's two forms against sets of addresses.
- **The import cache** (`ImportSearch`, `Importer`), **kubeconfigs** (`KubeConfigs`), **the retag script**
  (`ImageCoordinates`, `DockerCommands`, `RetagScript`) and **the addon plan** (`AddonNames`, `AddonPlan`): memoised
  against plain search, referential integrity, independence of map order and sorting, what running the script does to
  the registries, and schedules that respect dependencies.

Where the code does not do what one would expect of it, the model follows the code, and there is a lemma that shows
it: an occurrence of a query right behind one more copy of its first label is missed
(`QueryExamples.RepeatedStartIsMissed`), arrays in arrays lose the query's place
(`QueryExamples.ArrayInArrayLosesPlace`), what follows an array of one number is matched as if it stood one level
further out (`QueryTraversal.NumberMovesOutwards`), a host that does not look like one is taken for an organisation,
so that rewriting alpine by registry twice repeats it and rewriting by x.io then does not replace it
(`Images.PlainHostIsForgotten`), a null between two maps makes the order of merging matter
(`JsonObjects.NullBetweenMaps`), a repository that ends in a slash takes the first part of a longer name for the
organisation (`Images.TrailingSlashDropsName`), a deployment of alpine is rewritten again and again by registry
(`ImageTransform.AlpineDeployment`), an image text can lose a leading slash or a last colon
(`ImageCoordinates.LeadingSlashIsLost`, `ImageCoordinates.LastColonIsLost`), the retag script can push over an image
before it pulls it (`RetagScript.QuayIsOverwritten`), a read behind the end of an embedded file spoils later reads
(`SeekableFile.BeyondTheEndLosesSync`), a command hangs after a line too long if it writes on
(`OutputProgress.LongLineHangs`), what a process writes to one stream before it writes to the other can be recorded
after it (`OutputInterleavings.WrittenOrderIsLost`), a command given to `RunV` is not in its caller's history
(`CommandExecutor.Executor.RunV`), a failed start leaves both readers waiting for ever (`OutputProgress.StuckIff`),
`::/0` and an IPv4 block are not seen to overlap (`Cidr.AroundMappedIsMissed`), and a missing default cluster becomes
nil under the new name (`KubeConfigs.MissingClusterBreaks`). The comment on `CollectStrings` speaks of a query trie;
the code has one query and no trie, and the model follows the code.

Unseen library functions are parameters: `strings.ToLower`, `path.Join`, reading an asset, `net.ParseCIDR`,
`sort.Sort` (any function that sorts), the scheduler, and how much a read of the decompressor delivers.

## Model

| member | source | states |
|---|---|---|
| QueryMachine.RunKeepsShape | pkg/qjson/query.go:28-32 | On any tokens that do not make it panic, document or not: one position more than keys, and every position within the query. |
| QueryRefinement.SimMember | pkg/qjson/query.go:52-118 | A member's value, whatever surrounds it: the run adds the walk's strings and gives all four stacks back as they were, or panics just when an array or non-empty object is reached at a full match. |
| QueryRefinement.SimElems | pkg/qjson/query.go:63-81 | The same for the elements of an array: strings and objects, one after the other, keep the array's position. |
| QueryRefinement.SimMembers | pkg/qjson/query.go:54-62 | The same for the members of an object. |
| QueryRefinement.RunDocument | pkg/qjson/query.go:36-120 | A document without arrays or scalars directly inside arrays: the automaton returns exactly the strings of the recursive walk, in document order, or panics, just when the document is a top-level scalar or descends at a full match. |
| QueryContexts.FaithfulIff | pkg/qjson/query.go:71-77 | The two shape conditions are necessary and sufficient for a value to be read correctly in every context. |
| QueryContexts.LostNothing | pkg/qjson/query.go:110-117 | The number of stack entries that a value pops too many is 0 exactly for the values without arrays or scalars directly inside arrays. |
| QueryContexts.CountMember | pkg/qjson/query.go:71-77 | Any value, however many keys are open: the run panics, or it has popped exactly so many entries too many, or all if there are fewer. |
| QueryTraversal.RunTraverses | pkg/qjson/query.go:25-121 | Every document, in shape or not: the automaton returns what a traversal of the tree collects that carries the positions of the enclosing values, or both panic. |
| QueryTraversal.ValueLeaves | pkg/qjson/query.go:110-117 | Behind any value the innermost position is that of a value further out, by exactly the number of entries that it pops too many. |
| QueryTraversal.NumberMovesOutwards | pkg/qjson/query.go:110-117 | For every query: in {k: {b: [1], ...}} the members behind b are matched as if they were members of the outer object. |
| QueryTraversal.NothingIsLost | pkg/qjson/query.go:34-120 | Over any tokens a collected string stays collected. |
| QueryTraversal.FrontSurvives | pkg/qjson/query.go:34-120 | Whatever follows: unless the run panics, all that the walk finds in the members in front of the first value out of shape is at the front of the result. |
| QueryTraversal.MalformedEnds | pkg/qjson/query.go:37-43 | Text that is no JSON gives the decoder's error, unless the code has panicked before. |
| QueryPaths.FullMatchIff | pkg/qjson/query.go:87-93 | The whole query is matched behind a path exactly when the path ends with the query and nothing was matched where that occurrence starts. |
| QueryPaths.SelectedWhenFresh | pkg/qjson/query.go:21-23 | A path that ends with the query is selected whenever no non-empty end of what precedes is a beginning of the query. |
| QueryPaths.WalkSelects | pkg/qjson/query.go:94-108 | The walk yields the string leaves whose paths are selected, in document order. |
| CollectStrings.CollectStrings | pkg/qjson/query.go:25-121 | The token loop, proved against the automaton for every token list, against the traversal for the tokens of every document, and against the selected leaves for those in shape. |
| QueryExamples.RepeatedStartIsMissed | pkg/qjson/query.go:87-93 | For every query: an occurrence right behind one more copy of its first label is not selected, since the reset to 0 is no fallback. |
| QueryExamples.RepeatedStartYieldsNothing | pkg/qjson/query.go:87-93 | The automaton, asked for a.b, yields nothing on {a: {a: {b: s}}}. |
| QueryExamples.NumberInArrayPanics | pkg/qjson/query.go:110-112 | A number directly inside a top-level array panics. |
| QueryExamples.ArrayInArrayLosesPlace | pkg/qjson/query.go:71-77 | An array inside an array leaves a wrong position behind, and a string at the wrong path is collected. |
| QueryExamples.ArrayAtFullMatchPanics | pkg/qjson/query.go:63-70 | An array reached at a full match panics. |
| Regex.Sound | pkg/addons/image_reference_regexp.go:84-132 | What the backtracking matcher consumes for an expression is in the expression's language. |
| Regex.Complete | pkg/addons/image_reference_regexp.go:84-132 | Every prefix in the language is among the matches. |
| Regex.FindIffLang | pkg/addons/image_reference_regexp.go:129-132 | An anchored expression matches exactly the texts of its language. |
| ImageGrammar.NameComponentIff | pkg/addons/image_reference_regexp.go:21-23 | A linear scan (letters and digits, joined by a dot, one or two underscores, or dashes) accepts exactly the name component language. |
| ImageScans.PathIff | pkg/addons/image_reference_regexp.go:51 | A path is a list of name components between slashes: the scan equals the captured expression. |
| ImageScans.DomainIff | pkg/addons/image_reference_regexp.go:28-37 | The scan for hosts with an optional port accepts exactly the domain language. |
| ImageScans.TagIff | pkg/addons/image_reference_regexp.go:40 | The scan accepts exactly the tag language: 1 to 128 characters. |
| ImageScans.DigestIff | pkg/addons/image_reference_regexp.go:43 | The scan accepts exactly the digest language: an algorithm, a colon, at least 32 hexadecimal digits. |
| ImageAlphabets.ClassesAreAlphabets | pkg/addons/image_reference_regexp.go:12-43 | Which characters the classes of the expressions have, as alphabets. |
| ImagePieces.ComponentIff | pkg/addons/image_reference_regexp.go:10-23 | Name components outright: small letters and digits at both ends, between them single dots, one or two underscores, or dashes. |
| ImagePieces.DomainIff | pkg/addons/image_reference_regexp.go:25-37 | Domains outright: labels of letters, digits and inner dashes between dots, with a colon and a number behind them or not. |
| ImagePieces.TagTextIff | pkg/addons/image_reference_regexp.go:39-40 | Tags outright: 1 to 128 letters, digits, underscores, dots and dashes, the first no dot and no dash. |
| ImagePieces.DigestIff | pkg/addons/image_reference_regexp.go:42-43 | Digests outright: an algorithm that is made of words, which start with a letter, and single separators, then a colon and at least 32 hexadecimal digits. |
| ReferenceScan.NoSecondChance | pkg/addons/image_reference_regexp.go:48-51 | Backtracking out of a domain never helps: if the rest behind the first slash does not scan, the whole text without a domain does not either. |
| ReferenceScan.CutSegment | pkg/addons/image_reference_regexp.go:50-51 | Whether the first segment is cut off as organisation does not change what is accepted. |
| ReferenceSplitter.SplitterIsRegexp | pkg/addons/image_reference_regexp.go:60-62 | The deterministic splitter yields the five captures of leftmost-first matching of the whole grammar, and accepts exactly its language. |
| ImageReference.ParsePrint | pkg/addons/image_reference.go:48-106 | Printing a parsed reference gives the text back, despite the shift from domain to organisation; with an empty organisation the name has no slash. |
| ImageReference.PrintParseIff | pkg/addons/image_reference.go:48-106 | Parsing undoes printing for exactly the canonical records. |
| Images.ParseImageReference | pkg/addons/image_reference.go:48-84 | The code, matching the expression itself: equals the splitter with its shift and its four errors, and its record prints back. |
| Images.String | pkg/addons/image_reference.go:86-106 | The string builder writes the printed reference. |
| Images.ParsedTextPrintsBack | pkg/addons/image_reference.go:48-106 | For the repository's grammar: a result prints back and is canonical; an error other than the length limit means the text is not in the language. |
| Images.PrintedRecordParsesBackIff | pkg/addons/image_reference.go:48-106 | For the repository's grammar: exactly the canonical records come back. |
| ImageReadings.ParsesSegmentsIff | pkg/addons/image_reference.go:48-84 | The accepted texts are exactly those of segments, tag and digest, and what each is read as: the first of several segments that is a domain is the domain if more than one follows or it holds a dot or a colon; of what is left, the first is the organisation if another follows. Only a domain over 255 characters is refused. |
| ImageReadings.ErrorsOutside | pkg/addons/image_reference.go:50-59 | Which error every other text gets from parsing and from UpdateImage: empty, upper case if it is accepted in lower case, else the format. |
| ImageTexts.OrganisationsHaveNoColon | pkg/addons/image_reference.go:71-81 | No organisation that is read holds a colon. |
| ImageUpdates.IdempotentIff | pkg/addons/transform.go:74-95 | Updating twice by one repository is updating once exactly for the stable rewritten records. |
| ImageUpdates.LastWinsIff | pkg/addons/transform.go:84-92 | For all rewrites: the last of two wins exactly when the text in between is read with the same name, tag and digest, and the last one names an organisation or the one read in between is the first one. |
| ImageUpdates.UpdateConservesIff | pkg/addons/transform.go:84-94 | Name, tag and digest end the text before and after; they are read from the updated text exactly when the rewritten record is stable, for every image and repository that rewrite. |
| Images.UpdateConservesNameIff | pkg/addons/transform.go:74-95 | When the updated text has the same name, tag and digest, for the repository's grammar, both directions. |
| ImageUpdates.TrailingSlashLosesName | pkg/addons/transform.go:84-92 | A repository that ends in a slash: the first segment of a longer name becomes the organisation, and the name is what follows, for every image. |
| Images.TrailingSlashDropsName | pkg/addons/transform.go:84-92 | For any plain words, d/a/b/c by x/ becomes x/b/c, which has the name c. |
| ImageUpdates.GoodRepositorySettles | pkg/addons/transform.go:74-95 | A host that is a domain and looks like one, or has a name component for organisation: an updated text is updated to itself, or is not accepted any more, whatever the image. |
| ImageUpdates.PlainHostStays | pkg/addons/transform.go:84-92 | A single name and a host that does not look like one: what rewriting again, by the same or by another host, leaves; neither idempotent nor the last one wins. |
| Images.UpdateImage | pkg/addons/transform.go:74-95 | The code: the specified update for every image and repository, with the unchanged image for an empty repository. |
| Images.RewriteIsIdempotentIff | pkg/addons/transform.go:74-95 | Idempotence for the repository's grammar, both directions. |
| Images.LastRewriteWinsIff | pkg/addons/transform.go:74-95 | When the last rewrite wins, for the repository's grammar and all rewrites, both directions. |
| Images.WellChosenRewrites | pkg/addons/transform.go:74-95 | For a repository whose host is a domain within the limit and looks like a host (or leaves an organisation), with name components for organisations: rewriting succeeds, parses back, is idempotent, and the last rewrite wins. |
| Images.PlainHostIsForgotten | pkg/addons/transform.go:84-92 | For any two lower-case words as image and host: the second rewrite repeats the host, and a rewrite by another host keeps the first one as the organisation. |
| Images.AlpineAtRegistry | pkg/addons/transform.go:84-92 | alpine, registry and x.io are such an input. |
| ImageTexts.RewritesHost | pkg/addons/transform.go:84-92 | A repository without a slash takes the place of the text's host, or comes in front where there is none; all other segments, tag and digest stay. |
| ImageTexts.RewritesBoth | pkg/addons/transform.go:84-92 | One with a slash takes the place of host and organisation. |
| ImageTexts.RefusesDeep | pkg/addons/transform.go:85-87 | One with more slashes is refused. |
| ImageReadings.OneSegmentInFront | pkg/addons/transform.go:84-92 | For every domain h and name n: h/n is n at the host h if h holds a dot or a colon, and a repository replaces h; else h is the organisation, and stays. |
| ImageReadings.LocalRegistry | pkg/addons/transform.go:84-92 | So for all plain words and ports, h:port/n by r gives r/n. |
| JsonObjects.GetAfterSet | pkg/addons/object.go:202-227 | What is set at a path is what is read there. |
| JsonObjects.GetFailsIff | pkg/addons/object.go:53-81 | The exact error: a key that is not in the map that the keys in front lead to, or one that is, with more keys to come, and holds no map. |
| JsonObjects.GetAfterSetElsewhere | pkg/addons/object.go:53-81 | A path that is neither prefix nor extension keeps its value or keeps failing, also where Set replaced a primitive on the way. |
| JsonObjects.ErrorAfterSetElsewhere | pkg/addons/object.go:53-81 | The error itself of such a path changes exactly when Set makes a map on the way that both paths share, and to which error. |
| JsonObjects.SetCommutes | pkg/addons/object.go:202-227 | Sets on incomparable paths commute. |
| JsonObjects.SetThroughEmpty | pkg/addons/object.go:206-214 | Making a map on the way first does not change what Set arrives at. |
| JsonObjects.GetAfterMerge | pkg/addons/object.go:250-270 | What every path of the merged document reads, value or failure, from what it reads in the two documents. |
| JsonObjects.LeafWins | pkg/addons/object.go:267-269 | A leaf of the argument wins. |
| JsonObjects.MergeIdempotent | pkg/addons/object.go:250-270 | Merging the same argument again changes nothing. |
| JsonObjects.CoversIff | pkg/addons/object.go:250-270 | Merging c into a leaves just c exactly when c has every key of a, and again below wherever both hold maps. |
| JsonObjects.MergeAssociativeIff | pkg/addons/object.go:250-270 | The two ways to merge three documents agree exactly under a condition on where b separates maps of a and c. |
| JsonObjects.MergeAssociative | pkg/addons/object.go:250-270 | In particular whenever nowhere a and c hold maps while b holds a non-map. |
| JsonObjects.NullBetweenMaps | pkg/addons/object.go:250-270 | Three documents on which the two ways to merge differ. |
| Objects.Object.Get | pkg/addons/object.go:53-81 | The loop over the heap: the value or the error, with its depth, of Get on the document. |
| Objects.Object.GetString | pkg/addons/object.go:132-141 | A string exactly if the document has one at the path. |
| Objects.Object.GetObjectArray | pkg/addons/object.go:150-170 | The maps themselves, in order, exactly if the document has an array of maps only at the path; a panic exactly on null; else an error. |
| Objects.Object.Set | pkg/addons/object.go:202-227 | The loop on nested mutable maps: the heap then holds Set of the document; new maps are fresh, and with a one-key path there are none. |
| Objects.Object.SetString | pkg/addons/object.go:240-242 | The same for a string value. |
| Objects.Object.MakeMaps | pkg/addons/object.go:205-217 | The way down to the last key, maps made where there are none, without changing what Set arrives at. |
| Objects.Object.Merge | pkg/addons/object.go:250-270 | The recursive loop on nested mutable maps, in any order of the keys: it writes only to the receiver's maps, leaves the argument's document as it is, and the heap then holds Merge of the documents, with the argument's maps shared. The two may share maps before at the same keys, as when the same argument is merged again, or a document into itself. |
| Objects.HoldsReplace | pkg/addons/object.go:202-227 | A heap that has changed only below a place holds the document with the new part there. |
| Objects.PutIsSet | pkg/addons/object.go:225-226 | One assignment behind existing maps is Set on the document. |
| Objects.MergeTJson | pkg/addons/object.go:250-270 | The merged tree of map identities stands for the merged document. |
| Objects.MergeTTidy | pkg/addons/object.go:250-270 | No map occurs twice in it when the two documents share maps at the same keys only, and it has no maps but theirs. |
| Objects.MergeTTwice | pkg/addons/object.go:250-270 | Behind a merge, merging the same argument again is allowed and leaves every map as it is. |
| Manifests.RewriteUpdates | pkg/addons/transform.go:36-53 | At each of the four paths every container is updated once, in order; a place without a list of maps stays as it is. |
| Manifests.RewriteFrame | pkg/addons/transform.go:36-70 | Every path that is incomparable to the four reads as before. |
| Manifests.PodsRewritten | pkg/addons/transform.go:36-70 | By the names of the keys: the containers and initContainers of a pod template, in a workload or in a cron job, keep their number and have their images replaced, where they are strings that can be updated. |
| Manifests.OthersUntouched | pkg/addons/transform.go:36-70 | Every path that neither leads to one of these nor goes on behind it reads as before. |
| Manifests.ContainerFrame | pkg/addons/transform.go:55-70 | In a container no key is added or lost, and only a string image that UpdateImage accepts changes. |
| Manifests.PathFrame | pkg/addons/transform.go:44-52 | Updating one path leaves the others as they are, value or error. |
| Manifests.RewriteIdempotentIff | pkg/addons/transform.go:55-70 | For every document and update: rewriting twice is rewriting once exactly when every accepted image at the four paths is updated to a text that is updated to itself or not accepted any more. |
| Manifests.ListKeepsItems | pkg/addons/transform.go:18-34 | The number and the order of the items stay. |
| Manifests.ListIsRewritten | pkg/addons/transform.go:10-34 | The new list has version v1, kind List and the rewritten items, and nothing else. |
| Transform.UpdateImageOf | pkg/addons/transform.go:57-67 | The callback, in place on one container map. |
| Transform.UpdateContainersAt | pkg/addons/transform.go:44-51 | The loop over the containers of one path, in place in the item. |
| Transform.ForEachContainer | pkg/addons/transform.go:36-53 | The loop over the paths, in place; it panics exactly on null in the place of a list. |
| Transform.WithImageRepository | pkg/addons/transform.go:55-70 | The transform of one item: the item's own map then holds the rewritten item. |
| Transform.TransformItems | pkg/addons/transform.go:24-30 | The loop over the items: the same maps in the same order, each rewritten. |
| Transform.TransformList | pkg/addons/transform.go:18-34 | The whole: a fresh map holds the list of the rewritten items; an error in the items leaves it none. |
| Transform.NewList | pkg/addons/transform.go:10-16 | A new map with version, kind and the items. |
| ImageTransform.RewriteImages | pkg/addons/transform.go:55-70 | The whole with UpdateImage itself as the update. |
| ImageTransform.ContainerImage | pkg/addons/transform.go:55-70 | Each image becomes UpdateImage of its old value, or stays when that fails. |
| ImageTransform.GoodRepositoryIsIdempotent | pkg/addons/transform.go:55-95 | With such a repository every document is rewritten once and for all. |
| ImageTransform.PlainHostIsNotIdempotent | pkg/addons/transform.go:55-95 | With a plain word for the host, no document with a plain word for an image at one of the paths is. |
| ImageTransform.AlpineDeployment | pkg/addons/transform.go:55-95 | A deployment of alpine, rewritten by registry, is such a document. |
| SeekableFile.AlignsInRange | pkg/apis/wksprovider/machine/scripts/scripts_vfsdata.go:108-122 | In front of a read, through rewind and fast-forward, the decompressor stands at the logical offset, exactly for seeks within the content. |
| SeekableFile.StaysSyncedIff | pkg/apis/wksprovider/machine/scripts/scripts_vfsdata.go:108-122 | The file's own count of the decompressor's offset stays right exactly when the read does not start behind the end, or the decompressor was there. |
| SeekableFile.RunsLikePlain | pkg/apis/wksprovider/machine/scripts/scripts_vfsdata.go:103-137 | Any run of seeks, wherever they go, and short reads within the content delivers what a plain file delivers, and the count stays right. |
| SeekableFile.BeyondTheEndLosesSync | pkg/apis/wksprovider/machine/scripts/scripts_vfsdata.go:115-122 | A read behind the end loses the count: rewound to the start, the file has nothing to deliver. |
| SeekableFile.CompressedFile.Read | pkg/apis/wksprovider/machine/scripts/scripts_vfsdata.go:108-124 | The code, for every state: what it delivers and where the three offsets stand. |
| SeekableFile.CompressedFile.Seek | pkg/apis/wksprovider/machine/scripts/scripts_vfsdata.go:125-137 | The new logical offset for the three origins, and nothing else changes. |
| DirectoryPages.PagesConcatenate | pkg/apis/wksprovider/machine/scripts/scripts_vfsdata.go:176-186 | Pages of any sizes put together are a beginning of the entries, in order, and all of them exactly when one page asked for all or the sizes suffice. |
| DirectoryPages.EofMeansAll | pkg/apis/wksprovider/machine/scripts/scripts_vfsdata.go:177-179 | Behind any pages from the start, the end is reported exactly when a positive count is asked for and the pages so far are all entries. |
| DirectoryPages.Dir.Readdir | pkg/apis/wksprovider/machine/scripts/scripts_vfsdata.go:176-186 | The code: the page at the position, and the position behind it. |
| DirectoryPages.Dir.Seek | pkg/apis/wksprovider/machine/scripts/scripts_vfsdata.go:168-174 | Only a rewind is possible, and it rewinds. |
| LineScanner.ScanFirstLine | test/integration/spawn/executor.go:88-91 | Of a stream of whole lines the scanner yields the first line without its end, then those of the rest. |
| LineScanner.TextIsRead | test/integration/spawn/executor.go:87-103 | Any lines up to 65535 bytes, each with a line feed behind it or a carriage return and a line feed, the last one also without, are read as they are. |
| LineScanner.LongLineIsNotRead | test/integration/spawn/executor.go:87-103 | A line too long behind them stops the scanner 65536 bytes into it. |
| LineScanner.TextIsWritten | test/integration/spawn/executor.go:87-103 | Every text is of one of these two kinds. |
| LineScanner.LongLine | test/integration/spawn/executor.go:88-89 | A line without end stops the scanner after exactly 64 KiB. |
| OutputCollector.RunKeeps | test/integration/spawn/executor.go:87-187 | The invariant of the three goroutines and the process, over every run of any interleaving. |
| OutputCollector.MutualExclusion | test/integration/spawn/executor.go:90-96 | The readers are never both between Lock and Unlock, and what one has loaded is what the list still is. |
| OutputCollector.ReturnsAllLines | test/integration/spawn/executor.go:87-187 | In every interleaving: a return gives an entry exactly when the process started and no scanner failed, and then each stream's part of it (and of what was shown) is that stream's lines in order; else it gives one of the errors. |
| OutputProgress.StuckIff | test/integration/spawn/executor.go:146-174 | The only states without a next step: RunCmd has returned and the readers have ended; or, after a failed start, both readers wait for ever to deliver; or one reader has ended by an error, and the process (before a full pipe), the other reader and RunCmd wait for each other for ever. |
| OutputProgress.ReturnsUnlessItHangs | test/integration/spawn/executor.go:87-174 | Whether RunCmd returns is settled by the command, whatever the interleaving: it never does if some write overflows the pipe of a stopped reader before the other reader has stopped, and otherwise every run that has come to rest has returned. |
| OutputProgress.LongLineHangs | test/integration/spawn/executor.go:101-102 | A line over the scanner's limit and then more than the pipe holds makes RunCmd hang, for every pipe size. |
| OutputProgress.CleanRunsReturn | test/integration/spawn/executor.go:87-187 | Without a scanner error a run that has come to rest has returned all lines. |
| OutputProgress.RunsAreBounded | test/integration/spawn/executor.go:87-187 | No run is longer than nine steps a byte and seven more. |
| OutputInterleavings.OutputsAreTheInterleavings | test/integration/spawn/executor.go:87-187 | For every command without failures whose output fits the pipes: what it can leave is exactly the interleavings of its two streams' lines, in whatever order it has written them. |
| OutputInterleavings.WrittenOrderIsLost | test/integration/spawn/executor.go:87-187 | a to stdout and after that b to stderr can be recorded as b, a. |
| CommandExecutor.Executor.RunCmd | test/integration/spawn/executor.go:131-192 | Under an arbitrary scheduler: it hangs exactly for the commands that do, and else ends with this entry, error and history; the entry has just the lines that the command writes to each stream, without their ends. |
| CommandExecutor.TooLongFails | test/integration/spawn/executor.go:87-103 | A command that writes a line too long: that stream ends with the scanner's error, behind the lines in front. |
| CommandExecutor.Executor.RunV | test/integration/spawn/executor.go:126-128 | The results of RunCmd; but the receiver is a copy, and so the history of the caller's executor stays as it was. |
| Cidr.ContainsIff | pkg/specs/validation.go:45-47 | For an aligned network, Contains holds exactly for the addresses of its block that have the same form (embedded IPv4 or not). |
| Cidr.NestedOrDisjoint | pkg/specs/validation.go:45-47 | Two blocks share an address exactly when the smaller one starts inside the other (section 3.1 of RFC 4632). |
| Cidr.IntersectIff | pkg/specs/validation.go:45-47 | For aligned networks the test holds exactly when they share an address, except for an IPv4 network and an IPv6 network around all embedded IPv4 addresses; for networks of one family, exactly when they share one. |
| Cidr.AroundMappedIsMissed | pkg/specs/validation.go:45-47 | Every pair of the exception overlaps and is missed. |
| Cidr.EverythingIsAroundMapped | pkg/specs/validation.go:45-47 | ::/0 is such a network. |
| Cidr.IsValidCIDRIff | pkg/specs/validation.go:33-43 | Exactly the texts of aligned blocks are accepted, and stand for themselves. |
| Cidr.ValidateCIDRBlocks | pkg/specs/validation.go:49-105 | No errors exactly when each list is one aligned block and the two do not overlap (up to the exception); else exactly the errors that name the list without one block, or the block that is no network, in order; or the overlap. |
| ImportSearch.FirstFoundIff | pkg/addons/vfs_importer.go:60-76 | The uncached search finds what lies at the first place that has it, and nothing exactly when no place has it. |
| ImportSearch.SearchImports | pkg/addons/vfs_importer.go:60-76 | In terms of what can be read where: the contents at the importing file's directory, or else at the last search path that has the file; nothing exactly if none has. |
| ImportSearch.CachedIsUncached | pkg/addons/vfs_importer.go:31-76 | A cached search gives the uncached result; the cache gains just the visited paths and changes no entry. |
| ImportSearch.CallsAreUncached | pkg/addons/vfs_importer.go:31-76 | Over any sequence of calls every result is that of the uncached search, and no entry, positive or negative, ever changes. |
| Importer.VFSImporter.TryPath | pkg/addons/vfs_importer.go:31-58 | The code: an absolute path as it is, any other joined to the directory; found exactly if it is not missing, with what has been read; remembered. |
| Importer.VFSImporter.Import | pkg/addons/vfs_importer.go:60-76 | The loop: result and cache of the cached search, so the result of the uncached one, with the contents that are read at the path it is found at. |
| KubeConfigs.DefaultsAreApart | pkg/kubernetes/config/kubeconfig.go:150 | The new name is none of the default names. |
| KubeConfigs.NameForInjective | pkg/kubernetes/config/kubeconfig.go:150 | Different clusters get different names. |
| KubeConfigs.RenamedClosedIff | pkg/kubernetes/config/kubeconfig.go:149-168 | Renaming leaves a referentially closed config exactly when the default cluster and user are there and no other context depends on them or on what is missing. |
| KubeConfigs.RenamedMeansTheSame | pkg/kubernetes/config/kubeconfig.go:160-167 | The new context stands for the cluster and the user that the default one stood for. |
| KubeConfigs.MissingClusterBreaks | pkg/kubernetes/config/kubeconfig.go:152-154 | Without the default cluster, nil is put under the new name and the new context does not resolve. |
| KubeConfigs.MergedClosedIff | pkg/kubernetes/config/kubeconfig.go:134-146 | Merging two closed configs gives a closed one exactly when no nil entry of the second hides one that is in use. |
| KubeConfigs.MergedKeeps | pkg/kubernetes/config/kubeconfig.go:134-146 | The second config's contexts keep their meaning; whatever it has no name for stays. |
| KubeConfigs.InstallKeepsClosed | pkg/kubernetes/config/kubeconfig.go:134-168 | Rename, then merge into a closed config: the result is closed and the new context resolves to the downloaded cluster and user. |
| KubeConfigs.InstallClosedIff | pkg/kubernetes/config/kubeconfig.go:134-168 | For any two configs: exactly when rename and merge end in a closed config. |
| KubeConfigs.InstallKeepsOthers | pkg/kubernetes/config/kubeconfig.go:134-168 | Every entry without a namesake in the renamed config is as it was. |
| KubeConfigs.KubeConfig.RenameConfig | pkg/kubernetes/config/kubeconfig.go:149-168 | The code, in place, on any config: context objects may be nil, and shared among names, all of which then get the new binding; false where it dereferences nil, with all that has changed by then: clusters and users renamed, nil under the new context name. |
| KubeConfigs.KubeConfig.RenamedEntries | pkg/kubernetes/config/kubeconfig.go:149-168 | Then cluster, user and context lie under the new name alone, and the context is the object that it was, with the new names in it. |
| KubeConfigs.KubeConfig.Merge | pkg/kubernetes/config/kubeconfig.go:134-146 | The code, in place, in any order of the maps; the context objects are shared afterwards. |
| ImageCoordinates.PrintsBackIff | pkg/registry/image.go:28-73 | A text that parses is printed back exactly when no segment before the name is empty and no colon ends it. |
| ImageCoordinates.LeadingSlashIsLost | pkg/registry/image.go:28-73 | /x is printed back as x. |
| ImageCoordinates.LastColonIsLost | pkg/registry/image.go:28-73 | x: is printed back as x. |
| ImageCoordinates.ParsesBackIff | pkg/registry/image.go:28-73 | Exactly which records come back from their text. |
| ImageCoordinates.NewImage | pkg/registry/image.go:28-54 | The code: the parsed image, or an error for blank texts and too many segments or colons. |
| ImageCoordinates.RefusedIff | pkg/registry/image.go:28-54 | Refused are exactly blank texts, those with more than two slashes, and those with more than one colon behind the last slash. |
| ImageCoordinates.SpacesAre | pkg/registry/image.go:30 | Which characters are blank. |
| ImageCoordinates.String | pkg/registry/image.go:57-73 | The string builder writes the printed image. |
| ImageCoordinates.SameDestinationIff | pkg/registry/image.go:57-73 | For any two images: under one registry and user they have the same text exactly if name and tag, put together, have; and when the names have no colon, exactly if name and tag agree. |
| RetagScript.LessIsTotal | pkg/registry/image.go:92-106 | Of two different images exactly one is less. |
| RetagScript.LessIsTransitive | pkg/registry/image.go:92-106 | The order is transitive. |
| RetagScript.LessIff | pkg/registry/image.go:92-106 | By registry, user, name and tag, in this order, each from the smaller text to the larger. |
| RetagScript.SortedIsUnique | pkg/registry/image.go:88-106 | Two sorted sequences of the same elements are equal, so any correct sort gives the same. |
| RetagScript.ScriptBlock | pkg/registry/image.go:79-85 | Pull, tag and push of the k-th image stand next to each other, and the script has no other commands. |
| RetagScript.ScriptIsUnique | cmd/wksctl/registrysynccommands/registrysynccommands.go:49-65 | The script depends on the set of images alone. |
| RetagScript.RunsScript | pkg/registry/image.go:75-85 | Running the commands, given what docker pull, tag and push do: none fails if the sources are there; every destination is there in the end, nothing else has come or gone, and every text names the content of its origin. |
| DockerCommands.Mirrored | pkg/registry/image.go:75-85 | A destination has the content of its source, if no later image has the same destination and no earlier one has been pushed over the source. |
| RetagScript.QuayIsOverwritten | cmd/wksctl/registrysynccommands/registrysynccommands.go:56-64 | An image that lies at the destination of one in front of it is pushed over before it is pulled: quay.io/wks/n:t behind docker.io/x/n:t. |
| RetagScript.DestinationText | cmd/wksctl/registrysynccommands/registrysynccommands.go:56-64 | The destination is registry/organization/name:tag. |
| RetagScript.SharedDestinationIff | cmd/wksctl/registrysynccommands/registrysynccommands.go:56-64 | Two parsed images are pushed to one place exactly if name and tag agree. |
| RetagScript.RegistrySync | cmd/wksctl/registrysynccommands/registrysynccommands.go:36-65 | The code, in any order of the map and with any correct sort: the one script of the set of images; running it syncs the registries. |
| AddonNames.TwoDigitsInjective | pkg/plan/recipe/install_plans.go:32 | Two-digit formatting, wider for larger numbers, is injective. |
| AddonNames.NamesDenote | pkg/plan/recipe/install_plans.go:32-34 | Name and file of a manifest: the addon, a dash, and at least two digits that denote the index. |
| AddonNames.ResourceNameInjective | pkg/plan/recipe/install_plans.go:32-33 | No two manifests of any addons share a resource name. |
| AddonPlan.PlanIsUnique | pkg/plan/recipe/install_plans.go:29-43 | The resources and dependencies are determined by the addons, not by the order of the map. |
| AddonPlan.PlanSays | pkg/plan/recipe/install_plans.go:29-43 | What the plan has for each manifest, under which name: its text, its file, and the dependency on the one before it alone. |
| AddonPlan.AppliedInOrder | pkg/plan/recipe/install_plans.go:36-41 | In any schedule that respects the dependencies, at any time, a chain has been applied up to some point, in order. |
| AddonPlan.ManifestsInOrder | pkg/plan/recipe/install_plans.go:29-43 | In any such schedule each addon's manifests are applied in list order: a prefix at any time, all in the end. |
| AddonPlan.NeverStuck | pkg/plan/recipe/install_plans.go:36-41 | Such a schedule can go on exactly as long as something is missing. |
| AddonPlan.Acyclic | pkg/plan/recipe/install_plans.go:36-41 | A chain of dependencies never comes back to a resource. |
| AddonPlan.BuildAddonPlan | pkg/plan/recipe/install_plans.go:27-49 | The code, in any order of the map: the one plan for the addons. |

## Left out

- Text codecs: JSON and YAML are token lists and trees; a JSON stream with several top-level values is covered only as a token list, by `CollectStrings`' equality with the automaton.
- gzip itself: the decompressor is a reader that goes forward over the content and can be reset; errors from a damaged stream do not occur.
- Go's regular expression engine: modelled by preference-ordered backtracking over an expression tree; the repository's expressions are built as trees, and the fragments given as text are transcribed by hand.
- Characters: strings are sequences of Unicode characters where Go has bytes; the two agree for the grammar and the length limit, where all is ASCII, and in the order of strings.
- Widths: offsets and counters are unbounded; overflow of int64 is not modelled.
- Objects.Object.Set: the value must not hold maps of the document it is put into, so cycles and shared sub-maps that Set could create are excluded.
- Objects.Object.Merge: receiver and argument may share maps at the same keys only; a map that stands at different places of the two is excluded, as are cycles.
- Objects.Object.GetObjectArray: elements are plain decoded maps; the list that `list` builds has Go type `[]object`, and reading its items again through `GetObjectArray` (which asks for plain maps) would fail in the code, while the model's array holds the same maps.
- SeekableFile.CompressedFile.Seek: the three origins are a datatype, so the panic on any other value does not arise.
- GetBool, GetNumber, GetObject and their variants: coercions of a value that Get has found.
- Transform.TransformList: one transform, the only one that the code passes; the printed error is left out.
- Error texts: errors are constructors with what tells them apart.
- CommandExecutor.Executor.RunCmd: one command at a time on one executor; breadcrumbs, path and arguments are left out, and a failing pipe creation is not modelled.
- The process behind a command: it writes a fixed list of bytes to its two streams, in its own order, and then exits; it waits for nothing but room in a pipe, and its reader's end of a pipe stays open.
- OutputInterleavings.OutputsAreTheInterleavings: stated for commands whose output fits the pipes; with smaller pipes the process has to wait for the readers, and then it is only proved that each stream keeps its order (`OutputCollector.ReturnsAllLines`).
- Kubeconfig files: reading, writing and setting the current context of the merged file.
- RetagScript.RunsScript: stated for names without spaces, which are single words of a command line; docker copies contents between names, and nothing else happens meanwhile.
- AddonPlan.PlanSays: the namespace of a resource, which is always the same, is left out.
- The plan library: a plan is a map from names to resources with dependencies, and a schedule any list that respects them; execution, retries and undo are left out.
- Sanitize, sealed secrets, kubeadm configuration, machine and addon parameter validation, node names, version ranges: record filling and simple checks that would add easy members.
- SSH, kubectl, git, HTTP, flags, logging and embedded data: input and output only.
