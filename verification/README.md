# Ambient: a model of its protocols and passes

This project models parts of Ambient, a desktop for MorphOS written in C, and proves
properties of them. Each module follows one part of the program:

- `ByteRun1`: the decoder for bit-packed ByteRun1 image data, with its 16-bit shift register.
- `Descriptors`, `DescriptorParser`, `DescriptorSaver`, `DescriptorRoundTrip`,
  `DescriptorComments`: file type descriptors, their parser with its shared word buffers, their
  printer, that one undoes the other, and what comments and blank lines in files change. `Text` and `Locale` hold the words, numbers and translations they use.
- `Actions`, `Templates`, `Expansions`: actions, the scan of their command templates, the
  expansion of the templates and what each placeholder becomes.
- `EntryLists`, `MergePass`, `Dispatchers`, `RunTexts`: the action dispatcher, which looks up
  actions for uris, sorts and merges entries in place, and runs and frees them, and the texts
  that it hands over for the uris.
- `Thumbnails`, `Caches`, `CacheRuns`: the cache behind a nesting semaphore, and runs of it by
  several tasks.
- `Disposal`, `Backgrounds`: from the application object, the disposal of object arrays by two
  tasks and the ownership of background pictures with their transition.
- `AppIcons`: application icons that programs add and remove while their images load.
- `ContextMenus`, `CxLists`, `Clickpaths`, `Capacity`: the context menu builder, the list of
  commodities, the path bar and the printing of sizes.

Code that changes state step by step is a class or a method with loops, tied by its
postconditions to functions on values; the laws are lemmas about those functions. Where a
protocol has several tasks, its steps are functions on a state and the lemmas are about every
sequence of steps. Memory is a set of blocks by address (`Memory`): a block can be freed once,
while it is allocated, and in a pool with the size it was allocated with.

Words that recur: strings are C strings without terminator, 0 is the null address, `None` a
null pointer. The outcomes of calls into libraries that the model does not contain, such as
allocations, the gathering of a uri, an icon's creation or a user's selection, are parameters.

Some laws that one may expect do not hold of the code. For each the model keeps the code as it
is, states exactly when the law holds and gives a case in which it fails:

- A descriptor whose recogniser has no steps is lost when saved (`descsaver.c:102-182`).
- A blank line is skipped before a descriptor, but inside a block it is read as a line of its own
  (`descparser.c:75-85`).
- The result of a save forgets failed writes (`descsaver.c:303-321`).
- The scan of a template can ask for more than the expansion reads (`action.c:443-483`).
- After a merge the next group of entries starts one entry late (`actiondispatcherclass.c:915-918`).
- A merge of strings that are all empty has no buffer to copy to (`actiondispatcherclass.c:841-869`).
- A cache hit makes a node look older than it is (`cache.c:247`), although the comment there
  speaks of a usage counter for the least recently used.
- An address of a commodity that is used again, by one that does not pass the filter, stays
  listed (`cxlistclass.c:216-252`).
- A menu that goes back from an inner to an outer submenu is nested wrongly, and items below an
  entry that is left out move to another (`contextmenu.c:1044-1074`).
- The path bar replaces the path shown by one of its components when a slash is at its end
  (`clickpathclass.c:206-240`).
- Asked for the parent of the devices view, which has none, the path bar selects the start of
  the path shown (`clickpathclass.c:553-572`).

## Model

| member | source | states |
|---|---|---|
| ByteRun1.GetBits | byterun1.c:33-45 | One pixel through the 16-bit shift register: the register refines the plain big-endian bit stream, the value is that of the next `depth` bits, and the read fails exactly when the input has too few bits left |
| ByteRun1.GetByte | byterun1.c:47-59 | The control byte through the shift register: the next 8 bits as a signed byte, with the register holding the rest of the stream |
| ByteRun1.FillRun | byterun1.c:76-91 | A run writes its pixel exactly `n` times, at the right place, and nothing else; without a pixel nothing is written |
| ByteRun1.CopyLiterals | byterun1.c:92-112 | A literal packet writes the pixels that are there, in order, and stops at the end of the input |
| ByteRun1.Decode | byterun1.c:61-115 | The decoder never reads past `srclen` or writes past `dstlen`; result and output buffer are those of the bit-stream definition, also when it fails half way |
| ByteRun1.RoundTrip | byterun1.c:73-114 | However pixels are cut into runs of 2 to 129 and literals of 1 to 128, and whatever bits follow, decoding the encoding gives exactly those pixels; control byte -128 is a run of 129 |
| ByteRun1.PacketsRead | byterun1.c:73-114 | Every successful decode has read a list of valid packets that expands to its output |
| ByteRun1.DecodesExactlyPackets | byterun1.c:61-115 | Decoding succeeds with given pixels if and only if the input starts with some packet list that expands to them |
| ByteRun1.PackedRoundTrip | byterun1.c:61-115 | The round trip on bytes, with the last byte padded with zero bits |
| Text.WordsOfJoin | descparser.c:81-85 | Words joined by single spaces are read back as the same words |
| Text.ReadPrintedLong | descparser.c:523-527 | Every 32-bit priority printed in decimal is read back by the base-detecting number reader |
| Text.ReadOtherBases | descparser.c:523-527 | A number printed in hexadecimal after `0x`, or in octal after `0`, is read in that base |
| Locale.TranslationRoundTrip | descsaver.c:275-294 | A one-line name survives being translated to English and back if and only if it is spelled as the catalogue spells it, or is neither a message nor the English text of one |
| Actions.ScanCommand | action.c:434-483 | The scan at every position but the last collects exactly the flags of the placeholders that start there |
| Actions.ActionNode.constructor | action.c:85-108 | A new action is a menu action without names, flags and commands, and not temporary |
| Actions.ActionNode.Temporary | action.c:110-120 | The same, but temporary |
| Actions.ActionNode.Duplicate | action.c:122-167 | A copy has the value of its source, commands in order, and is temporary if the source is |
| Actions.ActionNode.AddCommand | action.c:267-304 | A command is added at the end of the list |
| Actions.ActionNode.Setup | action.c:419-495 | The flags gain what the command templates need, and a missing name is filled in |
| Descriptors.MimeNode.AddTail | descparser.c:225-225 | An action joins the end of the list and changes nothing else |
| DescriptorParser.DescriptorReader.Scan | descparser.c:62-85 | The words of a line overwrite the first word buffers; a blank line leaves the previous words in place |
| DescriptorParser.DescriptorReader.ReadLine | descparser.c:50-100 | The next line that is no comment, cut at the buffer size, with its words; at the end of the file the count is 0 |
| DescriptorParser.DescriptorReader.JoinWords | descparser.c:230-240 | The words from a position on, joined by single spaces |
| DescriptorParser.DescriptorReader.ParseMatch | descparser.c:101-205 | The recognition block: each line appends its step or sets the hint; a missing end drops the recogniser |
| DescriptorParser.DescriptorReader.ReadAction | descparser.c:207-406 | The action block: names, event, commands, flags and qualifier, up to its end |
| DescriptorParser.DescriptorReader.ApplyActionLine | descparser.c:228-397 | One line of an action block; unknown words leave the action as it is |
| DescriptorParser.DescriptorReader.ParseAction | descparser.c:216-226 | A complete action is set up and added to the list, an incomplete one is not |
| DescriptorParser.DescriptorReader.ReadFirst | descparser.c:418-441 | Leading blank lines are skipped; a wrong identification or version line is refused |
| DescriptorParser.DescriptorReader.ApplyBodyLine | descparser.c:490-527 | One line of a body that opens no block |
| DescriptorParser.DescriptorReader.ParseBody | descparser.c:483-561 | The body up to its end; nothing is returned when it or one of its blocks is incomplete |
| DescriptorParser.DescriptorReader.Parse | descparser.c:408-562 | Parsing one descriptor with the shared word buffers computes the functional definition, including how much input is left |
| DescriptorSaver.OutFile.Put | descsaver.c:61-62 | A write that fails leaves the file as it is and clears the result |
| DescriptorSaver.WriteHead | descsaver.c:43-191 | The head of a descriptor, with its recogniser, piece by piece |
| DescriptorSaver.WriteRecog | descsaver.c:83-183 | The recognition block; its end only when there are steps |
| DescriptorSaver.WriteCommands | descsaver.c:193-227 | One line per command, in order |
| DescriptorSaver.WriteAction | descsaver.c:229-247 | The event line; an action without event is written as a menu action |
| DescriptorSaver.WriteFlags | descsaver.c:341-372 | The flag lines in their fixed order |
| DescriptorSaver.WriteNames | descsaver.c:272-298 | The names of an action, in English |
| DescriptorSaver.WriteOneAction | descsaver.c:263-375 | One action with its new event; the result forgets the writes before its event and its commands |
| DescriptorSaver.WriteActions | descsaver.c:263-378 | All actions in order; the nodes' events change as the default action does |
| DescriptorSaver.WriteDescriptor | descsaver.c:259-382 | The file receives the pieces of the descriptor as it is left, those whose write failed apart |
| DescriptorSaver.ChangeFile | descsaver.c:252-398 | Saving, with or without a new default action: the file's text, the descriptor left, and which writes the result speaks for |
| DescriptorSaver.WrittenAll | descsaver.c:252-398 | When no write fails the file holds all pieces |
| DescriptorRoundTrip.ReadLineOfWords | descparser.c:50-100 | A printed line of at most 16 words is read back as its words, whatever the buffers held |
| DescriptorRoundTrip.RecogKeywordRead | descparser.c:111-195 | The keyword printed for a step is the one the parser takes for it, for every kind of step that is printed |
| DescriptorRoundTrip.ReadNodes | descparser.c:109-196 | The printed steps of a recogniser are read back in order |
| DescriptorRoundTrip.ReadRecog | descparser.c:101-205 | A printed recogniser with steps is read back whole |
| DescriptorRoundTrip.KindNameRead | descsaver.c:400-432 | Every command type is printed under a name that is read back as it |
| DescriptorRoundTrip.ReadFlags | descparser.c:347-374 | The printed flags are read back, except the asynchronous one, which is ignored |
| DescriptorRoundTrip.ReadAction | descparser.c:207-406 | A printed action is read back with its names, event, commands, qualifier and flags |
| DescriptorRoundTrip.RoundTrip | descsaver.c:43-398 | Parsing what is printed for any well-formed descriptor gives back the same descriptor and leaves the rest of the input unread |
| DescriptorRoundTrip.FileRoundTrip | mimetype.c:1086-1104 | A file of concatenated saved descriptors parses back to the same list |
| DescriptorRoundTrip.SurvivesExactly | descsaver.c:83-183 | With good attributes, a descriptor survives being saved, whatever follows it, if and only if its recogniser, if any, has steps |
| DescriptorRoundTrip.LostWithoutSteps | descsaver.c:102-182 | Without steps the recognition block runs on into what is written after it and the descriptor is lost |
| DescriptorRoundTrip.DefaultActionSaved | descsaver.c:300-318 | Changing the default action leaves at most that one double-click action, drag and drop untouched, and the saved file parses back to the changed descriptor |
| DescriptorRoundTrip.CleanSaveParses | descsaver.c:252-398 | A save during which no write fails parses back to the descriptor |
| DescriptorRoundTrip.ReportSpeaksForAll | descsaver.c:303-321 | The reported success of a save speaks for all its writes if and only if the descriptor has no actions |
| DescriptorRoundTrip.SuccessWithLostSignature | descsaver.c:303-321 | With actions, a save can report success although the identifying line was not written, and the file is then no descriptor |
| DescriptorComments.CommentsAreNotRead | mimetype.c:1086-1104 | For every file of lines that fit the buffer, printed or not, the same descriptors are read as without its comment lines |
| DescriptorComments.BlankLineSkipped | descparser.c:418-441 | A blank line before a descriptor changes nothing, whatever the word buffers hold |
| DescriptorComments.CommentedFileRoundTrip | mimetype.c:1086-1104 | A file of saved descriptors parses back to the list whatever blank lines are put before each of them and whatever comment lines between any two of its lines |
| DescriptorComments.PrintedIsPlain | descsaver.c:43-398 | What is printed for a descriptor consists of lines that fit the buffer, none of them a comment |
| DescriptorComments.BlankAfterCommand | descparser.c:75-85 | Inside a block a blank line is read: after a command line it adds a command of the same type without text |
| DescriptorComments.ManyWordsCut | descparser.c:81-85 | Of a line with more than sixteen words the first sixteen are read |
| DescriptorComments.ProtectionIsRead | descparser.c:191-195 | A protection step, which is never printed, is read |
| DescriptorComments.UnnamedAction | action.c:487-493 | An action block without a name line gives an action named Default |
| DescriptorComments.CaseDoesNotMatter | descparser.c:111-195 | Keywords are known in any case |
| DescriptorComments.NamesInAnyCase | descparser.c:270-397 | So are the names of events, command types and qualifiers |
| Templates.ExpandPlaceholder | actiondispatcherclass.c:556-676 | The branches of the expansion: what a placeholder appends and how many characters it takes; `%Di` gives the id and then the path |
| Templates.ExpandCommand | actiondispatcherclass.c:544-691 | The expansion loop equals splitting the template into tokens and substituting them, with the cursor at most one past the end |
| Templates.ScanCoversExpansion | action.c:432-484 | For every template, each location the expansion reads has been asked for by the scan |
| Templates.StartIffEven | actiondispatcherclass.c:554-676 | For every template and position, the expansion takes a percent sign for the start of a placeholder if and only if an even number of percent signs stands directly before it |
| Templates.NeedIsTokenIffGenuine | action.c:443-483 | A location that the scan asks for at a position is that of the placeholder the expansion reads there if and only if an even number of percent signs stands before it and it is no `%d` |
| Templates.UsedIffAskedGenuinely | action.c:443-483 | For every template, some placeholder uses a location if and only if the scan asks for it at such a position |
| Templates.ScanIsExactIff | action.c:443-483 | The scan asks only for what the expansion reads if and only if all it asks for at other positions is asked for at such a position too |
| Templates.ExactWithoutDoubledPercent | action.c:443-483 | A template without doubled percent signs and `%d` has only those locations asked for that its placeholders use |
| Templates.ScanAsksForMore | action.c:443-483 | The converse fails in two ways: for `%%s` the scan asks for a uri where the expansion reads plain text, and for `%d` it asks for a destination where the expansion copies the `d` |
| Templates.EntriesAskedIff | action.c:453-458 | The scan asks for entries if and only if an `s` follows some percent sign |
| Templates.PlainTextUnchanged | actiondispatcherclass.c:660-676 | Text without `%s`, `%S` and `%D` is copied unchanged; there is one terminator more if and only if it ends in an odd number of percent signs |
| Templates.PlainCommandUnchanged | actiondispatcherclass.c:660-691 | As a command, such text is unchanged |
| Expansions.CommandOfParts | actiondispatcherclass.c:554-690 | A template that is cut where a token starts becomes the commands of its two parts, one after the other; none if one of them needs a destination that is missing |
| Expansions.SourceIdText | actiondispatcherclass.c:605-611 | Between any texts, `%Si` is a decimal number that reads as the source's identifier |
| Expansions.DestIdText | actiondispatcherclass.c:618-658 | `%Di` is a decimal number that reads as the destination's identifier, followed by the destination |
| Expansions.DrawerText | actiondispatcherclass.c:625-645 | `%Dp` is the destination, with a slash added unless it ends in a slash or a colon |
| Expansions.PathTexts | actiondispatcherclass.c:612-658 | `%S` and `%D` are the paths of the source and of the destination |
| Expansions.EntryTexts | actiondispatcherclass.c:568-579 | `%sp` and `%sf` are the entry's path and its file part |
| Expansions.UriText | actiondispatcherclass.c:580-603 | `%s` is the entry's uri, left alone for file uris, quoted or not, and decoded for all others |
| EntryLists.CompareIsStrictOrder | actiondispatcherclass.c:704-719 | On entries with different indices the comparison is total, antisymmetric and transitive |
| EntryLists.SortSorts | actiondispatcherclass.c:783-786 | A comparison sort gives an ordered permutation |
| EntryLists.SortedIsUnique | actiondispatcherclass.c:704-719 | The ordered permutation is unique, so the result does not depend on the sort used |
| EntryLists.SortedGroups | actiondispatcherclass.c:704-719 | After the sort the entries of an action stand together, in the order in which they were added |
| EntryLists.MergeConserves | actiondispatcherclass.c:793-923 | The groups that are merged, one after the other, are the list: nothing is lost, added or reordered, and only entries of one action that takes several locations are joined |
| EntryLists.JoinedLocations | actiondispatcherclass.c:858-909 | A joined entry has the action of its group, the index of its last entry and all locations of the group, separated by spaces; locations without white space can be told apart again |
| EntryLists.OneEntryPerAction | actiondispatcherclass.c:915-918 | Because the cursor steps over the entry after a merged group, all that could be joined is joined if and only if no two such groups of two or more entries meet |
| EntryLists.SecondPairStaysApart | actiondispatcherclass.c:915-918 | A case: of two pairs of entries for two such actions the second pair is left apart |
| EntryLists.CopiesHaveBuffersIff | actiondispatcherclass.c:841-882 | Every string of a group that is merged has a buffer to go to if and only if at each location no entry of the group has a string or some entry has one that is not empty |
| EntryLists.MergeIsSafeIff | actiondispatcherclass.c:793-923 | So for a whole list: all copies go to allocated buffers if and only if this holds of each group of two or more entries that is merged |
| EntryLists.EmptyStringsAreNotSafe | actiondispatcherclass.c:841-869 | A case: two entries of such an action whose file parts are both there and empty are copied to a buffer that is not allocated |
| EntryLists.NoEmptyStringsAreSafe | actiondispatcherclass.c:841-869 | When no string that is there is empty, every merge is safe |
| MergePass.CountRun | actiondispatcherclass.c:813-831 | The number of entries with the action of the first, and the lengths of their strings |
| MergePass.NewBuffer | actiondispatcherclass.c:841-852 | A buffer of `len + num + 1` bytes for each location that is used |
| MergePass.JoinedFits | actiondispatcherclass.c:841-882 | The joined strings with separators and terminator fit in the buffer |
| MergePass.StrCpy | actiondispatcherclass.c:869-869 | The text and its terminator at an offset, and nothing before it |
| MergePass.MoveString | actiondispatcherclass.c:867-881 | A string is appended, with a separator unless it is the last, and freed once |
| MergePass.EntryList.MergeOne | actiondispatcherclass.c:858-891 | One entry's strings move to the buffers; all but the last entry leave the list and are freed |
| MergePass.EntryList.MergeGroup | actiondispatcherclass.c:833-909 | A group whose copies have buffers, empty strings or not, becomes one entry with the joined strings; the account of memory blocks balances |
| MergePass.EntryList.MergeAll | actiondispatcherclass.c:793-923 | The pass in place computes the merged list, or stops at an abort, and every block is allocated and freed exactly once; asked only where all copies have buffers |
| MergePass.EntryList.MergeAt | actiondispatcherclass.c:802-923 | One step of the cursor, over a single entry or over a merged one and the entry after it |
| Dispatchers.ActionDispatcher.AddUri | actiondispatcherclass.c:381-400 | An entry is added at the end with the next index; plain paths are encoded, file uris kept |
| Dispatchers.ActionDispatcher.Lookup | actiondispatcherclass.c:403-478 | The uri gives way to exactly the locations that the action's flags ask for, quoted or not, and its block is freed |
| Dispatchers.ActionDispatcher.LookupAll | actiondispatcherclass.c:766-777 | All entries are looked up in order, up to an abort |
| Dispatchers.LookupMeetsNeeds | actiondispatcherclass.c:449-460 | After the look-up every entry has the locations its templates need |
| Dispatchers.MergeKeepsNeeds | actiondispatcherclass.c:793-923 | Merging keeps every location that a template needs |
| Dispatchers.NeedsCoverExpansion | actiondispatcherclass.c:546-678 | So every location the expansion of an entry's templates reads is there |
| Dispatchers.ActionDispatcher.ParseCommands | actiondispatcherclass.c:541-699 | The expanded commands in order, or none when one cannot be expanded |
| Dispatchers.ActionDispatcher.RunEntry | actiondispatcherclass.c:954-992 | One entry's commands; a destination selected by the user is kept for the rest of the run |
| Dispatchers.ActionDispatcher.DeleteNode | actiondispatcherclass.c:364-378 | An entry's strings and block are freed, each once |
| Dispatchers.ActionDispatcher.RunAll | actiondispatcherclass.c:931-1002 | The entries run in order up to an abort, and all are freed |
| Dispatchers.ActionDispatcher.Execute | actiondispatcherclass.c:762-1002 | A whole run, aborted at any of its checks or not: the entries are looked up, ordered, merged and run as defined, the jobs that ran are the first of those defined and all of them without an abort, and all memory is freed |
| Dispatchers.EveryEntryRuns | actiondispatcherclass.c:932-1001 | With a destination every entry that has an action runs, once and in order |
| Dispatchers.EveryUriRunsOnce | actiondispatcherclass.c:762-1002 | The entries that run, split into those they were merged from, are exactly the looked-up ones |
| Dispatchers.NamedRunsAreSafe | actiondispatcherclass.c:793-923 | When uris, paths and file parts are not empty, all copies of a run go to allocated buffers |
| Dispatchers.VolumesAreNotSafe | actiondispatcherclass.c:841-869 | A case: for two volumes and an unquoted action that takes several file parts at once they do not |
| RunTexts.AddOne | actiondispatcherclass.c:381-400 | Adding a uri keeps file uris as they are and encodes plain paths behind the scheme |
| RunTexts.HandsOver | actiondispatcherclass.c:762-1002 | Every job of a run is for some of the uris added, in that order, more than one only for an action that takes several at once; where a template has `%sp`, `%sf` or `%s` between two texts, the command has there the gathered paths, file parts or uris, quoted unless the action is unquoted and separated by spaces, and for `%D` the destination |
| RunTexts.DestOfEntry | actiondispatcherclass.c:485-512 | The destination an entry sees is the one given or, without one, the first that a user selects for an entry with a `%D`, quoted; it stays for all later entries |
| RunTexts.EveryUriIsHandedOver | actiondispatcherclass.c:762-1002 | With a destination every uri for which there is an action is handed over by a job with these texts |
| RunTexts.AllAtOnce | actiondispatcherclass.c:793-923 | An action given for the whole run that takes several locations at once has one job, for all uris in the order in which they were added |
| RunTexts.OneByOne | actiondispatcherclass.c:793-923 | One that does not has a job for each uri, in that order |
| Thumbnails.CopyRow | cache.c:112-128 | One row is copied to its place and nothing before it is touched |
| Thumbnails.CopyBitmap | cache.c:91-137 | The copy fills its buffer of `w * h * bpp` bytes exactly, for any row modulo |
| Thumbnails.ChannelInPlace | cache.c:112-128 | Each channel of each pixel is at the offset its reader expects; the alpha byte is dropped when there are three channels |
| Thumbnails.NoOverlap | cache.c:112-128 | No two channels of pixels share a byte of the copy |
| Thumbnails.FillsExactly | cache.c:97-97 | Every byte of the copy is a channel of a pixel |
| Caches.Semaphore.Attempt | cache.c:236-236 | The semaphore is taken unless another task holds it, and nests for its holder |
| Caches.Cache.Get | cache.c:232-269 | The value found, if the semaphore is free; stamps as the code sets them; after a thumbnail hit the lock is kept |
| Caches.Cache.Unlock | cache.c:271-274 | The lock goes back to what it was |
| Caches.Cache.Set | cache.c:276-322 | A copy replaces the value for its tag, old copies are freed with the size they were allocated with, and a busy cache is left alone |
| Caches.Cache.ClearNode | cache.c:324-356 | The values for one tag or all are freed and removed |
| Caches.Cache.Invalidate | cache.c:397-424 | One node, or all for hash 0, loses the values for one tag or all |
| Caches.Cache.FlushValues | cache.c:186-205 | Each value of a node is freed once |
| Caches.Cache.FreeNode | cache.c:207-214 | A node is freed with its values, each block with its allocated size |
| Caches.Cache.CountUnused | cache.c:365-379 | The first pass counts the stale nodes |
| Caches.Cache.MarkUnused | cache.c:381-395 | The second pass fills the node array exactly |
| Caches.RemoveMarked | cache.c:442-463 | Deleting the marked nodes one by one leaves exactly those that are not stale |
| Caches.Cache.DeleteUnused | cache.c:426-465 | A clean-up leaves exactly the nodes that are not stale and the pool's blocks are those of what is left |
| Caches.Cache.Flush | cache.c:564-583 | On low memory all nodes and copies are freed, unless another task is in the cache |
| CacheRuns.StepOnValue | cache.c:232-465 | What any step of any task does to the value for a hash and a tag |
| CacheRuns.HitIsLastStored | cache.c:232-465 | In every run of several tasks' steps a value is there if and only if some step stored it and none since replaced, invalidated, evicted or flushed it, and it is the copy made by that step |
| CacheRuns.ReplyIsLastStored | cache.c:232-269 | A look-up replies with that value, exactly when no other task is in the cache |
| CacheRuns.OthersChangeNothing | cache.c:271-465 | While a task holds the cache no step of another task changes anything |
| CacheRuns.ThumbnailHitLocks | cache.c:251-260 | A thumbnail hit leaves the task holding the cache, and unlocking undoes it |
| CacheRuns.ThumbnailIsSafe | cache.c:251-260 | A thumbnail handed to a task stays in the cache, at its address and unchanged, until the task unlocks, whatever other tasks do |
| CacheRuns.CleanupIsExact | cache.c:365-465 | After a clean-up the look-ups of every task find exactly what they found before in nodes stamped above the threshold |
| CacheRuns.ReadNodeSurvives | cache.c:244-247 | A node that was just read survives the next clean-up if and only if the hit counter, which replaces the time, has passed the threshold |
| CacheRuns.StoredNodeSurvives | cache.c:165-171 | A node that was just written survives a clean-up by any task if and only if the time has passed the threshold |
| CacheRuns.StampCountsHits | cache.c:71-71 | In every run from the empty cache the counter that hits are stamped with is the number of hits so far, and one, in a word |
| CacheRuns.StampIsOfLastTouch | cache.c:165-252 | In every run a node bears the stamp of the last step that stamped it: the number of hits for a hit, the time for any other |
| CacheRuns.SurvivesByLastTouch | cache.c:365-465 | In every run a clean-up keeps a value if and only if the step that stamped its node last stamped it above the threshold |
| CacheRuns.FreshReadIsEvicted | cache.c:244-252 | A case: a value stored, read and cleaned up at one time is gone |
| CacheRuns.HeldIffUnpaid | cache.c:232-274 | In every run a task holds the semaphore nested n times if and only if it has had exactly n thumbnail hits more than unlocks, and it is free if and only if no task has had more; every other step gives it back |
| CacheRuns.StaysHalfAnHour | cache.c:426-436 | Once the clock has run for 1800 seconds, a stored value survives a clean-up if and only if it was stored less than 1800 seconds ago |
| Disposal.Disposer.PushAll | appclass.c:8301-8360 | The thread's loop pushes the messages for all chunks, from the end, and then the one that frees the array |
| Disposal.Disposer.HandleNext | appclass.c:6797-6806 | The main task disposes the objects up to the next null, nulls them, and frees the array if asked |
| Disposal.QueueCanBeHandled | appclass.c:8323-8348 | In every interleaving each message still finds the array, ended by a null |
| Disposal.NothingTwice | appclass.c:8301-8358 | In every interleaving no object is disposed twice and the array is not freed while an object is left |
| Disposal.EverythingDisposed | appclass.c:8301-8358 | When both tasks are done every object has been disposed exactly once, for every length, and the array is freed if it was to be |
| Disposal.SameAsDirect | appclass.c:6792-6807 | The chunks dispose the objects that the main task disposes in one go without a thread |
| Disposal.MessagesForTwenty | appclass.c:8316-8352 | There is a message for every twenty objects, one for those left over and one that frees the array |
| Disposal.StepsRunOut | appclass.c:8334-8350 | Every step brings the end nearer, so every interleaving ends |
| Backgrounds.Application.CenterImage | appclass.c:6255-6379 | A picture is kept or deleted, never both |
| Backgrounds.Application.CenterBackground | appclass.c:6419-6473 | A redraw: the slots of every screen, with no picture lost or deleted twice |
| Backgrounds.CenterDisposes | appclass.c:6422-6469 | A redraw disposes the transition pictures of a screen exactly if neither it nor a screen before it is mixed |
| Backgrounds.RedrawAfterEnd | appclass.c:6438-6441 | After the end of a transition the next redraw leaves only the pictures shown |
| Backgrounds.Application.RemoveTransition | appclass.c:6381-6388 | A running transition is stopped and its handler removed |
| Backgrounds.Application.UpdateTransitionEffect | appclass.c:6390-6398 | A tick raises the level by 5 and ends the transition at 255 |
| Backgrounds.Application.AddBackgroundRoot | appclass.c:6482-6534 | A new picture, with or without a transition, through the redraws that follow: each live picture is in exactly one slot, the one replaced is deleted once and last |
| Backgrounds.Application.AddBackgroundWindow | appclass.c:6535-6543 | The windows' picture is replaced and the old one deleted |
| Backgrounds.Application.Dispose | appclass.c:396-403 | At the end all pictures are deleted, each once |
| Backgrounds.RunKeepsInv | appclass.c:6381-6533 | In every run the timer handler is installed once exactly while the transition runs, and the level is a multiple of 5 |
| Backgrounds.TransitionEnds | appclass.c:6390-6398 | A transition that is not restarted ends with the 51st tick, at exactly 255, whatever redraws come between |
| Backgrounds.ActiveIffStarted | appclass.c:6381-6533 | In every run a transition is active if and only if the last picture added to a screen came with a mixture and fewer than 51 ticks followed; its level is 5 for each of them |
| Backgrounds.RedrawInRun | appclass.c:6419-6473 | In every run, a redraw while a transition runs leaves the pictures of each screen that can mix them as they are; a screen loses its transition pictures exactly if neither it nor one before it can mix, and without a transition every screen loses them |
| Backgrounds.TransitionKept | appclass.c:6419-6526 | While a transition runs, its screen keeps the mixture, the picture shown before and the new one through all redraws that do not fail on it |
| AppIcons.AppIconList.AddAppIcon | wblib/appicon.c:194-212 | A new entry at the end of the list |
| AppIcons.AppIconList.RemoveAppIcon | wblib/appicon.c:277-300 | A new entry is taken off and freed at once, any other is marked |
| AppIcons.AppIconList.Synchronize | appicon.c:209-256 | Both passes: removed and loaded entries are dropped with their icons, then new ones are created |
| AppIcons.AppIconList.MarkAsLoaded | appicon.c:262-280 | The entry of a loaded icon is marked |
| AppIcons.AppIconList.LoadFinished | appclass.c:7418-7452 | The end of a load; only success marks the entry and synchronizes again |
| AppIcons.EveryLifeIsOrderly | appicon.c:209-286 | In every run the events of each entry are the start of one of five lives: created at most once, freed at most once and only after creation and load have ended and the icon was deleted, and nothing afterwards |
| AppIcons.SyncCreatesAll | appicon.c:237-250 | A synchronization creates the icon of every new entry and leaves none new |
| AppIcons.EveryNewEntryIsCreated | appicon.c:209-256 | In every run, after each synchronization every entry on the list has had its icon created, the new ones with the outcome of this synchronization |
| AppIcons.LoadingIsListed | appicon.c:222-237 | An entry whose icon is loading is on the list, so a load never touches a freed entry |
| AppIcons.RemovedStays | appicon.c:217-237 | A removed entry outlives a synchronization if and only if its icon is still loading or could not be loaded |
| AppIcons.FailedLoadStays | appclass.c:7442-7450 | After a failed load the next step, whatever it is, leaves the entry's history and keeps it on the list |
| AppIcons.FailedLoadStaysForever | appclass.c:7442-7450 | In every run nothing ever happens again to an entry whose load has failed, and it stays on the list |
| AppIcons.RemovedIsFreed | appicon.c:209-256 | In every run, an entry that some step removed is off the list, out of the view and freed after each later synchronization, unless its load is pending or has failed |
| AppIcons.OnlyRemovedIsFreed | appicon.c:217-237 | Conversely, in every run only an entry that an earlier step removed has its icon deleted or is freed |
| AppIcons.ListInOrder | wblib/appicon.c:194-212 | In every run the list is in the order in which the entries were added |
| ContextMenus.BuildMenu | contextmenu.c:1027-1127 | The pass computes the menu and whether a parent was read before it was set |
| ContextMenus.MenuIsSeparated | contextmenu.c:1029-1125 | For every table and mask the entries added are the allowed ones with their separators collapsed |
| ContextMenus.MenuHasAllowedItems | contextmenu.c:1031-1125 | All allowed entries are in the menu, in order, and no separator is first, last or next to another |
| ContextMenus.AfterBarIsLast | contextmenu.c:1119-1125 | The separator that may be taken back is the last item and a member of the current parent |
| ContextMenus.InMenuIff | contextmenu.c:1031-1031 | A named entry is in the menu if and only if it is in the table, its function permits it, and it asks for nothing, for something the mask has, or to be shown disabled |
| ContextMenus.EnabledIff | contextmenu.c:1072-1098 | An item is enabled if and only if its entry is and, if it is to be shown disabled otherwise, the mask has something it asks for |
| ContextMenus.ShownInOrder | contextmenu.c:1044-1109 | With all submenus opened the items are shown in table order, for every table |
| ContextMenus.DepthsRightIffBuildable | contextmenu.c:1044-1078 | Every item sits as deep as its entry says, and no parent is read before it is set, if and only if the first kept entry has depth 0 and depths go down by one and up only all the way |
| ContextMenus.ParentIsTablesIffKept | contextmenu.c:1044-1109 | In a menu with the right depths an item hangs under the last kept entry before it that is less deep; this is its parent in the table if and only if that parent is kept or there is none |
| ContextMenus.OrphanMovesUp | contextmenu.c:1031-1078 | A case: below an entry that is not permitted, the next item hangs under the entry before |
| ContextMenus.TwoLevelsGoWrong | contextmenu.c:1060-1074 | Depths 0, 1, 2, 1: the last item ends up in the inner submenu |
| CxLists.CxList.TryAdd | cxlistclass.c:207-254 | A listed broker is marked, another is added if it passes the filter |
| CxLists.CxList.ExitChange | cxlistclass.c:257-286 | The sweep in place keeps exactly the marked entries, in order |
| CxLists.CxList.Rescan | cxlistclass.c:195-286 | A rescan leaves a swept list |
| CxLists.RescanIsExact | cxlistclass.c:195-286 | After any rescan of a swept list, also when the count wraps, there is exactly one entry for each broker offered that was listed or passed the filter |
| CxLists.FilteredIff | cxlistclass.c:216-252 | After a rescan the list is what the filter lets through if and only if every listed broker that is offered again passes it |
| CxLists.RescansFilter | cxlistclass.c:195-286 | After any number of rescans the list is what the filter lets through, as long as brokers with one address all pass or none does |
| CxLists.ReusedAddressStays | cxlistclass.c:216-252 | A case: an address used again by a broker that the filter holds back stays listed |
| CxLists.NamesAreOffered | cxlistclass.c:216-252 | After a rescan every entry has the address and the name of one listed before or of a broker offered that passes the filter |
| CxLists.RescanKeepsOrder | cxlistclass.c:133-139 | A list in order stays in order through a rescan that inserts new entries in their places |
| Clickpaths.GetNext | clickpathclass.c:166-179 | The position after the next separator, or the end |
| Clickpaths.ComponentsAreThePath | clickpathclass.c:276-318 | The components, one after the other, are the path |
| Clickpaths.Clickpath.SetPath | clickpathclass.c:181-318 | The path shown stays when the new one is above it; the positions of the buttons are the ends of the components, and which button is highlighted |
| Clickpaths.HighlightedSelectsPath | clickpathclass.c:201-230 | The highlighted button is the one that selects the new path, but for a separator after it; a position of -1 becomes 0 |
| Clickpaths.ComponentKeepsPath | clickpathclass.c:201-240 | Going to the path up to a component, in any case and without the slash at its end, leaves the path shown as it is; with the slash it replaces it, unless another slash follows |
| Clickpaths.Clickpath.SetPosition | clickpathclass.c:352-374 | A component or the devices become current |
| Clickpaths.Clickpath.Parent | clickpathclass.c:533-576 | The parent of the current path, with the case of a virtual device |
| Clickpaths.StepsKeepOnPath | clickpathclass.c:181-374 | The current path stays the start of the path shown, but for case, or the devices |
| Clickpaths.WalkVisitsParents | clickpathclass.c:553-572 | Going to the parent again and again visits the paths that end with a component, longest first, and then the devices |
| Clickpaths.StopsAreDifferent | clickpathclass.c:553-572 | No path is visited twice |
| Clickpaths.ParentOfDevices | clickpathclass.c:553-572 | Asked for the parent of the devices, the code selects the first nine characters of the path shown |
| Capacity.FormatSeparated | capacity.c:88-141 | The division loop prints the digits with a separator between groups of three, and nothing for 0 |
| Capacity.GroupsAreTheNumber | capacity.c:88-141 | Without separators the text is the number in decimal, and its first group has no leading zero |
| Capacity.PrintedAsGroups | capacity.c:88-141 | Whatever the separator, the text is that of the groups of three digits that denote the number |
| Capacity.HasGroups | capacity.c:88-141 | Every number is denoted by such groups, without a leading group of zeros |
| Capacity.SeparatedTellsApart | capacity.c:88-141 | Different sizes are printed differently, whatever the separator |
| Capacity.AtMostSevenGroups | capacity.c:108-124 | A 64-bit size has at most seven groups, and the divisor is at most 10 to the 18 |
| Capacity.RoundCutsOff | capacity.c:36-60 | The rounded value is the size cut off after the decimal, never above it, in the unit that the size calls for |

## Left out

- DescriptorComments.CommentsAreNotRead: lines end in a newline and fit the line buffer; the rest of a longer line is a line of its own.
- CxLists.RescanKeepsOrder: the place where the list class inserts an entry is a parameter of each offer.
- DescriptorRoundTrip.RoundTrip: words of 512 characters or more overrun the parser's buffers, and a command line of 256 or more the printer's, so both are outside the well-formed descriptors; protection steps, which are parsed but not printed, are excluded for the same reason.
- DescriptorParser.DescriptorReader.ReadLine: null bytes in a file are treated as text. The rest of a line that is longer than the buffer is a line of its own, also where it starts with a comment sign and so is skipped.
- DescriptorSaver.ChangeFile: the descriptor has a type, its actions have names and its recogniser has no protection step, for which the printer would write an unset buffer.
- Dispatchers.ActionDispatcher.Execute: putting the reference window to sleep and changing the current directory around the commands are not modelled.
- Dispatchers.ActionDispatcher.RunEntry: the user is asked at most once per entry, as an answer ends the asking or the entry; the selection window itself is a parameter.
- MergePass.EntryList.MergeGroup: a copy to a buffer that is not allocated has no meaning in the model, so the passes ask for `EntryLists.CopiesHaveBuffers`, whose exact condition and failing cases are proved.
- EntryLists.SortSorts: the list sort of the program's library is represented by an insertion sort, which `EntryLists.SortedIsUnique` shows to make no difference.
- MergePass.EntryList.MergeAll: allocations succeed; entries are addresses with values in a sequence, so list links are not modelled.
- Caches.Cache.Set: its allocations (`cache.c:99`, `cache.c:175`) only succeed or fail. In the program one that finds no memory can run the low-memory handler in the same task, whose attempt at the semaphore nests, so that it can flush the node that is being written; this is not modelled. The tree library is a list of nodes by key in the order in which it is walked; blocks the library allocates for itself are not in the account.
- Backgrounds.Application.CenterImage: whether a new bitmap is needed for a screen, and its drawing, are not modelled; that it is needed and cannot be made is a parameter.
- Backgrounds.Application.AddBackgroundRoot: the pixels that a transition draws are not modelled.
- AppIcons.AppIconList.Synchronize: the freeing of all entries at the end of the program, and an entry that cannot be built in the library before it joins the list, are not modelled; handles are not used again for new entries.
- ContextMenus.BuildMenu: the choice among the tables and a failure to make an item are not modelled.
- Clickpaths.Clickpath.SetPath: for an empty path the byte before the start of the path shown is read, which is a parameter; a button that cannot be made is not modelled.
- Capacity.FormatSeparated: the length limits of the buffers are not modelled.
- Drawing, notification and window plumbing of all classes, ARexx, preferences and real file and device access: they have no state of the kind treated here.
- The compact form of sizes, processor tables and index switches: they would only add members that read like their bodies.
