# nerves_initramfs: a verified model

`nerves_initramfs` is the program in the initial RAM file system of a Nerves device. It
reads a small boot script, keeps its memory between boots in a U-Boot environment block,
decides from there which firmware gets control, and offers a line editor when someone is
at the console. This project models these parts in Dafny and proves what they are for:

- **The environment block** (`CString`, `Crc32`, `Crc32Burst`, `EnvBlock`, `EnvMap`,
  `UbootEnv`). The table-driven CRC-32 is the bit-at-a-time one of section 8 of RFC 1952,
  and the reader rejects every sealed block that was changed within 32 consecutive bits of
  its payload. The reader accepts exactly the block format, and writing and then
  reading gives the map back exactly when the names are good: not empty and without `=`
  after the first character. Two environments with one meaning give the same octets.
- **The script machine** (`Values`, `Script`, `Staged`, `StagedTheorems`, `StagedLimits`,
  `DeadBlocks`, `Builtins`, `FunctionTable`).
  The parser evaluates conditions and unary minus while it parses and leaves everything
  else for later. That means the same as running the text from left to right when no
  minus is applied to a command, a file or a revert, and none reads a variable or the
  environment where an earlier action of its block writes it; programs outside this rule
  are shown for which it does not. When a block is not run, what it does all the same is
  stated exactly. Clean programs never use a
  NULL term and never resolve forever; which assignments of a call break this, and which
  do not, is stated exactly.
- **The term heap** (`TermHeap`, `TermBuild`, `Arena`, `HeapOctets`). Allocation, the
  variable list, the copying collector (when it works, what it keeps), the construction of
  terms in linked lists with the in-place reversal, and the octets below: the cells are
  laid out in a zeroed buffer, which is what makes the link of a fresh term NULL.
- **The text form** (`Lexer`, `Numerals`, `Spelling`, `Dump`). The scanner takes the longest
  match and the first rule among equals, and finds whatever tokens were written down, with
  whatever gaps between them. Numerals in every base and letter case are read as their
  number. What `vars()` prints restores the variables when it is evaluated.
- **The boot protocol** (`BootProtocol`, `BootConf`, `BootSettings`, `BootLife`,
  `Storage`). The rules of the demo configuration, run by the modelled interpreter, do exactly the steps of a small
  protocol, whichever of their saves fail. Boot after boot over one block on the disk, with
  power lost anywhere and upgrades in between, firmware that is not validated gets control
  at most once more than reverts of that very firmware failed, as long as the block can be
  read and saved; and what a boot may lose without endangering that is stated exactly.
- **The console and the disks** (`History`, `LineEdit`, `BlockDevice`, `DiskFormats`). The edit buffer,
  changed in place, is a line split at a cursor; the history is a window on what was
  entered; partition tables walked downwards give devices in ascending order, exactly
  those that a disk holds octet by octet, and a UUID in any letter case finds the first
  device with that UUID.

Methods and classes follow the C code where it works on buffers and lists in place; they
are proved against functions, and the lemmas are about those functions. `hide` statements
only keep definitions out of proofs that do not need them.

## Findings

Where the code does not do what one expects of it, the model follows the code:

- `uboot_env_setenv` accepts names that the reader cannot read back: `EnvBlock.RoundTrip`
  and `EnvMap.MapSurvives` say exactly which ones, and `EnvMap.BadNameIsLost` shows `a=b`.
  `uboot_env_unsetenv` leaves an older value visible when a block held a name twice
  (`EnvMap.DropPairMeaning`).
- The reader computes the length of a value the wrong way round (src/uboot_env.c:72). The
  length is zero or, as an unsigned number, no limit, and the value ends at its NUL all
  the same.
- The writer refuses a block that would fit with no octet to spare, because it compares
  with `>=` (src/uboot_env.c:190); `EnvBlock.HasRoom` has the exact size.
- Numbers are compared by subtracting them, which goes wrong when the difference does not
  fit (`Staged.NumbersCompare`).
- A unary minus in a block is computed before the actions in front of it run, and even
  when the block does not run at all (`StagedLimits.EarlyNegation`,
  `StagedLimits.NegationRunsInDeadBlock`). A block whose condition is false does nothing if
  and only if no command, file or revert is asked for under a minus in it
  (`DeadBlocks.DeadBlock`, with the syntactic condition `NegLoudAmong`).
- Assigning the result of `vars()` stores a NULL that the next use follows, and assigning
  the result of `setenv` can make a variable refer to itself (`StagedLimits.NullIsFatal`,
  `StagedLimits.SetenvMakesSelfReference`). An assigned call leaves values in all variables
  if and only if the call is one that returns a value, or a `setenv` of a literal or of
  something under a minus (`StagedLimits.AssignedCallIsValue`).
- The function table lets `sleep()` be called without a parameter, and then its handler
  follows NULL; it is the only built-in of which this is true
  (`FunctionTable.OnlySleepFails`).
- The collector copies a value once for every variable that holds it, so a heap that is
  in order can be too small for its own collection (`TermHeap.SharedMayNotFit`). It turns
  a variable that holds a call into a NULL, which the collection after that follows
  (`TermHeap.CollectedAgain`).
- A boot that loses its saves, or cannot read the environment, can give unvalidated
  firmware another trial, any number of times: the file itself does so at every boot of a
  device that reads its block but cannot write it (`BootLife.UnsavedBootsRepeatOnDisk`).
  `BootProtocol.OneTrialExactly` says exactly which losses in a boot break the bound, then
  or later: the condition `BootProtocol.KeepsSafe` on the flags and counts before it.
- Editing a line costs a full history its oldest entry, and an empty newest entry is
  lost (`LineEdit.EnterRestoresHistory`). Control-C leaves an empty entry behind
  (`LineEdit.InterruptRestoresHistory`). Up and Down lose the last character of a line
  that fills the buffer (`LineEdit.DownUndoesUp`).

## Model

| member | source | states |
|---|---|---|
| `CString.StrLessTotal` | src/uboot_env.c:135-141 | the order that the sort compares names with is a strict total order on strings without NUL |
| `CString.StrLessTransitive` | src/uboot_env.c:135-141 | that order is transitive |
| `CString.StrLessIs` | src/uboot_env.c:135-141 | the order is that of the first place where two names differ, by unsigned octet; a name comes after what it begins with |
| `Crc32.EntryIsShifts` | src/crc32.c:67-111 | each of the 256 table entries is its index divided bit by bit by the reflected polynomial 0xedb88320, eight shifts |
| `Crc32.LookupIsShifts` | src/crc32.c:113-114 | one table step is the eight single-bit steps of the register with the octet mixed in, for every register and octet |
| `Crc32.RegisterComposes` | src/crc32.c:116-125 | the register after two pieces of a message is the register after the second, started from the one after the first |
| `Crc32.Crc32Buf` | src/crc32.c:116-125 | the table-driven loop computes the bitwise CRC of section 8 of RFC 1952 (preset to ones, complemented, low bit first) of the octets it is given, for every buffer |
| `Crc32.CheckValue` | src/crc32.c:116-125 | the CRC of the digits 1 to 9 is the check value 0xcbf43926 |
| `Crc32.LoadStored` | src/uboot_env.c:207-211 | the four octets the writer stores for a CRC read back as that CRC |
| `Crc32.StoredLowFirst` | src/uboot_env.c:207-211 | the writer stores the low octet of a word first, and the others in order |
| `Crc32.LoadedLowFirst` | src/uboot_env.c:39-42 | the reader loads four octets as a word if and only if the first one is its low octet, and so on in order |
| `Crc32Burst.WindowDetected` | src/crc32.c:113-125 | from any register, two different runs of at most 32 bits leave different registers |
| `Crc32Burst.BitBurstDetected` | src/crc32.c:113-125 | from any register, two messages that differ only within 32 consecutive bits leave different registers |
| `Crc32Burst.BurstDetected` | src/crc32.c:116-125 | two messages that differ only within 32 consecutive bits have different CRCs |
| `Crc32Burst.OctetBurst` | src/crc32.c:116-125 | changes within four consecutive octets are changes within 32 consecutive bits |
| `EnvBlock.BurstRejected` | src/uboot_env.c:39-42 | a sealed block whose payload was changed within 32 consecutive bits is rejected, and nothing is read from it |
| `EnvBlock.OctetsRejected` | src/uboot_env.c:39-42 | a sealed block of any length in which one to four consecutive payload octets changed is rejected |
| `EnvBlock.ParseComplete` | src/uboot_env.c:44-79 | every run of well-formed entries that ends at a NUL or at the end of the block is read completely, into the list in reverse |
| `EnvBlock.ParseSound` | src/uboot_env.c:44-79 | whatever the octets, the reader takes a run of well-formed entries off the front and succeeds if the rest is a proper end; if it fails, the rest is neither an end nor begins with an entry |
| `EnvBlock.ReaderAcceptsFormat` | src/uboot_env.c:44-79 | parsing succeeds if and only if the payload is in the format, and then the list is the reverse of the entries, however the payload is divided |
| `EnvBlock.ReadNamesAreGood` | src/uboot_env.c:46-56 | every name that comes out of the reader is nonempty and has no `=` past its first character |
| `EnvBlock.BlockIsSealed` | src/uboot_env.c:203-211 | the block the writer leaves passes the reader's CRC check, and its payload is the entries, a NUL and blanks |
| `EnvBlock.SealedLowFirst` | src/uboot_env.c:39-42 | a block passes the check if and only if its first four octets are those of the CRC of the rest, the low octet first |
| `EnvBlock.SmallBlock` | src/uboot_env.c:169-214 | the block of one variable, octet by octet |
| `EnvBlock.RoundTrip` | src/uboot_env.c:35-80 | a written list is read back as its reverse if and only if all its names are good |
| `EnvMap.FindIsMeaning` | src/uboot_env.c:121-133 | the first pair with a name in the list is what the name means |
| `EnvMap.SetPairMeaning` | src/uboot_env.c:82-98 | setting a variable updates the map at that name only, and keeps names unique |
| `EnvMap.DropPairMeaning` | src/uboot_env.c:100-119 | unsetting changes no other name, and the name is gone afterwards if and only if it was there at most once |
| `EnvMap.SortIsUnique` | src/uboot_env.c:135-167 | with unique names there is only one sorted order, whatever qsort does inside |
| `EnvMap.SortPairsSorts` | src/uboot_env.c:143-167 | such an order exists for every list: a sorted permutation |
| `EnvMap.SaveThenLoad` | src/uboot_env.c:169-214 | with unique good names and enough room, write then read succeeds, gives the reverse of the sorted list, and the same map |
| `EnvMap.MapSurvives` | src/uboot_env.c:169-214 | with unique names and enough room, what is read back is the map that was written if and only if all names are good |
| `EnvMap.BadNameIsLost` | src/uboot_env.c:82-98 | the variable `a=b`, which setenv accepts, comes back as the variable `a` |
| `EnvMap.BlockIsCanonical` | src/uboot_env.c:143-214 | two environments with unique names and one meaning give byte-identical blocks whatever their order; with good names also the other way round |
| `EnvMap.SaveIsStable` | src/uboot_env.c:143-214 | writing, reading and writing again sorts to the same list, and so to the same block |
| `EnvMap.LastOccurrenceWins` | src/uboot_env.c:70-74 | when a block holds a name several times, the last value is the one that is read |
| `UbootEnv.Qsort` | src/uboot_env.c:143-167 | the list becomes a permutation of itself, ordered by name |
| `UbootEnv.ScanEntry` | src/uboot_env.c:47-68 | the two pointer loops find the `=` (searched from the second character) and the NUL behind it, or report that one is missing, without leaving the block |
| `UbootEnv.Env.constructor` | src/uboot_env.c:30-33 | an environment starts empty |
| `UbootEnv.Env.Read` | src/uboot_env.c:35-80 | the pointer-walking reader gives exactly the verdict and the list of the specification, also when it fails halfway, and nothing if the first four octets are not the CRC of the rest, low octet first; it needs a block of at least four octets |
| `UbootEnv.Env.Setenv` | src/uboot_env.c:82-98 | the value is replaced in place or the pair is prepended; the map changes at that name only |
| `UbootEnv.Env.Unsetenv` | src/uboot_env.c:100-119 | the first pair with the name is unlinked and no other; the name is gone if and only if it was there at most once |
| `UbootEnv.Env.Getenv` | src/uboot_env.c:121-133 | the value in the map, or none |
| `UbootEnv.Env.Write` | src/uboot_env.c:169-214 | succeeds if and only if the block has at least 8 octets and room for the entries, in any order of the list; then the buffer is the sealed block of the sorted list, with the low octet of the CRC of the rest first; when it fails, exactly the entries that fit were written and there is no CRC |
| `Values.NumberSurvives` | src/script.c:296-330 | every 32-bit number, printed and read back by strtoull with wrap-around, is itself, negative ones too |
| `Values.TruthSurvives` | src/script.c:275-330 | turning a value into text never changes its truth value |
| `Values.NumberOfText` | src/script.c:296-330 | turning a value into text keeps its number if and only if it is not `true` |
| `Numerals.StrtoullReads` | src/script.c:296-304 | white space, a sign and a numeral in base 8, 10 or 16, in capitals or small letters, is read as its number up to what follows it, saturated and negated as strtoull does |
| `Numerals.CaseKeepsNumber` | src/script.c:296-304 | texts that differ in letter case only are the same numeral |
| `Numerals.SameLetter` | src/script.c:280-285 | letter case is ignored for letters and for nothing else |
| `Numerals.FalseTexts` | src/script.c:275-295 | the empty text, `0`, and `false` in any letter case are false, and no other text is |
| `Numerals.TruthNumbers` | src/script.c:296-330 | the numbers and texts of the truth values, and a negative number as text |
| `Staged.NumbersCompare` | src/script.c:265-266 | all six comparisons of two numbers are right if and only if their difference is a C int |
| `Staged.TextsCompare` | src/script.c:263-264 | all six comparisons of strings follow the order of strcmp |
| `Staged.TruthsCompare` | src/script.c:267-269 | true is greater than false |
| `Staged.EvalOnlyEffects` | src/script.c:233-243 | getting a value may call the outside world and stop the machine, but changes no variable and no environment variable |
| `StagedTheorems.RunsToValue` | src/script.c:213-243 | a built value term, run by the C recursion with depth as fuel, gives the value and the state of the direct semantics |
| `StagedTheorems.RunsAction` | src/script.c:406-530 | so does every clean action: assignment, also of a setenv of a literal or a minus, setenv, print, sleep, loadenv, saveenv and the rest |
| `FunctionTable.LookupFunction` | src/script.c:717-726 | the loop over the table gives the first row with the name that is content with the number of parameters |
| `FunctionTable.LookupIsExact` | src/script.c:694-726 | a name finds a built-in if and only if it is its name and there are as many parameters as the table asks for |
| `FunctionTable.OnlySleepFails` | src/script.c:668-673 | a call that the table accepts has too few parameters for its handler if and only if it is `sleep()` without one; then the handler follows NULL |
| `Builtins.StopsForGood` | src/script.c:656-667 | after reboot() or poweroff() nothing of a block has any effect, in the machine and in the direct semantics: one last effect, and the machine was left |
| `Builtins.ProgramStops` | src/script.c:656-667 | the same for whatever program follows |
| `Builtins.RunHalted` | src/parser.y:52-129 | a machine that was left does nothing any more, whatever is parsed |
| `Builtins.RevertOrReboot` | src/script.c:611-634 | `{ fwup_revert() reboot() }` always leaves the machine, and asks for the reboot if and only if the revert failed |
| `Builtins.PrintWrites` | src/script.c:430-439 | print() writes its parameters as texts in order, and a newline |
| `Builtins.PrintSays` | src/script.c:430-439 | the same for literals and variables |
| `Builtins.VarsShows` | src/script.c:441-450 | vars() changes nothing but what is shown, and follows a NULL if a variable holds one |
| `Builtins.AskPasses` | src/script.c:587-609 | cmd() passes its parameters as texts in order, fifteen at most, and readfile() its first; the value is the text that comes back |
| `Builtins.SleepAsks` | src/script.c:668-673 | sleep() asks for the number of its parameter |
| `Builtins.AssignedIsRead` | src/script.c:406-414 | a variable has the value that was assigned last, and no other variable changes |
| `Builtins.UnsetIsEmpty` | src/script.c:341-348 | a variable that was never set is the empty text |
| `Builtins.SetenvIsRead` | src/script.c:505-530 | getenv gives the text that setenv was given last for that name, and what it gave before for every other; setenv marks the environment as modified |
| `Builtins.LoadenvReports` | src/script.c:462-504 | loadenv replaces the environment by what was read, and its two flags say that it is unmodified and whether the block was in order; without a block nothing changes |
| `Builtins.SaveenvReports` | src/script.c:531-569 | the environment is unmodified exactly when a block went out, and that one has the configured size |
| `Builtins.SaveenvSends` | src/script.c:531-569 | a block goes out if and only if the device opens and takes it, its size is not 0, and it has room for the environment |
| `Builtins.SumLaws` | src/script.c:416-428 | sums and differences of C ints: commutative, with a zero, each undoing the other, and exact where they fit |
| `Builtins.MinusLaws` | src/parser.y:122 | a minus undoes itself, and is the difference to zero |
| `Builtins.LogicLaws` | src/parser.y:85-93 | the truth tables of `&&`, `||` and `!` |
| `Builtins.DeMorgan` | src/parser.y:85-93 | De Morgan for conditions, effects included |
| `StagedTheorems.CleanProgramsAreSound` | src/script.c:233-243 | in a program that assigns only values (literals, variables, sums, differences, getenv, cmd, readfile, fwup_revert results, and setenv of a literal or of something under a minus) every variable always holds a string, number or boolean, no NULL is used and resolving terminates |
| `StagedTheorems.SetenvKeepsMeaning` | src/script.c:505-517 | an assignment of a setenv means after building what it means in the source, with its minus computed early |
| `StagedTheorems.ReduceKeepsMeaning` | src/parser.y:119-129 | a term built in one state means in a later one what its source text means there, if the two agree on the variables under its minus signs, and on the environment if getenv is under one |
| `StagedTheorems.BlockKeepsMeaning` | src/parser.y:66-74 | building a whole block first and running it then is running its actions one by one, if no minus reads a variable or the environment that an earlier action writes |
| `StagedTheorems.CondKeepsMeaning` | src/parser.y:85-101 | a condition evaluated while parsing has the value, the effects and the order of effects of a strict left-to-right evaluation |
| `StagedTheorems.StmtKeepsMeaning` | src/parser.y:57-69 | one statement, staged, is the statement run directly |
| `StagedTheorems.StagingKeepsMeaning` | src/parser.y:52-129 | the same for whole programs: variables, environment, effects in their order and outcome are those of the direct semantics |
| `StagedLimits.EarlyNegation` | src/parser.y:122 | a minus on a variable that the block has just set uses the value from before the block |
| `StagedLimits.NegationRunsInDeadBlock` | src/parser.y:122 | a call under a minus runs although its block does not |
| `DeadBlocks.EvalGrows` | src/script.c:233-243 | getting a value asks the outside world, and is logged, if and only if a command, file or revert is among what its calls use; otherwise the state is unchanged |
| `DeadBlocks.ReduceBuildsOn` | src/parser.y:119-129 | building a term asks the outside world if and only if something that asks is under a minus; if not, what is built asks exactly when its source does |
| `DeadBlocks.DeadBlock` | src/parser.y:61-64 | a block whose condition is false leaves the state as the condition left it if and only if nothing that asks the outside world is under a minus in it; variables and environment stay in any case |
| `DeadBlocks.DeadBlockMeans` | src/parser.y:61-64 | so parsing and running it in stages is reading it from left to right if and only if that holds |
| `StagedLimits.AssignedCallIsValue` | src/script.c:406-414 | when an assigned call with clean parameters returns, all variables hold values if and only if the call returns a value or is a setenv whose second parameter is a literal by then; and those assignments are exactly the clean ones |
| `StagedLimits.NullIsFatal` | src/script.c:406-414 | assigning the result of vars() stores NULL, and the next use of the variable follows it |
| `StagedLimits.SelfReferenceNeverEnds` | src/script.c:233-243 | a variable that holds its own identifier is never resolved, with any depth of recursion |
| `StagedLimits.SetenvReturnsItsParameter` | src/script.c:505-517 | setenv returns its second parameter unresolved |
| `StagedLimits.SetenvMakesSelfReference` | src/script.c:505-517 | so `x = setenv("a", x)` makes such a variable |
| `Storage.SavedMapIsLoaded` | src/script.c:462-569 | what saveenv writes, loadenv reads as the same map |
| `Storage.ValueSurvivesStorage` | src/script.c:462-569 | setenv, saveenv, loadenv and getenv give back a text with the same truth value, and a number with the same number, whenever the save reached the device and the name is good |
| `Storage.SavedBlock` | src/script.c:531-569 | saveenv sends something to the device only when there is room, and then it is the sealed block of the sorted list |
| `BootProtocol.NextIsSafe` | examples/demo/config/nerves_initramfs-x86_64.conf:14-34 | one boot that can read and save its environment (cut short anywhere), validation, upgrade (cut short anywhere) or other event keeps the safety invariant |
| `BootProtocol.BootIsSafe` | examples/demo/config/nerves_initramfs-x86_64.conf:14-34 | a boot that may lose power, the environment, and either of its saves keeps the invariant if and only if a condition on the flags, the counts and what was lost holds |
| `BootProtocol.OtherIsSafe` | examples/demo/config/fwup-x86_64.conf:293-307 | nothing but a boot endangers the invariant: validation, other variables, power loss and upgrades cut anywhere |
| `BootProtocol.UpgradeStartsAgain` | examples/demo/config/fwup-x86_64.conf:293-307 | an upgrade leaves no trials and no failed reverts to the firmware that it installs, however far it got |
| `BootProtocol.UpgradeLeaves` | examples/demo/config/fwup-x86_64.conf:293-307 | what an upgrade leaves after each number of its writes: the slot from the first on, validated up to the first, tried up to the second if it was before, everything else as it was |
| `BootProtocol.BootOf` | examples/demo/config/nerves_initramfs-x86_64.conf:14-34 | what an undisturbed boot does for each combination of the three flags |
| `BootProtocol.NewFirmwareIsTried` | examples/demo/config/nerves_initramfs-x86_64.conf:14-34 | after a whole upgrade and an undisturbed boot the new firmware has control in its first trial; if it does not validate itself, the boot after that reverts it |
| `BootProtocol.ValidatedFirmwareStays` | examples/demo/config/nerves_initramfs-x86_64.conf:14-34 | firmware that validated itself has control after the next boot as well, and no trials |
| `BootProtocol.CutUpgradeIsReverted` | examples/demo/config/fwup-x86_64.conf:293-307 | an upgrade that lost its last write is reverted untried if and only if the firmware before it was booted and may not validate itself at boot |
| `BootProtocol.NextIsTallied` | examples/demo/config/nerves_initramfs-x86_64.conf:14-34 | validated firmware has no trials and no failed reverts, whatever happens and whatever is lost |
| `BootProtocol.SafeIsExact` | examples/demo/config/nerves_initramfs-x86_64.conf:14-34 | the invariant is the weakest one: a device meets it if and only if every life with working storage from there keeps the bound on trials |
| `BootProtocol.OneTrialExactly` | examples/demo/config/nerves_initramfs-x86_64.conf:14-34 | a boot gives unvalidated firmware a trial too many, then or in some later life with working storage, if and only if that condition fails |
| `BootProtocol.LostSaves` | src/script.c:531-569 | a boot whose saves fail takes the steps of one whose saves work, without the saves |
| `BootProtocol.UnvalidatedFirmwareGetsOneTrial` | examples/demo/config/nerves_initramfs-x86_64.conf:14-34 | over every run in which the environment can be read and saved, firmware that is not validated has had control at most once since it was installed or last validated, plus once for every revert of it that failed |
| `BootProtocol.SecondTrial` | src/script.c:611-634 | unvalidated firmware that was booted gets control again at a boot if and only if the environment cannot be read or the revert fails, and power lasts until the hand-over, whichever saves are lost; a revert that works brings back its own environment |
| `BootProtocol.UnsavedBootsRepeat` | src/script.c:531-569 | without saves the protocol gives unvalidated firmware control at every boot, any number of times |
| `BootProtocol.UpgradeNeedsValidated` | examples/demo/config/fwup-x86_64.conf:305-307 | the check that fwup makes before an upgrade implies what the boot rules call validated |
| `BootConf.ConfRefinesProtocol` | examples/demo/config/nerves_initramfs-x86_64.conf:1-36 | the whole file, parsed and run in stages from any sound state, does to the device exactly the protocol's steps on the environment it loaded, in order, and ends in the hand-over unless it reverted; each of its two saves is among them if and only if the device opened and took the write at that very call, and the block had room |
| `BootConf.ConfWithoutSaves` | examples/demo/config/nerves_initramfs-x86_64.conf:14-36 | on a device whose saves all fail, the file does the steps of working saves without the saves |
| `BootConf.RoomIsForTheMap` | src/uboot_env.c:186-193 | whether a block has room depends on the map alone, not on the order of the list |
| `BootConf.SaveOutcome` | src/script.c:531-569 | saveenv changes nothing but its own mark, and the device gets the sealed sorted block if it opens, takes the write and there is room, and nothing otherwise |
| `BootConf.NewDeviceBoots` | examples/demo/config/nerves_initramfs-x86_64.conf:1-36 | concrete runs, which meet every condition of that theorem: on a device whose block cannot be read, the file saves the booted mark and hands over, and where saves fail it hands over without the mark |
| `BootConf.PowerCut` | examples/demo/config/nerves_initramfs-x86_64.conf:14-36 | whenever power fails during that run, the device has seen a prefix of those steps |
| `BootConf.AutovalidateRuns` | examples/demo/config/nerves_initramfs-x86_64.conf:21 | the first rule sets the validated flag and saves if and only if the firmware is not validated and may validate itself; the device gets the flag exactly when the save reaches it |
| `BootConf.RevertRuleRuns` | examples/demo/config/nerves_initramfs-x86_64.conf:23-29 | the second rule reverts if and only if the firmware is not validated and was booted |
| `BootConf.MarkRuleRuns` | examples/demo/config/nerves_initramfs-x86_64.conf:31-34 | the third rule sets the booted flag and saves if and only if it was not set; the device gets the flag exactly when the save reaches it |
| `BootConf.FlagIsSaved` | examples/demo/config/nerves_initramfs-x86_64.conf:31-34 | setenv then saveenv sets the flag in memory, and sends the device a block that reads back as the environment with that flag set, or nothing when the save fails or there is no room |
| `BootSettings.FileSets` | examples/demo/config/nerves_initramfs-x86_64.conf:2-12 | whatever the device answers, after the file every setting has the value that the file gives it |
| `BootSettings.SlotIsKept` | examples/demo/config/nerves_initramfs-x86_64.conf:16 | after the file `fw_active` is the active slot of the environment that was loaded |
| `BootSettings.FileSays` | examples/demo/config/nerves_initramfs-x86_64.conf:36 | if the firmware gets control, the last line that was printed names that slot |
| `BootLife.EffectsAreSteps` | src/script.c:531-634 | what any sequence of saves and reverts does to the block on the disk is what the protocol steps among them do to the map on it |
| `BootLife.BootIsRefined` | examples/demo/config/nerves_initramfs-x86_64.conf:1-36 | a boot of the file over the block on the disk, cut short after any effect, is one event of the protocol: the steps it took before the cut, whether it could read, and for each save whether the device took it at that call and there was room |
| `BootLife.EventIsRefined` | examples/demo/config/nerves_initramfs-x86_64.conf:1-36 | so is every other event of a disk, and the block stays one that can be read |
| `BootLife.LifeIsRefined` | examples/demo/config/nerves_initramfs-x86_64.conf:1-36 | every life of a disk, boot after boot, is a life of the protocol |
| `BootLife.OneTrialOnDisk` | examples/demo/config/nerves_initramfs-x86_64.conf:1-36 | over every life in which boots can read and save the block, unvalidated firmware has had control at most once since it was installed or last validated, plus once for every revert of it that failed |
| `BootLife.BootKeepsBound` | examples/demo/config/nerves_initramfs-x86_64.conf:1-36 | one boot of the file over the block, as the event that it is, keeps the bound, then and in every later life with working storage, if and only if the condition on that event holds: its steps before the cut, its load and each of its saves |
| `BootLife.UnsavedBootsRepeatOnDisk` | examples/demo/config/nerves_initramfs-x86_64.conf:31-34 | the file, on a device that reads its block but cannot write it, hands control to fresh unvalidated firmware at every one of n boots |
| `TermHeap.ListIsDistinct` | src/script.c:332-339 | a NULL-terminated list of terms visits no term twice |
| `TermHeap.Heap.AllocHeap` | src/script.c:57-65 | succeeds if and only if the octets fit; the index stays a multiple of 8 within the heap |
| `TermHeap.Heap.NewTerm` | src/script.c:86-124 | a fresh cell with no link, behind everything in use, and how far the index moves |
| `TermHeap.Heap.FindVariable` | src/script.c:332-339 | the first variable of that name in the list, or NULL |
| `TermHeap.Heap.SetVariable` | src/script.c:376-389 | rebinds the variable in place or prepends a new one, whatever its value: a term of any kind or NULL; nothing else in the heap changes |
| `TermHeap.Heap.Dupe` | src/script.c:158-173 | a copy of a string, number, truth value or identifier in a fresh cell that no variable holds yet, and NULL for a call |
| `TermHeap.CopiedKinds` | src/script.c:158-173 | strings, numbers, truth values and identifiers are kept; calls are not |
| `TermHeap.Heap.CopyVariable` | src/script.c:49 | one round of the collector prepends one binding, with its own copy or with NULL |
| `TermHeap.Heap.Collect` | src/script.c:29-55 | succeeds if and only if no variable holds NULL and one copy per variable fits the heap; then the bindings are the old ones in reverse, each as it was except that a call became NULL, the index is their total size and nothing is shared |
| `TermHeap.UnsharedAlwaysFits` | src/script.c:29-55 | if no two variables share a term, the copies take no more than the heap in use, so collection cannot run out |
| `TermHeap.CollectedLookup` | src/script.c:29-55 | a collection changes no lookup of a string, number, truth value or identifier, and turns a call into NULL |
| `TermHeap.CollectedAgain` | src/script.c:158-173 | a second collection works if and only if no variable held a call, and then it gives the bindings as they were before the first |
| `TermHeap.SharedMayNotFit` | src/script.c:674-689 | four variables sharing one full readfile result fit the heap, but their copies do not |
| `TermBuild.ReverseList` | src/script.c:126-136 | reverses a list in place and changes nothing but the links of its terms |
| `TermBuild.Build` | src/parser.y:103-129 | the scanner's and the parser's actions build a cell structure that stands for the term, each parameter list in source order and acyclic, in fresh cells, if and only if there is room for the term, its parameters and the names of the functions it calls |
| `TermBuild.GetenvRoom` | src/lexer.l:130-132 | `getenv("a")` takes 112 octets, 40 of them for the name |
| `TermBuild.NameRooms` | src/script.c:688-715 | the room that the name of each built-in takes when it is called |
| `TermBuild.BuildList` | src/parser.y:66-74 | prepending and one reversal at the end give the list in source order, each term is in exactly one list, and the room is the sum over the terms |
| `TermBuild.Count` | src/script.c:138-145 | the arity is the number of parameters |
| `TermBuild.RunOrder` | src/script.c:223-231 | run_functions visits the terms of a block in list order |
| `TermBuild.BuildThenRun` | src/parser.y:66-74 | building a block and running it visits, in program order, distinct terms that stand for its actions |
| `Arena.Memory.constructor` | src/script.c:42-46 | a heap starts zeroed and empty |
| `Arena.Memory.Alloc` | src/script.c:57-65 | what is handed out is zero, disjoint from everything handed out before, and everything at and above the index stays zero |
| `Arena.Memory.Store` | src/script.c:71-81 | a copy into the chunk handed out last touches nothing else, and nothing above the index |
| `Arena.Memory.AllocString` | src/script.c:67-73 | the chunk holds the string and its NUL; chunks before it are unchanged |
| `Arena.Memory.AllocQString` | src/script.c:75-84 | the chunk holds the text between the quotes and a NUL in place of the last one |
| `Arena.Memory.NewTerm` | src/script.c:86-92 | kind and value are stored, and the link is zero although nothing set it |
| `HeapOctets.NewOctets` | src/script.c:86-124 | a term and its string as octets: they take the extent of the cell, the string stands right behind the term, and the link is zero |
| `HeapOctets.NewTerm` | src/script.c:86-124 | a constructor on octets and on cells: they succeed together at one address, and the new cell has no link in either |
| `HeapOctets.SetNext` | src/parser.y:66-74 | storing a link in the octets is setting it in the cell, and no other cell changes |
| `Lexer.ScanIsBest` | src/lexer.l:79-134 | the scanner takes the longest match of any rule, the earliest rule among equals, and gives up only where no rule matches |
| `Spelling.WrittenIsScanned` | src/lexer.l:79-134 | any sequence of names, numbers (decimal or hexadecimal), strings, truth values and operators, written down with any gaps between them (blanks, newlines, semicolons, comments), is scanned as that sequence |
| `Numerals.HexLiteral` | src/lexer.l:121-123 | a hexadecimal literal in any letter case is scanned as its number where that is an int, as its low 32 bits up to 64 bits, and as -1 beyond |
| `Numerals.DecimalLiteral` | src/lexer.l:125-127 | the same for decimal literals |
| `Numerals.WordCharacters` | src/lexer.l:82 | names are made of letters, digits, underscores and dots |
| `Dump.PrintScans` | src/script.c:175-211 | what vars() prints scans to one assignment per variable: name, `=`, value |
| `Dump.TokensParse` | src/parser.y:81-83 | those tokens parse, as assignments of literals, to that program |
| `Dump.DumpRestores` | src/script.c:441-450 | evaluating what vars() prints, on a machine without variables, gives exactly the printed variables with their values, and has no other effect |
| `History.LineHistory.constructor` | src/linenoise.c:120-133 | a history starts empty |
| `History.LineHistory.Add` | src/linenoise.c:1102-1129 | a line is appended unless it repeats the newest; a full history forgets its oldest line |
| `History.LineHistory.SetMaxLen` | src/linenoise.c:1135-1161 | the newest lines up to the new limit are kept; limits below 1 are refused |
| `History.HistoryIsWindow` | src/linenoise.c:1102-1161 | after any interleaving of added lines and size changes the history is the newest part of the stream without adjacent repetitions, within the limit |
| `History.FixedLimitKeepsLast` | src/linenoise.c:1102-1129 | with a fixed limit it is exactly the last lines of that stream |
| `LineEdit.PressKeepsEditing` | src/linenoise.c:816-949 | no key makes the line longer than the buffer or the index leave the history |
| `LineEdit.KeysAreRead` | src/linenoise.c:816-935 | each text that a terminal sends for a key is read as that key, whatever follows it |
| `LineEdit.KeysAreSent` | src/linenoise.c:816-935 | nothing else is read as a key that does something |
| `LineEdit.CharactersAreRead` | src/linenoise.c:922-925 | printable characters stand for themselves |
| `LineEdit.TransposeSwaps` | src/linenoise.c:847-855 | Control-T exchanges the characters on both sides of the cursor |
| `LineEdit.WordIsGone` | src/linenoise.c:748-760 | Control-W takes the blanks before the cursor and the whole word before them, and nothing else |
| `LineEdit.KillsLeave` | src/linenoise.c:926-945 | what the killing keys leave, and where Home and End go |
| `LineEdit.BackspaceUndoesChar` | src/linenoise.c:736-744 | Backspace undoes a typed character that fitted |
| `LineEdit.RightUndoesLeft` | src/linenoise.c:667-680 | moving right undoes moving left |
| `LineEdit.MovesKeepText` | src/linenoise.c:667-696 | cursor movement never changes the text |
| `LineEdit.DownUndoesUp` | src/linenoise.c:702-722 | Up then Down shows the same entry again, with the line as it was if and only if it did not fill the buffer |
| `LineEdit.UpIsOlder` | src/linenoise.c:702-722 | Up shows the next older entry and Down the next newer one, as far as there are any, and the line that was shown keeps its changes |
| `LineEdit.TypedKeepsEditing` | src/linenoise.c:797-949 | over every sequence of keys the line stays within the buffer and the history keeps its length, or loses the working entry when the call returns |
| `LineEdit.PlainLineComesBack` | src/linenoise.c:797-949 | typing characters that are no control keys and Enter returns the typed line, up to what the buffer holds |
| `LineEdit.EnterRestoresHistory` | src/linenoise.c:792-829 | the history is the same before and after entering a line if and only if it was not full and did not end in an empty line |
| `LineEdit.InterruptRestoresHistory` | src/linenoise.c:830-832 | Control-C leaves the history as it was before the call if and only if it ended in an empty line; a second time in a row it leaves nothing more |
| `LineEdit.MemMove` | src/linenoise.c:659 | an overlapping move copies the old octets |
| `LineEdit.StrLen` | src/linenoise.c:719 | the index of the first NUL |
| `LineEdit.SkipBack` | src/linenoise.c:752-755 | goes back over blanks, or over other characters |
| `LineEdit.Session.constructor` | src/linenoise.c:776-794 | a session starts with an empty line that is also the newest entry of the history |
| `LineEdit.Session.Insert` | src/linenoise.c:640-664 | the buffer shows the line with the character at the cursor, or is unchanged when full |
| `LineEdit.Session.MoveLeft` | src/linenoise.c:667-672 | the last character before the cursor goes behind it |
| `LineEdit.Session.MoveRight` | src/linenoise.c:675-680 | the first character behind the cursor goes before it |
| `LineEdit.Session.MoveHome` | src/linenoise.c:683-688 | everything is behind the cursor |
| `LineEdit.Session.MoveEnd` | src/linenoise.c:691-696 | everything is before the cursor |
| `LineEdit.Session.DeleteAtCursor` | src/linenoise.c:726-733 | the character behind the cursor goes |
| `LineEdit.Session.DeleteBeforeCursor` | src/linenoise.c:736-744 | the character before the cursor goes |
| `LineEdit.Session.DeletePrevWord` | src/linenoise.c:748-760 | the blanks and then the word before the cursor go |
| `LineEdit.Session.CloseGap` | src/linenoise.c:756-758 | the text between two positions is cut out, its NUL moving along |
| `LineEdit.Session.Swap` | src/linenoise.c:847-855 | the characters around the cursor change places, and the cursor moves on unless it was on the last one |
| `LineEdit.Session.KillWholeLine` | src/linenoise.c:926-930 | the line is empty |
| `LineEdit.Session.KillToEnd` | src/linenoise.c:931-935 | the text behind the cursor goes |
| `LineEdit.Session.Show` | src/linenoise.c:717-719 | the buffer shows an entry, cut to one character less than it could hold |
| `LineEdit.Session.HistoryMove` | src/linenoise.c:702-722 | the line is stored in its entry, and the next or previous entry is shown if there is one |
| `LineEdit.Session.PressKey` | src/linenoise.c:816-949 | each key does to buffer, cursor, length and history what it does to the line split at the cursor, with the return value of the call |
| `LineEdit.Session.EditLine` | src/linenoise.c:797-949 | for every input, the loop over its octets gives what pressing its keys one by one gives |
| `BlockDevice.WordOfBytes` | src/block_device.c:39-42 | the little-endian word determines its four octets |
| `BlockDevice.HexInjective` | src/block_device.c:53-58 | different octets are written differently in hexadecimal |
| `BlockDevice.UuidTextInjective` | src/block_device.c:53-58 | different UUIDs are written differently, in their mixed-endian order |
| `BlockDevice.IdTextInjective` | src/block_device.c:148-168 | UUIDs, disk signatures, and signatures with partition numbers are never confused |
| `DiskFormats.HexIsRead` | src/block_device.c:53-58 | hexadecimal text reads as the number of its octets, the first most significant |
| `DiskFormats.UuidIsRead` | src/block_device.c:53-58 | the groups of a UUID text read as the little-endian numbers of its first three fields, and the rest in order, with dashes between them |
| `DiskFormats.MbrIsRead` | src/block_device.c:148-168 | the texts of an MBR read as the signature, eight digits, and the number of the partition |
| `DiskFormats.NumberStandsAlone` | src/block_device.c:20-37 | the digits at the end of a path are the number of the partition, with a `p` in front of them if and only if the name of the disk ends in a digit |
| `BlockDevice.Numbers` | src/block_device.c:111-123 | the numbers of the nonempty partitions, ascending |
| `BlockDevice.NumbersMissNone` | src/block_device.c:111-123 | every nonempty partition is among them |
| `BlockDevice.ListedIsExact` | src/block_device.c:111-123 | a table lists exactly the nonempty partitions by ascending number, each with its path and identity |
| `BlockDevice.DiskComesLast` | src/block_device.c:174-191 | a disk adds its partitions and then itself, once, whichever of the two probes took it |
| `BlockDevice.MbrRefusal` | src/block_device.c:130-143 | a disk that the MBR probe refuses, a protective MBR in particular, adds nothing as one |
| `DiskFormats.GptDiskIsRead` | src/block_device.c:61-128 | a disk that holds a GPT, given octet by octet as the UEFI specification lays it out, gives exactly its partitions that are not empty, each with its number and UUID, and itself |
| `DiskFormats.MbrDiskIsRead` | src/block_device.c:130-172 | the same for an MBR with its signature and four types |
| `DiskFormats.HiddenAddNothing` | src/block_device.c:198-224 | names that begin with a dot, and disks that do not open, make no difference |
| `DiskFormats.PathIsTaken` | src/block_device.c:252-263 | what names no UUID is a path already |
| `BlockDevice.LookupFindsIdentity` | src/block_device.c:233-250 | a UUID in any letter case finds exactly the first device of the kind with those octets (or that signature and number) |
| `BlockDevice.DevicesAreFound` | src/block_device.c:252-263 | the same from the script's PARTUUID= and DISKUUID= specifications, over all disks |
| `BlockDevice.AreZeros` | src/block_device.c:44-51 | true if and only if every octet is zero |
| `BlockDevice.DeviceList.constructor` | src/block_device.c:198-200 | enumeration starts with no devices |
| `BlockDevice.DeviceList.ProbeGpt` | src/block_device.c:61-128 | each check, in order, and then the devices of the table in front of the disk, in front of what was there; a failed table read or more than 256 entries leaves the disk alone; all reads are inside the table |
| `BlockDevice.DeviceList.GptLoop` | src/block_device.c:110-123 | the downward walk prepends the nonempty entries in ascending order |
| `BlockDevice.DeviceList.ProbeMbr` | src/block_device.c:130-172 | the same for the four primary partitions |
| `BlockDevice.DeviceList.MbrLoop` | src/block_device.c:156-170 | the downward walk prepends the nonempty entries in ascending order |
| `BlockDevice.DeviceList.ProbePartitions` | src/block_device.c:174-191 | an MBR if there is one, else a GPT; a disk that does not open adds nothing |
| `BlockDevice.DeviceList.ProbeAll` | src/block_device.c:198-224 | with names in descending order, the disks come out in ascending order; hidden names are skipped |
| `BlockDevice.DeviceList.FindByUuid` | src/block_device.c:233-250 | the path of the first device of the kind whose text matches ignoring case |

## Left out

- The pairs of an environment and the bindings of a history are values in a `seq` or an
  array, not heap nodes; relinking in place is modelled for script terms only (`TermHeap`,
  `TermBuild`).
- StagedTheorems.StagingKeepsMeaning: goes one way for blocks that run. Outside its
  condition such a program may still agree by chance (`x = 0` before `y = -x`, say);
  `StagedLimits` shows that each part of the condition is needed, and `DeadBlocks` has the
  exact condition for blocks that do not run.
- StagedTheorems.CleanProgramsAreSound: says nothing of programs that use the result of a
  built-in that returns NULL (`print`, `vars` and others) or of a `setenv` of a variable or
  call; `StagedLimits.AssignedCallIsValue` shows that an assignment of one always breaks
  its conclusion.
- Comparing values of different kinds reads the wrong member of a union; the result is a
  parameter of the model (`World.mixed`). Signed overflow in `+`, `-` and comparisons is
  taken to wrap around.
- The depth of recursion of term_resolve appears as fuel; the C stack is unbounded.
- Script evaluation (`Script`, `Staged`) and the heap (`TermHeap`, `TermBuild`) are two
  models of the same terms: running out of heap during evaluation is not part of the first.
- TermBuild.Build: the room is that of the term alone. A token that the parser reads ahead
  is in the heap before the term is finished, and so is what was computed under a minus.
- Sizes of terms are those of a 64-bit machine (32 octets, the link at offset 24).
- HeapOctets.NewTerm: constructors and links are laid out in octets; the copies of the
  collector and the string between quotes are so in `Arena` alone.
- Arena.Memory.NewTerm: stores kind and value as octets and does not model which union
  member they belong to.
- `blkid`, `env`, `help` and `ls`, which only print a report, and calls of unknown
  functions, which end the parse.
- The generated scanner and parser: tokens by longest match, `vars()` output by a
  parser for assignments, everything else from the grammar's terms on. Bison's
  lookahead, operator precedence and the input buffering of the scanner are not modelled.
- Lexer.ScanIsBest: says which rule applies; the octets that flex echoes when no rule
  matches are dropped.
- Dump.TokensParse: about the part of the grammar that `vars()` prints, assignments of
  literals.
- Dump.DumpRestores: asks for what the printed form can express: names that are
  identifiers, strings without quotes and newlines, numbers above the least one.
- The trimming of command output, and which texts commands and files give: a parameter of
  the model (`World`).
- Opening devices, seeking, short reads and writes, and retries: a read gives a block or
  fails, a write reaches the device as a whole or not at all.
- BootProtocol.UnvalidatedFirmwareGetsOneTrial: takes a successful `fwup -t revert` as one
  step that brings back some environment and firmware; what the revert task writes is not
  part of this model. Upgrades are the three writes of the upgrade tasks
  (examples/demo/config/fwup-x86_64.conf:293-295), cut anywhere.
- BootConf.ConfRefinesProtocol: asks that no name is read twice from the block. With a
  name there twice, which of its values survives a save depends on what `qsort` does with
  equal names. `BootConf.FlagIsSaved` and the rules ask for what loading provides. Whether
  fwup succeeds in reverting is one answer for the whole boot, which asks at most once.
- BootLife.LifeIsRefined: what running firmware writes to the block is given by the flags
  that read back from it; tearing inside one write of the block is left out, as are blocks
  of another size than the configured 128 KiB.
- LineEdit.Session.EditLine: leaves out NUL characters, input that ends inside an escape
  sequence, terminal output, completion, hints and the multi-line display.
- History: saving to and loading from a file, and allocation failure.
- BlockDevice.DeviceList.ProbeGpt: asks that the size of the table fits 32 bits and that the
  two GUIDs of every entry that is not empty lie inside it, which the code does not check.
  The disk is read as if it never ended.
- BlockDevice.DeviceList.GptLoop: asks the same of the table it is given.
- BlockDevice.DeviceList.ProbePartitions: asks the same of the disk.
- BlockDevice.DeviceList.ProbeAll: asks the same of every disk.
- Mounting, loop and device-mapper set-up, root switching, sysfs, and the REPL around
  the line editor.
