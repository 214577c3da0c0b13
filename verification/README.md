# U-Boot external-application API: a verified model

U-Boot offers stand-alone applications a small system-call interface (`api/`). This
project models the parts of it that hold or walk state, together with the code below
and above that decides what they mean, and proves what they do over whole runs:

- **The environment.** A flat block of NUL-terminated `name=value` strings. `API_env_enum`
  keeps no cursor: each call rescans the block for the name it is given. The byte loops
  (`envmatch`, the scan, `getenv`) are methods over an array; they are proved to be a
  first-match search on arbitrary memory and a list operation on a block that holds a list
  of variables. On top of that stand the runs a caller makes, `setenv`'s editing of the
  block in place, and the consumer's own loop with its static name buffer.
- **Devices.** Enumeration with the storage back end's hidden flags, the ring of network
  interfaces behind `eth_init`, and the open/close life cycle over any number of
  caller-owned descriptors, with the current interface changing at any time.
- **The memory-region table**, filled by a first-free-slot allocator in a bank loop.
- **The dispatcher** and the **signature** by which consumers find it.

## Results

Environment:

- The enumeration of a non-empty block reaches NULL if and only if all names are distinct
  and the closing string lies at most one cell past `CONFIG_ENV_SIZE` (`EnvRun.EndsIff`).
  With distinct names it visits each entry once, in order, and rebuilds the stored list
  (`EnvRun.RoundTrip`); with a repeat it cycles for ever between the entry after the first
  occurrence and the repeat (`EnvRun.CycleRun`). An empty block is a fixed point.
- Every `setenv` call, accepted, refused or failing, keeps names distinct, so the
  enumeration of any environment built by `setenv` ends, unless the environment has been
  emptied: then it never does (`EnvHistory.HistoryEnumerates`). On the block itself:
  any sequence of `API_env_set` calls followed by the loop over `API_env_enum` lists what
  the calls have made of the environment (`EnvSession.Session`).
  The in-place edit is proved against remove-then-append on the list, byte for byte,
  including the overflow path (`EnvBlock.EnvBlock.SetEnv`). Which calls are refused is given
  name by name (`EnvBlock.RefusedByName`, `EnvHistory.OthersGoThrough`).
- On the consumer's side, the demo loop comes to its end if and only if there is a variable,
  names are distinct and each is shorter than the 256 cells of the name buffer; it has then
  listed every variable with its value (`EnvGlue.Glue.ListEnv`). A longer name is copied past
  the buffer (`EnvGlue.Glue.CopyName`).

Devices:

- A sweep from a NULL cookie yields the interface that was current at its first call, then
  the first device of each storage group that has one, then NULL; later changes of the
  interface do not matter (`Sweep.FullSweep`), and `ub_dev_enum` never runs out of
  descriptors (`Sweep.UbDevEnum`). `Sweep.SweepByGroup` gives the call and the type of each
  group's device in figures. Every storage device handed out can be opened
  (`Opening.EnumeratedOpens`), and a storage cookie can be opened if and only if it names
  a device that is present (`Opening.OpenStorageIff`).
- `eth_init` leaves the first interface in ring order that comes up (`Network.EthInitOnRing`) and
  does nothing to the environment if the current one does or `ethrotate` is `no`; otherwise `ethact`
  then names the interface that is current in the end (`Network.EthInitOnEnv`,
  `Network.EthactNamesCurrent`).
- In every run from closed descriptors: successful opens minus closes is the number of
  open descriptors, opens and closes of a descriptor alternate, and every halt hits the
  descriptor's own interface while it is current (`Devices.RunIsSound`).
- Open descriptors keep standing for the device they were opened for at every point of a
  run if and only if no open descriptor is enumerated into another device
  (`Matching.TrackedIffHarmless`); in such runs each halt answers an init through the same
  descriptor (`Matching.HaltsAnswerInits`).

Clients together:

- A run of system calls is the run of the handlers it names from the first `api_init` on,
  with the same return values (`Syscall.RunRefinesHandlers`). With the handlers of this model
  in the table, a client that goes on enumerating gets its whole sweep of devices, whatever
  other system calls are made in between and whatever the drivers answer, as long as nobody
  else enumerates (`ApiMachine.ClientSeesSweep`).
- Two complete sweeps that run at the same time both come out whole if and only if the one
  that starts first has all its devices before the other starts, and asks for its NULL before
  the other starts or after the other has all its devices too; there is one exception, with
  an inactive second device (`TwoSweeps.BothWholeIff`).
- A client that walks through the environment while others edit it sees a prefix of the list
  as it is now, and all of it when it is given NULL, as long as no call edits a variable
  it has already passed (`ApiWalk.WalkAmongOthers`). Calls that may edit are `API_env_set` and
  the open of a network device: when its interface does not come up and rotation is on,
  `eth_init` rewrites `ethact`. If such a call edits the variable at index a while the client
  stands at entry k, its next call is undisturbed if a > k; if a < k, if and only if the text
  at its old address still spells the name of its entry; and if a = k, never, unless that entry was
  the last and is gone (`EnvShift.EditUndisturbedIff`, `ApiWalk.CallUndisturbedIff`). One
  open can leave a client stuck for ever (`ApiWalk.OpenStrandsClient`).

Where the code and its own comments or documentation disagree, the model follows the code:

- `api/README:36` promises to enumerate all devices, and the comment at
  `api/api_storage.c:219-220` says the next device of a group is returned. `dev_stor_get`
  leaves `*more` at 0 when it takes a group's first device, so the group counts as ended:
  all storage devices are listed if and only if none sits behind index 0 of its group
  (`Sweep.AllListedIff`).
- `api/README:22-25` says the API keeps no state. The flags of the storage groups are
  shared. If I hold the leader of group h and another sweep has been stopped after any of its
  calls, with the groups below g behind it, my next call is undisturbed if and only if g = h
  and no device sits at index 1 of group h, or g > h and no group strictly between h and g
  leads (`Sweep.ForeignSweepHarmlessIff`, `Sweep.ForeignRunHarmlessIff`; after the network
  interface: `Sweep.ForeignSweepAfterNet`). `Sweep.ForeignStartDisturbs` gives an input.
- A comment in `API_dev_open` allows only one consumer of a device at a time. The state is
  in the descriptor, so two descriptors can hold one device (`Matching.TwoHolders`). Every
  device has one holder throughout a run if and only if no step opens a device that another
  open descriptor names or enumerates an open descriptor into one (`Matching.OneHolderIff`).
- `eth_init` may bring up another interface than the one asked for. The open still
  succeeds, and the descriptor cannot be closed while the other one is current
  (`Devices.OpenThenClose`). Whatever the drivers do, an opened net device can be closed at
  once if and only if rotation is off or there is one interface (`Devices.AlwaysClosesIff`;
  `Devices.NextTakesOver` gives the failing drivers). In a run of opens a close may even halt an
  interface that another descriptor has brought up (`RingRuns.HaltsAnother`). This never
  happens, whatever the drivers do, if and only if rotation is off or there is one interface
  (`RingRuns.NeverCrossedIff`).
- `setenv` reports an overflow after it has removed the old value. When it reports an error,
  it has left the environment alone if and only if it refused the call outright or the name
  was not defined (`EnvHistory.FailureLeavesListIff`, with an input in
  `EnvHistory.OverflowLosesA`). This also loses the console variables it otherwise
  refuses to delete (`EnvHistory.ConsoleLostIff`, with an input in `EnvHistory.StdinLost`), and it leaves the stored checksum as it
  was before the removal (the clause on `crc` of `EnvBlock.EnvBlock.SetEnv`).
  `API_env_set` returns 0 in every such case.
- `ub_env_enum` clears its buffer before it reads the result, which is the same buffer when
  the last name is gone: the application then goes on from the empty name. Its loop ends if
  and only if the last name, or failing it the empty name, is defined and no later entry
  repeats a name (`EnvGlue.GlueEndsIff`, `EnvGlue.GlueFromNullIff`); a variable deleted during
  the loop is enough to keep it from ending (`EnvGlue.DeletedUnderTheLoop`).
- The consumer searches three megabytes from the megabyte of its hint. A lone signature is
  found if and only if it is aligned to 8, lies more than 16 bytes (so at least 24) below the end
  of that range, and the hint is not in the last two megabytes of the address space, where the end of
  the range wraps (`Signature.LoneSigFoundIff`).

## How the model is cut

- Memory cells of the environment are `char`; only NUL and '=' are told apart. Pointers are
  NULL, an offset into the block, or a string elsewhere. A read outside the modelled memory,
  which C leaves undefined, is an explicit outcome (`OffEnd`, `Lost`, `Wild`, `Undefined`);
  it can only come from `envmatch`, and only where an entry and the searched text both lack
  a '=' (`EnvScan.OffEndOnlyIf`). `EnvScan.Readable` says which memory the scan may touch:
  two cells beyond `CONFIG_ENV_SIZE`, or less if the block closes before.
- The block is `ENV_SIZE` cells, the scan's bound `CONFIG_ENV_SIZE` is that plus the header.
  `CONFIG_ENV_OVERWRITE`, `CONFIG_OVERWRITE_ETHADDR_ONCE`, `CONFIG_HAS_UID` and
  `CONFIG_CONSOLE_MUX` are taken as not set, and `CONFIG_NET_MULTI` as set, without which
  `api/api_net.c` does not compile.
  Console assignment and the list of baud rates are parameters (`EnvBlock.Policy`), and so is
  the checksum function.
- Cookies are addresses, 0 is NULL. `get_dev` is a table of devices per storage group, empty
  for groups left out of the build, that does not change during a sweep; cookies of different
  groups differ. Whether the driver of an interface comes up is a parameter of `eth_init`, new at
  each call; whether rotation is on is read from the environment. `rotate` stands for it where
  only the ring matters.
- In runs of the life cycle the answers of the drivers, the outcome of an enumeration and every
  change of the current interface are arbitrary.
- Handlers are dispatched over an abstract machine state (`Syscall`), and over one with the
  handlers of this model (`ApiMachine`), where `ApiBinding` proves that each call of the API, on
  its objects, is the machine's step; arguments are typed values.
- `ready`, in the consumer's calls, says that the API is up, so that system calls are serviced.

One module per file: `EnvFormat`, `EnvScan`, `EnvList`, `EnvApi`, `EnvRun`, `EnvSet`, `EnvBlock`,
`EnvHistory`, `EnvValue`, `EnvShift`, `EnvGlue`, `EnvSession` (environment); `Storage`, `Sweep`, `TwoSweeps`, `Network`, `Devices`,
`Matching`, `RingRuns`, `Opening` (devices); `Regions`; `Syscall`, `ApiMachine`, `ApiBinding`, `ApiWalk`, `Signature`; `ApiPublic` (constants) and `Slices` (sequence facts).
`dafny verify dfyconfig.toml` checks the project.

## Model

| member | source | states |
|---|---|---|
| EnvScan.EnvMatch | common/cmd_nvedit.c:619-628 | the C comparison loop computes `Compare` on the memory, for any contents |
| EnvScan.CompareMeaning | common/cmd_nvedit.c:611-628 | envmatch succeeds exactly when the name parts are equal and the entry goes on with an =, and then points at the value; the only open case is two texts without = |
| EnvScan.OffEndOnlyIf | common/cmd_nvedit.c:622-627 | the comparison leaves memory only where the searched text and the entry both lack an = and are equal |
| EnvScan.FindIsFirstMatch | api/api.c:532-541 | on arbitrary contents the scan is a first-match search: its answer is determined, both ways, by which live entries ending by CONFIG_ENV_SIZE match |
| EnvScan.NextMeaning | api/api.c:530-553 | on arbitrary contents the result is `last` unchanged when nothing matches, else NULL or a non-empty string that directly follows a NUL just after the first match |
| EnvApi.FindEnd | api/api.c:533-538 | the inner loop stops at the entry's NUL, or is cut off exactly when that lies beyond CONFIG_ENV_SIZE; indices read stay in bounds |
| EnvApi.ScanNext | api/api.c:532-553 | the nested loops end on any contents and compute the first-match step; no index past CONFIG_ENV_SIZE+1 is read, none past the closing string, and then the size return is not taken |
| EnvApi.EnvEnum | api/api.c:516-557 | the whole call: EINVAL for a NULL `next`, the first entry for a NULL `last`, else the step |
| EnvApi.GetEnv | common/cmd_nvedit.c:544-564 | getenv's loop returns the value of the first match, or NULL |
| EnvFormat.ImageExample | common/cmd_nvedit.c:31-35 | two variables and the empty environment, cell by cell |
| EnvList.HoldsIsLaid | common/cmd_nvedit.c:31-35 | memory that holds the image of a list reads as that list, entry by entry |
| EnvList.LaidIsHeld | common/cmd_nvedit.c:31-35 | conversely, memory that reads as a list holds its image |
| EnvList.FindOnList | common/cmd_nvedit.c:550-561 | on a stored list the scan finds the first variable of that name, with its start, end and value, or misses |
| EnvList.NextOnList | api/api.c:530-553 | one enumeration step on a stored list: the entry after the first one with the name of `last`, NULL if that is the final one, `last` itself if there is none |
| EnvList.StoredIsReadable | api/api.c:532-547 | a stored list closes in time: the scan needs no cell past its closing string |
| EnvRun.StepOnList | api/api.c:530-552 | feeding back the address of an entry yields the entry after the first of its name |
| EnvRun.DistinctRun | api/api.c:526-552 | with distinct names, call k returns entry k, and call number |vs| returns NULL |
| EnvRun.RoundTrip | api/api.c:516-557 | writing a distinctly named list as bytes, enumerating it and reading each returned string gives the list back |
| EnvRun.CycleRun | api/api.c:526-553 | with a first repeat (i, j) the run passes entries 0..j once and then goes round i+1..j for ever |
| EnvRun.EndsIff | api/api.c:526-553 | the run over a non-empty block reaches NULL exactly when names are distinct and the block closes by CONFIG_ENV_SIZE+1 |
| EnvRun.NeverNoMore | api/api.c:534-546 | when the block closes too late, no call finds its end |
| EnvRun.EmptyNeverEnds | api/api.c:526-532 | on an empty block every call returns the same empty string |
| EnvSet.ShiftDown | common/cmd_nvedit.c:306-311 | the copy loop moves everything up to the closing string down, cell for cell, and touches nothing else |
| EnvSet.DeleteEntry | common/cmd_nvedit.c:299-313 | in all three cases (last entry, only entry, inner entry) the cells of one entry are cut out and the block is closed again |
| EnvSet.EndOfBlock | common/cmd_nvedit.c:325-328 | the search for the double NUL stops on the closing string, also in an empty block |
| EnvSet.CopyString | common/cmd_nvedit.c:342-349 | a string is copied with its NUL and nothing else changes |
| EnvSet.AppendEntry | common/cmd_nvedit.c:342-353 | name=value is written at the closing string and closed with a second NUL |
| EnvSet.CutHolds | common/cmd_nvedit.c:241-314 | cutting the cells of entry `at` out of the bytes removes that entry from the list |
| EnvSet.AppendHolds | common/cmd_nvedit.c:322-353 | writing an entry at the closing string appends it to the list |
| EnvBlock.RefusedByName | common/cmd_nvedit.c:188-282 | exactly which calls are refused: a name with =, the three console variables with an empty or unaccepted value, serial# and ethaddr once defined, a defined baudrate with an unsupported value |
| EnvBlock.EnvBlock.SearchVar | common/cmd_nvedit.c:202-208 | setenv's unbounded search finds the first match on any closed block |
| EnvBlock.EnvBlock.FindVar | common/cmd_nvedit.c:199-208 | on a block holding a list it finds the first variable of that name |
| EnvBlock.EnvBlock.RemoveOld | common/cmd_nvedit.c:241-314 | an existing definition is removed in place, and the block holds the list without it |
| EnvBlock.EnvBlock.Append | common/cmd_nvedit.c:322-353 | appending fails exactly on overflow, then leaving every cell; else the list grows by the new variable at the end |
| EnvBlock.EnvBlock.Replace | common/cmd_nvedit.c:241-356 | the edit on the list, its return value, and that the checksum is brought up to date exactly on success |
| EnvBlock.EnvBlock.SetEnv | common/cmd_nvedit.c:178-403 | the whole of setenv: the refused calls by name (1, nothing touched), the new list, every cell of the block (the image of the new list, and nothing changed behind it), the return value, that the overflow of an undefined name leaves every cell, the change counter and the checksum |
| EnvBlock.EnvBlock.ApiEnvSet | api/api.c:495-507 | NULL arguments give EINVAL and touch nothing; otherwise 0, whatever setenv decided, with all that setenv does to the block, the checksum and the counter |
| EnvBlock.EnvBlock.ApiEnvGet | api/api.c:472-484 | NULL arguments give EINVAL; otherwise the pointer getenv finds |
| EnvBlock.EnvBlock.ApiEnvEnum | api/api.c:516-557 | the enumeration call on the block, with CONFIG_ENV_SIZE as its bound |
| EnvHistory.GetOnList | common/cmd_nvedit.c:544-564 | getenv reads exactly the value of the first variable of that name, NULL if there is none |
| EnvHistory.SetKeepsOthers | common/cmd_nvedit.c:171-176 | setenv never changes what another name means, whether it succeeds or fails |
| EnvHistory.SetThenGet | common/cmd_nvedit.c:405-412 | after a successful setenv, getenv answers with the new value exactly when the name was defined at most once or its second definition agrees |
| EnvHistory.FailureLeavesListIff | common/cmd_nvedit.c:338-341 | when setenv reports an error, the environment is unchanged if and only if the call was refused outright or the name was not defined |
| EnvHistory.OverflowLosesA | common/cmd_nvedit.c:338-341 | six cells with a=1: setting a to 12345 fails and a is gone |
| EnvHistory.OverflowLosesOldValue | common/cmd_nvedit.c:338-341 | after an overflow the name means what its second definition says, and nothing if names are distinct |
| EnvHistory.ConsoleLostIff | common/cmd_nvedit.c:211-232 | a console variable becomes undefined exactly by an accepted value that does not fit, when it has no second definition |
| EnvHistory.StdinLost | common/cmd_nvedit.c:211-232 | fourteen cells with stdin=serial: a longer assignment is accepted, does not fit, and stdin is gone |
| EnvHistory.WriteOnceForever | common/cmd_nvedit.c:247-265 | serial# and ethaddr, once defined, keep their value through every run of setenv |
| EnvHistory.KeptByName | common/cmd_nvedit.c:211-282 | in the refused cases, by name, the list stays, whatever room there is |
| EnvHistory.OthersGoThrough | common/cmd_nvedit.c:284-353 | every other call: the list without its first entry of that name, in order, and the new one at the end if it is not empty and the image of the whole fits the room |
| EnvHistory.SetKeepsDistinct | common/cmd_nvedit.c:178-403 | setenv keeps names distinct |
| EnvHistory.RunKeepsDistinct | common/cmd_nvedit.c:178-403 | every run of setenv keeps names distinct |
| EnvHistory.HistoryEnumerates | api/api.c:495-557 | after any run of setenv on distinct names the enumeration visits each variable once, in order, and reaches NULL unless the environment is empty |
| EnvValue.SetSound | common/cmd_nvedit.c:322-353 | setenv keeps the image of the list within its room |
| EnvShift.SetKeepsPrefix | common/cmd_nvedit.c:241-356 | setenv leaves everything in front of the variable it is about |
| EnvShift.EditUndisturbedIff | api/api.c:530-553 | a client at entry k, an edit at index a: exactly when its next call goes on to the first entry it has not seen |
| EnvSession.SetAll | api/api.c:495-507 | any sequence of API_env_set calls on the block leaves it holding the list that the run of setenv gives |
| EnvSession.EnumerateAll | api/api.c:516-557 | the loop over API_env_enum on the block collects every variable in order and ends |
| EnvSession.Session | api/api.c:495-557 | sets and then the enumeration: the list comes out, unless the block has become empty, where the enumeration never reaches NULL |
| EnvGlue.EnumNext | examples/api/glue.c:389-394 | what one API_env_enum call yields for NULL or a bare name |
| EnvGlue.Glue.CopyName | examples/api/glue.c:396-401 | the buffer then holds exactly the name part of the string; the copy runs past the buffer exactly for a name of 256 cells or more |
| EnvGlue.Glue.UbEnvEnum | examples/api/glue.c:377-404 | the consumer's step on names, with the static buffer passed back as `last`: NULL when not serviced or at the end, the next name, or a name too long for the buffer |
| EnvGlue.LostNameNeverEnds | examples/api/glue.c:389-403 | when neither the current name nor the empty one is defined, the loop gets empty names for ever |
| EnvGlue.GlueEndsIff | examples/api/glue.c:389-403 | the loop from a name ends if and only if that name, or failing it the empty one, is defined and no later entry repeats a name |
| EnvGlue.GlueFromNullIff | examples/api/glue.c:377-404 | the loop from NULL ends if and only if there is a variable and names are distinct |
| EnvGlue.DistinctGlueEndsIff | examples/api/glue.c:389-403 | with distinct names the loop from a name ends if and only if that name or the empty one is defined |
| EnvGlue.DeletedUnderTheLoop | examples/api/glue.c:389-403 | of a=1, b=2 the loop stands at a: it would end, and after a is deleted it does not |
| EnvGlue.ListedIff | examples/api/demo.c:174-177 | the turns of the demo loop reach NULL if and only if there is a variable, names are distinct and fit the buffer, and have then listed everything |
| EnvGlue.Glue.UbEnvGet | examples/api/glue.c:360-368 | what ub_env_get returns for the name in the buffer |
| EnvGlue.Glue.ListEnv | examples/api/demo.c:174-177 | the demo loop, watched for any number of turns: each line is the next name with what getenv finds; given turns enough, it ends exactly on a non-empty environment with distinct names that fit, and has then listed all of it |
| Storage.Backend.DevEnumReset | api/api_storage.c:298-306 | all flags are cleared |
| Storage.Backend.DevStorGet | api/api_storage.c:116-177 | the search within a group computes `StorGet`: first device, or the one after the given cookie |
| Storage.Backend.DevStorType | api/api_storage.c:183-193 | the nested loops find the first group that knows the cookie |
| Storage.Backend.DevEnumStor | api/api_storage.c:205-296 | one group's step on descriptor and flags computes `EnumStor` |
| Storage.Backend.DevEnumStorage | api/api_storage.c:308-321 | the walk over the groups stops at the first that finds a device |
| Storage.Backend.DevOpenStor | api/api_storage.c:323-347 | 0 exactly for a cookie of some group under which an active device is known |
| Sweep.DevEnumNet | api/api_net.c:79-94 | the descriptor becomes a net one; found exactly when there is a current interface |
| Sweep.ApiDevEnum | api/api.c:217-247 | the call on descriptor and flags: restart and net first on a NULL cookie, else storage only, NULL at the end |
| Sweep.OneGroup | api/api_storage.c:228-287 | a group not yet touched yields its first device, if there and active, and is done |
| Sweep.PassDone | api/api_storage.c:239-256 | groups that are done are passed over, whatever the cookie |
| Sweep.NextCall | api/api.c:236-246 | a call in the middle of a sweep yields the next leader or NULL, independent of the current interface |
| Sweep.FirstCall | api/api.c:226-244 | the first call yields the current interface, else the first leader, from whatever flags were left |
| Sweep.FullSweep | api/api.c:217-247 | a full sweep: the first call's interface, then each group's first device once and in order, then NULL, for any later interfaces |
| Sweep.SweepRepeats | api/api.c:226-233 | the call after NULL starts the same sweep again |
| Sweep.EnumeratedType | api/api_storage.c:66-100 | whatever the flags: a call that hands out a device hands out the interface with type 1, or a present device with the type of its group (0x12, 0x42, 0x22, 0x82, 0x102) |
| Sweep.SweepByGroup | api/api_storage.c:116-175 | each group whose first device is present comes out at the call that counts such groups before it, with its cookie and the type of the group in figures; then NULL |
| Sweep.SlotAfter | api/api_storage.c:132-160 | within a group that is not ended the device behind the cookie is returned, and the group ends with its last one |
| Sweep.StartedPassed | api/api_storage.c:239-276 | groups that are started are not enumerated anew for a foreign cookie, and count as ended |
| Sweep.CallKeepsEnded | api/api_storage.c:239-276 | a started group always counts as ended, so that the branch for a group started and not ended is never taken |
| Sweep.ComesOutIff | api/api_storage.c:116-131 | a present storage device is returned by some call of the sweep if and only if it sits at index 0 of its group |
| Sweep.AllListedIff | api/api_storage.c:116-131 | a sweep returns every present storage device if and only if none sits behind index 0 of its group |
| Sweep.SecondDiskMissing | api/api_storage.c:116-131 | of two IDE disks the second is never returned |
| Sweep.ForeignSweepHarmlessIff | api/api_storage.c:239-256 | my next call after another sweep stopped at group g: the exact condition under which it is the undisturbed one |
| Sweep.ForeignSweepAfterNet | api/api_storage.c:228-256 | the same when I hold the network interface: no group below g leads |
| Sweep.ForeignRunHarmlessIff | api/api.c:217-247 | the same with the other caller's run of calls, stopped after any call |
| Sweep.ForeignSweepEndsMine | api/api_storage.c:239-256 | after a finished foreign sweep my next call returns NULL |
| Sweep.ForeignStartDisturbs | api/api_storage.c:228-287 | one foreign first call sends my sweep from disk 5 to 6 instead of 7 |
| TwoSweeps.BothWholeIff | api/api_storage.c:205-296 | two complete sweeps in any order of calls: the exact condition under which every call of both returns what it would alone |
| TwoSweeps.EarlyNotWhole | api/api_storage.c:228-287 | once the other sweep has begun, asking for a further device spoils one of the two |
| TwoSweeps.AllSeen | api/api_storage.c:228-287 | both have all their devices: both get NULL |
| TwoSweeps.MoreToSee | api/api_storage.c:228-287 | the first asks for its NULL while the other has devices to come: only the exceptional group saves both |
| Sweep.PassOn | examples/api/glue.c:211-218 | a fresh descriptor given the previous cookie continues the sweep |
| Sweep.EnumRest | examples/api/glue.c:206-221 | the consumer's loop collects the whole sweep |
| Sweep.UbDevEnum | examples/api/glue.c:195-222 | ub_dev_enum returns the number of devices of a sweep, at most 6, and the descriptors hold their cookies in order with the type that goes with each, all closed; 0 and cleared descriptors when the API is not up |
| Network.Getenv | common/cmd_nvedit.c:544-564 | the value of the first variable of that name, read from the block |
| Network.Ring.UpdateAct | net/eth.c:446-453 | ethact is rewritten in the block unless it names the interface already |
| Network.Ring.TryAnother | net/eth.c:424-453 | one step round the ring and ethact rewritten, unless the environment says ethrotate=no |
| Network.ActNamesIff | net/eth.c:446-453 | ethact then names the interface if and only if it did before, or the name is not empty and fits |
| Network.Ring.EthInit | net/eth.c:311-349 | the loop: what it returns, the interface it leaves current, and the list and every cell of the environment after all rewrites of ethact |
| Network.EthRunResult | net/eth.c:334-348 | the first interface in ring order that comes up is current afterwards, on failure the old one, whatever is written to the environment |
| Network.EthRunEdits | net/eth.c:334-348 | however often ethact is rewritten, the list is as it was or as one setenv of ethact to the final interface leaves it |
| Network.QuietInit | net/eth.c:338-342 | the environment is left alone when the current interface comes up or rotation is off |
| Network.EthInitOnRing | net/eth.c:334-348 | the first interface in ring order that comes up is current, or the old one after a full round or with ethrotate=no |
| Network.EthInitOnEnv | net/eth.c:429-453 | nothing is written if the interface comes up or ethrotate is no; else the list changes exactly if some name stepped on differs from ethact, to what one setenv of the final name leaves |
| Network.EthactNamesCurrent | net/eth.c:446-453 | after a rotation ethact names the current interface whenever its name is not empty and fits |
| Network.LoneFailure | net/eth.c:334-348 | one interface that fails, a=1 in 100 cells: ethact=eth0 is added |
| Network.KeptIff | net/eth.c:334-348 | a successful eth_init keeps the interface exactly when that one came up |
| Devices.DevOpenNet | api/api_net.c:55-64 | only the current interface reaches eth_init; the return codes, the interface and the environment left |
| Devices.DevCloseNet | api/api_net.c:66-73 | only the current interface is halted |
| Devices.ApiDevOpen | api/api.c:250-279 | return code, descriptor, driver calls, current interface and environment after an open |
| Devices.ApiDevClose | api/api.c:282-314 | return code, descriptor and driver calls of a close |
| Devices.OpenThenClose | api/api_net.c:55-73 | after a successful net open, an immediate close succeeds exactly when the interface itself came up |
| Devices.AlwaysClosesIff | net/eth.c:334-348 | whatever the drivers do, an opened net device can be closed at once if and only if rotation is off or there is one interface |
| Devices.NextTakesOver | net/eth.c:334-348 | drivers for which the open succeeds and the close does not: only the next interface comes up |
| Opening.OpenStorageIff | api/api_storage.c:323-347 | a closed storage descriptor opens if and only if its cookie names a present device; else 2 and nothing changes |
| Opening.OpenNetIff | api/api_net.c:55-64 | a closed net descriptor: 0, 5 when eth_init fails, 2 for any other cookie |
| Opening.EnumeratedOpens | api/api_storage.c:323-347 | every storage device that an enumeration hands out can be opened |
| Opening.SweepOpens | api/api_storage.c:323-347 | every item of a sweep is of its kind and opens, the interface if its driver comes up |
| Opening.LoneDisk | api/api_storage.c:66-100 | one IDE disk and no interface: type 0x12, and it opens |
| Devices.ExclusiveStep | api/api.c:260-276 | a new open keeps opens and closes of a descriptor alternating |
| Devices.StepKeepsSound | api/api.c:250-314 | every step keeps conservation, alternation, consistency of the state with the log, and halts on the current interface |
| Devices.RunIsSound | api/api.c:250-314 | so does every run from closed descriptors |
| Matching.HarmlessKeepsTracked | api/api.c:217-314 | a step that does not re-enumerate an open descriptor keeps descriptors standing for what was opened |
| Matching.HarmfulBreaksTracked | api/api.c:217-247 | a step that does breaks it |
| Matching.TrackedIffHarmless | api/api.c:217-314 | over every run: tracked throughout if and only if no open descriptor is enumerated into another device |
| Matching.HaltsAnswerInits | api/api_net.c:55-73 | in such runs every eth_halt answers an earlier successful eth_init through the same descriptor and cookie |
| Matching.HaltsItsOwnIff | api/api_net.c:55-73 | in harmless runs every halt stops the interface its own open brought up, exactly when those opens kept the interface asked for |
| Matching.StepHolderIff | api/api.c:260-276 | one step keeps one holder per device exactly when it is polite |
| Matching.OneHolderIff | api/api.c:260-276 | one holder per device at every point of a run if and only if no step opens a device another open descriptor names, or turns an open one into it |
| Matching.TwoHolders | api/api.c:260-276 | two descriptors with one cookie can both be open |
| Matching.EnumerateLosesHalt | api/api.c:217-314 | a net descriptor enumerated while open is closed without a halt |
| RingRuns.HaltsAnother | api/api_net.c:55-73 | on any ring of two or more: two opens after which the close of the first halts what the second has brought up |
| RingRuns.NeverCrossedIff | api/api_net.c:55-73 | in every harmless run over the ring, whatever the drivers do, each close halts what its own open brought up, if and only if rotation is off or there is one interface |
| Regions.PlatformSetMr | api/api.c:647-664 | the slot search writes the first free slot, if any, and nothing else |
| Regions.SetMrPlaces | api/api.c:647-664 | a region with a size and flags goes into the first free slot below the count; else the table stays |
| Regions.PlatformSysInfo | api/api_platform-arm.c:46-55 | the bank loop fills the table bank by bank |
| Regions.ApiGetSysInfo | api/api.c:151-160 | ENOMEM for NULL, otherwise the filled table and 0 |
| Regions.FillPlaces | api/api_platform-arm.c:50-52 | the j-th non-empty bank sits in the j-th free slot while slots last, all other slots are unchanged, and what is free afterwards |
| Regions.UsedAfter | api/api.c:652-663 | after any number of calls, the used slots are the smaller of the table size and the initial use plus calls times non-empty banks |
| Regions.TotalAfterFill | api/api_platform-arm.c:50-52 | a call adds exactly the memory of the banks that found a slot |
| Regions.AllMemoryIffRoom | api/api_platform-arm.c:50-52 | a call reports all memory exactly when the free slots suffice |
| Regions.ClearedFill | examples/api/glue.c:137-150 | a cleared table gets the non-empty banks in order from slot 0 |
| Regions.UbGetSysInfo | examples/api/glue.c:137-150 | NULL exactly when the call is not serviced; else the first UB_MAX_MR non-empty banks, the rest zero |
| ApiPublic.HeaderNumbers | include/api_public.h:55-138 | return codes, call bounds, device types and states in figures |
| Syscall.HandlerOf | include/api_public.h:75-94 | exactly the numbers above API_RSVD and below API_MAXCALL have a handler, the one the header numbers so |
| Syscall.FilledByNumber | api/api.c:605-622 | the assignments of api_init fill the table by those numbers |
| Syscall.Dispatcher.ApiInit | api/api.c:600-626 | afterwards the API is up and the storage flags are initialised |
| Syscall.Dispatcher.Syscall | api/api.c:577-598 | 1 exactly when there is a reply, that is for a number with a handler after api_init; only then the state changes and `retval` is written, with the handler's result |
| Syscall.RunRefinesHandlers | api/api.c:577-622 | a run of syscalls is the run of the handlers it names from the first api_init on: same state, same return values in order |
| Syscall.ServedIff | api/api.c:577-598 | a call of a run is serviced if and only if it names a handler and api_init came before it |
| Syscall.NothingBeforeInit | api/api.c:582-585 | before api_init no call does anything |
| ApiBinding.DevOpenBound | api/api.c:250-279 | API_dev_open on ring, back end, block and descriptor is the machine's step |
| ApiBinding.DevCloseBound | api/api.c:282-314 | so is API_dev_close |
| ApiBinding.DevEnumBound | api/api.c:217-247 | so is API_dev_enum |
| ApiBinding.EnvSetBound | api/api.c:495-507 | so is API_env_set |
| ApiBinding.EnvGetBound | api/api.c:472-484 | so is API_env_get |
| ApiBinding.EnvEnumBound | api/api.c:516-557 | so is API_env_enum |
| ApiMachine.SweepAmongOthers | api/api.c:217-247 | the client's descriptor and the flags stay on course of its sweep through every run of system calls in which nobody else enumerates, for any answers of the drivers |
| ApiMachine.ClientSeesSweep | api/api.c:217-247 | the n-th enumeration of the client gives the n-th device of its sweep, then NULL, whatever is called in between |
| ApiWalk.WalkAmongOthers | api/api.c:516-557 | a client among others that edit only what it has not passed: what it has seen is a prefix of the list as it is now, one variable for each call, and the whole list when it is given NULL |
| ApiWalk.EditBehind | api/api.c:495-507 | a call that edits a variable from index n on keeps the first n entries, be it API_env_set or an open that rewrites ethact |
| ApiWalk.CallUndisturbedIff | api/api.c:250-279 | any call that edits: exactly when the client's next call is undisturbed |
| ApiWalk.OpenStrandsClient | net/eth.c:446-452 | the block ethact=eth0, a=1, b=2: an open that brings up eth1 leaves a client at a stuck for ever |
| ApiWalk.ClientSeesAll | api/api.c:516-557 | in a run that edits nothing the client sees the environment as it was, in order, and all of it when NULL comes |
| Signature.ChecksumClears | examples/api/glue.c:42-48 | clearing the stored checksum brings back the bytes that were summed, and the stored sum reads back |
| Signature.BuildSig | api/api.c:628-643 | where malloc finds room, in memory of any contents, a signature that verifies, for any checksum function, with version 1 and the entry point in the machine's byte order, and only its own fields are written; nothing is written when malloc fails |
| Signature.SignatureIff | examples/api/glue.c:33-52 | what counts as a signature: the letters UBootAPI, and the word at 12 equal to the sum of the 20 bytes with that word cleared |
| Signature.SearchSig | examples/api/glue.c:73-81 | the loop finds the first valid signature among the places it probes, and fails only if there is none |
| Signature.Consumer.ApiSearchSig | examples/api/glue.c:58-85 | the whole search: the default hint, the rounded start, the 32-bit end, NULL argument, and NULL stored on failure |
| Signature.EmptyRangeIff | examples/api/glue.c:70-74 | the end of the range wraps, and the range is empty, exactly for a hint in the last two megabytes |
| Signature.LoneSigFoundIff | examples/api/glue.c:67-81 | the exact places at which a lone signature is found |

## Left out

- Console, timer and reset calls (`API_getc`, `API_putc`, `API_tstc`, `API_puts`, `API_reset`, `API_udelay`, `API_get_timer`): they forward to the hardware.
- `API_dev_read`, `API_dev_write`: only that they leave the descriptor and its state alone (`Transfer` in `Devices.Step`); their argument checks and payloads are not modelled. They do not check that the device is open.
- The payload of `struct device_info` (block count, block size, hardware address) and the clock fields of `struct sys_info`.
- `api/api_platform-ppc.c`: three fixed calls of the same slot allocator.
- Decoding of `va_list` and 32-bit pointer casts: handlers take typed arguments.
- What `setenv` does outside the block: switching the baud rate, and the copies of `ipaddr`, `loadaddr` and `bootfile` kept elsewhere.
- `setenv` with more than one value word, which only the command line can give.
- Storage of the environment, the default environment and `saveenv`.
- `ub_dev_open`, `ub_dev_close`, `ub_dev_read` and their checks of the handle: forwarding only.
- EnvApi.ScanNext: memory is an argument and is not changed by the scan; that `last` may point into the block is modelled by the text it points at.
- Devices.RunIsSound: descriptors change only through API calls; an application that overwrites `state` itself is not modelled.
- Network.Ring.TryAnother: does not model the flag `NetRestartWrap`, which only the network loop outside the API reads.
- Network.Ring.EthInit: does not model the copying of Ethernet addresses into the drivers, nor restate the checksum and the change counter after several rewrites of `ethact`; each rewrite is a call of EnvBlock.EnvBlock.SetEnv.
- Regions.UbGetSysInfo: on the platform of `api/api_platform-arm.c` the call itself never fails, so `err` stays 0.
- Matching.HaltsItsOwnIff: the condition is on the interfaces that the opens of the run left current; RingRuns.NeverCrossedIff has the condition over all drivers.
- ApiMachine.SweepAmongOthers: a second `api_init` within the sweep, which resets the flags, is left to the case g = 0 of Sweep.ForeignSweepHarmlessIff.
- TwoSweeps.BothWholeIff: sweeps that are broken off, or run more than once, are left to Sweep.ForeignRunHarmlessIff.
