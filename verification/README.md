# A verified model of the multiplexer

The repository runs a digital TV multiplexer. Programs come in on several channels; for every
program that is selected the software chooses the PIDs under which its PMT, PCR and data go
out, writes them into a mapping table of the hardware, and generates the tables (PAT, PMT, ...)
that describe the output. A front panel and an SNMP agent control it, a tuner and a CI slot
feed it. This project models those parts in Dafny and proves what they promise.

## The parts

**PID allocator.** `Pids`, `Routes`, `Programs`, `Capacity`, `Previews`, `Edits`, `Selection`, `Choices`
and `Runs` state what the allocator does to the table of programs, as functions on values. The output
PIDs in force are seen as a set of routes (program, slot, input PID, output PID). The rule is
`Apart`: a PMT has its output PID to itself, and two other routes share an output PID exactly
when they carry the same input of the same channel. `EveryRunGood` says of every run of reads,
writes, automatic selections and deselections that it keeps the rule and the hardware limits all
the way exactly if each of its steps was permitted, which can be seen before the step: an automatic
selection has to find PIDs enough, and an edit has to be harmless. `EditedSelect` says of any edit,
whatever was read before it and whatever inputs it gives the program, as long as they fit into the
channel, whether it is accepted and whether it leaves the table consistent.
`PickIs` and `PreviewIs` say which PID every slot is given, by routes and inputs alone.
The number of channels is a parameter.
`Multiplexers.Multiplexer` is the same allocator as the program runs it: an array of programs and an
array of PID table entries, changed in loops. Each of its methods is proved against the functions
above. `IoTable` says what the PID table has to hold (`Agrees`) and why a table that is patched
step by step answers like one built afresh. `PidMapTable` generates the rows of the hardware.
`Witnesses` holds concrete tables on which a promise fails.

**Default outputs and PAT.** `DefaultRule` fills a program from its parsed PMT. `ProgramNumbers`
gives the selected programs numbers that are all different and writes the PAT.

**Sections and the PSI area.** `Sections` cuts sections into transport packets and takes them
out again. `OutputPsi` is the directory of the area the packets are filled into, `PsiGen` and
`PsiAreas` fill it from sections and read sections back, `Buckets` deals its packets out to the
write buckets of the hardware.

**SNMP.** `Ber` and `Responses` build responses in nested buffers whose lengths are patched in
afterwards; `Requests` reads requests. `OidCodec` decodes object identifiers. `NodePools`, `OidTrie`
and `OidTrees` are the pooled tree in which objects are registered and found.

**Tuner.** `Arithmetic` has the integer routines, `Bits` and `Tuner` the register fields and the
frequency that is set and read back.

**CI.** `CiSend` frames what goes to a module, `CiParse` takes apart what comes from it.

## Results that differ from what one would expect

Where a promise does not hold of the code, the code is kept as it is and the exact condition is
proved.

- Automatic selection reports success even when first fit has run out. It keeps the outputs apart
  exactly if there are at least as many free PIDs as are needed (`AutoSelectConsistent`). Up to
  seven channels there always are (`SevenChannelsSuffice`); with eight, the default build, they can
  run out (`EightChannelsCanRunOut`).
- The PID check lets a data PID be sent to PID 0 or 0x0F (`DataMayBeSentToZero`), so these count as
  outputs in the rule. A program selected automatically later may share that input and follow it
  there, be it as its PCR (`PcrMayFollowToZero`). Its outputs pass the PID check exactly if PIDs are
  enough, a PCR already in force has a valid output, and no output that will be given out is that of
  the program's pads (`WillPass`, `AutoFixAccepted`); which outputs will be given out is known
  beforehand (`AssignGivesOut`).
- An edit is refused at the first slot that was changed to an output which another route keeps
  (`EditStops`). When a program in force is refused after a changed output was passed on to a
  sibling, one input is left with two outputs; otherwise a refusal leaves the table unchanged
  (`RefusedEditConsistent`, with `RefusedEditCanSpoil` as example).
- What was read last need not be the present state, or the same program, and what is written may
  have other inputs: unchanged slots are not checked, and of two slots with one input the second is
  checked against second PMTs only (`SeenBefore`). Such an edit keeps the rule exactly if it is
  `Harmless` (`EditedSelect`). An input that is the PMT input of another program is not rejected
  either and breaks the rule (`UnfitBreaks`).
- The reader of sections recovers exactly those that fit one packet (`PopRecoversExactly`); beyond
  4231 bytes the segmenter starts the section a second time (`LongSectionRestarts`).
- After a section that does not fit one packet the reader reports the next one with the bytes of the
  first in front (`PopAfterLonger`).
- The reader of atoms leaves the extra length bytes out of its size check (`CutOffFrame`).
- A request is read back with every part in its place exactly if its integers have at most four bytes
  and its community at most 128, it has at most 16 variables and no name has more than 20 numbers;
  nothing checks these limits (`ReadEncoded`). A longer integer runs over the pointers beside its
  number and from the 13th byte, with pointers of 32 bits, over the tag that is expected next; the
  model gives it no meaning from the fifth byte on (`LongVersionLost`).
- All answers to a get request are copied into one buffer. An answer comes back exactly if each of its
  bytes is that of the last answer which reaches so far (`AnswerComesBack`); of two answers of one
  byte the second is sent twice (`SecondAnswerTwice`).
- A son added below a registered object hides it (`AddSonHides`), so identifiers must not continue
  one another.
- A CI fragment may be three bytes too long for the buffer its frame is built in: the frames of an
  SPDU fit exactly up to 2041 bytes, those of an APDU exactly up to 2031 bytes of content
  (`SpduFits`, `ApduFitsFrames`).
- Reading the tuner back is within 500 kHz exactly up to 4095499 kHz (`ReadBackClose`).

## Model

| member | source | states |
|---|---|---|
| `Pids.ValidProgramPids` | src/program_pid_validater.c:21-65 | the nested loops accept a program exactly when its outputs are valid, or 0 or 0x0F for a data slot, and inputs are equal where outputs are equal |
| `Pids.ProgramMappedPidCount` | src/program_pid_validater.c:92-108 | the count is one more than the number of data slots in use whose input is not the PCR's |
| `Pids.MappedCountIs` | src/program_pid_validater.c:92-108 | the same of the count that every limit is stated with |
| `Pids.WellFormedIs` | src/front_panel_psi_parse.c:352-375 | a program is well-formed exactly if some first slots have inputs from 0x20 to 0x1FFE, the PMT at least, and the others 0x0F |
| `Pids.RowSlotsCoverInputs` | src/program_pid_validater.c:92-108 | every input of a program that is not its PMT is the input of a counted slot, so the count never falls short of the rows |
| `Routes.FirstFree` | src/io_table.c:198-232 | first fit yields the least PID that no channel receives and no route sends, or the null PID |
| `Routes.PickCompatible` | src/io_table.c:283-316 | an automatic choice other than the null PID fits in with every route in force |
| `Routes.AssignApart` | src/io_table.c:283-316 | the outputs chosen for a whole program keep everything apart exactly if none of them is the null PID |
| `Routes.EnoughFree` | src/io_table.c:198-232 | first fit serves a program completely exactly if it needs no more fresh PIDs than are free |
| `Routes.AssignAllApart` | src/io_table.c:283-316 | the two together, for a program whose inputs are known |
| `Routes.FreeAtLeast` | src/io_table.c:198-232 | pigeonhole: inputs and outputs in force leave at least 8159 PIDs less their number free |
| `Routes.RerouteApart` | src/io_table.c:234-281 | moving an input to an output that the usability check admits, for all programs that carry it, keeps everything apart |
| `Routes.CompatibleUsable` | src/io_table.c:150-196 | an output that fits in with all routes passes the usability check |
| `Routes.FurtherGrows` | src/io_table.c:41-52 | a PMT noted behind all others becomes a further one exactly if its input has a PMT already |
| `Programs.AutoSelectConsistent` | src/program_pid_validater.c:174-181 | automatic selection keeps the outputs of all channels apart exactly if enough PIDs are free |
| `Programs.DeselectConsistent` | src/front_panel_process.c:426-440 | deselecting keeps the outputs apart and only takes routes away |
| `Programs.CommitRoutes` | src/program_pid_validater.c:174-188 | after a commit the routes are those of the other programs and those of the new outputs |
| `Programs.PresentIs` | src/front_panel_process.c:90-93 | the programs of a channel are the first entries of its 64 |
| `Capacity.OutsSize` | src/program_pid_validater.c:92-166 | at most 64 PMT outputs and 32 others a channel are in force |
| `Capacity.SelectedCountIs` | src/program_pid_validater.c:126-139 | the count of selected programs is their number |
| `Capacity.ChannelCountIs` | src/program_pid_validater.c:110-124 | the mapped PIDs of a channel are counted once each: the PCR of every selected program and its data PIDs in use that differ from it |
| `Capacity.SevenChannelsSuffice` | src/io_table.c:198-232 | in a table within the limits first fit can serve any one program more with at most seven channels |
| `Choices.PickIs` | src/io_table.c:123-148 | the PID chosen, by the routes in force and the inputs alone: that of the routes of the same input; else the input itself if no route sends it, unless it is a PMT input that another PMT has; else the least PID from 0x20 that is neither received nor sent, or 0x1FFF |
| `Choices.AssignIs` | src/io_table.c:283-316 | every slot of a program is given the PID so chosen beside the routes in force and those of the slots before it |
| `Choices.PreviewIs` | src/program_pid_validater.c:195-201 | a read shows a selected program as it is, and any other with the PIDs so chosen and nothing else changed |
| `Previews.AssignGivesOut` | src/io_table.c:123-148 | the outputs given to a program are exactly those in force, own values that may be kept, and the least free PIDs, as many as are needed |
| `Previews.AssignSameOut` | src/io_table.c:283-316 | slots with equal inputs are given equal outputs |
| `Previews.AssignAccepted` | src/program_pid_validater.c:21-65 | the outputs chosen for a program pass the PID check exactly if that can be foretold from the inputs and routes in force |
| `Previews.ClearPadsPass` | src/program_pid_validater.c:21-65 | for a program with its pads as parsed: exactly if PIDs are enough, a PCR in force has a valid output, and no data PID in force goes to the pad value where pads are left |
| `Edits.PropagateRoutes` | src/io_table.c:318-339 | rewriting the siblings moves exactly the routes of the one input |
| `Edits.PropagateNoop` | src/io_table.c:318-339 | rewriting siblings that already have the output changes nothing |
| `Edits.SameInputsFit` | src/front_panel_psi_parse.c:187-238 | the inputs a program has fit |
| `Edits.FitCommitSound` | src/front_panel_process.c:104-117 | a program written with inputs that fit keeps the programs of the channel well-formed and their PMT inputs apart from the others |
| `Edits.ShiftIs` | src/io_table.c:318-339 | after any number of accepted slots a sibling's route has the output of the slot it shares its input with, or its own |
| `Edits.UsableUnlessClash` | src/io_table.c:150-196 | the usability of a slot's output, asked after the earlier slots were accepted, is decided by the routes in force at the start: it is not usable exactly if one of them has it that no slot so far has moved |
| `Edits.EditStops` | src/io_table.c:234-281 | an edit stops at the first slot that is blocked from the start, and has by then moved the siblings' routes after the slots before it and nothing else |
| `Edits.OthersApart` | src/io_table.c:318-339 | wherever the edit stops, the other programs stand apart exactly if no output passed on is one that another route keeps |
| `Edits.AllApart` | src/io_table.c:234-281 | at the end, the edited program stands apart from the others exactly if none of its slots, changed or not, has taken such an output |
| `Edits.BackApart` | src/program_pid_validater.c:185-191 | the program put back after a refusal stands apart from the others exactly if every output passed on fits with them and with it |
| `Edits.EditUntouched` | src/io_table.c:234-281 | an edit that passes on only outputs in force leaves the other programs as they were |
| `Edits.EditKeepsSlot` | src/io_table.c:318-339 | an edit changes neither the edited entry nor any input |
| `Edits.EditTouches` | src/io_table.c:318-339 | an edit changes nothing but outputs of PCR and data slots of selected siblings, and those to the output of an edited slot with the same input |
| `Selection.EditedSelect` | src/program_pid_validater.c:144-193 | selecting an edited program, whatever was read before and with any inputs that fit: it succeeds exactly if it is admissible and no slot is blocked, and the table stays consistent exactly if the edit is harmless |
| `Selection.EditOutcome` | src/program_pid_validater.c:174-193 | the same for the editing step alone, by its three endings: committed, refused, refused and put back in force |
| `Selection.PutBackUnchanged` | src/program_pid_validater.c:185-191 | for a program that keeps its inputs the outputs passed on fit exactly if they are those in force, and then a refusal has changed nothing |
| `Selection.EditedSelectConsistent` | src/program_pid_validater.c:144-193 | read against the present selection, an edit keeps the outputs apart exactly if it is not refused half done |
| `Selection.PreviewHarmless` | src/io_table.c:234-281 | an edit read against the present selection is harmless exactly if it is not refused half done |
| `Selection.PreviewAlike` | src/front_panel_process.c:95-103 | every read shows equal outputs for equal inputs, whatever the selection is |
| `Selection.PreviewFits` | src/io_table.c:234-281 | what a read has shown may be kept: unchanged PIDs need no further check |
| `Selection.CommitBounded` | src/program_pid_validater.c:110-166 | what the counting checks admit keeps at most 64 programs and 32 mapped PIDs a channel |
| `Selection.AdmissibleIs` | src/program_pid_validater.c:158-166 | a program is admitted exactly if at most 63 others are selected, its outputs are valid and equal where its inputs are, and its channel has rows left for what it adds to 32 |
| `Runs.SelectBounded` | src/program_pid_validater.c:144-193 | whatever is written, no outcome of a selection exceeds the limits |
| `Runs.RefusedEditConsistent` | src/program_pid_validater.c:182-191 | the edit of a program in force: accepted exactly if no slot is blocked; inconsistent exactly if a changed output was passed on before the first blocked slot; a refusal that keeps the rule changes nothing |
| `Runs.AutoFixAccepted` | src/io_table.c:283-316 | in every consistent table what a read answers passes the PID check exactly if that was foretold |
| `Runs.AutomaticAllOrNothing` | src/program_pid_validater.c:144-193 | automatic selection changes nothing, or this one program; it keeps the outputs apart exactly if PIDs are enough, and its outputs pass the PID check exactly if that was foretold |
| `Runs.WriteBackIsAutomatic` | src/front_panel_process.c:95-117 | writing back what a read answered commits exactly what automatic selection would, or is refused and changes nothing, and it is foretold which |
| `Runs.ReadAndWriteBack` | src/front_panel_process.c:95-117 | as steps of a run: reading and writing back ends in the table that automatic selection ends in, or in the one there was |
| `Runs.SelectAndDrop` | src/front_panel_process.c:407-440 | deselecting undoes an automatic selection: the same routes are in force and no other program has changed |
| `Runs.DroppedRoutes` | src/front_panel_process.c:426-440 | a deselection, asked for or by a write without the mark, takes exactly the routes of the program out of force |
| `Runs.StepGood` | src/front_panel_process.c:73-128 | a step keeps outputs apart and limits exactly if it is permitted |
| `Runs.SelectPermitted` | src/front_panel_process.c:407-424 | with at most seven channels every automatic selection is |
| `Runs.WritePermitted` | src/front_panel_process.c:95-117 | after a read of the same program a write is, unless it is refused half done, which for a program not in force it never is |
| `Runs.UnfitBreaks` | src/program_pid_validater.c:21-65 | a program written with a PCR or data input that is the PMT input of another breaks the rule as soon as it is accepted |
| `Runs.EveryRunGood` | src/front_panel_process.c:73-128 | a run from a freshly parsed table has its outputs apart and within the limits all the way exactly if every step was permitted |
| `Runs.NothingSelected` | src/front_panel_psi_parse.c:352-375 | the table right after parsing is such a state |
| `Witnesses.EightChannelsCanRunOut` | src/io_table.c:198-232 | a table of eight channels on which automatic selection succeeds and breaks the rule |
| `Witnesses.RefusedEditCanSpoil` | src/program_pid_validater.c:182-191 | an edit that is refused and leaves one input with two outputs |
| `Witnesses.DataMayBeSentToZero` | src/program_pid_validater.c:34-43 | the PID check admits PID 0 for a data PID in use |
| `Witnesses.PcrMayFollowToZero` | src/io_table.c:127-128 | a table on which automatic selection keeps the rule and yet commits a PCR that is sent to PID 0 |
| `Witnesses.StaleReadCanClash` | src/io_table.c:234-281 | after a read that is out of date a data slot takes the PMT output of another program, because the PCR has the same input, unless that PMT is a further one |
| `IoTable.NoteInput` | src/io_table.c:22-57 | noting an input keeps the PID table in agreement with the routes |
| `IoTable.PutRoute` | src/io_table.c:92-121 | so does entering an output, which redirects all routes of that input |
| `IoTable.PutPmtOut` | src/io_table.c:104-121 | so does the further output of a shared PMT input |
| `IoTable.UsableInTable` | src/io_table.c:150-196 | on a table in agreement the scan admits an output exactly if the routes do |
| `IoTable.TakenInTable` | src/io_table.c:150-232 | an output is sent by some route exactly if the table shows it |
| `IoTable.FreeInTable` | src/io_table.c:198-232 | the test of first fit on the table is the test on the routes |
| `IoTable.SelectedInTable` | src/io_table.c:123-148 | the output looked up is the output in force |
| `IoTable.SameAnswers` | src/io_table.c:22-57 | two tables in agreement with the same routes, patched or rebuilt, hold the same mapping and the same used outputs |
| `IoTable.NotedAgrees` | src/io_table.c:22-57 | with the inputs of a written program counted as noted the table built before the write describes the same routes |
| `IoTable.NotedAnswers` | src/io_table.c:150-196 | flags that are missing for such inputs do not change what the usability scans find |
| `Multiplexers.Multiplexer.SetPid` | src/io_table.c:92-102 | enters a non-PMT output and keeps the agreement |
| `Multiplexers.Multiplexer.SetPmtPid` | src/io_table.c:104-121 | enters a PMT output at its input, or at the output for a second program |
| `Multiplexers.RefusedByTable` | src/io_table.c:150-196 | during an edit the answer from the table is the refusal of the specification, whichever slots came before |
| `Multiplexers.Multiplexer.IsOutPidUsable` | src/io_table.c:150-196 | the scans decide usability of the routes, unless the very output is in force for the input; then they find the further PMTs |
| `Multiplexers.Multiplexer.PickFreePid` | src/io_table.c:198-232 | the scan finds what first fit finds |
| `Multiplexers.Multiplexer.BuildIoTable` | src/io_table.c:22-57 | the table built describes the program table, and its PMT outputs are those of further PMTs |
| `Multiplexers.Multiplexer.GetOutPid` | src/io_table.c:123-134 | the PID for an input: that of its routes, else the input itself if no route sends it, else the least free one |
| `Multiplexers.Multiplexer.GetPmtOutPid` | src/io_table.c:136-148 | the PID for a PMT: the input itself if no PMT has it and no route sends it, else the least free one |
| `Multiplexers.Multiplexer.UpdateSiblings` | src/io_table.c:318-339 | the loop rewrites the siblings as specified |
| `Multiplexers.Multiplexer.FixSelectedProgramOutputPid` | src/io_table.c:283-316 | the program gets exactly the outputs of the specification, each chosen as above beside those before it, and the table keeps up |
| `Multiplexers.Multiplexer.CheckUserOutputPid` | src/io_table.c:234-281 | the loop refuses at the slot the specification refuses at and leaves the table it leaves |
| `Multiplexers.Multiplexer.ProgramSelectedCount` | src/program_pid_validater.c:126-139 | the number of selected programs |
| `Multiplexers.Multiplexer.ChannelMappedPidCount` | src/program_pid_validater.c:110-124 | the number of mapped PIDs of the selected programs of a channel |
| `Multiplexers.Multiplexer.CheckAndSelectProgram` | src/program_pid_validater.c:144-193 | outcome and table are those of the specification, whatever was read before and with any inputs that fit; if the inputs stay, the patched PID table describes the new program table |
| `Multiplexers.Multiplexer.PrepareProgramOutputPid` | src/program_pid_validater.c:195-201 | a read answers the preview and changes no program |
| `Multiplexers.Multiplexer.ReadProgram` | src/front_panel_process.c:95-103 | a read is the read step of a run |
| `Multiplexers.Multiplexer.WriteProgram` | src/front_panel_process.c:104-117 | a write is the write step of a run |
| `Multiplexers.Multiplexer.SelectProgram` | src/front_panel_process.c:407-424 | a selection is the select step of a run |
| `Multiplexers.Multiplexer.DeselectProgram` | src/front_panel_process.c:426-440 | a deselection is the drop step of a run |
| `PidMapTable.RowsAreRoutes` | src/pid_map_table.c:141-159 | the rows of a channel are exactly its selected non-PMT pairs, by increasing input |
| `PidMapTable.RowsFit` | src/pid_map_table.c:65-79 | within the limits the rows of a channel are never more than 32 |
| `PidMapTable.TableShowsRoutes` | src/pid_map_table.c:141-159 | the 32 rows of a channel in the finished table: up to its count exactly the non-PMT routes with ever higher inputs, then rows of 0x0F |
| `PidMapTable.MapContext.PushPidPair` | src/pid_map_table.c:65-79 | appends a row, or reports the channel full and changes nothing |
| `PidMapTable.MapContext.GatherChannel` | src/pid_map_table.c:143-158 | one pass over the inputs of a channel pushes its rows and discards none |
| `PidMapTable.MuxProgramInfo.Fill` | src/pid_map_table.c:161-171 | the programs noted are the selected ones in table order, at most 64 |
| `PidMapTable.SelectedEntriesAre` | src/pid_map_table.c:161-171 | one entry for each selected program with its channel and its place there, in order, and no other |
| `PidMapTable.GenerateMap` | src/pid_map_table.c:128-159 | the table generated holds the rows of every channel, then pads |
| `PidMapTable.GenerateFromPrograms` | src/pid_map_table.c:128-175 | both together leave the programs unchanged and discard nothing |
| `DefaultRule.MapPsiPid` | src/pid_map_rule.c:12-34 | the rule is window base plus rank of the input, in 16 bits |
| `DefaultRule.ScanProgramPids` | src/front_panel_psi_parse.c:75-94 | the list of PIDs ranked |
| `DefaultRule.ScannedOnce` | src/front_panel_psi_parse.c:75-94 | the PCR is listed once, and every other PID as often as the PMT has it |
| `DefaultRule.RankIs` | src/pid_map_rule.c:20-29 | the rank of a PID counts a smaller PCR and the smaller streams that are not the PCR |
| `DefaultRule.PcrKindIs` | src/front_panel_psi_parse.c:221-231 | the type of the PCR is set by the last stream that carries it: video or audio, else PCR alone |
| `DefaultRule.RuleKeepsOrder` | src/pid_map_rule.c:12-34 | outputs of a program keep the order of the inputs, differ exactly where they do, and stay in places 1 to 15 of the window |
| `DefaultRule.ParseProgram` | src/front_panel_psi_parse.c:187-238 | the slots filled from a PMT, with clipping, types and pads |
| `DefaultRule.ParsedIs` | src/front_panel_psi_parse.c:187-238 | PMT and PCR, the first 14 streams in order with their types, then pads |
| `DefaultRule.ParsedPlace` | src/pid_map_rule.c:12-34 | PCR and streams go to 0x100 + 0x200 for each channel + 0x10 for each program + 1 + rank |
| `DefaultRule.ParsedAccepted` | src/program_pid_validater.c:21-65 | a freshly parsed program passes the PID check exactly if its PMT PID is none of the others and no input is the pad value where pads are left |
| `DefaultRule.ParsedWellFormed` | src/front_panel_psi_parse.c:187-238 | with valid PIDs it is a well-formed program |
| `DefaultRule.WindowsDisjoint` | src/pid_map_rule.c:32-33 | outputs of two programs meet exactly if their windows coincide, which below 32 programs a channel they never do |
| `DefaultRule.WindowInChannel` | src/pid_map_rule.c:36-44 | a window lies in the range of its channel exactly for the first 32 programs |
| `DefaultRule.ChannelOfPid` | src/pid_map_rule.c:36-44 | from 0x100 on every PID is in the range of exactly one channel, by its quotient by 0x200 |
| `ProgramNumbers.PickIsFree` | src/front_panel_psi_gen.c:15-31 | pigeonhole: the search finds the least free number, at most the count plus one |
| `ProgramNumbers.ProgNumTable.PickFreeProgNum` | src/front_panel_psi_gen.c:15-31 | the loops find that number and end |
| `ProgramNumbers.ProgNumTable.FixAndPush` | src/front_panel_psi_gen.c:32-50 | the next entry is the number wanted or, if taken, a free one |
| `ProgramNumbers.ProgNumTable.Build` | src/front_panel_psi_gen.c:51-65 | the table numbers the first 64 selected programs |
| `ProgramNumbers.NumbersDistinct` | src/front_panel_psi_gen.c:32-65 | no number comes twice; a program keeps its own exactly if no earlier entry has it, and is given the least number from 1 on that none has otherwise |
| `ProgramNumbers.ListedFirst` | src/front_panel_psi_gen.c:51-65 | the programs numbered are the first 64 selected ones in table order |
| `ProgramNumbers.GenPat` | src/front_panel_psi_gen.c:135-147 | the PAT pairs those numbers with the PMT outputs |
| `ProgramNumbers.PatIsInjective` | src/front_panel_psi_gen.c:127-153 | for a table with its outputs apart the PAT lists every selected program once, with its PMT output and its number unless an earlier entry has it, under different numbers and different PMT PIDs |
| `Sections.WritePacket` | src/section.c:35-89 | one round of the segmenter writes one packet: header, pointer field, payload, padding |
| `Sections.SectionToTs` | src/section.c:26-104 | the loop writes the packets of the specification and advances length and counter by their number |
| `Sections.PacketsCarry` | src/section.c:35-99 | PID, start indicator, counter and number of the packets of a section |
| `Sections.PacketLayout` | src/section.c:35-58 | the first bytes of every packet: sync byte, start indicator and PID without error or priority, counter with payload only and no scrambling, and a pointer field of 0 where a section starts |
| `Sections.PayloadsRestore` | src/section.c:35-99 | headers and pointer fields taken away, the section is left, followed only by 0xFF |
| `Sections.Segmentation` | src/section.c:26-104 | for 1 to 4231 bytes all of this as sections 2.4.3.2 and 2.4.4 of ISO/IEC 13818-1 want it |
| `Sections.AnnouncedLength` | src/section.c:7-17 | the announced length is that of the packets, and one packet more exactly if the section ends within the last three bytes of a packet |
| `Sections.SevenPackets` | src/psi_gen.c:27-43 | sections of at most 1024 bytes fit the buffer of seven packets |
| `Sections.LongSectionRestarts` | src/section.c:93-96 | beyond 4231 bytes a second packet claims to start the section |
| `Sections.StartsOnce` | src/section.c:93-96 | only the first packet starts the section exactly if it has at most 4231 bytes |
| `Sections.TsPopSection` | src/section.c:128-172 | the reader's loop does what its specification says to cursor, count and buffer |
| `Sections.PopRecoversExactly` | src/section.c:128-172 | popping undoes packing exactly for sections of at most 183 bytes; longer ones are swallowed |
| `Sections.PopAfterLonger` | src/section.c:128-172 | after a longer section the next short one is reported with its length, but the bytes in front are those of the longer one |
| `Sections.PopAllRestores` | src/section.c:128-172 | any list of one-packet sections comes back in order and uses all packets up |
| `Sections.CountersRunOn` | src/psi_gen.c:50-66 | the counters of the packets of one type run on across its sections from 0 |
| `Sections.PidsOfPacked` | src/psi_gen.c:50-66 | each packet has the PID of one of the sections |
| `Sections.PopSections` | src/output_psi_data.c:215-223 | the loop that pops until no packet is left |
| `OutputPsi.OutputPsiDataValidate` | src/output_psi_data.c:19-43 | the loop accepts exactly the directories the scan accepts |
| `OutputPsi.AcceptedTiles` | src/output_psi_data.c:19-43 | an accepted directory tiles a prefix of the area, types in order, without overlap |
| `OutputPsi.AcceptedExactly` | src/output_psi_data.c:19-43 | a directory is accepted exactly if every entry in use begins where the last one in use before it ends, the first at 0, and ends before packet 87 |
| `OutputPsi.OrderedFillsValidate` | src/output_psi_data.c:68-88 | filling by nondecreasing type passes the check exactly if fewer packets than the area holds were filled |
| `OutputPsi.OrderedSlices` | src/output_psi_data.c:68-88 | the slice of a type is then the concatenation of its fills |
| `PsiGen.GeneratedValidates` | src/psi_gen.c:24-115 | the order of the generator is such an order, and each slice is what the flagged sections were cut into |
| `PsiGen.GeneratedTables` | src/psi_gen.c:24-115 | the slices by table: PAT with PID 0, CAT with 1 and NIT with 0x10 as one flagged section each, the flagged PMTs, the SDTs, and nothing else |
| `PsiGen.SdtPid` | src/psi_gen.c:83-97 | every SDT packet has PID 0x11 |
| `PsiGen.ChosenEach` | src/psi_gen.c:50-66 | sections are chosen one by one, those whose flag is set, in order |
| `PsiGen.PackSkipsEmpty` | src/psi_gen.c:24-115 | sections of no length leave no packet and no gap in the counter |
| `PsiGen.NonEmptyEach` | src/section.c:35-36 | which sections are not empty, one by one and in order |
| `PsiGen.ReadBackTimes` | src/output_psi_data.c:205-245 | PAT, CAT and NIT are read as one section, PMT and SDT until no packet is left, other types not at all |
| `PsiGen.GeneratedReadsBack` | src/output_psi_data.c:196-246 | sections of one packet each are read back from the generated area, type by type and in order |
| `PsiAreas.PsiArea.BeginFill` | src/output_psi_data.c:68-74 | empties the directory |
| `PsiAreas.PsiArea.FillOutputPsiData` | src/output_psi_data.c:76-88 | appends packets in memory and grows the entry of their type |
| `PsiAreas.PsiArea.FillSection` | src/psi_gen.c:57-62 | cuts one section and fills it |
| `PsiAreas.PsiArea.GenerateType` | src/psi_gen.c:50-66 | one block of the generator |
| `PsiAreas.PsiArea.Generate` | src/psi_gen.c:24-115 | the memory afterwards holds the generated area |
| `PsiAreas.PsiArea.ReadType` | src/output_psi_data.c:205-245 | the sections read from the memory of a type |
| `PsiAreas.SliceInBytes` | src/output_psi_data.c:206-208 | packets found by offset and count are the packets of the slice |
| `Buckets.ChooseBucket` | src/output_psi_data.c:137-153 | the decision from the neighbours' PIDs is the one made from the runs |
| `Buckets.DealRuns` | src/output_psi_data.c:131-160 | the loop deals a slice out run by run |
| `Buckets.ApplyFromOutputPsi` | src/output_psi_data.c:118-167 | all types dealt out, the count of runs carried from type to type: the NIT to bucket 2, the SDT and the types after the NIT to bucket 1 |
| `Buckets.BucketsByType` | src/output_psi_data.h:36-43 | bucket 2 holds the NIT, bucket 1 the SDT and the types after the NIT one after the other, and buckets 0 and 3 to 6 together exactly PAT, PMT and CAT |
| `Buckets.RunBucketIs` | src/output_psi_data.c:137-153 | a packet beside one of its PID goes to bucket 3 for the first run of the area up to 6 for the fourth, any other to bucket 0 |
| `Buckets.RunCountIs` | src/output_psi_data.c:137-142 | the runs counted are the packets that are the first of two or more of one PID |
| `Buckets.RunsNumbered` | src/output_psi_data.c:102-142 | runs are numbered through the slices of PAT, PMT and CAT |
| `Buckets.RunsStayTogether` | src/output_psi_data.c:131-159 | a run of equal PIDs stays in one bucket |
| `Buckets.RunsApart` | src/output_psi_data.c:131-159 | different runs of a type never share a multi-packet bucket |
| `Buckets.TypesApart` | src/output_psi_data.c:102-159 | nor do runs of different types |
| `Buckets.FirstFourRuns` | src/output_psi_data.c:140-153 | exactly the packets of the first four runs get multi-packet buckets; single packets and later runs go to the 40 ms bucket |
| `Buckets.DealPlaces` | src/output_psi_data.c:155-166 | every packet lands in the bucket of its key behind the earlier ones of that key, and nothing else lands there |
| `Buckets.BucketsPartitionArea` | src/output_psi_data.c:118-167 | every packet of an accepted area is in exactly one bucket, in order, and no bucket outgrows its 128 packets |
| `Ber.MoveUp` | src/wu_snmp_lib.c:321-331 | the body moved up, read as an overlapping move |
| `Ber.LengthSays` | src/wu_snmp_lib.c:319-335 | the length bytes are the shortest definite form of section 8.1.3 of ITU-T X.690 |
| `Ber.ComAtom.Init` | src/wu_snmp_lib.c:308-318 | an open atom without a body |
| `Ber.ComAtom.AddAtom` | src/wu_snmp_lib.c:358-380 | appends an encoded atom to the body |
| `Ber.ComAtom.FixData` | src/wu_snmp_lib.c:319-335 | puts the length in, in its short or long form, as section 8.1.3 of ITU-T X.690 has it |
| `Ber.ComAtom.Merge` | src/wu_snmp_lib.c:336-343 | completes a son and appends it |
| `Ber.ComAtom.AddComAtom` | src/wu_snmp_lib.c:389-396 | opens a son |
| `Ber.ComAtom.End` | src/wu_snmp_lib.c:344-357 | closes an atom into its parent, or completes it |
| `Responses.BuildError` | src/wu_snmp_lib.c:397-419 | codes and places of the failed variables; one 0 in each list if none failed |
| `Responses.ReportIs` | src/wu_snmp_lib.c:414-418 | the same of the lists that go into the response |
| `Responses.ErrorsReported` | src/wu_snmp_lib.c:397-419 | every failed variable is reported once, with code and place, in order, and no other |
| `Responses.AddBindings` | src/wu_snmp_lib.c:492-500 | the bindings added are all of them, or those without error |
| `Responses.OneBinding` | src/wu_snmp_lib.c:492-500 | a binding is a frame of name and value, left out of the response to a get request if it failed |
| `Responses.BindingsAppend` | src/wu_snmp_lib.c:492-500 | the bindings of more variables follow one another |
| `Responses.ResponseFrames` | src/wu_snmp_lib.c:480-503 | the encoding of the response tree as three nested frames |
| `Responses.ResponseLayout` | src/wu_snmp_lib.c:480-503 | the response in tags and parts: version, community, and a PDU 0xa2 of request number, status, index and bindings |
| `Responses.BuildResponse` | src/wu_snmp_lib.c:475-507 | the bracketed builder produces exactly the encoding of the response tree, for any tree that fits the buffer, with 0 and 0 for the errors if no variable failed |
| `Responses.AnswerBufferAt` | src/wu_snmp_lib.c:443-450 | each byte of the one answer buffer is that of the last answer which reaches so far |
| `Responses.AnswerComesBack` | src/wu_snmp_lib.c:443-471 | an answer comes back exactly if each of its bytes is that of the last answer which reaches so far; the last one always does |
| `Responses.SecondAnswerTwice` | src/wu_snmp_lib.c:445-471 | two answers of one byte: both variables come back with the second |
| `Responses.AnswerGet` | src/wu_snmp_lib.c:454-507 | the response to a get request encodes the variables with what the answer buffer holds at the end |
| `Requests.PopFrame` | src/wu_snmp_lib.c:221-256 | an encoded atom is popped whole, with the cursor behind it |
| `Requests.HeadReads` | src/wu_snmp_lib.c:234-242 | a length is read as the standard wants it exactly in the short form and the long ones of one and two bytes; any other first byte is taken for the length |
| `Requests.CutOffFrame` | src/wu_snmp_lib.c:243-248 | an atom cut off is refused exactly if fewer than two bytes more than its data are there |
| `Requests.ExtractFixAtoms` | src/wu_snmp_lib.c:151-220 | the loop extracts what the specification extracts, up to an integer that is copied out of its place |
| `Requests.ListMissing` | src/wu_snmp_lib.c:151-220 | three integers without a list behind them are found, and the PDU is given up |
| `Requests.PopVarBinds` | src/wu_snmp_lib.c:462-473 | the loop reads variables until none is left, or until one has a name of more than 20 numbers or there are more than 16 |
| `Requests.PopVariable` | src/wu_snmp_lib.c:257-300 | an encoded variable is read back, its name decoded and cut, exactly if the name has at most 20 numbers |
| `Requests.CutInstanceIs` | src/wu_snmp_lib.c:269-271 | a last number 0 is cut off, any other stays |
| `Requests.UnknownTag` | src/wu_snmp_lib.c:151-184 | a variable whose name or value has an unknown tag has no meaning |
| `Requests.ReadVariables` | src/wu_snmp_lib.c:462-473 | an encoded list of variables is read back in order exactly if there are at most 16 and no name has more than 20 numbers |
| `Requests.ReadEncoded` | src/wu_snmp_lib.c:626-680 | an encoded get or set request is read back with all its parts exactly if each of them fits its place: four bytes for an integer, 128 for the community, 16 variables, 20 numbers for a name |
| `Requests.MessageLayout` | src/wu_snmp_lib.c:626-680 | the bytes of a request in tags and parts, and the tags known |
| `Requests.OutcomeIs` | src/wu_snmp_lib.c:626-680 | what a request is read as: its parts as they are, of each variable the name without a last 0; exactly if version, numbers, community, variables and names keep to 4, 4, 128, 16 and 20 |
| `Requests.OtherMethodUnread` | src/wu_snmp_lib.c:664-680 | a request with any other method is not carried out |
| `Requests.LongVersionLost` | src/wu_snmp_lib.c:155-158 | a request that is read back with a version of one byte and not with one of five |
| `OidCodec.OidEncoded2Subid` | src/oids.c:14-59 | the two loops count and collect what the decoder specifies, with 64-bit accumulation, into any array that holds the numbers written |
| `OidCodec.DecodeEncoded` | src/oids.c:14-59 | decoding the encoding of section 8.19 of ITU-T X.690 gives the identifier back exactly if every number fits 32 bits |
| `OidCodec.SubidIs` | src/oids.c:33-45 | the form of a number in section 8.19 of ITU-T X.690: groups of seven bits that make up its value, all but the last marked, the first not empty |
| `OidCodec.DecodeOne` | src/oids.c:33-56 | a number of any length is taken modulo 2 to the 64th, whatever follows |
| `OidCodec.StoredBefore` | src/oids.c:46-53 | a number beyond 32 bits ends the decoding behind the numbers in front of it |
| `OidCodec.DecodeLength` | src/oids.c:25-58 | the numbers written are as many as the count returned says |
| `OidCodec.StoredLength` | src/oids.c:33-56 | numbers written before a failure or the end: never more than were counted, and all of them when decoding succeeds |
| `NodePools.NodePool.Get` | src/libwu/wulist.c:36-50 | never hands out a node in use, none exactly if all are in use, and in order before the first is put back |
| `NodePools.NodePool.Put` | src/libwu/wulist.c:52-56 | the node is free again and first in line |
| `OidTrie.WalkPath` | src/wu_snmp_lib.c:807-830 | every node is reached along its own path |
| `OidTrie.WalkOnlyPath` | src/wu_snmp_lib.c:807-830 | and along no other |
| `OidTrie.DepthIs` | src/libwu/wutree.c:124-137 | the level noted in a node is the length of its path |
| `OidTrie.SonsAfter` | src/libwu/wutree.c:124-137 | adding a youngest son adds exactly that one to what a father finds |
| `OidTrie.WalkAfter` | src/libwu/wutree.c:124-137 | exactly one more identifier leads somewhere |
| `OidTrie.AddSonFinds` | src/wu_snmp_lib.c:789-797 | adding a node where no object sits changes no lookup |
| `OidTrie.AddSonHides` | src/wu_snmp_lib.c:826-828 | adding one below an object makes it unfindable |
| `OidTrie.SetExtFinds` | src/wu_snmp_lib.c:800-802 | hanging an object on a leaf makes it found under the path of the leaf and changes no other lookup |
| `OidTrees.OidTree.FindSon` | src/libwu/wutree.c:308-324 | the walk over brothers finds the son |
| `OidTrees.OidTree.YoungestSon` | src/libwu/wutree.c:54-67 | the walk over brothers ends at the youngest |
| `OidTrees.OidTree.AddLittleson` | src/libwu/wutree.c:124-137 | links a node as youngest son |
| `OidTrees.OidTree.AddNode` | src/libwu/wutree.c:347-360 | takes the node from the pool, or none |
| `OidTrees.OidTree.Register` | src/wu_snmp_lib.c:775-806 | registration refines adding to a finite map; it succeeds exactly if the pool has the missing nodes, and else changes no lookup |
| `OidTrees.OidTree.FindOidObjectOf` | src/wu_snmp_lib.c:807-841 | the lookup is the lookup in that map |
| `Arithmetic.PowOf2` | src/libtunner/STFE_utilities.c:47-56 | the loop doubles |
| `Arithmetic.GetPowOf2` | src/libtunner/STFE_utilities.c:64-72 | the least exponent that reaches a number |
| `Arithmetic.Log2Int` | src/libtunner/STFE_utilities.c:173-185 | the binary logarithm rounded down |
| `Arithmetic.BinaryFloatDiv` | src/libtunner/STFE_utilities.c:84-106 | the digits are the whole part of n1 * 2^precision / n2, in 32 bits for any precision |
| `Arithmetic.StepStaysAbove` | src/libtunner/STFE_utilities.c:203-208 | no step of the iteration falls below the root |
| `Arithmetic.StepHalvesExcess` | src/libtunner/STFE_utilities.c:203-208 | a step at least halves the excess over the root |
| `Arithmetic.SqrtInt` | src/libtunner/STFE_utilities.c:194-210 | for every number the bound fifteen steps reach; below 65536 the root or the root plus one |
| `Tuner.ChipGetFieldPosition` | src/libtunner/chip.c:1005-1016 | the loop finds the lowest bit of a mask |
| `Tuner.SetThenGet` | src/libtunner/chip.c:1135-1192 | a value put into a field is read back, cut to the field |
| `Tuner.SetKeepsOthers` | src/libtunner/chip.c:1135-1163 | the other fields of the register keep their values |
| `Tuner.TunerChip.ChipSetField` | src/libtunner/chip.c:1135-1163 | read, change and write of one register |
| `Tuner.TunerChip.ChipGetField` | src/libtunner/chip.c:1165-1192 | the field of the register |
| `Tuner.ClosestDivider` | src/libtunner/STV6110_Tuner.c:242-252 | the loop finds the reference divider with the smallest distance |
| `Tuner.TunerChip.SetFrequency` | src/libtunner/STV6110_Tuner.c:196-279 | the fields hold band, prescaler and dividers of the frequency, in the satellite band the oscillator is in its range, the calibration is started, and no bit of another field changes |
| `Tuner.OscillatorInRange` | src/libtunner/STV6110_Tuner.c:217-252 | for every frequency above 650 and up to 2600 MHz the oscillator runs above 2600 and up to 5200 MHz, the prescaler is on exactly above 4092 MHz, and the dividers make steps of 1 MHz |
| `Tuner.DividerIs` | src/libtunner/STV6110_Tuner.c:256-258 | the divider is the frequency in MHz, rounded |
| `Tuner.TunerChip.GetFrequency` | src/libtunner/STV6110_Tuner.c:281-303 | the frequency the registers stand for |
| `Tuner.ReadBackClose` | src/libtunner/STV6110_Tuner.c:196-303 | set and read back, a frequency is within 500 kHz exactly as long as its divider fits twelve bits |
| `CiSend.SetLength` | src/libci/send_xpdu.c:16-52 | writes a length field in its five forms |
| `CiSend.LengthFieldSays` | src/libci/send_xpdu.c:16-52 | the field is a definite form of the length, without a leading byte 0 |
| `CiSend.TpduSend` | src/libci/send_xpdu.c:92-131 | frames a data TPDU |
| `CiSend.FrameLayout` | src/libci/send_xpdu.c:92-131 | the bytes of a whole frame, from the connection to the content |
| `CiSend.SpduSend` | src/libci/send_xpdu.c:218-276 | cuts an SPDU into fragments |
| `CiSend.ApduSend` | src/libci/send_xpdu.c:281-298 | wraps an APDU and sends it |
| `CiSend.FragmentsJoin` | src/libci/send_xpdu.c:235-272 | the fragments put together are the SPDU, all but the last full and tagged as more, the last tagged as last |
| `CiSend.SpduFits` | src/libci/send_xpdu.c:54-74 | all frames of an SPDU fit their buffer exactly up to 2041 bytes |
| `CiSend.ApduFitsFrames` | src/libci/send_xpdu.c:281-298 | those of an APDU exactly up to 2031 bytes of content |
| `CiParse.XpduContent.ParserSpdu` | src/libci/xpdu_parser.c:81-122 | the session object by its tag |
| `CiParse.SessionObjects` | src/libci/xpdu_parser.c:81-122 | where each kind of session object has its resource and its session, byte by byte |
| `CiParse.XpduContent.ParserApdu` | src/libci/xpdu_parser.c:124-145 | tag, length and content of the application object |
| `CiParse.XpduContent.ParserXpdu` | src/libci/xpdu_parser.c:147-225 | what a received TPDU leaves in the content, in every case |
| `CiParse.LengthReadBack` | src/libci/xpdu_parser.c:22-50 | a length field is read back exactly below 65536 |
| `CiParse.LengthAtReads` | src/libci/xpdu_parser.c:22-50 | a length field is read as meant exactly in the short form and the long ones of one and two bytes, and else as 0 |
| `CiParse.ParsedAsSent` | src/libci/xpdu_parser.c:173-225 | the frame of an APDU of up to 256 bytes holds session, tag, length and content where the parser looks, in every form of the length fields, and no byte behind it is looked at |
| `CiParse.SendAndParse` | src/libci/send_xpdu.c:281-298 | an APDU of up to 256 bytes sent and then parsed: one frame, and session, tag, length and content come back |

## Left out

- Routes.Apart: programs are taken as well-formed (inputs a prefix of valid PIDs, then pads; no PCR or data input that is also a PMT input of the channel). On other inputs `build_io_table` stops at the first invalid one while the loop that fixes outputs goes on.
- Runs.EveryRunGood: a written program has inputs that fit: a prefix of valid PIDs, then pads; no PCR or data input that is, or was before the write, a PMT input of the channel; no PMT input that is another input of another program. Nothing rejects others; what they do to the PID table is not modelled beyond `UnfitBreaks`.
- Runs.StepGood: nothing is said about how a run goes on once a step that is not permitted has left an inconsistent table.
- Multiplexers.Multiplexer.BuildIoTable: on a table that is not consistent the last entry wins; the model builds only from consistent tables.
- PidMapTable.GenerateMap: the build with one channel, in which the PMT filter is inverted (src/pid_map_table.c:147-152), is not modelled; the channel count is otherwise free.
- PidMapTable.GenerateFromPrograms: saving to EEPROM and writing to the hardware are left out.
- DefaultRule.ParseProgram: the decoding of PAT and PMT by the external library is not part of this model; their contents are parameters. Names and the scrambled flag are left out.
- OutputPsi.OrderedFillsValidate: offsets and counts are unbounded; their single bytes cannot wrap around before the area itself is overrun.
- PsiAreas.PsiArea.Generate: the source does not check that the packets fit the area; the model asks for it.
- Sections.TsPopSection: the section buffer holds what is copied into it, since nothing checks that; `sec_start` is never set, so the branch for following packets is dead and is not modelled; the 16-bit length cannot exceed 4098 and is a number here.
- Buckets.ApplyFromOutputPsi: the packets of an entry lie inside the area, as the check on loading ensures; the writes of the buckets to the hardware are left out.
- Ber.MoveUp: the `memcpy` between overlapping stretches is read as a move.
- Ber.ComAtom.AddAtom: the sixteen bits of a length and the 2048 bytes of a buffer are preconditions, since nothing checks them.
- Requests.ReadRequest: an atom with another tag than the known ones has no data pointer, and reading outside the buffer has no meaning; both give no request.
- Requests.ReadEncoded: the value of a variable is not limited: a datagram has at most 2048 bytes, fewer than lie between an integer value and the end of the variable it is read into, and the name is decoded after it.
- Responses.AnswerGet: getters, setters, login state and the read-only flag of the agent are left out; what a getter gives is a parameter. Values sent along with a get request are taken as too short to reach the answer buffer.
- OidCodec.OidEncoded2Subid: bytes without any finished number return 1 although nothing was written; the model says so and nothing more.
- OidTrees.OidTree.Register: only identifiers unrelated to all earlier ones are registered. For a beginning of an earlier one no node is added and `added` stays unset.
- OidTrees.OidTree.AddNode: nodes are never put back into the pool by the agent; `wutree_node_pool_put_node` is left out because its pointer arithmetic does not address the list header.
- Arithmetic.GetPowOf2: numbers up to 2^30, beyond which the 32-bit search does not end.
- Arithmetic.Log2Int: the same.
- Arithmetic.SqrtInt: the sum of the first step must fit 32 bits; the model has no overflow. Zero divides by zero and is excluded.
- Tuner.TunerChip.ChipSetField: signed fields are left out, since their negative values add the number of bits instead of a power of two; registers keep what is written to them, waits and bus transfers are left out.
- CiSend.TpduSend: only data TPDUs; the fixed split into two writes at the end (src/libci/send_xpdu.c:155-180) is left out.
- CiParse.XpduContent.ParserXpdu: the bytes that are looked at lie in the buffer, and the content fits the 256 bytes it is copied to, since nothing checks either; null pointers are left out.
- Serial, UDP, thread and timer loops, device and OS code, the GTK simulator, tracing and dumps.
- EEPROM save and load, the SNMP getters and setters, SDT, NIT and CAT contents: copies that would only add easy members.
- `Generate_CA_PMT` and the register tables of the demodulator.
