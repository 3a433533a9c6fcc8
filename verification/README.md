# sensors2mqtt: a verified model

This project models, in Dafny, the stateful and structural parts of the sensors2mqtt collectors and proves what
they are meant to guarantee.

- **LVM metadata.** The tokenizer and recursive-descent parser of LVM's text format, with a printer and the round
  trip between them; the tree of what a logical volume is made of, the worklist that lists its physical volumes, and
  the flat count of used extents, with exact statements of when the two computations of allocation agree; the
  decoding of device-mapper names. (`Scanning`, `LvmTokens`, `LvmText`, `LvmTree`, `LvmUsage`, `LvmSharing`,
  `LvmSegments`, `LvmThinPool`, `DmName`)
- **Control daemons.** PoE toggles and power cycles, and host power commands, as transition systems whose steps are
  the individual actions of worker threads. SNMP answers, the clock, the stop event and the success of commands are
  part of each step, so a statement about every sequence of steps covers every interleaving. (`PoeControl`, `PoeLog`,
  `PoeWatch`, `PowerControl`)
- **Publishing.** The shared poll cycle and the storage collector as classes over an MQTT client, with the broker as
  a map from topic to retained payload (section 3.3.1.3 of MQTT 3.1.1), publishes that may fail and reconnects. The
  reconnect callback in the middle of a poll is a transition system of its own, and what it does in a poll without
  one is what the class does. (`BasePublisher`, `BaseReconnect`, `BaseLink`, `StoragePublisher`)
- **Binary and graph walks.** The raw SMBIOS structure table (sections 6.1.2, 6.1.3 and 7.10 of DMTF DSP0134), bay
  numbers, and the walk from a block device to its disks. (`Smbios`, `WholeDisks`)
- **SNMP sensors.** Sensor suffixes that are ranks in a sorted walk, their discovery by probing, and the caches of
  walked tables. (`BoxSensors`, `TtlCache`)
- **Listings.** Texts cut to fit a state. (`ShortList`)

`Wrappers`, `Numerals` and `Ordering` hold optional values, numerals and sorting. Loops and objects of the program
are methods and classes, each proved against a function or relation on values; the results are lemmas about those.
`dafny verify dfyconfig.toml` checks the whole project.

Two things the program says of itself do not hold, and the model follows the code; the exact conditions under which they
do hold are proved beside the runs that show it.

- A retained `idle` does not mean that a press would be accepted, as the docstring of `_reset_after_failure` has it.
  Taking the flag and reporting it are two steps (`PowerControl.IdleWhileTaken`), and so are clearing the flag and
  publishing `idle` (`PowerControl.IdleWhileHalting`). `PowerControl.IdleMeansFreeNext` says which steps break it,
  `PowerControl.RefusedInSpiteOfIdle` in which states it is broken.
- A reconnect does not always make every attribute be sent again, as the comment in `run` has it: one that comes
  between a publish and its being remembered leaves the text remembered (`BaseReconnect.LateReconnectLoses`), and just
  that suffix is not sent again (`BaseReconnect.SentAgainIff`). One that comes while attributes are emptied makes the
  poll raise (`BaseReconnect.ReconnectRaises`, `BaseReconnect.KeyErrorIff`).

A physical volume's used space and the sum over the logical volumes listed with it, which the program computes side by
side and does not compare, can differ (`LvmThinPool.ThinPoolCountedTwice`); `LvmSharing.TreesAgainstFlat` says by how
much.

## Model

| member | source | states |
|---|---|---|
| Scanning.Tokenize | src/sensors2mqtt/collector/storage/lvm.py:40-57 | The tokenizer loop, which advances past one match at a time and stops at the first character nothing matches, gives the tokens of the recursive description `Scan`, or its fault at that character. |
| Scanning.ScanRender | src/sensors2mqtt/collector/storage/lvm.py:40-57 | If each word of a text matches as its token and the text between words matches as nothing, scanning the whole text gives exactly the tokens of the words, in order. |
| LvmTokens.Tokens | src/sensors2mqtt/collector/storage/lvm.py:31-57 | On any text the tokenizer yields the specified tokens or raises at the first character that starts no token. |
| LvmTokens.UnescapeEscape | src/sensors2mqtt/collector/storage/lvm.py:48 | Removing backslashes inverts the escaping of quotes and backslashes for every string. |
| LvmTokens.EscapedCloses | src/sensors2mqtt/collector/storage/lvm.py:33 | The closing quote the string pattern finds is the one after the escaped text, whatever follows. |
| LvmTokens.SpellingMatches | src/sensors2mqtt/collector/storage/lvm.py:31-57 | The longest match at a spelled token is that token, whatever follows it, except another word character after a word. |
| LvmTokens.GapSkips | src/sensors2mqtt/collector/storage/lvm.py:32 | White space and newline-ended comments between tokens yield no token and shift nothing that follows. |
| LvmTokens.CharacterClasses | src/sensors2mqtt/collector/storage/lvm.py:31-36 | Which characters are word characters, punctuation and ASCII white space, by code point. |
| LvmTokens.NumberIff | src/sensors2mqtt/collector/storage/lvm.py:37-54 | The words that are numbers are exactly those made of an optional minus, digits, and optionally a point with digits behind it; any other word is a name. |
| LvmTokens.DecimalToken | src/sensors2mqtt/collector/storage/lvm.py:50-52 | A decimal is read as the number before its point plus the digits behind it at their decimal places, with its sign. |
| LvmTokens.EscapedStringMatches | src/sensors2mqtt/collector/storage/lvm.py:33-48 | A string in which any characters but newlines are escaped, needed or not, is matched whole as its text. |
| LvmTokens.BrokenString | src/sensors2mqtt/collector/storage/lvm.py:33-46 | A string that is not closed, or has a newline behind a backslash, matches nothing. |
| LvmTokens.LexWrite | src/sensors2mqtt/collector/storage/lvm.py:31-57 | Writing any writable tokens with any white space and comments around them and tokenizing gives the same tokens. |
| LvmText.Parser.ReadValue | src/sensors2mqtt/collector/storage/lvm.py:65-80 | The recursive value reader, with its list loop moving `pos`, returns what the grammar function gives from there and leaves `pos` behind it; running out of tokens is an error. |
| LvmText.Parser.ReadEntry | src/sensors2mqtt/collector/storage/lvm.py:86-96 | One key with its value or nested section, the position behind it, or the error for any other token after the key. |
| LvmText.Parser.ReadSection | src/sensors2mqtt/collector/storage/lvm.py:82-97 | The section loop, a later key replacing an earlier one in place, agrees with the grammar function. |
| LvmText.ParseLvmMetadata | src/sensors2mqtt/collector/storage/lvm.py:60-99 | Tokenizing and parsing any text gives what the specification gives: a tree, or which error. |
| LvmText.SectionParses | src/sensors2mqtt/collector/storage/lvm.py:82-97 | The printed entries of a section, nested ones included, parse back to exactly those entries, up to the section end. |
| LvmText.Rejected | src/sensors2mqtt/collector/storage/lvm.py:84-96 | Behind any entries, with any white space and comments, a key followed by neither `=` nor `{` is rejected with that token; one followed by nothing runs out of tokens. |
| LvmText.PutAgain | src/sensors2mqtt/collector/storage/lvm.py:84-93 | A key that comes again keeps its place and gets the later value. |
| LvmText.RoundTrip | src/sensors2mqtt/collector/storage/lvm.py:31-99 | Every tree with distinct non-numeric word keys per section, strings with any characters, integers, nested lists and nested sections, printed with any white space and comments between its tokens, parses to the same tree. |
| LvmTree.LvTree | src/sensors2mqtt/collector/storage/lvm.py:172-208 | The recursive method that fills `children` and `kids` reference by reference terminates on any reference graph, self-references and cycles included, and gives the specified tree. |
| LvmTree.FollowRef | src/sensors2mqtt/collector/storage/lvm.py:196-207 | One reference: a PV leaf is credited or appended, an unseen sub-LV above the depth limit is appended with its tree, anything else is ignored; `kids` keeps indexing `children`. |
| LvmTree.TreeLevels | src/sensors2mqtt/collector/storage/lvm.py:172-207 | No tree has more than 17 levels of LVs, whatever the references. |
| LvmTree.Pvs | src/sensors2mqtt/collector/storage/lvm.py:122-134 | The worklist lists each PV of any tree exactly once, lists no other, and gives each the sum of its leaves as the plain recursive fold computes it. |
| LvmTree.Popped | src/sensors2mqtt/collector/storage/lvm.py:126-133 | Replacing the first node of the worklist by its children makes it smaller and loses nothing but that leaf. |
| LvmSegments.AreasAt | src/sensors2mqtt/collector/storage/lvm.py:190 | The areas of a segment are the items of its stripes at even places, (n + 1) / 2 of n. |
| LvmSegments.SegmentDivided | src/sensors2mqtt/collector/storage/lvm.py:190-191 | There is a quotient, the segment's extents divided by the number of its areas and rounded down, that a PV holds once for each of those areas on it. |
| LvmSegments.SegmentTotal | src/sensors2mqtt/collector/storage/lvm.py:238-240 | The PVs of a segment together hold its extents, but for a remainder smaller than the number of its areas. |
| LvmSegments.NodeExtents | src/sensors2mqtt/collector/storage/lvm.py:174-175 | The extents the root of an LV's tree states are those its own segments hold on PVs, up to one extent per area. |
| LvmSegments.SortedStably | src/sensors2mqtt/collector/storage/lvm.py:166-169 | Segments are read in the order of their numbers, those of one number in the order they stand in, each once. |
| LvmSegments.NumberOfKey | src/sensors2mqtt/collector/storage/lvm.py:166-168 | A segment key as LVM writes it is read as its number, one without digits only behind `segment` as 0. |
| LvmSegments.SelfReference | src/sensors2mqtt/collector/storage/lvm.py:205 | The depth limit is reached: an LV that is its own sub-LV has a tree of exactly 17 levels. |
| LvmUsage.UsedExtents | src/sensors2mqtt/collector/storage/lvm.py:226-239 | The nested loops over LVs, segments and areas fill `used` with the flat count of every PV. |
| LvmUsage.SortedUse | src/sensors2mqtt/collector/storage/lvm.py:166-169 | Reading segments in the order of their numbers changes nothing about the space they take. |
| LvmUsage.TreeUse | src/sensors2mqtt/collector/storage/lvm.py:172-208 | One tree holds on a PV what the flat count gives for the LVs in the tree, each counted once for each place it has there. |
| LvmUsage.TreesCountPlaces | src/sensors2mqtt/collector/storage/lvm.py:172-256 | For any metadata, cyclic or shared references and cut-off depths included: the visible LVs' trees hold on a PV exactly the flat count with each LV counted once per place in the trees. |
| LvmUsage.TreeMirrors | src/sensors2mqtt/collector/storage/lvm.py:172-208 | If the references form a forest within the depth limit, the tree of an LV contains exactly its descendants: nothing is cut off. |
| LvmUsage.OnePlaceEach | src/sensors2mqtt/collector/storage/lvm.py:172-256 | In a forest rooted at the visible LVs every LV has exactly one place in all the trees together. |
| LvmUsage.TreesAgreeWithFlatCount | src/sensors2mqtt/collector/storage/lvm.py:172-256 | In such a forest the per-LV amounts of each PV sum to the `used` count of the flat computation. |
| LvmSharing.PlacesArePaths | src/sensors2mqtt/collector/storage/lvm.py:172-207 | In the tree of an LV every other LV has as many places as there are paths of references to it within the depth limit, counted on the metadata without the tree. |
| LvmSharing.AllPlacesArePaths | src/sensors2mqtt/collector/storage/lvm.py:172-256 | In all the visible LVs' trees together an LV has as many places as there are paths to it from visible LVs. |
| LvmSharing.TreesAgainstFlat | src/sensors2mqtt/collector/storage/lvm.py:172-256 | For any metadata: what the trees hold on a PV is the flat count, plus the extents of each LV once for every path beyond the first, minus the extents of the LVs no path leads to. |
| LvmSharing.AgreementIff | src/sensors2mqtt/collector/storage/lvm.py:172-256 | For any metadata the two computations agree on a PV if and only if that surplus is as much as is unplaced. |
| LvmSharing.OnePathAgrees | src/sensors2mqtt/collector/storage/lvm.py:172-256 | With exactly one path from a visible LV to each LV that has extents on the PV they agree; and only then is nothing surplus and nothing unplaced. |
| LvmSharing.SharedCountMore | src/sensors2mqtt/collector/storage/lvm.py:172-256 | If a path leads to every LV with extents on the PV, the trees hold at least the used extents, and exactly those if and only if there is one path to each. |
| LvmSharing.UnplacedCountLess | src/sensors2mqtt/collector/storage/lvm.py:172-256 | If no two paths lead to an LV with extents on the PV, the trees hold at most the used extents, and exactly those if and only if there is one path to each. |
| LvmSharing.VisibleSubLvCountedTwice | src/sensors2mqtt/collector/storage/lvm.py:196-207 | If a visible LV is named by the segments of another one, its extents and those of its own sub-LVs, hidden or not, are in the trees twice: they hold that much more than is used, but for what is unplaced. |
| LvmThinPool.OneSegmentSubs | src/sensors2mqtt/collector/storage/lvm.py:157-195 | The sub-LVs of an LV of one segment are exactly the LVs its areas and its reference keys name. |
| LvmThinPool.NamedUnder | src/sensors2mqtt/collector/storage/lvm.py:157-161 | A name under one of the fourteen reference keys, and under no other key, is a sub-LV. |
| LvmThinPool.ThinPoolCountedTwice | tests/test_storage_lvm.py:248-262 | For the thin pool of the test, with its hidden data and metadata sub-LVs, the trees hold 22 extents where 11 are used. |
| LvmThinPool.SpareBalances | src/sensors2mqtt/collector/storage/lvm.py:161-207 | With a hidden spare beside the pool the two computations agree if and only if the spare is as large as what is counted twice. |
| DmName.DecodeEncode | src/sensors2mqtt/collector/storage/lvm.py:293-298 | Decoding the hyphen-doubled `vg-lv` form gives `vg/lv` if and only if the VG name does not end in a hyphen and the LV name does not start with one. |
| DmName.LoneInEncoded | src/sensors2mqtt/collector/storage/lvm.py:295 | In an encoded name the separator is the only hyphen without a neighbouring hyphen, and it is one exactly for those pairs of names. |
| DmName.DecodedNamesDistinct | src/sensors2mqtt/collector/storage/lvm.py:293-298 | Distinct such pairs with slash-free VG names never decode to the same name. |
| DmName.LayerKept | src/sensors2mqtt/collector/storage/lvm.py:293-298 | The device-mapper name of a device below an LV, such as `-tpool`, decodes to that of the LV with the layer behind it. |
| PoeControl.NextKeepsInvariant | src/sensors2mqtt/collector/snmp_control.py:247-398 | Every step of every worker, of the poll thread, of the clock and of the stop event keeps: one owner per busy port, its log accounted for, its deadlines and poll counts in bounds. |
| PoeControl.PortsAreSerial | src/sensors2mqtt/collector/snmp_control.py:254-380 | In every interleaving of any number of workers a port is busy exactly while one worker is inside a toggle or cycle on it, and the log of what toggles and cycles on it do (polls, SET attempts, publishing) is a concatenation of whole-command blocks followed by what that worker has done. What force commands, the poll thread and other ports' commands publish about the port is not in this log. |
| PoeWatch.ActionsFollowRules | src/sensors2mqtt/collector/snmp_control.py:239-386 | In every run an observer who knows each worker's command, its log entries and what the port said at its action after each poll finds every action allowed: ON sets 1, OFF sets 2, a cycle 2 and then 1, nothing else sets anything; a published state is ON exactly if `admin` is 1 at that moment; the off phase ends before 30 s exactly when `detect` was 1 and `link` 2, the on phase before 60 s exactly when `detect` was 3, and polls are 2 s apart; a poll stores its reading. |
| PoeWatch.SetsAsCommanded | src/sensors2mqtt/collector/snmp_control.py:262-340 | In the log of every port in every run each SET belongs to a command that was received and sets what that command asks for: once 1 for ON or 2 for OFF, first 2 and then 1 for a cycle; other payloads and force commands set nothing. |
| PoeWatch.OutcomesAsCommanded | src/sensors2mqtt/collector/snmp_control.py:262-380 | In every run each finished command came out as its kind and payload can: only a toggle with another payload than ON and OFF is rejected. |
| PoeControl.FinishedOk | src/sensors2mqtt/collector/snmp_control.py:300-380 | Every finished command of every run kept to the poll bounds of its phases, and gave up early only because of the stop event. |
| PoeControl.CommandBounds | src/sensors2mqtt/collector/snmp_control.py:318-375 | With waits of 2 s, a toggle makes at most one SET; a cycle at most two SETs and at most 47 port polls. |
| PoeLog.WorkersBounded | src/sensors2mqtt/collector/snmp_control.py:284-380 | In the log of every port in every run, any one worker, whether it has finished or not, has at most 47 polls and two SETs. |
| PoeControl.NeverStranded | src/sensors2mqtt/collector/snmp_control.py:318-350 | A cycle whose disable succeeded attempts the re-enable if and only if it was not stopped during the off phase; so always when the stop event has not fired. |
| PoeLog.SwitchedOnUnlessStopped | src/sensors2mqtt/collector/snmp_control.py:318-350 | In the log of every port in every run: once a worker whose cycle switched the port off is no longer inside, it has tried to switch the port on again if and only if it was not stopped during its off polls. |
| PoeControl.StoppedOffRun | src/sensors2mqtt/collector/snmp_control.py:318-336 | A concrete run in which the stop event leaves the port disabled. |
| PoeLog.ChangesArePublished | src/sensors2mqtt/collector/snmp_control.py:269-380 | In the log of every port in every run: after a successful SET, unless its command is still running, the same worker has polled the port and published its state and availability without other events between, and has done nothing on it after that. |
| PoeControl.AtMost190Actions | src/sensors2mqtt/collector/snmp_control.py:247-380 | Whatever SNMP answers, in no run does a worker take more than 190 actions besides waiting. |
| BasePublisher.Publisher.PollOnce | src/sensors2mqtt/base.py:269-325 | One poll cycle: discovery of the publisher's sensors at the first, discovery of each new dynamic suffix, nulls for vanished ones, attributes through the cache, then the state and `online`; or only `offline` when there is nothing. Stated as one relation between the memory, log and retained messages before and after. |
| BasePublisher.Publisher.PublishAttributes | src/sensors2mqtt/base.py:310-321 | Per suffix: unchanged attributes are not sent, changed ones are remembered only if sent, those gone are emptied once and forgotten; if every publish was sent the cache holds all current attributes. |
| BasePublisher.Publisher.WithVanished | src/sensors2mqtt/base.py:304-308 | Exactly the discovered suffixes without a value are added, with null. |
| BasePublisher.CacheAgreesWithBroker | src/sensors2mqtt/base.py:240-321 | Over every run of polls, failing publishes, disconnections, outages that may change the retained messages arbitrarily, and reconnects: while connected, every entry of `_attributes_sent` is the retained payload. |
| BasePublisher.LikePublishingEveryTime | src/sensors2mqtt/base.py:310-317 | After a publishing poll of any run all of whose publishes were sent, the broker retains every current sensor's current attributes, as if none had been skipped. |
| BasePublisher.ForgottenStays | src/sensors2mqtt/base.py:318-321 | Once attributes are forgotten, by an attempt to empty them that failed or by a reconnect, no step touches them until their sensor has some again: emptying is not retried. |
| BasePublisher.VanishedAreNull | src/sensors2mqtt/base.py:292-322 | Over every run each published state has the keys of this poll and of every dynamic sensor ever reported, null for those not reported now, and each of those, and each of the publisher's own sensors, was announced before it. |
| BasePublisher.DiscoveryIs | src/sensors2mqtt/base.py:288-302 | Over every run the discovery published is exactly: the publisher's own sensors at the first poll with something to publish, and each dynamic sensor at the first poll that reports it. |
| BasePublisher.StaticOnce | src/sensors2mqtt/base.py:288-294 | In that discovery a sensor of the publisher that is never reported as a dynamic one comes once, as soon as some poll has had something to publish. |
| BasePublisher.MergedAt | src/sensors2mqtt/base.py:279-286 | The value of a dynamic suffix is that of its last sensor in the poll; other suffixes keep the polled value. |
| BasePublisher.AttributesAt | src/sensors2mqtt/base.py:280-286 | The attributes of a poll are those of its sensors that carry some, the last ones if a suffix has several. |
| BasePublisher.StatusFollows | src/sensors2mqtt/base.py:274-323 | After every poll of every run the last publication is the status, `online` exactly if the poll had something. |
| BasePublisher.Publisher.Handle | src/sensors2mqtt/base.py:238-325 | Each event of a run, a poll, a disconnection, an outage or a reconnect with its callback, changes publisher and broker as the step relation of the runs says. |
| BasePublisher.MakeRun | src/sensors2mqtt/base.py:230-325 | Any sequence of events in which the broker changes only while disconnected, met by a new publisher, is such a run and ends in the publisher's memory. |
| BaseLink.SameEvents | src/sensors2mqtt/base.py:238-241 | A disconnection, an outage and a reconnect do to the interruptible model what they do to the publisher. |
| BaseLink.UninterruptedPoll | src/sensors2mqtt/base.py:310-321 | The single actions of a poll that is not interrupted never raise and, when it has ended, add up for every suffix to what `PublishAttributes` guarantees; if all its publishes were sent, all current attributes are remembered. |
| BaseReconnect.SentAgainIff | src/sensors2mqtt/base.py:238-321 | With the reconnect callback running at any point of a poll, over every run: a remembered suffix has been published since the last reconnect if and only if it was not the one published and not yet remembered when that came, and unpublished since; and then what is remembered is what was published last. |
| BaseReconnect.AllSentAgainIff | src/sensors2mqtt/base.py:238-317 | Everything remembered has been published since the reconnect if and only if no remembered suffix was carried over it in that way. |
| BaseReconnect.AgreesWithoutLateReconnect | src/sensors2mqtt/base.py:238-321 | Over every such run the cache agrees with the broker while connected, in the middle of polls as well, about every suffix not in flight that was not carried over the last reconnect. |
| BaseReconnect.RememberingAgreesIff | src/sensors2mqtt/base.py:311-317 | In every run remembering a publish keeps the agreement if no reconnect has come since the publish; after one, if and only if the broker came back with the same text. |
| BaseReconnect.CleanPollRetains | src/sensors2mqtt/base.py:310-317 | After an interruptible poll all of whose publishes were sent and with no reconnect since it began, the broker retains every current attribute that was not carried over the reconnect before. |
| BaseReconnect.SkippedIsMissing | src/sensors2mqtt/base.py:310-317 | A concrete run in which a reconnect after a skipped suffix ends the poll, none of whose publishes failed, without the broker having the current text. |
| BaseReconnect.LateReconnectLoses | src/sensors2mqtt/base.py:238-317 | A concrete run after which the cache remembers a text that was not sent since the reconnect; it agrees with the broker exactly if that kept the text by itself. |
| BaseReconnect.LostStaysLost | src/sensors2mqtt/base.py:310-317 | A text lost that way is not published again by any number of polls that still have it, until another reconnect. |
| BaseReconnect.KeyErrorIff | src/sensors2mqtt/base.py:318-321 | A step of a run makes the poll raise `KeyError` if and only if it deletes a suffix after a reconnect cleared the cache while suffixes were being emptied. |
| BaseReconnect.ReconnectRaises | src/sensors2mqtt/base.py:318-321 | A concrete run that does. |
| StoragePublisher.Published.Add | src/sensors2mqtt/collector/storage/collector.py:80-93 | Adding keeps sensors and values complete; a missing value adds nothing; a repeated suffix replaces the value only. |
| StoragePublisher.Collector.Publish | src/sensors2mqtt/collector/storage/collector.py:312-345 | One publish over all devices of a poll changes the memory of nodes and the offered messages exactly as the step function says, whichever messages get lost. |
| StoragePublisher.Collector.Forget | src/sensors2mqtt/collector/storage/collector.py:338-344 | Exactly the tracked nodes the poll does not have are marked offline and forgotten. |
| StoragePublisher.RunKeeps | src/sensors2mqtt/collector/storage/collector.py:312-345 | After every publish of every run: a node ever published is offered online if and only if it is tracked, which is if the last poll had it, and every discovered suffix of a tracked node has a configuration with the node's current device; and the collector's own status is offered online after every poll. |
| StoragePublisher.RunConfigures | src/sensors2mqtt/collector/storage/collector.py:316-329 | Over every run each configuration offered is of a sensor that some poll had for that node with that device, under the topic of its node and suffix. |
| StoragePublisher.StateHasDiscovered | src/sensors2mqtt/collector/storage/collector.py:330-336 | Each node of the last poll is tracked with the device it had there, and its state has exactly the discovered suffixes as keys: the poll's values, and null for the others. |
| StoragePublisher.DiscoveryNotRepeated | src/sensors2mqtt/collector/storage/collector.py:318-329 | While a node's device stays the same, a poll offers nothing again for a discovered suffix. |
| StoragePublisher.KeepPublishing | src/sensors2mqtt/collector/storage/collector.py:312-345 | Over any polls that all have the node with the same device, a discovered configuration that got lost stays lost, and one that is at the broker stays there. |
| StoragePublisher.RunPolls | src/sensors2mqtt/collector/storage/collector.py:312-345 | A run of polls through the real loop: where the last message to a topic arrived and was kept, the broker retains what `RunKeeps` says. |
| Smbios.Walk | src/sensors2mqtt/collector/storage/pcie.py:32-58 | The loop terminates on any bytes, indexes only inside them and collects what each structure contributes, in order, up to the end marker or the first unusable structure. |
| Smbios.FindsEnd | src/sensors2mqtt/collector/storage/pcie.py:41 | The search for two NULs finds the end of a string set of non-empty NUL-free strings, not a place inside it. |
| Smbios.SplitJoined | src/sensors2mqtt/collector/storage/pcie.py:44 | Splitting the bytes of a string set at NULs gives its strings. |
| Smbios.ParseInvertsEncode | src/sensors2mqtt/collector/storage/pcie.py:32-58 | On the encoding of any sequence of structures, with anything after an end marker, the parser gives exactly the slots the structures up to the end marker describe: type 9, long enough, with a name and a bus other than 0xFF. |
| Smbios.NothingAfterEnd | src/sensors2mqtt/collector/storage/pcie.py:56-57 | What follows a structure of type 127 is not read. |
| Smbios.SlotAreaSaid | src/sensors2mqtt/collector/storage/pcie.py:45-55 | A system slot structure made from its fields describes one slot: its name and the address of its segment, bus and device function. |
| Smbios.NameKept | src/sensors2mqtt/collector/storage/pcie.py:48 | A name in ASCII without outer white space is kept character by character. |
| Smbios.Stripped | src/sensors2mqtt/collector/storage/pcie.py:48 | ASCII white space around a name is taken off, whatever the name. |
| Smbios.AddressInjective | src/sensors2mqtt/collector/storage/pcie.py:54-55 | Distinct segments, buses and device functions give distinct addresses. |
| Smbios.AddressPosition | src/sensors2mqtt/collector/storage/pcie.py:133-138 | The part of an address before its function, read as a bay key, gives back segment, bus and device. |
| Smbios.NumbersIdentify | src/sensors2mqtt/collector/storage/pcie.py:133-138 | Two bay keys with bus below 256 and device below 32 have the same number if and only if they are the same position. |
| Smbios.NumberOfKey | src/sensors2mqtt/collector/storage/pcie.py:133-138 | The number of a bay is domain * 8192 + bus * 32 + device. |
| WholeDisks.WholeDisks | src/sensors2mqtt/collector/storage/drives.py:226-250 | On any finite device graph, cycles included, the worklist terminates and returns, strictly ascending and without duplicates, exactly the real devices without slaves that are reached from the name by resolving partitions and following slaves. |
| WholeDisks.ListingOrderIrrelevant | src/sensors2mqtt/collector/storage/drives.py:244-245 | The disks found do not depend on the order the directories are listed in. |
| WholeDisks.UnderUnfolds | src/sensors2mqtt/collector/storage/drives.py:236-249 | The disks under a name are those under the slaves of its disk, for a partition the disk it lies in; without slaves that disk itself if it is a device. |
| Ordering.SortCanonical | src/sensors2mqtt/collector/storage/drives.py:250 | Sorting by a total order gives the same list for every arrangement of the same elements. |
| Ordering.StringLeMeans | src/sensors2mqtt/collector/storage/drives.py:244-250 | Names are sorted by code point: a prefix first, else by the first character that differs. |
| PowerControl.OneAtATime | src/sensors2mqtt/collector/local_control.py:142-184 | In every interleaving of workers no two are ever both between taking the busy flag and giving it up. |
| PowerControl.SuccessIsFinal | src/sensors2mqtt/collector/local_control.py:149-184 | After a command succeeded, no continuation of the run acknowledges, begins or ends any command. |
| PowerControl.LogInTriples | src/sensors2mqtt/collector/local_control.py:149-199 | The log of every run is a concatenation of acknowledgement, beginning and end of one command after the other, all but the last of which failed. |
| PowerControl.ExecutionsArePressed | src/sensors2mqtt/collector/local_control.py:157-223 | Every execution begins right after its own acknowledgement and comes from a live `PRESS` for this node, at the topic named after its action. |
| PowerControl.PressQueues | src/sensors2mqtt/collector/local_control.py:201-223 | A message queues a command exactly if it is a live press of this node's shutdown or reboot, and queues that action. |
| PowerControl.ExecutionsFromDifferentMessages | src/sensors2mqtt/collector/local_control.py:201-223 | Different executions come from different messages. |
| PowerControl.StateStaysTrue | src/sensors2mqtt/collector/local_control.py:186-195 | While a command is past its acknowledgement its report is retained; a step breaks this if and only if it publishes `idle` while another command is past its acknowledgement. |
| PowerControl.StateTrueWithoutOverlap | src/sensors2mqtt/collector/local_control.py:186-195 | If no command takes the flag while another has yet to publish `idle`, and the announcement precedes commands, the retained state is that of the command past its acknowledgement throughout the run. |
| PowerControl.IdleMeansFreeNext | src/sensors2mqtt/collector/local_control.py:149-195 | In every run, while a retained `idle` means that the flag is free, a step ends this if and only if it takes the flag while `idle` is retained or publishes `idle` while the flag is up; and a step restores it if and only if it acknowledges or clears the flag. |
| PowerControl.IdleMeansFreeWithoutOverlap | src/sensors2mqtt/collector/local_control.py:149-195 | Without overlap a press is refused in spite of a retained `idle` exactly while a worker has taken the flag and not yet published its report. |
| PowerControl.RefusedInSpiteOfIdle | src/sensors2mqtt/collector/local_control.py:149-195 | In every run a press is refused in spite of a retained `idle` exactly then, or while a late `idle` stands over a command past its acknowledgement. |
| PowerControl.IdleWhileTaken | src/sensors2mqtt/collector/local_control.py:149-161 | A concrete run of one worker that ends with `idle` retained and the flag up. |
| PowerControl.IdleWhileHalting | src/sensors2mqtt/collector/local_control.py:186-195 | A run of twelve steps of two workers that ends with `idle` retained while the host is going down and the flag is up, contrary to the method's own description. |
| BoxSensors.SuffixInjective | src/sensors2mqtt/collector/snmp.py:505-524 | Every kind and ordinal has its own suffix. |
| BoxSensors.HistoricSuffixes | src/sensors2mqtt/collector/snmp.py:519-524 | The suffixes recorded history is kept under: `fan1_rpm`, `temp`, `temp2`, `psu_power` and the like. |
| BoxSensors.PoeSuffixesAreNoBoxSuffixes | src/sensors2mqtt/collector/snmp.py:219-249 | Neither the PoE total nor any per-port PoE suffix is a box sensor suffix. |
| BoxSensors.RankedIgnoresOrder | src/sensors2mqtt/collector/snmp.py:706-725 | The ranking of readings depends only on which rows were walked, not on their order. |
| BoxSensors.RankedAscends | src/sensors2mqtt/collector/snmp.py:726 | The instances of the ranked readings ascend number by number. |
| BoxSensors.RankedAt | src/sensors2mqtt/collector/snmp.py:706-727 | Below the place of a reading are all numeric rows with smaller instances and none but those and ones with its own. |
| BoxSensors.PollBoxes | src/sensors2mqtt/collector/snmp.py:695-735 | The walks of one poll assign the ranked readings their suffixes; a failed walk assigns nothing. |
| BoxSensors.PollHasExactly | src/sensors2mqtt/collector/snmp.py:695-729 | After a poll each walked kind has exactly the suffixes of its ranked readings, with their values in rank order; other kinds have none. |
| BoxSensors.ProbesBounded | src/sensors2mqtt/collector/snmp.py:1042-1047 | A dict with the first n suffixes of a kind has at least n keys. |
| BoxSensors.Probe | src/sensors2mqtt/collector/snmp.py:1042-1057 | The unbounded probe loop terminates on every finite dict, with exactly the suffixes up to the first missing one. |
| BoxSensors.GetSensors | src/sensors2mqtt/collector/snmp.py:1013-1059 | The sensors listed are, each once, those requested singly that have a value and those probed. |
| BoxSensors.PollAndList | src/sensors2mqtt/collector/snmp.py:695-1059 | After a poll the listed box suffixes are exactly those the poll assigned: one per ranked reading, with the reading's value. |
| BoxSensors.PollByInstance | src/sensors2mqtt/collector/snmp.py:695-1059 | After a poll, for every walk that succeeded: as many suffixes are listed as there are numeric rows, and a row whose instance no other has gives its value to the suffix whose ordinal is the number of numeric rows with smaller instances. |
| BoxSensors.Announcer.NewSensorDefs | src/sensors2mqtt/collector/snmp.py:1061-1074 | Exactly the listed suffixes not announced before are returned, each once, and remembered for the switch. |
| BoxSensors.Run | src/sensors2mqtt/collector/snmp.py:1061-1074 | Over any run of polls of any switches, each suffix a switch listed is announced for it exactly once. |
| TtlCache.Collector.Fetch | src/sensors2mqtt/collector/snmp.py:853-893 | A fetch answers from the cache or walks, and changes only its own table's memory, as the step function says. |
| TtlCache.Collector.FetchNeighbours | src/sensors2mqtt/collector/snmp.py:948-1010 | A neighbour fetch counts as successful only if both walks succeeded; a half-failed refresh never replaces stored neighbours. |
| TtlCache.Join | src/sensors2mqtt/collector/snmp.py:982-1001 | A port has a neighbour exactly if its description or its short host name is non-empty, and it is the two joined by a point or the only one. |
| TtlCache.JoinedAt | src/sensors2mqtt/collector/snmp.py:982-1001 | A neighbour reads as the description, a point and the host name up to its first point, in this order, or as the one of the two there is. |
| TtlCache.Remembered | src/sensors2mqtt/collector/snmp.py:854-893 | Over every run of calls what is stored is what the last successful walk gave, and the expiry follows from the last walk, successful or not. |
| TtlCache.AnswersLastSuccess | src/sensors2mqtt/collector/snmp.py:854-893 | Every call answers the most recent successful walk's table, empty if there was none. |
| TtlCache.HitIff | src/sensors2mqtt/collector/snmp.py:854-893 | A call is answered from the cache if and only if some walk has succeeded and the last walk is less than 300 s old, or 60 s if it failed. |
| TtlCache.CacheKeysDiffer | src/sensors2mqtt/collector/snmp.py:853-855 | No two tables of any switches share an expiry entry. |
| TtlCache.Run | src/sensors2mqtt/collector/snmp.py:844-1010 | In any run of fetches of any tables of any switches, neighbours with their two walks, each answers the table of its own most recent successful walk or pair of walks. |
| ShortList.ShortList | src/sensors2mqtt/collector/storage_lvm.py:55-66 | The text is "none", the whole join, the longest proper prefix that fits with its count of hidden items, or the bare count when no prefix fits. |
| ShortList.CutAccounts | src/sensors2mqtt/collector/storage_lvm.py:60-66 | In a cut text the items shown and the number it gives add up to all items; the bare count is their number. |
| ShortList.JoinedBoth | src/sensors2mqtt/collector/storage_lvm.py:58 | Items are joined by a comma and a space. |
| ShortList.FittingPrefixes | src/sensors2mqtt/collector/storage_lvm.py:62-65 | The prefixes that fit are exactly those no longer than the one shown; none fits exactly if one item does not. |
| ShortList.ShortIsWithin | src/sensors2mqtt/collector/storage_lvm.py:55-66 | There is one such text, and it is within the limit if and only if "none", the whole join, some cut or the bare count, whichever it has to be, is. |
| ShortList.CutsGrow | src/sensors2mqtt/collector/storage_lvm.py:62-65 | Showing one item more makes the text longer even when the hidden count loses a digit. |

## Left out

- LVM metadata with values of other types than their key has in LVM's own files: the `TypeError`s of such metadata are not modelled, nor is the recursion limit.
- Rounding and gigabytes in `lv_tree` and `LV.pvs`: space is counted in extents, exactly.
- The type and role texts of tree nodes, and the size, presence and device of physical volumes, which are copied from their inputs.
- LvmText.RoundTrip: leaves out decimal numbers, which LVM does not write; how they are read is `LvmTokens.DecimalToken`, as exact reals.
- Regular expressions other than the tokenizer's and the device-mapper separator: topics and SNMP text lines enter as parsed values. Of ``str.strip`` on slot names only the white space that can occur after decoding ASCII is modelled.
- PoeControl: models a port's three GETs as one reading, the number of workers as unbounded where the program runs four at a time, and no exception but the failures the handlers catch; a handler that raised would still release the port.
- PoeControl.PortsAreSerial: does not log what force commands, the poll thread and other ports' commands publish about the port, because they take no part in what is serialized.
- The retained availability and state of PoE ports against the ports' real state: the poll thread may publish an older reading.
- PowerControl: models the number of workers as unbounded where the program runs two at a time; `IdleWhileHalting` needs only two, `IdleWhileTaken` one.
- BasePublisher: models a poll as not interrupted by the reconnect callback; `BaseReconnect` models the interruption of its attribute loops, comparing a text and publishing it being one action.
- The contents of discovery messages, device information, names, units and icons.
- StoragePublisher: models neither how devices and values are collected nor the de-duplication of drives by serial number and the previous statistics kept for rates, which only choose what is passed to `publish`.
- Smbios: models keys and addresses written in lower-case hexadecimal only; the order of bays, their labels and which ports are bays are left out.
- BoxSensors: models values of all requests as integers; the scaled values of PoE sensors are only carried along.
- TtlCache: models the rows of a walk as parsed, with empty names dropped.
- WholeDisks: models the directory a partition lies in as that of its disk, as sysfs has it.
- Real MQTT, SNMP, subprocess, sysfs and HTTP calls, I/O rates, smartd, IPMI, hwmon, SFP and other collectors, configuration and the main loops.
