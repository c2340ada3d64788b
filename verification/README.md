# A verified model of the agent's hard core

The agent watches and looks after one machine of a home network. This project models the parts of it where unbounded
state, parsing, arithmetic or concurrency make correctness hard to see, and proves what those parts are for.

* **Backup of many hosts to one branch** (`BackupProtocol`, `StackBackup`, `HostFolder`). Every host replaces its own folder and pushes,
  and starts over when somebody else pushed first. A state machine over the shared branch and the hosts' clones, in which
  any git command may fail and a push may take effect and still be reported as failed; the class `Backup` runs the
  five-attempt loop statement by statement and is proved to be a run of that machine.
* **The capture filter language** (`FilterLexer`, `FilterPrimitives`, `FilterGrammar`, `FilterPrinter`, `FilterCombine`,
  `FilterMeaning`, `FilterParser`). The lexer, the recursive descent as it moves through the tokens, the predicates it
  builds, and the composition of filters as text that is parsed again elsewhere. The reference is a grammar of concrete
  syntax trees with a yield and a meaning, and what each test means is told by the fields of the packet.
* **Packet analysis** (`TcpHealth`, `DnsName`, `BpfFilter`, `FrameDecoder`, `NetBytes`). The TCP tracker on 32-bit sequence
  numbers against one on unbounded numbers; names with compression pointers; the hand-assembled kernel filter, run on
  every frame, against the decoder behind it.
* **Capturing** (`CaptureMessages`, `CaptureWorker`, `CaptureTotals`, `CaptureControl`, `CaptureJobs`, `CaptureRuns`). The
  sniffer that counts and samples, the agent that adds up what it is told, and the reservation that keeps it to one capture
  whatever the interleaving of requests and reader threads.
* **The network watch** (`NetwatchHistory`, `NetwatchFindings`, `NetwatchDetector`). Tables changed by every observation and
  a list of findings with priority eviction, against what the history of claims says.
* **Disk usage** (`DiskPaths`, `DiskScan`, `DiskCache`). The explicit-stack walk that counts each inode once, and the cache
  that is patched instead of rescanned after a deletion.
* **The ICMP checksum** (`IcmpChecksum`), with the exact size up to which two folds are enough.

Code that changes things step by step is modelled as classes and loops, each proved against a function or a relation on
values; the properties are then lemmas about those. Failures the program reports as exceptions are values of `Result`
(`Wrappers`); `Collections` holds a few facts about sequences, texts and sets, `MacAddress` the text of hardware addresses.

Where the program does not have the property one would expect, the exact condition is proved, with an input that shows
that it is needed:

* a combined filter means all of its conditions (`CombineMeansAll`; `HostOfSeveralWords`,
  `DeepestExpressionCannotBeCombined`);
* every host has a folder of its own (`SharedFolder`, `SanitizeReads`; `SanitizeMerges`);
* a name is read with all of its labels (`WellFormedNameIsRead`; `LongChainLosesLabel`);
* two folds give the checksum (`ChecksumIsTrue`; `LargerMessageFails`);
* the kernel filter lets every event through (`EventsAreAccepted`; `TaggedClaimIsMissed`, `Version6IsMissed`);
* an ended capture keeps its status (`EndedChangesByLastWord`, `EndedStaysUntil`; `StoppedMayBecomeDone`).

## Model

| member | source | states |
|---|---|---|
| FilterLexer.Tokenize | capture_filter.py:56-67 | the loop that matches one token after another gives the longest-match tokens of the stripped text, or the same error |
| FilterLexer.TokensCoverText | capture_filter.py:56-67 | every token is one of the language, and the tokens together are the text without its white space |
| FilterLexer.LexSplit | capture_filter.py:45-67 | where a token must end, a text may be cut: its tokens are those of the two pieces |
| FilterLexer.LexParenthesis | capture_filter.py:45-67 | a parenthesis is always a token of its own, with or without space around it |
| FilterLexer.LexOfSpaced | capture_filter.py:45-67 | tokens written with spaces between them are read back as the same tokens |
| FilterPrimitives.ReadTestTakes | capture_filter.py:183-246 | a test that is read takes at least one token and no more than there are |
| FilterPrimitives.ReadTestAgrees | capture_filter.py:183-288 | what a test is read as depends only on the tokens it takes and on whether the next one qualifies a bare protocol, so a closing parenthesis after it acts like the end |
| FilterGrammar.TestsAreLocal | capture_filter.py:183-288 | the tests of the language can stand as leaves of the grammar |
| FilterGrammar.ParseYieldOr | capture_filter.py:145-181 | reading the tokens of a good tree, followed by anything that cannot continue it, gives the tree when it fits the depth limit and the depth error when it does not |
| FilterGrammar.ReadBackOr | capture_filter.py:145-181 | whatever the descent reads is a good tree within the depth limit whose tokens are exactly those it took |
| FilterGrammar.ParserDecidesGrammar | capture_filter.py:145-181 | a token list is read as a tree if and only if the tree is good, at most 16 deep, and yields that list; so the grammar is unambiguous and `and` binds tighter than `or` |
| FilterGrammar.TooDeepIsRefused | capture_filter.py:167-172 | a good tree nested more than 16 deep is refused for its depth |
| FilterPrinter.CompileSpaced | capture_filter.py:291-296 | the spaced text of a good tree compiles to that tree, unless one of the two limits is passed, and then with the error of that limit |
| FilterPrinter.PrintThenCompile | capture_filter.py:145-181 | a formula of or, and, not over tests, printed with parentheses and compiled, means what the formula means; the two limits are the only way to fail |
| FilterCombine.ValidatedIsValid | capture.py:75-109 | what validation lets through has a canonical address, a port from 1 to 65535, a known protocol and an expression that compiles |
| FilterCombine.CompileJoined | capture_filter.py:299-312 | conditions joined by " and " compile to the conjunction of what each compiles to |
| FilterCombine.CombineMeansAll | capture_filter.py:299-312 | the combined text compiles exactly when it is at most 300 characters long and the expression is less than 16 deep, with the right error otherwise; it then accepts exactly the packets that host, port, protocol and expression, each compiled alone, all accept, if and only if the other conditions accept whatever a disjunct of the host's text before its last one accepts |
| FilterCombine.CombineHost | capture_filter.py:299-312 | what follows the host's text joins the last disjunct of that text, up to the two limits |
| FilterCombine.WordHostReads | capture_filter.py:299-312 | a host of one word is one test, so that for it the combined filter always means all of its conditions |
| FilterCombine.DeepestExpressionCannotBeCombined | capture_filter.py:167-172 | an expression that is accepted alone and refused once it is combined |
| FilterCombine.HostOfSeveralWords | capture_filter.py:299-312 | for a host text of several words, such as an IPv6 zone may hold, the combined filter accepts a packet it should not |
| FilterMeaning.LowerForgetsCase | capture_filter.py:128-129 | changing the case of letters changes nothing that the parser looks at |
| FilterMeaning.HostMeans | capture_filter.py:214-222 | `[src or dst] host A` compiles exactly when `A` is an address, and accepts the packets from it, to it, or either, as the direction says |
| FilterMeaning.NetMeans | capture_filter.py:223-230 | `[src or dst] net N` compiles exactly when `N` is a network, and accepts the packets from an address in it, to one, or either |
| FilterMeaning.PortMeans | capture_filter.py:231-245 | `[src or dst] port N` compiles exactly for numbers from 1 to 65535, and accepts the TCP and UDP packets with that port at the named end, or at either |
| FilterMeaning.RangeMeans | capture_filter.py:231-245 | `[src or dst] portrange A-B` is refused when an end is no port or the range runs backwards, and else accepts the TCP and UDP packets with a port from A to B at the named end, or at either |
| FilterMeaning.RangeNeedsDash | capture_filter.py:237-240 | a range without a dash is refused |
| FilterMeaning.ProtocolMeans | capture_filter.py:70-80 | for each protocol word, which field of the packet it looks at and the value it wants there |
| FilterMeaning.QualifiedMeans | capture_filter.py:195-245 | a protocol before a sided test asks for both; asking a protocol without ports for ports is refused |
| FilterMeaning.ProblemMeans | capture_filter.py:188-193 | for each problem word, the flag the packet must have, and for `problem` any flag at all |
| FilterMeaning.EtherMeans | capture_filter.py:248-256 | `ether [src or dst] host M` accepts the frames from that hardware address, to it, or either, in lower case |
| MacAddress.MacIsSixPairs | capture_filter.py:46-46 | a hardware address is six pairs of hexadecimal digits with colons between them |
| FilterMeaning.LengthMeans | capture_filter.py:258-272 | `len`, for each of the comparison signs, compares the length of the packet to the number |
| FilterMeaning.LessMeans | capture_filter.py:258-272 | `less N` is a length of at most N and `greater N` one of at least N |
| FilterMeaning.NamedMeans | capture_filter.py:274-288 | `sni` matches the server name and `name` that or the name of the packet, by pattern or, for a pattern that starts with a star and a dot, as the domain itself |
| FilterMeaning.ConnectiveMeans | capture_filter.py:153-165 | two tests joined by `and` or its sign ask for both, joined by `or` or its sign for one of them, and the words may be in any case |
| FilterMeaning.NegationMeans | capture_filter.py:170-173 | a test after `not` or its sign is turned round |
| FilterMeaning.UnsupportedIsRefused | capture_filter.py:183-187 | what the language leaves out on purpose is refused as such |
| FilterMeaning.OneWordFilters | capture_filter.py:183-246 | a word is a filter of its own if and only if it names a protocol or a problem |
| FilterParser.Parser.constructor | capture_filter.py:121-126 | a parser starts at the first token |
| FilterParser.Parser.Take | capture_filter.py:131-136 | the next token and one step further, or the error at the end |
| FilterParser.Parser.Parse | capture_filter.py:145-151 | the predicate it returns is the meaning of the tree the grammar reads, and it fails exactly when and as the grammar does |
| FilterParser.Parser.OrExpr | capture_filter.py:153-158 | the loop over `or` collects predicates any of which is enough, and stops where the grammar stops |
| FilterParser.Parser.AndExpr | capture_filter.py:160-165 | the loop over `and` collects predicates all of which are needed, and stops where the grammar stops |
| FilterParser.Parser.Unary | capture_filter.py:167-181 | negation, parentheses and tests, one level deeper each time, with the depth error where the grammar has it |
| FilterParser.Parser.Primitive | capture_filter.py:183-246 | a test becomes the predicate that holds for exactly the packets the test holds for, which `FilterMeaning` tells by the fields of the packet |
| FilterParser.CompileFilter | capture_filter.py:291-296 | a text compiles to the meaning of its tree, told by the fields of the packet in `FilterMeaning`, or fails with the error of the grammar or of the length limit |
| BackupProtocol.ActKeepsInv | stack_backup.py:574-645 | every statement of every host, with every outcome, keeps the relation between branch, clones and working trees |
| BackupProtocol.HeadHoldsLatest | stack_backup.py:574-645 | when each commit changes only its author's folder, the newest one holds every host's own latest push |
| BackupProtocol.BranchIsSafe | stack_backup.py:574-645 | in every interleaving with every failure, each host's folder in the branch is that of its own latest push that took effect, and holds what was staged whenever its sync has returned |
| BackupProtocol.PushStagesOwn | stack_backup.py:597-631 | a push that takes effect adds one commit: the newest tree with the host's folder replaced by what it staged |
| BackupProtocol.FewPushesMeanSuccess | stack_backup.py:581-645 | a sync is refused at most as often as other hosts pushed during it, and when nothing else failed and they pushed fewer than five times it does not end in an error |
| BackupProtocol.AnswerIsTrue | stack_backup.py:606-636 | "pushed" names a commit of the host's own made since the sync began; when nothing failed, "no changes" means that it made none, and is the answer exactly when the branch held what was staged from the beginning |
| BackupProtocol.OthersSinceCounts | stack_backup.py:581-645 | the number of pushes refusals are compared with is that of the commits by others since the sync began |
| BackupProtocol.WorkingStaysFlawless | stack_backup.py:581-645 | a sync whose statements all work stays one in which nothing failed |
| BackupProtocol.SyncsEnd | stack_backup.py:581-645 | every statement of a sync brings its end closer, from at most 42 statements, and no other host's statement touches it |
| HostFolder.SanitizedNames | stack_backup.py:156-158 | a folder name is never empty, has no separator in it, and names itself |
| HostFolder.SanitizeKeeps | stack_backup.py:156-158 | exactly which names are kept as they are, ".." among them |
| HostFolder.SanitizeReads | stack_backup.py:156-158 | a name is given the folder f if and only if, without its outer underscores and other characters, it reads as f with each run of other characters as one underscore, or nothing is left and f is "unnamed" |
| HostFolder.SharedFolder | stack_backup.py:156-158 | two hosts share a folder if and only if their names, without those edges, agree in every name character and every run of others |
| HostFolder.KeptNamesShareNothing | stack_backup.py:156-158 | two names that are kept as they are share a folder only when they are equal |
| HostFolder.DotFolders | stack_backup.py:156-158 | the folder is "." or ".." for exactly the names that leave that without their edges |
| HostFolder.SanitizeMerges | stack_backup.py:156-158 | two different names that are given the same folder |
| StackBackup.StatementDecides | stack_backup.py:581-645 | the exit status of a statement alone decides the next one, as the loop does |
| StackBackup.ReturnedIsTruthful | stack_backup.py:606-636 | what a sync returns is true of the branch as it found it and as it left it |
| StackBackup.World.Others | stack_backup.py:574-645 | what the other hosts do in between is a run of the protocol |
| StackBackup.Backup.Statement | stack_backup.py:574-645 | one statement of the loop is one step of the protocol, after whatever others did |
| StackBackup.Backup.Report | stack_backup.py:608-613 | the commit reported is the one the sync ended at, or the sync raises |
| StackBackup.Backup.Attempt | stack_backup.py:581-643 | one round of the loop: fetch, reset, clean, replace, add, diff, commit, push, and how it ends: after an empty diff with the answer that nothing changed, after an accepted push with the answer that it pushed |
| StackBackup.Backup.Sync | stack_backup.py:574-645 | the whole loop is a run of the protocol; when it returns, the branch and the commit it names hold the staged tree in the host's folder, "pushed" names a commit made by the host since it began, and, when every statement works, "no changes" means that the host made none and is returned exactly when the branch held the staged tree already; when every statement works it raises only after five pushes of others |
| StackBackup.Backup.RunOnce | stack_backup.py:288-319 | a call while a run holds the lock, its sync under way or not, changes nothing; otherwise no error in the status means that the branch holds what was collected and that result and commit in the status are true in the sense of `Sync`, and an error leaves the last result as it was |
| TcpHealth.CheckSequence | capture_worker.py:300-315 | the branches on what was expected compute the tracker's step for data |
| TcpHealth.CheckAck | capture_worker.py:316-323 | the branches on acknowledgements compute the tracker's step for pure acknowledgements |
| TcpHealth.Health.Check | capture_worker.py:280-324 | a packet changes the record of its own direction only and reports the issues of the tracker: "reset" exactly for a packet with RST, "zero-window" exactly for one with window 0 and neither RST nor SYN; the table stays within 50,000 keys |
| TcpHealth.FlagsAreReported | capture_worker.py:296-299 | the same of the tracker, whatever it knows of the direction |
| TcpHealth.TableIsBounded | capture_worker.py:286-292 | on any trace at all the table never exceeds 50,000 keys |
| TcpHealth.TableIsPerDirection | capture_worker.py:275-324 | on a trace of at most 50,000 directions each record is that of its direction's packets alone |
| TcpHealth.IssuesArePerDirection | capture_worker.py:275-324 | on such a trace the issues reported for a packet are those of running its direction alone |
| TcpHealth.DupAckFromThirdOn | capture_worker.py:316-323 | "dup-ack" is reported exactly from the third pure acknowledgement in a row with the same number and window on |
| TcpHealth.HighEndIsHighest | capture_worker.py:300-315 | the reference: the highest end of any data seen, on numbers that do not wrap |
| TcpHealth.TrackerRefinesUnbounded | capture_worker.py:280-315 | while the true numbers stay within 2^31 of the highest end, what is expected is that end mod 2^32, a retransmission is reported exactly for data starting below it except a keep-alive (at most one byte, one below, no SYN or FIN), and a gap exactly for data starting above it (section 3.4 of RFC 9293) |
| BpfFilter.BpfProgram | netwatch_worker.py:50-80 | the loop that turns targets into offsets gives the assembled table |
| BpfFilter.AssembleKeepsMeaning | netwatch_worker.py:73-80 | for any table with forward targets the program with relative jumps gives every frame the verdict of the table |
| BpfFilter.AndOfOnes | netwatch_worker.py:63-64 | testing against a mask of n ones is asking for the remainder by 2^n |
| BpfFilter.ProgramAcceptsWanted | netwatch_worker.py:50-80 | on every frame of any length the program accepts exactly ARP and first-fragment or unfragmented IPv4 UDP with port 67 or 68 on either side |
| FrameDecoder.ScanOptions | capture_worker.py:193-208 | the loop over DHCP options stops on every input and finds the options in order |
| FrameDecoder.OptionsRoundTrip | capture_worker.py:193-208 | options written one after another are read back, the last one of a code winning |
| FrameDecoder.TagsAreSkipped | capture_worker.py:430-433 | any number of VLAN tags is skipped, and the ethertype and the payload behind them are found |
| FrameDecoder.ClaimIsRead | capture_worker.py:441-452 | an ARP claim becomes one event with the claimed address, the claimed MAC, the operation and the Ethernet source, each from its own field, whatever tags precede it and padding follows it |
| FrameDecoder.DhcpIsRead | capture_worker.py:186-224 | a DHCP message is read field by field, from its fixed part and from its options in any order |
| FrameDecoder.DhcpEventIsRead | netwatch_worker.py:97-106 | a DHCP message in an IPv4 datagram, between DHCP ports, becomes one event with the sender's addresses; IP options and padding do not matter, and a total length that cannot be right means everything |
| FrameDecoder.MessageNeedsBothPorts | capture_worker.py:357-358 | a datagram holds a message for the watcher exactly when it is UDP, both of its ports are DHCP's, and a message is behind them |
| FrameDecoder.ExtensionsAreSkipped | capture_worker.py:397-400 | any number of IPv6 extension headers of the three kinds is skipped, and the protocol and the payload behind them are found (section 4 of RFC 8200) |
| FrameDecoder.PacketIsRead | capture_worker.py:392-410 | a DHCP message in an IPv6 packet, behind any extension headers, is read with the sender's address; padding is no part of it, and a payload length of 0 means everything |
| FrameDecoder.DhcpIsWanted | capture_worker.py:371-391 | an IPv4 datagram from which a DHCP message is decoded is one the kernel filter wants |
| FrameDecoder.EventsAreAccepted | netwatch_worker.py:97-106 | an event is let through by the kernel filter if and only if its frame is one the filter wants; all untagged ARP frames with an event are, all that are IPv4 by ethertype and version, and none of any other ethertype |
| FrameDecoder.Version6IsMissed | capture_worker.py:392-410 | an IPv6 packet under the ethertype of IPv4 that is an event to the decoder and refused by the filter |
| FrameDecoder.OtherEthertypesAreMissed | netwatch_worker.py:57-59 | every other ethertype is refused, whatever the decoder would make of the frame |
| FrameDecoder.TaggedClaimIsMissed | capture_worker.py:421-452 | an ARP claim behind a VLAN tag is an event to the decoder and refused by the filter |
| DnsName.ReadName | capture_worker.py:80-103 | the loop stops on every byte string, pointer cycles included, with the labels and the end of the recursive reading |
| DnsName.NameEndsInside | capture_worker.py:80-103 | a name that is read ends after its start and inside the message |
| DnsName.WellFormedNameIsRead | capture_worker.py:80-103 | a well-formed name is read as its labels before the twentieth pointer, in order, with the offset just past it in its own record; these are all of its labels if and only if it has at most 19 pointers or no label stands behind the twentieth (section 4.1.4 of RFC 1035) |
| DnsName.LongChainLosesLabel | capture_worker.py:80-103 | for every label, a message in which twenty pointers lead to it and it is lost |
| DnsName.NameRoundTrip | capture_worker.py:80-103 | a name written anywhere in a message is read back from there |
| DnsName.CompressedRoundTrip | capture_worker.py:80-103 | labels that end in a pointer to a name written earlier are read as those labels and then that name, with the offset just past the pointer |
| IcmpChecksum.ChecksumIsTrue | probes.py:250-256 | two folds give the one's complement checksum if and only if the total is one for which the second fold's carry does not matter |
| IcmpChecksum.ChecksumIsTrueUpToSize | probes.py:250-256 | for every message up to 131,076 bytes they do, and sum and checksum are 0 mod 65535 together (section 1 of RFC 1071) |
| IcmpChecksum.LargerMessageFails | probes.py:250-256 | a message of 131,078 bytes for which they do not |
| IcmpChecksum.EchoRequestChecksOut | probes.py:259-262 | the checksum over any built echo request of that size is 0 |
| IcmpChecksum.EchoRequestLayout | probes.py:259-262 | an echo request is built exactly when identifier and number fit sixteen bits, and has type, code, the checksum of the whole without it, identifier, number and payload in their places |
| IcmpChecksum.OddMessage | probes.py:250-252 | a message of odd length has the checksum it has with a zero byte behind it |
| DiskScan.Scan.CountFile | disk_usage.py:89-95 | a file counts at the first of its links that is met and never again |
| DiskScan.Scan.Walk | disk_usage.py:97-131 | the walk ends and adds to its row the folders on the device and every inode not counted before, each once, and marks the row exactly when a folder on the device under it, or it itself, cannot be read |
| DiskScan.Scan.Run | disk_usage.py:147-205 | a finished scan lists every child that can be looked at, with its kind and whether a folder under it on the device cannot be read; each row holds the folders under its child on the device and every inode not counted before, and all rows together each distinct inode once, whatever order the entries are listed in |
| DiskScan.DistinctAdd | disk_usage.py:89-95 | one more link adds the bytes of its inode if and only if none was met before |
| DiskScan.SumOfPermutation | disk_usage.py:105-106 | what is counted does not depend on the order in which a folder is listed |
| DiskPaths.IsBelowMeans | disk_usage.py:286-298 | the prefix tests on texts ask exactly whether one path is below the other, never whether a name begins like another |
| DiskPaths.RenderInjective | disk_usage.py:56-63 | different paths have different texts |
| DiskPaths.ParentIsShorter | disk_usage.py:265-265 | the folder asked for is the path without its last name |
| DiskPaths.NormalizeIsCanonical | disk_usage.py:56-63 | a normalized path is the text of real names, and normalizing it again changes nothing |
| DiskCache.Cache.Known | disk_usage.py:263-273 | the bytes of the first row with that path in the scan of its folder, if there is one that is not pending |
| DiskCache.Cache.ForgetPath | disk_usage.py:276-299 | a scan stays cached if and only if it is not of the path or below it and, when the size is unknown, not above it; one that is not above the path stays as it is, the others are patched, in whatever order the cache is gone through |
| DiskCache.ScansThatStay | disk_usage.py:276-299 | the same in terms of paths: which scans a deletion drops, which it keeps, and which it leaves alone |
| DiskCache.RowAfterDeletion | disk_usage.py:295-299 | in a scan above the path, wherever a row stands: the row of the path goes, one above it loses what was freed and never falls below 0, every other stays |
| DiskCache.KnownIsSize | disk_usage.py:263-273 | with exact scans, what is known of a path is what is on the disk under it |
| DiskCache.RemoveShrinks | disk_usage.py:276-299 | removing a path takes exactly its size off every folder above it |
| DiskCache.PatchIsRescan | disk_usage.py:295-299 | patching the rows of a scan above the path gives the rows of scanning the smaller tree |
| DiskCache.ForgetKeepsExact | disk_usage.py:263-299 | on a plain tree, forgetting a deleted path with the bytes known of it leaves every scan still cached with exactly the rows of the smaller tree |
| DiskCache.FreshScanIsExact | disk_usage.py:147-205 | on a plain tree without hard links, the rows a scan leaves are exact one by one, in the order of its listing |
| DiskCache.Cache.Rescan | disk_usage.py:237-260 | a new scan takes the place of the one cached for its folder, with exact rows on such a tree and none when it fails |
| DiskCache.RescanKeepsExact | disk_usage.py:237-260 | so the cache stays exact when a folder is scanned again |
| DiskCache.StillCachedIsRescan | disk_usage.py:263-299 | and a scan still cached after a deletion shows the very rows that any new scan of its folder would show |
| NetwatchHistory.RunStartIsStart | netwatch.py:153-163 | the reference: the longest run of claims by the last claimant |
| NetwatchHistory.BindingIsHolder | netwatch.py:153-163 | the table says of an address who claimed it last, and when the unbroken run of its claims started and ended, a saved binding counting as a claim at its start and one at its end |
| NetwatchHistory.DeviceIsMet | netwatch.py:141-151 | and of a device when it was met first and which address it claimed last |
| NetwatchHistory.AppearanceFromHistory | netwatch.py:141-149 | a claim announces its device exactly when nothing was saved of it, it has made no claim before, and learning is over |
| NetwatchHistory.NewOnesToldStep | netwatch.py:141-149 | one more claim keeps it true that every device first met when learning was over is announced once, at that time, and no other |
| NetwatchHistory.TakeoverFromHistory | netwatch.py:159-186 | a takeover is sighted exactly when the previous claim of the address came from another device: a bad change of the gateway, information about a move after more than an hour's quiet, else a warning of a conflict |
| NetwatchHistory.TablesCompose | netwatch.py:231-232 | a run split in two, the second half starting from the tables of the first, ends with the same tables |
| NetwatchHistory.RunsCompose | netwatch.py:231-232 | and sights the same takeovers |
| NetwatchHistory.ServersCompose | netwatch.py:231-232 | and knows the same DHCP servers and announces the same ones |
| NetwatchHistory.ServerIsHeard | netwatch.py:191-205 | the table says of a DHCP server when it was heard first and last, and the MAC of its last reply that came with a usable one |
| NetwatchHistory.TablesHoldWhatIsSeen | netwatch.py:141-163 | the tables hold what they started with and every address and device seen, and nothing else |
| NetwatchHistory.EveryOtherServerOnce | netwatch.py:191-216 | every DHCP server but the first heard is announced, exactly once |
| NetwatchFindings.AlertsSurvive | netwatch.py:114-125 | an eviction removes no alert as long as there are no more than 200 |
| NetwatchFindings.NotesPushOutOnlyNotes | netwatch.py:114-125 | from a list within its limits, a finding of level info never evicts a warn or bad one |
| NetwatchFindings.BadGoesLast | netwatch.py:122-125 | a bad finding is evicted only when every one left is bad and was sighted no earlier |
| NetwatchFindings.RunsAreBounded | netwatch.py:98-125 | after every run at most 60 info findings and 200 in all remain |
| NetwatchFindings.NoAlertIsLost | netwatch.py:98-125 | whatever the flood of notes, while a run alerts about at most 200 things each is still listed with its first and last sighting and their number |
| NetwatchDetector.Drop | netwatch.py:119-131 | as many of the lowest entries are dropped as it takes, and nothing lower than what goes is left |
| NetwatchDetector.EvictedInTwo | netwatch.py:114-125 | the two stages of an eviction together drop the lowest by severity and then by last sighting |
| NetwatchDetector.Detector.constructor | netwatch.py:84-94 | a detector goes on from saved tables, and learns quietly for five minutes only when there are none |
| NetwatchDetector.Detector.Evict | netwatch.py:114-125 | both limits hold afterwards, and what went is lowest |
| NetwatchDetector.Detector.Raise | netwatch.py:98-112 | another sighting updates a finding, a new one is added and may push out others |
| NetwatchDetector.Detector.Trim | netwatch.py:127-131 | 2,000 devices and addresses at most are left, and none that goes was met, or claimed, after one that stays |
| NetwatchDetector.Detector.MeetDevice | netwatch.py:141-151 | a device is remembered when first met, and announced then if learning is over, as `AppearanceFromHistory` tells |
| NetwatchDetector.Detector.BindAddress | netwatch.py:153-186 | the claimant holds the address, and a takeover is sighted as the history demands |
| NetwatchDetector.Detector.ObserveArp | netwatch.py:135-187 | a claim that does not count changes nothing; one that does changes tables, findings and the dirty flag as stated, keeps the tables true to the history while 2,000 are enough, and then announces its device exactly when nothing was saved of it, it made no claim before and learning is over |
| NetwatchDetector.ClaimsThatCount | netwatch.py:60-80 | a claim counts exactly when it names a private unicast address and comes from a hardware address that is neither nobody's nor everybody's nor one that routers hand to each other |
| NetwatchDetector.Detector.ObserveDhcp | netwatch.py:191-216 | only replies of servers with a private address count; they update the table of servers and announce a second one |
| NetwatchDetector.RepliesThatCount | netwatch.py:191-205 | a reply counts for a server exactly when it is an offer, ACK or NAK and the address of the server option, or the sender's where that is missing, is private; its MAC is kept when it may be a device's |
| NetwatchDetector.Detector.SetGateway | netwatch.py:361-363 | a gateway set anew, at every start of the helper, leaves all that was learned true to the history |
| NetwatchDetector.TellsStep | netwatch.py:135-187 | while at most 2,000 addresses and devices were seen, nothing is trimmed and the tables follow the history |
| NetwatchDetector.FindingsOfARun | netwatch.py:98-125 | whatever a detector observed, its list is within the limits and, up to 200 alerts, accounts for all of them |
| NetwatchDetector.HoldersOfARun | netwatch.py:135-187 | while at most 2,000 addresses and devices are seen, over the whole life of a detector and however often its gateway is set, each binding is the last claimant with the start and end of its run, and each device is known with its first claim and last address |
| NetwatchDetector.NewDevicesOfARun | netwatch.py:141-149 | over the whole life of a detector, while 2,000 are enough, every device that was not saved and is first met when learning is over is sighted as new exactly once, at that time, and no other device ever is |
| NetwatchDetector.RestartChangesNothing | netwatch.py:84-94 | a detector built from what another exported ends with the tables that one detector making all the observations would have, and the two together sight its takeovers and announce its servers |
| CaptureMessages.KeyIsConversation | capture_worker.py:465-470 | two packets share a key exactly when they are of one protocol between the same two ends, either way |
| CaptureMessages.KeyHoldsEnds | capture_worker.py:465-470 | a key names the protocol and the two ends, the lower one first, a missing port being 0 |
| CaptureMessages.FlowIsCounted | capture_worker.py:599-607 | of a conversation the table says how many frames it has, how many bytes, and how many frames were sent and received |
| CaptureMessages.ProtocolIsCounted | capture_worker.py:593-598 | of a protocol, and of everything together, how many frames and how many bytes |
| CaptureMessages.TotalOfParts | capture_worker.py:594-595 | the totals of two stretches of traffic add up |
| CaptureMessages.ProtocolsOfParts | capture_worker.py:596-598 | so do the counts per protocol |
| CaptureMessages.FlowsOfParts | capture_worker.py:599-607 | and those per conversation |
| CaptureMessages.ProtocolsAddUp | capture_worker.py:593-598 | every packet is counted for exactly one protocol: the counts per protocol sum to the totals, in packets and in bytes |
| CaptureMessages.FlowsAreDirected | capture_worker.py:599-607 | every packet of a conversation is counted as sent or as received |
| CaptureWorker.TopFlows | capture_worker.py:553-553 | the 150 largest conversations, largest first, and none left out that is larger than one named |
| CaptureWorker.Report | capture_worker.py:552-562 | a tick is due by the clock, holds the exact counts since the last one, and resets them |
| CaptureWorker.Count | capture_worker.py:593-627 | a frame is counted, and listed unless enough are listed this second |
| CaptureWorker.Run | capture_worker.py:545-632 | up to the deadline, the lines written are those of the log of what was counted, in order, with the reason of the end last |
| CaptureWorker.EmitsCut | capture_worker.py:545-632 | what is written up to any line is the output of the log up to it |
| CaptureWorker.SkippedOnlyWhenFull | capture_worker.py:612-617 | a frame is left out of the list only when the full number was listed since a moment less than a second ago |
| CaptureWorker.TicksOnceASecond | capture_worker.py:552-562 | a round ticks exactly when the first second is over and every earlier tick was a second ago or more, and the tick comes before the frame of the round |
| CaptureTotals.RunIsBalanced | capture.py:196-242 | after every line of every run, the tables are those of all frames reported, and listed and unlisted account for all of them |
| CaptureTotals.TickBalances | capture.py:210-242 | after a log that ends in a tick, listed and unlisted make up the total, the protocols sum to it in packets and bytes, and out and in make up every conversation |
| CaptureTotals.EveryTickBalances | capture.py:210-242 | for every run of the sniffer, right after each of its ticks is applied, the tables hold exactly what had been counted by then and balance |
| CaptureTotals.KeptIsMerge | capture.py:223-242 | while a thousand conversations are enough, adding those of a tick one by one adds up the two tables |
| CaptureTotals.FlowsAreExact | capture.py:223-242 | while ticks can name all conversations and a thousand are enough, the table is that of every frame reported |
| CaptureTotals.FlowsAllOrNothing | capture.py:223-242 | the table never holds more than a thousand conversations; one that it holds is there with everything ever told of it, and one that was told of and is not there came when a thousand others were kept |
| CaptureTotals.FlowsStay | capture.py:223-242 | a conversation that is kept stays, whatever comes after |
| CaptureTotals.SeriesIsLatest | capture.py:211-212 | the graph shows the last 600 ticks, or all, each with what it counted |
| CaptureTotals.RingIsLatest | capture.py:200-209 | the ring is the last 3,000 packets listed, or all, with consecutive numbers |
| CaptureTotals.NumberedInOrder | capture.py:200-207 | packets are numbered from one without a hole |
| CaptureTotals.PollMissesNothing | capture.py:422-432 | a poll gets exactly the packets after the one it names, except what the ring has dropped, so none is missed while at most 3,000 came in between |
| CaptureControl.StepKeepsInv | capture.py:295-320 | every step of every thread keeps the relation between jobs, reservation and threads |
| CaptureControl.OneCapture | capture.py:295-320 | in every interleaving at most one published job is capturing, and it is the current one |
| CaptureControl.ReservationIsHeldByOne | capture.py:301-313 | the flag is set exactly while one start, and no second one, is between reservation and release |
| CaptureControl.RefusedWhenBusy | capture.py:301-304 | a start is refused exactly when another holds the reservation or a job is capturing |
| CaptureControl.RunGoesOn | capture.py:253-284 | in every run no job returns to capturing, and a job that was replaced never changes |
| CaptureControl.ReaderTouchesCurrentOnly | capture.py:196-199 | a reader changes no job but its own, and that only while it is the current one |
| CaptureControl.EndedChangesByLastWord | capture.py:243-250 | the status of a job that has ended changes if and only if it is the current one and its own helper's last word says something else |
| CaptureControl.EndedStaysUntil | capture.py:243-250 | in every run a stopped or otherwise ended job stays as it is until such a step |
| CaptureControl.StoppedMayBecomeDone | capture.py:243-250 | a run in which a stopped job is reported as done afterwards |
| CaptureControl.StopStops | capture.py:406-419 | once a stop that found a job capturing has marked it, that job no longer captures, now or later |
| CaptureJobs.CaptureJob.AddProtocols | capture.py:219-222 | adding the rows of a tick one by one merges the two tables, whatever the order |
| CaptureJobs.CaptureJob.AddFlows | capture.py:223-242 | the loop over a tick's conversations keeps a thousand and adds to those it keeps |
| CaptureJobs.CaptureJob.Update | capture.py:196-250 | a line changes the job's lists, tables and status in place as the specification says |
| CaptureJobs.Controller.Reserve | capture.py:301-304 | check and reservation are one step |
| CaptureJobs.Controller.Publish | capture.py:308-310 | the new job is the current one |
| CaptureJobs.Controller.Release | capture.py:311-313 | the reservation ends on every way out |
| CaptureJobs.Controller.Take | capture.py:196-250 | a line for a replaced job is ignored |
| CaptureJobs.Controller.Fail | capture.py:266-277 | a reader that breaks off marks its job only while that is current and capturing |
| CaptureJobs.Controller.Mark | capture.py:415-418 | a stop marks the job it found only while that is current and capturing |
| CaptureJobs.Controller.Snapshot | capture.py:422-432 | the packets after a number, cut to the newest |
| CaptureRuns.JobHoldsItsMessages | capture.py:196-250 | in every interleaving of starts, stops and readers a job holds what its own helper told while it was current |
| CaptureRuns.EveryJobBalances | capture.py:210-242 | in every interleaving, a job fed the beginning of a sniffer's output up to a tick holds exactly what the sniffer had counted by then, and balances |

## Left out

- CombineMeansAll: it asks that the condition on the host compiles alone, but for its length, as it does for every IPv4
  address and every IPv6 address without a zone; a zone text that is no expression behind `host` is not treated.
- Hosts are told apart by their folders; `SharedFolder` says when two share one. A `Backup` is not built for a host whose
  folder is "." or ".." (`DotFolders`): what the program then replaces is not a folder of the branch.
- The patched cache is compared with a rescan on trees of readable folders, regular files and symlinks on one device with
  no hard links, where a patched scan can be exact at all.
- The git commands: a fetch copies the head, a push succeeds only when its parent still is the head, and each may fail.
  Shallow clones, credentials, ignore files and the effect of `git clean` on other folders are not part of this model.
- Collecting, selecting and redacting the files that are backed up, which is a matter of name lists and patterns.
- IP addresses, networks and name patterns (`ipaddress`, `fnmatch`) are functions given to the model, as are the conditions
  on private addresses; caches of their results are left out.
- Text beyond ASCII: letter case, digits and white space are those of ASCII.
- JSON lines, subprocess and attach streams, sockets, containers, the HTTP routes and the terminal. Messages are values, and
  a line the agent cannot read, or reads only in part, does not occur.
- Real time: clock readings are inputs. Timestamps of jobs and packets, durations and progress are left out, except where
  they decide something.
- TLS, HTTP, NTP and summary texts, DHCP type names and the decoding of names to text; the decoder is modelled as far as
  the events of the network watch need it.
- The issue counts, drop counts, names and payload bytes of a capture, which are added up in the same way as what is shown.
- Ties: where the program sorts by time or size and entries are equal, the model leaves the order open.
- The last part of a second of a capture, for which the sniffer sends no tick; balances are stated at ticks.
- What a second scan shows while the first one of the same folder is still running, and when a scan is too old.
- A detector and its export share their tables in the program; in the model the export is a copy.
- Turning the watch on and off and supervising its helper, whose threads may overlap.
- What `usage` does with expired scans, and the view of a scan cut to its largest rows.
- File counts in cached scans, which are not patched, and special files, which count at one level of a scan and not at
  another: the totals are stated with that difference, and the cache for trees without such files.
- Folders that change while they are scanned.
- Hashes and keys: the identifier of a finding, a shortened hash, and the text that names a conversation are taken to be
  different for different things.
