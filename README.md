# Assemblotron core, modelled in Dafny

Assemblotron tunes the parameters of de novo transcriptome assemblers. This
project models the parts of it that decide things:

- **Reservoir subsampling** of paired FASTQ files (`Sample#subsample`).
  Both files are read in lockstep as four-line records, at most `n` pairs are
  kept, and the kept pairs are written to `subset.<basename>` files.
- **Assembler back ends.** SOAPdenovo-Trans merges its defaults under the
  caller's parameters, renders a fixed-order command line and counts runs.
  IDBA-Tran merges the reads once, builds its command by appending flags,
  and treats an empty contig file as no result.
- **The assembler manager.** It sorts assembler manifests into available and
  uninstalled lists by platform and binaries. It also lists names, finds an
  assembler by name or shortname, writes the help listing, picks the
  dependencies to install, and builds the options for an optimisation run.
- **Host classification** (`System.os`, `System.wordsize`, `System.match?`)
  and the **type-name map** (`TypeMap.class_from_type`).
- **The simulation table.** CSV rows become a map from parameter setting to
  score. That map is then transposed into, for each parameter, its distinct
  values in first-seen order.
- **The bad-read-mappings objective.** Alignment lines are taken two at a
  time and each pair is classified by the FLAG bits of section 1.4 of the
  Sequence Alignment/Map Format Specification. The score is the number of
  bad pairs.

One Dafny module per Ruby file:

- `sample.dfy`, `soap_denovo_trans.dfy`, `idba_tran.dfy`,
  `assembler_manager.dfy`, `system.dfy`, `typemap.dfy`, `simulator.dfy` and
  `bad_read_mappings.dfy` model the Ruby files of the same names.
- The Ruby core library's behaviour is in shared modules:
  - `wrappers.dfy`: nil and raised errors as `Option` and `Result`.
  - `strings.dfy`: substring search, `Integer#to_s`, `join` and `split`.
  - `seqs.dfy`: `each_slice` and `select`.
  - `ordered_hash.dfy`: the insertion-ordered `Hash`.
  - `ruby_values.dfy`: interpolation and truthiness of option values.
  - `paths.dfy`: `File.basename`, `File.dirname` and `File.join`.

Some things are inputs to the model: file contents, the file system,
binaries found on the PATH, the host string, the pointer width and the
random draws.

Where code has loops and state, the model is imperative:

- `Sample.FillReservoir` is the fill-and-overwrite loop.
- `BadReadMappings.Objective.ParseSam` is the counter loop.
- The `Registry`, `Simulator` and `Assembler` classes have fields that their
  methods update.

Each method is proved against a specification function. Lemmas then prove
what the source promises about that function.

## Model

| member | source | states |
|---|---|---|
| Sample.EachLine | lib/assemblotron/sample.rb:19-20 | The lines laid end to end give back the file text. Each line is non-empty with a newline at most at its end. |
| Sample.Zip | lib/assemblotron/sample.rb:24 | One pair per left record. The i-th pair holds the i-th left record and the i-th right record, or nil when the right file ran out. |
| Sample.SampleIndices | lib/assemblotron/sample.rb:25-36 | The reservoir, as indices of the pairs seen so far, holds min(k, n) entries (none when n < 0). |
| Sample.SampleIndicesDistinct | lib/assemblotron/sample.rb:25-36 | Every reservoir slot refers to a pair already seen, and no pair occupies two slots. |
| Sample.Reservoir | lib/assemblotron/sample.rb:22-38 | The final reservoir holds min(n, m) pairs for n > 0 and none otherwise. |
| Sample.FillPhase | lib/assemblotron/sample.rb:25-28 | While count <= n, the reservoir is the pairs 0..k-1 in input order. |
| Sample.FirstPairsFill | lib/assemblotron/sample.rb:25-28 | With no more pairs than n, the reservoir is the input pairs unchanged. |
| Sample.ReplacePhase | lib/assemblotron/sample.rb:29-36 | Once count > n, the reservoir length never changes. A rejected draw leaves it unchanged. An accepted draw overwrites exactly the drawn slot, which is below n, with the current pair. |
| Sample.MatesAligned | lib/assemblotron/sample.rb:24-34 | Every reservoir entry is the left record and the right record from one and the same input position. |
| Sample.FillReservoir | lib/assemblotron/sample.rb:22-38 | The loop that appends during the fill phase and overwrites a slot on acceptance ends with exactly Reservoir(pairs, n, draws). |
| Sample.PutsLineCount | lib/assemblotron/sample.rb:48-49 | `puts` of one line writes exactly one newline. |
| Sample.LeftOutputCount | lib/assemblotron/sample.rb:47-50 | The left output of r full records has 4·r lines. |
| Sample.RightOutputCount | lib/assemblotron/sample.rb:47-50 | The right output of r full records has 4·r lines. |
| Sample.WriteReservoir | lib/assemblotron/sample.rb:47-50 | The two outputs are written entry by entry. The i-th record of each output comes from the same reservoir entry. |
| Sample.Subsample | lib/assemblotron/sample.rb:14-55 | Output paths are `subset.` plus the basename beside each input. The text written is the puts of the reservoir of the zipped records. |
| Sample.SubsetLineCounts | lib/assemblotron/sample.rb:19-50 | Both inputs hold m full four-line records and n > 0. Then each output holds 4·min(n, m) lines. |
| Sample.LinesOfRecords | lib/assemblotron/sample.rb:19-20 | Every line of every record is a line as each_line yields it. |
| Paths.LastSlash | lib/assemblotron/sample.rb:41-45 | The index of the last '/', or none when the path has no '/'. |
| Paths.StripTrailingSlashes | lib/assemblotron/sample.rb:41-45 | A prefix of the path without trailing slashes, except a lone "/". A path not ending in '/' is unchanged. |
| Paths.DirnameShape | lib/assemblotron/sample.rb:41 | The directory is non-empty and ends in '/' only when it is "/". |
| Paths.BasenameHasNoSlash | lib/assemblotron/sample.rb:42 | The basename of a path that names a file contains no '/'. |
| Paths.SubsetPathParts | lib/assemblotron/sample.rb:41-45 | The output path is in the input's own directory, and its basename is `subset.` plus the input's basename. |
| SoapDenovoTrans.IncludeDefaults | lib/assemblotron/assemblers/soap_denovo_trans.rb:20-33 | The merged keys are the default keys plus the caller's keys. A key the caller supplied holds the caller's value. Any other default key holds its default. |
| SoapDenovoTrans.MergedAgrees | lib/assemblotron/assemblers/soap_denovo_trans.rb:32-36 | Reading a key of the merged hash gives the caller's value, else the default, else nil. |
| SoapDenovoTrans.FragmentsLayout | lib/assemblotron/assemblers/soap_denovo_trans.rb:37-51 | The command pieces have a fixed order: mode and config file first, then -a, -o, -p, -K and -d, then -F only when the merged :F is truthy, then -M, -L, -e, -t and -G. |
| SoapDenovoTrans.FlagFIffTruthy | lib/assemblotron/assemblers/soap_denovo_trans.rb:46 | -F is in the command exactly when the merged :F is truthy. |
| SoapDenovoTrans.AppendedIsJoin | lib/assemblotron/assemblers/soap_denovo_trans.rb:37-51 | Appending " piece" after " piece" is joining all the words with single spaces. |
| SoapDenovoTrans.CommandIsJoinedArgv | lib/assemblotron/assemblers/soap_denovo_trans.rb:35-51 | The command is the tool path followed by every piece's words, joined by single spaces. |
| SoapDenovoTrans.CommandSplitsIntoArgv | lib/assemblotron/assemblers/soap_denovo_trans.rb:35-51 | When every interpolated value is one word, splitting the command on spaces gives back the argument vector. |
| SoapDenovoTrans.UnrenderedKeysIgnored | lib/assemblotron/assemblers/soap_denovo_trans.rb:35-51 | Changing a key the command does not read (:config, for one) never changes the command. |
| SoapDenovoTrans.DefaultsRendered | lib/assemblotron/assemblers/soap_denovo_trans.rb:21-31 | The defaults render as 23, 0, 1, 100, 2, 5 and 50, and :F is true. |
| SoapDenovoTrans.DefaultFlags | lib/assemblotron/assemblers/soap_denovo_trans.rb:20-51 | With no default key supplied, the flags after the thread count are -K 23 -d 0 -F -M 1 -L 100 -e 2 -t 5 -G 50. |
| SoapDenovoTrans.Assembler.constructor | lib/assemblotron/assemblers/soap_denovo_trans.rb:3-5 | The run counter starts at zero. |
| SoapDenovoTrans.Assembler.Run | lib/assemblotron/assemblers/soap_denovo_trans.rb:7-18 | Setup is called only on the first run. The shell line is the command redirected to `<count>.log`. The counter rises by one. The result is nil exactly when no scaffold file exists, otherwise the first one. |
| RubyValues.ShowWord | lib/assemblotron/assemblers/soap_denovo_trans.rb:40-51 | An interpolated one-word value is non-empty and has no space. |
| IdbaTran.Assembler.constructor | lib/assemblotron/assemblers/idba_tran.rb:6-9 | Each binary is the first PATH hit, or nil when there is none. |
| IdbaTran.Assembler.PrepareReads | lib/assemblotron/assemblers/idba_tran.rb:59-67 | The read file is always idba_merged_reads.fa. The merge command runs exactly when that file does not exist yet, and it is `fq2fa --merge left right idba_merged_reads.fa`. |
| IdbaTran.Assembler.BuildCmd | lib/assemblotron/assemblers/idba_tran.rb:42-57 | The command built by appending each flag with a trailing space is the argument vector joined by single spaces. |
| IdbaTran.Assembler.RunIdba | lib/assemblotron/assemblers/idba_tran.rb:30-40 | The built command is run. The absolute path of contig.fa is returned whatever the exit status. |
| IdbaTran.Assembler.Run | lib/assemblotron/assemblers/idba_tran.rb:18-28 | A missing contig file raises. An empty one gives nil. A non-empty one gives that file. |
| IdbaTran.ArgvLayout | lib/assemblotron/assemblers/idba_tran.rb:45-55 | The words are the binary, -o ., -r reads and --num_threads n, then the thirteen tuning words in order. |
| IdbaTran.CommandWords | lib/assemblotron/assemblers/idba_tran.rb:42-57 | When the binary path and the thread count are single words, splitting the command on spaces gives back the argument vector. |
| System.HostOs | lib/assemblotron/system.rb:15-29 | Windows iff a Windows alternative occurs. macOS iff no Windows one does and a Mac one does. Linux and Unix likewise in case order. Otherwise an error naming the host. |
| System.HostOsKnown | lib/assemblotron/system.rb:17-28 | The host is recognised exactly when one of the twelve alternatives occurs in it. |
| System.CygwinBeforeLinux | lib/assemblotron/system.rb:18-23 | The earlier branch wins: a host string containing "cygwin" is Windows. |
| System.LinuxHost | lib/assemblotron/system.rb:22-23 | "linux" followed by any text without the letters of the Windows and Mac alternatives (such as "linux-gnu") is Linux. |
| System.DarwinHost | lib/assemblotron/system.rb:20-21 | "darwin" followed by any version number (such as "darwin19.6.0") is macOS, although it contains "win". |
| System.Wordsize | lib/assemblotron/system.rb:34-36 | 32 exactly when a packed pointer is four bytes long, otherwise 64. |
| System.Match | lib/assemblotron/system.rb:38-49 | It raises iff the table has the word-size key and the host is unknown. It is true iff the table has the word-size key and that entry has the host's OS key. |
| System.MatchIgnoresHostWithoutWordsize | lib/assemblotron/system.rb:41-48 | Without the word-size key it is false and never consults the host. |
| System.BitKeys | lib/assemblotron/system.rb:39 | For every pointer width, the key is "32bit" for four bytes and "64bit" otherwise. |
| TypeMap.ClassFromType | lib/assemblotron/typemap.rb:9-22 | String iff 'str' or 'string'. Integer iff 'int' or 'integer'. Float iff 'float'. nil iff the name is none of these five exactly, so case and blank variants give nil. |
| TypeMap.TypeNameRoundTrip | lib/assemblotron/typemap.rb:10-21 | Every class is reached from its long name. |
| AssemblerManager.PlaceCases | lib/assemblotron/assemblermanager.rb:22-40 | A manifest is skipped iff its platform check is false. It is available iff the check is true and every binary resolves, and uninstalled iff the check is true and some binary is missing. The check raising is an error. |
| AssemblerManager.LoadPlaced | lib/assemblotron/assemblermanager.rb:15-44 | Every manifest in the available list was placed Available, and every one in the uninstalled list Uninstalled. No more are placed than were discovered. |
| AssemblerManager.LoadStep | lib/assemblotron/assemblermanager.rb:18-40 | One more manifest is appended to the list its placement names, skipped, or stops the scan with its error. |
| AssemblerManager.LoadDisjoint | lib/assemblotron/assemblermanager.rb:31-40 | No assembler is in both lists. |
| AssemblerManager.LoadErrorSticks | lib/assemblotron/assemblermanager.rb:16-43 | Once the platform check has raised, later manifests change nothing. |
| AssemblerManager.LoadFailsIff | lib/assemblotron/assemblermanager.rb:22 | The scan fails exactly when some manifest's platform check raises. |
| AssemblerManager.KnownHostLoads | lib/assemblotron/assemblermanager.rb:22 | On a recognised host the scan never fails. |
| AssemblerManager.LoadPartition | lib/assemblotron/assemblermanager.rb:22-40 | Without an error, the available list is exactly the matching manifests whose binaries resolve, in discovery order. The uninstalled list is exactly the matching ones missing a binary. |
| AssemblerManager.NamesOfMember | lib/assemblotron/assemblermanager.rb:50-57 | A string is listed iff some available assembler has it as name or shortname. |
| AssemblerManager.GetAssembler | lib/assemblotron/assemblermanager.rb:157-164 | The result is the first available assembler whose name or shortname is the argument. The error case holds iff none answers, with the message "couldn't find assembler x". |
| AssemblerManager.GetAssemblerIffNamed | lib/assemblotron/assemblermanager.rb:157-164 | get_assembler succeeds exactly for the strings assembler_names lists. |
| AssemblerManager.GetAssemblerErrorNamesIt | lib/assemblotron/assemblermanager.rb:162 | The error message contains the requested identifier. |
| AssemblerManager.FoundIsAvailable | lib/assemblotron/assemblermanager.rb:157-164 | A found assembler matches the platform and resolves its binaries, and is never an uninstalled one. |
| AssemblerManager.EmptyBracketsAsWritten | lib/assemblotron/assemblermanager.rb:74-78 | As written, an assembler without a shortname is listed as "  - name ()". |
| AssemblerManager.BracketsIffShortname | lib/assemblotron/assemblermanager.rb:74-78 | In the corrected listing, a line has brackets iff the assembler has a shortname. |
| AssemblerManager.EntriesHasLine | lib/assemblotron/assemblermanager.rb:74-78 | For any line writer, the code's included, a section is its assemblers' lines in list order. |
| AssemblerManager.AppendEntries | lib/assemblotron/assemblermanager.rb:74-78 | The loop leaves the text followed by one line per assembler, in list order, each written as the code writes it: name, then the shortname in brackets, empty brackets when there is none. |
| AssemblerManager.ListingEndsInNewline | lib/assemblotron/assemblermanager.rb:102 | The listing always ends in a newline, whatever the line writer. |
| AssemblerManager.ListingNoneInstalled | lib/assemblotron/assemblermanager.rb:64-65 | With nothing available, the listing says no assemblers are installed, whatever the line writer. |
| AssemblerManager.ListingAllInstalled | lib/assemblotron/assemblermanager.rb:82-83 | With nothing uninstalled, the listing says all are installed, whatever the line writer. |
| AssemblerManager.ListingHasAvailableLine | lib/assemblotron/assemblermanager.rb:74-78 | For any line writer, the code's included, each available assembler's line occurs in the listing. |
| AssemblerManager.ListingHasUninstalledLine | lib/assemblotron/assemblermanager.rb:95-99 | For any line writer, the code's included, each uninstalled assembler's line occurs in the listing. |
| AssemblerManager.EntryLineHasName | lib/assemblotron/assemblermanager.rb:75-77 | The line the code writes mentions the assembler's name, and so does the intended line. |
| AssemblerManager.ListingMentionsName | lib/assemblotron/assemblermanager.rb:60-103 | Every available assembler's name appears in the printed listing, and in the intended one. |
| AssemblerManager.ListingShowsEmptyBrackets | lib/assemblotron/assemblermanager.rb:74-78 | The printed listing shows an available assembler without a shortname as "  - name ()". |
| AssemblerManager.DepsTableKeys | lib/assemblotron/assemblermanager.rb:112-121 | Every manifest's name, and its shortname (nil when it has none), is a key of the table. |
| AssemblerManager.DepsTableKeysDistinct | lib/assemblotron/assemblermanager.rb:112-121 | The table's keys are distinct: assignment never repeats a key. |
| AssemblerManager.SelectAll | lib/assemblotron/assemblermanager.rb:123-130 | "all" selects every key, in table order. |
| AssemblerManager.SelectOne | lib/assemblotron/assemblermanager.rb:123-130 | Any other request selects the equal key if the table has one, and nothing else. |
| AssemblerManager.SelectOneFromTable | lib/assemblotron/assemblermanager.rb:112-130 | Asking for one name or shortname selects that key if the table has it, and nothing else. |
| AssemblerManager.ToDependency | lib/assemblotron/assemblermanager.rb:137-146 | unpack defaults to true and libraries to []. The other fields are copied. |
| AssemblerManager.DependencyListAt | lib/assemblotron/assemblermanager.rb:137-146 | The i-th dependency is built from the i-th selected key and the bindeps stored under it. |
| AssemblerManager.InstallAssemblers | lib/assemblotron/assemblermanager.rb:105-150 | It is the "wasn't available" error (exit 1) iff the selection is empty. Otherwise it is one dependency per selected key, in table order. |
| AssemblerManager.SubsetOptions | lib/assemblotron/assemblermanager.rb:209-211 | A copy of the options whose :left and :right are the subset reads. Every other key is unchanged. |
| AssemblerManager.Registry.constructor | lib/assemblotron/assemblermanager.rb:7-10 | Both lists start empty and the options are kept. |
| AssemblerManager.Registry.LoadAssemblers | lib/assemblotron/assemblermanager.rb:15-44 | The lists grow by exactly the scan's available and uninstalled manifests, never reset. The options are untouched. |
| AssemblerManager.Registry.AssemblerNames | lib/assemblotron/assemblermanager.rb:50-57 | Each available assembler's name, then its shortname when it has one, in order. |
| AssemblerManager.Registry.ListAssemblers | lib/assemblotron/assemblermanager.rb:60-103 | The text built line by line is the printed listing of the two lists, empty brackets included. |
| AssemblerManager.Registry.Get | lib/assemblotron/assemblermanager.rb:157-164 | A found assembler is available and answers to the name. It fails iff the name is not listed. |
| AssemblerManager.Registry.RunAssembler | lib/assemblotron/assemblermanager.rb:207-218 | The experiment gets the subset-read options, the thread count and the time limit. |
| AssemblerManager.Create | lib/assemblotron/assemblermanager.rb:7-12 | A new manager holds exactly the scan's lists and the given options. |
| Simulator.SplatSplits | lib/assemblotron/simulator.rb:33-35 | `*init, last = line` loses nothing: init followed by last is the row. |
| Simulator.ZipCells | lib/assemblotron/simulator.rb:36 | One pair per key. The i-th value, or nil when the row is short. Extra values are dropped. |
| Simulator.RowEntries | lib/assemblotron/simulator.rb:31-39 | Each data row becomes its parameter setting and its last cell as the score. |
| Simulator.LaterRowWins | lib/assemblotron/simulator.rb:37 | A row's score is stored for its setting unless a later row has the same setting. |
| Simulator.LoadStep | lib/assemblotron/simulator.rb:31-39 | One more data row assigns its score to its setting. |
| Simulator.ParamsKeys | lib/assemblotron/simulator.rb:36 | With distinct header names, a setting has exactly the header's names in column order. |
| Simulator.ParamsValue | lib/assemblotron/simulator.rb:36 | Each name reads its column, or nil when the row is short. |
| Simulator.ParamsKeysDedup | lib/assemblotron/simulator.rb:36 | Whatever the row holds, a setting's names are the header's names without repeats, in first-seen order. |
| Simulator.FromPairsKeysDedup | lib/assemblotron/simulator.rb:36 | `Hash[pairs]` keeps the pairs' keys without repeats, in first-seen order. |
| Simulator.AddAllProperties | lib/assemblotron/simulator.rb:48-52 | Marking values never repeats one and keeps exactly the values seen. |
| Simulator.AddAllPrefix | lib/assemblotron/simulator.rb:48-52 | The distinct values of a prefix of the values are a prefix of the distinct values of the whole. |
| Simulator.DedupFirst | lib/assemblotron/simulator.rb:54-58 | The first distinct value is the first value. |
| Simulator.DedupProperties | lib/assemblotron/simulator.rb:54 | The values list has no repeats and holds exactly the values seen. |
| Simulator.MarkAllFailureSticks | lib/assemblotron/simulator.rb:48-52 | Once a mark fails, it stays failed. |
| Simulator.MarkAllKeys | lib/assemblotron/simulator.rb:50 | Marking keeps the table's keys in place. |
| Simulator.MarkAllSucceeds | lib/assemblotron/simulator.rb:50 | Marking succeeds iff every pair's key has an entry. |
| Simulator.MarkAllUnique | lib/assemblotron/simulator.rb:50 | Marking never repeats a key. |
| Simulator.MarkAllGet | lib/assemblotron/simulator.rb:48-52 | Each key holds its earlier values with its new distinct values appended in first-seen order. |
| Simulator.FreshTableGet | lib/assemblotron/simulator.rb:45-47 | The fresh table holds each of the first setting's parameters with no values. |
| Simulator.EntryFor | lib/assemblotron/simulator.rb:55-59 | :values is the list and :opt is true. :type is 'string' iff the first value is a String, else 'integer'. |
| Simulator.Finish | lib/assemblotron/simulator.rb:53-60 | Every entry is replaced by its finished entry, in the same order. |
| Simulator.FinishGet | lib/assemblotron/simulator.rb:53-60 | Finishing keeps the keys and maps each key to its entry. |
| Simulator.LoadedSettingsKeys | lib/assemblotron/simulator.rb:31-39 | Given a header with distinct names, every setting of the loaded table has exactly the header's names, in column order. |
| Simulator.LoadedSettingsShareKeys | lib/assemblotron/simulator.rb:31-39 | Every setting of a loaded table has the header's distinct names and no name twice, whatever the header repeats. |
| Simulator.TransposedEntries | lib/assemblotron/simulator.rb:44-61 | The keys are the first setting's parameters, in order. Each entry lists the distinct values that parameter takes, in first-seen order. |
| Simulator.TransposedFails | lib/assemblotron/simulator.rb:45-50 | It fails iff the table is empty or a setting names a parameter the first setting lacks. |
| Simulator.LoadedTransposes | lib/assemblotron/simulator.rb:28-61 | A table loaded from a header and at least one data row always transposes, even when the header repeats a name. |
| Simulator.EntryTypeKnown | lib/assemblotron/simulator.rb:58 | Every :type maps back through the type map to String or Integer. |
| Simulator.MarkSetting | lib/assemblotron/simulator.rb:49-51 | Marking one setting's pairs in turn gives what marking all pairs so far gives, including its failure. |
| Simulator.MarkSettingFails | lib/assemblotron/simulator.rb:49-51 | A pair that fails to mark fails the whole setting. |
| Simulator.MarkPrefixFailure | lib/assemblotron/simulator.rb:48-52 | A failure while marking the first settings fails the whole transposition. |
| Simulator.TransposedFailure | lib/assemblotron/simulator.rb:45-52 | A failure in the first settings is the transposition's error. |
| Simulator.TransposedSuccess | lib/assemblotron/simulator.rb:45-61 | Marking every setting makes the result the finished table. |
| Simulator.FinishTable | lib/assemblotron/simulator.rb:53-60 | The finishing loop gives exactly the finished table. |
| Simulator.Simulator.LoadSimulationData | lib/assemblotron/simulator.rb:28-40 | The loop over the CSV rows leaves exactly the loaded table. |
| Simulator.Simulator.TransposeSimdata | lib/assemblotron/simulator.rb:44-62 | The nested marking loops and the finishing loop give exactly the transposed table or its error. |
| Simulator.Simulator.Run | lib/assemblotron/simulator.rb:64-66 | The loaded table together with the given parameters. |
| BadReadMappings.Slices | lib/assemblotron/objectives/bad_read_mappings.rb:82 | Header lines are dropped, then the rest is taken two at a time in file order. Laid end to end, the slices are the non-header lines. Only the last slice may hold a lone line. |
| BadReadMappings.StepTotal | lib/assemblotron/objectives/bad_read_mappings.rb:83-84 | total rises by one iff the left line parses. A slice whose left line does not parse changes nothing. |
| BadReadMappings.LoneLeftOnlyTotal | lib/assemblotron/objectives/bad_read_mappings.rb:83-85 | A slice whose left line parses but whose right line is missing or does not parse raises total and nothing else. |
| BadReadMappings.ClassifyPairKind | lib/assemblotron/objectives/bad_read_mappings.rb:93-111 | An unpaired left read changes nothing. A paired one raises paired and exactly one of proper_pair and improper_pair. |
| BadReadMappings.ClassifyProperPair | lib/assemblotron/objectives/bad_read_mappings.rb:96-108 | good and proper_orientation rise iff (first in pair and mate reverse) or (second in pair and read reverse). Otherwise bad and improper_orientation rise. |
| BadReadMappings.ClassifyUnmapped | lib/assemblotron/objectives/bad_read_mappings.rb:111-112 | An improper pair with the read or its mate unmapped raises only paired and improper_pair. |
| BadReadMappings.ClassifySameContig | lib/assemblotron/objectives/bad_read_mappings.rb:112-136 | both_mapped and same_contig rise. realistic rises iff the position difference is below the read length. Otherwise unrealistic and bad rise. |
| BadReadMappings.ClassifyDifferentContigs | lib/assemblotron/objectives/bad_read_mappings.rb:141-155 | realistic and good rise iff both reads lie within realistic_dist of either end. Otherwise unrealistic and bad rise. |
| BadReadMappings.ClassifyIgnoresRightFlags | lib/assemblotron/objectives/bad_read_mappings.rb:93-155 | Only the left read's flags classify a pair. |
| BadReadMappings.ClassifyPairCounts | lib/assemblotron/objectives/bad_read_mappings.rb:93-155 | Classifying a pair keeps the pair-counter relations. |
| BadReadMappings.ClassifyVerdictCounts | lib/assemblotron/objectives/bad_read_mappings.rb:93-155 | Classifying a pair keeps the verdict relations. |
| BadReadMappings.StepConsistent | lib/assemblotron/objectives/bad_read_mappings.rb:82-161 | Every slice keeps the relations between the counters and raises total by at most one. |
| BadReadMappings.TallyConsistent | lib/assemblotron/objectives/bad_read_mappings.rb:62-161 | unpaired stays 0 and paired = proper_pair + improper_pair. proper_pair = proper_orientation + improper_orientation and realistic + unrealistic = both_mapped. same_contig ≤ both_mapped ≤ improper_pair, paired ≤ total ≤ slices, and good + bad ≤ proper_pair + both_mapped. |
| BadReadMappings.ClassifyBadExact | lib/assemblotron/objectives/bad_read_mappings.rb:119-155 | When the flag test never answers bad, a pair raises bad exactly as much as it raises improper_orientation plus unrealistic. |
| BadReadMappings.StepBadExact | lib/assemblotron/objectives/bad_read_mappings.rb:83-155 | The same for one slice, whatever its lines. |
| BadReadMappings.TallyBadExact | lib/assemblotron/objectives/bad_read_mappings.rb:62-161 | When the flag test never answers bad, as Integer `&` Integer always passes in Ruby, bad = improper_orientation + unrealistic after any file. |
| BadReadMappings.TallyTotal | lib/assemblotron/objectives/bad_read_mappings.rb:83-84 | total is the number of slices whose left line parses. |
| BadReadMappings.DiagnoseResult | lib/assemblotron/objectives/bad_read_mappings.rb:62-165 | :result is present iff the file exists and `wc -l` counts a line, and it then equals bad. Otherwise all thirteen counters are 0. |
| BadReadMappings.Objective.constructor | lib/assemblotron/objectives/bad_read_mappings.rb:28-31 | realistic_dist = insertsize + 3·insertsd. |
| BadReadMappings.Objective.ParseSam | lib/assemblotron/objectives/bad_read_mappings.rb:61-166 | The counter loop over the slices returns exactly Diagnose of the file. |
| BadReadMappings.Objective.ClassifyPair | lib/assemblotron/objectives/bad_read_mappings.rb:93-158 | The counters updated field by field are exactly Classify of the pair. |

## Left out

- Process execution is left out: the shell commands, `Cmd`, `Which`, bowtie2 and `map_reads`/`build_index`. Their results are inputs: PATH hits, existing files, file sizes, the alignment file's lines.
- Ruby's `Random` and the float arithmetic of `rng.rand < n / count` and `rng.rand(n)` are left out. The generator is a sequence of draws: an accept flag and a slot below n.
- The line parsing of the `better_sam` library is not part of this model. The parser is a parameter from a line to an optional record {flag, chrom, pos, seqLen}.
- BadReadMappings.Classify: the orientation test on a realistic same-contig pair is left open. It reads a global `$flags` that nothing in the repository defines, inside a rescue. Its outcome is a parameter: none (the rescue swallowed an error), good or bad. Bad over-approximates the source: the test is a conjunction of Integer `&` Integer, which Ruby always treats as true, so the source only raises or counts the pair good; BadReadMappings.TallyBadExact states what follows when the parameter never answers bad. The other eleven counters do not depend on it.
- BadReadMappings.Objective.ParseSam: the unused `flags` tally of lines 87-92 is not modelled. Neither are the `puts` calls in the rescue.
- BadReadMappings.Classify: `Math.sqrt((a - b) ** 2)` is modelled as the exact absolute difference. `realistic_dist` is taken as an integer, though insertsize and insertsd may be floats.
- BadReadMappings.Objective: `run`'s constant weighting, optimum, max and elapsed time are floats and clock readings, and are not modelled.
- `SoapDenovoTrans.setup_soap` is not defined in the repository. SoapDenovoTrans.Assembler.Run records only that it is called on the first run. The `Transrater` built from the scaffold file is represented by the file name.
- No config-file check: the code raises no error when `:config` is missing. The model follows the code.
- IdbaTran.Assembler.Run: the Transrate assembly and read metrics built from the contig file are not modelled. Neither are the messages printed when idba fails.
- AssemblerManager.Registry.LoadAssemblers: the lists are appended to and never reset. Loading twice therefore lists every assembler twice. The model follows the code.
- AssemblerManager.Registry.LoadAssemblers: the missing-binary names of lines 33-36 only feed a debug message and are not modelled.
- AssemblerManager.InstallAssemblers: expanding and creating the install directory, and `Dependency#install_missing`, are not modelled. Reading the YAML manifests is not modelled either; the parsed manifests are an input. `exit(1)` is the error result.
- AssemblerManager.Registry.RunAssembler: `Biopsy::Experiment#run` is an external library. The model stops at the arguments of `Experiment.new`.
- `run_all_assemblers` (lines 167-202) is left out. It is directory orchestration and calls `final_assembly`, which is not defined.
- `full_assembly` is left out; it only delegates to the assembler's `run`.
- System.HostOs: for an unknown host the code refers to `Error::WebDriverError`, which is not defined in the repository, so Ruby raises NameError before any message is built. The model chooses `Err(host)` for that branch. The pointer width that `wordsize` probes with `pack` is a parameter.
- Simulator.Simulator.TransposeSimdata: the error texts stand for Ruby's NoMethodError on nil. CSV parsing into cells is not modelled: a row is a sequence of cells, each text or nil.
- `Simulator#setup`, `setup_biopsy` and `generate_parameters` configure an external library and are not modelled.
- Sample.Subsample: file handles are not modelled; the outputs are the paths and the text written to each.
- AssemblerManager.Place: every manifest is taken to carry a `bindeps` section with `:url` and `:binaries`. In the code a manifest without one is only logged by `Assembler#store_config` (assembler.rb:9-10) and stores nil. `load_assemblers` then raises NoMethodError at line 22 (`bindeps[:url]`) or line 27 (`bindeps[:binaries]`). The model does not capture that raise.
- AssemblerManager.InstallAssemblers: every table entry is taken to have bindeps. A manifest without them stores nil under its name and its shortname, the nil key included. `bindeps.key?` at line 139 then raises NoMethodError. That raise is not modelled.
- RubyValues.Show: a value is nil, a boolean, an integer or a string. There is no Float case, so a Float `:memory` or `:threads` interpolated by `construct_command` is outside the model.
- AssemblerManager.IntendedListing: the listing the header describes. It is kept only as the corrected half of the finding below. `list_assemblers` is modelled by PrintedListing.
- Strings.Contains: the alternatives of the `host_os` regular expressions hold no metacharacters, so matching is substring search.

## Findings

| source | as written | input that shows it | evidently intended | confidence | as-written member | corrected member |
|---|---|---|---|---|---|---|
| lib/assemblotron/assemblermanager.rb:76 | The bracket is added `if a.respond_to? :shortname`. Every assembler responds to `shortname`, so the guard is always true. | An assembler with name "trinity" and no shortname is listed as "  - trinity ()". | Show the shortname in brackets only when there is one, as the listing header says ("Shortnames are shown in brackets if available"). The same holds at line 97. | not executed | AssemblerManager.EmptyBracketsAsWritten | AssemblerManager.BracketsIffShortname |
