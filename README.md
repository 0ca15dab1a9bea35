# vs-threading analyzers and AsyncDebugTools, modelled in Dafny

This project models two parts of the vs-threading repository.

- **Three pieces of the Roslyn analyzers.**
  - VSTHRD010 flags uses of Visual Studio services from code that is not known to run on the main thread.
  - VSTHRD013 flags MEF parts whose importing constructor has thread affinity.
  - The `Namespaces` helper builds qualified type names.
- **The text-parsing core of AsyncDebugTools**, the WinDbg extension.
  - It reads the output of the SOS commands `!threads`, `!PrintException`, `!ThreadPool`, `!do` and `!name2ee`.
  - It guesses which frame of an exception's stack to blame.
  - It decides whether the CLR thread pool is exhausted. If it is, it reports the call stacks that most of the pool's worker threads share.

The files follow the source:

- `text.dfy` (module `Text`): the string vocabulary the parsers share.
  - `Option`; `std::getline` as `Lines`; `find`, `find_first_not_of` and `find_last_of`.
  - Character classes and `atoi` on digit strings.
- `namespaces.dfy` (module `Namespaces`): `Namespaces.cs`.
- `vs_service_usage.dfy` (module `VsServiceUsage`): the VSTHRD010 analyzer.
  - `MethodAnalyzer` is a class. Its per-declaration threading facts and its reported diagnostics are fields that the handlers update.
  - The handlers are proved against the pure specification `Visit`. Properties of a whole pass are lemmas over `Run`, the fold of `Visit` over the visited syntax nodes.
- `mef_activation.dfy` (module `MefActivation`): the VSTHRD013 analyzer, as functions over symbols.
- `helpers.dfy` (module `Helpers`): `Helpers.cpp` and the records of `Helpers.h`.
  - Parsers whose source works by loops are methods, each proved equal to a specification function on the lines of the output.
  - The properties are lemmas about those functions.
- `thread_pool_exhausted.dfy` (module `ThreadPoolExhausted`): `ThreadPoolExhausted.cpp`.
  - The comparator on call stacks and the exhaustion test.
  - Collecting the workers' stacks, counting them per stack in a map, sorting the counts in place in an array, and selecting the stacks to blame.

Roslyn's semantic model, the debugger and the frame parser of `k` output are outside the model. What they would return comes in as data: resolved symbols carried in the syntax-site datatypes, command outputs as `Option<string>` (`None` when the command failed), and the frame parser as a function parameter.

## Model

| member | source | states |
|---|---|---|
| Namespaces.MakeTypeSyntax | src/Microsoft.VisualStudio.Threading.Analyzers/Namespaces.cs:34-57 | A missing argument throws an `ArgumentNullException` that names it, `namespaces` first. An empty namespace list gives no name. Otherwise the result is a qualified name nested to the left. Its simple names are the namespaces followed by the type name, the type name is its right part, and it has one qualified node per namespace. |
| Namespaces.ComponentsDetermineName | src/Microsoft.VisualStudio.Threading.Analyzers/Namespaces.cs:46-54 | Left nesting is unambiguous: two names with the same simple names are the same name. |
| VsServiceUsage.FirstReportingInterface | src/Microsoft.VisualStudio.Threading.Analyzers/VSTHRD010VsServiceUsageAnalyzer.cs:147-154 | It gives the first implemented interface, in enumeration order, whose use would be reported. It gives none exactly when no interface would be. |
| VsServiceUsage.MethodAnalyzer.constructor | src/Microsoft.VisualStudio.Threading.Analyzers/VSTHRD010VsServiceUsageAnalyzer.cs:101-106 | A new analyzer holds the three configured lists, no threading facts and no diagnostics. |
| VsServiceUsage.MethodAnalyzer.AnalyzeTypeWithinContext | src/Microsoft.VisualStudio.Threading.Analyzers/VSTHRD010VsServiceUsageAnalyzer.cs:189-220 | A null type throws and reports nothing. Otherwise it reports exactly when one of three rules needs the main thread and the enclosing declaration is not known to run on it. The rules are: an interface from an assembly with a configured name prefix; `GetService` on the Shell's `Package`; an instance member of the Shell's `ServiceProvider`. The diagnostic names the type and is placed at the focus node, or at the site without one. It returns whether it reported. |
| VsServiceUsage.MethodAnalyzer.AnalyzeInvocation | src/Microsoft.VisualStudio.Threading.Analyzers/VSTHRD010VsServiceUsageAnalyzer.cs:126-157 | The new facts, the appended diagnostics and whether it threw are those of `Visit`. It keeps every recorded fact `MainThread`. |
| VsServiceUsage.MethodAnalyzer.AnalyzeMemberAccess | src/Microsoft.VisualStudio.Threading.Analyzers/VSTHRD010VsServiceUsageAnalyzer.cs:159-167 | It appends the diagnostics of `Visit` for a property access and throws when `Visit` does. Facts are unchanged. |
| VsServiceUsage.MethodAnalyzer.AnalyzeCast | src/Microsoft.VisualStudio.Threading.Analyzers/VSTHRD010VsServiceUsageAnalyzer.cs:169-177 | It appends the diagnostics of `Visit` for a cast. |
| VsServiceUsage.MethodAnalyzer.AnalyzeAs | src/Microsoft.VisualStudio.Threading.Analyzers/VSTHRD010VsServiceUsageAnalyzer.cs:179-187 | It appends the diagnostics of `Visit` for an `as` or `is` expression. |
| VsServiceUsage.MethodAnalyzer.AnalyzeNode | src/Microsoft.VisualStudio.Threading.Analyzers/VSTHRD010VsServiceUsageAnalyzer.cs:107-111 | Dispatching on the syntax kind has exactly the effect `Visit` specifies. |
| VsServiceUsage.VisitOnlyRecordsMainThread | src/Microsoft.VisualStudio.Threading.Analyzers/VSTHRD010VsServiceUsageAnalyzer.cs:135-138 | A visit writes only `MainThread` and never removes a declaration's entry. |
| VsServiceUsage.EstablishingCallRecords | src/Microsoft.VisualStudio.Threading.Analyzers/VSTHRD010VsServiceUsageAnalyzer.cs:133-139 | A call to an asserting or switching method inside a declaration marks that declaration as on the main thread and reports nothing. |
| VsServiceUsage.VisitIdempotent | src/Microsoft.VisualStudio.Threading.Analyzers/VSTHRD010VsServiceUsageAnalyzer.cs:137 | Visiting the same site twice records the same facts as visiting it once. |
| VsServiceUsage.AtMostOneDiagnostic | src/Microsoft.VisualStudio.Threading.Analyzers/VSTHRD010VsServiceUsageAnalyzer.cs:142-154 | A visit reports at most one diagnostic. For an invocation, a diagnostic needs a resolved method with a containing type. It is placed at the member name, or at the whole invoked expression when there is none. |
| VsServiceUsage.InvocationReportsIff | src/Microsoft.VisualStudio.Threading.Analyzers/VSTHRD010VsServiceUsageAnalyzer.cs:145-154 | A non-establishing invocation reports exactly when its containing type or one of its interfaces needs the main thread outside a known main-thread context. The containing type takes precedence over the interfaces. |
| VsServiceUsage.TypeSitesUseOnlyInterfaceRule | src/Microsoft.VisualStudio.Threading.Analyzers/VSTHRD010VsServiceUsageAnalyzer.cs:169-200 | Casts and `as`/`is` pass no member symbol, so only the listed-assembly interface rule can fire for them. |
| VsServiceUsage.UnresolvedSymbolSkipped | src/Microsoft.VisualStudio.Threading.Analyzers/VSTHRD010VsServiceUsageAnalyzer.cs:126-186 | A site whose symbol or type does not resolve changes nothing, reports nothing and throws nothing. |
| VsServiceUsage.UnlistedAssemblyNeverRuleOne | src/Microsoft.VisualStudio.Threading.Analyzers/VSTHRD010VsServiceUsageAnalyzer.cs:196-198 | A type from an assembly whose name starts with no configured prefix never meets the interface rule. |
| VsServiceUsage.RunOnlyMainThread | src/Microsoft.VisualStudio.Threading.Analyzers/VSTHRD010VsServiceUsageAnalyzer.cs:118-137 | Every fact stays `MainThread` through a whole pass. |
| VsServiceUsage.MainThreadIsKept | src/Microsoft.VisualStudio.Threading.Analyzers/VSTHRD010VsServiceUsageAnalyzer.cs:137 | Once a declaration is known to be on the main thread, it stays so for the rest of the pass. |
| VsServiceUsage.NoDiagnosticAfterEstablishing | src/Microsoft.VisualStudio.Threading.Analyzers/VSTHRD010VsServiceUsageAnalyzer.cs:204-216 | A site visited after an asserting or switching call in the same declaration reports nothing. |
| VsServiceUsage.UnknownUntilEstablished | src/Microsoft.VisualStudio.Threading.Analyzers/VSTHRD010VsServiceUsageAnalyzer.cs:204-209 | A declaration stays `Unknown` until a call in it asserts or switches to the main thread. |
| VsServiceUsage.RunDiagnosticsAppend | src/Microsoft.VisualStudio.Threading.Analyzers/VSTHRD010VsServiceUsageAnalyzer.cs:214 | A pass's diagnostics are those of its visits, appended in visiting order. |
| MefActivation.FindExportAttribute | src/Microsoft.VisualStudio.Threading.Analyzers/VSTHRD013FreeThreadedMefActivationAnalyzer.cs:56-72 | A null symbol finds nothing. Otherwise the result is the export type (MEF v1 or v2) of the first attribute that is either. It is none exactly when no attribute is an export. |
| MefActivation.FindExportAttributeOnTypeOrMembers | src/Microsoft.VisualStudio.Threading.Analyzers/VSTHRD013FreeThreadedMefActivationAnalyzer.cs:74-92 | The type's own export comes first, then that of the first member that has one. The result is none exactly when neither the type nor any member is exported. |
| MefActivation.AttributeScan | src/Microsoft.VisualStudio.Threading.Analyzers/VSTHRD013FreeThreadedMefActivationAnalyzer.cs:99-105 | Scanning a constructor's attributes finds the importing attribute, finds nothing, or throws a `NullReferenceException` at the first attribute whose class is unresolved. |
| MefActivation.FindImportingConstructor | src/Microsoft.VisualStudio.Threading.Analyzers/VSTHRD013FreeThreadedMefActivationAnalyzer.cs:94-119 | The first constructor marked importing wins. Failing that, the first parameterless one. Failing that, none. It throws if a scan meets an unresolved attribute class first. |
| MefActivation.FindOnImportsSatisfiedMethodV2 | src/Microsoft.VisualStudio.Threading.Analyzers/VSTHRD013FreeThreadedMefActivationAnalyzer.cs:121-124 | Always none. |
| MefActivation.FindOnImportsSatisfiedMethodV1 | src/Microsoft.VisualStudio.Threading.Analyzers/VSTHRD013FreeThreadedMefActivationAnalyzer.cs:126-129 | Always none. |
| MefActivation.ReportThreadAffinity | src/Microsoft.VisualStudio.Threading.Analyzers/VSTHRD013FreeThreadedMefActivationAnalyzer.cs:158-169 | At most one diagnostic, at the class node, given exactly when a method was found and it has source. |
| MefActivation.AnalyzeCompilation | src/Microsoft.VisualStudio.Threading.Analyzers/VSTHRD013FreeThreadedMefActivationAnalyzer.cs:44-53 | Classes are analysed only when one of the export attribute types resolves, and then each class once. |
| MefActivation.AnalyzeClassReportsIff | src/Microsoft.VisualStudio.Threading.Analyzers/VSTHRD013FreeThreadedMefActivationAnalyzer.cs:131-156 | A class is reported, once and at its declaration, exactly when it is exported and its importing constructor, found with that MEF version's attribute, has source. A declaration whose symbol does not resolve gets no diagnostic and throws nothing. |
| MefActivation.ExportedClassReport | src/Microsoft.VisualStudio.Threading.Analyzers/VSTHRD013FreeThreadedMefActivationAnalyzer.cs:147-155 | For an exported class the diagnostics come from the importing constructor of the matching MEF version, followed by the (always absent) imports-satisfied method. |
| MefActivation.UnexportedClassIgnored | src/Microsoft.VisualStudio.Threading.Analyzers/VSTHRD013FreeThreadedMefActivationAnalyzer.cs:141-145 | A class exported neither on itself nor on any member gets nothing and throws nothing. |
| MefActivation.UnregisteredFindsNothing | src/Microsoft.VisualStudio.Threading.Analyzers/VSTHRD013FreeThreadedMefActivationAnalyzer.cs:48-52 | Without either export type nothing is analysed. Even if it were, no class would be exported. |
| MefActivation.VersionMismatchIgnored | src/Microsoft.VisualStudio.Threading.Analyzers/VSTHRD013FreeThreadedMefActivationAnalyzer.cs:147-149 | Take a class exported with MEF v2 whose constructors carry only the v1 importing attribute and take parameters. It is not reported: the v1 attribute is not looked for. |
| MefActivation.ImportingConstructorPreferred | src/Microsoft.VisualStudio.Threading.Analyzers/VSTHRD013FreeThreadedMefActivationAnalyzer.cs:96-115 | An importing constructor is chosen over a parameterless one, whatever their order. |
| Text.ContainsOnSomeLine | src/AsyncDebugTools/ThreadPoolExhausted.cpp:57-62 | A text without '\n' occurs in the output exactly when it occurs on one of the lines `getline` yields. |
| Text.LinesRoundTrip | src/AsyncDebugTools/Helpers.cpp:136 | Splitting a text into lines loses only the separators: joining the lines, each followed by '\n', gives the text back, with a final '\n' added if it lacked one. |
| Text.LinesOfUnlines | src/AsyncDebugTools/Helpers.cpp:136 | Splitting lines that are each terminated by '\n' gives those lines back. |
| Helpers.GetFullCommand | src/AsyncDebugTools/Helpers.cpp:52-57 | The command is '!', the SOS module name, '.', then the command. |
| Helpers.GetFullCommandInjective | src/AsyncDebugTools/Helpers.cpp:52-57 | For module names without a dot, the full command determines both the module and the command. |
| Helpers.FirstDotAfterName | src/AsyncDebugTools/Helpers.cpp:52-57 | The first dot of the full command is the one after the module name. |
| Helpers.SplitString | src/AsyncDebugTools/Helpers.cpp:107-121 | The tokens are the maximal non-empty runs of characters that are not delimiters, in order. |
| Helpers.TokensKeepText | src/AsyncDebugTools/Helpers.cpp:107-121 | Concatenated, the tokens are the text with its delimiters removed. |
| Helpers.SplitJoinRoundTrip | src/AsyncDebugTools/Helpers.cpp:107-121 | Non-empty tokens free of delimiters, joined by a delimiter, split back into the same tokens. |
| Helpers.Trim | src/AsyncDebugTools/Helpers.cpp:508-523 | The result is the text without its leading and trailing blanks. An all-blank text gives the empty string. |
| Helpers.TrimmedShape | src/AsyncDebugTools/Helpers.cpp:508-523 | The trimmed text neither starts nor ends with a blank. The original is it padded with blanks on both sides. It is empty exactly when the original is all blanks. |
| Helpers.TrimmedIdempotent | src/AsyncDebugTools/Helpers.cpp:508-523 | Trimming twice is trimming once. |
| Helpers.IsImmunizedIff | src/AsyncDebugTools/Helpers.cpp:294-341 | A frame is immunized exactly when it is longer than some listed prefix and starts with it, ignoring ASCII case, or it contains one of the listed fragments. |
| Helpers.SystemFramesImmunized | src/AsyncDebugTools/Helpers.cpp:297-329 | Any frame beginning `System` in any case, followed by more text, is immunized. |
| Helpers.EntryAloneNotMatched | src/AsyncDebugTools/Helpers.cpp:325 | A frame that equals a prefix entry exactly is not immunized by that entry, because the frame must be strictly longer. |
| Helpers.GetSymbolFromFrame | src/AsyncDebugTools/Helpers.cpp:343-356 | The symbol has no '(' and is no longer than the frame. Its value is given by NgenImageNormalized and PlainFrameSymbol. |
| Helpers.NgenImageNormalized | src/AsyncDebugTools/Helpers.cpp:343-356 | For a module name `m` without '!', both `m_ni!f(args)` and `m_ni!f` have the symbol `m!f`. |
| Helpers.PlainFrameSymbol | src/AsyncDebugTools/Helpers.cpp:343-356 | A frame without `_ni!` before its first '(' keeps everything before the '('. A frame without '(' is kept whole. |
| Helpers.GuessBlamedSymbol | src/AsyncDebugTools/Helpers.cpp:358-371 | The symbol of the first frame that is not immunized. If every frame is immunized, that of the last frame. |
| Helpers.IsDueToHangDetected | src/AsyncDebugTools/Helpers.cpp:373-385 | True exactly when some frame contains `OnHangDetected`. |
| Helpers.ParseClrStackFrame | src/AsyncDebugTools/Helpers.cpp:387-401 | A match is two 8-hex-digit fields, each followed by a blank, then a letter and at least one more character on the same line. That function text is what is returned. |
| Helpers.ClrStackFrameRoundTrip | src/AsyncDebugTools/Helpers.cpp:387-401 | `sp ip f` with hex `sp` and `ip` gives back `f` exactly when `f` is a function text. |
| Helpers.ClrStackFrameParts | src/AsyncDebugTools/Helpers.cpp:387-401 | A parsed frame is its two hex fields and its function, joined by blanks. |
| Helpers.LastAddressToken | src/AsyncDebugTools/Helpers.cpp:139-146 | The highest-indexed token at or above the bound that is exactly 8 hex digits, or none if no token there is. |
| Helpers.ExtractExceptionInfosFromThreadsOutput | src/AsyncDebugTools/Helpers.cpp:125-148 | One entry per line that has such a token at index 10 or above. The entry holds the line's first token and the last such token. Lines with no tokens are skipped (see Findings). |
| Helpers.ExceptionInfosWellFormed | src/AsyncDebugTools/Helpers.cpp:139-146 | Every entry has a non-empty thread id and an 8-hex-digit object, and there are no more entries than lines. |
| Helpers.ScanFromAgrees | src/AsyncDebugTools/Helpers.cpp:139-146 | The downward scan as written, started inside the tokens, finds what `LastAddressToken` finds. |
| Helpers.ScanAsWrittenReadsOutOfRange | src/AsyncDebugTools/Helpers.cpp:139-141 | With no tokens, `size() - 1` wraps to SIZE_MAX (2^64 - 1 on the 64-bit build modelled) and the first read is out of range. With tokens, the scan as written agrees with the corrected one. |
| Helpers.EmptyLineHasNoTokens | src/AsyncDebugTools/Helpers.cpp:136-139 | An empty output line gives no tokens, so the scan as written reads out of range. |
| Helpers.FindAddress | src/AsyncDebugTools/Helpers.cpp:166-172 | The first run of 8 hex digits on the line, if there is one. |
| Helpers.AfterLastSeparator | src/AsyncDebugTools/Helpers.cpp:182-188 | The text after the last ' ' or ':'. It contains neither, and it is none exactly when the line has neither. |
| Helpers.StackFrames | src/AsyncDebugTools/Helpers.cpp:230-233 | Each frame is its line cut at the `Function` column, up to the first empty line or the end. A line shorter than the column throws `out_of_range`. |
| Helpers.PrintExceptionHeader | src/AsyncDebugTools/Helpers.cpp:159-228 | It is present exactly when there are six lines, the first holds an address, the second a separator, and the sixth contains `Function`. |
| Helpers.TryParsePrintExceptionOutput | src/AsyncDebugTools/Helpers.cpp:150-266 | The outcome equals the line-by-line specification `ParsePrintException`. |
| Helpers.ParsedDetailShape | src/AsyncDebugTools/Helpers.cpp:150-266 | A parsed detail has an 8-hex-digit object, an inner object that is empty or 8 hex digits, and a non-empty stack. Its type and HResult contain no ' ' or ':'. Its raw text is the whole output. |
| Helpers.ParsedNeedsTenLines | src/AsyncDebugTools/Helpers.cpp:159-261 | Parsing succeeds only on at least ten lines: six header lines, a frame, its terminating empty line, and two more. |
| Helpers.ParsedFramesAreColumns | src/AsyncDebugTools/Helpers.cpp:224-233 | Every stack entry is the suffix, from the `Function` column, of one of the consecutive lines after the header. |
| Helpers.WorkerLineRoundTrip | src/AsyncDebugTools/Helpers.cpp:431-440 | The worker-thread line `Worker Thread: Total: t Running: r ...` gives back the value of `r`. |
| Helpers.GetThreadPoolStatus | src/AsyncDebugTools/Helpers.cpp:427-446 | The running count of the first line that matches the worker-thread pattern. It is none exactly when no line matches. |
| Helpers.MatchHeaders | src/AsyncDebugTools/Helpers.cpp:489-498 | The loop yields exactly the column titles found by repeatedly matching blanks followed by a title. |
| Helpers.HeadersFromColumns | src/AsyncDebugTools/Helpers.cpp:490-497 | Each column starts where the previous one ends. It spans leading blanks and a blank-free title and ends before a blank or at the end of the line. |
| Helpers.HeaderStartsIncrease | src/AsyncDebugTools/Helpers.cpp:494-497 | Each column ends at or before any later column starts. |
| Helpers.LastToEnd | src/AsyncDebugTools/Helpers.cpp:500-503 | Only the last column changes: it runs to the end of the line. |
| Helpers.ParseFieldHeaders | src/AsyncDebugTools/Helpers.cpp:481-506 | The columns are those matched, with the last running to the end of the line. It succeeds exactly when there are eight. |
| Helpers.FieldHeadersTable | src/AsyncDebugTools/Helpers.cpp:481-506 | Eight headers form a table: the first starts at 0, each of the first seven ends where the next starts, and the last runs to the end. |
| Helpers.SetFieldValue | src/AsyncDebugTools/Helpers.cpp:525-552 | The trimmed value goes to the field named by the column: `MT`, `Offset` (read with `atoi`), `VT` (nonzero means value type), `Value` or `Name`. Any other column changes nothing. |
| Helpers.PaddingIgnored | src/AsyncDebugTools/Helpers.cpp:530 | Blanks around a value do not change what is stored. |
| Helpers.StoredTextTrimmed | src/AsyncDebugTools/Helpers.cpp:530-551 | A stored `MT`, `Value` or `Name` neither starts nor ends with a blank. |
| Helpers.ParseFieldRow | src/AsyncDebugTools/Helpers.cpp:620-654 | The first six fields are the text of their header columns. The last two are the next two blank-separated words, from the start of the seventh column on. |
| Helpers.ValueAfter | src/AsyncDebugTools/Helpers.cpp:584-588 | The value after a key is the rest of the line from its first non-blank character after the ':'. It is none exactly when only blanks follow. |
| Helpers.KeyedValue | src/AsyncDebugTools/Helpers.cpp:579-588 | A line `key:`, blanks and a value has its separator right after the key, has that key, and gives back the value. |
| Helpers.ObjectHeaderFrom | src/AsyncDebugTools/Helpers.cpp:577-604 | The header scan stops at a line whose key is `Fields`, and reports that line. |
| Helpers.NameLineSetsType | src/AsyncDebugTools/Helpers.cpp:582-589 | `Name:` followed by blanks and a type sets the type name. |
| Helpers.StringLineSetsValue | src/AsyncDebugTools/Helpers.cpp:590-597 | `String:` followed by blanks and a text sets the string value. |
| Helpers.FieldsLineEndsHeader | src/AsyncDebugTools/Helpers.cpp:598-602 | `Fields:` ends the header. |
| Helpers.ShortKeySetsType | src/AsyncDebugTools/Helpers.cpp:582 | `strncmp` over the key's own length lets a shorter key such as `Na:` set the type name too. |
| Helpers.ReadObjectHeader | src/AsyncDebugTools/Helpers.cpp:577-604 | The header loop computes the scan `ObjectHeaderFrom`. |
| Helpers.ReadFieldRows | src/AsyncDebugTools/Helpers.cpp:613-655 | It reads one field per row. Empty rows, indented rows and rows that do not reach the last column are skipped. |
| Helpers.DumpObject | src/AsyncDebugTools/Helpers.cpp:567-661 | The address is kept. Fields are present only when a type name is. |
| Helpers.ParseDumpObjectOutput | src/AsyncDebugTools/Helpers.cpp:567-661 | The object described equals `DumpObject`. It succeeds exactly when both a type name and a field were found. |
| Helpers.DumpObjectFieldsShape | src/AsyncDebugTools/Helpers.cpp:606-616 | Fields come only after a `Fields:` line followed by an eight-column header, at most one per later line. |
| Helpers.ParseName2EEOutput | src/AsyncDebugTools/Helpers.cpp:671-695 | The value of the first line that has a value after its ':' and whose key matches `MethodTable`. It is none exactly when no line does. |
| Helpers.MethodTableLineRoundTrip | src/AsyncDebugTools/Helpers.cpp:679-688 | `MethodTable:` followed by blanks and a value gives back the value. |
| Helpers.ModuleLineSkipped | src/AsyncDebugTools/Helpers.cpp:685 | The `Module:` line gives no method table. |
| Helpers.GetFieldInfo | src/AsyncDebugTools/Helpers.cpp:697-712 | The first field with the given name. It is none exactly when no field has it. |
| ThreadPoolExhausted.CompareZeroIffEqual | src/AsyncDebugTools/ThreadPoolExhausted.cpp:25-26 | String comparison gives 0 exactly on equal strings. |
| ThreadPoolExhausted.CompareAntisymmetric | src/AsyncDebugTools/ThreadPoolExhausted.cpp:25-28 | Swapping the strings negates the comparison. |
| ThreadPoolExhausted.CompareTransitive | src/AsyncDebugTools/ThreadPoolExhausted.cpp:25-28 | "Less" by string comparison is transitive. |
| ThreadPoolExhausted.LessThanFrames | src/AsyncDebugTools/ThreadPoolExhausted.cpp:14-34 | A shallower stack is less. Stacks of equal depth are ordered by their first differing frame, and equal stacks are not less. |
| ThreadPoolExhausted.FramesLessIrreflexive | src/AsyncDebugTools/ThreadPoolExhausted.cpp:14-34 | No stack is less than itself. |
| ThreadPoolExhausted.FramesLessTransitive | src/AsyncDebugTools/ThreadPoolExhausted.cpp:14-34 | The order is transitive. |
| ThreadPoolExhausted.FramesLessTrichotomy | src/AsyncDebugTools/ThreadPoolExhausted.cpp:14-34 | Two stacks are equivalent under the order exactly when they are equal. At most one is less than the other. |
| ThreadPoolExhausted.ExhaustedByRunningWorkers | src/AsyncDebugTools/ThreadPoolExhausted.cpp:36-51 | On a worker-thread line, the pool counts as exhausted exactly when at least 20 workers are running. |
| ThreadPoolExhausted.IsClrThreadPoolWorkingThread | src/AsyncDebugTools/ThreadPoolExhausted.cpp:53-66 | True exactly when the output contains `clr!ThreadpoolMgr::ExecuteWorkRequest`. |
| ThreadPoolExhausted.ReadStack | src/AsyncDebugTools/ThreadPoolExhausted.cpp:86-96 | The frames parsed from the lines, in order. |
| ThreadPoolExhausted.CollectedThreads | src/AsyncDebugTools/ThreadPoolExhausted.cpp:79-103 | Kept threads have ids 1 to n-1 in increasing order and non-empty stacks. Each is a thread-pool worker with its parsed frames. |
| ThreadPoolExhausted.CollectedIff | src/AsyncDebugTools/ThreadPoolExhausted.cpp:79-101 | A thread is collected exactly when it is not thread 0, its `k` command succeeded, it runs a work request, and some frame parsed. |
| ThreadPoolExhausted.CollectThreads | src/AsyncDebugTools/ThreadPoolExhausted.cpp:75-103 | The loop collects exactly `CollectedThreads`. |
| ThreadPoolExhausted.GroupByFrames | src/AsyncDebugTools/ThreadPoolExhausted.cpp:115-120 | Each stack of a collected thread maps to the number of threads that share it, which is at least 1. No other stack is a key. |
| ThreadPoolExhausted.GroupItems | src/AsyncDebugTools/ThreadPoolExhausted.cpp:123-124 | Every group appears once with its count, and the counts add up to the number of collected threads. |
| ThreadPoolExhausted.SortByCount | src/AsyncDebugTools/ThreadPoolExhausted.cpp:125 | The groups are sorted in place by count, largest first, as a permutation. |
| ThreadPoolExhausted.SortedCopy | src/AsyncDebugTools/ThreadPoolExhausted.cpp:122-125 | The groups copied out of the map and sorted by count, largest first: a permutation of the copied groups. |
| ThreadPoolExhausted.InsertDown | src/AsyncDebugTools/ThreadPoolExhausted.cpp:125 | One insertion step extends the sorted prefix by one group and keeps the groups a permutation. |
| ThreadPoolExhausted.Swap | src/AsyncDebugTools/ThreadPoolExhausted.cpp:125 | Exchanges two groups and changes nothing else. |
| ThreadPoolExhausted.BlamedMembers | src/AsyncDebugTools/ThreadPoolExhausted.cpp:127-139 | A group is reported exactly when its count is at least 10. |
| ThreadPoolExhausted.BlamedSorted | src/AsyncDebugTools/ThreadPoolExhausted.cpp:125-129 | Reporting keeps the order by count. |
| ThreadPoolExhausted.BlamedDistinct | src/AsyncDebugTools/ThreadPoolExhausted.cpp:127-139 | Reporting keeps the stacks distinct. |
| ThreadPoolExhausted.PermutationKeepsDistinct | src/AsyncDebugTools/ThreadPoolExhausted.cpp:122-125 | Copying and sorting the groups does not make two of them share a stack. |
| ThreadPoolExhausted.ReportFacts | src/AsyncDebugTools/ThreadPoolExhausted.cpp:115-139 | Counting, copying, sorting and filtering the stacks gives a report that is sorted, has distinct stacks, gives each its thread count, and lists every stack shared by at least 10 threads. |
| ThreadPoolExhausted.ReportedCounts | src/AsyncDebugTools/ThreadPoolExhausted.cpp:115-129 | Each reported group carries the number of threads with its stack, which is at least 10. |
| ThreadPoolExhausted.ReportedCovers | src/AsyncDebugTools/ThreadPoolExhausted.cpp:115-129 | Every stack shared by at least 10 threads appears in the report. |
| ThreadPoolExhausted.LexLessTotal | src/AsyncDebugTools/ThreadPoolExhausted.cpp:20-33 | Of two different stacks of equal depth, one is less than the other by their first differing frame. |
| ThreadPoolExhausted.OnThreadPoolExhausted | src/AsyncDebugTools/ThreadPoolExhausted.cpp:68-142 | The report lists distinct stacks, largest group first, each with the number of threads that share it. It contains exactly the stacks shared by at least 10 collected threads. |

## Left out

- The debugger plumbing is not modelled: `Execute`, `TryFindSOS`, `EnsureLoadSOS`, `CollectExceptionDetails`, `GetNumberOfThreads`, `FindFieldAndGetObjectInfo`, DML output and the extension entry points. They are COM calls into the debugger. Their results come in as parameters.
- The verbose per-thread listing and the text of the report in `OnThreadPoolExhausted` are printed output. The model returns the collected threads and the blamed groups instead.
- `ParseKStackFrame` is a function parameter. Its regular expression relies on backtracking search and is not part of this model.
- `atoi` on a digit string is its decimal value. Overflow of the 32-bit `int` is not modelled.
- Strings have no embedded NUL characters, so `strncmp` and `_strnicmp` compare the key text as a prefix. Case folding is ASCII only.
- When a parser fails, the output parameters the source leaves partly written are not modelled. Only the success value and the parsed result are.
- `std::string::substr` past the end throws `out_of_range`. In `TryParsePrintExceptionOutput` this is the outcome `OutOfRangeThrown`.
- Helpers.GuessBlamedSymbol: requires a non-empty stack, because `back()` on an empty vector is undefined. Every parsed exception detail has one.
- The Roslyn host is not modelled: analyzer registration, reading the additional files, diagnostic descriptors, the semantic model and `FindInterfacesImplemented`. Resolved symbols and enclosing declarations are fields of the site datatypes.
- `BelongsToNamespace` is equality of the namespace path. `StartsWith` on assembly names is an ordinal prefix test; the source's culture-sensitive comparison is not modelled.
- `Namespaces.MicrosoftVisualStudioShell` is not defined in `Namespaces.cs`. It is the path `Microsoft.VisualStudio.Shell`.
- The VSTHRD013 `CompilationData` also reads the asserting methods and the types requiring the main thread. The rule never uses them, and they are not modelled.
- Concurrent execution of analyzer callbacks is not modelled: each `MethodAnalyzer` is used by one code block at a time.
- ThreadPoolExhausted.GroupItems: copies the groups in an unspecified order rather than the map's ascending `LessThanFrames` order. The sort that follows is not stable, so the order among equal counts is unspecified in the source too.
- The header-line round trip of `ParseFieldHeaders` (column titles padded with blanks parse back into the same titles) is not proved. The tiling of the columns (`HeadersFromColumns`) is.

## Findings

| source | as written | input that shows it | evidently intended | confidence | as-written member | corrected member |
|---|---|---|---|---|---|---|
| src/AsyncDebugTools/Helpers.cpp:139 | `for (auto i = tokens.size() - 1; i >= 10; --i)` with an unsigned `size_t`: a line with no tokens makes `i` wrap to SIZE_MAX (2^64 - 1 on a 64-bit build, 2^32 - 1 on a 32-bit one), which passes `i >= 10`, so `tokens[i]` reads far out of range | `!threads` output containing an empty line, e.g. `"\n"` | a line with no tokens yields no exception entry | not executed | Helpers.ScanAsWrittenReadsOutOfRange | Helpers.ExtractExceptionInfosFromThreadsOutput |
