# leetkick in Dafny

leetkick is a command-line tool that scaffolds LeetCode exercises into a local workspace.
The workspace is a directory marked by `.leetkick.json` and holds one sub-directory per
programming language. The tool can do the following:

- find the workspace by walking up from the working directory;
- initialise a language directory from the bundled template store (`add`, and lazily `fetch`);
- fetch a problem and write its exercise and test files, with placeholders filled in (`fetch`);
- locate a problem's directory and choose the runner for its tests (`test`);
- bring a language directory's configuration files up to date with the templates (`sync`).

This project models the TypeScript implementation of these commands. It also models the
pure helpers of the tool's older Rust prototype: snippet lookup, file extensions, the
`fill_*_template` substitution chains and the file names in `FileUtils`.

Each source concern has its own module:

- **Support modules**
  - `Wrappers`: the `Option`, `Result` and `Status` types.
  - `Strings`: the JavaScript and Rust string primitives the code uses, in ASCII.
  - `FileSystem`: a `Host` class holding the files, the directories and the working
    directory. Its methods follow the Node.js `fs` calls: `readFile`, `writeFile`,
    `copyFile`, `unlink`, recursive `mkdir`, `readdir` and `process.chdir`. A `readdir`
    listing comes in no fixed order.
  - `LeetCode`: the `Problem` and `CodeSnippet` records.
- **`src/utils/file-operations.ts`**
  - `Naming`, `LanguageTables` and `Description`: pure functions with lemmas.
  - `FunctionNames`: hand-written scanners for the five regular expressions.
  - `TemplateVars`: placeholder substitution.
  - `ProblemFiles`: the directory layouts, the replacement record, `createProblemFiles`
    and `addModuleToLibRs`, as methods on the host.
- **The rest of the TypeScript code**
  - `Workspace`, `Templates`, `TestCommand`, `Sync` and `Fetch`: the other utilities and
    commands. The state-changing steps are methods on the host, each proved against the
    functions and predicates that specify it.
- **The Rust prototype**
  - `RustLanguages`, `RustCase`, `RustTools` and `RustFiles`.

Some parts of the system become parameters of the model:

- The network fetch of a problem becomes a `Result<Problem>` parameter.
- The outcome of the spawned test runner becomes a `ChildOutcome` parameter.
- The two template-store locations become `Path` parameters. `templates.ts` resolves
  `../../templates` and `file-operations.ts`/`sync.ts` resolve `../../../templates`, each
  relative to its own compiled file.
- Rust's `sanitize_text` and `to_case(Case::Camel)` become function parameters.

## Model

| member | source | states |
|---|---|---|
| Naming.KeepNameChars | src/utils/file-operations.ts:146 | Every kept character is a letter, digit or whitespace taken from the title. A title made only of such characters is returned unchanged. A single character is kept exactly when it is a name character. |
| Naming.KeepNameCharsAppend | src/utils/file-operations.ts:146 | Filtering a concatenation filters each part in place. With the one-character case this fixes the result as the name characters of the title, in order. |
| Naming.Words | src/utils/file-operations.ts:146-147 | Splitting the filtered title on single spaces always yields at least one word. |
| Naming.ClassNameIsUpperFirstOfCamel | src/utils/file-operations.ts:143-163 | formatClassName is formatProblemName with its first character upper-cased. |
| Naming.ClassNameChars | src/utils/file-operations.ts:156-163 | A class name holds only letters, digits and whitespace other than the space character, so never '_' or '.'. |
| Naming.SnakeNameChars | src/utils/file-operations.ts:165-172 | A snake-case name holds only lower-case letters, digits and underscores. |
| Naming.WordCaseLower | src/utils/file-operations.ts:143-163 | Ignoring case, the word-by-word reading of a text is the text with its spaces removed. |
| Naming.WordCaseOfSplit | src/utils/file-operations.ts:143-163 | The word-by-word reading agrees with splitting on ' ' and capitalising the words: all words when the first is capitalised, all but the first otherwise. |
| Naming.ClassNameByWords | src/utils/file-operations.ts:156-163 | formatClassName drops the spaces of the filtered title, upper-cases the first character of every word and lower-cases every other character. |
| Naming.CamelNameByWords | src/utils/file-operations.ts:143-154 | formatProblemName does the same, except that the first word is lower-cased throughout. |
| Naming.NamesAgreeUpToCase | src/utils/file-operations.ts:143-163 | Lower-cased, the function name and the class name are equal, and both are the lower-cased filtered title without its spaces. |
| Naming.JoinSplitOnSpaceRuns | src/utils/file-operations.ts:170-171 | Splitting on whitespace runs and joining with '_' turns every maximal whitespace run into one '_' and keeps every other character. |
| Naming.SnakeNameByRuns | src/utils/file-operations.ts:165-172 | formatSnakeCase is the lower-cased filtered title with each whitespace run replaced by a single '_'. |
| Naming.OneWordTitle | src/utils/file-operations.ts:143-172 | A one-word title of letters and digits gives the capitalised word as class name and the lower-cased word as function name and snake-case name. |
| Naming.WordThenTitle | src/utils/file-operations.ts:143-172 | A leading word followed by a space and the rest of the title: the class name is the capitalised word before the rest's class name, the function name the lower-cased word before it, and the snake-case name the lower-cased word, '_' and the rest's snake-case name. |
| Naming.TwoWordTitle | src/utils/file-operations.ts:143-172 | A title of two words "a b" gives class name Capitalize(a)+Capitalize(b), function name lower(a)+Capitalize(b) and snake-case name lower(a)_lower(b). |
| Naming.ThreeWordTitle | src/utils/file-operations.ts:156-172 | A title of three words gives the three capitalised words as class name and the three lower-cased words joined by '_' as snake-case name. |
| Naming.TwoSumNames | test/file-operations.test.ts:55-68 | "Two Sum" gives the function name twoSum, the class name TwoSum and the snake-case name two_sum. |
| Naming.RomanToIntegerNames | test/file-operations.test.ts:95-135 | "Roman to Integer" gives the class name RomanToInteger and the snake-case name roman_to_integer. |
| Naming.PaddedId | src/utils/file-operations.ts:14 | The padded id is '0's followed by the unchanged id, of length max(4, \|id\|), so it is never truncated. |
| Naming.PaddedIdIdempotent | src/utils/file-operations.ts:14 | Padding an already padded id changes nothing. |
| Naming.PaddedIdKeepsDigits | src/utils/file-operations.ts:14 | Stripping the leading zeros of a padded id gives back an id that had none, so padding loses no information. |
| LanguageTables.LanguageSlugIdentityExcept | src/utils/file-operations.ts:174-186 | python maps to python3 and go to golang. Every other language, known or unknown, maps to itself. |
| LanguageTables.FileExtensionRange | src/utils/file-operations.ts:188-200 | The extension is one of nine strings, non-empty and without a dot. It is "txt" exactly when the language is not in the table. |
| LanguageTables.ExerciseFileNameHasStem | src/utils/file-operations.ts:202-247 | The exercise file name is the extension-less name, a dot and the extension, for every language (rust included). |
| LanguageTables.ExerciseAndTestNamesDiffer | src/utils/file-operations.ts:202-275 | For a class name without '_', the exercise and test file names differ for every language. |
| LanguageTables.DefaultCode | src/utils/file-operations.ts:277-298 | The fallback body is never empty. |
| LanguageTables.DefaultCodeMentionsTitle | src/utils/file-operations.ts:277-298 | The fallback body contains the problem title for every language. |
| Description.StripTags | src/utils/file-operations.ts:128 | The output uses only characters of the input. No '<' is followed later by a '>'. Text without '<' passes unchanged. |
| Description.StripTagsKeepsText | src/utils/file-operations.ts:128 | Text without '<' in front of the rest is kept as it stands, and only the rest is cleaned. |
| Description.StripTagsDropsTag | src/utils/file-operations.ts:128 | A whole tag (a '<', no '>', then a '>') is deleted, and the text after it is cleaned on its own. |
| Description.StripTagsKeepsUnclosed | src/utils/file-operations.ts:128 | A '<' with no '>' anywhere after it is not a tag and is kept. |
| Description.StripParagraph | src/utils/file-operations.ts:128 | A `<p>` element holding text and two `<code>` elements loses its tags and keeps its five texts in order. |
| Description.DecodeEntitiesPlain | src/utils/file-operations.ts:129-139 | Text without '&' holds no reference and comes back unchanged. `Description.DecodeEscape` is its round-trip partner. |
| Description.CleanDescriptionPlain | src/utils/file-operations.ts:125-141 | Text with neither '<' nor '&' comes back trimmed and otherwise unchanged. |
| Description.CleanTestDescription | test/file-operations.test.ts:70-85 | The suite's `<p>` description with two `<code>` elements cleans to "Given an array of integers nums and an integer target, return indices." |
| Description.DecodeEscape | src/utils/file-operations.ts:129-139 | The eleven entity replacements, in source order, undo HTML escaping of any text: no reference is decoded twice. |
| Description.AmpDecodedLast | src/utils/file-operations.ts:139 | Because `&amp;` is decoded last, `&amp;lt;` becomes `&lt;`, not `<`. |
| Description.CleanEscaped | src/utils/file-operations.ts:125-141 | Cleaning the HTML escape of any text gives back that text, trimmed. |
| FunctionNames.FirstMatchIsLeftmost | src/utils/file-operations.ts:326 | A pattern's match is the one at the leftmost index where the pattern matches. It is absent exactly when no index matches. |
| FunctionNames.ExtractedNameOccurs | src/utils/file-operations.ts:324-358 | An extracted name is a non-empty run of word characters that occurs in the code. |
| FunctionNames.ExtractFunctionNameOrder | src/utils/file-operations.ts:324-358 | Nothing is extracted exactly when none of the five patterns matches. Otherwise the name is the leftmost match of the first pattern that matches, in the order C++ method, Java method, Kotlin `fun`, `function`, arrow. |
| ProblemFiles.FindSnippet | src/utils/file-operations.ts:39-41 | The result is the first snippet whose langSlug equals the slug. It is absent exactly when none has that slug. |
| ProblemFiles.DefaultCodeFor | src/utils/file-operations.ts:43-44 | The default code is never empty. |
| ProblemFiles.DefaultCodeFallsBack | src/utils/file-operations.ts:39-44 | When no snippet has the language's slug, or the first one that does has empty code, the default code is the language's stub. That stub contains the problem title. |
| ProblemFiles.DefaultCodeIsSnippet | src/utils/file-operations.ts:39-44 | When the first snippet for the language's slug has non-empty code, that code is the default code. |
| ProblemFiles.FunctionNameSource | src/utils/file-operations.ts:52 | The function name is the extracted name when there is one, otherwise the camelCase title. |
| ProblemFiles.Replacements | src/utils/file-operations.ts:55-79 | The twelve placeholder keys come in the record's insertion order, and every key is non-empty. |
| ProblemFiles.PackageValue | src/utils/file-operations.ts:64-65 | The package value is empty exactly when the language is neither kotlin nor java. |
| ProblemFiles.ReplacementValues | src/utils/file-operations.ts:60-65 | `__PROBLEM_PACKAGE__` is empty exactly when the language is neither kotlin nor java. The default code is non-empty. |
| ProblemFiles.PlanFor | src/utils/file-operations.ts:13-36 | The problem and test directories coincide exactly outside kotlin/java. Each file's directory is the one created for it. The language directory is cwd/<language>, and lib.rs lies at src/lib.rs under it. |
| ProblemFiles.LibRsUpdate | src/utils/file-operations.ts:304-318 | The result contains the declaration and keeps the old content as a prefix. It equals the old content exactly when the declaration was already there. |
| ProblemFiles.LibRsUpdateIdempotent | src/utils/file-operations.ts:300-322 | Adding the same module twice is the same as adding it once. |
| ProblemFiles.AddModuleToLibRs | src/utils/file-operations.ts:300-322 | Succeeds exactly when lib.rs exists, and then rewrites only lib.rs with its updated content. |
| ProblemFiles.MakeProblemDirs | src/utils/file-operations.ts:22-36 | Creates the layout's directories exactly when no file is in the way. On failure only some of them exist, and no file changes. |
| ProblemFiles.WriteProblemFiles | src/utils/file-operations.ts:81-111 | The exercise is written before the test template is read. Rust updates lib.rs and writes no test. Success gives exactly CreatedFiles. A failure leaves the old files, or the old files plus the exercise. |
| ProblemFiles.CreateProblemFiles | src/utils/file-operations.ts:9-112 | Succeeds exactly when CreateSucceeds holds. It then adds exactly the layout's directories and leaves CreatedFiles. Failure leaves the files unchanged or with only the exercise written. |
| ProblemFiles.ExerciseAndTestPathsDiffer | src/utils/file-operations.ts:87-110 | The exercise and test paths differ, and for rust the exercise is not lib.rs, so no write overwrites another. |
| ProblemFiles.CreatedFilesContents | src/utils/file-operations.ts:82-111 | The exercise (and the test outside rust) holds its template with every placeholder substituted. Rust's lib.rs holds the module declaration. Every other file is untouched, which is what `--force` relies on. |
| ProblemFiles.PlanFilesContents | src/utils/file-operations.ts:82-111 | For any plan whose exercise file is neither its test file nor lib.rs, the created files hold the substituted templates (or the declaration in lib.rs) and every other file is untouched. |
| ProblemFiles.ExerciseFileCreated | src/utils/file-operations.ts:81-111 | After a successful run the exercise file exists, whichever file the last step writes. |
| ProblemFiles.GoExerciseNameHasNoUnderscore | src/utils/file-operations.ts:202-224 | Go falls to the default branch, so its exercise file is named after the class and never contains '_'. |
| TemplateVars.Expand | src/utils/file-operations.ts:120 | A replacement value without '$' is inserted as it is. |
| TemplateVars.ReplaceFromLiteral | src/utils/file-operations.ts:120 | With a value without '$', the JavaScript global replace is the literal replace of every occurrence. |
| TemplateVars.ReplaceFromAbsent | src/utils/file-operations.ts:120 | A text without the key is returned unchanged by the JavaScript replace. |
| TemplateVars.DoubleDollarCollapses | src/utils/file-operations.ts:120 | Under the JavaScript replace, a value "$$" is inserted as "$". |
| TemplateVars.SubstituteStep | src/utils/file-operations.ts:119-121 | The keys are applied one after the other in order: each step replaces every occurrence of the next key in the result so far. |
| TemplateVars.ReplaceTemplateVars | src/utils/file-operations.ts:114-123 | The loop's result is the in-order literal substitution of every key. |
| TemplateVars.AsWrittenDiffersOnDoubleDollar | src/utils/file-operations.ts:120 | On the template consisting of a key whose value is "$$", the code as written gives "$" and literal substitution gives "$$". |
| TemplateVars.AsWrittenIsSubstituteWithoutDollar | src/utils/file-operations.ts:114-123 | When no value contains '$', the code as written and the literal substitution agree on every template. |
| TemplateVars.SubstituteNoKey | src/utils/file-operations.ts:114-123 | A template containing no key is returned unchanged. |
| TemplateVars.AsWrittenNoKey | src/utils/file-operations.ts:114-123 | The code as written also returns a template containing no key unchanged. |
| TemplateVars.InsertsVerbatim | src/utils/file-operations.ts:120 | At the first occurrence of a key the value goes in verbatim, and the text on either side is substituted on its own. |
| Workspace.IsWorkspaceInitialized | src/utils/workspace.ts:37-39 | A directory is a workspace exactly when `.leetkick.json` exists in it, as a file or a directory, which is what `existsSync` reports. |
| Workspace.NearestRootIsNearest | src/utils/workspace.ts:21-35 | The root is the longest ancestor of the start directory holding `.leetkick.json`, with `/` excluded. The start directory itself is returned when it holds the marker. There is no root exactly when no such ancestor exists. |
| Workspace.FindWorkspaceRoot | src/utils/workspace.ts:21-35 | The dirname walk returns exactly the nearest root. |
| Workspace.LanguageEntries | src/utils/workspace.ts:120-123 | A name is kept exactly when it is a directory entry, does not start with '.', and is one of the seven supported languages. |
| Workspace.SupportedNamesHaveNoDot | src/utils/workspace.ts:11-19 | No supported language starts with '.', so the dot filter never removes one. |
| Workspace.WorkspaceLanguages | src/utils/workspace.ts:115-127 | The result is exactly the supported languages with a directory in the root, each once, and never kotlin. It is empty when the root cannot be read. |
| Templates.GetAvailableLanguages | src/utils/templates.ts:9-18 | Succeeds exactly when the template store is a directory, and then lists exactly its sub-directories, each once. Otherwise the error is the wrapped "Failed to read templates directory: " message. |
| Templates.TargetNameKeepsKind | src/utils/templates.ts:36-43 | Renaming gitignore to .gitignore never turns a config file into a problem template or back. |
| Templates.InitializeLanguage | src/utils/templates.ts:20-48 | A missing template fails before any directory is made. Otherwise it succeeds exactly when InitSucceeds holds. Success makes cwd/<language> and copies every non-template entry, under its target name. A failure leaves a prefix of those copies. |
| Templates.CopyConfigFiles | src/utils/templates.ts:34-47 | The loop succeeds exactly when every copy can be made, and then holds exactly the copies of all entries in listing order. A failure leaves the copies of a prefix of the listing. |
| Templates.CopyEntry | src/utils/templates.ts:35-46 | A `_template.` entry is skipped. Any other entry is copied to its target name when it is a regular file and no directory is in the way; nothing else changes. |
| Templates.CopyFailed | src/utils/templates.ts:40-46 | A single non-template entry that cannot be copied makes the whole initialisation fail. |
| TestCommand.FirstWithPrefix | src/commands/test.ts:69 | The result is the first name with the prefix, and absent exactly when no name has it. |
| TestCommand.FirstContaining | src/commands/test.ts:76 | The result is the first name containing the pattern, and absent exactly when no name contains it. |
| TestCommand.Locate | src/commands/test.ts:57-85 | A found name is one of the directories, and it is the exact name, starts with the padded number and '_', or contains the slug pattern. `LocateExact`, `LocateByNumber`, `LocateBySlug` and `LocateNone` fix which match wins. |
| TestCommand.LocateExact | src/commands/test.ts:63-65 | An exact directory name is returned before any other match. |
| TestCommand.LocateByNumber | src/commands/test.ts:68-72 | Without an exact name, the first directory starting with the padded number and '_' is returned. |
| TestCommand.LocateBySlug | src/commands/test.ts:75-79 | With neither an exact nor a number match, the first non-empty directory containing the slug pattern is returned. |
| TestCommand.LocateNone | src/commands/test.ts:57-81 | Over non-empty names, nothing is found exactly when no name matches any of the three steps. |
| TestCommand.NumberStepMissesFlatLayout | src/commands/test.ts:68-69 | A short number never reaches a `problem_NNNN` directory through the number step. |
| Strings.ReplaceFirstCharAt | src/commands/test.ts:75 | A one-character `replace` rewrites only the first occurrence: the text before and after it is kept. |
| TestCommand.ShortIdMatchesBySlug | src/commands/test.ts:67-79 | For an id shorter than four characters among `problem_NNNN` directories, the number step never matches. The first directory in listing order that contains the id wins, so "1" finds problem_0010 when it is listed before problem_0001. |
| TestCommand.SlugMissesFlatLayout | src/commands/test.ts:75-79 | "two-sum" is never found among `problem_NNNN` directories. |
| TestCommand.TwoSumPatterns | src/commands/test.ts:68-75 | For "two-sum", the number prefix is "two-sum_" and the slug pattern is "two_sum" (only the first '-' is replaced). |
| TestCommand.FindProblemDirectory | src/commands/test.ts:57-85 | An unreadable directory gives nothing. Otherwise the result is the three-step search over the listing's directories, and a found name is a sub-directory (never a plain file). |
| TestCommand.TestCommandFor | src/commands/test.ts:92-122 | A runner exists exactly for the seven listed languages, and any other language gets "Testing not implemented for language: ". TypeScript and JavaScript run `node --test <dir>/*.test.ts <dir>/*.test.js`; Python runs `python -m pytest <dir>/ -v`; Java runs `mvn test -Dtest=**/<dir>/*Test`; Go runs `go test ./<dir>/...`; Rust runs `cargo test --manifest-path <dir>/Cargo.toml`; C++ runs `make test -C <dir>`. |
| TestCommand.TestCommandNamesDirectory | src/commands/test.ts:92-122 | For every tested language, one argument at a fixed position is the problem directory between a fixed prefix and suffix. |
| TestCommand.TestCommandIdentifiesDirectory | src/commands/test.ts:92-122 | Two equal commands for the same language name the same problem directory. |
| TestCommand.RunTests | src/commands/test.ts:87-143 | Resolves exactly for a known language whose runner closes with code 0. An unknown language is rejected before spawning. Another code gives "Tests failed with exit code …", and a spawn error gives "Failed to run tests: …". |
| TestCommand.ExitCodeReported | src/commands/test.ts:135 | Different non-zero exit codes give different failure messages. |
| TestCommand.AfterSearch | src/commands/test.ts:41-49 | A name that was not found, or is empty, is reported as "Problem '…' not found in … workspace.". The run succeeds exactly when a name was found, the language has a runner and the runner exits with 0. |
| TestCommand.TestAction | src/commands/test.ts:13-55 | The guards run in order: workspace, templates listing, language given, language available, language directory present, problem found. Each gives its own message. Inside a language directory the search over its listing decides, and success needs a testable language, a problem sub-directory and exit code 0. |
| Sync.ProblemTemplatesAreTemplateFiles | src/commands/sync.ts:161-167 | Every name initialisation skips as a template, sync skips too. |
| Sync.ConfigNames | src/commands/sync.ts:148-167 | The config files are exactly the regular files of the template directory that are not templates. |
| Sync.GetConfigFiles | src/commands/sync.ts:148-159 | Succeeds exactly when the template directory is a directory, and lists each config file exactly once. |
| Sync.ShouldSyncFile | src/commands/sync.ts:169-186 | True when the target is absent, when a read fails, or when the two contents differ. |
| Sync.CopiedOutside | src/commands/sync.ts:115-131 | Copying touches no path other than the workspace copies of the listed names. |
| Sync.CopiedAt | src/commands/sync.ts:115-122 | After the loop, each listed file's workspace copy holds the template's content. |
| Sync.CopiedNothing | src/commands/sync.ts:115-131 | When no file needs syncing, the loop changes nothing. |
| Sync.SyncOne | src/commands/sync.ts:116-130 | Reports whether the target existed and whether it should be synced. It copies exactly when syncing outside a dry run, and fails only when that copy cannot be made. |
| Sync.SyncEach | src/commands/sync.ts:115-131 | The loop stops at the first failed copy. That happens only in a real run whose copies cannot all succeed, and the files then hold the copies of the names before it. When it finishes, the copies made and the names reported cover every listed name. |
| Sync.SyncConfigFiles | src/commands/sync.ts:113-131 | A dry run changes nothing. `added` holds exactly the config files missing from the workspace and `updated` exactly those present in another version, each once. A real run that succeeds leaves exactly Copied; a failure leaves a prefix of the copies. |
| Sync.ObsoleteFiles | src/commands/sync.ts:188-212 | The only file ever obsolete is biome.json. It is obsolete exactly when it exists and both the ESLint and Prettier configurations exist in the workspace or in the template. |
| Sync.GetObsoleteFiles | src/commands/sync.ts:188-212 | The loop computes exactly ObsoleteFiles. |
| Sync.RemoveOne | src/commands/sync.ts:136-141 | Reports whether the path exists. It unlinks only an existing path outside a dry run, and fails only when that path is a directory. |
| Sync.RemoveObsolete | src/commands/sync.ts:134-143 | A dry run changes nothing. On success every obsolete file is reported as removed, and a real run deletes exactly those files. |
| Sync.SyncLanguage | src/commands/sync.ts:95-146 | A missing language directory, then a missing template, is reported with nothing changed. A dry run changes nothing and succeeds once both exist. `added`/`updated` are exactly AddedNames/UpdatedNames, each once. A real run leaves exactly AfterSync, and fails only when a copy cannot be made or biome.json is a directory. A dry run reports the obsolete files judged before copying, a real run those judged after copying. |
| Sync.SyncTemplateFiles | src/commands/sync.ts:112-145 | A dry run changes nothing, and succeeds whenever the template directory can be listed. Success reports exactly AddedNames/UpdatedNames and the obsolete files, and a real run leaves AfterSync. A real run fails only when a copy cannot be made or biome.json is a directory. |
| Sync.TemplateUntouched | src/commands/sync.ts:115-143 | Syncing never changes or deletes a file of the template directory. |
| Sync.PresenceAfterCopies | src/commands/sync.ts:115-143 | Copying does not change which names exist in the workspace or the template taken together, so the linter check sees the same thing before and after. |
| Sync.DryRunReportsRealRemovals | src/commands/sync.ts:120-143 | When the template does not ship biome.json, a dry run reports the same removals as the real run. |
| Sync.SyncIdempotent | src/commands/sync.ts:118-143 | When the template does not ship biome.json, a second real run right after the first reports nothing added, updated or removed and changes no file. |
| Sync.BiomeShippedComesBack | src/commands/sync.ts:115-143 | When the template ships biome.json alongside both linter configurations, a run adds biome.json and the next run reports it added again. |
| Sync.SyncLanguages | src/commands/sync.ts:69-93 | The result is exactly the directories of the root whose name is neither .git nor dotted and that have a template, each once. It is empty when the root cannot be read. |
| Sync.DisplayLines | src/commands/sync.ts:214-245 | A total of zero prints only the "Already up to date" line, and only then is that line printed. Otherwise the first line is the language followed by ':', with a "[DRY RUN] " prefix on a dry run. Then come one "  + Added" line per added file, then one "  ✓ Updated" line per updated file, then one "  - Removed" line per removed file, each block in its list's order. The summary line comes last. |
| Sync.SummaryTail | src/commands/sync.ts:242-244 | The word after the count is "file" exactly when the total is 1, and "files" otherwise. |
| Sync.SummaryNamesTotal | src/commands/sync.ts:242-244 | The summary line determines the total: different totals give different lines. |
| Sync.SyncAction | src/commands/sync.ts:23-67 | No workspace gives the "leetkick init" error with no language, no result and nothing changed. A named, non-empty language is the only language. Otherwise the languages are exactly the workspace's language directories that have a template, each once. The languages are synced in turn (SyncedInTurn): each result is the report that syncing that language gives from the files the previous one left. The run is done exactly when every language has a result, and the files then are the last language's. A dry run changes no file. |
| Sync.SyncEachLanguage | src/commands/sync.ts:51-58 | The languages are synced in list order. Each result is that language's report on the files left by the ones before it. The loop stops at the first failure, so it is done exactly when every language has a result. |
| Sync.SyncedInTurnStep | src/commands/sync.ts:51-58 | A run synced in turn stays so when the next language's report is appended. |
| Fetch.ProblemName | src/commands/fetch.ts:74-75 | The conflict directory's name is "problem_" followed by the padded id, so it is at least 12 characters long. |
| Fetch.FetchAction | src/commands/fetch.ts:25-106 | With no workspace, nothing is fetched or changed. The fetch comes before the language checks. Each guard fails with its message and no change. An existing `problem_NNNN` without `--force` is an error that changes nothing. Otherwise the exercise files are created with the literal substitution of `ProblemFiles.CreatedFiles` from the root, after a missing language directory is initialised. The working directory is always restored. |
| Fetch.FetchInto | src/commands/fetch.ts:58-106 | An existing `problem_NNNN` without `--force` is an error that changes nothing. A missing language directory is initialised first. Then the exercise files are created with the literal substitution of `ProblemFiles.CreatedFiles` from the root, and success leaves the exercise file in place. |
| Fetch.InitializeFromRoot | src/commands/fetch.ts:63-70 | initializeLanguage runs with the root as working directory, which is then restored whether it failed or not. |
| Fetch.CreateFromRoot | src/commands/fetch.ts:95-106 | createProblemFiles runs with the root as working directory, which is then restored. Success leaves the exercise file in place. |
| Fetch.ConflictNeedsLanguageDir | src/commands/fetch.ts:58-78 | An existing conflict directory lies inside an existing language directory, so initialisation never runs when a conflict is found. |
| Fetch.ConflictPathOnlyForFlatLayouts | src/commands/fetch.ts:74-78 | The conflict path is the problem directory, and contains the exercise, exactly for the flat layouts. Rust and kotlin/java exercises are never detected. |
| RustLanguages.Display | src/tools/languages.rs:12-21 | Every display string is non-empty and lower-case. |
| RustLanguages.DisplayInjective | src/tools/languages.rs:14-19 | Distinct languages display as distinct strings. |
| RustCase.CaseFor | src/tools/get_case_by_language.rs:5-21 | Snake exactly for Python, Cpp, Rust, Ruby and Php. Camel exactly for the other seven. |
| RustCase.SupportedCases | src/tools/get_case_by_language.rs:7-19 | Among the four languages of SupportedLanguage, only TypeScript gets Camel. |
| RustTools.AddLeadingZeros | src/tools/add_leading_zeros.rs:4-6 | The result is '0's followed by the unchanged id, of length max(4, \|id\|). |
| RustTools.AddLeadingZerosIsPaddedId | src/tools/add_leading_zeros.rs:4-6 | The Rust padding is the TypeScript `padStart(4, '0')`. |
| RustTools.AddLeadingZerosOne | src/tools/add_leading_zeros.rs:1-5 | "1" becomes "0001". |
| RustTools.FileExtension | src/tools/get_file_extension.rs:1-9 | The result is one of py, ts, cc, rs and txt. It is cc exactly for c++ and cpp, and txt exactly for names outside the five, ignoring case. |
| RustTools.FileExtensionIgnoresCase | src/tools/get_file_extension.rs:2 | Lower-casing the input does not change the extension. |
| RustTools.SupportedExtensions | src/tools/get_file_extension.rs:1-9 | Every SupportedLanguage has a real extension (never txt), and different languages have different extensions. |
| RustTools.CodeSnippetByLang | src/tools/get_code_snippet_by_lang.rs:7-16 | The result is the first snippet whose lower-cased slug equals the lower-cased display name. It is an error, "No code snippet found for language: …", exactly when none matches. |
| RustTools.PythonMissesPython3 | src/tools/get_code_snippet_by_lang.rs:14 | The Python display name never matches LeetCode's python3 slug. |
| RustTools.ExercisePairs | src/tools/fill_exercise_template.rs:13-17 | The five keys, starting with the padded id and ending with the snippet code. |
| RustTools.FillExerciseTemplate | src/tools/fill_exercise_template.rs:7-19 | The result is always Ok. |
| RustTools.FillExerciseNoPlaceholder | src/tools/fill_exercise_template.rs:12-18 | A template with none of the five placeholders is returned unchanged. |
| RustTools.SnippetInsertedVerbatim | src/tools/fill_exercise_template.rs:17 | The default code is replaced last, so a snippet is inserted verbatim even when it contains placeholder text. |
| RustTools.TestPairs | src/tools/fill_test_template.rs:15-18 | There are two keys, and the second is the exercise file name key with the given file name as its value. |
| RustTools.FillTestTemplate | src/tools/fill_test_template.rs:6-21 | The result is always Ok. |
| RustTools.FillTestNoPlaceholder | src/tools/fill_test_template.rs:11-20 | A template with neither placeholder is returned unchanged. |
| RustTools.FileNameInsertedVerbatim | src/tools/fill_test_template.rs:18 | The exercise file name is inserted verbatim. |
| RustTools.BuildPairs | src/tools/fill_build_template.rs:9-16 | The exercise file is exercise name + "." + extension, and the test file is test name + "." + extension. |
| RustTools.FillBuildNoPlaceholder | src/tools/fill_build_template.rs:12-16 | A template with no placeholder is returned unchanged. |
| RustTools.LastValueVerbatim | src/tools/fill_build_template.rs:12-16 | In any replace chain, the value of the last key is inserted verbatim. |
| RustFiles.PathJoin | src/tools/file.rs:149-156 | A string starting with '/' replaces the base. Any other string keeps the base as a prefix. Every segment it adds is non-empty and free of '/'. |
| RustFiles.ComponentsAtSlash | src/tools/file.rs:149-156 | The components of `x/y` are the components of x followed by those of y. |
| RustFiles.JoinTwice | src/tools/file.rs:149-156 | Joining a relative x and then a relative y gives the same path as joining `x/y` once. |
| RustFiles.JoinName | src/tools/file.rs:86-88 | Joining a plain file name appends exactly that one segment. |
| RustFiles.Extension | src/tools/file.rs:67 | Every SupportedLanguage gets one of py, ts, cc and rs. |
| RustFiles.FileNamesDiffer | src/tools/file.rs:66-101 | The test name is the exercise name with "_test" inserted before the extension, so the two always differ. |
| RustFiles.ReadFile | src/tools/file.rs:36-42 | Succeeds exactly on a regular file, with its content. A path that does not exist gives "Failed to read file: <path>". |
| RustFiles.WriteFile | src/tools/file.rs:44-50 | Succeeds exactly when the file can be created and then writes it; otherwise the error is "Failed to create file: <path>". |
| RustFiles.CreateExercise | src/tools/file.rs:61-91 | A missing snippet fails first, with nothing changed. Success needs the template and a writable target. It writes only the filled template to `<target>/<language>/<name>` and returns that name. |
| RustFiles.CreateTest | src/tools/file.rs:93-117 | Succeeds exactly when the template exists and the target is writable. It then writes the filled template, with its own test file name as the exercise file name, and returns that name. |
| RustFiles.TestKeepsExercise | src/tools/file.rs:85-114 | The test file is never written over the exercise file. |
| RustFiles.CopyFile | src/tools/file.rs:119-140 | Succeeds exactly when the source is a file and the target is writable, and then copies the content. |
| RustFiles.CopyFileToRoot | src/tools/file.rs:142-152 | Copies `<templates>/<path>` to the target directory under the path's last '/'-segment. |
| RustFiles.CopyFileToLang | src/tools/file.rs:154-158 | Copies `<templates>/<path>` to the same relative path under the target directory. |
| RustFiles.CopyTargets | src/tools/file.rs:142-158 | For "dir/name", the root copy lands at `<target>/name` and the language copy at `<target>/dir/name`. For a bare name the two agree. |
| RustFiles.CreateDirectory | src/tools/file.rs:27-34 | Creates the path and its ancestors exactly when no file is in the way; otherwise the error is "Failed to create directory at <path>". |
| RustFiles.CreateProjectDirectory | src/tools/file.rs:160-162 | Creates the target directory and its ancestors. |
| RustFiles.CreateLanguageDirectory | src/tools/file.rs:164-167 | Creates `<target>/<language>`. After success, every exercise and test path of that language has its parent directory. |
| RustFiles.FilesInLanguageDir | src/tools/file.rs:84-113 | The exercise and the test file of a problem both lie directly in `<target>/<language>`. |
| FileSystem.ReadResult | src/utils/file-operations.ts:82-85 | readFile succeeds exactly on a regular file, and returns its content. |
| FileSystem.Host.ReadFile | src/utils/file-operations.ts:82-85 | Returns the outcome ReadResult describes and changes nothing. |
| FileSystem.Host.WriteFile | src/utils/file-operations.ts:87-93 | Succeeds exactly when the parent is a directory and the path is not one. It then sets that one file and leaves every other file and directory alone. |
| FileSystem.Host.CopyFile | src/utils/templates.ts:46 | Succeeds exactly when the source is a file and the target is writable, and then gives the target the source's content. |
| FileSystem.Host.Unlink | src/commands/sync.ts:139 | Removes exactly the given regular file; a missing path or a directory is an error. |
| FileSystem.Host.MakeDirs | src/utils/file-operations.ts:26-35 | Recursive mkdir creates the path and all its ancestors exactly when none of them is a file; otherwise nothing changes. |
| FileSystem.Host.ReadDir | src/commands/test.ts:59 | Succeeds exactly on a directory, and lists each child once with its correct type. |
| FileSystem.Host.Chdir | src/commands/fetch.ts:64 | Changes the working directory and nothing else. |
| FileSystem.DirectoryNames | src/commands/test.ts:60 | A name is kept exactly when some directory entry of the listing has it, and the result is no longer than the listing. An empty listing gives no names. One entry gives its name when it is a directory and nothing otherwise. |
| FileSystem.DirectoryNamesAppend | src/commands/test.ts:60 | The names of a listing are the names of its first part followed by those of its second part. With the one-entry case this fixes the result as the directories' names in listing order, which the first-match searches of test.ts:63-79 rely on. |

## Left out

- The network: `src/utils/leetcode-api.ts` and the GraphQL client are not part of this model. The fetched problem is a `Result<Problem>` parameter of `Fetch.FetchAction`.
- Child processes: `spawn` in `runTests` is replaced by a `ChildOutcome` parameter. `src/commands/fix.ts` is not part of this model.
- Console output: only the lines of `displaySyncResult` are modelled (`Sync.DisplayLines`). The other `console.log` calls are left out, and `Sync.SyncAction` returns its per-language results instead of printing them.
- Command dispatch and the other commands are not part of this model. This covers `src/index.ts`, `src/main.rs`, `add.ts`, `init.ts`, `init.rs`, `fetch.rs` and `add_language.rs`. It also covers `createWorkspace` and `readWorkspaceConfig` in `src/utils/workspace.ts`, which write fixed text or parse JSON.
- Regular expressions: the five patterns of `extractFunctionName` and the tag pattern of `cleanDescription` are hand-written scanners for those patterns only. There is no general regular-expression engine.
- Case mapping and character classes are ASCII. JavaScript's `toLowerCase`/`toUpperCase` and Rust's `to_lowercase` also map non-ASCII letters. `padStart` counts UTF-16 code units where the model counts characters.
- The lookup tables in `getLanguageSlug` and `getFileExtension` are modelled as lookups by exact name. Inherited object keys such as `constructor`, which JavaScript would find on the prototype, are not modelled.
- The file system has regular files and directories only. Symbolic links, permissions, file descriptors and partial writes are left out.
- Paths are absolute segment sequences. A language name is a single segment, and relative start directories are not modelled; with them `findWorkspaceRoot`'s loop on `dirname('.')` would not end.
- Rust's `sanitize_text` and `to_case(Case::Camel)` are function parameters. `src/tools/sanitize_text.rs`, `copy_template_file.rs`, `read_template.rs`, `is_leetcode_cli_project.rs` and `get_project_path.rs` are not part of this model.
- The Rust prototype does not compile as it stands. `get_case_by_language` matches twelve variants of a `SupportedLanguage` that has four; it is modelled over its own twelve-variant type, and `RustCase.AsCaseLanguage` maps the four into it. `get_file_extension` takes `&str`, but `file.rs` and `fill_build_template.rs` pass a `&SupportedLanguage`; the model uses the extension of the language's display string.
- `FileUtils::new` (src/tools/file.rs:52-59): the templates directory comes from the compile-time `CARGO_MANIFEST_DIR`, which the model cannot see. Every member takes the two directories as a `FileUtils` value instead.
- RustFiles.PathJoin: Rust's `Path::join` keeps empty components that the model drops; `/` separators inside the joined string are split into segments. `Components` keeps `.` and `..` as ordinary segments, whereas `Path::components` drops an interior `.` and `..` names the parent; no call in `file.rs` passes either.
- RustFiles.CopyFileToRoot: the "Invalid file path" error cannot happen, because `split("/").last()` always has a field, so it is not modelled.
- ProblemFiles.CreateProblemFiles: the created exercise and test files hold the literal substitution (`TemplateVars.Substitute`), not the output of JavaScript's `String.replace` with its `$` patterns. The two agree whenever no substituted value contains '$' (`TemplateVars.AsWrittenIsSubstituteWithoutDollar`). Findings shows an input where they differ. `Fetch.FetchAction` and `Fetch.FetchInto` inherit this.
- ProblemFiles.CreateProblemFiles: after a failure, the state is stated only as bounds (some of the layout's directories, and the files with or without the exercise) rather than exactly.
- Fetch.FetchAction: when the language directory had to be initialised, the final files are stated through the initialisation's success and the exercise file's presence, not as one exact map.
- Sync.SyncIdempotent and Sync.DryRunReportsRealRemovals assume that the template does not ship `biome.json` and that the template and language directories differ. `Sync.BiomeShippedComesBack` shows what happens otherwise.
- Sync.SyncAction: when a language fails part-way through a real run, the files it leaves are not stated. The copy that failed may have written some files, and `Sync.SyncLanguage` states only when such a failure can happen. The results and files before that language are stated.
- TestCommand.TestAction: when the language directory contains a directory with an empty name, which real file systems do not allow, the outcome can depend on listing order; the contract states it through a listing rather than a fixed predicate.
- The test file-name table in `getTestFileName` and the exercise names in `getExerciseFileName` are functions whose properties are stated as lemmas (names differ, stem plus extension, Go naming); the individual table entries are not restated.

## Findings

| source | as written | input that shows it | evidently intended | confidence | as-written member | corrected member |
|---|---|---|---|---|---|---|
| src/utils/file-operations.ts:120 | `result.replace(new RegExp(key, 'g'), value)` reads `$$`, `$&`, `` $` `` and `$'` in the value as replacement patterns | a problem whose snippet, title or description contains `$$` (a template holding `__PROBLEM_DEFAULT_CODE__`, value `$$`) gets `$` | every placeholder replaced by its value verbatim | not executed | TemplateVars.AsWrittenDiffersOnDoubleDollar | TemplateVars.ReplaceTemplateVars |
