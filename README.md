# rez configuration resolution, modelled in Dafny

rez is a task runner: the user writes tasks in a C or C++ file (`rez.cpp`, or
`rez.c` as a fallback), and rez compiles that file into a binary under the
`.rez` cache directory. This project models the part of rez that decides how
to do that:

- `Config::Load` resolves every build parameter.
  - It sets two cache paths.
  - It detects a native Windows shell by the presence of `COMSPEC`.
  - It picks the definition file and its language.
  - It picks the compiler: the platform default, which `CXX` or `CC` overrides.
  - It bootstraps the MSVC toolchain when the compiler is `cl`.
  - It sets the artifact directory and binary paths.
  - Last, it streams the build command, with the optional `CPPFLAGS` and `CXXFLAGS`/`CFLAGS`.
- `Config::ApplyMSVCToolchain` handles a cache miss: the file is absent or empty.
  - It builds the query command `cmd.exe /c ""<script>" <arch> && set"`. `REZ_TOOLCHAIN_QUERY_PATH` overrides the script and `REZ_ARCH` overrides the architecture.
  - It runs the command and appends every output line that holds `=` to the cache.
  - It fails when the command cannot be launched or exits with a non-zero status.
- On a hit, or after a successful query, `ApplyMSVCToolchain` reads the cache line by line.
  - It splits each line at `=` and hands the pair to `setenv`.
  - The first refusal stops the run.
- The POSIX `GetEnvironmentVariable`, `DetectWindowsEnvironment`, the header's constants, `Lang`, and the `Config` fields.

## Layout

- `base.dfy`: `Option`, `Outcome`, and the `Error` values.
  - Each error stands for one message the source throws.
  - It carries the data of that message: the command, the status, the line, errno.
- `rez_header.dfy`: the constant table and `Lang`.
- `environment.dfy`: the environment map with `getenv` and `setenv(name, value, 1)`, and the Windows probe.
- `resolution.dfy`: the pure parts of `Load`.
  - Path joins, the definition choice, the compiler choice, the flags.
  - `std::quoted` and its inverse.
  - The build command, and an independent word-based reference for it.
- `toolchain.dfy`: the pure parts of `ApplyMSVCToolchain`.
  - The query command and its parser.
  - The `=` filter and the `size_t` arithmetic of the key/value split.
  - The `setenv` loop.
  - The cache state machine `Bootstrap` over a host state of environment, files and launched commands.
- `loading.dfy`: `Loaded`, the reference function of `Load`, built from one function per phase, and the lemmas about it.
- `config.dfy`: what the host mutates.
  - `class Host` holds the environment, the files and the log of attempted query commands.
  - `class Config` has the ten fields and imperative `Load` and `ApplyMSVCToolchain`.
  - The phase methods and the `fgets`/`getline` loops.
  - Each is proved equal to the function above.

Modelling choices:

- The environment and the working tree are explicit values.
  - The environment is a map.
  - The files are a map from path to lines.
  - Every attempted query command is logged, including one whose launch failed.
- The outcome of the query process is a parameter: `LaunchFailed`, or `Exited(output, status)`.
- The path separator is a parameter: `'/'` on POSIX, `'\\'` on Windows.
- A `throw` becomes an `Outcome.Fail`.
  - Every field assigned before the throw keeps its new value, as in the source.
  - Every field after it keeps its old value.
- A cache file that does not exist stays absent. `std::fstream::open` with the default mode never creates it.
  - The query still runs.
  - Its output is discarded.
  - When the query launches and exits with status 0, the call reports success with the environment and files unchanged (`AbsentCacheDiscardsQuery`).
  - A launch failure or a non-zero status is still reported as with an existing cache (`BootstrapQueryFailure`).
- A query that exits with a non-zero status still leaves its assignment lines in an existing cache (`BootstrapQueryFailure`). The next call is then a hit, provided some output line held `=` (`BootstrapPopulatesCache`).

Where the source behaves differently from what its comments say, the model follows the code:

- **Key split.**
  - The key is `line.substr(0, j - 1)` with `j = line.find('=')`, so it drops the character before `=`: `FOO=bar` sets `FO` to `bar` (`SplitDropsCharacterBeforeEquals`).
  - A one-letter name gives an empty key, which `setenv` refuses (`SplitOneLetterName`).
  - A line without `=` sets a variable named after the whole line to that same line, because `substr(0, npos - 1)` keeps the whole line and `npos + 1` wraps to 0.
  - `KeyValidIff` states exactly which lines yield a valid name.
- **Definition path in the command.** It is streamed as a `std::filesystem::path`, which writes it through `std::quoted`. The command therefore holds `"rez.cpp"` with quotes, not the bare `rez.cpp` of the header's examples (include/rez/rez.hpp:243-244).
- **Binary name.** It is `delegate-rez`, not the `rez` of the header's examples (include/rez/rez.hpp:233-234).
- **Cache file name.** It is `rez-env.txt`, not `rez-cache.txt` (include/rez/rez.hpp:168).
- **C compiler override.** It is read from `CC`, not from `CFLAGS` as the comment on `DefaultCompilerUnixC` says (include/rez/rez.hpp:79).
- **Default definition path.** The declared default is empty, although its comment says `rez.cpp` (include/rez/rez.hpp:183-192). `Load` assigns it in every successful run.

## Model

| member | source | states |
|---|---|---|
| Environment.GetEnvironmentVariable | src/rez.cpp:57-65 | the result is present exactly when the variable is set, even to an empty value, and then it is that value |
| Environment.DetectWindowsEnvironment | src/rez.cpp:68-70 | a host is Windows exactly when COMSPEC is set, whatever its value |
| Environment.SetEnv | src/rez.cpp:155 | setenv succeeds exactly when the name is non-empty and free of '='. A refusal reports EINVAL. On success the name is bound to the value, the names are the old ones plus that name, and every other binding is unchanged |
| Base.IndexOf | src/rez.cpp:150 | the first occurrence of a character: absent exactly when the character is not in the string, otherwise an index holding it with no earlier occurrence |
| Resolution.PathJoin | src/rez.cpp:173 | reference definition of `dir / name`: the directory, the separator, the name. Its shape is stated by ArtifactFilePathShape |
| Resolution.CacheFilePath | src/rez.cpp:172-173 | reference definition of the cache file under the cache directory. Spelt out by CacheFilePathPosix and used by LoadSetsCachePaths |
| Resolution.ArtifactDirPath | src/rez.cpp:221 | reference definition of the artifact directory under the cache directory. Used by ArtifactFilePathShape and LoadSuccess |
| Resolution.Executable | src/rez.cpp:223-227 | reference definition of the binary name, with ".exe" on Windows only. Its suffix is stated by ArtifactFilePathShape |
| Resolution.ArtifactFilePath | src/rez.cpp:221-229 | reference definition of the binary path. Its properties are ArtifactFilePathShape, ArtifactFilePathPosix and ArtifactFilePathWindows |
| Resolution.ArtifactFilePathShape | src/rez.cpp:221-229 | the binary path is the artifact directory, then the separator, then the binary name, which holds no '.'. The path ends in ".exe" exactly on Windows |
| Resolution.CacheFilePathPosix | src/rez.cpp:172-173 | with '/' the cache file is ".rez/rez-env.txt" |
| Resolution.ArtifactFilePathPosix | src/rez.cpp:221-229 | with '/' and no COMSPEC the binary is ".rez/bin/delegate-rez" |
| Resolution.ArtifactFilePathWindows | src/rez.cpp:221-229 | with '\\' on Windows the binary is ".rez\bin\delegate-rez.exe" |
| Resolution.SelectDefinition | src/rez.cpp:177-185 | rez.cpp with C++ when it exists; otherwise rez.c with C when that exists; otherwise nothing |
| Resolution.NonBlank | src/rez.cpp:235-244 | a flag is the variable's value when that is set and non-empty, and "" in every other case |
| Resolution.DefaultCompiler | src/rez.cpp:187-193 | cl on Windows whatever the language, else c++ for C++ and cc for C |
| Resolution.CompilerOverrideVariable | src/rez.cpp:195-215 | CXX overrides the compiler for C++ and CC for C |
| Resolution.LanguageFlagsVariable | src/rez.cpp:246-269 | CXXFLAGS carries the language flags for C++ and CFLAGS for C |
| Resolution.SelectCompiler | src/rez.cpp:187-215 | the compiler is the language's override variable when that is set and non-empty, otherwise the platform default |
| Resolution.Escape | src/rez.cpp:287 | reference definition of the escaping std::quoted applies: a backslash before each '"' and each backslash. Its properties are EscapePlain and UnescapeEscape |
| Resolution.Quoted | src/rez.cpp:287 | reference definition of how a path is streamed: the escaped path between two '"'. Its properties are QuotedDefinition, QuotedCpp and QuotedC |
| Resolution.BuildCommand | src/rez.cpp:231-311 | reference definition of the streamed command in its two shapes. BuildCommandWords ties it to the word-based reference; PosixDefaultCommand, MsvcDefaultCommand and PosixCommandWithFlags spell it out; StreamBuildCommand is proved equal to it |
| Resolution.CompilerExamples | src/rez.cpp:187-215 | concrete choices: cl on Windows, c++ and cc on POSIX, a non-empty CXX wins on Windows too, and for C an empty CC and any CXX are ignored |
| Resolution.EscapePlain | src/rez.cpp:287 | std::quoted leaves a string without quotes or backslashes unchanged between its delimiters |
| Resolution.UnescapeEscape | src/rez.cpp:287 | reading back what std::quoted wrote gives the original string: the quoting is lossless |
| Resolution.QuotedDefinition | src/rez.cpp:287 | rez.cpp and rez.c need no escaping, so each is streamed as itself between two '"' |
| Resolution.QuotedCpp | src/rez.cpp:178 | rez.cpp is streamed as "\"rez.cpp\"" |
| Resolution.QuotedC | src/rez.cpp:181 | rez.c is streamed as "\"rez.c\"" |
| Resolution.MsvcCommandWords | src/rez.cpp:273-289 | the cl command is the compiler, the non-empty flags, the quoted definition, "/link" and "/out:" plus the artifact, joined by single spaces |
| Resolution.PosixCommandWords | src/rez.cpp:290-309 | any other compiler's command is the compiler, "-o", the artifact, the non-empty flags and the quoted definition, joined by single spaces |
| Resolution.BuildCommandWords | src/rez.cpp:231-311 | the streamed command equals the word-based reference for every compiler: an empty flag adds no word and no space |
| Resolution.PosixDefaultCommand | src/rez.cpp:290-309 | without flags, any compiler other than cl builds rez.cpp with compiler + " -o " + artifact + " \"rez.cpp\"" |
| Resolution.MsvcDefaultCommand | src/rez.cpp:273-289 | without flags the MSVC command is "cl \"rez.cpp\" /link /out:" + artifact |
| Resolution.PosixCommandWithFlags | src/rez.cpp:290-309 | with both flags set, CPPFLAGS comes first and the language flags second, each followed by one space, before the definition |
| Toolchain.QueryScript | src/rez.cpp:86-91 | the script is REZ_TOOLCHAIN_QUERY_PATH when it is set (even to ""), else the Visual Studio 2019 vcvarsall path |
| Toolchain.QueryArch | src/rez.cpp:93-98 | the architecture is REZ_ARCH when it is set, else x64 |
| Toolchain.QueryCommand | src/rez.cpp:100-106 | reference definition of the query command. Its properties are QueryCommandPieces, QueryCommandRoundTrip and ParseQueryCommandSound |
| Toolchain.DefaultScriptUnquoted | include/rez/rez.hpp:90 | the default vcvarsall path holds no '"' |
| Toolchain.DefaultQueryCommandParses | src/rez.cpp:86-106 | with the default script, the query command parses back to the vcvarsall path and the architecture |
| Toolchain.QueryCommandPieces | src/rez.cpp:100-106 | the query command starts with `cmd.exe /c ""`, ends with ` && set"`, and holds exactly the script, `" ` and the architecture between them |
| Toolchain.QueryCommandRoundTrip | src/rez.cpp:100-106 | a script without '"' and any architecture can be parsed back out of the query command |
| Toolchain.ParseQueryCommandSound | src/rez.cpp:100-106 | any command the parser accepts is the query command of the script and architecture it returns |
| Toolchain.Assignments | src/rez.cpp:122-126 | the lines kept are exactly the output lines holding '=', and never more lines than the output has. Their order and multiplicity are fixed by AssignmentsAppend |
| Toolchain.AssignmentsAppend | src/rez.cpp:122-126 | filtering two stretches of output one after the other is filtering their concatenation |
| Toolchain.Find | src/rez.cpp:150 | find returns the index of the first '=' when there is one, and npos (2^64-1) otherwise |
| Toolchain.Substr | src/rez.cpp:151-152 | reference definition of `substr(pos, count)`: at most count characters from pos. Used by SplitAssignmentCases |
| Toolchain.SplitAssignment | src/rez.cpp:150-152 | reference definition of the split with size_t positions. Its cases are stated by SplitAssignmentCases, KeyValidIff, SplitDropsCharacterBeforeEquals and SplitOneLetterName |
| Toolchain.Key | src/rez.cpp:151 | the name handed to setenv. KeyValidIff states when it is valid |
| Toolchain.Value | src/rez.cpp:152 | the value handed to setenv. SplitAssignmentCases states it |
| Toolchain.SplitAssignmentCases | src/rez.cpp:150-152 | for each input line, the size_t arithmetic of the split gives one of three results. With '=' at j >= 1: the key is the j-1 characters before it and the value is everything after '='. With '=' first: the key is the whole line and the value is the rest. Without '=': both are the whole line |
| Toolchain.KeyValidIff | src/rez.cpp:150-155 | setenv accepts a line's key exactly when its first '=' is at index 2 or later, or when the line is non-empty and has no '=' |
| Toolchain.SplitDropsCharacterBeforeEquals | src/rez.cpp:150-152 | "FOO=bar" is split into "FO" and "bar" |
| Toolchain.SplitOneLetterName | src/rez.cpp:150-155 | "A=1" yields the empty key, which setenv refuses with EINVAL |
| Toolchain.ApplyLines | src/rez.cpp:145-166 | applying lines only adds names, and every name added is the key of one of the lines. A failure reports one of the lines with EINVAL, and that line's key is invalid |
| Toolchain.ApplyLinesSucceedsIff | src/rez.cpp:145-166 | the loop succeeds exactly when every line's key is a valid name |
| Toolchain.ApplyLinesStopsAtFirstFailure | src/rez.cpp:145-166 | when line i is the first with an invalid key, the failure names line i. The environment is then that of applying the first i lines |
| Toolchain.ApplyLinesAppend | src/rez.cpp:145-166 | applying a concatenation is applying the first part and then, if it succeeded, the second part |
| Toolchain.ApplyLinesUntouched | src/rez.cpp:145-166 | a name that is no line's key keeps its binding, or its absence |
| Toolchain.ApplyLinesLastWins | src/rez.cpp:145-166 | after a successful run a line's key holds the value of the last line with that key (setenv overwrites) |
| Toolchain.AppendToCache | src/rez.cpp:75-126 | appending keeps the set of files. An existing cache grows by exactly the lines written, and an absent cache stays absent |
| Toolchain.CacheMiss | src/rez.cpp:79-81 | reference definition of a miss: the cache has no size (it is absent) or size 0. Used by BootstrapHit, BootstrapMissLaunches and AbsentCacheDiscardsQuery |
| Toolchain.CacheLines | src/rez.cpp:143-145 | reference definition of the lines getline reads: the cache's lines, and none when the stream did not open |
| Toolchain.ApplyCache | src/rez.cpp:143-166 | reference definition of the getline/setenv loop over the cache, through ApplyLines. ApplyCacheLines is proved equal to it |
| Toolchain.Bootstrap | src/rez.cpp:72-169 | reference definition of one ApplyMSVCToolchain call. Its properties are BootstrapHit, BootstrapMissLaunches, BootstrapFrame, BootstrapQueryFailure, BootstrapPopulatesCache, BootstrapMissApplies, AbsentCacheDiscardsQuery and CacheHitExample; Config.ApplyMSVCToolchain is proved equal to it |
| Toolchain.BootstrapHit | src/rez.cpp:81-166 | on a hit nothing is launched, the cache is unchanged, and the environment is that of applying the cache lines |
| Toolchain.BootstrapMissLaunches | src/rez.cpp:81-113 | on a miss exactly one command is launched: the query command of the current script and architecture |
| Toolchain.BootstrapFrame | src/rez.cpp:72-169 | the bootstrap creates and removes no file, and writes no file other than the cache |
| Toolchain.BootstrapQueryFailure | src/rez.cpp:112-138 | both failures log the one launched command and keep the environment. A launch failure reports the command and leaves the files alone. A non-zero status reports the command and status, after the filtered output has gone to the cache |
| Toolchain.BootstrapPopulatesCache | src/rez.cpp:119-140 | an existing empty cache receives the filtered output, and the next call is a hit when that output is non-empty |
| Toolchain.BootstrapMissApplies | src/rez.cpp:119-166 | after a successful query on an existing empty cache, the environment is that of applying the filtered output |
| Toolchain.AbsentCacheDiscardsQuery | src/rez.cpp:75-145 | without a cache file, a query that launches and exits with status 0 lets the call succeed with the environment and files unchanged. The next call launches again |
| Toolchain.CacheHitExample | src/rez.cpp:145-155 | a cache holding "FOO=bar" sets FO to bar and leaves FOO as it was |
| Loading.WithCachePaths | src/rez.cpp:172-175 | reference definition of the first phase. SetCachePaths is proved equal to it |
| Loading.WithDefinition | src/rez.cpp:177-215 | reference definition of the definition and compiler phase. SetDefinition is proved equal to it |
| Loading.MaybeBootstrap | src/rez.cpp:217-219 | reference definition of the bootstrap, run only for "cl". LoadBootstrapsOnlyForMsvc states it |
| Loading.WithCommand | src/rez.cpp:221-311 | reference definition of the artifact and command phase. SetCommand is proved equal to it |
| Loading.Loaded | src/rez.cpp:171-312 | reference definition of a whole load. Its properties are the Load lemmas; Config.Load is proved equal to it |
| Loading.LoadSetsCachePaths | src/rez.cpp:172-175 | every run, failing or not, keeps debug and sets the cache directory to ".rez", the cache file under it, and the Windows flag from COMSPEC |
| Loading.LoadWithoutDefinition | src/rez.cpp:177-185 | without rez.cpp and rez.c the run fails with DefinitionNotFound. The host is untouched and no later field changes |
| Loading.LoadChoosesDefinitionAndCompiler | src/rez.cpp:177-215 | with a definition, rez.cpp is preferred and its language follows it. The compiler is SelectCompiler's choice and never empty |
| Loading.LoadBootstrapsOnlyForMsvc | src/rez.cpp:217-219 | the host changes only when the compiler is "cl", and then as the bootstrap changes it |
| Loading.LoadFailureKeepsOutputs | src/rez.cpp:184-219 | on a failed run the artifact paths and the build command keep their previous values |
| Loading.LoadSuccess | src/rez.cpp:221-311 | a successful run sets the artifact directory and binary. The binary ends in ".exe" exactly on Windows. The build command is the word-based reference, with the flags of the environment after the bootstrap |
| Loading.LoadPosixDefault | src/rez.cpp:171-312 | on POSIX with rez.cpp and no overrides or flags, the host is untouched, the compiler is c++, and the command is "c++ -o .rez/bin/delegate-rez \"rez.cpp\"" |
| Loading.LoadMsvcCacheHit | src/rez.cpp:171-312 | on Windows with a cache holding "FOO=bar", nothing is launched and FO is set to bar. The command is "cl \"rez.cpp\" /link /out:" followed by the Windows binary path |
| Rez.Host.constructor | src/rez.cpp:72-312 | the host both methods read and change starts with the given environment and files and an empty log of attempted query commands |
| Rez.Config.constructor | include/rez/rez.hpp:143-246 | a fresh Config holds the declared defaults: no debug, no Windows, C++, empty paths and strings |
| Rez.Config.ApplyMSVCToolchain | src/rez.cpp:72-169 | the host after the method, with its outcome, is that of the cache state machine Bootstrap on the host before it |
| Rez.Config.SetCachePaths | src/rez.cpp:172-175 | the fields after the assignments are those of the cache-path phase |
| Rez.Config.SetDefinition | src/rez.cpp:177-215 | the fields after recording the definition and resolving the compiler are those of the definition phase |
| Rez.Config.SetCommand | src/rez.cpp:221-311 | the fields after the artifact paths and the streamed command are those of the command phase |
| Rez.Config.Load | src/rez.cpp:171-312 | the fields and the host after the method, with its outcome, are those of the reference function Loaded |
| Rez.AppendAssignments | src/rez.cpp:119-126 | the fgets loop leaves the files as appending the filtered output to the cache would, and the environment and launch log unchanged |
| Rez.ApplyCacheLines | src/rez.cpp:143-166 | the getline loop leaves the host, with its outcome, as applying the cache's lines does |
| Rez.LocateDefinition | src/rez.cpp:177-185 | the existence tests choose what SelectDefinition chooses |
| Rez.ReadNonBlank | src/rez.cpp:235-244 | the flag read is NonBlank of the variable |
| Rez.ResolveCompiler | src/rez.cpp:187-215 | the default-then-override assignments give SelectCompiler |
| Rez.StreamBuildCommand | src/rez.cpp:231-311 | the streamed command is BuildCommand of the compiler, definition, artifact and non-blank flags |
| Rez.AppendLanguageFlag | src/rez.cpp:279-285 | streams the language's flag followed by a space, only when that flag is non-empty |
| Rez.AppendFlag | src/rez.cpp:274-277 | streams a flag followed by a space only when the flag is non-empty |

## Left out

- Process launching: popen, pclose, cmd.exe and vcvarsall are not modelled. The query outcome is a parameter.
- fstream reading: line splitting is exact.
  - The fgets buffer of 32760 bytes is not modelled. A longer line would be split into pieces.
  - Trailing newlines are not modelled, nor CRLF line ends.
- create_directories(CacheDir) is not modelled (src/rez.cpp:73). The cache directory is assumed to be whatever the files map holds.
- The `_MSC_VER` branches are not modelled: `_dupenv_s`, its errno path, and `_putenv`. Only the POSIX build is modelled.
- Logging is not modelled: the debug messages, `operator<<` for `Lang` and `Config`, and `Version`.
- setenv's ENOMEM is left out. The only refusal modelled is EINVAL on an invalid name.
- Error messages: errors carry their data, not the exact message text.
- Concurrency is not modelled.
- NUL characters are not modelled. Cache lines and variable values are assumed free of NUL, so the `c_str()` cut that `setenv` sees is not modelled (src/rez.cpp:155).
- `std::filesystem::path` formatting is reduced to joining with a separator parameter.
- Toolchain.SplitAssignmentCases: assumes the line is shorter than npos, which is true of any `std::string`, since its size is below `max_size()`.
- Toolchain.KeyValidIff: assumes the line is shorter than npos, which is true of any `std::string`, since its size is below `max_size()`.
