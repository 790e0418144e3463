/**
 * The `Config` record and its two methods. `Load` assigns the fields one
 * after the other, as the source does; `ApplyMSVCToolchain` changes the host:
 * it may launch the query, append to the cache file and set environment
 * variables. Each method is proved against the pure functions of Resolution
 * and Toolchain.
 */
module Rez {
  import opened Base
  import opened RezHeader
  import opened Environment
  import opened Resolution
  import opened Toolchain
  import opened Loading

  /** The process environment, the working tree, and the log of attempted query commands. */
  class Host {
    var env: Env
    var files: Files
    var launched: seq<string>

    constructor (env: Env, files: Files)
      ensures this.env == env && this.files == files && launched == []
    {
      this.env := env;
      this.files := files;
      launched := [];
    }

    function State(): HostState
      reads this
    {
      HostState(env, files, launched)
    }
  }

  /** The build parameters; paths are strings with the separator chosen by `Load`'s caller. */
  class Config {
    var debug: bool
    var cacheDirPath: string
    var cacheFilePath: string
    var windows: bool
    var definitionPath: string
    var definitionLang: Lang
    var compiler: string
    var artifactDirPath: string
    var artifactFilePath: string
    var buildCommand: string

    /** The defaults of the declaration: not debugging, not Windows, C++, empty paths and strings. */
    constructor ()
      ensures Fields() == DefaultFields
    {
      debug := false;
      cacheDirPath := "";
      cacheFilePath := "";
      windows := false;
      definitionPath := "";
      definitionLang := Cpp;
      compiler := "";
      artifactDirPath := "";
      artifactFilePath := "";
      buildCommand := "";
    }

    /**
     * Loads the MSVC environment into the host: on a cache miss runs the
     * query and appends its assignment lines to the cache, then sets a
     * variable per cache line. The configuration itself is not changed.
     */
    method ApplyMSVCToolchain(host: Host, query: QueryOutcome) returns (r: Outcome<Error>)
      modifies host
      ensures Run(host.State(), r) == Bootstrap(old(host.State()), cacheFilePath, query)
    {
      var path := cacheFilePath;
      if CacheMiss(host.files, path) {
        var script := DefaultMSVCToolchainQueryScript;
        var scriptOverride := GetEnvironmentVariable(host.env, "REZ_TOOLCHAIN_QUERY_PATH");
        if scriptOverride.Some? {
          script := scriptOverride.value;
        }
        var arch := ArchitectureMsvcAmd64;
        var archOverride := GetEnvironmentVariable(host.env, "REZ_ARCH");
        if archOverride.Some? {
          arch := archOverride.value;
        }
        var command := QueryPrefix;
        command := command + script;
        command := command + QueryInfix;
        command := command + arch;
        command := command + QuerySuffix;

        host.launched := host.launched + [command];
        if query.LaunchFailed? {
          return Fail(QueryLaunchFailure(command));
        }
        AppendAssignments(host, path, query.output);
        if query.status != 0 {
          return Fail(QueryExecutionFailure(command, query.status));
        }
      }
      r := ApplyCacheLines(host, path);
    }
    /** The cache directory and file, and the Windows probe. */
    method SetCachePaths(env: Env, sep: char)
      modifies this
      ensures Fields() == WithCachePaths(old(Fields()), env, sep)
    {
      cacheDirPath := CacheDir;
      cacheFilePath := PathJoin(cacheDirPath, CacheFileBasename, sep);
      windows := DetectWindowsEnvironment(env);
    }

    /** Records the definition file and its language, then resolves the compiler. */
    method SetDefinition(path: string, lang: Lang, env: Env)
      modifies this
      ensures Fields() == WithDefinition(old(Fields()), path, lang, env)
    {
      definitionPath := path;
      definitionLang := lang;
      compiler := ResolveCompiler(windows, definitionLang, env);
    }

    /** The artifact paths, then the build command streamed with the flags of `env`. */
    method SetCommand(env: Env, sep: char)
      modifies this
      ensures Fields() == WithCommand(old(Fields()), env, sep)
    {
      artifactDirPath := PathJoin(cacheDirPath, ArtifactDirBasename, sep);
      var executable := ArtifactBinaryUnix;
      if windows {
        executable := executable + ExecutableSuffix;
      }
      assert executable == Executable(windows);
      artifactFilePath := PathJoin(artifactDirPath, executable, sep);
      buildCommand := StreamBuildCommand(compiler, definitionPath, definitionLang, artifactFilePath, env);
    }

    /** The fields as a value. */
    function Fields(): ConfigFields
      reads this
    {
      ConfigFields(debug, cacheDirPath, cacheFilePath, windows, definitionPath, definitionLang,
                   compiler, artifactDirPath, artifactFilePath, buildCommand)
    }

    /**
     * Resolves the build parameters from the host: cache paths, the Windows
     * flag, the definition file and its language, the compiler (bootstrapping
     * MSVC when it is "cl"), the artifact paths and the build command. A
     * failure leaves the fields that come after it as they were.
     */
    method Load(host: Host, sep: char, query: QueryOutcome) returns (r: Outcome<Error>)
      modifies this, host
      ensures (Fields(), Run(host.State(), r)) == Loaded(old(Fields()), old(host.State()), sep, query)
    {
      SetCachePaths(host.env, sep);
      var definition := LocateDefinition(host.files);
      if definition.None? {
        return Fail(DefinitionNotFound);
      }
      SetDefinition(definition.value.0, definition.value.1, host.env);
      if compiler == DefaultCompilerWindows {
        r := ApplyMSVCToolchain(host, query);
        if r.Fail? {
          return;
        }
      }
      SetCommand(host.env, sep);
      r := Pass;
    }
  }

  /** The fgets loop: each output line with '=' is written to the cache stream, in order. */
  method AppendAssignments(host: Host, path: string, output: seq<string>)
    modifies host
    ensures host.files == AppendToCache(old(host.files), path, Assignments(output))
    ensures host.env == old(host.env) && host.launched == old(host.launched)
  {
    AppendToCacheNothing(host.files, path);
    var i := 0;
    while i < |output|
      invariant 0 <= i <= |output|
      invariant host.files == AppendToCache(old(host.files), path, Assignments(output[..i]))
      invariant host.env == old(host.env) && host.launched == old(host.launched)
    {
      var line := output[i];
      AssignmentsStep(output, i);
      AppendToCacheStep(old(host.files), path, Assignments(output[..i]), line);
      if '=' in line && path in host.files {
        host.files := host.files[path := host.files[path] + [line]];
      }
      i := i + 1;
    }
    assert output[..i] == output;
  }

  /** The getline loop: each cache line in order is split and handed to setenv; the first refusal ends it. */
  method ApplyCacheLines(host: Host, path: string) returns (r: Outcome<Error>)
    modifies host
    ensures Run(host.State(), r) == ApplyCache(old(host.State()), path)
  {
    var lines := CacheLines(host.files, path);
    var k := 0;
    while k < |lines|
      invariant 0 <= k <= |lines|
      invariant ApplyLines(host.env, lines[k..]) == ApplyLines(old(host.env), lines)
      invariant host.files == old(host.files) && host.launched == old(host.launched)
    {
      var line := lines[k];
      var (key, value) := SplitAssignment(line);
      var result := SetEnv(host.env, key, value);
      assert lines[k..][0] == line && lines[k..][1..] == lines[k + 1..];
      if result.Errno? {
        return Fail(EnvironmentApplyFailure(line, result.code));
      }
      host.env := result.env;
      k := k + 1;
    }
    return Pass;
  }

  /** The existence tests for the definition files: rez.cpp first, then rez.c. */
  method LocateDefinition(files: Files) returns (definition: Option<(string, Lang)>)
    ensures definition == SelectDefinition(files.Keys)
  {
    if RezDefinitionPathCpp in files {
      definition := Some((RezDefinitionPathCpp, Cpp));
    } else if RezDefinitionPathC in files {
      definition := Some((RezDefinitionPathC, C));
    } else {
      definition := None;
    }
  }

  /** A variable's value when it is set and non-empty, else "". */
  method ReadNonBlank(env: Env, name: string) returns (v: string)
    ensures v == NonBlank(env, name)
  {
    v := "";
    var opt := GetEnvironmentVariable(env, name);
    if opt.Some? && opt.value != "" {
      v := opt.value;
    }
  }

  /** The compiler: the platform default, replaced by a non-empty CXX (C++) or CC (C). */
  method ResolveCompiler(windows: bool, lang: Lang, env: Env) returns (compiler: string)
    ensures compiler == SelectCompiler(windows, lang, env)
  {
    if windows {
      compiler := DefaultCompilerWindows;
    } else if lang == Cpp {
      compiler := DefaultCompilerUnixCpp;
    } else {
      compiler := DefaultCompilerUnixC;
    }
    if lang == Cpp {
      var compilerOverride := GetEnvironmentVariable(env, "CXX");
      if compilerOverride.Some? && compilerOverride.value != "" {
        compiler := compilerOverride.value;
      }
    } else {
      var compilerOverride := GetEnvironmentVariable(env, "CC");
      if compilerOverride.Some? && compilerOverride.value != "" {
        compiler := compilerOverride.value;
      }
    }
  }

  /** Reads the flag variables and streams the build command piece by piece. */
  method StreamBuildCommand(compiler: string, definitionPath: string, lang: Lang,
                            artifactFilePath: string, env: Env) returns (command: string)
    ensures command == BuildCommand(compiler, definitionPath, artifactFilePath,
                                    NonBlank(env, "CPPFLAGS"), NonBlank(env, LanguageFlagsVariable(lang)))
  {
    var ss := compiler;
    ss := ss + " ";

    var flagsCpp := ReadNonBlank(env, "CPPFLAGS");
    var flagsCxx, flagsC := "", "";
    if lang == Cpp {
      flagsCxx := ReadNonBlank(env, "CXXFLAGS");
    } else {
      flagsC := ReadNonBlank(env, "CFLAGS");
    }
    ghost var flagsLang := NonBlank(env, LanguageFlagsVariable(lang));
    assert flagsLang == if lang == Cpp then flagsCxx else flagsC;

    if compiler == DefaultCompilerWindows {
      ss := AppendFlag(ss, flagsCpp);
      ss := AppendLanguageFlag(ss, lang, flagsCxx, flagsC);
      // streaming a filesystem path writes it through std::quoted
      ss := ss + Quoted(definitionPath);
      ss := ss + " /link /out:";
      ss := ss + artifactFilePath;
    } else {
      ss := ss + "-o ";
      ss := ss + artifactFilePath;
      ss := ss + " ";
      ss := AppendFlag(ss, flagsCpp);
      ss := AppendLanguageFlag(ss, lang, flagsCxx, flagsC);
      ss := ss + Quoted(definitionPath);
    }
    command := ss;
  }

  /** The language's flags, CXXFLAGS for C++ and CFLAGS for C, each only when non-empty. */
  method AppendLanguageFlag(ss: string, lang: Lang, flagsCxx: string, flagsC: string) returns (next: string)
    ensures next == ss + Piece(if lang == Cpp then flagsCxx else flagsC)
  {
    next := ss;
    if lang == Cpp && flagsCxx != "" {
      next := AppendFlag(next, flagsCxx);
    } else if lang.C? && flagsC != "" {
      next := AppendFlag(next, flagsC);
    } else {
      assert ss + "" == ss;
    }
  }

  /** Streams a non-empty flag and one space; an empty flag adds nothing. */
  method AppendFlag(ss: string, flag: string) returns (next: string)
    ensures next == ss + Piece(flag)
  {
    next := ss;
    if flag != "" {
      next := next + flag;
      next := next + " ";
      Assoc(ss, flag, " ");
    } else {
      assert ss + "" == ss;
    }
  }
}
