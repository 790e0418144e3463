/**
 * `Config::Load` as a function of the configuration before the call, the host
 * state, the path separator and the query outcome: the reference the method
 * is proved against, and the properties of a load stated about it.
 */
module Loading {
  import opened Base
  import opened RezHeader
  import opened Environment
  import opened Resolution
  import opened Toolchain

  /** The fields of `Config`, as a value. */
  datatype ConfigFields = ConfigFields(
    debug: bool,
    cacheDirPath: string,
    cacheFilePath: string,
    windows: bool,
    definitionPath: string,
    definitionLang: Lang,
    compiler: string,
    artifactDirPath: string,
    artifactFilePath: string,
    buildCommand: string)

  /** The initialisers of the declaration. */
  const DefaultFields: ConfigFields := ConfigFields(false, "", "", false, "", Cpp, "", "", "", "")

  /** The fields set before the definition file is looked for. */
  function WithCachePaths(c: ConfigFields, env: Env, sep: char): ConfigFields
  {
    c.(cacheDirPath := CacheDir, cacheFilePath := CacheFilePath(sep), windows := DetectWindowsEnvironment(env))
  }

  /** The definition file, its language, and the compiler chosen for them. */
  function WithDefinition(c: ConfigFields, path: string, lang: Lang, env: Env): ConfigFields
  {
    c.(definitionPath := path, definitionLang := lang, compiler := SelectCompiler(c.windows, lang, env))
  }

  /** The MSVC bootstrap, run only when the compiler is exactly "cl". */
  function MaybeBootstrap(compiler: string, h: HostState, cacheFilePath: string, q: QueryOutcome): Run
  {
    if compiler == DefaultCompilerWindows then Bootstrap(h, cacheFilePath, q) else Run(h, Pass)
  }

  /** The artifact paths and the build command, from the environment after the bootstrap. */
  function WithCommand(c: ConfigFields, env: Env, sep: char): ConfigFields
  {
    var artifactDir := PathJoin(c.cacheDirPath, ArtifactDirBasename, sep);
    var artifact := PathJoin(artifactDir, Executable(c.windows), sep);
    c.(artifactDirPath := artifactDir,
       artifactFilePath := artifact,
       buildCommand := BuildCommand(c.compiler, c.definitionPath, artifact,
                                    NonBlank(env, "CPPFLAGS"), NonBlank(env, LanguageFlagsVariable(c.definitionLang))))
  }

  /** The configuration and the host after `Load`, and its outcome. */
  function Loaded(c: ConfigFields, h: HostState, sep: char, q: QueryOutcome): (ConfigFields, Run)
  {
    var c1 := WithCachePaths(c, h.env, sep);
    match SelectDefinition(h.files.Keys)
    case None => (c1, Run(h, Fail(DefinitionNotFound)))
    case Some((path, lang)) =>
      var c2 := WithDefinition(c1, path, lang, h.env);
      var boot := MaybeBootstrap(c2.compiler, h, c1.cacheFilePath, q);
      if boot.outcome.Fail? then (c2, boot)
      else (WithCommand(c2, boot.host.env, sep), boot)
  }

  /** The cache paths and the Windows flag are always set; debug is never touched. */
  lemma LoadSetsCachePaths(c: ConfigFields, h: HostState, sep: char, q: QueryOutcome)
    ensures var f := Loaded(c, h, sep, q).0;
      && f.debug == c.debug
      && f.cacheDirPath == CacheDir && f.cacheFilePath == CacheFilePath(sep)
      && (f.windows <==> "COMSPEC" in h.env)
  {
  }

  /** Without rez.cpp and rez.c the load fails before the compiler or anything after it is set. */
  lemma LoadWithoutDefinition(c: ConfigFields, h: HostState, sep: char, q: QueryOutcome)
    requires RezDefinitionPathCpp !in h.files && RezDefinitionPathC !in h.files
    ensures var (f, run) := Loaded(c, h, sep, q);
      && run == Run(h, Fail(DefinitionNotFound))
      && f == WithCachePaths(c, h.env, sep)
      && f.definitionPath == c.definitionPath && f.compiler == c.compiler
      && f.buildCommand == c.buildCommand
  {
  }

  /** With a definition file: rez.cpp is preferred, and the compiler is never empty. */
  lemma LoadChoosesDefinitionAndCompiler(c: ConfigFields, h: HostState, sep: char, q: QueryOutcome)
    requires RezDefinitionPathCpp in h.files || RezDefinitionPathC in h.files
    ensures var f := Loaded(c, h, sep, q).0;
      && (f.definitionLang == Cpp <==> RezDefinitionPathCpp in h.files)
      && f.definitionPath == (if RezDefinitionPathCpp in h.files then RezDefinitionPathCpp else RezDefinitionPathC)
      && f.compiler == SelectCompiler(DetectWindowsEnvironment(h.env), f.definitionLang, h.env)
      && f.compiler != ""
  {
  }

  /** The host is touched only when the compiler is exactly "cl", and then by one bootstrap step. */
  lemma LoadBootstrapsOnlyForMsvc(c: ConfigFields, h: HostState, sep: char, q: QueryOutcome)
    requires RezDefinitionPathCpp in h.files || RezDefinitionPathC in h.files
    ensures var (f, run) := Loaded(c, h, sep, q);
      && (f.compiler != DefaultCompilerWindows ==> run == Run(h, Pass))
      && (f.compiler == DefaultCompilerWindows ==> run == Bootstrap(h, CacheFilePath(sep), q))
  {
  }

  /** A failed load leaves the artifact paths and the build command as they were. */
  lemma LoadFailureKeepsOutputs(c: ConfigFields, h: HostState, sep: char, q: QueryOutcome)
    requires Loaded(c, h, sep, q).1.outcome.Fail?
    ensures var f := Loaded(c, h, sep, q).0;
      && f.artifactDirPath == c.artifactDirPath && f.artifactFilePath == c.artifactFilePath
      && f.buildCommand == c.buildCommand
  {
  }

  /**
   * A successful load: the artifact is <cache dir>/bin/delegate-rez, with
   * ".exe" exactly on Windows, and the build command is the words of its shape
   * (MSVC exactly when the compiler is "cl") with the flags of the environment
   * after the bootstrap.
   */
  lemma LoadSuccess(c: ConfigFields, h: HostState, sep: char, q: QueryOutcome)
    requires Loaded(c, h, sep, q).1.outcome.Pass?
    ensures var (f, run) := Loaded(c, h, sep, q);
      && f.artifactDirPath == ArtifactDirPath(sep)
      && f.artifactFilePath == ArtifactFilePath(sep, f.windows)
      && (f.windows <==> EndsWith(f.artifactFilePath, ExecutableSuffix))
      && f.buildCommand == Unwords(CommandWords(f.compiler, f.definitionPath, f.artifactFilePath,
                                                NonBlank(run.host.env, "CPPFLAGS"),
                                                NonBlank(run.host.env, LanguageFlagsVariable(f.definitionLang))))
  {
    var (f, run) := Loaded(c, h, sep, q);
    ArtifactFilePathShape(sep, f.windows);
    BuildCommandWords(f.compiler, f.definitionPath, f.artifactFilePath,
                      NonBlank(run.host.env, "CPPFLAGS"), NonBlank(run.host.env, LanguageFlagsVariable(f.definitionLang)));
  }

  /**
   * A POSIX host with rez.cpp, no override and no flags: no bootstrap, and the
   * command c++ -o .rez/bin/delegate-rez "rez.cpp" (the artifact path spelt out
   * by ArtifactFilePathPosix).
   */
  lemma LoadPosixDefault(c: ConfigFields, env: Env, files: Files, launched: seq<string>, q: QueryOutcome)
    requires RezDefinitionPathCpp in files
    requires "COMSPEC" !in env && "CXX" !in env && "CPPFLAGS" !in env && "CXXFLAGS" !in env
    ensures var h := HostState(env, files, launched);
      var (f, run) := Loaded(c, h, '/', q);
      && run == Run(h, Pass)
      && f.compiler == DefaultCompilerUnixCpp
      && f.buildCommand == "c++ -o " + ArtifactFilePath('/', false) + " \"rez.cpp\""
  {
    var h := HostState(env, files, launched);
    var c1 := WithCachePaths(c, env, '/');
    assert !c1.windows && c1.cacheDirPath == CacheDir;
    assert SelectDefinition(files.Keys) == Some((RezDefinitionPathCpp, Cpp));
    var c2 := WithDefinition(c1, RezDefinitionPathCpp, Cpp, env);
    assert c2.compiler == DefaultCompilerUnixCpp;
    assert DefaultCompilerUnixCpp != DefaultCompilerWindows;
    assert MaybeBootstrap(c2.compiler, h, c1.cacheFilePath, q) == Run(h, Pass);
    assert Loaded(c, h, '/', q) == (WithCommand(c2, env, '/'), Run(h, Pass));
    var artifact := ArtifactFilePath('/', false);
    assert WithCommand(c2, env, '/').buildCommand == BuildCommand(DefaultCompilerUnixCpp, RezDefinitionPathCpp, artifact, "", "");
    PosixDefaultCommand(DefaultCompilerUnixCpp, artifact);
  }

  /**
   * A Windows host with rez.cpp and a cache holding FOO=bar: a hit, no query,
   * FO set to bar, and the command cl "rez.cpp" /link /out:<artifact>.
   */
  lemma LoadMsvcCacheHit(c: ConfigFields, env: Env, files: Files, launched: seq<string>, q: QueryOutcome)
    requires RezDefinitionPathCpp in files
    requires CacheFilePath('\\') in files && files[CacheFilePath('\\')] == ["FOO=bar"]
    requires "COMSPEC" in env && "CXX" !in env && "CPPFLAGS" !in env && "CXXFLAGS" !in env
    ensures var h := HostState(env, files, launched);
      var (f, run) := Loaded(c, h, '\\', q);
      && run == Run(h.(env := env["FO" := "bar"]), Pass)
      && f.compiler == DefaultCompilerWindows
      && f.buildCommand == "cl \"rez.cpp\" /link /out:" + ArtifactFilePath('\\', true)
  {
    var h := HostState(env, files, launched);
    var path := CacheFilePath('\\');
    var f := Loaded(c, h, '\\', q).0;
    assert f.compiler == DefaultCompilerWindows;
    CacheHitExample(h, path, q);
    assert "CPPFLAGS" != "FO" && "CXXFLAGS" != "FO";
    MsvcDefaultCommand(ArtifactFilePath('\\', true));
  }
}
