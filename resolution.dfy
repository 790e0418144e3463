/**
 * The decisions `Config::Load` takes, as pure functions of the environment,
 * the set of existing paths and the platform's path separator: which task
 * definition file, which compiler, which artifact paths, and the exact build
 * command string in its two shapes (MSVC and POSIX).
 */
module Resolution {
  import opened Base
  import opened RezHeader
  import opened Environment

  /** `dir / name` for a relative `name`: the platform separator in between. */
  function PathJoin(dir: string, name: string, sep: char): string
  {
    dir + [sep] + name
  }

  /** The cache file, nested in the cache directory. */
  function CacheFilePath(sep: char): string
  {
    PathJoin(CacheDir, CacheFileBasename, sep)
  }

  /** The artifact directory, a subdirectory of the cache directory. */
  function ArtifactDirPath(sep: char): string
  {
    PathJoin(CacheDir, ArtifactDirBasename, sep)
  }

  /** The suffix `Load` appends to the task binary on Windows (a literal in `Load`, not a header constant). */
  const ExecutableSuffix: string := ".exe"

  /** The basename of the task binary: ".exe" is appended on Windows. */
  function Executable(windows: bool): string
  {
    if windows then ArtifactBinaryUnix + ExecutableSuffix else ArtifactBinaryUnix
  }

  /** The task binary inside the artifact directory. */
  function ArtifactFilePath(sep: char, windows: bool): string
  {
    PathJoin(ArtifactDirPath(sep), Executable(windows), sep)
  }

  /** The task binary lies directly in the artifact directory and ends in ".exe" exactly on Windows. */
  lemma ArtifactFilePathShape(sep: char, windows: bool)
    ensures var p := ArtifactFilePath(sep, windows);
      && |p| > |ArtifactDirPath(sep)| + 1 + |ExecutableSuffix|
      && p[..|ArtifactDirPath(sep)| + 1] == ArtifactDirPath(sep) + [sep]
      && p[|ArtifactDirPath(sep)| + 1..] == Executable(windows)
      && '.' !in p[|ArtifactDirPath(sep)| + 1..|ArtifactDirPath(sep)| + 1 + |ArtifactBinaryUnix|]
      && (windows <==> p[|p| - |ExecutableSuffix|..] == ExecutableSuffix)
  {
    var p := ArtifactFilePath(sep, windows);
    var n := |ArtifactDirPath(sep)| + 1;
    assert p[..n] == ArtifactDirPath(sep) + [sep];
    assert p[n..n + |ArtifactBinaryUnix|] == ArtifactBinaryUnix;
    assert !windows ==> p[|p| - |ExecutableSuffix|..] == "-rez";
  }

  /**
   * The task definition file and its language: rez.cpp when it exists,
   * otherwise rez.c when that exists, otherwise nothing (Load then fails).
   */
  function SelectDefinition(files: set<string>): (r: Option<(string, Lang)>)
    ensures r.Some? <==> RezDefinitionPathCpp in files || RezDefinitionPathC in files
    ensures r.Some? ==> r.value.0 in files
    ensures r.Some? ==> r.value.0 == RezDefinitionPathCpp || r.value.0 == RezDefinitionPathC
    ensures r.Some? ==> (r.value.1 == Cpp <==> r.value.0 == RezDefinitionPathCpp)
    ensures r.Some? && r.value.1 == C ==> RezDefinitionPathCpp !in files
  {
    if RezDefinitionPathCpp in files then Some((RezDefinitionPathCpp, Cpp))
    else if RezDefinitionPathC in files then Some((RezDefinitionPathC, C))
    else None
  }

  /** The value of a variable that is set and non-empty, else the empty string. */
  function NonBlank(env: Env, name: string): (v: string)
    ensures v != "" <==> name in env && env[name] != ""
    ensures v != "" ==> v == env[name]
  {
    match GetEnvironmentVariable(env, name)
    case Some(s) => if s != "" then s else ""
    case None => ""
  }

  /** The platform default: MSVC on Windows, else the UNIX driver of the language. */
  function DefaultCompiler(windows: bool, lang: Lang): (c: string)
    ensures c != ""
    ensures windows ==> c == DefaultCompilerWindows
    ensures !windows ==> c != DefaultCompilerWindows
    ensures !windows ==> (c == DefaultCompilerUnixCpp <==> lang == Cpp)
    ensures !windows ==> (c == DefaultCompilerUnixC <==> lang.C?)
  {
    assert |DefaultCompilerUnixCpp| != |DefaultCompilerWindows| && |DefaultCompilerUnixCpp| != |DefaultCompilerUnixC|;
    assert DefaultCompilerUnixC[1] != DefaultCompilerWindows[1];
    if windows then DefaultCompilerWindows
    else if lang == Cpp then DefaultCompilerUnixCpp
    else DefaultCompilerUnixC
  }

  /** The variable that overrides the compiler: CXX for C++, CC for C. */
  function CompilerOverrideVariable(lang: Lang): (name: string)
    ensures name == "CXX" <==> lang == Cpp
    ensures name == "CC" <==> lang.C?
  {
    assert |"CXX"| != |"CC"|;
    if lang == Cpp then "CXX" else "CC"
  }

  /** The language-specific flags variable: CXXFLAGS for C++, CFLAGS for C. */
  function LanguageFlagsVariable(lang: Lang): (name: string)
    ensures name == "CXXFLAGS" <==> lang == Cpp
    ensures name == "CFLAGS" <==> lang.C?
  {
    assert |"CXXFLAGS"| != |"CFLAGS"|;
    if lang == Cpp then "CXXFLAGS" else "CFLAGS"
  }

  /**
   * The compiler: the override variable of the language when it is set and
   * non-empty (on Windows too), otherwise the platform default. Never empty.
   */
  function SelectCompiler(windows: bool, lang: Lang, env: Env): (c: string)
    ensures c != ""
    ensures NonBlank(env, CompilerOverrideVariable(lang)) != "" ==> c == env[CompilerOverrideVariable(lang)]
    ensures NonBlank(env, CompilerOverrideVariable(lang)) == "" ==> c == DefaultCompiler(windows, lang)
  {
    var o := NonBlank(env, CompilerOverrideVariable(lang));
    if o != "" then o else DefaultCompiler(windows, lang)
  }

  /** The characters `std::quoted` prefixes with a backslash. */
  predicate NeedsEscape(ch: char)
  {
    ch == '"' || ch == '\\'
  }

  /** The escaping `std::quoted` applies between its delimiters. */
  function Escape(s: string): string
  {
    if s == [] then []
    else (if NeedsEscape(s[0]) then ['\\', s[0]] else [s[0]]) + Escape(s[1..])
  }

  /** A string with neither '"' nor '\\' is left as it is. */
  lemma {:induction false} EscapePlain(s: string)
    requires forall i :: 0 <= i < |s| ==> !NeedsEscape(s[i])
    ensures Escape(s) == s
  {
    if s != [] {
      EscapePlain(s[1..]);
    }
  }

  /** What extraction through `std::quoted` does with the text between the delimiters. */
  function Unescape(s: string): string
  {
    if s == [] then []
    else if s[0] == '\\' && |s| > 1 then [s[1]] + Unescape(s[2..])
    else [s[0]] + Unescape(s[1..])
  }

  lemma {:induction false} UnescapeEscape(s: string)
    ensures Unescape(Escape(s)) == s
  {
    if s != [] {
      var rest := Escape(s[1..]);
      UnescapeEscape(s[1..]);
      if NeedsEscape(s[0]) {
        assert Escape(s) == ['\\', s[0]] + rest;
        assert (['\\', s[0]] + rest)[2..] == rest;
      } else {
        assert Escape(s) == [s[0]] + rest;
        assert ([s[0]] + rest)[1..] == rest;
      }
    }
  }

  /**
   * What streaming a `std::filesystem::path` writes: the path through
   * `std::quoted`, that is, in double quotes with '"' and '\' escaped.
   */
  function Quoted(s: string): string
  {
    "\"" + Escape(s) + "\""
  }

  /** A flag string followed by its one separating space; an empty flag contributes nothing. */
  function Piece(flag: string): string
  {
    if flag == "" then "" else flag + " "
  }

  /**
   * The build command as `Config::Load` streams it. The MSVC shape is chosen
   * exactly when the compiler is "cl"; the artifact path is written unquoted,
   * the definition path quoted.
   */
  function BuildCommand(compiler: string, definition: string, artifact: string,
                        flagsCpp: string, flagsLang: string): string
  {
    if compiler == DefaultCompilerWindows then
      compiler + " " + Piece(flagsCpp) + Piece(flagsLang) + Quoted(definition) + " /link /out:" + artifact
    else
      compiler + " " + "-o " + artifact + " " + Piece(flagsCpp) + Piece(flagsLang) + Quoted(definition)
  }

  // An independent reading of the command: a list of words joined by single spaces.

  /** The words joined by single spaces. */
  function Unwords(ws: seq<string>): string
  {
    if |ws| == 0 then ""
    else if |ws| == 1 then ws[0]
    else ws[0] + " " + Unwords(ws[1..])
  }

  /** The non-empty words, in order. */
  function NonEmptyWords(ws: seq<string>): (r: seq<string>)
    ensures |r| <= |ws|
    ensures forall i :: 0 <= i < |r| ==> r[i] != ""
    ensures forall w :: w in r <==> w in ws && w != ""
  {
    if ws == [] then []
    else (if ws[0] == "" then [] else [ws[0]]) + NonEmptyWords(ws[1..])
  }

  /** The concatenation of a piece per flag. */
  function Pieces(fs: seq<string>): string
  {
    if fs == [] then "" else Piece(fs[0]) + Pieces(fs[1..])
  }

  /**
   * The words of the build command: MSVC places the flags after the compiler
   * and the link options last; POSIX places "-o artifact" first and the
   * definition last. Empty flags are not words.
   */
  function CommandWords(compiler: string, definition: string, artifact: string,
                        flagsCpp: string, flagsLang: string): seq<string>
  {
    var flags := NonEmptyWords([flagsCpp, flagsLang]);
    if compiler == DefaultCompilerWindows then
      [compiler] + flags + [Quoted(definition), "/link", "/out:" + artifact]
    else
      [compiler, "-o", artifact] + flags + [Quoted(definition)]
  }

  lemma UnwordsCons(w: string, rest: seq<string>)
    requires rest != []
    ensures Unwords([w] + rest) == w + " " + Unwords(rest)
  {
    assert ([w] + rest)[1..] == rest;
  }

  lemma {:induction false} UnwordsNonEmpty(fs: seq<string>, rest: seq<string>)
    requires rest != []
    ensures Unwords(NonEmptyWords(fs) + rest) == Pieces(fs) + Unwords(rest)
  {
    if fs == [] {
      assert NonEmptyWords(fs) + rest == rest;
    } else {
      UnwordsNonEmpty(fs[1..], rest);
      var tail := NonEmptyWords(fs[1..]) + rest;
      if fs[0] == "" {
        assert NonEmptyWords(fs) + rest == tail;
      } else {
        Assoc([fs[0]], NonEmptyWords(fs[1..]), rest);
        UnwordsCons(fs[0], tail);
        Assoc(fs[0] + " ", Pieces(fs[1..]), Unwords(rest));
      }
    }
  }

  /** The flags contribute a piece each: the concatenation is fixed by the two of them. */
  lemma PiecesOfFlags(flagsCpp: string, flagsLang: string)
    ensures Pieces([flagsCpp, flagsLang]) == Piece(flagsCpp) + Piece(flagsLang)
  {
    var fs := [flagsCpp, flagsLang];
    assert fs[1..] == [flagsLang] && [flagsLang][1..] == [];
    assert Pieces([flagsLang]) == Piece(flagsLang) + Pieces([]);
  }

  lemma MsvcTailWords(q: string, artifact: string)
    ensures Unwords([q, "/link", "/out:" + artifact]) == q + " /link /out:" + artifact
  {
    UnwordsCons(q, ["/link", "/out:" + artifact]);
    UnwordsCons("/link", ["/out:" + artifact]);
    assert [q] + ["/link", "/out:" + artifact] == [q, "/link", "/out:" + artifact];
    assert ["/link"] + ["/out:" + artifact] == ["/link", "/out:" + artifact];
    Assoc(q, " ", "/link" + " " + ("/out:" + artifact));
    Assoc("/link", " ", "/out:" + artifact);
    assert " " + ("/link" + (" " + ("/out:" + artifact))) == " /link /out:" + artifact;
    Assoc(q, " /link /out:", artifact);
  }

  /** The MSVC command is its words joined by single spaces. */
  lemma MsvcCommandWords(definition: string, artifact: string, flagsCpp: string, flagsLang: string)
    ensures BuildCommand(DefaultCompilerWindows, definition, artifact, flagsCpp, flagsLang)
         == Unwords(CommandWords(DefaultCompilerWindows, definition, artifact, flagsCpp, flagsLang))
  {
    var compiler := DefaultCompilerWindows;
    var fs := [flagsCpp, flagsLang];
    var flags := NonEmptyWords(fs);
    var q := Quoted(definition);
    var tail := [q, "/link", "/out:" + artifact];
    var t := q + " /link /out:" + artifact;
    MsvcTailWords(q, artifact);
    PiecesOfFlags(flagsCpp, flagsLang);
    UnwordsNonEmpty(fs, tail);
    UnwordsCons(compiler, flags + tail);
    assert [compiler] + flags + tail == [compiler] + (flags + tail);
    var p1, p2 := Piece(flagsCpp), Piece(flagsLang);
    // compiler + " " + (p1 + p2 + t) regrouped to the left, as BuildCommand writes it
    Assoc(compiler + " ", p1 + p2, t);
    Assoc(compiler + " ", p1, p2);
    Assoc(compiler + " " + p1 + p2, q + " /link /out:", artifact);
    Assoc(compiler + " " + p1 + p2, q, " /link /out:");
  }

  /** The POSIX command is its words joined by single spaces. */
  lemma PosixCommandWords(compiler: string, definition: string, artifact: string,
                          flagsCpp: string, flagsLang: string)
    requires compiler != DefaultCompilerWindows
    ensures BuildCommand(compiler, definition, artifact, flagsCpp, flagsLang)
         == Unwords(CommandWords(compiler, definition, artifact, flagsCpp, flagsLang))
  {
    var fs := [flagsCpp, flagsLang];
    var flags := NonEmptyWords(fs);
    var q := Quoted(definition);
    var tail := [q];
    PiecesOfFlags(flagsCpp, flagsLang);
    UnwordsNonEmpty(fs, tail);
    UnwordsCons(artifact, flags + tail);
    UnwordsCons("-o", [artifact] + (flags + tail));
    UnwordsCons(compiler, ["-o"] + ([artifact] + (flags + tail)));
    assert [compiler, "-o", artifact] + flags + tail == [compiler] + (["-o"] + ([artifact] + (flags + tail)));
    var p1, p2 := Piece(flagsCpp), Piece(flagsLang);
    var u := p1 + p2 + q;
    // compiler + " " + ("-o" + " " + (artifact + " " + u)) regrouped to the left
    Assoc(compiler + " ", "-o" + " ", artifact + " " + u);
    Assoc(compiler + " ", "-o", " ");
    Assoc(compiler + " " + "-o" + " ", artifact + " ", u);
    Assoc(compiler + " " + "-o" + " ", artifact, " ");
    Assoc(compiler + " ", "-o", " ");
    assert "-o" + " " == "-o ";
    Assoc(compiler + " " + "-o " + artifact + " ", p1 + p2, q);
    Assoc(compiler + " " + "-o " + artifact + " ", p1, p2);
  }

  /** Each non-empty flag is one word: the command is its words joined by single spaces. */
  lemma BuildCommandWords(compiler: string, definition: string, artifact: string,
                          flagsCpp: string, flagsLang: string)
    ensures BuildCommand(compiler, definition, artifact, flagsCpp, flagsLang)
         == Unwords(CommandWords(compiler, definition, artifact, flagsCpp, flagsLang))
  {
    if compiler == DefaultCompilerWindows {
      MsvcCommandWords(definition, artifact, flagsCpp, flagsLang);
    } else {
      PosixCommandWords(compiler, definition, artifact, flagsCpp, flagsLang);
    }
  }

  /** The definition paths need no escaping, so they are written in plain double quotes. */
  lemma QuotedDefinition(path: string)
    requires path == RezDefinitionPathCpp || path == RezDefinitionPathC
    ensures Quoted(path) == "\"" + path + "\""
  {
    forall i | 0 <= i < |path| ensures !NeedsEscape(path[i]) {
      assert path[i] in "rez.cp";
    }
    EscapePlain(path);
  }

  /** rez.cpp as it appears in a command. */
  lemma QuotedCpp()
    ensures Quoted(RezDefinitionPathCpp) == "\"rez.cpp\""
  {
    QuotedDefinition(RezDefinitionPathCpp);
    assert "\"" + "rez.cpp" == "\"rez.cpp";
    assert "\"rez.cpp" + "\"" == "\"rez.cpp\"";
  }

  /** rez.c as it appears in a command. */
  lemma QuotedC()
    ensures Quoted(RezDefinitionPathC) == "\"rez.c\""
  {
    QuotedDefinition(RezDefinitionPathC);
    assert "\"" + "rez.c" == "\"rez.c";
    assert "\"rez.c" + "\"" == "\"rez.c\"";
  }

  /** The cache file with '/' as the separator. */
  lemma CacheFilePathPosix()
    ensures CacheFilePath('/') == ".rez/rez-env.txt"
  {
    assert ".rez" + ['/'] == ".rez/";
  }

  /** The task binary on a POSIX host. */
  lemma ArtifactFilePathPosix()
    ensures ArtifactFilePath('/', false) == ".rez/bin/delegate-rez"
  {
    assert ArtifactDirPath('/') == ".rez/bin";
    assert ".rez/bin" + ['/'] == ".rez/bin/";
  }

  /** The task binary on a Windows host whose paths use '\'. */
  lemma ArtifactFilePathWindows()
    ensures ArtifactFilePath('\\', true) == ".rez\\bin\\delegate-rez.exe"
  {
    assert ArtifactDirPath('\\') == ".rez\\bin";
    assert ".rez\\bin" + ['\\'] == ".rez\\bin\\";
    assert ArtifactBinaryUnix + ExecutableSuffix == "delegate-rez.exe";
  }

  /** The compilers chosen without and with an override. */
  lemma CompilerExamples()
    ensures SelectCompiler(false, Cpp, map[]) == "c++"
    ensures SelectCompiler(false, C, map[]) == "cc"
    ensures SelectCompiler(true, Cpp, map[]) == "cl"
    ensures SelectCompiler(true, Cpp, map["CXX" := "clang++"]) == "clang++"
    ensures SelectCompiler(false, C, map["CC" := "", "CXX" := "g++"]) == "cc"
  {
  }

  /** No flags, rez.cpp on a POSIX host: c++ -o .rez/bin/delegate-rez "rez.cpp" with the default compiler. */
  lemma PosixDefaultCommand(compiler: string, artifact: string)
    requires compiler != DefaultCompilerWindows
    ensures BuildCommand(compiler, RezDefinitionPathCpp, artifact, "", "")
         == compiler + " -o " + artifact + " \"rez.cpp\""
  {
    QuotedCpp();
    Assoc(compiler, " ", "-o ");
    assert " " + "-o " == " -o ";
    Assoc(compiler + " -o " + artifact, " ", "\"rez.cpp\"");
    assert " " + "\"rez.cpp\"" == " \"rez.cpp\"";
  }

  /** No flags, rez.cpp on a Windows host: cl "rez.cpp" /link /out:.rez\bin\delegate-rez.exe with the default artifact. */
  lemma MsvcDefaultCommand(artifact: string)
    ensures BuildCommand(DefaultCompilerWindows, RezDefinitionPathCpp, artifact, "", "")
         == "cl \"rez.cpp\" /link /out:" + artifact
  {
    QuotedCpp();
    assert "cl" + " " == "cl ";
    assert "cl " + "\"rez.cpp\"" == "cl \"rez.cpp\"";
    assert "cl \"rez.cpp\"" + " /link /out:" == "cl \"rez.cpp\" /link /out:";
  }

  /** Both flag variables set: each flag is followed by exactly one space. */
  lemma PosixCommandWithFlags(compiler: string, definition: string, artifact: string,
                              flagsCpp: string, flagsLang: string)
    requires compiler != DefaultCompilerWindows && flagsCpp != "" && flagsLang != ""
    ensures BuildCommand(compiler, definition, artifact, flagsCpp, flagsLang)
         == compiler + " -o " + artifact + " " + flagsCpp + " " + flagsLang + " " + Quoted(definition)
  {
    Assoc(compiler, " ", "-o ");
    assert " " + "-o " == " -o ";
    var h := compiler + " -o " + artifact + " ";
    Assoc(h, flagsCpp, " ");
    Assoc(h + flagsCpp + " ", flagsLang, " ");
  }
}
