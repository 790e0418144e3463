/**
 * The MSVC environment-cache protocol of `Config::ApplyMSVCToolchain` as pure
 * functions of the host state: the cache hit/miss decision, the query command,
 * the filtering of the query output, the split of a cache line into a
 * `setenv` name and value (with the `size_t` arithmetic of the source), the
 * in-order application of the cache lines, and the whole bootstrap step.
 */
module Toolchain {
  import opened Base
  import opened RezHeader
  import opened Environment

  /** What running the query gives: popen fails, or the process prints lines and exits. */
  datatype QueryOutcome = LaunchFailed | Exited(output: seq<string>, status: int)

  /** The files of the working tree: a path is present iff it exists; its contents as lines. */
  type Files = map<string, seq<string>>

  /** The part of the host the resolver reads and changes; `launched` logs every attempted popen, failed or not. */
  datatype HostState = HostState(env: Env, files: Files, launched: seq<string>)

  /** A bootstrap step: the host afterwards and whether it succeeded. */
  datatype Run = Run(host: HostState, outcome: Outcome<Error>)

  // ---------------------------------------------------------------- the query

  /** The query script: REZ_TOOLCHAIN_QUERY_PATH whenever it is set, even to "", else vcvarsall. */
  function QueryScript(env: Env): (script: string)
    ensures "REZ_TOOLCHAIN_QUERY_PATH" in env ==> script == env["REZ_TOOLCHAIN_QUERY_PATH"]
    ensures "REZ_TOOLCHAIN_QUERY_PATH" !in env ==> script == DefaultMSVCToolchainQueryScript
  {
    match GetEnvironmentVariable(env, "REZ_TOOLCHAIN_QUERY_PATH")
    case Some(s) => s
    case None => DefaultMSVCToolchainQueryScript
  }

  /** The target architecture: REZ_ARCH whenever it is set, even to "", else x64. */
  function QueryArch(env: Env): (arch: string)
    ensures "REZ_ARCH" in env ==> arch == env["REZ_ARCH"]
    ensures "REZ_ARCH" !in env ==> arch == ArchitectureMsvcAmd64
  {
    match GetEnvironmentVariable(env, "REZ_ARCH")
    case Some(s) => s
    case None => ArchitectureMsvcAmd64
  }

  const QueryPrefix: string := "cmd.exe /c \"\""
  const QueryInfix: string := "\" "
  const QuerySuffix: string := " && set\""

  /** cmd.exe /c ""<script>" <arch> && set" — the script quoted, the whole command quoted again for cmd. */
  function QueryCommand(script: string, arch: string): string
  {
    QueryPrefix + script + QueryInfix + arch + QuerySuffix
  }

  /** Recovers the script and the architecture from a query command. */
  function ParseQueryCommand(command: string): Option<(string, string)>
  {
    if |command| < |QueryPrefix| + |QuerySuffix| then None
    else if command[..|QueryPrefix|] != QueryPrefix then None
    else if command[|command| - |QuerySuffix|..] != QuerySuffix then None
    else
      var body := command[|QueryPrefix|..|command| - |QuerySuffix|];
      match IndexOf(body, '"')
      case None => None
      case Some(i) =>
        if i + 1 < |body| && body[i + 1] == ' ' then Some((body[..i], body[i + 2..])) else None
  }

  lemma QueryCommandPieces(script: string, arch: string)
    ensures var c := QueryCommand(script, arch);
      && |c| == |QueryPrefix| + |script| + 2 + |arch| + |QuerySuffix|
      && c[..|QueryPrefix|] == QueryPrefix
      && c[|c| - |QuerySuffix|..] == QuerySuffix
      && c[|QueryPrefix|..|c| - |QuerySuffix|] == script + QueryInfix + arch
  {
    var c := QueryCommand(script, arch);
    var body := script + QueryInfix + arch;
    assert c == QueryPrefix + body + QuerySuffix;
  }

  /** A script without '"' is recovered, with the architecture, from the command built from it. */
  lemma QueryCommandRoundTrip(script: string, arch: string)
    requires '"' !in script
    ensures ParseQueryCommand(QueryCommand(script, arch)) == Some((script, arch))
  {
    QueryCommandPieces(script, arch);
    var body := script + QueryInfix + arch;
    assert body[|script|] == '"' && body[..|script|] == script;
    assert body[|script| + 2..] == arch;
    assert IndexOf(body, '"') == Some(|script|);
  }

  /** A string free of '"' stays free of it when another such string is appended. */
  lemma UnquotedAppend(a: string, b: string)
    requires '"' !in a && '"' !in b
    ensures '"' !in a + b
  {
  }

  /** The Visual Studio 2019 vcvarsall path holds no '"'. */
  lemma DefaultScriptUnquoted()
    ensures '"' !in DefaultMSVCToolchainQueryScript
  {
    var p1 := "C:\\Program Files (x86)\\";
    var p2 := "Microsoft Visual Studio\\";
    var p3 := "2019\\Community\\VC\\";
    var p4 := "Auxiliary\\Build\\vcvarsall.bat";
    assert forall i :: 0 <= i < |p1| ==> p1[i] != '"';
    assert forall i :: 0 <= i < |p2| ==> p2[i] != '"';
    assert forall i :: 0 <= i < |p3| ==> p3[i] != '"';
    assert forall i :: 0 <= i < |p4| ==> p4[i] != '"';
    UnquotedAppend(p1, p2);
    UnquotedAppend(p1 + p2, p3);
    UnquotedAppend(p1 + p2 + p3, p4);
    assert DefaultMSVCToolchainQueryScript == p1 + p2 + p3 + p4;
  }

  /** Without REZ_TOOLCHAIN_QUERY_PATH the query command parses back to vcvarsall and the architecture. */
  lemma DefaultQueryCommandParses(arch: string)
    ensures ParseQueryCommand(QueryCommand(DefaultMSVCToolchainQueryScript, arch))
         == Some((DefaultMSVCToolchainQueryScript, arch))
  {
    DefaultScriptUnquoted();
    QueryCommandRoundTrip(DefaultMSVCToolchainQueryScript, arch);
  }

  /** Whatever parses as a query command is the command built from its parts. */
  lemma ParseQueryCommandSound(command: string)
    requires ParseQueryCommand(command).Some?
    ensures var (script, arch) := ParseQueryCommand(command).value;
      '"' !in script && QueryCommand(script, arch) == command
  {
    var n := |command| - |QuerySuffix|;
    var body := command[|QueryPrefix|..n];
    var i := IndexOf(body, '"').value;
    assert body[i..i + 2] == QueryInfix by {
      assert body[i..i + 2] == [body[i], body[i + 1]];
    }
    SplitThree(body, i, i + 2);
    SplitThree(command, |QueryPrefix|, n);
    var script, arch := body[..i], body[i + 2..];
    calc {
      QueryCommand(script, arch);
      QueryPrefix + script + QueryInfix + arch + QuerySuffix;
      { Assoc(QueryPrefix + script, QueryInfix, arch);
        Assoc(QueryPrefix, script, QueryInfix + arch); }
      QueryPrefix + (script + QueryInfix + arch) + QuerySuffix;
      QueryPrefix + body + QuerySuffix;
      command;
    }
  }


  // ---------------------------------------------------------------- the filter

  /** The query output lines that contain '=', verbatim and in order. */
  function Assignments(output: seq<string>): (r: seq<string>)
    ensures |r| <= |output|
    ensures forall i :: 0 <= i < |r| ==> '=' in r[i]
    ensures forall l :: l in r <==> l in output && '=' in l
  {
    if output == [] then []
    else (if '=' in output[0] then [output[0]] else []) + Assignments(output[1..])
  }

  /** Filtering distributes over concatenation: the order of the output is kept. */
  lemma {:induction false} AssignmentsAppend(a: seq<string>, b: seq<string>)
    ensures Assignments(a + b) == Assignments(a) + Assignments(b)
  {
    if a == [] {
      assert a + b == b;
    } else {
      assert (a + b)[0] == a[0] && (a + b)[1..] == a[1..] + b;
      AssignmentsAppend(a[1..], b);
    }
  }

  // ---------------------------------------------------------------- the split

  /** 2^64: `size_t` arithmetic wraps modulo this. */
  const SizeModulus: int := 0x1_0000_0000_0000_0000

  /** `std::string::npos`, the largest `size_t`. */
  const Npos: int := SizeModulus - 1

  /** The wrap-arounds the split relies on. */
  lemma SizeArithmetic(j: int)
    requires 0 <= j < Npos
    ensures (Npos - 1) % SizeModulus == Npos - 1 && (Npos + 1) % SizeModulus == 0
    ensures (j + 1) % SizeModulus == j + 1
    ensures j >= 1 ==> (j - 1) % SizeModulus == j - 1
    ensures j == 0 ==> (j - 1) % SizeModulus == Npos
  {
  }

  /** `std::string::find`: the first index of `c`, or npos. */
  function Find(s: string, c: char): (j: int)
    ensures c in s ==> 0 <= j < |s| && s[j] == c && c !in s[..j]
    ensures c !in s ==> j == Npos
  {
    match IndexOf(s, c)
    case Some(i) => i
    case None => Npos
  }

  /** `std::string::substr(pos, count)`: at most `count` characters from `pos`. */
  function Substr(s: string, pos: nat, count: nat): string
    requires pos <= |s|
  {
    if count < |s| - pos then s[pos..pos + count] else s[pos..]
  }

  /**
   * The name and value the source hands to setenv: with j the first '=',
   * `line.substr(0, j - 1)` and `line.substr(j + 1, line.size())`, both
   * positions computed in `size_t`.
   */
  function SplitAssignment(line: string): (string, string)
  {
    var j := Find(line, '=');
    var count := (j - 1) % SizeModulus;
    var pos := (j + 1) % SizeModulus;
    assert pos <= |line| by {
      if j < Npos { assert pos == j + 1 || pos == 0; }
    }
    (Substr(line, 0, count), Substr(line, pos, |line|))
  }

  function Key(line: string): string { SplitAssignment(line).0 }

  function Value(line: string): string { SplitAssignment(line).1 }

  /**
   * The three cases of the split. With '=' at j >= 1 the name is the text
   * before '=' WITHOUT its last character; with '=' first, j - 1 wraps to npos
   * and the name is the whole line; without '=', j + 1 wraps to 0 and both
   * name and value are the whole line.
   */
  lemma SplitAssignmentCases(line: string)
    requires |line| < Npos
    ensures '=' in line && Find(line, '=') >= 1 ==>
      var j := Find(line, '=');
      Key(line) == line[..j - 1] && Value(line) == line[j + 1..]
    ensures '=' in line && Find(line, '=') == 0 ==> Key(line) == line && Value(line) == line[1..]
    ensures '=' !in line ==> Key(line) == line && Value(line) == line
  {
    var j := Find(line, '=');
    if '=' in line {
      SizeArithmetic(j);
    } else {
      SizeArithmetic(0);
    }
  }

  /**
   * setenv accepts the name exactly when the first '=' is at index 2 or later,
   * or when the line is non-empty and has no '=' at all (it then sets the
   * line's text as a variable whose value is that same text).
   */
  lemma {:induction false} KeyValidIff(line: string)
    requires |line| < Npos
    ensures ValidName(Key(line)) <==> ('=' in line && Find(line, '=') >= 2) || ('=' !in line && line != "")
  {
    SplitAssignmentCases(line);
    if '=' in line {
      var j := Find(line, '=');
      if j >= 2 {
        assert Key(line) == line[..j][..j - 1];
      } else if j == 1 {
        assert Key(line) == "";
      } else {
        assert Key(line)[0] == '=';
      }
    }
  }

  /** The off-by-one the source has: "FOO=bar" sets FO, not FOO. */
  lemma SplitDropsCharacterBeforeEquals()
    ensures Key("FOO=bar") == "FO" && Value("FOO=bar") == "bar"
  {
    var line := "FOO=bar";
    assert line[3] == '=' && '=' !in line[..3];
    SplitAssignmentCases(line);
  }

  /** A one-letter name before '=' becomes the empty name, which setenv refuses. */
  lemma SplitOneLetterName()
    ensures Key("A=1") == "" && !ValidName(Key("A=1"))
  {
    var line := "A=1";
    assert line[1] == '=' && '=' !in line[..1];
    SplitAssignmentCases(line);
  }

  // ---------------------------------------------------------------- applying

  /** The environment after the applied lines, and whether every line was accepted. */
  datatype Applied = Applied(env: Env, outcome: Outcome<Error>)

  /**
   * The getline/setenv loop: each line in order sets its name to its value,
   * overwriting; the first line setenv refuses ends the loop with that line and
   * the errno, the lines before it staying applied.
   */
  function ApplyLines(env: Env, lines: seq<string>): (r: Applied)
    ensures env.Keys <= r.env.Keys
    ensures r.env.Keys <= env.Keys + set l | l in lines :: Key(l)
    ensures r.outcome.Fail? ==>
      && r.outcome.error.EnvironmentApplyFailure?
      && r.outcome.error.line in lines && r.outcome.error.errno == EINVAL
      && !ValidName(Key(r.outcome.error.line))
    decreases |lines|
  {
    if lines == [] then Applied(env, Pass)
    else
      match SetEnv(env, Key(lines[0]), Value(lines[0]))
      case Errno(code) => Applied(env, Fail(EnvironmentApplyFailure(lines[0], code)))
      case Updated(next) =>
        var r := ApplyLines(next, lines[1..]);
        assert forall l | l in lines[1..] :: l in lines;
        r
  }

  /** Every line is accepted exactly when every line's name is valid. */
  lemma {:induction false} ApplyLinesSucceedsIff(env: Env, lines: seq<string>)
    ensures ApplyLines(env, lines).outcome.Pass? <==> forall i :: 0 <= i < |lines| ==> ValidName(Key(lines[i]))
    decreases |lines|
  {
    if lines != [] {
      var s := SetEnv(env, Key(lines[0]), Value(lines[0]));
      if s.Updated? {
        ApplyLinesSucceedsIff(s.env, lines[1..]);
        assert forall i :: 1 <= i < |lines| ==> lines[i] == lines[1..][i - 1];
      }
    }
  }

  /** The lines before the first refused one are applied, that one is reported, none after it is applied. */
  lemma {:induction false} ApplyLinesStopsAtFirstFailure(env: Env, lines: seq<string>, i: nat)
    requires i < |lines| && !ValidName(Key(lines[i]))
    requires forall k :: 0 <= k < i ==> ValidName(Key(lines[k]))
    ensures ApplyLines(env, lines)
         == Applied(ApplyLines(env, lines[..i]).env, Fail(EnvironmentApplyFailure(lines[i], EINVAL)))
    decreases |lines|
  {
    if i > 0 {
      var s := SetEnv(env, Key(lines[0]), Value(lines[0]));
      assert lines[1..][..i - 1] == lines[..i][1..];
      ApplyLinesStopsAtFirstFailure(s.env, lines[1..], i - 1);
    }
  }

  /** Applying a concatenation applies the first part, then, if it all succeeded, the second. */
  lemma {:induction false} ApplyLinesAppend(env: Env, a: seq<string>, b: seq<string>)
    ensures ApplyLines(env, a + b)
         == (var r := ApplyLines(env, a); if r.outcome.Pass? then ApplyLines(r.env, b) else r)
    decreases |a|
  {
    if a == [] {
      assert a + b == b;
    } else {
      assert (a + b)[0] == a[0] && (a + b)[1..] == a[1..] + b;
      var s := SetEnv(env, Key(a[0]), Value(a[0]));
      if s.Updated? {
        ApplyLinesAppend(s.env, a[1..], b);
      }
    }
  }

  /** A name no line assigns keeps its presence and its value, whatever the outcome. */
  lemma {:induction false} ApplyLinesUntouched(env: Env, lines: seq<string>, k: string)
    requires forall i :: 0 <= i < |lines| ==> Key(lines[i]) != k
    ensures k in ApplyLines(env, lines).env <==> k in env
    ensures k in env ==> ApplyLines(env, lines).env[k] == env[k]
    decreases |lines|
  {
    if lines != [] {
      var s := SetEnv(env, Key(lines[0]), Value(lines[0]));
      if s.Updated? {
        ApplyLinesUntouched(s.env, lines[1..], k);
      }
    }
  }

  /** setenv overwrites: after every line is accepted, a name holds the value of its last line. */
  lemma {:induction false} ApplyLinesLastWins(env: Env, lines: seq<string>, i: nat)
    requires ApplyLines(env, lines).outcome.Pass?
    requires i < |lines|
    requires forall k :: i < k < |lines| ==> Key(lines[k]) != Key(lines[i])
    ensures Key(lines[i]) in ApplyLines(env, lines).env
    ensures ApplyLines(env, lines).env[Key(lines[i])] == Value(lines[i])
    decreases |lines|
  {
    var s := SetEnv(env, Key(lines[0]), Value(lines[0]));
    if i == 0 {
      ApplyLinesUntouched(s.env, lines[1..], Key(lines[0]));
    } else {
      ApplyLinesLastWins(s.env, lines[1..], i - 1);
    }
  }

  // ---------------------------------------------------------------- the cache

  /** The query runs when the cache has no size (it does not exist) or size 0 (no lines). */
  predicate CacheMiss(files: Files, path: string)
  {
    path !in files || files[path] == []
  }

  /** The lines a getline loop reads from the cache; a stream that failed to open reads none. */
  function CacheLines(files: Files, path: string): seq<string>
  {
    if path in files then files[path] else []
  }

  /** Writes through the cache stream: they reach an existing file only (an in|out open creates nothing). */
  function AppendToCache(files: Files, path: string, lines: seq<string>): (r: Files)
    ensures r.Keys == files.Keys
    ensures path in files ==> r[path] == files[path] + lines
    ensures forall p :: p in files && p != path ==> r[p] == files[p]
  {
    if path in files then files[path := files[path] + lines] else files
  }

  /** Writing nothing leaves the files as they are. */
  lemma AppendToCacheNothing(files: Files, path: string)
    ensures AppendToCache(files, path, []) == files
  {
    if path in files {
      assert files[path] + [] == files[path];
    }
  }

  /** One more filtered line: written to the cache when it holds '=' and the cache exists. */
  lemma AppendToCacheStep(files: Files, path: string, lines: seq<string>, line: string)
    ensures var f := AppendToCache(files, path, lines);
      AppendToCache(files, path, lines + (if '=' in line then [line] else []))
      == if '=' in line && path in f then f[path := f[path] + [line]] else f
  {
    if '=' in line && path in files {
      Assoc(files[path], lines, [line]);
    } else {
      assert lines + [] == lines;
    }
  }

  /** The filter over one more line of output. */
  lemma AssignmentsStep(output: seq<string>, i: nat)
    requires i < |output|
    ensures Assignments(output[..i + 1])
         == Assignments(output[..i]) + (if '=' in output[i] then [output[i]] else [])
  {
    assert output[..i + 1] == output[..i] + [output[i]];
    AssignmentsAppend(output[..i], [output[i]]);
    assert [output[i]][1..] == [];
  }

  /** The getline/setenv loop over the cache file. */
  function ApplyCache(h: HostState, path: string): Run
  {
    var a := ApplyLines(h.env, CacheLines(h.files, path));
    Run(h.(env := a.env), a.outcome)
  }

  /**
   * One call of ApplyMSVCToolchain. On a miss the query is launched (and
   * logged); a launch failure aborts; otherwise the lines with '=' go to the
   * cache, a non-zero status aborts, and the cache is applied. On a hit the
   * cache is applied directly.
   */
  function Bootstrap(h: HostState, path: string, q: QueryOutcome): Run
  {
    if CacheMiss(h.files, path) then
      var command := QueryCommand(QueryScript(h.env), QueryArch(h.env));
      var launched := h.(launched := h.launched + [command]);
      match q
      case LaunchFailed => Run(launched, Fail(QueryLaunchFailure(command)))
      case Exited(output, status) =>
        var written := launched.(files := AppendToCache(h.files, path, Assignments(output)));
        if status != 0 then Run(written, Fail(QueryExecutionFailure(command, status)))
        else ApplyCache(written, path)
    else ApplyCache(h, path)
  }

  /** A hit launches nothing, writes nothing, and applies the cache as it is. */
  lemma BootstrapHit(h: HostState, path: string, q: QueryOutcome)
    requires !CacheMiss(h.files, path)
    ensures var r := Bootstrap(h, path, q);
      && r.host.launched == h.launched && r.host.files == h.files
      && Applied(r.host.env, r.outcome) == ApplyLines(h.env, h.files[path])
  {
  }

  /** A miss launches the query command exactly once, built from the overrides read before any line is applied. */
  lemma BootstrapMissLaunches(h: HostState, path: string, q: QueryOutcome)
    requires CacheMiss(h.files, path)
    ensures Bootstrap(h, path, q).host.launched
         == h.launched + [QueryCommand(QueryScript(h.env), QueryArch(h.env))]
  {
  }

  /** No file is created or removed, and files other than the cache are never written. */
  lemma BootstrapFrame(h: HostState, path: string, q: QueryOutcome)
    ensures var r := Bootstrap(h, path, q);
      && r.host.files.Keys == h.files.Keys
      && forall p :: p in h.files && p != path ==> r.host.files[p] == h.files[p]
  {
  }

  /**
   * A failed launch or a non-zero status aborts with the command, before any
   * line is applied; a query that ran has already written its lines to the cache.
   */
  lemma BootstrapQueryFailure(h: HostState, path: string, q: QueryOutcome)
    requires CacheMiss(h.files, path) && (q.LaunchFailed? || q.status != 0)
    ensures var r := Bootstrap(h, path, q);
      var command := QueryCommand(QueryScript(h.env), QueryArch(h.env));
      && r.host.env == h.env
      && r.host.launched == h.launched + [command]
      && r.host.files == (if q.LaunchFailed? then h.files
                          else AppendToCache(h.files, path, Assignments(q.output)))
      && r.outcome == Fail(if q.LaunchFailed? then QueryLaunchFailure(command)
                            else QueryExecutionFailure(command, q.status))
  {
  }

  /**
   * An existing empty cache receives the filtered output, even when the query
   * then fails; once that output held a line with '=', the next call is a hit.
   */
  lemma BootstrapPopulatesCache(h: HostState, path: string, output: seq<string>, status: int, q2: QueryOutcome)
    requires path in h.files && h.files[path] == []
    ensures var r := Bootstrap(h, path, Exited(output, status));
      && r.host.files[path] == Assignments(output)
      && (Assignments(output) != [] ==> Bootstrap(r.host, path, q2).host.launched == r.host.launched)
  {
    var r := Bootstrap(h, path, Exited(output, status));
    assert r.host.files[path] == [] + Assignments(output);
  }

  /** On success after a miss on an existing empty cache, exactly the filtered output is applied. */
  lemma BootstrapMissApplies(h: HostState, path: string, output: seq<string>)
    requires path in h.files && h.files[path] == []
    ensures var r := Bootstrap(h, path, Exited(output, 0));
      Applied(r.host.env, r.outcome) == ApplyLines(h.env, Assignments(output))
  {
    var command := QueryCommand(QueryScript(h.env), QueryArch(h.env));
    var written := HostState(h.env, h.files[path := Assignments(output)], h.launched + [command]);
    assert [] + Assignments(output) == Assignments(output);
    assert Bootstrap(h, path, Exited(output, 0)) == ApplyCache(written, path);
  }

  /**
   * An absent cache is never created: the query runs, its output is lost,
   * nothing is applied, and every later call queries again.
   */
  lemma AbsentCacheDiscardsQuery(h: HostState, path: string, output: seq<string>, q2: QueryOutcome)
    requires path !in h.files
    ensures var r := Bootstrap(h, path, Exited(output, 0));
      && r.outcome == Pass && r.host.env == h.env && r.host.files == h.files
      && CacheMiss(r.host.files, path)
      && |Bootstrap(r.host, path, q2).host.launched| == |r.host.launched| + 1
  {
  }

  /** A cache holding FOO=bar sets FO to bar on a hit, and leaves FOO alone. */
  lemma CacheHitExample(h: HostState, path: string, q: QueryOutcome)
    requires path in h.files && h.files[path] == ["FOO=bar"]
    ensures var r := Bootstrap(h, path, q);
      && r == Run(h.(env := h.env["FO" := "bar"]), Pass)
      && ("FOO" in r.host.env <==> "FOO" in h.env)
  {
    SplitDropsCharacterBeforeEquals();
    assert "FO" != "FOO";
    assert ApplyLines(h.env, ["FOO=bar"]) == Applied(h.env["FO" := "bar"], Pass) by {
      assert ValidName("FO");
      assert SetEnv(h.env, "FO", "bar") == Updated(h.env["FO" := "bar"]);
      assert ["FOO=bar"][1..] == [];
    }
    assert Bootstrap(h, path, q) == ApplyCache(h, path);
  }
}
