/**
 * Shared vocabulary of the model: optional values, pass/fail outcomes, the
 * failures the resolver raises (the source throws strings; here each kind keeps
 * the data its message carries), and the first-occurrence search on strings
 * that `std::string::find` and `strchr` perform.
 */
module Base {

  datatype Option<T> = None | Some(value: T)

  datatype Outcome<E> = Pass | Fail(error: E)

  /** The failures thrown by `Config::Load` and `Config::ApplyMSVCToolchain`. */
  datatype Error =
    | DefinitionNotFound                                  // neither rez.cpp nor rez.c exists
    | QueryLaunchFailure(command: string)                 // popen returned null
    | QueryExecutionFailure(command: string, status: int) // pclose returned a non-zero status
    | EnvironmentApplyFailure(line: string, errno: int)   // setenv refused a cache line

  /** Index of the first occurrence of `c` in `s`, or None (`npos`) when there is none. */
  function IndexOf(s: string, c: char): (r: Option<nat>)
    ensures r.None? <==> c !in s
    ensures r.Some? ==> r.value < |s| && s[r.value] == c && c !in s[..r.value]
  {
    if s == [] then None
    else if s[0] == c then Some(0)
    else
      match IndexOf(s[1..], c)
      case None => None
      case Some(i) =>
        assert s[..i + 1] == [s[0]] + s[1..][..i];
        Some(i + 1)
  }

  /** `s` ends with `suffix`. */
  predicate EndsWith<T(==)>(s: seq<T>, suffix: seq<T>)
  {
    |suffix| <= |s| && s[|s| - |suffix|..] == suffix
  }

  /** Concatenation regrouped to the right. */
  lemma Assoc<T>(a: seq<T>, b: seq<T>, c: seq<T>)
    ensures a + b + c == a + (b + c)
  {
  }

  /** A sequence is its three slices at `a` and `b`, in order. */
  lemma SplitThree<T>(s: seq<T>, a: nat, b: nat)
    requires a <= b <= |s|
    ensures s == s[..a] + s[a..b] + s[b..]
  {
  }
}
