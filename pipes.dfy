/** How `connect` turns the socket argument into the name it connects to.
    On Windows a bare name is meant to be placed in the named-pipe namespace
    `\\.\pipe\`; elsewhere the argument is a file path and is used as given. */
module Pipes {

  /** The Windows named-pipe namespace prefix, `\\.\pipe\`. */
  const PipeNamespace: string := @"\\.\pipe\"

  /** The prefix `connect` actually prepends, `\\.pipe\`: one backslash short. */
  const PrefixAsWritten: string := @"\\.pipe\"

  predicate StartsWith(s: string, prefix: string) {
    |prefix| <= |s| && s[..|prefix|] == prefix
  }

  /** The name `connect` computes as written: it tests for `\\.\pipe\` but prepends `\\.pipe\`. */
  function PipeNameAsWritten(pipe: string, windows: bool): (name: string)
    ensures !windows || StartsWith(pipe, PipeNamespace) ==> name == pipe
    ensures windows && !StartsWith(pipe, PipeNamespace) ==> StartsWith(name, PrefixAsWritten)
    ensures windows && !StartsWith(pipe, PipeNamespace) ==> |name| == |PrefixAsWritten| + |pipe|
    ensures |pipe| <= |name| && name[|name| - |pipe|..] == pipe
  {
    if windows && !StartsWith(pipe, PipeNamespace) then PrefixAsWritten + pipe else pipe
  }

  /** As written, a bare Windows name is not placed in the pipe namespace, and
      applying the rule to its own output prefixes again. */
  lemma PipeNameAsWrittenMissesNamespace()
    ensures PipeNameAsWritten("mpvsocket", true) == @"\\.pipe\mpvsocket"
    ensures !StartsWith(PipeNameAsWritten("mpvsocket", true), PipeNamespace)
    ensures PipeNameAsWritten(PipeNameAsWritten("mpvsocket", true), true) != PipeNameAsWritten("mpvsocket", true)
  {
    var once := PipeNameAsWritten("mpvsocket", true);
    assert once[..|PipeNamespace|] != PipeNamespace by {
      assert once[..|PipeNamespace|][3] == 'p' != PipeNamespace[3];
    }
    assert |PipeNameAsWritten(once, true)| == |PrefixAsWritten| + |once|;
  }

  /** The name `connect` is meant to compute: on Windows, the argument inside the
      pipe namespace (prefixed unless already there); elsewhere, the argument itself. */
  function PipeName(pipe: string, windows: bool): (name: string)
    ensures windows ==> StartsWith(name, PipeNamespace)
    ensures windows && !StartsWith(pipe, PipeNamespace) ==> |name| == |PipeNamespace| + |pipe|
    ensures !windows ==> name == pipe
    ensures |pipe| <= |name| && name[|name| - |pipe|..] == pipe
    ensures StartsWith(pipe, PipeNamespace) ==> name == pipe
  {
    if windows && !StartsWith(pipe, PipeNamespace) then PipeNamespace + pipe else pipe
  }

  /** The corrected rule is idempotent: a name it produced is used unchanged. */
  lemma PipeNameIdempotent(pipe: string, windows: bool)
    ensures PipeName(PipeName(pipe, windows), windows) == PipeName(pipe, windows)
  {
    if windows {
      assert StartsWith(PipeName(pipe, windows), PipeNamespace);
    }
  }

  /** The corrected rule and the rule as written name the same pipe exactly
      when no prefix is added: off Windows, or for a name already in the
      namespace. A bare Windows name is the one case where they part. */
  lemma PipeNameAsWrittenDiffers(pipe: string, windows: bool)
    ensures PipeName(pipe, windows) == PipeNameAsWritten(pipe, windows)
            <==> !windows || StartsWith(pipe, PipeNamespace)
  {
    if windows && !StartsWith(pipe, PipeNamespace) {
      assert |PipeName(pipe, windows)| == |PipeNamespace| + |pipe|;
      assert |PipeNameAsWritten(pipe, windows)| == |PrefixAsWritten| + |pipe|;
    }
  }
}
