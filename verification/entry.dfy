/**
 * The `entry` decorator of pre_commit/util.py: a command-line entry point
 * that takes an explicit argument list, or defaults to the process's own
 * arguments without the program name.  The process argument vector
 * (`sys.argv`) is an explicit parameter here.
 */
module EntryPoint {
  import opened Wrappers

  /** Python's `xs[start:]`: the elements from `start` on, empty when `start` is past the end. */
  function SliceFrom<T>(xs: seq<T>, start: nat): (r: seq<T>)
    ensures |r| == if start <= |xs| then |xs| - start else 0
    ensures forall i :: 0 <= i < |r| ==> r[i] == xs[start + i]
  {
    if start <= |xs| then xs[start..] else []
  }

  /** The argument list the wrapped function receives. */
  function EffectiveArgv(processArgv: seq<string>, argv: Option<seq<string>>): (r: seq<string>)
    ensures argv.Some? ==> r == argv.value
    ensures argv.None? ==> |processArgv| > 0 ==> processArgv == processArgv[..1] + r
    ensures argv.None? ==> |processArgv| == 0 ==> r == []
  {
    match argv
    case None => SliceFrom(processArgv, 1)
    case Some(explicit) => explicit
  }

  /** The wrapper `entry(func)` builds, called with `argv` (absent is `None`). */
  function Entry<R>(func: seq<string> -> R, processArgv: seq<string>, argv: Option<seq<string>>): (r: R)
    ensures argv.Some? ==> r == func(argv.value)
    ensures argv.None? ==> r == func(SliceFrom(processArgv, 1))
  {
    func(EffectiveArgv(processArgv, argv))
  }

  /** An explicit argument list is passed through whatever the process arguments are. */
  lemma ExplicitArgvIgnoresProcess<R>(func: seq<string> -> R, p1: seq<string>, p2: seq<string>, argv: seq<string>)
    ensures Entry(func, p1, Some(argv)) == Entry(func, p2, Some(argv)) == func(argv)
  {
  }

  /** Omitting `argv` is the same as passing everything after the program name explicitly. */
  lemma DefaultIsProcessTail<R>(func: seq<string> -> R, programName: string, rest: seq<string>)
    ensures Entry(func, [programName] + rest, None) == Entry(func, [programName] + rest, Some(rest))
  {
  }
}
