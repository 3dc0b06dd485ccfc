# pre-commit utilities: shell escaping, cwd-keyed memoization, entry points

A Dafny model of three helpers from `pre_commit/util.py` of pre-commit.

- `shell_escape` quotes one argument for a POSIX shell. It wraps the argument in single quotes and replaces each embedded single quote with `'"'"'`. The model gives this text a meaning through `Unquote`, a conservative model of POSIX quote removal for one word (sections 2.2.1 to 2.2.3 of the Shell Command Language, IEEE Std 1003.1). It proves that unquoting the escaped text returns exactly the original string, for every string without a NUL character. A string holding a NUL is refused by the decoder, since no shell word or process argument can carry one. The decoder also never produces a word longer than its input. It tells an empty word (`''`, which is what `shell_escape("")` gives) from no word at all (the empty text): only a quote or a literal character opens a word. It also proves the exact length and shape of the escaped text.
- `memoize_by_cwd` wraps a function with a get-or-compute cache keyed by `(cwd,) + args`. The model is the class `MemoizedByCwd`. Its `cache` field is the mutable table `wrapper._cache`. `Call` is one call of the wrapper, with the working directory passed as a parameter. The wrapped function is a function value that returns `Success(value)` or `Failure(error)`; a failure stands for a raised exception. A ghost log `invocations` records each time the wrapped function runs, so that the contracts can say when it is and is not invoked.
- `entry` turns a function of `argv` into a command-line entry point. An absent `argv` (Python `None`, here `Option.None`) defaults to `sys.argv[1:]`. The process argument vector is a parameter.

Files: `wrappers.dfy` (Option and Result), `shell_escape.dfy`, `memoize.dfy`, `entry.dfy`.

Notes on the code:
- In `shell_escape`, the replacement literal goes through `.strip()`. That literal holds no white space, so the call changes nothing, and the model uses the literal directly (`QuoteEscape`).
- The model follows the code on failure: a failed call is not cached, and the next identical call invokes the wrapped function again.
- `sys.argv[1:]` uses Python's clamping slice, so an empty process vector gives an empty list (`SliceFrom`).

## Model

| member | source | states |
|---|---|---|
| `ShellEscaping.ReplaceChar` | pre_commit/util.py:61 | `str.replace` with a one-character pattern: the length grows by `len(to) - 1` per occurrence; a string without the pattern is returned unchanged; the result holds only the input's other characters and characters of the replacement |
| `ShellEscaping.ReplaceCharConcat` | pre_commit/util.py:61 | `str.replace` with a one-character pattern works character by character: replacing in `a + b` gives the replacement of `a` followed by that of `b`, and one character becomes the replacement exactly when it is the pattern |
| `ShellEscaping.ReplaceQuotesInjective` | pre_commit/util.py:61 | replacing each `'` by `'"'"'` loses nothing: two different strings give two different replaced texts |
| `ShellEscaping.ShellEscape` | pre_commit/util.py:60-61 | the result starts and ends with `'`; its length is `len(arg) + 2 + 4 * count("'")`; without an embedded `'` it is exactly `'` + arg + `'`; it holds only characters of `arg`, `'` and `"` |
| `ShellEscaping.UnquoteReplaced` | pre_commit/util.py:61 | inside a single-quoted run, quote removal of the replaced text yields the original string and leaves the scanner inside the run, whatever follows; a NUL in the string makes it fail |
| `ShellEscaping.UnquoteShellEscape` | pre_commit/util.py:60-61 | round trip: POSIX quote removal of `shell_escape(s)` succeeds as one word and yields exactly `s` for every string `s` without a NUL; with a NUL it fails with `NulCharacter` |
| `ShellEscaping.ShellEscapeInjective` | pre_commit/util.py:60-61 | two different strings never escape to the same text (NUL included) |
| `ShellEscaping.EmptyWord` | pre_commit/util.py:60-61 | the empty text and a lone line continuation are no word, while `shell_escape("") == "''"` unquotes to one empty word |
| `ShellEscaping.ItsEscaped` | pre_commit/util.py:60-61 | `it's` escapes to `'it'"'"'s'` |
| `ShellEscaping.ItsUnquoted` | pre_commit/util.py:60-61 | POSIX quote removal of `'it'"'"'s'` gives back `it's` as one word |
| `Memoize.MemoizedByCwd.constructor` | pre_commit/util.py:14-28 | a new wrapper holds the given function, an empty table and no invocations, and satisfies the cache invariant |
| `Memoize.MemoizedByCwd.Lookup` | pre_commit/util.py:19-22 | the lookup hits exactly when `(cwd, args)` is in the table, returns the stored value on a hit, and under the invariant that value is what the wrapped function returns |
| `Memoize.MemoizedByCwd.Call` | pre_commit/util.py:17-24 | a hit returns the stored value, invokes nothing and leaves the table unchanged; a miss invokes the function once and returns its outcome; a successful miss adds exactly that entry; a failure leaves the table as it was; no entry is ever overwritten or removed; the invariant is kept and the result equals the wrapped function's |
| `Memoize.CallTwice` | pre_commit/util.py:17-24 | two identical calls from one directory: the first returns the wrapped function's result, and after a success the second returns that same value without running the function again; after a failure the function runs again (the model's function is deterministic, so the retry fails the same way); afterwards the table holds the new entry after a successful miss, and is unchanged after a hit or a failure |
| `Memoize.CallFromTwoDirectories` | pre_commit/util.py:18-19 | the same arguments from a directory not yet cached invoke the function again: the log gains the first key on a miss and then the second key; every earlier entry survives; each successful call's value is stored under its own directory's key; a failed second call stores nothing; no other key is added |
| `EntryPoint.SliceFrom` | pre_commit/util.py:39 | Python's `xs[start:]`: length `len(xs) - start` (zero past the end), element `i` is `xs[start + i]` |
| `EntryPoint.EffectiveArgv` | pre_commit/util.py:37-40 | an explicit `argv` is used unchanged; an absent one is the process vector without its first element (empty when the vector is empty) |
| `EntryPoint.Entry` | pre_commit/util.py:31-41 | the wrapped function receives the explicit `argv` when one is given, and `sys.argv[1:]` otherwise |
| `EntryPoint.ExplicitArgvIgnoresProcess` | pre_commit/util.py:38-40 | with an explicit `argv` the result does not depend on the process arguments |
| `EntryPoint.DefaultIsProcessTail` | pre_commit/util.py:38-39 | omitting `argv` is the same as passing everything after the program name |

## Left out

- `hex_md5` (pre_commit/util.py:64-69): a wrapper over the MD5 digest of a library; MD5 is not part of this model.
- `tarfile_open` (pre_commit/util.py:72-79): archive I/O with close-on-exit; no logic beyond the library call.
- `tmpdir` and `clean_path_on_failure` (pre_commit/util.py:44-52, 82-91): filesystem side effects (temporary directory creation, recursive removal) and exception re-raising.
- `noop_context` (pre_commit/util.py:55-57): an empty context manager.
- `os.getcwd()` and `sys.argv` are parameters; `functools.wraps` metadata copying is Python reflection and is not modelled.
- `Memoize.MemoizedByCwd.Call`: the wrapped function is a deterministic function value of the working directory and the arguments. Other hidden inputs of the real function are not modelled, so a stale cache entry cannot arise in the model.
- `Memoize.MemoizedByCwd.Call`: keys use Dafny equality. Python's hashing rules (`1 == 1.0 == True` share a key) and the `TypeError` for unhashable arguments are not modelled.
- `Memoize.CallTwice`: after a failed first call, its contract says the second call returns the same failure. That holds only because the wrapped function is a fixed, deterministic function value in the model. In the source the retry runs the real function again (pre_commit/util.py:23 stores nothing on a failure), and it may succeed or fail differently.
- The unbounded growth of the table and the absence of locking: there is no eviction and no concurrency in the code.
- `ShellEscaping.ShellEscape`: `arg` is modelled as text, a sequence of Unicode scalar values. The source targets Python 2 as well (`unicode_literals`, pre_commit/util.py:1): there a byte string `arg` is first decoded as ASCII, so a non-ASCII byte string raises `UnicodeDecodeError` and an ASCII one comes back as text. Those byte-string cases, and Python 3 strings holding lone surrogates (which Dafny's `char` cannot hold), are not modelled.
- `ShellEscaping.UnquoteShellEscape`: the round trip is stated for strings without NUL. `shell_escape` passes a NUL through, but no shell word can carry one, so the decoder refuses it.
- `ShellEscaping.Unquote`: quote removal is modelled for one word only. An unquoted blank or operator character is a word break and an error. Unquoted `$`, `` ` ``, `*`, `?`, `[`, `#`, `~`, `=`, `%`, and `$` or `` ` `` inside double quotes, are refused instead of being expanded. Aliases, expansions and field splitting are not modelled.
