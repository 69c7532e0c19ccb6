# filelock, modelled in Dafny

filelock is a single Go file. Every file operation issued through its nine
functions (move, copy, rename, remove, read, write) runs under one
process-wide mutex, `RWLock`. File operations made elsewhere in the host
process do not take it. After each delegate call the wrapper classifies the
error with `isDenied`. A denied error means a permission error somewhere in
the wrap chain, or a message that, lowercased, contains "access is denied" or
"used by another process". Such an error is fatal: the wrapper hands it to
`logging.LogFatalf` with `logging.ExitCodeFileSysErr`, which is meant to log
it and end the process. The logging package is not part of this model. Any
other error, nil included, goes back to the caller unchanged.

The model has four modules:

- `Wrappers`: `Option`, which stands for Go's nil-able `error`.
- `Text`: lowercasing (`Lower`) and substring search (`Contains`), with an
  occurrence-based reference definition of `Contains` proved equivalent.
  `Lower` lowercases ASCII capitals and the two other characters whose
  lowercase is ASCII (U+0130 to `i`, the Kelvin sign U+212A to `k`).
- `Errors`: an error is a datatype with a permission flag, a message and an
  optional wrapped error. `errors.Is(err, os.ErrPermission)` is `IsPermission`,
  a recursion down the wrap chain. `IsDenied` is `isDenied`. Lemmas
  characterise it: against the chain and occurrence definitions, by
  case-insensitive windows, through wrapping, and on concrete messages.
- `FileLock`:
  - `Settle` is the return-or-fatal policy.
  - `LockState` follows the mutex discipline over a trace of `Acquired`,
    `Ran(op)` and `Released` events.
  - The class `Gate` holds the mutex state `held` and a ghost trace. Its nine
    wrapper methods take the delegate's result as a parameter. Each one locks,
    records the delegate run, settles the error and unlocks.
  - `Move` returns a nil error when `src == dest`, without touching the gate
    or the trace.

Delegates are foreign calls: `os.Rename`, `os.RemoveAll`, `os.ReadFile`,
`gulu.File.Copy`, `CopyNewtimes`, `WriteFileSafer`,
`WriteFileSaferWithoutChangeTime` and `WriteFileSaferByReader`. Their error
(and, for `ReadFile`, their data) is a parameter of the wrapper method.

## Model

| member | source | states |
|---|---|---|
| Text.LowerChar | filelock.go:148 | the result never lowercases further; the character changes exactly when it is an ASCII capital, U+0130 or U+212A, and then it becomes the matching small ASCII letter |
| Text.Lower | filelock.go:148 | the lowercased message has the same number of characters, each one lowercased in place, and none of them lowercases further |
| Text.LowerIdempotent | filelock.go:148 | lowercasing an already lowercased message changes nothing |
| Text.LowerSlice | filelock.go:148 | lowercasing a window of the message equals the same window of the lowercased message |
| Text.LowerAppend | filelock.go:148 | lowercasing distributes over concatenation |
| Text.Contains | filelock.go:149 | the empty pattern is contained in every text, and a contained pattern is never longer than the text |
| Text.ContainsPart | filelock.go:149 | a text spliced between two others is contained in the result |
| Text.ContainsIff | filelock.go:149 | `strings.Contains(s, p)` holds exactly when `p` occurs in `s` at some index |
| Text.ContainsInfix | filelock.go:149 | an occurrence stays an occurrence when text is added before and after |
| Text.ContainsTooLong | filelock.go:149 | a pattern longer than the text is never contained in it |
| Errors.IsPermission | filelock.go:144 | a permission error at the head of the chain matches, a match in the wrapped error is a match of the wrapper, and an error that wraps nothing matches only if it is a permission error itself |
| Errors.IsPermissionIff | filelock.go:144 | `errors.Is(err, os.ErrPermission)` holds exactly when some link of the wrap chain is a permission error |
| Errors.DeniedByText | filelock.go:148-149 | a message denied by its text is at least as long as the shorter phrase, "access is denied" |
| Errors.IsDenied | filelock.go:139-146 | a nil error is never denied; an error whose chain holds a permission error always is |
| Errors.DeniedIff | filelock.go:139-150 | a non-nil error is denied exactly when a chain link is a permission error or one of the two phrases occurs in its lowercased message |
| Errors.DeniedByPermission | filelock.go:144-146 | a permission error at any depth of the chain makes the error denied, whatever the message |
| Errors.DeniedByTextIff | filelock.go:148-149 | without a permission error, denial holds exactly when the lowercased message contains a phrase, and lowercasing the message first gives the same verdict |
| Errors.DeniedByWindow | filelock.go:148-149 | any window of the message that lowercases to one of the phrases, in any capitalisation, makes the error denied |
| Errors.MixedCaseAccessIsDenied | filelock.go:148-149 | "Access Is Denied" is denied |
| Errors.UpperCaseUsedByAnotherProcess | filelock.go:148-149 | a message with "USED BY ANOTHER PROCESS" inside it is denied |
| Errors.DottedCapitalIIsFolded | filelock.go:148-149 | "ACCESS İS DENIED", written with U+0130, is denied, because that character lowercases to `i` |
| Errors.FileNotFoundIsNotDenied | filelock.go:148-149 | "file not found", with no permission error in its chain, is not denied |
| Errors.WrapKeepsDenied | filelock.go:144-149 | wrapping a denied error with a context prefix keeps it denied |
| FileLock.Describe | filelock.go:43-134 | the operation part of the nine fatal log lines (lines 43, 55, 67, 78, 89, 100, 111, 122, 134) ends with `]` and names every path the operation was given |
| FileLock.Settle | filelock.go:42-46 | the outcome is fatal exactly when the error is denied; a fatal outcome carries the file-system exit code and the "<operation> failed: <error>" message; otherwise the error comes back unchanged, so a denied error never reaches the caller |
| FileLock.FileNotFoundIsReturned | filelock.go:42-46 | a "file not found" error from any delegate is handed back unchanged |
| FileLock.WrappedPermissionIsFatal | filelock.go:139-146 | an error wrapping a permission error is fatal, whatever its own text |
| FileLock.Step | filelock.go:39-41 | a broken discipline stays broken; an event that keeps it acquires a free mutex, releases a held one, or runs a delegate under a held mutex and leaves it held; acquiring a free mutex always keeps the discipline, and so does any other event on a held mutex |
| FileLock.LockState | filelock.go:39-40 | a trace starts with the mutex free; in a trace that keeps the discipline, acquires equal releases when the mutex is free and exceed them by one when it is held |
| FileLock.RanUnderLock | filelock.go:39-41 | in a trace that keeps the discipline, every delegate run happens while the mutex is held |
| FileLock.SessionKeepsDiscipline | filelock.go:39-40 | one wrapper call, begun with the mutex free, keeps the discipline and leaves the mutex free |
| FileLock.SessionsKeepDiscipline | filelock.go:34-137 | any sequence of wrapper calls, each locking and deferring the unlock, keeps the discipline and ends with the mutex free |
| FileLock.Gate.constructor | filelock.go:30-32 | the mutex starts free, with an empty trace |
| FileLock.Gate.Lock | filelock.go:39 | taking the non-reentrant mutex needs it free and leaves it held |
| FileLock.Gate.Unlock | filelock.go:40 | releasing the mutex needs it held and leaves it free |
| FileLock.Gate.RunDelegate | filelock.go:41 | a delegate can only run while the mutex is held |
| FileLock.Gate.Guarded | filelock.go:39-46 | lock, run the delegate, settle its error, unlock: the trace grows by exactly one session, the mutex ends free, and the outcome is Settle's |
| FileLock.Gate.Move | filelock.go:34-47 | with `src == dest`: a nil error, and neither the mutex nor the trace changes, whatever the mutex state (a caller may hold the exported `RWLock`); otherwise, starting from a free mutex, one guarded rename session, settled |
| FileLock.MoveToSelfWhileHeld | filelock.go:34-37 | with the mutex already held by the caller, `Move(p, p)` returns a nil error and the mutex is still held afterwards |
| FileLock.Gate.Copy | filelock.go:49-59 | one guarded copy session; the error is settled |
| FileLock.Gate.CopyNewtimes | filelock.go:61-71 | one guarded copy-with-new-times session; the error is settled |
| FileLock.Gate.Rename | filelock.go:73-82 | one guarded rename session, with no equality short-cut; the error is settled |
| FileLock.Gate.Remove | filelock.go:84-93 | one guarded remove session; the error is settled |
| FileLock.Gate.ReadFile | filelock.go:95-104 | one guarded read session; the delegate's data comes back unchanged and the error is settled |
| FileLock.Gate.WriteFileWithoutChangeTime | filelock.go:106-115 | one guarded write session; the error is settled |
| FileLock.Gate.WriteFile | filelock.go:117-126 | one guarded write session; the error is settled |
| FileLock.Gate.WriteFileByReader | filelock.go:128-137 | one guarded write-from-reader session; the error is settled (the missing `return` inside its `if` changes nothing) |

## Left out

- Filesystem effects of the delegates are not modelled. Their results are parameters, so write-then-read round trips, temp-file atomicity and timestamp preservation are out of reach.
- Goroutine concurrency and blocking on `sync.Mutex` are not modelled. The model is sequential: a wrapper that takes the mutex requires it free, because taking a held mutex is where a real call would block or deadlock. `Move` with `src == dest` does not take the mutex and so has no such requirement.
- Text.Lower: lowercases only the characters whose lowercase is ASCII: A-Z, U+0130 and U+212A. Go's `strings.ToLower` maps every rune to its lowercase rune, so the rune count is kept, as in the model. The two differ only on capitals whose lowercase is not ASCII: Go changes them and the model keeps them. Neither version of such a character is in the two ASCII phrases, so the denial verdict is meant to be the same in Go and in the model. That last claim is argued here, not proved.
- `errors.Is` on errors with `Unwrap() []error` (for example `errors.Join`) is not modelled. The model follows a single wrap chain.
- The fatal path is modelled as a `Fatal` outcome value carrying the exit-code class and the message text. The logger's own formatting and the process exit are not modelled.
- The numeric value of `logging.ExitCodeFileSysErr` is not modelled. The logging package is not part of this model, so the exit code is the single constructor `ExitCodeFileSysErr`.
- FileLock.Gate.Guarded: releases the mutex after a fatal outcome, because that is what the deferred `Unlock` is written to do. In Go, if `logging.LogFatalf` ends the process with `os.Exit`, deferred calls do not run, and the process ends with the mutex still held.
- The `io.Reader` of `WriteFileByReader` and the `0644` permission bits are pass-through arguments with no logic in this file. Neither is modelled.
