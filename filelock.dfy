/**
 * The guarded file access gate of filelock.go: one process-wide mutex
 * (`RWLock`) around every file operation, and the return-or-fatal policy each
 * wrapper applies to its delegate's error.
 *
 * Delegates (`os.Rename`, `os.RemoveAll`, `os.ReadFile` and the safe
 * copy/write helpers) are foreign code: each wrapper takes the delegate's
 * result as a parameter and records, in a ghost trace, that the delegate ran.
 */
module FileLock {
  import opened Wrappers
  import opened Errors
  import opened Text

  newtype byte = b: int | 0 <= b < 256

  /** A wrapped operation with its arguments, as the delegate receives them. */
  datatype Op =
    | Move(src: string, dest: string)
    | Copy(src: string, dest: string)
    | CopyNewtimes(src: string, dest: string)
    | Rename(p: string, newP: string)
    | Remove(p: string)
    | ReadFile(filePath: string)
    | WriteFileWithoutChangeTime(filePath: string, data: seq<byte>)
    | WriteFile(filePath: string, data: seq<byte>)
    | WriteFileByReader(filePath: string)

  /** The exit-code class handed to the fatal logger (`logging.ExitCodeFileSysErr`). */
  datatype ExitCode = ExitCodeFileSysErr

  /**
   * How a wrapper ends: it returns its error (nil or not) to the caller, or it
   * takes the fatal path, logging `message` and exiting with `code`.
   */
  datatype Outcome = Returned(err: Option<Err>) | Fatal(code: ExitCode, message: string)

  /** The paths an operation names, in argument order. */
  function Paths(op: Op): seq<string> {
    match op
    case Move(src, dest) => [src, dest]
    case Copy(src, dest) => [src, dest]
    case CopyNewtimes(src, dest) => [src, dest]
    case Rename(p, newP) => [p, newP]
    case Remove(p) => [p]
    case ReadFile(filePath) => [filePath]
    case WriteFileWithoutChangeTime(filePath, _) => [filePath]
    case WriteFile(filePath, _) => [filePath]
    case WriteFileByReader(filePath) => [filePath]
  }

  /**
   * The operation part of the fatal log line, as each wrapper formats it: a
   * bracketed text that names every path the operation was given.
   */
  function Describe(op: Op): (r: string)
    ensures |r| > 0 && r[|r| - 1] == ']'
    ensures forall q :: q in Paths(op) ==> Contains(r, q)
  {
    match op
    case Move(src, dest) => Bracket2("move [src=", src, ", dest=", dest)
    case Copy(src, dest) => Bracket2("copy [src=", src, ", dest=", dest)
    case CopyNewtimes(src, dest) => Bracket2("copy [src=", src, ", dest=", dest)
    case Rename(p, newP) => Bracket2("rename [p=", p, ", newP=", newP)
    case Remove(p) => Bracket1("remove file [", p)
    case ReadFile(filePath) => Bracket1("read file [", filePath)
    case WriteFileWithoutChangeTime(filePath, _) => Bracket1("write file [", filePath)
    case WriteFile(filePath, _) => Bracket1("write file [", filePath)
    case WriteFileByReader(filePath) => Bracket1("write file [", filePath)
  }

  /** `head + x + "]"`, the one-path format. */
  function Bracket1(head: string, x: string): (r: string)
    ensures r == head + x + "]"
    ensures Contains(r, x)
  {
    ContainsPart(head, x, "]");
    head + x + "]"
  }

  /** `head + x + mid + y + "]"`, the two-path format. */
  function Bracket2(head: string, x: string, mid: string, y: string): (r: string)
    ensures r == head + x + mid + y + "]"
    ensures Contains(r, x) && Contains(r, y)
  {
    ContainsPart(head, x, mid + y + "]");
    assert head + x + (mid + y + "]") == head + x + mid + y + "]";
    ContainsPart(head + x + mid, y, "]");
    head + x + mid + y + "]"
  }

  /**
   * The policy every wrapper applies to its delegate's error: a denied error
   * is fatal with the file-system exit code, anything else (nil included) is
   * handed back unchanged, so a caller never receives a denied error.
   */
  function Settle(op: Op, err: Option<Err>): (r: Outcome)
    ensures r.Returned? <==> !IsDenied(err)
    ensures r.Returned? ==> r.err == err
    ensures r.Returned? ==> !IsDenied(r.err)
    // the exit code holds by typing (ExitCode has one value); stated for the reader
    ensures r.Fatal? ==> err.Some? && r.code == ExitCodeFileSysErr
    ensures r.Fatal? ==> r.message == Describe(op) + " failed: " + err.value.message
  {
    if IsDenied(err) then Fatal(ExitCodeFileSysErr, Describe(op) + " failed: " + err.value.message)
    else Returned(err)
  }

  /** A delegate that fails with "file not found" has its error handed back unchanged. */
  lemma FileNotFoundIsReturned(op: Op)
    ensures Settle(op, Some(Err(false, "file not found", None))) == Returned(Some(Err(false, "file not found", None)))
  {
    FileNotFoundIsNotDenied();
  }

  /** A delegate error wrapping a permission error is fatal, whatever its own text says. */
  lemma WrappedPermissionIsFatal(op: Op, message: string, inner: Err)
    requires inner.permission
    ensures Settle(op, Some(Err(false, message, Some(inner)))).Fatal?
  {
    DeniedByPermission(Err(false, message, Some(inner)), 1);
  }

  /** What happens at the gate: the mutex is taken, a delegate runs, the mutex is released. */
  datatype Event = Acquired | Ran(op: Op) | Released

  /** One wrapper call: acquire, run the delegate, release (the `defer`). */
  function Session(op: Op): seq<Event> {
    [Acquired, Ran(op), Released]
  }

  /**
   * The mutex state after one event, or None when the event breaks the
   * discipline: taking a held (non-reentrant) mutex, releasing a free one,
   * or running a delegate outside the critical section.
   */
  function Step(state: Option<bool>, ev: Event): (r: Option<bool>)
    ensures state.None? ==> r.None?
    ensures r.Some? && ev == Acquired ==> state == Some(false) && r == Some(true)
    ensures r.Some? && ev == Released ==> state == Some(true) && r == Some(false)
    ensures r.Some? && ev.Ran? ==> state == Some(true) && r == state
    ensures state == Some(false) && ev == Acquired ==> r.Some?
    ensures state == Some(true) && ev != Acquired ==> r.Some?
  {
    match state
    case None => None
    case Some(held) =>
      match ev
      case Acquired => if held then None else Some(true)
      case Released => if held then Some(false) else None
      case Ran(_) => if held then Some(true) else None
  }

  /** How many times `ev` occurs in the trace. */
  function Occurrences(t: seq<Event>, ev: Event): nat
    decreases |t|
  {
    if t == [] then 0
    else Occurrences(t[..|t| - 1], ev) + if t[|t| - 1] == ev then 1 else 0
  }

  /**
   * The mutex state after a whole trace, starting from a free mutex. In a
   * well-disciplined trace every release answers an earlier acquire, and the
   * mutex is held exactly when one acquire is still unanswered.
   */
  function LockState(t: seq<Event>): (r: Option<bool>)
    ensures t == [] ==> r == Some(false)
    ensures r.Some? ==> Occurrences(t, Acquired) == Occurrences(t, Released) + if r.value then 1 else 0
    decreases |t|
  {
    if t == [] then Some(false) else Step(LockState(t[..|t| - 1]), t[|t| - 1])
  }

  /** Every delegate in a well-disciplined trace ran while the mutex was held. */
  lemma {:induction false} RanUnderLock(t: seq<Event>, k: nat)
    requires LockState(t).Some?
    requires k < |t| && t[k].Ran?
    ensures LockState(t[..k]) == Some(true)
    decreases |t|
  {
    var front := t[..|t| - 1];
    assert LockState(front).Some?;
    if k == |t| - 1 {
      assert t[..k] == front;
    } else {
      assert front[..k] == t[..k];
      RanUnderLock(front, k);
    }
  }

  /** A wrapper call started with the mutex free leaves it free and the discipline intact. */
  lemma SessionKeepsDiscipline(t: seq<Event>, op: Op)
    requires LockState(t) == Some(false)
    ensures LockState(t + Session(op)) == Some(false)
  {
    var t1 := t + [Acquired];
    var t2 := t1 + [Ran(op)];
    var t3 := t2 + [Released];
    assert t1[..|t1| - 1] == t;
    assert LockState(t1) == Some(true);
    assert t2[..|t2| - 1] == t1;
    assert LockState(t2) == Some(true);
    assert t3[..|t3| - 1] == t2;
    assert t3 == t + Session(op);
  }

  /** No wrapper call ever leaves the mutex held, so no later call can deadlock on it. */
  lemma {:induction false} SessionsKeepDiscipline(t: seq<Event>, ops: seq<Op>)
    requires LockState(t) == Some(false)
    ensures LockState(t + Sessions(ops)) == Some(false)
    decreases |ops|
  {
    if ops == [] {
      assert t + Sessions(ops) == t;
    } else {
      var t1 := t + Session(ops[0]);
      SessionKeepsDiscipline(t, ops[0]);
      SessionsKeepDiscipline(t1, ops[1..]);
      assert Sessions(ops) == Session(ops[0]) + Sessions(ops[1..]);
      assert t1 + Sessions(ops[1..]) == t + Sessions(ops);
    }
  }

  /** The gate's trace after a sequence of wrapper calls. */
  function Sessions(ops: seq<Op>): seq<Event>
    decreases |ops|
  {
    if ops == [] then [] else Session(ops[0]) + Sessions(ops[1..])
  }

  /**
   * The process-wide mutex `RWLock`. `held` is the mutex state; the ghost
   * `trace` records what happened at the gate so far.
   */
  class Gate {
    var held: bool
    ghost var trace: seq<Event>

    ghost predicate Valid()
      reads this
    {
      LockState(trace) == Some(held)
    }

    /** `sync.Mutex{}`: a free mutex, nothing happened yet. */
    constructor ()
      ensures Valid() && !held && trace == []
    {
      held := false;
      trace := [];
    }

    /** `RWLock.Lock()`; the mutex is not reentrant, so it must be free. */
    method Lock()
      requires Valid() && !held
      modifies this
      ensures Valid() && held
      ensures trace == old(trace) + [Acquired]
    {
      held := true;
      trace := trace + [Acquired];
    }

    /** `RWLock.Unlock()`, the deferred call. */
    method Unlock()
      requires Valid() && held
      modifies this
      ensures Valid() && !held
      ensures trace == old(trace) + [Released]
    {
      held := false;
      trace := trace + [Released];
    }

    /** The delegate call, which may only run inside the critical section. */
    method RunDelegate(op: Op)
      requires Valid() && held
      modifies this
      ensures Valid() && held
      ensures trace == old(trace) + [Ran(op)]
    {
      trace := trace + [Ran(op)];
    }

    /**
     * The shape shared by every wrapper: lock, run the delegate (whose error
     * is `result`), classify, and unlock on either path.
     */
    method Guarded(op: Op, result: Option<Err>) returns (outcome: Outcome)
      requires Valid() && !held
      modifies this
      ensures Valid() && !held
      ensures trace == old(trace) + Session(op)
      ensures outcome == Settle(op, result)
    {
      Lock();
      RunDelegate(op);
      // each Go wrapper's own `if isDenied(err) { logging.LogFatalf(...) }`
      if IsDenied(result) {
        outcome := Fatal(ExitCodeFileSysErr, Describe(op) + " failed: " + result.value.message);
      } else {
        outcome := Returned(result);
      }
      Unlock();
    }

    /**
     * `Move(src, dest)`: nothing at all when `src == dest`, whatever the mutex
     * state (the short-cut returns before `RWLock.Lock()`); else `os.Rename`
     * under the gate.
     */
    method Move(src: string, dest: string, renameResult: Option<Err>) returns (outcome: Outcome)
      requires Valid() && (src != dest ==> !held)
      modifies this
      ensures Valid() && held == old(held)
      ensures src == dest ==> outcome == Returned(None) && trace == old(trace)
      ensures src != dest ==> trace == old(trace) + Session(Op.Move(src, dest))
      ensures src != dest ==> outcome == Settle(Op.Move(src, dest), renameResult)
    {
      if src == dest {
        return Returned(None);
      }
      outcome := Guarded(Op.Move(src, dest), renameResult);
    }

    /** `Copy(src, dest)`: `gulu.File.Copy` under the gate. */
    method Copy(src: string, dest: string, copyResult: Option<Err>) returns (outcome: Outcome)
      requires Valid() && !held
      modifies this
      ensures Valid() && !held
      ensures trace == old(trace) + Session(Op.Copy(src, dest))
      ensures outcome == Settle(Op.Copy(src, dest), copyResult)
    {
      outcome := Guarded(Op.Copy(src, dest), copyResult);
    }

    /** `CopyNewtimes(src, dest)`: `gulu.File.CopyNewtimes` under the gate. */
    method CopyNewtimes(src: string, dest: string, copyResult: Option<Err>) returns (outcome: Outcome)
      requires Valid() && !held
      modifies this
      ensures Valid() && !held
      ensures trace == old(trace) + Session(Op.CopyNewtimes(src, dest))
      ensures outcome == Settle(Op.CopyNewtimes(src, dest), copyResult)
    {
      outcome := Guarded(Op.CopyNewtimes(src, dest), copyResult);
    }

    /** `Rename(p, newP)`: `os.Rename` under the gate, with no equality short-cut. */
    method Rename(p: string, newP: string, renameResult: Option<Err>) returns (outcome: Outcome)
      requires Valid() && !held
      modifies this
      ensures Valid() && !held
      ensures trace == old(trace) + Session(Op.Rename(p, newP))
      ensures outcome == Settle(Op.Rename(p, newP), renameResult)
    {
      outcome := Guarded(Op.Rename(p, newP), renameResult);
    }

    /** `Remove(p)`: `os.RemoveAll` under the gate. */
    method Remove(p: string, removeResult: Option<Err>) returns (outcome: Outcome)
      requires Valid() && !held
      modifies this
      ensures Valid() && !held
      ensures trace == old(trace) + Session(Op.Remove(p))
      ensures outcome == Settle(Op.Remove(p), removeResult)
    {
      outcome := Guarded(Op.Remove(p), removeResult);
    }

    /**
     * `ReadFile(filePath)`: `os.ReadFile` under the gate; the delegate's data
     * is handed back as it came, next to the settled error.
     */
    method ReadFile(filePath: string, readData: seq<byte>, readResult: Option<Err>)
      returns (data: seq<byte>, outcome: Outcome)
      requires Valid() && !held
      modifies this
      ensures Valid() && !held
      ensures trace == old(trace) + Session(Op.ReadFile(filePath))
      ensures data == readData
      ensures outcome == Settle(Op.ReadFile(filePath), readResult)
    {
      data := readData;
      outcome := Guarded(Op.ReadFile(filePath), readResult);
    }

    /** `WriteFileWithoutChangeTime(filePath, data)`: `gulu.File.WriteFileSaferWithoutChangeTime` under the gate. */
    method WriteFileWithoutChangeTime(filePath: string, data: seq<byte>, writeResult: Option<Err>)
      returns (outcome: Outcome)
      requires Valid() && !held
      modifies this
      ensures Valid() && !held
      ensures trace == old(trace) + Session(Op.WriteFileWithoutChangeTime(filePath, data))
      ensures outcome == Settle(Op.WriteFileWithoutChangeTime(filePath, data), writeResult)
    {
      outcome := Guarded(Op.WriteFileWithoutChangeTime(filePath, data), writeResult);
    }

    /** `WriteFile(filePath, data)`: `gulu.File.WriteFileSafer` under the gate. */
    method WriteFile(filePath: string, data: seq<byte>, writeResult: Option<Err>)
      returns (outcome: Outcome)
      requires Valid() && !held
      modifies this
      ensures Valid() && !held
      ensures trace == old(trace) + Session(Op.WriteFile(filePath, data))
      ensures outcome == Settle(Op.WriteFile(filePath, data), writeResult)
    {
      outcome := Guarded(Op.WriteFile(filePath, data), writeResult);
    }

    /** `WriteFileByReader(filePath, reader)`: `gulu.File.WriteFileSaferByReader` under the gate. */
    method WriteFileByReader(filePath: string, writeResult: Option<Err>) returns (outcome: Outcome)
      requires Valid() && !held
      modifies this
      ensures Valid() && !held
      ensures trace == old(trace) + Session(Op.WriteFileByReader(filePath))
      ensures outcome == Settle(Op.WriteFileByReader(filePath), writeResult)
    {
      outcome := Guarded(Op.WriteFileByReader(filePath), writeResult);
    }
  }

  /**
   * A caller that already holds the exported `RWLock` can still move a path
   * onto itself: the call returns nil at once and the mutex stays held.
   */
  method MoveToSelfWhileHeld(p: string, renameResult: Option<Err>) returns (outcome: Outcome, stillHeld: bool)
    ensures outcome == Returned(None) && stillHeld
  {
    var gate := new Gate();
    gate.Lock();
    outcome := gate.Move(p, p, renameResult);
    stillHeld := gate.held;
  }
}
