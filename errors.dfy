/**
 * Go errors as seen by the denial classifier, and the classifier itself
 * (`isDenied`, filelock.go:139-150).
 */
module Errors {
  import opened Wrappers
  import opened Text

  /**
   * A non-nil Go error. `permission` says whether this link of the chain
   * matches `os.ErrPermission` itself: it is that value, or its own `Is`
   * method says so, as the `syscall.Errno` value `EACCES` does. A
   * `*fs.PathError` around `EACCES` has no such method and is the link
   * `Err(false, m, Some(Err(true, "permission denied", None)))`.
   * `message` is what its `Error()` method renders; `wrapped` is what
   * `errors.Unwrap` gives.
   */
  datatype Err = Err(permission: bool, message: string, wrapped: Option<Err>)

  /** `errors.Is(e, os.ErrPermission)`: some link of the wrap chain matches. */
  predicate IsPermission(e: Err)
    ensures e.permission ==> IsPermission(e)
    ensures e.wrapped.Some? && IsPermission(e.wrapped.value) ==> IsPermission(e)
    ensures e.wrapped.None? ==> (IsPermission(e) <==> e.permission)
  {
    e.permission || (e.wrapped.Some? && IsPermission(e.wrapped.value))
  }

  /** The wrap chain, outermost error first, as repeated `errors.Unwrap` lists it. */
  function Chain(e: Err): (c: seq<Err>)
    ensures |c| >= 1 && c[0] == e
  {
    [e] + if e.wrapped.Some? then Chain(e.wrapped.value) else []
  }

  /** `errors.Is` finds the permission error exactly when some link of the chain is one. */
  lemma {:induction false} IsPermissionIff(e: Err)
    ensures IsPermission(e) <==> exists k :: 0 <= k < |Chain(e)| && Chain(e)[k].permission
  {
    var c := Chain(e);
    if e.permission {
      assert c[0].permission;
    } else if e.wrapped.None? {
      assert c == [e];
    } else {
      var w := e.wrapped.value;
      assert c == [e] + Chain(w);
      IsPermissionIff(w);
      if IsPermission(w) {
        var k :| 0 <= k < |Chain(w)| && Chain(w)[k].permission;
        assert c[k + 1] == Chain(w)[k];
      }
      if k :| 1 <= k < |c| && c[k].permission {
        assert Chain(w)[k - 1] == c[k];
        assert IsPermission(w);
      }
    }
  }

  const AccessIsDenied := "access is denied"
  const UsedByAnotherProcess := "used by another process"

  /** The lowercased message holds one of the two denial phrases. */
  predicate DeniedByText(message: string)
    ensures DeniedByText(message) ==> |message| >= |AccessIsDenied|
  {
    Contains(Lower(message), AccessIsDenied) || Contains(Lower(message), UsedByAnotherProcess)
  }

  /** `isDenied(err)`, with `None` for a nil error. */
  predicate IsDenied(err: Option<Err>)
    ensures err.None? ==> !IsDenied(err)
    ensures err.Some? && IsPermission(err.value) ==> IsDenied(err)
  {
    match err
    case None => false
    case Some(e) => IsPermission(e) || DeniedByText(e.message)
  }

  /**
   * The classifier against a reference definition: a non-nil error is denied
   * exactly when some link of its chain is a permission error or one of the
   * two phrases occurs in its lowercased message.
   */
  lemma DeniedIff(e: Err)
    ensures IsDenied(Some(e)) <==>
      (exists k :: 0 <= k < |Chain(e)| && Chain(e)[k].permission) ||
      (exists i :: OccursAt(Lower(e.message), AccessIsDenied, i)) ||
      (exists i :: OccursAt(Lower(e.message), UsedByAnotherProcess, i))
  {
    IsPermissionIff(e);
    ContainsIff(Lower(e.message), AccessIsDenied);
    ContainsIff(Lower(e.message), UsedByAnotherProcess);
  }

  /** A permission error anywhere in the chain makes the error denied, whatever its text. */
  lemma DeniedByPermission(e: Err, k: nat)
    requires k < |Chain(e)| && Chain(e)[k].permission
    ensures IsDenied(Some(e))
  {
    IsPermissionIff(e);
  }

  /** Apart from permission errors, denial depends only on the lowercased text. */
  lemma DeniedByTextIff(e: Err)
    requires !IsPermission(e)
    ensures IsDenied(Some(e)) <==> DeniedByText(e.message)
    ensures DeniedByText(e.message) <==> DeniedByText(Lower(e.message))
  {
    LowerIdempotent(e.message);
  }

  /**
   * Case-insensitive matching: any window of the message that lowercases to
   * one of the phrases, however it is capitalised, makes the error denied.
   */
  lemma DeniedByWindow(e: Err, i: nat, phrase: string)
    requires phrase == AccessIsDenied || phrase == UsedByAnotherProcess
    requires i + |phrase| <= |e.message| && Lower(e.message[i..i + |phrase|]) == phrase
    ensures IsDenied(Some(e))
  {
    LowerSlice(e.message, i, i + |phrase|);
    assert OccursAt(Lower(e.message), phrase, i);
    ContainsIff(Lower(e.message), phrase);
  }

  /** "Access Is Denied", in mixed case, is denied. */
  lemma MixedCaseAccessIsDenied()
    ensures IsDenied(Some(Err(false, "Access Is Denied", None)))
  {
    var m := "Access Is Denied";
    assert Lower(m) == AccessIsDenied;
    DeniedByWindow(Err(false, m, None), 0, AccessIsDenied);
  }

  /** An upper-case "USED BY ANOTHER PROCESS" inside a longer message is denied. */
  lemma UpperCaseUsedByAnotherProcess()
    ensures IsDenied(Some(Err(false, "open a.txt: USED BY ANOTHER PROCESS", None)))
  {
    var m := "open a.txt: USED BY ANOTHER PROCESS";
    assert m[12..] == "USED BY ANOTHER PROCESS";
    assert Lower(m[12..]) == UsedByAnotherProcess;
    DeniedByWindow(Err(false, m, None), 12, UsedByAnotherProcess);
  }

  /**
   * "ACCESS İS DENIED", spelled with the dotted capital I (U+0130), is denied:
   * Go lowercases that character to `i`.
   */
  lemma DottedCapitalIIsFolded()
    ensures IsDenied(Some(Err(false, "ACCESS \U{130}S DENIED", None)))
  {
    var m := "ACCESS \U{130}S DENIED";
    assert Lower(m) == AccessIsDenied;
    DeniedByWindow(Err(false, m, None), 0, AccessIsDenied);
  }

  /** "file not found", with no permission error in its chain, is not denied. */
  lemma FileNotFoundIsNotDenied()
    ensures !IsDenied(Some(Err(false, "file not found", None)))
  {
    ContainsTooLong(Lower("file not found"), AccessIsDenied);
    ContainsTooLong(Lower("file not found"), UsedByAnotherProcess);
  }

  /**
   * Wrapping a denied error with context, as `fmt.Errorf("...: %w", e)` does,
   * keeps it denied: the chain still holds any permission error and the
   * message still holds the phrase.
   */
  lemma WrapKeepsDenied(context: string, e: Err)
    requires IsDenied(Some(e))
    ensures IsDenied(Some(Err(false, context + e.message, Some(e))))
  {
    if !IsPermission(e) {
      var m := Lower(context + e.message);
      LowerAppend(context, e.message);
      assert m == Lower(context) + Lower(e.message) + [];
      if Contains(Lower(e.message), AccessIsDenied) {
        ContainsInfix(Lower(context), Lower(e.message), [], AccessIsDenied);
      } else {
        ContainsInfix(Lower(context), Lower(e.message), [], UsedByAnotherProcess);
      }
    }
  }
}
