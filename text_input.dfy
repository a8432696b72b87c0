/**
 * The validating text input of src/components/TextInput.jsx: a status that
 * Enter sets from the `onValidate` verdict and typing clears.
 */
module Input {
  import opened Wrappers

  /** `status`: `null`, `'error'` or `'success'`. */
  datatype Status = Idle | Error | Success

  /** The modifier classes the input carries: (error class, success class). */
  function StatusClasses(status: Status): (r: (bool, bool))
    ensures !(r.0 && r.1)
    ensures r.0 <==> status == Error
    ensures r.1 <==> status == Success
  {
    (status == Error, status == Success)
  }

  /**
   * The status a key press leaves: Enter with an `onValidate` shows its
   * verdict on the current value, success exactly when it accepts; any other
   * key, or no `onValidate`, leaves the status as it was.
   */
  function AfterKey(status: Status, key: string, value: string, onValidate: Option<string -> bool>): (r: Status)
    ensures key == "Enter" && onValidate.Some? ==> r != Idle && (r == Success <==> onValidate.value(value))
    ensures key != "Enter" || onValidate.None? ==> r == status
  {
    if key == "Enter" && onValidate.Some? then
      (if onValidate.value(value) then Success else Error)
    else status
  }

  /** Typing clears a shown verdict, and Enter always shows one when a validator is given. */
  lemma ChangeThenEnter(status: Status, value: string, f: string -> bool)
    ensures AfterKey(Idle, "Enter", value, Some(f)) != Idle
    ensures AfterKey(status, "Enter", value, Some(f)) == AfterKey(Idle, "Enter", value, Some(f))
    ensures forall key :: key != "Enter" ==> AfterKey(status, key, value, Some(f)) == status
  {
  }

  class TextInput {
    var status: Status

    constructor ()
      ensures status == Idle
    {
      status := Idle;
    }

    /**
     * `handleKeyDown`. Enter with an `onValidate` calls it once on the current
     * value (returned in `validated`) and shows its verdict; any other key, or
     * no `onValidate`, calls nothing and changes nothing.
     */
    method KeyDown(key: string, value: string, onValidate: Option<string -> bool>) returns (validated: seq<string>)
      modifies this
      ensures status == AfterKey(old(status), key, value, onValidate)
      ensures validated == if key == "Enter" && onValidate.Some? then [value] else []
      ensures validated != [] ==> status == (if onValidate.value(value) then Success else Error)
      ensures validated == [] ==> status == old(status)
    {
      validated := [];
      if key == "Enter" && onValidate.Some? {
        validated := [value];
        var isValid := onValidate.value(value);
        status := if isValid then Success else Error;
      }
    }

    /**
     * `handleChange`. A shown verdict is cleared, then the new value goes to
     * `onChange` when there is one (returned in `forwarded`); `onValidate` is never called.
     */
    method Change(newValue: string, hasOnChange: bool) returns (forwarded: seq<string>)
      modifies this
      ensures status == Idle
      ensures forwarded == if hasOnChange then [newValue] else []
    {
      if status != Idle {
        status := Idle;
      }
      forwarded := if hasOnChange then [newValue] else [];
    }
  }
}
