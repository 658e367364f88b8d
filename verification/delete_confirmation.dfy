/** The type-"delete" confirmation dialog (app/components/misc/DeleteConfirmation.tsx):
    the gate on the Delete button, the dialog's open state and typed text, and
    the fields its form submits. */
module DeleteConfirmation {
  import opened SeqUtil
  import opened JsText

  /** The state of a navigation or of a fetcher. */
  datatype LoadState = Idle | Submitting | Loading

  /** `isLoading` (DeleteConfirmation.tsx:38): a navigation is submitting or the
      fetcher is loading. */
  predicate IsLoading(navigation: LoadState, fetcher: LoadState) {
    navigation == Submitting || fetcher == Loading
  }

  /** A DELETE submission is under way (DeleteConfirmation.tsx:99, 102). */
  predicate Deleting(formMethodIsDelete: bool, navigation: LoadState, fetcher: LoadState) {
    formMethodIsDelete && IsLoading(navigation, fetcher)
  }

  const ConfirmWord := "delete"

  /** The Delete button's `disabled` (DeleteConfirmation.tsx:98-101): disabled
      while deleting, or when the typed text lowered is not 'delete'. */
  predicate DeleteDisabled(confirmMsg: string, deleting: bool) {
    deleting || Lower(confirmMsg) != ConfirmWord
  }

  /** The Delete button's caption (DeleteConfirmation.tsx:102). */
  function ButtonCaption(deleting: bool): (r: string)
    ensures deleting ==> r == "Deleting..."
    ensures !deleting ==> r == "Delete"
  {
    if deleting then "Deleting..." else "Delete"
  }

  /** A character lowers to the lower-case letter `d` exactly when it is `d` or
      its upper-case form. */
  lemma LowerCharIs(c: char, d: char)
    requires IsAsciiLower(d)
    ensures LowerChar(c) == d <==> c == d || c == UpperChar(d)
  {
  }

  /** The texts that pass the gate are exactly the six-letter spellings of
      'delete' in any mix of cases. */
  lemma AcceptedTexts(confirmMsg: string)
    ensures Lower(confirmMsg) == ConfirmWord <==>
              |confirmMsg| == 6 && forall i :: 0 <= i < 6 ==>
                confirmMsg[i] == ConfirmWord[i] || confirmMsg[i] == UpperChar(ConfirmWord[i])
  {
    if |confirmMsg| == 6 {
      forall i | 0 <= i < 6 ensures IsAsciiLower(ConfirmWord[i]) {
      }
      forall i | 0 <= i < 6
        ensures Lower(confirmMsg)[i] == ConfirmWord[i] <==>
                  confirmMsg[i] == ConfirmWord[i] || confirmMsg[i] == UpperChar(ConfirmWord[i])
      {
        LowerCharIs(confirmMsg[i], ConfirmWord[i]);
      }
    }
  }

  /** The button can be enabled only when nothing is being deleted and the text
      is 'delete' in some mix of cases. */
  lemma EnabledOnlyForDelete(confirmMsg: string, formMethodIsDelete: bool, navigation: LoadState, fetcher: LoadState)
    requires !DeleteDisabled(confirmMsg, Deleting(formMethodIsDelete, navigation, fetcher))
    ensures !Deleting(formMethodIsDelete, navigation, fetcher)
    ensures ButtonCaption(Deleting(formMethodIsDelete, navigation, fetcher)) == "Delete"
    ensures |confirmMsg| == 6 && forall i :: 0 <= i < 6 ==>
              confirmMsg[i] == ConfirmWord[i] || confirmMsg[i] == UpperChar(ConfirmWord[i])
  {
    AcceptedTexts(confirmMsg);
  }

  /** A value of the `data` record, as far as the form cares. */
  datatype JsValue = Str(s: string) | Num(n: int) | Bool(b: bool) | Null | Undefined

  /** The values `||` treats as false. */
  predicate Falsy(v: JsValue) {
    v == Str("") || v == Num(0) || v == Bool(false) || v == Null || v == Undefined
  }

  /** The text of a value placed in an input. */
  function ValueText(v: JsValue): string {
    match v
    case Str(s) => s
    case Num(n) => IntToString(n)
    case Bool(b) => if b then "true" else "false"
    case Null => "null"
    case Undefined => "undefined"
  }

  /** `value || ''` as an input value (DeleteConfirmation.tsx:93). */
  function FieldValue(v: JsValue): (r: string)
    ensures Falsy(v) ==> r == []
    ensures !Falsy(v) ==> r == ValueText(v)
  {
    if Falsy(v) then [] else ValueText(v)
  }

  /** Missing values and a numeric zero are all submitted as ''. */
  lemma ZeroSubmitsEmpty()
    ensures FieldValue(Num(0)) == FieldValue(Null) == FieldValue(Undefined) == []
    ensures FieldValue(Num(1)) == "1"
  {
    assert DigitChar(1) == '1';
  }

  /** A hidden input of the form. */
  datatype Field = Field(name: string, value: string)

  /** The form's inputs (DeleteConfirmation.tsx:86-95): the lowered typed text as
      `delete_confirm`, then one input per entry of `data`, in entry order. A
      missing `data` contributes no entries. */
  function SubmittedFields(confirmMsg: string, data: Option<seq<(string, JsValue)>>): (r: seq<Field>)
    ensures |r| == 1 + |data.GetOr([])|
    ensures r[0] == Field("delete_confirm", Lower(confirmMsg))
    ensures forall i :: 0 <= i < |data.GetOr([])| ==>
              r[i + 1] == Field(data.GetOr([])[i].0, FieldValue(data.GetOr([])[i].1))
  {
    var entries := data.GetOr([]);
    [Field("delete_confirm", Lower(confirmMsg))]
      + seq(|entries|, i requires 0 <= i < |entries| => Field(entries[i].0, FieldValue(entries[i].1)))
  }

  /** The form as written: `Object.entries(data)` with `data` missing throws, so
      the dialog fails to render (none); with `data` the inputs are as above. */
  function SubmittedFieldsAsWritten(confirmMsg: string, data: Option<seq<(string, JsValue)>>): (r: Option<seq<Field>>)
    ensures data.None? ==> r.None?
    ensures data.Some? ==> r.Some? && |r.value| == 1 + |data.value|
  {
    match data
    case None => None
    case Some(entries) => Some(SubmittedFields(confirmMsg, data))
  }

  /** The `data` prop is optional, yet leaving it out breaks the dialog as written;
      the guarded form renders and submits only the confirmation. */
  lemma MissingDataBreaksDialog(confirmMsg: string)
    ensures SubmittedFieldsAsWritten(confirmMsg, None) == None
    ensures SubmittedFields(confirmMsg, None) == [Field("delete_confirm", Lower(confirmMsg))]
  {
  }

  /** With `data` both forms submit the same inputs. */
  lemma GuardAgreesWithData(confirmMsg: string, entries: seq<(string, JsValue)>)
    ensures SubmittedFieldsAsWritten(confirmMsg, Some(entries)) == Some(SubmittedFields(confirmMsg, Some(entries)))
  {
  }

  /** Whenever the button is enabled, the submitted confirmation is exactly
      'delete'. */
  lemma EnabledSubmitsDelete(confirmMsg: string, deleting: bool, data: Option<seq<(string, JsValue)>>)
    requires !DeleteDisabled(confirmMsg, deleting)
    ensures SubmittedFields(confirmMsg, data)[0] == Field("delete_confirm", "delete")
  {
  }

  /** The dialog's state. */
  class DeleteDialog {
    var open: bool
    var confirmMsg: string
    var fieldError: string

    /** The initial state (DeleteConfirmation.tsx:33-35): closed, nothing typed, the
      `error` prop (or '') as field error. */
    constructor (error: Option<string>)
      ensures !open && confirmMsg == [] && fieldError == error.GetOr("")
    {
      open, confirmMsg, fieldError := false, [], error.GetOr("");
    }

    /** `onOpen` (DeleteConfirmation.tsx:41-43). */
    method OnOpen()
      modifies this
      ensures open && confirmMsg == old(confirmMsg) && fieldError == old(fieldError)
    {
      open := true;
    }

    /** `onClose` (DeleteConfirmation.tsx:44-46): closes and keeps the text. */
    method OnClose()
      modifies this
      ensures !open && confirmMsg == old(confirmMsg) && fieldError == old(fieldError)
    {
      open := false;
    }

    /** `onOpenChange` (DeleteConfirmation.tsx:52-56): any open-change event closes
      the dialog and clears the typed text and the field error, so the button is
      disabled again whatever is loading. */
    method OpenChange()
      modifies this
      ensures !open && confirmMsg == [] && fieldError == []
      ensures forall deleting :: DeleteDisabled(confirmMsg, deleting)
    {
      open, fieldError, confirmMsg := false, [], [];
    }

    /** Typing into the box (DeleteConfirmation.tsx:75) records the text as typed. */
    method Type(text: string)
      modifies this
      ensures confirmMsg == text && open == old(open) && fieldError == old(fieldError)
    {
      confirmMsg := text;
    }

    /** The box is marked as erroneous while there is a field error
      (DeleteConfirmation.tsx:74). */
    predicate ShowsInputError()
      reads this
    {
      fieldError != []
    }
  }
}
