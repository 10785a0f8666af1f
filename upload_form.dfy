/** The upload form of the upload page, as values.
 *
 *  The page keeps five pieces of state (title, description, language,
 *  rights confirmation, chosen file). Every user action is an Event; Step
 *  says what one event does to the state and which notification, if any,
 *  it shows; Run folds Step over a sequence of events. The class in
 *  module UploadPage implements the handlers in place and is proved
 *  against Step.
 */
module UploadForm {

  datatype Option<+T> = None | Some(value: T)

  /** A file picked in the file input. Only its name is ever shown. */
  datatype FileRef = FileRef(name: string)

  /** The value a checkbox reports on change: checked, unchecked or indeterminate. */
  datatype CheckedState = Unchecked | Checked | Indeterminate

  /** The two notifications the submit handler can show. */
  datatype Notification = MissingInfo | Success {

    /** The toast that is shown for this notification. */
    function Toast(): (t: ToastMessage)
      ensures t.destructive <==> this == MissingInfo
      ensures t.title != [] && t.description != []
    {
      match this
      case MissingInfo =>
        ToastMessage("Missing Information",
                     "Please fill in all required fields and confirm your rights.",
                     true)
      case Success =>
        ToastMessage("\U{1F389} Content Uploaded Successfully!",
                     "Your creativity is now shared with the world!",
                     false)
    }
  }

  datatype ToastMessage = ToastMessage(title: string, description: string, destructive: bool)

  /** The values offered by the language picker, in the order they are listed. */
  const LanguageCodes: seq<string> := ["en", "es", "fr", "de", "it", "pt", "ja", "ko", "zh", "other"]

  /** The five pieces of form state. */
  datatype FormState = FormState(
    title: string,
    description: string,
    language: string,
    rightsConfirmed: bool,
    file: Option<FileRef>)
  {
    /** The language is either not chosen yet ("") or one of the picker's values. */
    predicate Valid() {
      language == "" || language in LanguageCodes
    }
  }

  /** The state of a freshly shown form. */
  function Initial(): (s: FormState)
    ensures s.Valid()
    ensures !IsComplete(s)
    ensures s.file == None
  {
    FormState("", "", "", false, None)
  }

  /** The submit handler's presence check: only the empty string counts as missing,
   *  and the file plays no part. */
  predicate IsComplete(s: FormState) {
    s.title != "" && s.description != "" && s.language != "" && s.rightsConfirmed
  }

  /** The submit control is disabled while the rights are not confirmed. */
  predicate SubmitDisabled(s: FormState) {
    !s.rightsConfirmed
  }

  /** A user action on the form. */
  datatype Event =
    | TitleChanged(title: string)
    | DescriptionChanged(description: string)
    | LanguageChanged(code: string)
    | RightsChanged(checked: CheckedState)
    | FilesChosen(files: Option<seq<FileRef>>)
    | Submitted

  /** The language picker only ever reports one of its own values. */
  predicate WellFormed(e: Event) {
    e.LanguageChanged? ==> e.code in LanguageCodes
  }

  /** The new state of a form and the notification shown, if any. */
  datatype Reaction = Reaction(state: FormState, note: Option<Notification>)

  /** The rights flag set by the checkbox handler. */
  function RightsFromChecked(checked: CheckedState): (confirmed: bool)
    ensures confirmed <==> checked == Checked
  {
    checked == Checked
  }

  /** The file kept by the file handler: the first selected file, if there is one;
   *  otherwise the file chosen before. */
  function ChosenFile(current: Option<FileRef>, files: Option<seq<FileRef>>): (r: Option<FileRef>)
    ensures files.Some? && |files.value| > 0 ==> r == Some(files.value[0])
    ensures files == None || files == Some([]) ==> r == current
  {
    match files
    case Some(list) => if |list| > 0 then Some(list[0]) else current
    case None => current
  }

  /** The submit handler: with a field missing, the error notification and no change;
   *  otherwise the success notification and a form back at its initial state. */
  function Submit(s: FormState): (r: Reaction)
    ensures r.note == Some(Success) || r.note == Some(MissingInfo)
    ensures r.note == Some(Success) <==>
            s.title != "" && s.description != "" && s.language != "" && s.rightsConfirmed
    ensures r.note == Some(MissingInfo) ==> r.state == s
    ensures r.note == Some(Success) ==> r.state == Initial()
  {
    if !IsComplete(s) then Reaction(s, Some(MissingInfo))
    else Reaction(Initial(), Some(Success))
  }

  /** What one event does to the form. */
  function Step(s: FormState, e: Event): (r: Reaction)
    ensures r.note.Some? <==> e.Submitted?
    ensures forall f :: !Sets(e, f) && !e.Submitted? ==> Agree(s, r.state, f)
  {
    match e
    case TitleChanged(v) => Reaction(s.(title := v), None)
    case DescriptionChanged(v) => Reaction(s.(description := v), None)
    case LanguageChanged(code) => Reaction(s.(language := code), None)
    case RightsChanged(checked) => Reaction(s.(rightsConfirmed := RightsFromChecked(checked)), None)
    case FilesChosen(files) => Reaction(s.(file := ChosenFile(s.file, files)), None)
    case Submitted => Submit(s)
  }

  /** The notifications one Reaction adds to the list shown so far. */
  function Shown(note: Option<Notification>): seq<Notification> {
    match note
    case Some(n) => [n]
    case None => []
  }

  /** The final state of a form and the notifications shown, in order. */
  datatype Trace = Trace(state: FormState, notes: seq<Notification>)

  /** The form after a sequence of events, starting from s. */
  function Run(s: FormState, events: seq<Event>): Trace
    decreases |events|
  {
    if events == [] then Trace(s, [])
    else
      var r := Step(s, events[0]);
      var t := Run(r.state, events[1..]);
      Trace(t.state, Shown(r.note) + t.notes)
  }

  /** How many times the form was submitted in a sequence of events. */
  function SubmitCount(events: seq<Event>): nat
    decreases |events|
  {
    if events == [] then 0
    else (if events[0].Submitted? then 1 else 0) + SubmitCount(events[1..])
  }

  /** The five fields, to speak about one of them. */
  datatype Field = TitleField | DescriptionField | LanguageField | RightsField | FileField

  /** Two forms hold the same value in field f. */
  predicate Agree(s: FormState, t: FormState, f: Field) {
    match f
    case TitleField => s.title == t.title
    case DescriptionField => s.description == t.description
    case LanguageField => s.language == t.language
    case RightsField => s.rightsConfirmed == t.rightsConfirmed
    case FileField => s.file == t.file
  }

  /** e is the change handler of field f. */
  predicate Sets(e: Event, f: Field) {
    match e
    case TitleChanged(_) => f == TitleField
    case DescriptionChanged(_) => f == DescriptionField
    case LanguageChanged(_) => f == LanguageField
    case RightsChanged(_) => f == RightsField
    case FilesChosen(_) => f == FileField
    case Submitted => false
  }

  // ---------------------------------------------------------------------------
  // Properties of a single event

  /** The file takes no part in the check: swapping the file never changes the outcome. */
  lemma SubmitIgnoresFile(s: FormState, f: Option<FileRef>)
    ensures Submit(s.(file := f)).note == Submit(s).note
  {
  }

  /** Submitting twice in a row: the second submit always fails and changes nothing. */
  lemma RepeatedSubmitFailsAfterSuccess(s: FormState)
    requires Submit(s).note == Some(Success)
    ensures Submit(Submit(s).state) == Reaction(Initial(), Some(MissingInfo))
  {
  }

  /** Disabling the submit control only ever blocks a submit that would fail. */
  lemma DisabledSubmitWouldFail(s: FormState)
    requires SubmitDisabled(s)
    ensures Submit(s) == Reaction(s, Some(MissingInfo))
  {
  }

  /** Enabling the submit control does not make a submit succeed: an enabled form
   *  with an empty title still fails. */
  lemma EnabledSubmitCanFail()
    ensures var s := FormState("", "A demo", "en", true, None);
            !SubmitDisabled(s) && Submit(s) == Reaction(s, Some(MissingInfo))
  {
  }

  /** A title of blanks is present: only the empty string counts as missing. */
  lemma BlankTitleIsPresent()
    ensures Submit(FormState(" ", "A demo", "en", true, None)).note == Some(Success)
  {
  }

  /** A complete form is submitted, then reset. */
  lemma CompleteFormIsReset()
    ensures Submit(FormState("My Song", "A demo", "en", true, None)) == Reaction(Initial(), Some(Success))
  {
  }

  // ---------------------------------------------------------------------------
  // Properties of sequences of events

  /** The language stays "" or one of the picker's values, whatever the user does. */
  lemma {:induction false} RunPreservesValid(s: FormState, events: seq<Event>)
    requires s.Valid()
    requires forall i :: 0 <= i < |events| ==> WellFormed(events[i])
    ensures Run(s, events).state.Valid()
    decreases |events|
  {
    if events != [] {
      var r := Step(s, events[0]);
      assert WellFormed(events[0]);
      assert r.state.Valid();
      forall i | 0 <= i < |events[1..]|
        ensures WellFormed(events[1..][i])
      {
        assert events[1..][i] == events[i + 1];
      }
      RunPreservesValid(r.state, events[1..]);
    }
  }

  /** Every submit shows exactly one notification, and nothing else shows any. */
  lemma {:induction false} OneNotificationPerSubmit(s: FormState, events: seq<Event>)
    ensures |Run(s, events).notes| == SubmitCount(events)
    decreases |events|
  {
    if events != [] {
      OneNotificationPerSubmit(Step(s, events[0]).state, events[1..]);
    }
  }

  /** A field changes only through its own handler or a successful submit. */
  lemma {:induction false} FieldChangesOnlyThroughItsHandler(s: FormState, events: seq<Event>, f: Field)
    requires forall i :: 0 <= i < |events| ==> !Sets(events[i], f)
    requires Success !in Run(s, events).notes
    ensures Agree(s, Run(s, events).state, f)
    decreases |events|
  {
    if events != [] {
      var r := Step(s, events[0]);
      var t := Run(r.state, events[1..]);
      assert Run(s, events).notes == Shown(r.note) + t.notes;
      assert r.note != Some(Success) && Success !in t.notes;
      assert Agree(s, r.state, f);
      forall i | 0 <= i < |events[1..]|
        ensures !Sets(events[1..][i], f)
      {
        assert events[1..][i] == events[i + 1];
      }
      FieldChangesOnlyThroughItsHandler(r.state, events[1..], f);
    }
  }

  /** No upload succeeds unless the rights checkbox was checked: starting with the rights
   *  unconfirmed, a run without a "checked" event never shows the success notification
   *  and leaves the rights unconfirmed. */
  lemma {:induction false} NoSuccessWithoutConfirmingRights(s: FormState, events: seq<Event>)
    requires !s.rightsConfirmed
    requires forall i :: 0 <= i < |events| ==> events[i] != RightsChanged(Checked)
    ensures Success !in Run(s, events).notes
    ensures !Run(s, events).state.rightsConfirmed
    decreases |events|
  {
    if events != [] {
      var r := Step(s, events[0]);
      assert events[0] != RightsChanged(Checked);
      assert !r.state.rightsConfirmed && r.note != Some(Success);
      forall i | 0 <= i < |events[1..]|
        ensures events[1..][i] != RightsChanged(Checked)
      {
        assert events[1..][i] == events[i + 1];
      }
      NoSuccessWithoutConfirmingRights(r.state, events[1..]);
      assert Success !in Shown(r.note);
    }
  }

  /** Running a + b is running a, then b from where a left off; the notes concatenate. */
  lemma {:induction false} RunAppend(s: FormState, a: seq<Event>, b: seq<Event>)
    ensures var ta := Run(s, a);
            var tb := Run(ta.state, b);
            Run(s, a + b) == Trace(tb.state, ta.notes + tb.notes)
    decreases |a|
  {
    if a != [] {
      assert (a + b)[0] == a[0];
      assert (a + b)[1..] == a[1..] + b;
      RunAppend(Step(s, a[0]).state, a[1..], b);
    } else {
      assert a + b == b;
    }
  }

  /** The state after the first k events is one Step on from the state after the first k - 1. */
  lemma PrefixStep(s: FormState, events: seq<Event>, k: nat)
    requires k < |events|
    ensures Run(s, events[..k + 1]).state == Step(Run(s, events[..k]).state, events[k]).state
  {
    assert events[..k + 1] == events[..k] + [events[k]];
    RunAppend(s, events[..k], [events[k]]);
    assert [events[k]][1..] == [];
  }

  /** The k-th event (counting from 0) is a submit that succeeds. */
  predicate SucceedsAt(s: FormState, events: seq<Event>, k: int) {
    0 <= k < |events| && Step(Run(s, events[..k]).state, events[k]).note == Some(Success)
  }

  /** While the rights are confirmed, the last rights event was a check and no submit
   *  has succeeded since (a success resets the flag). */
  lemma {:induction false} ConfirmedSinceLastCheck(events: seq<Event>, k: nat)
    requires k <= |events|
    requires Run(Initial(), events[..k]).state.rightsConfirmed
    ensures exists i :: 0 <= i < k && events[i] == RightsChanged(Checked) &&
                        forall m :: i < m < k ==> !SucceedsAt(Initial(), events, m)
  {
    if k > 0 {
      var before := Run(Initial(), events[..k - 1]).state;
      var r := Step(before, events[k - 1]);
      PrefixStep(Initial(), events, k - 1);
      assert r.state.rightsConfirmed;
      if events[k - 1] == RightsChanged(Checked) {
        assert forall m :: k - 1 < m < k ==> !SucceedsAt(Initial(), events, m);
      } else {
        assert !SucceedsAt(Initial(), events, k - 1);
        assert before.rightsConfirmed;
        ConfirmedSinceLastCheck(events, k - 1);
        var i :| 0 <= i < k - 1 && events[i] == RightsChanged(Checked) &&
                 forall m :: i < m < k - 1 ==> !SucceedsAt(Initial(), events, m);
        assert forall m :: i < m < k ==> !SucceedsAt(Initial(), events, m);
      }
    }
  }

  /** From a fresh form, every successful upload needs its own check of the rights box:
   *  some earlier event checked it, and no upload succeeded in between. */
  lemma SuccessNeedsRightsCheckbox(events: seq<Event>, j: nat)
    requires SucceedsAt(Initial(), events, j)
    ensures exists i :: 0 <= i < j && events[i] == RightsChanged(Checked) &&
                        forall m :: i < m < j ==> !SucceedsAt(Initial(), events, m)
  {
    ConfirmedSinceLastCheck(events, j);
  }
}
