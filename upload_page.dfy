/** The upload page's form state, updated in place by its event handlers.
 *  Each handler is proved to do what UploadForm.Step says of its event.
 */
module UploadPage {
  import opened UploadForm

  class Upload {
    var title: string
    var description: string
    var language: string
    var rightsConfirmed: bool
    var file: Option<FileRef>

    /** The five fields as one value. */
    function State(): FormState
      reads this
    {
      FormState(title, description, language, rightsConfirmed, file)
    }

    ghost predicate Valid()
      reads this
    {
      State().Valid()
    }

    /** A freshly mounted page: empty strings, rights unconfirmed, no file. */
    constructor ()
      ensures Valid()
      ensures State() == Initial()
    {
      title := "";
      description := "";
      language := "";
      rightsConfirmed := false;
      file := None;
    }

    /** The title input's change handler. */
    method SetTitle(value: string)
      requires Valid()
      modifies this
      ensures Valid()
      ensures State() == old(State()).(title := value)
      ensures Reaction(State(), None) == Step(old(State()), TitleChanged(value))
    {
      title := value;
    }

    /** The description textarea's change handler. */
    method SetDescription(value: string)
      requires Valid()
      modifies this
      ensures Valid()
      ensures State() == old(State()).(description := value)
      ensures Reaction(State(), None) == Step(old(State()), DescriptionChanged(value))
    {
      description := value;
    }

    /** The language picker's change handler; the picker reports only its own values. */
    method SetLanguage(code: string)
      requires Valid()
      requires code in LanguageCodes
      modifies this
      ensures Valid()
      ensures State() == old(State()).(language := code)
      ensures Reaction(State(), None) == Step(old(State()), LanguageChanged(code))
    {
      language := code;
    }

    /** The rights checkbox's change handler: confirmed only for a checked box. */
    method HandleRightsChange(checked: CheckedState)
      requires Valid()
      modifies this
      ensures Valid()
      ensures State() == old(State()).(rightsConfirmed := checked == Checked)
      ensures Reaction(State(), None) == Step(old(State()), RightsChanged(checked))
    {
      rightsConfirmed := checked == Checked;
    }

    /** The file input's change handler: keeps the first selected file, if any. */
    method HandleFileChange(files: Option<seq<FileRef>>)
      requires Valid()
      modifies this
      ensures Valid()
      ensures files.Some? && |files.value| > 0 ==> State() == old(State()).(file := Some(files.value[0]))
      ensures !(files.Some? && |files.value| > 0) ==> State() == old(State())
      ensures Reaction(State(), None) == Step(old(State()), FilesChosen(files))
    {
      if files.Some? && |files.value| > 0 {
        file := Some(files.value[0]);
      }
    }

    /** The form's submit handler; returns the notification it shows. */
    method HandleSubmit() returns (note: Notification)
      requires Valid()
      modifies this
      ensures Valid()
      ensures note == Success <==>
              old(title) != "" && old(description) != "" && old(language) != "" && old(rightsConfirmed)
      ensures note == MissingInfo ==> State() == old(State())
      ensures note == Success ==> State() == Initial()
      ensures Reaction(State(), Some(note)) == Step(old(State()), Submitted)
    {
      if title == "" || description == "" || language == "" || !rightsConfirmed {
        note := MissingInfo;
        return;
      }
      note := Success;
      title := "";
      description := "";
      language := "";
      rightsConfirmed := false;
      file := None;
    }

    /** Whether the submit button is disabled. */
    function SubmitButtonDisabled(): (disabled: bool)
      reads this
      ensures disabled ==> Step(State(), Submitted) == Reaction(State(), Some(MissingInfo))
    {
      SubmitDisabled(State())
    }
  }
}
