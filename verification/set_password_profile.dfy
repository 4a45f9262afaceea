/**
 * The `setpasswordprofile` form action: an invited user sets a password, their
 * names and optionally an avatar in one step.
 */
module SetPasswordProfileAction {
  import opened Wrappers
  import opened ProfileForm

  /**
   * What `setpasswordprofile` does once the avatar step has made the `upload`
   * call: a failed upload is thrown, then the password and the names are
   * checked, then the user is updated with the password, the names and the
   * upload's public URL. Returns the provider calls made, in order, and the
   * action's outcome.
   */
  function AfterAvatar(firstName: string, lastName: string, password: Option<FormEntry>, upload: Effect,
                       answers: StorageAnswers): (seq<Effect>, ActionOutcome)
  {
    match answers.upload
    case UploadFailed(message) => ([upload], Thrown(AvatarUploadError("Avatar upload failed: " + message)))
    case Uploaded(path) =>
      if !EntryTruthy(password) then ([upload], Failure(400, "password", "Password is required"))
      else if firstName == "" then ([upload], Failure(400, "firstName", "First Name is required"))
      // The source files this message under the `firstName` key too.
      else if lastName == "" then ([upload], Failure(400, "firstName", "Last Name is required"))
      else
        var update := UpdateUser(password, firstName, lastName, answers.publicUrl(path));
        if answers.updateError.Some? then ([upload, update], Failure(400, "update", answers.updateError.value))
        else ([upload, update], Success(None))
  }

  /**
   * What `setpasswordprofile` does, given the four form fields and the
   * provider's answers. A name that is not text makes `getInitials` throw
   * before anything else happens.
   */
  function SetPasswordProfileResult(firstName: Option<FormEntry>, lastName: Option<FormEntry>,
                                    password: Option<FormEntry>, avatar: Option<FormEntry>,
                                    answers: StorageAnswers): (seq<Effect>, ActionOutcome)
  {
    if !IsText(firstName) || !IsText(lastName) then ([], Thrown(InitialsTypeError))
    else
      var f, l := firstName.value.text, lastName.value.text;
      AfterAvatar(f, l, password, AvatarUpload(answers.now, avatar, f, l), answers)
  }

  /** `setpasswordprofile`: the avatar step, then validation, then the user update. */
  method SetPasswordProfile(firstName: Option<FormEntry>, lastName: Option<FormEntry>,
                            password: Option<FormEntry>, avatar: Option<FormEntry>, answers: StorageAnswers)
    returns (effects: seq<Effect>, outcome: ActionOutcome)
    ensures (effects, outcome) == SetPasswordProfileResult(firstName, lastName, password, avatar, answers)
  {
    if !IsText(firstName) || !IsText(lastName) {
      return [], Thrown(InitialsTypeError);
    }
    var f, l := firstName.value.text, lastName.value.text;
    var upload, picture, failure := UploadAvatar(f, l, avatar, answers);
    ghost var expected := AfterAvatar(f, l, password, upload, answers);
    assert SetPasswordProfileResult(firstName, lastName, password, avatar, answers) == expected;
    if failure.Some? {
      return [upload], Thrown(AvatarUploadError(failure.value));
    }
    if !EntryTruthy(password) {
      return [upload], Failure(400, "password", "Password is required");
    }
    if f == "" {
      return [upload], Failure(400, "firstName", "First Name is required");
    }
    if l == "" {
      return [upload], Failure(400, "firstName", "Last Name is required");
    }
    effects := [upload, UpdateUser(password, f, l, picture)];
    if answers.updateError.Some? {
      return effects, Failure(400, "update", answers.updateError.value);
    }
    outcome := Success(None);
  }

  /** A missing or file-valued name makes `getInitials` throw before anything else happens. */
  lemma NonTextNameThrows(firstName: Option<FormEntry>, lastName: Option<FormEntry>,
                          password: Option<FormEntry>, avatar: Option<FormEntry>, answers: StorageAnswers)
    requires !IsText(firstName) || !IsText(lastName)
    ensures SetPasswordProfileResult(firstName, lastName, password, avatar, answers) == ([], Thrown(InitialsTypeError))
  {
  }

  /**
   * The avatar is uploaded first, before the password and the names are
   * checked, and a failed upload ends the action with the storage's message.
   */
  lemma UploadComesFirst(firstName: string, lastName: string, password: Option<FormEntry>, upload: Effect,
                         answers: StorageAnswers)
    ensures var (effects, outcome) := AfterAvatar(firstName, lastName, password, upload, answers);
      1 <= |effects| <= 2 && effects[0] == upload && (|effects| == 2 ==> effects[1].UpdateUser?) &&
      (answers.upload.UploadFailed? <==> outcome.Thrown?) &&
      (answers.upload.UploadFailed? ==>
        |effects| == 1 && outcome.error == AvatarUploadError("Avatar upload failed: " + answers.upload.message))
  {
  }

  /** A missing or empty password is refused first, then an empty name; every failure is a 400. */
  lemma MissingFieldRefused(firstName: string, lastName: string, password: Option<FormEntry>, upload: Effect,
                            answers: StorageAnswers)
    requires answers.upload.Uploaded? && (!EntryTruthy(password) || firstName == "" || lastName == "")
    ensures var (effects, outcome) := AfterAvatar(firstName, lastName, password, upload, answers);
      effects == [upload] && outcome.Failure? && outcome.status == 400 &&
      outcome.errorKey == (if !EntryTruthy(password) then "password" else "firstName") &&
      outcome.message == (if !EntryTruthy(password) then "Password is required"
                          else if firstName == "" then "First Name is required"
                          else "Last Name is required")
  {
  }

  /**
   * A password and two non-empty names with a successful upload update the user
   * with all three and the public URL of the upload; success carries no redirect.
   */
  lemma ValidProfileSaved(firstName: string, lastName: string, password: Option<FormEntry>, upload: Effect,
                          answers: StorageAnswers)
    requires answers.upload.Uploaded? && EntryTruthy(password) && firstName != "" && lastName != ""
    ensures var (effects, outcome) := AfterAvatar(firstName, lastName, password, upload, answers);
      effects == [upload, UpdateUser(password, firstName, lastName, answers.publicUrl(answers.upload.path))] &&
      outcome == (if answers.updateError.Some? then Failure(400, "update", answers.updateError.value)
                  else Success(None))
  {
  }

  /**
   * The password is only ever changed to a present, non-empty value, together
   * with two non-empty names, and the action succeeds only once that update is made.
   */
  lemma PasswordOnlyWithNames(firstName: string, lastName: string, password: Option<FormEntry>, upload: Effect,
                              answers: StorageAnswers)
    requires !upload.UpdateUser?
    ensures var (effects, outcome) := AfterAvatar(firstName, lastName, password, upload, answers);
      (forall e :: e in effects && e.UpdateUser? ==>
        EntryTruthy(e.password) && e.firstName != "" && e.lastName != "") &&
      (outcome.Success? ==> |effects| == 2 && effects[1].UpdateUser? && outcome.redirectTo.None?)
  {
  }
}
