/**
 * The `setprofile` form action: after sign-up, the user names themselves and
 * optionally picks an avatar; a default SVG badge is uploaded when they do not.
 */
module SetProfileAction {
  import opened Wrappers
  import opened AuthProvider
  import opened Hooks
  import opened ProfileForm

  /** `session?.user ? `/users/[${session.user.id}]/dashboard` : '/users'` */
  function DashboardOf(ctx: AuthContext): (path: string)
    ensures ctx.user.None? ==> path == "/users"
    ensures ctx.user.Some? ==>
      |path| == 19 + |ctx.user.value.id| && path[..8] == "/users/[" &&
      path[8..|path| - 11] == ctx.user.value.id && path[|path| - 11..] == "]/dashboard"
  {
    if ctx.user.Some? then "/users/[" + ctx.user.value.id + "]/dashboard" else "/users"
  }

  /**
   * What `setprofile` does once the avatar step has made the `upload` call:
   * a failed upload is thrown, then the names are checked, then the profile is
   * updated with the names and the upload's public URL. Returns the provider
   * calls made, in order, and the action's outcome.
   */
  function AfterAvatar(ctx: AuthContext, firstName: string, lastName: string, upload: Effect,
                       answers: StorageAnswers): (seq<Effect>, ActionOutcome)
  {
    match answers.upload
    case UploadFailed(message) => ([upload], Thrown(AvatarUploadError("Avatar upload failed: " + message)))
    case Uploaded(path) =>
      if firstName == "" then ([upload], Failure(400, "firstName", "First Name is required"))
      // The source files this message under the `firstName` key too.
      else if lastName == "" then ([upload], Failure(400, "firstName", "Last Name is required"))
      else
        var update := UpdateUser(None, firstName, lastName, answers.publicUrl(path));
        if answers.updateError.Some? then ([upload, update], Failure(400, "update", answers.updateError.value))
        else ([upload, update], Success(Some(DashboardOf(ctx))))
  }

  /**
   * What `setprofile` does, given what `safeGetSession()` resolved to, the three
   * form fields and the provider's answers. The session is looked up first; a
   * name that is not text then makes `getInitials` throw before the upload.
   */
  function SetProfileResult(ctx: AuthContext, firstName: Option<FormEntry>, lastName: Option<FormEntry>,
                            avatar: Option<FormEntry>, answers: StorageAnswers): (seq<Effect>, ActionOutcome)
  {
    if !IsText(firstName) || !IsText(lastName) then ([ResolveSession], Thrown(InitialsTypeError))
    else
      var f, l := firstName.value.text, lastName.value.text;
      var after := AfterAvatar(ctx, f, l, AvatarUpload(answers.now, avatar, f, l), answers);
      ([ResolveSession] + after.0, after.1)
  }

  /** `setprofile`: the session lookup, the avatar step, then validation, then the profile update. */
  method SetProfile(ctx: AuthContext, firstName: Option<FormEntry>, lastName: Option<FormEntry>,
                    avatar: Option<FormEntry>, answers: StorageAnswers)
    returns (effects: seq<Effect>, outcome: ActionOutcome)
    ensures (effects, outcome) == SetProfileResult(ctx, firstName, lastName, avatar, answers)
  {
    effects := [ResolveSession];
    if !IsText(firstName) || !IsText(lastName) {
      return effects, Thrown(InitialsTypeError);
    }
    var f, l := firstName.value.text, lastName.value.text;
    var upload, picture, failure := UploadAvatar(f, l, avatar, answers);
    ghost var expected := AfterAvatar(ctx, f, l, upload, answers);
    assert SetProfileResult(ctx, firstName, lastName, avatar, answers) == (effects + expected.0, expected.1);
    if failure.Some? {
      return effects + [upload], Thrown(AvatarUploadError(failure.value));
    }
    if f == "" {
      return effects + [upload], Failure(400, "firstName", "First Name is required");
    }
    if l == "" {
      return effects + [upload], Failure(400, "firstName", "Last Name is required");
    }
    effects := effects + [upload, UpdateUser(None, f, l, picture)];
    if answers.updateError.Some? {
      return effects, Failure(400, "update", answers.updateError.value);
    }
    outcome := Success(Some(DashboardOf(ctx)));
  }

  /**
   * A missing or file-valued name makes `getInitials` throw right after the
   * session lookup, before the upload.
   */
  lemma NonTextNameThrows(ctx: AuthContext, firstName: Option<FormEntry>, lastName: Option<FormEntry>,
                          avatar: Option<FormEntry>, answers: StorageAnswers)
    requires !IsText(firstName) || !IsText(lastName)
    ensures SetProfileResult(ctx, firstName, lastName, avatar, answers) == ([ResolveSession], Thrown(InitialsTypeError))
  {
  }

  /**
   * The session is looked up before anything else, once, and with two text
   * names the avatar upload is the next call.
   */
  lemma SessionComesFirst(ctx: AuthContext, firstName: Option<FormEntry>, lastName: Option<FormEntry>,
                          avatar: Option<FormEntry>, answers: StorageAnswers)
    ensures var effects := SetProfileResult(ctx, firstName, lastName, avatar, answers).0;
      1 <= |effects| <= 3 && effects[0] == ResolveSession && ResolveSession !in effects[1..] &&
      (IsText(firstName) && IsText(lastName) ==>
        2 <= |effects| && effects[1] ==
          AvatarUpload(answers.now, avatar, firstName.value.text, lastName.value.text))
  {
    var effects := SetProfileResult(ctx, firstName, lastName, avatar, answers).0;
    if IsText(firstName) && IsText(lastName) {
      var f, l := firstName.value.text, lastName.value.text;
      var upload := AvatarUpload(answers.now, avatar, f, l);
      var after := AfterAvatar(ctx, f, l, upload, answers);
      assert effects == [ResolveSession] + after.0;
      SessionOnlyBeforeAvatar(ctx, f, l, upload, answers);
      HeadAndRest(ResolveSession, after.0);
    } else {
      assert effects == [ResolveSession];
    }
  }

  /** No call after the avatar step looks the session up again. */
  lemma SessionOnlyBeforeAvatar(ctx: AuthContext, firstName: string, lastName: string, upload: Effect,
                                answers: StorageAnswers)
    requires upload.Upload?
    ensures var effects := AfterAvatar(ctx, firstName, lastName, upload, answers).0;
      1 <= |effects| <= 2 && effects[0] == upload && ResolveSession !in effects
  {
  }

  /** A sequence with one element put in front: its head, its rest and its length. */
  lemma HeadAndRest<T>(x: T, rest: seq<T>)
    ensures ([x] + rest)[0] == x && ([x] + rest)[1..] == rest && |[x] + rest| == 1 + |rest|
  {
  }

  /**
   * `safeGetSession()` always resolves to an object, so the 401 branch is never
   * taken: every failure is a 400 about a field or the update.
   */
  lemma NeverUnauthorized(ctx: AuthContext, firstName: string, lastName: string, upload: Effect,
                          answers: StorageAnswers)
    ensures var (_, outcome) := AfterAvatar(ctx, firstName, lastName, upload, answers);
      outcome.Failure? ==> outcome.status == 400 && outcome.errorKey in {"firstName", "update"}
  {
  }

  /**
   * Once the session is known, the avatar is uploaded first, before the names
   * are checked, and a failed upload ends the action with the storage's message.
   */
  lemma UploadComesFirst(ctx: AuthContext, firstName: string, lastName: string, upload: Effect,
                         answers: StorageAnswers)
    ensures var (effects, outcome) := AfterAvatar(ctx, firstName, lastName, upload, answers);
      1 <= |effects| <= 2 && effects[0] == upload && (|effects| == 2 ==> effects[1].UpdateUser?) &&
      (answers.upload.UploadFailed? <==> outcome.Thrown?) &&
      (answers.upload.UploadFailed? ==>
        |effects| == 1 && outcome.error == AvatarUploadError("Avatar upload failed: " + answers.upload.message))
  {
  }

  /** An empty name is refused after the upload, before the profile is touched. */
  lemma EmptyNameRefused(ctx: AuthContext, firstName: string, lastName: string, upload: Effect,
                         answers: StorageAnswers)
    requires answers.upload.Uploaded? && (firstName == "" || lastName == "")
    ensures var (effects, outcome) := AfterAvatar(ctx, firstName, lastName, upload, answers);
      effects == [upload] && outcome.Failure? && outcome.errorKey == "firstName" &&
      outcome.message == (if firstName == "" then "First Name is required" else "Last Name is required")
  {
  }

  /**
   * Two non-empty names and a successful upload update the profile with the
   * names and the public URL of the upload; the user then goes to their
   * dashboard, unless the update fails.
   */
  lemma ValidProfileSaved(ctx: AuthContext, firstName: string, lastName: string, upload: Effect,
                          answers: StorageAnswers)
    requires answers.upload.Uploaded? && firstName != "" && lastName != ""
    ensures var (effects, outcome) := AfterAvatar(ctx, firstName, lastName, upload, answers);
      effects == [upload, UpdateUser(None, firstName, lastName, answers.publicUrl(answers.upload.path))] &&
      outcome == (if answers.updateError.Some? then Failure(400, "update", answers.updateError.value)
                  else Success(Some(DashboardOf(ctx))))
  {
  }

  /**
   * The profile is only ever updated with two non-empty names, and the action
   * succeeds only once the update has been made.
   */
  lemma UpdateOnlyWithNames(ctx: AuthContext, firstName: string, lastName: string, upload: Effect,
                            answers: StorageAnswers)
    requires !upload.UpdateUser?
    ensures var (effects, outcome) := AfterAvatar(ctx, firstName, lastName, upload, answers);
      (forall e :: e in effects && e.UpdateUser? ==> e.firstName != "" && e.lastName != "") &&
      (outcome.Success? ==> |effects| == 2 && effects[1].UpdateUser? && outcome.redirectTo == Some(DashboardOf(ctx)))
  {
  }
}
