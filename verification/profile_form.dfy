/**
 * What the two profile actions share: the submitted form values, the storage
 * and provider answers they act on, the effects they have, and the avatar step
 * both run before validating anything (initials, colour, default avatar,
 * upload, public URL).
 */
module ProfileForm {
  import opened Wrappers
  import opened JsText
  import opened Avatar
  import opened AvatarSvg

  /** A `FormData` value: text, or an uploaded file. */
  datatype FormEntry = TextEntry(text: string) | FileEntry(file: File)

  /** Truthiness of `formData.get(name)`; `None` is the `null` of a missing field. */
  predicate EntryTruthy(e: Option<FormEntry>)
  {
    e.Some? && (e.value.FileEntry? || e.value.text != "")
  }

  /**
   * `entry.size`: `undefined` for text; a file's byte length, which is zero
   * exactly when its text is empty.
   */
  function EntrySize(e: FormEntry): Option<nat>
  {
    if e.FileEntry? then Some(|e.file.content|) else None
  }

  predicate IsText(e: Option<FormEntry>)
  {
    e.Some? && e.value.TextEntry?
  }

  datatype UploadResponse = Uploaded(path: string) | UploadFailed(message: string)

  /**
   * The outside world's answers: the clock (`Date.now()`), the storage upload,
   * the public-URL mapping of the storage bucket, and the error of `updateUser`.
   */
  datatype StorageAnswers = StorageAnswers(
    now: nat,
    upload: UploadResponse,
    publicUrl: string -> string,
    updateError: Option<string>)

  /** The calls an action makes on the provider. */
  datatype Effect =
    /** `await safeGetSession()`: the session and user lookups that `Hooks.SafeGetSession` models. */
    | ResolveSession
    | Upload(bucket: string, path: string, body: FormEntry, contentType: string)
    | UpdateUser(password: Option<FormEntry>, firstName: string, lastName: string, picture: string)

  /** `getInitials` calling `charAt` on a `null` or a file throws a TypeError. */
  datatype ActionError = InitialsTypeError | AvatarUploadError(message: string)

  /** `fail(status, { success: false, errors: { key: message } })`, a success object, or a thrown error. */
  datatype ActionOutcome =
    | Failure(status: int, errorKey: string, message: string)
    | Success(redirectTo: Option<string>)
    | Thrown(error: ActionError)

  /** `` `${Date.now()}_${firstName}_${lastName}.png` `` */
  function UploadPath(now: nat, firstName: string, lastName: string): string
  {
    NatToDecimal(now) + "_" + firstName + "_" + lastName + ".png"
  }

  /** `!avatarFile || avatarFile.size === 0` */
  predicate NeedsDefaultAvatar(avatar: Option<FormEntry>)
  {
    !EntryTruthy(avatar) || EntrySize(avatar.value) == Some(0)
  }

  /** The avatar colour of two names. */
  function NameColor(firstName: string, lastName: string): string
  {
    HslColor(JsRem(Hash(GetInitials(firstName, lastName)), 360))
  }

  /** What gets uploaded: the submitted avatar, or the generated SVG badge in its place. */
  function AvatarBody(avatar: Option<FormEntry>, firstName: string, lastName: string): (body: FormEntry)
    ensures NeedsDefaultAvatar(avatar) ==>
      body == FileEntry(GenerateAvatar(GetInitials(firstName, lastName), NameColor(firstName, lastName)))
    ensures !NeedsDefaultAvatar(avatar) ==> Some(body) == avatar
    ensures EntryTruthy(Some(body))
  {
    if NeedsDefaultAvatar(avatar) then
      FileEntry(GenerateAvatar(GetInitials(firstName, lastName), NameColor(firstName, lastName)))
    else avatar.value
  }

  /** The upload call, always made: to bucket `avatars`, declared `image/png` whatever the body is. */
  function AvatarUpload(now: nat, avatar: Option<FormEntry>, firstName: string, lastName: string): (r: Effect)
    ensures r.Upload?
  {
    Upload("avatars", UploadPath(now, firstName, lastName), AvatarBody(avatar, firstName, lastName), "image/png")
  }

  /** The colour string contains no `"`, so it cannot break out of the `fill` attribute. */
  lemma {:induction false} NoQuoteInColor(hue: int)
    ensures '"' !in HslColor(hue)
  {
    var d := IntToDecimal(hue);
    assert forall i :: 0 <= i < |d| ==> d[i] == '-' || IsDigit(d[i]) by {
      if hue < 0 {
        assert d == "-" + NatToDecimal(-hue);
      }
    }
    assert HslColor(hue) == "hsl(" + d + ", 70%, 60%)";
  }

  /**
   * A default avatar shows the initials of the names, in a colour whose hue lies
   * in [0, 359]; both are read back from the SVG exactly. The hue bound rests on
   * the initials being two code units at most (`Avatar.InitialsHueInRange`).
   */
  lemma DefaultAvatarShowsInitials(avatar: Option<FormEntry>, firstName: string, lastName: string)
    requires NeedsDefaultAvatar(avatar)
    ensures var body := AvatarBody(avatar, firstName, lastName);
      var initials := GetInitials(firstName, lastName);
      var hue := JsRem(Hash(initials), 360);
      body.FileEntry? && body.file.name == "avatar.svg" &&
      0 <= hue < 360 &&
      ParseAvatarSvg(body.file.content) == Some((HslColor(hue), initials))
  {
    var initials := GetInitials(firstName, lastName);
    InitialsHueInRange(firstName, lastName);
    NoQuoteInColor(JsRem(Hash(initials), 360));
    AvatarRoundTrip(initials, NameColor(firstName, lastName));
  }

  /**
   * The avatar step of both actions: initials, colour, the default avatar in place
   * of a missing or empty one, the upload, and the public URL of what was uploaded.
   * `failure` is the message of the error thrown when the upload fails.
   */
  method UploadAvatar(firstName: string, lastName: string, avatar: Option<FormEntry>, answers: StorageAnswers)
    returns (upload: Effect, picture: string, failure: Option<string>)
    ensures upload == AvatarUpload(answers.now, avatar, firstName, lastName)
    ensures failure.Some? <==> answers.upload.UploadFailed?
    ensures failure.Some? ==> failure.value == "Avatar upload failed: " + answers.upload.message
    ensures failure.None? ==> picture == answers.publicUrl(answers.upload.path)
  {
    var initials := GetInitials(firstName, lastName);
    var avatarColor := GetAvatarColor(initials);
    picture := "";
    var avatarFile := avatar;
    if !EntryTruthy(avatarFile) || EntrySize(avatarFile.value) == Some(0) {
      avatarFile := Some(FileEntry(GenerateAvatar(initials, avatarColor)));
    }
    // `if (avatarFile)` always holds here: a falsy avatar has just been replaced.
    assert EntryTruthy(avatarFile);
    upload := Upload("avatars", UploadPath(answers.now, firstName, lastName), avatarFile.value, "image/png");
    match answers.upload {
      case UploadFailed(message) =>
        failure := Some("Avatar upload failed: " + message);
      case Uploaded(path) =>
        failure := None;
        picture := answers.publicUrl(path);
    }
  }
}
