/** src/components/Profile/EditProfileDialog.tsx: the profile edit dialog. */
module EditProfile {
  import opened Types
  import Text
  import Initials

  /** The dialog's text inputs. */
  datatype ProfileForm = ProfileForm(name: string, bio: string)

  /** The inputs' `name` attributes. */
  datatype Field = NameInput | BioInput

  function FieldValue(form: ProfileForm, field: Field): string {
    match field
    case NameInput => form.name
    case BioInput => form.bio
  }

  /** The form's starting values: `user?.name || ''` and `user?.bio || ''`. */
  function InitialForm(user: Option<User>): (r: ProfileForm)
    ensures user.Some? ==> r.name == user.value.name
    ensures user.None? ==> r == ProfileForm("", "")
    ensures user.Some? && user.value.bio.Some? ==> r.bio == user.value.bio.value
    ensures user.Some? && user.value.bio.None? ==> r.bio == ""
  {
    if user.None? then ProfileForm("", "")
    else ProfileForm(user.value.name, if user.value.bio.Some? then user.value.bio.value else "")
  }

  /** `handleInputChange`: the edited input takes the new value and the
      other keeps its own. */
  function HandleInputChange(form: ProfileForm, field: Field, value: string): (r: ProfileForm)
    ensures FieldValue(r, field) == value
    ensures forall f :: f != field ==> FieldValue(r, f) == FieldValue(form, f)
  {
    match field
    case NameInput => form.(name := value)
    case BioInput => form.(bio := value)
  }

  const MaxImageBytes: nat := 2 * 1024 * 1024

  /** What the image check decided. */
  datatype ImageCheck = NoImageChosen | NotAnImage | ImageTooLarge | ImageAccepted

  /** `handleFileChange`: the check's verdict and the selected image after it. */
  function HandleImageChange(selected: Option<FileInfo>, chosen: Option<FileInfo>)
    : (r: (ImageCheck, Option<FileInfo>))
    ensures r.0 == ImageAccepted <==>
              chosen.Some? && Text.IsPrefix("image/", chosen.value.mimeType) && chosen.value.size <= MaxImageBytes
    ensures r.0 == NotAnImage <==> chosen.Some? && !Text.IsPrefix("image/", chosen.value.mimeType)
    ensures r.0 == ImageTooLarge <==>
              chosen.Some? && Text.IsPrefix("image/", chosen.value.mimeType) && chosen.value.size > MaxImageBytes
    ensures r.0 == NoImageChosen <==> chosen.None?
    ensures r.0 == ImageAccepted ==> r.1 == chosen
    ensures r.0 != ImageAccepted ==> r.1 == selected
  {
    if chosen.None? then (NoImageChosen, selected)
    else if !Text.IsPrefix("image/", chosen.value.mimeType) then (NotAnImage, selected)
    else if chosen.value.size > MaxImageBytes then (ImageTooLarge, selected)
    else (ImageAccepted, chosen)
  }

  /** The fields `handleSubmit` sends; an absent field is not sent. */
  datatype ProfileUpdate = ProfileUpdate(name: Option<string>, bio: Option<string>, profilePicture: Option<FileInfo>) {
    /** `Object.keys(updateData).length`. */
    function KeyCount(): nat {
      (if name.Some? then 1 else 0) + (if bio.Some? then 1 else 0) + (if profilePicture.Some? then 1 else 0)
    }
  }

  /** The changed-fields-only update: name when it differs from the stored
      name, bio when it differs from the stored bio (an absent stored bio
      differs from every string), picture when one is selected. */
  function UpdateData(user: User, form: ProfileForm, image: Option<FileInfo>): (r: ProfileUpdate)
    ensures r.name.Some? <==> form.name != user.name
    ensures r.bio.Some? <==> user.bio != Some(form.bio)
    ensures r.name.Some? ==> r.name.value == form.name
    ensures r.bio.Some? ==> r.bio.value == form.bio
    ensures r.profilePicture == image
  {
    ProfileUpdate(
      if form.name != user.name then Some(form.name) else None,
      if user.bio != Some(form.bio) then Some(form.bio) else None,
      image)
  }

  /** What submitting the dialog did. `NameMissing`: the name input is
      `required`, so the browser refuses to submit while it is empty and
      `handleSubmit` does not run. */
  datatype SubmitResult =
    | NameMissing
    | NoUser
    | NothingChanged
    | Saved(update: ProfileUpdate)
    | SaveFailed(update: ProfileUpdate)
  {
    /** `onOpenChange(false)` is called: nothing to save, or saved. */
    predicate ClosesDialog() { NothingChanged? || Saved? }
    predicate ServiceCalled() { Saved? || SaveFailed? }
  }

  /** Submitting the form: the `required` name input blocks an empty name;
      then `handleSubmit` builds the update one field at a time, closes the
      dialog without a call when it is empty, and otherwise calls the
      service, whose outcome is `callSucceeds`. */
  method HandleSubmit(user: Option<User>, form: ProfileForm, image: Option<FileInfo>, callSucceeds: bool)
    returns (r: SubmitResult)
    ensures r == NameMissing <==> form.name == ""
    ensures r == NoUser <==> form.name != "" && user.None?
    ensures form.name != "" && user.Some? ==>
              (r == NothingChanged <==> UpdateData(user.value, form, image).KeyCount() == 0)
    ensures r.ServiceCalled() ==>
              user.Some? && r.update == UpdateData(user.value, form, image) && r.update.KeyCount() > 0
    ensures r.Saved? <==>
              form.name != "" && user.Some? && UpdateData(user.value, form, image).KeyCount() > 0 && callSucceeds
    ensures r.ClosesDialog() <==>
              form.name != "" && user.Some? && (UpdateData(user.value, form, image).KeyCount() == 0 || callSucceeds)
  {
    if form.name == "" {
      return NameMissing;
    }
    if user.None? {
      return NoUser;
    }
    var u := user.value;
    var update := ProfileUpdate(None, None, None);
    if form.name != u.name {
      update := update.(name := Some(form.name));
    }
    if Some(form.bio) != u.bio {
      update := update.(bio := Some(form.bio));
    }
    if image.Some? {
      update := update.(profilePicture := image);
    }
    if update.KeyCount() == 0 {
      return NothingChanged;
    }
    if callSucceeds {
      r := Saved(update);
    } else {
      r := SaveFailed(update);
    }
  }

  /** Submitting the untouched form with no image saves nothing when the
      stored bio is set, but sends bio '' when the stored bio is absent. */
  lemma UntouchedFormUpdate(user: User)
    ensures var update := UpdateData(user, InitialForm(Some(user)), None);
            (user.bio.Some? ==> update.KeyCount() == 0) &&
            (user.bio.None? ==> update == ProfileUpdate(None, Some(""), None))
  {
  }

  /** The dialog's avatar text: `formData.name ? getInitials(formData.name) : 'U'`. */
  function DialogAvatar(form: ProfileForm): (r: string)
    ensures form.name == "" ==> r == "U"
    ensures form.name != "" ==> r == Initials.GetInitials(form.name)
    ensures |r| <= 2
  {
    Initials.AvatarText(form.name)
  }
}
