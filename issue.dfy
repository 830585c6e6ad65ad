/**
 * The single-badge form of app/admin/issue/page.tsx: `handleSubmit` uploads
 * the chosen image (if any), creates the badge, asks for the notification
 * email and resets the form, stopping at the first step that fails.
 */
module Issue {
  import opened Wrappers
  import opened Replies
  import BadgesApi
  import SendEmail

  /** The form's fields. */
  datatype Form = Form(
    user_email: string,
    badge_name: string,
    badge_description: string,
    event_name: string,
    badge_image_url: string)

  const EmptyForm: Form := Form("", "", "", "", "")

  /** The image URL the badge gets, or the message that ends the submission. */
  datatype ImageStep = Proceed(url: Option<string>) | Abort(message: string)

  /**
   * A chosen file is uploaded and its public URL replaces the typed one; a
   * reply that is not ok ends with its error or 'Failed to upload image'.
   */
  function FinalImage(hasFile: bool, typed: string, upload: UploadReply): (s: ImageStep)
    ensures !hasFile ==> s == Proceed(Some(typed))
    ensures hasFile && upload.UploadAnswer? && upload.ok ==> s == Proceed(upload.publicUrl)
    ensures hasFile && upload.UploadAnswer? && !upload.ok ==>
      s == Abort(if Truthy(upload.error) then upload.error.value else "Failed to upload image")
    ensures hasFile && upload.UploadRejected? ==> s == Abort(upload.reason)
  {
    if !hasFile then Proceed(Some(typed))
    else
      match upload
      case UploadRejected(reason) => Abort(reason)
      case UploadAnswer(ok, publicUrl, error) =>
        if ok then Proceed(publicUrl) else Abort(OrElse(error, "Failed to upload image"))
  }

  /** `{ ...form, badge_image_url: finalImageUrl }`; an undefined URL is left out of the JSON. */
  function CreateBodyOf(form: Form, url: Option<string>): (b: BadgesApi.CreateBody)
    ensures b.user_email == Some(form.user_email) && b.badge_name == Some(form.badge_name)
    ensures b.badge_description == Some(form.badge_description) && b.event_name == Some(form.event_name)
    ensures b.badge_image_url == url && b.credential_id.None?
  {
    BadgesApi.CreateBody(Some(form.user_email), Some(form.badge_name), Some(form.badge_description),
                         Some(form.event_name), url, None)
  }

  /** The notification request: the form's recipient, badge and event, and a link to the dashboard of this site. */
  function MailBodyOf(form: Form, origin: string): (b: SendEmail.EmailBody)
    ensures b.to_email == Some(form.user_email) && b.badge_name == Some(form.badge_name)
    ensures b.event_name == Some(form.event_name) && b.badge_link == Some(origin + "/dashboard")
    ensures b.is_new_user.None? && b.badge_id.None?
  {
    SendEmail.EmailBody(Some(form.user_email), Some(form.badge_name), Some(form.event_name),
                        Some(origin + "/dashboard"), None, None)
  }

  class IssuePage {
    var form: Form
    /** The chosen image file, by name. */
    var imageFile: Option<string>
    var imagePreview: Option<string>
    var loading: bool

    constructor ()
      ensures form == EmptyForm && imageFile.None? && imagePreview.None? && !loading
    {
      form := EmptyForm;
      imageFile := None;
      imagePreview := None;
      loading := false;
    }

    /**
     * `handleSubmit`. `upload`, `create` and `mail` are the answers to the
     * three requests and `origin` is the page's origin. The requests actually
     * sent are returned (`uploaded` for the file upload); `toast` is the
     * message shown at the end.
     */
    method HandleSubmit(upload: UploadReply, create: CreateReply, mail: MailReply, origin: string)
      returns (uploaded: bool, createSent: Option<BadgesApi.CreateBody>, mailSent: Option<SendEmail.EmailBody>, toast: Notice)
      modifies this
      ensures !loading
      // the upload is attempted exactly when a file is chosen
      ensures uploaded <==> old(imageFile).Some?
      // a failed upload ends the submission before the badge request
      ensures createSent.Some? <==> FinalImage(old(imageFile).Some?, old(form).badge_image_url, upload).Proceed?
      ensures createSent.Some? ==>
        createSent.value == CreateBodyOf(old(form), FinalImage(old(imageFile).Some?, old(form).badge_image_url, upload).url)
      ensures FinalImage(old(imageFile).Some?, old(form).badge_image_url, upload).Abort? ==>
        toast == ToastError(FinalImage(old(imageFile).Some?, old(form).badge_image_url, upload).message)
      // a failed creation ends the submission before the email request
      ensures mailSent.Some? <==> createSent.Some? && create.CreateAnswer? && create.ok
      ensures mailSent.Some? ==> mailSent.value == MailBodyOf(old(form), origin)
      ensures createSent.Some? && create.CreateAnswer? && !create.ok ==>
        toast == ToastError(OrElse(create.error, "Failed to create badge"))
      ensures createSent.Some? && create.CreateRejected? ==> toast == ToastError(create.reason)
      // once the email was answered the badge stands: the form is cleared and the outcome reported
      ensures mailSent.Some? && mail.MailAnswer? ==>
        && form == EmptyForm && imageFile.None? && imagePreview.None?
        && toast == (if mail.ok then ToastSuccess("Badge issued successfully and email sent!")
                     else ToastError("Badge created, but email failed to send"))
      ensures mailSent.Some? && mail.MailRejected? ==> toast == ToastError(mail.reason)
      // every other ending leaves the form as it was
      ensures !(mailSent.Some? && mail.MailAnswer?) ==>
        form == old(form) && imageFile == old(imageFile) && imagePreview == old(imagePreview)
    {
      loading := true;
      uploaded, createSent, mailSent := false, None, None;
      uploaded := imageFile.Some?;
      var image := FinalImage(imageFile.Some?, form.badge_image_url, upload);
      if image.Abort? {
        toast := ToastError(image.message);
        loading := false;
        return;
      }
      var body := CreateBodyOf(form, image.url);
      createSent := Some(body);
      match create {
        case CreateRejected(reason) =>
          toast := ToastError(reason);
          loading := false;
          return;
        case CreateAnswer(ok, _, error, _, _) =>
          if !ok {
            toast := ToastError(OrElse(error, "Failed to create badge"));
            loading := false;
            return;
          }
      }
      mailSent := Some(MailBodyOf(form, origin));
      match mail {
        case MailRejected(reason) =>
          toast := ToastError(reason);
          loading := false;
          return;
        case MailAnswer(ok) =>
          toast := if ok then ToastSuccess("Badge issued successfully and email sent!")
                   else ToastError("Badge created, but email failed to send");
      }
      form := EmptyForm;
      imageFile := None;
      imagePreview := None;
      loading := false;
    }
  }
}
