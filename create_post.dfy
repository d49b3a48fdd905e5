/** The new-post form: a title, a content and an image URL.  `onSubmit`
    is the returned form. */
module CreatePost {
  import opened Common
  import opened Validation

  const MissingTitleOrContent: string :=
    "Vui l\U{00F2}ng \U{0111}i\U{1EC1}n ti\U{00EA}u \U{0111}\U{1EC1} v\U{00E0} n\U{1ED9}i dung"

  const EmptyPost: PostForm := PostForm("", "", "")

  datatype PostField = Title | Content | Image

  /** `{ ...prev, [name]: value }`. */
  function WithPostField(form: PostForm, field: PostField, value: string): (r: PostForm)
    ensures field == Title ==> r == form.(title := value)
    ensures field == Content ==> r == form.(content := value)
    ensures field == Image ==> r == form.(image := value)
  {
    match field
    case Title => form.(title := value)
    case Content => form.(content := value)
    case Image => form.(image := value)
  }

  /** The component's own check: a title and a content that are not blank
      once trimmed.  It accepts exactly what the shared post validator
      accepts. */
  function CanSubmit(form: PostForm): (b: bool)
    ensures b <==> !AllSpace(form.title) && !AllSpace(form.content)
  {
    TrimEmptyIffAllSpace(form.title);
    TrimEmptyIffAllSpace(form.content);
    Trim(form.title) != "" && Trim(form.content) != ""
  }

  lemma CanSubmitIsPostValid(form: PostForm)
    ensures CanSubmit(form) <==> ValidatePostForm(form) == Valid
  {
    TrimEmptyIffAllSpace(form.title);
    TrimEmptyIffAllSpace(form.content);
  }

  /** The image never decides whether a post can be submitted. */
  lemma ImageIsOptional(form: PostForm, image: string)
    ensures CanSubmit(form) == CanSubmit(WithPostField(form, Image, image))
  {
  }

  class Composer {
    var form: PostForm
    var error: string

    constructor ()
      ensures form == EmptyPost && error == ""
    {
      form, error := EmptyPost, "";
    }

    /** `handleChange`: only the named field changes. */
    method HandleChange(field: PostField, value: string)
      modifies this
      ensures form == WithPostField(old(form), field, value) && error == old(error)
    {
      form := WithPostField(form, field, value);
    }

    /** `handleSubmit`: a blank title or content shows the error and keeps
        the form; otherwise the form is submitted and everything cleared. */
    method HandleSubmit() returns (submitted: Option<PostForm>)
      modifies this
      ensures !CanSubmit(old(form)) ==>
                submitted.None? && error == MissingTitleOrContent && form == old(form)
      ensures CanSubmit(old(form)) ==>
                submitted == Some(old(form)) && form == EmptyPost && error == ""
    {
      if Trim(form.title) == "" || Trim(form.content) == "" {
        error := MissingTitleOrContent;
        return None;
      }
      submitted := Some(form);
      form := EmptyPost;
      error := "";
    }
  }
}
