/** The image modal: the two-step delete confirmation, the loading flag it
    resets when it is opened, and the name it downloads the image under. */
module ImageModal {
  import opened Common
  import opened Media

  /** `${image.title || "image"}.jpg` */
  function DownloadName(title: Option<string>): (name: string)
    ensures |name| > 4 && name[|name| - 4..] == ".jpg"
    ensures title.Some? && title.value != [] ==> name[..|name| - 4] == title.value
    ensures title.None? || title.value == [] ==> name[..|name| - 4] == "image"
  {
    StringOr(title, "image") + ".jpg"
  }

  /** Two titles give the same download name exactly when they give the
      same stem, an absent or empty title standing for `image`: an image
      titled `image` and an untitled one download under the same name. */
  lemma DownloadNameInjective(a: Option<string>, b: Option<string>)
    ensures DownloadName(a) == DownloadName(b) <==> StringOr(a, "image") == StringOr(b, "image")
  {
    var x, y := DownloadName(a), DownloadName(b);
    if x == y {
      assert x[..|x| - 4] == y[..|y| - 4];
    }
  }

  /** What an open modal shows. */
  datatype Shown = Shown(image: Resource, confirmDelete: bool, isLoading: bool)

  /** The modal's state and the two properties it is given. */
  class Modal {
    /** The `image` and `isOpen` properties. */
    var image: Option<Resource>
    var isOpen: bool
    var confirmDelete: bool
    var isLoading: bool

    constructor (image: Option<Resource>, isOpen: bool)
      ensures this.image == image && this.isOpen == isOpen
      ensures !confirmDelete && isLoading
    {
      this.image := image;
      this.isOpen := isOpen;
      confirmDelete := false;
      isLoading := true;
    }

    /** New properties. The effect runs when either of them changed, and
        when the modal is open it disarms the confirmation and shows the
        image as loading again. */
    method SetProps(newImage: Option<Resource>, newOpen: bool)
      modifies this
      ensures image == newImage && isOpen == newOpen
      ensures var reset := newOpen && (newImage != old(image) || newOpen != old(isOpen));
        && confirmDelete == (if reset then false else old(confirmDelete))
        && isLoading == (if reset then true else old(isLoading))
    {
      var changed := newImage != image || newOpen != isOpen;
      image := newImage;
      isOpen := newOpen;
      if changed && isOpen {
        confirmDelete := false;
        isLoading := true;
      }
    }

    /** The delete button (only shown while the modal is open, with an
        image). Unarmed, it arms the confirmation; armed, it asks the page
        to delete the image shown, whose id is returned. */
    method HandleDelete() returns (deleteId: Option<string>)
      requires isOpen && image.Some?
      modifies this`confirmDelete
      ensures deleteId.Some? <==> old(confirmDelete)
      ensures deleteId.Some? ==> deleteId.value == image.value.publicId
      ensures confirmDelete
    {
      if confirmDelete {
        deleteId := Some(image.value.publicId);
      } else {
        confirmDelete := true;
        deleteId := None;
      }
    }

    /** The timeout set when the confirmation was armed. */
    method TimerFires()
      modifies this`confirmDelete
      ensures !confirmDelete
    {
      confirmDelete := false;
    }

    /** The image finished loading. */
    method ImageLoaded()
      modifies this`isLoading
      ensures !isLoading
    {
      isLoading := false;
    }

    /** What is rendered: nothing when the modal is closed. */
    function View(): (v: Option<Shown>)
      requires isOpen ==> image.Some?
      reads this
      ensures v.None? <==> !isOpen
      ensures v.Some? ==> v.value.image == image.value && v.value.confirmDelete == confirmDelete
    {
      if !isOpen then None else Some(Shown(image.value, confirmDelete, isLoading))
    }
  }

  /** The delete button pressed twice on an open modal: the first press
      only arms the confirmation, the second asks for the image to be
      deleted, once. */
  method PressTwice(m: Modal) returns (first: Option<string>, second: Option<string>)
    requires m.isOpen && m.image.Some? && !m.confirmDelete
    modifies m`confirmDelete
    ensures first.None?
    ensures second == Some(m.image.value.publicId)
  {
    first := m.HandleDelete();
    second := m.HandleDelete();
  }
}
