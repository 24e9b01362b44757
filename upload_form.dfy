/** The upload form: the files picked or dropped, the title and tags typed,
    and the submit handler that uploads the files one after another. */
module UploadPanel {
  import opened Common
  import opened JsString
  import opened JsNumber
  import opened Media
  import opened UploadRoute
  import opened GalleryPage

  /** A file the drop zone accepts: its type starts with `image/`. */
  predicate IsImage(f: File): (b: bool)
    ensures b ==> |f.mimeType| >= 6 && f.mimeType == "image/" + f.mimeType[6..]
  {
    StartsWith(f.mimeType, "image/")
  }

  /** The dropped files that are images, in the order dropped. */
  function ImageFiles(files: seq<File>): (r: seq<File>)
    ensures |r| <= |files|
    ensures forall f :: f in r <==> f in files && IsImage(f)
    decreases |files|
  {
    if files == [] then []
    else (if IsImage(files[0]) then [files[0]] else []) + ImageFiles(files[1..])
  }

  /** Filtering two batches is filtering each: the order is kept. */
  lemma {:induction false} ImageFilesConcat(a: seq<File>, b: seq<File>)
    ensures ImageFiles(a + b) == ImageFiles(a) + ImageFiles(b)
    decreases |a|
  {
    if a == [] {
      assert a + b == b;
    } else {
      assert (a + b)[0] == a[0];
      assert (a + b)[1..] == a[1..] + b;
      ImageFilesConcat(a[1..], b);
    }
  }

  /** A batch of images only is kept whole. */
  lemma {:induction false} ImageFilesAllImages(files: seq<File>)
    requires forall i :: 0 <= i < |files| ==> IsImage(files[i])
    ensures ImageFiles(files) == files
    decreases |files|
  {
    if files != [] {
      ImageFilesAllImages(files[1..]);
      assert [files[0]] + files[1..] == files;
    }
  }

  /** `files.filter((_, i) => i !== index)`: every element but the one at
      position `index`. */
  function WithoutIndex(files: seq<File>, index: int): (r: seq<File>)
    ensures |r| <= |files|
    decreases |files|
  {
    if files == [] then []
    else (if index == 0 then [] else [files[0]]) + WithoutIndex(files[1..], index - 1)
  }

  /** Removing position `index` of a list: the elements before and after
      it, in order. */
  lemma {:induction false} WithoutIndexInRange(files: seq<File>, index: int)
    requires 0 <= index < |files|
    ensures WithoutIndex(files, index) == files[..index] + files[index + 1..]
    decreases |files|
  {
    var rest := files[1..];
    if index == 0 {
      assert WithoutIndex(files, index) == WithoutIndex(rest, -1);
      WithoutIndexOutOfRange(rest, -1);
      assert rest == files[index + 1..];
    } else {
      WithoutIndexInRange(rest, index - 1);
      assert files[..index] == [files[0]] + rest[..index - 1];
      assert files[index + 1..] == rest[index..];
    }
  }

  /** An index outside the list removes nothing. */
  lemma {:induction false} WithoutIndexOutOfRange(files: seq<File>, index: int)
    requires !(0 <= index < |files|)
    ensures WithoutIndex(files, index) == files
    decreases |files|
  {
    if files != [] {
      var rest := files[1..];
      assert index != 0 && !(0 <= index - 1 < |rest|);
      WithoutIndexOutOfRange(rest, index - 1);
      assert WithoutIndex(files, index) == [files[0]] + WithoutIndex(rest, index - 1);
      assert [files[0]] + rest == files;
    }
  }

  /** The list in reverse order. */
  function Reversed(s: seq<Resource>): (r: seq<Resource>)
    ensures |r| == |s|
    ensures forall i :: 0 <= i < |s| ==> r[i] == s[|s| - 1 - i]
    decreases |s|
  {
    if s == [] then [] else Reversed(s[1..]) + [s[0]]
  }

  /** One more element at the end of a list is one more at the front of its
      reverse. */
  lemma ReversedSnoc(s: seq<Resource>, x: Resource)
    ensures Reversed(s + [x]) == [x] + Reversed(s)
  {
    var a, b := Reversed(s + [x]), [x] + Reversed(s);
    assert forall i :: 0 <= i < |a| ==> a[i] == b[i];
  }

  /** The form data sent for one file. */
  function Request(file: File, title: string, tagString: string): (r: UploadForm)
    ensures !Falsy(r.image) && r.image.value.FileValue? && r.image.value.file == file
    ensures r.title == Some(title) && r.tags == Some(tagString)
  {
    UploadForm(Some(FileValue(file)), Some(title), Some(tagString))
  }

  /** The upload of file `i` fails. */
  predicate FailsAt(send: UploadForm -> Result<Resource>, files: seq<File>, i: int, title: string, tagString: string) {
    0 <= i < |files| && send(Request(files[i], title, tagString)).Err?
  }

  /** What the upload route does with a request from the form: it never
      rejects it, and it uploads that file to the gallery folder with the
      title and tags typed into the form. */
  lemma RequestAccepted(file: File, title: string, tagString: string, clock: nat, createdAt: int,
                        upload: UploadParams -> Result<Resource>)
    ensures var r := Post(Request(file, title, tagString), clock, createdAt, upload);
      && !r.1.UploadRejected?
      && r.0.Some?
      && r.0.value.file == file && r.0.value.folder == Folder
      && r.0.value.tags == ParseTags(tagString)
      && r.0.value.context == ContextString(title, tagString)
  {
  }

  /** The notice the form shows. */
  datatype Notice =
    | NoNotice
    | OnlyImages        // "Please upload only image files"
    | SelectImage       // "Please select at least one image"
    | EnterTitle        // "Please enter a title"
    | UploadError       // "Error uploading image"
    | UploadedCount(count: nat)  // "<count> image(s) uploaded successfully!"

  datatype DragEvent = DragEnter | DragOver | DragLeave

  /** The state of the form. */
  class Form {
    var files: seq<File>
    var title: string
    var tags: string
    var uploading: bool
    var dragActive: bool

    constructor ()
      ensures files == [] && title == [] && tags == [] && !uploading && !dragActive
    {
      files := [];
      title := [];
      tags := [];
      uploading := false;
      dragActive := false;
    }

    /** `handleDrag`: entering or moving over the zone makes it active,
        leaving makes it inactive. */
    method HandleDrag(event: DragEvent)
      modifies this`dragActive
      ensures dragActive <==> event != DragLeave
    {
      if event == DragEnter || event == DragOver {
        dragActive := true;
      } else {
        dragActive := false;
      }
    }

    /** `handleDrop`: the zone becomes inactive; the dropped images are
        appended, and a drop with files but no image is refused. */
    method HandleDrop(dropped: seq<File>) returns (notice: Notice)
      modifies this`dragActive, this`files
      ensures !dragActive
      ensures files == old(files) + ImageFiles(dropped)
      ensures notice == OnlyImages <==> dropped != [] && ImageFiles(dropped) == []
      ensures notice == NoNotice || notice == OnlyImages
    {
      dragActive := false;
      notice := NoNotice;
      if |dropped| > 0 {
        var newFiles := ImageFiles(dropped);
        if |newFiles| == 0 {
          notice := OnlyImages;
          return;
        }
        files := files + newFiles;
      }
    }

    /** `handleFileChange`: every chosen file is appended, whatever its
        type. */
    method HandleFileChange(chosen: seq<File>)
      modifies this`files
      ensures files == old(files) + chosen
    {
      if |chosen| > 0 {
        files := files + chosen;
      }
    }

    /** `removeFile(index)` */
    method RemoveFile(index: int)
      modifies this`files
      ensures files == WithoutIndex(old(files), index)
      ensures 0 <= index < |old(files)| ==> |files| == |old(files)| - 1
    {
      if 0 <= index < |files| {
        WithoutIndexInRange(files, index);
      }
      files := WithoutIndex(files, index);
    }

    /** `handleSubmit`. `send` is the POST of one file's form data, which
        answers with the stored record or fails (a network error, a status
        other than 2xx); each record received is handed to the page. The
        files go one at a time, in order, and the first failure stops the
        rest. `uploaded` holds the records received, in order. */
    method HandleSubmit(send: UploadForm -> Result<Resource>, home: Home)
      returns (uploaded: seq<Resource>, notice: Notice)
      modifies this`files, this`title, this`tags, this`uploading, home`images
      ensures uploading == if old(files) == [] || old(title) == [] then old(uploading) else false
      ensures home.images == Reversed(uploaded) + old(home.images)
      ensures |uploaded| <= |old(files)|
      ensures forall j :: 0 <= j < |uploaded| ==>
        send(Request(old(files)[j], old(title), old(tags))) == Ok(uploaded[j])
      ensures old(files) == [] ==> notice == SelectImage
      ensures old(files) != [] && old(title) == [] ==> notice == EnterTitle
      ensures old(files) == [] || old(title) == [] ==>
        uploaded == [] && files == old(files) && title == old(title) && tags == old(tags)
      ensures old(files) != [] && old(title) != [] && |uploaded| == |old(files)| ==>
        files == [] && title == [] && tags == [] && notice == UploadedCount(|old(files)|)
      ensures old(files) != [] && old(title) != [] && |uploaded| < |old(files)| ==>
        && FailsAt(send, old(files), |uploaded|, old(title), old(tags))
        && files == old(files) && title == old(title) && tags == old(tags)
        && notice == UploadError
    {
      uploaded := [];
      if |files| == 0 {
        notice := SelectImage;
        return;
      }
      if title == [] {
        notice := EnterTitle;
        return;
      }

      uploading := true;
      var failed;
      uploaded, failed := UploadEach(files, title, tags, send, home);
      if failed {
        notice := UploadError;
      } else {
        var count := |files|;
        title := [];
        tags := [];
        files := [];
        notice := UploadedCount(count);
      }
      uploading := false;
    }
  }

  /** The `for...of` loop of `handleSubmit`: each file sent in turn with the
      same title and tags, each record received handed to the page, and the
      first failure ending the loop. */
  method UploadEach(files: seq<File>, title: string, tagString: string,
                    send: UploadForm -> Result<Resource>, home: Home)
    returns (uploaded: seq<Resource>, failed: bool)
    modifies home`images
    ensures |uploaded| <= |files|
    ensures forall j :: 0 <= j < |uploaded| ==> send(Request(files[j], title, tagString)) == Ok(uploaded[j])
    ensures failed <==> |uploaded| < |files|
    ensures failed ==> FailsAt(send, files, |uploaded|, title, tagString)
    ensures home.images == Reversed(uploaded) + old(home.images)
  {
    uploaded := [];
    failed := false;
    var i := 0;
    while i < |files|
      invariant 0 <= i <= |files| && |uploaded| == i && !failed
      invariant forall j :: 0 <= j < i ==> send(Request(files[j], title, tagString)) == Ok(uploaded[j])
      invariant home.images == Reversed(uploaded) + old(home.images)
    {
      var response := send(Request(files[i], title, tagString));
      if response.Err? {
        failed := true;
        return;
      }
      home.HandleImageUpload(response.value);
      ReversedSnoc(uploaded, response.value);
      uploaded := uploaded + [response.value];
      i := i + 1;
    }
  }
}
