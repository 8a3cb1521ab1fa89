/** The "add product" form: choosing and removing images, validating the required
    fields, uploading every chosen file and inserting the product row. The storage
    bucket and the product table are oracles given as parameters. */
module NewProduct {
  import opened Wrappers
  import opened Seqs
  import opened Text

  /** A chosen file: its name, its MIME type and its size in bytes. */
  datatype File = File(name: string, mimeType: string, size: int)

  /** The 5 MB preview limit. */
  const MaxPreviewBytes: int := 5 * 1024 * 1024

  /** A file the form builds a preview for: an image type, at most 5 MB. */
  predicate Admitted(f: File) {
    StartsWith(f.mimeType, "image/") && f.size <= MaxPreviewBytes
  }

  /** Both lists with the element at `index` dropped (`filter((_, i) => i !== index)`);
      an index outside the list drops nothing. */
  function WithoutIndex<T>(s: seq<T>, index: int): (r: seq<T>)
    ensures 0 <= index < |s| ==>
              |r| == |s| - 1 &&
              (forall k :: 0 <= k < index ==> r[k] == s[k]) &&
              (forall k :: index <= k < |r| ==> r[k] == s[k + 1])
    ensures !(0 <= index < |s|) ==> r == s
  {
    if 0 <= index < |s| then s[..index] + s[index + 1..] else s
  }

  /** The uploads of `handleSubmit`, one file after another: the public URL of every file
      in order, or the message of the first upload that fails. */
  function UploadAll(images: seq<File>, upload: File -> Result<string, string>): Result<seq<string>, string>
  {
    if images == [] then Success([])
    else
      match UploadAll(images[..|images| - 1], upload)
      case Failure(m) => Failure(m)
      case Success(urls) =>
        match upload(images[|images| - 1])
        case Failure(m) => Failure(m)
        case Success(u) => Success(urls + [u])
  }

  /** The uploads succeed exactly when every file uploads, and then the URLs are the
      files' URLs in the order the files were chosen. */
  lemma {:induction false} UploadAllSucceeds(images: seq<File>, upload: File -> Result<string, string>)
    ensures UploadAll(images, upload).Success? <==> forall i :: 0 <= i < |images| ==> upload(images[i]).Success?
    ensures UploadAll(images, upload).Success? ==>
      |UploadAll(images, upload).value| == |images| &&
      forall i :: 0 <= i < |images| ==> UploadAll(images, upload).value[i] == upload(images[i]).value
  {
    if images != [] {
      var init := images[..|images| - 1];
      UploadAllSucceeds(init, upload);
      assert forall i :: 0 <= i < |init| ==> init[i] == images[i];
    }
  }

  /** A failed upload reports the message of the first file that fails; every file before
      it went up. */
  lemma {:induction false} UploadAllFailsAtFirst(images: seq<File>, upload: File -> Result<string, string>)
    requires UploadAll(images, upload).Failure?
    ensures exists i ::
              0 <= i < |images| && upload(images[i]) == Failure(UploadAll(images, upload).error) &&
              forall k :: 0 <= k < i ==> upload(images[k]).Success?
  {
    var init := images[..|images| - 1];
    var last := |images| - 1;
    assert forall k :: 0 <= k < |init| ==> init[k] == images[k];
    if UploadAll(init, upload).Failure? {
      UploadAllFailsAtFirst(init, upload);
      var i :| 0 <= i < |init| && upload(init[i]) == Failure(UploadAll(init, upload).error) &&
        forall k :: 0 <= k < i ==> upload(init[k]).Success?;
      assert upload(images[i]) == Failure(UploadAll(images, upload).error);
    } else {
      UploadAllSucceeds(init, upload);
      assert upload(images[last]) == Failure(UploadAll(images, upload).error);
    }
  }

  /** `error.message || "Failed to create product"`. */
  function ErrorText(message: string): (r: string)
    ensures r != ""
    ensures message != "" ==> r == message
  {
    if message == "" then "Failed to create product" else message
  }

  /** The row `handleSubmit` inserts. Prices and quantities are kept as the entered text. */
  datatype ProductRow = ProductRow(
    name: string, description: string, price: string, quantity: string, categoryId: string,
    imageUrl: seq<string>)

  /** The `files.forEach` loop: a preview for each admitted file, in order. */
  method PreviewsOf(files: seq<File>) returns (previews: seq<File>)
    ensures previews == Filter(files, Admitted)
  {
    previews := [];
    var i := 0;
    while i < |files|
      invariant 0 <= i <= |files|
      invariant previews == Filter(files[..i], Admitted)
    {
      FilterSnoc(files[..i], files[i], Admitted);
      assert files[..i + 1] == files[..i] + [files[i]];
      if Admitted(files[i]) {
        previews := previews + [files[i]];
      }
      i := i + 1;
    }
    assert files[..i] == files;
  }

  /** The form's state. `imagePreviews` records, per preview, the file it shows. */
  class NewProductForm {
    var name: string
    var description: string
    var price: string
    var quantity: string
    var categoryId: string
    var images: seq<File>
    var imagePreviews: seq<File>
    var error: Option<string>

    constructor()
      ensures name == "" && description == "" && price == "" && quantity == "" && categoryId == ""
      ensures images == [] && imagePreviews == [] && error.None?
    {
      name, description, price, quantity, categoryId := "", "", "", "", "";
      images, imagePreviews := [], [];
      error := None;
    }

    /** Previews sit beside the files they show: one per admitted file, in order. */
    ghost predicate PreviewsAligned()
      reads this
    {
      imagePreviews == Filter(images, Admitted)
    }

    /** `handleImageChange`: every chosen file is added to the upload list, and a preview
        is added for each file of an image type of at most 5 MB; no list of files, no
        change. */
    method HandleImageChange(files: Option<seq<File>>)
      modifies this
      ensures files.None? ==> images == old(images) && imagePreviews == old(imagePreviews)
      ensures files.Some? ==>
                images == old(images) + files.value &&
                imagePreviews == old(imagePreviews) + Filter(files.value, Admitted)
      ensures old(PreviewsAligned()) ==> PreviewsAligned()
      ensures name == old(name) && price == old(price) && quantity == old(quantity)
      ensures categoryId == old(categoryId) && description == old(description) && error == old(error)
    {
      if files.None? {
        return;
      }
      var chosen := files.value;
      var added := PreviewsOf(chosen);
      FilterAppend(images, chosen, Admitted);
      images := images + chosen;
      imagePreviews := imagePreviews + added;
    }

    /** `removeImage`: drop the entry at `index` from both lists. */
    method RemoveImage(index: int)
      modifies this
      ensures images == WithoutIndex(old(images), index)
      ensures imagePreviews == WithoutIndex(old(imagePreviews), index)
      ensures name == old(name) && price == old(price) && quantity == old(quantity)
      ensures categoryId == old(categoryId) && description == old(description) && error == old(error)
    {
      images := WithoutIndex(images, index);
      imagePreviews := WithoutIndex(imagePreviews, index);
    }

    /** `handleSubmit`: the required fields must be filled in; then every file is
        uploaded in order and the row is inserted with the URLs. On success the error is
        cleared and the row is returned; on failure the message is shown. */
    method HandleSubmit(upload: File -> Result<string, string>, insertError: Option<string>)
      returns (inserted: Option<ProductRow>)
      modifies this
      ensures name == "" || price == "" || quantity == "" || categoryId == "" ==>
        inserted.None? && error == Some("Please fill in all required fields")
      ensures name != "" && price != "" && quantity != "" && categoryId != "" ==>
        match UploadAll(images, upload)
        case Failure(m) => inserted.None? && error == Some(ErrorText(m))
        case Success(urls) =>
          if insertError.Some? then inserted.None? && error == Some(ErrorText(insertError.value))
          else inserted == Some(ProductRow(name, description, price, quantity, categoryId, urls)) &&
               error.None?
      ensures name == old(name) && price == old(price) && quantity == old(quantity)
      ensures categoryId == old(categoryId) && description == old(description)
      ensures images == old(images) && imagePreviews == old(imagePreviews)
    {
      error := None;
      if name == "" || price == "" || quantity == "" || categoryId == "" {
        error := Some("Please fill in all required fields");
        return None;
      }
      var imageUrls := [];
      var i := 0;
      while i < |images|
        invariant 0 <= i <= |images|
        invariant UploadAll(images[..i], upload) == Success(imageUrls)
      {
        assert images[..i + 1][..i] == images[..i];
        var uploaded := upload(images[i]);
        if uploaded.Failure? {
          assert UploadAll(images[..i + 1], upload) == Failure(uploaded.error);
          UploadFailureSticks(images, i + 1, upload);
          error := Some(ErrorText(uploaded.error));
          return None;
        }
        imageUrls := imageUrls + [uploaded.value];
        i := i + 1;
      }
      assert images[..i] == images;
      if insertError.Some? {
        error := Some(ErrorText(insertError.value));
        return None;
      }
      inserted := Some(ProductRow(name, description, price, quantity, categoryId, imageUrls));
    }
  }

  /** Once a prefix of the files fails to upload, the whole list does, with the same
      message. */
  lemma {:induction false} UploadFailureSticks(images: seq<File>, n: nat, upload: File -> Result<string, string>)
    requires n <= |images|
    requires UploadAll(images[..n], upload).Failure?
    ensures UploadAll(images, upload) == UploadAll(images[..n], upload)
    decreases |images| - n
  {
    if n < |images| {
      assert images[..n + 1][..n] == images[..n];
      UploadFailureSticks(images, n + 1, upload);
    } else {
      assert images[..n] == images;
    }
  }

  /** When every chosen file is admitted, removing an entry keeps each preview beside its
      file. */
  lemma RemoveKeepsAlignmentWhenAllAdmitted(images: seq<File>, index: int)
    requires forall f :: f in images ==> Admitted(f)
    ensures WithoutIndex(Filter(images, Admitted), index) == Filter(WithoutIndex(images, index), Admitted)
  {
    FilterAll(images, Admitted);
    var r := WithoutIndex(images, index);
    forall f | f in r ensures Admitted(f) {
      var k :| 0 <= k < |r| && r[k] == f;
      if 0 <= index < |images| && k >= index {
        assert images[k + 1] == f;
      } else {
        assert images[k] == f;
      }
    }
    FilterAll(r, Admitted);
  }

  /** After one rejected file and one admitted file, the only preview tile has index 0;
      its remove button drops the rejected file from the upload list and the admitted
      file's preview, leaving a file that will be uploaded with no preview shown. */
  lemma RemoveAfterRejectedFileMisaligns()
    ensures var bad := File("notes.txt", "text/plain", 10);
      var good := File("shoe.png", "image/png", 10);
      var images := [bad, good];
      var previews := Filter(images, Admitted);
      previews == [good] &&
      WithoutIndex(images, 0) == [good] && WithoutIndex(previews, 0) == []
  {
    var bad := File("notes.txt", "text/plain", 10);
    var good := File("shoe.png", "image/png", 10);
    assert !StartsWith(bad.mimeType, "image/") by {
      assert bad.mimeType[0] != "image/"[0];
    }
    assert Admitted(good) by {
      assert "image/" == good.mimeType[..6];
    }
    assert [bad, good][1..] == [good];
  }
}
