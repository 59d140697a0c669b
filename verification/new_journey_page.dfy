/** The new-journey admin page: choosing and compressing the main image,
    adding and removing additional images with their previews, and
    assembling the submitted form. */
module NewJourneyPage {
  import opened Wrappers
  import opened Lists
  import opened ImageCompression
  import Store

  /** `URL.createObjectURL(file)`: a preview URL, identified by its file. */
  datatype Preview = ObjectUrl(file: File)

  /** What the error banner shows: nothing, a validation error, or the
      error text of `createJourney`. */
  datatype Banner = NoError | Invalid(error: ValidationError) | ActionFailed(message: string)

  /** The page's state variables. */
  datatype Page = Page(banner: Banner, mainImage: Option<File>, mainPreview: Option<Preview>,
                       additionalImages: seq<File>, additionalPreviews: seq<Preview>,
                       compressing: bool, loading: bool)

  const Initial: Page := Page(NoError, None, None, [], [], false, false)

  /** The main image is first validated against 10 MB, then compressed to
      fit 1920 x 1080 at quality 0.85 and 2 MB. */
  const UploadLimitMB: real := 10.0
  const MaxWidth: real := 1920.0
  const MaxHeight: real := 1080.0
  const Quality: real := 0.85
  const TargetMB: real := 2.0

  /** `handleMainImageChange` for the chosen files (only the first counts).
      `load` and `encode` stand for the browser work inside `compressImage`;
      a rejected compression falls back to the chosen file. */
  function ChangeMainImage(p: Page, files: seq<File>, load: Load, encode: Encoder): (r: Page)
    requires load.Loaded? ==> load.width >= 0.0 && load.height >= 0.0
    // no file: nothing happens
    ensures |files| == 0 ==> r == p
    // an invalid file only sets the error
    ensures |files| > 0 && ValidateImageFile(files[0], UploadLimitMB).Some? ==>
              r == p.(banner := Invalid(ValidateImageFile(files[0], UploadLimitMB).value))
    // a valid file replaces the main image, and the preview shows it
    ensures |files| > 0 && ValidateImageFile(files[0], UploadLimitMB).None? ==>
              && r.banner == NoError && !r.compressing
              && r.mainImage.Some? && r.mainPreview == Some(ObjectUrl(r.mainImage.value))
              && r.additionalImages == p.additionalImages && r.additionalPreviews == p.additionalPreviews
              && r.loading == p.loading
    // the new main image is the chosen file or an encoding of it
    ensures |files| > 0 && ValidateImageFile(files[0], UploadLimitMB).None? ==>
              || r.mainImage == Some(files[0])
              || EncodedAt(r.mainImage.value, files[0], load, MaxWidth, MaxHeight, Quality, encode)
              || EncodedAt(r.mainImage.value, files[0], load, MaxWidth, MaxHeight, Quality * 0.7, encode)
    // the new main image is the file `compressImage` resolves with, or the
    // chosen file when it rejects
    ensures |files| > 0 && ValidateImageFile(files[0], UploadLimitMB).None? ==>
              var c := CompressImage(files[0], MaxWidth, MaxHeight, Quality, TargetMB, load, encode);
              r.mainImage == Some(if c.Resolved? then c.file else files[0])
    // a file within 2 MB is kept as chosen
    ensures (&& |files| > 0 && ValidateImageFile(files[0], UploadLimitMB).None?
             && files[0].size as real <= MaxSizeBytes(TargetMB)) ==> r.mainImage == Some(files[0])
  {
    if |files| == 0 then p
    else
      var f := files[0];
      match ValidateImageFile(f, UploadLimitMB)
      case Some(e) => p.(banner := Invalid(e))
      case None =>
        var chosen := match CompressImage(f, MaxWidth, MaxHeight, Quality, TargetMB, load, encode)
          case Resolved(g) => g
          case Rejected(_) => f;
        p.(banner := NoError, mainImage := Some(chosen), mainPreview := Some(ObjectUrl(chosen)), compressing := false)
  }

  /** The previews after `files.forEach(file => setAdditionalPreviews([...additionalPreviews, url]))`:
      every call spreads the same list from the render, so each one
      replaces the previous and only the last file's preview is added. */
  function StalePreviews(previews: seq<Preview>, files: seq<File>, current: seq<Preview>): (r: seq<Preview>)
    ensures |files| == 0 ==> r == current
    ensures |files| > 0 ==> r == previews + [ObjectUrl(files[|files| - 1])]
    decreases |files|
  {
    if |files| == 0 then current
    else StalePreviews(previews, files[1..], previews + [ObjectUrl(files[0])])
  }

  /** `handleAdditionalImagesChange`: every chosen file is appended, in order. */
  function AddAdditionalImages(p: Page, files: seq<File>): (r: Page)
    ensures r.additionalImages == p.additionalImages + files
    ensures |files| > 0 ==> r.additionalPreviews == p.additionalPreviews + [ObjectUrl(files[|files| - 1])]
    ensures |files| == 0 ==> r == p
    ensures r.mainImage == p.mainImage && r.banner == p.banner
  {
    p.(additionalImages := p.additionalImages + files,
       additionalPreviews := StalePreviews(p.additionalPreviews, files, p.additionalPreviews))
  }

  /** Adding k files grows the images by k but the previews by one, so with
      two or more files the two lists no longer line up. */
  lemma PreviewsFallBehind(p: Page, files: seq<File>)
    requires |files| >= 2
    ensures |AddAdditionalImages(p, files).additionalImages| - |AddAdditionalImages(p, files).additionalPreviews|
            == |p.additionalImages| - |p.additionalPreviews| + |files| - 1
    ensures Aligned(p) ==> !Aligned(AddAdditionalImages(p, files))
  {
  }

  /** One preview per file, in order. */
  function Previews(files: seq<File>): (r: seq<Preview>)
    ensures |r| == |files|
    ensures forall i :: 0 <= i < |files| ==> r[i] == ObjectUrl(files[i])
  {
    seq(|files|, i requires 0 <= i < |files| => ObjectUrl(files[i]))
  }

  /** `handleAdditionalImagesChange` as evidently intended: a preview for
      every chosen file, appended in one update. */
  function AddAdditionalImagesIntended(p: Page, files: seq<File>): (r: Page)
    ensures r.additionalImages == p.additionalImages + files
    ensures |r.additionalPreviews| == |p.additionalPreviews| + |files|
    ensures r.additionalPreviews[..|p.additionalPreviews|] == p.additionalPreviews
    ensures r.(additionalImages := p.additionalImages, additionalPreviews := p.additionalPreviews) == p
  {
    var r := p.(additionalImages := p.additionalImages + files,
                additionalPreviews := p.additionalPreviews + Previews(files));
    assert r.additionalPreviews[..|p.additionalPreviews|] == p.additionalPreviews;
    r
  }

  /** With one preview per file the lists stay aligned for any number of files. */
  lemma IntendedAlignmentKept(p: Page, files: seq<File>)
    requires Aligned(p)
    ensures Aligned(AddAdditionalImagesIntended(p, files))
  {
    var r := AddAdditionalImagesIntended(p, files);
    var n := |p.additionalImages|;
    forall i | 0 <= i < |r.additionalImages|
      ensures r.additionalPreviews[i] == ObjectUrl(r.additionalImages[i])
    {
      if i >= n {
        assert r.additionalImages[i] == files[i - n];
        assert r.additionalPreviews[i] == Previews(files)[i - n];
      } else {
        assert r.additionalImages[i] == p.additionalImages[i];
        assert r.additionalPreviews[i] == p.additionalPreviews[i];
      }
    }
  }

  /** `removeAdditionalImage(index)`: the same index leaves both lists. */
  function RemoveAdditionalImage(p: Page, index: int): (r: Page)
    ensures r.additionalImages == RemoveIndex(p.additionalImages, index)
    ensures r.additionalPreviews == RemoveIndex(p.additionalPreviews, index)
    ensures r.(additionalImages := p.additionalImages, additionalPreviews := p.additionalPreviews) == p
  {
    p.(additionalImages := RemoveIndex(p.additionalImages, index),
       additionalPreviews := RemoveIndex(p.additionalPreviews, index))
  }

  /** Each preview shows the image at the same position. */
  predicate Aligned(p: Page) {
    |p.additionalPreviews| == |p.additionalImages|
    && forall i :: 0 <= i < |p.additionalImages| ==> p.additionalPreviews[i] == ObjectUrl(p.additionalImages[i])
  }

  /** Adding one file at a time keeps the previews aligned, and so does
      removing any index; removal keeps the order of the others. */
  lemma AlignmentKept(p: Page, f: File, index: int)
    requires Aligned(p)
    ensures Aligned(AddAdditionalImages(p, [f]))
    ensures Aligned(RemoveAdditionalImage(p, index))
  {
    var r := RemoveAdditionalImage(p, index);
    if 0 <= index < |p.additionalImages| {
      forall i | 0 <= i < |r.additionalImages|
        ensures r.additionalPreviews[i] == ObjectUrl(r.additionalImages[i])
      {
        if i >= index {
          assert r.additionalImages[i] == p.additionalImages[i + 1];
          assert r.additionalPreviews[i] == p.additionalPreviews[i + 1];
        }
      }
    }
  }

  /** An entry of a submitted `FormData`: a text field or a file. */
  datatype Entry = TextEntry(name: string, text: string) | FileEntry(name: string, file: File)

  /** The files appended under `name`, in order. */
  function FilesUnder(entries: seq<Entry>, name: string): (r: seq<File>)
    ensures |r| <= |entries|
    decreases |entries|
  {
    if |entries| == 0 then []
    else
      var rest := FilesUnder(entries[1..], name);
      if entries[0].FileEntry? && entries[0].name == name then [entries[0].file] + rest else rest
  }

  /** One file entry under `name` per file, in order. */
  function FileEntries(name: string, files: seq<File>): (r: seq<Entry>)
    ensures |r| == |files|
    ensures forall i :: 0 <= i < |files| ==> r[i] == FileEntry(name, files[i])
  {
    seq(|files|, i requires 0 <= i < |files| => FileEntry(name, files[i]))
  }

  /** The form `handleSubmit` sends: the fields of the form element, then
      the main image if there is one, then every additional image. */
  function AssembleForm(fields: seq<Entry>, p: Page): (r: seq<Entry>)
    ensures |r| == |fields| + (if p.mainImage.Some? then 1 else 0) + |p.additionalImages|
    ensures r[..|fields|] == fields
  {
    var main := if p.mainImage.Some? then [FileEntry("mainImage", p.mainImage.value)] else [];
    fields + main + FileEntries("additionalImages", p.additionalImages)
  }

  lemma {:induction false} FilesUnderAppend(a: seq<Entry>, b: seq<Entry>, name: string)
    ensures FilesUnder(a + b, name) == FilesUnder(a, name) + FilesUnder(b, name)
    decreases |a|
  {
    if |a| == 0 {
      assert a + b == b;
    } else {
      assert (a + b)[0] == a[0] && (a + b)[1..] == a[1..] + b;
      FilesUnderAppend(a[1..], b, name);
    }
  }

  lemma {:induction false} FilesUnderAll(files: seq<File>, name: string)
    ensures FilesUnder(FileEntries(name, files), name) == files
    decreases |files|
  {
    if |files| > 0 {
      assert FileEntries(name, files)[1..] == FileEntries(name, files[1..]);
      FilesUnderAll(files[1..], name);
    }
  }

  lemma {:induction false} FilesUnderOther(files: seq<File>, name: string, other: string)
    requires name != other
    ensures FilesUnder(FileEntries(name, files), other) == []
    decreases |files|
  {
    if |files| > 0 {
      assert FileEntries(name, files)[1..] == FileEntries(name, files[1..]);
      FilesUnderOther(files[1..], name, other);
    }
  }

  /** Reading the submitted form back: the additional images arrive in
      order, and the main image arrives once if it was set. */
  lemma AssembledFormReadsBack(fields: seq<Entry>, p: Page)
    requires FilesUnder(fields, "additionalImages") == [] && FilesUnder(fields, "mainImage") == []
    ensures FilesUnder(AssembleForm(fields, p), "additionalImages") == p.additionalImages
    ensures FilesUnder(AssembleForm(fields, p), "mainImage") ==
              if p.mainImage.Some? then [p.mainImage.value] else []
  {
    var main := if p.mainImage.Some? then [FileEntry("mainImage", p.mainImage.value)] else [];
    var extra := FileEntries("additionalImages", p.additionalImages);
    assert AssembleForm(fields, p) == fields + main + extra;
    FilesUnderAppend(fields + main, extra, "additionalImages");
    FilesUnderAppend(fields + main, extra, "mainImage");
    FilesUnderAppend(fields, main, "additionalImages");
    FilesUnderAppend(fields, main, "mainImage");
    FilesUnderAll(p.additionalImages, "additionalImages");
    FilesUnderOther(p.additionalImages, "additionalImages", "mainImage");
    if p.mainImage.Some? {
      assert main[1..] == [];
      assert FilesUnder(main, "mainImage") == [p.mainImage.value];
      assert FilesUnder(main, "additionalImages") == [];
    } else {
      assert fields + main == fields;
    }
  }

  /** What `handleSubmit` leads to: the journeys list, or the same page
      showing the action's error. */
  datatype AfterSubmit = ToJourneyList | Stay(page: Page)

  /** `handleSubmit` once `createJourney` has answered with `actionError`:
      only a truthy error keeps the page, so an empty error text also goes
      to the journeys list. */
  function Submit(p: Page, actionError: Option<string>): (r: AfterSubmit)
    ensures r == ToJourneyList <==> !Store.Truthy(actionError)
    // a page that stays shows a non-empty error and is no longer loading
    ensures r.Stay? ==>
              && actionError.Some? && actionError.value != ""
              && r.page.banner == ActionFailed(actionError.value) && !r.page.loading
    // the chosen images and their previews survive a failed submit
    ensures r.Stay? ==>
              && r.page.mainImage == p.mainImage && r.page.mainPreview == p.mainPreview
              && r.page.additionalImages == p.additionalImages
              && r.page.additionalPreviews == p.additionalPreviews
  {
    if Store.Truthy(actionError) then Stay(p.(banner := ActionFailed(actionError.value), loading := false))
    else ToJourneyList
  }

  /** After a failed submit the page still assembles the same form, so
      submitting again sends the same fields and images; alignment of the
      images with their previews is kept as well. */
  lemma ResubmitSendsSameForm(fields: seq<Entry>, p: Page, actionError: Option<string>)
    ensures Submit(p, actionError).Stay? ==>
              && AssembleForm(fields, Submit(p, actionError).page) == AssembleForm(fields, p)
              && (Aligned(p) ==> Aligned(Submit(p, actionError).page))
  {
  }

  /** An empty error text leaves the page although nothing was created. */
  lemma EmptyErrorLeavesPage(p: Page)
    ensures Submit(p, Some("")) == ToJourneyList
  {
  }
}
