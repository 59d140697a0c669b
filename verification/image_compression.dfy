/** Client-side image checks before upload: `validateImageFile` and the
    decision tree of `compressImage`. The browser work (FileReader, Image
    decoding, canvas drawing, JPEG encoding) enters as explicit inputs: the
    outcome of loading the file and an encoder from (width, height, quality)
    to a blob or null. */
module ImageCompression {
  import opened Wrappers
  import opened Text

  /** A browser `File`: name, MIME type and size in bytes. */
  datatype File = File(name: string, mime: string, size: nat)

  /** A `Blob` produced by `canvas.toBlob`. */
  datatype Blob = Blob(mime: string, size: nat)

  /** `maxSizeMB * 1024 * 1024`. */
  function MaxSizeBytes(maxSizeMB: real): real {
    maxSizeMB * 1024.0 * 1024.0
  }

  /* ---------------------------------------------------------------------- */
  /* validateImageFile                                                      */
  /* ---------------------------------------------------------------------- */

  /** The two rejections of `validateImageFile`. `NotAnImage` is reported as
      "File must be an image"; `TooLarge` as a message quoting the limit and
      the current size in megabytes. */
  datatype ValidationError = NotAnImage | TooLarge(maxSizeMB: real, size: nat)

  const NotAnImageText: string := "File must be an image"

  predicate IsImageType(mime: string) {
    StartsWith(mime, "image/")
  }

  /** `validateImageFile`: None (`null`) when the file is acceptable. The
      type is checked before the size, and the size bound is inclusive. */
  function ValidateImageFile(f: File, maxSizeMB: real): (r: Option<ValidationError>)
    ensures r.None? <==> IsImageType(f.mime) && f.size as real <= MaxSizeBytes(maxSizeMB)
    ensures !IsImageType(f.mime) ==> r == Some(NotAnImage)
    ensures r.Some? && r.value.TooLarge? ==>
              IsImageType(f.mime) && r.value == TooLarge(maxSizeMB, f.size)
  {
    if !IsImageType(f.mime) then Some(NotAnImage)
    else if f.size as real > MaxSizeBytes(maxSizeMB) then Some(TooLarge(maxSizeMB, f.size))
    else None
  }

  /** The size bound sits exactly at `maxSizeMB * 1048576` bytes: an image
      of that size passes and one byte more is too large. */
  lemma ValidateBoundary(name: string, mime: string, maxSizeMB: nat)
    requires IsImageType(mime)
    ensures ValidateImageFile(File(name, mime, maxSizeMB * 1048576), maxSizeMB as real) == None
    ensures ValidateImageFile(File(name, mime, maxSizeMB * 1048576 + 1), maxSizeMB as real)
            == Some(TooLarge(maxSizeMB as real, maxSizeMB * 1048576 + 1))
  {
  }

  /* ---------------------------------------------------------------------- */
  /* Dimension fit                                                          */
  /* ---------------------------------------------------------------------- */

  datatype Dimensions = Dimensions(width: real, height: real)

  /** The facts about a quotient of positive reals that the fit relies on. */
  lemma Quotient(num: real, den: real)
    requires num > 0.0 && den > 0.0
    ensures den * (num / den) == num
    ensures num / den > 0.0
    ensures num < den ==> num / den < 1.0
  {
    var q := num / den;
    assert den * q == num;
    if q >= 1.0 {
      assert den * q >= den * 1.0;
    }
  }

  /** `Math.min(maxWidth / width, maxHeight / height)` for a box that does not
      contain the image. A zero side makes its quotient `Infinity` in
      JavaScript, so the other quotient is the minimum. */
  function ShrinkRatio(w: real, h: real, maxW: real, maxH: real): (ratio: real)
    requires w >= 0.0 && h >= 0.0 && maxW > 0.0 && maxH > 0.0
    requires w > maxW || h > maxH
    ensures 0.0 < ratio < 1.0
    ensures w * ratio <= maxW && h * ratio <= maxH
    ensures w * ratio == maxW || h * ratio == maxH
  {
    if w == 0.0 then
      Quotient(maxH, h);
      maxH / h
    else if h == 0.0 then
      Quotient(maxW, w);
      maxW / w
    else
      var rw, rh := maxW / w, maxH / h;
      Quotient(maxW, w);
      Quotient(maxH, h);
      if rw <= rh then
        assert h * rw <= h * rh;
        rw
      else
        assert w * rh < w * rw;
        rh
  }

  /** The dimension step of `compressImage`: an image larger than the box in
      either direction is scaled by one ratio so that it fits; otherwise it
      keeps its size. */
  function FitWithin(w: real, h: real, maxW: real, maxH: real): (r: Dimensions)
    requires w >= 0.0 && h >= 0.0 && maxW > 0.0 && maxH > 0.0
    ensures r.width <= maxW && r.height <= maxH
    ensures r.width * h == r.height * w
    ensures 0.0 <= r.width <= w && 0.0 <= r.height <= h
    ensures w <= maxW && h <= maxH ==> r == Dimensions(w, h)
    ensures (w > maxW || h > maxH) ==> r.width == maxW || r.height == maxH
  {
    if w > maxW || h > maxH then
      var ratio := ShrinkRatio(w, h, maxW, maxH);
      assert w * ratio * h == h * ratio * w;
      assert w * ratio <= w * 1.0 && h * ratio <= h * 1.0;
      Dimensions(w * ratio, h * ratio)
    else
      Dimensions(w, h)
  }

  /* ---------------------------------------------------------------------- */
  /* compressImage                                                          */
  /* ---------------------------------------------------------------------- */

  /** What happens between `readAsDataURL` and the first `toBlob`: the reader
      fails, the image fails to decode, or it loads with its natural size and
      the canvas does or does not provide a 2D context. */
  datatype Load = ReadFailed | ImageFailed | Loaded(width: real, height: real, hasContext: bool)

  /** `canvas.toBlob(callback, 'image/jpeg', quality)` on a canvas of the
      given size: a blob, or None for a `null` blob. */
  type Encoder = (real, real, real) -> Option<Blob>

  /** The promise `compressImage` returns: resolved with a file, or rejected
      with an error. */
  datatype Compression = Resolved(file: File) | Rejected(reason: string)

  const NoContextText: string := "Could not get canvas context"

  /** The file built from an encoded blob: the original name, the blob's type
      or "image/jpeg" when the blob has none, and the blob's size. */
  function FromBlob(blob: Blob, name: string): (f: File)
    ensures f.name == name && f.size == blob.size && f.mime != ""
  {
    File(name, if blob.mime == "" then "image/jpeg" else blob.mime, blob.size)
  }

  /** The file the encoder produces at quality `q` for a loaded image. */
  predicate EncodedAt(out: File, f: File, load: Load, maxW: real, maxH: real, q: real, encode: Encoder)
    requires maxW > 0.0 && maxH > 0.0
    requires load.Loaded? ==> load.width >= 0.0 && load.height >= 0.0
  {
    && load.Loaded?
    && var dims := FitWithin(load.width, load.height, maxW, maxH);
       match encode(dims.width, dims.height, q)
       case Some(blob) => out == FromBlob(blob, f.name)
       case None => false
  }

  /** `compressImage(file, maxWidth, maxHeight, quality, maxSizeMB)`. */
  function CompressImage(f: File, maxW: real, maxH: real, quality: real, maxSizeMB: real,
                         load: Load, encode: Encoder): (r: Compression)
    requires maxW > 0.0 && maxH > 0.0
    requires load.Loaded? ==> load.width >= 0.0 && load.height >= 0.0
    // a file already within the limit is returned as it is
    ensures f.size as real <= MaxSizeBytes(maxSizeMB) ==> r == Resolved(f)
    // the only rejection is a canvas without a 2D context
    ensures r.Rejected? <==>
              f.size as real > MaxSizeBytes(maxSizeMB) && load.Loaded? && !load.hasContext
    ensures r.Rejected? ==> r.reason == NoContextText
    // a read or decode failure gives back the original
    ensures !load.Loaded? ==> r == Resolved(f)
    // anything else is the original, the first encoding or the second one
    ensures r.Resolved? ==>
              || r.file == f
              || EncodedAt(r.file, f, load, maxW, maxH, quality, encode)
              || (quality > 0.5 && EncodedAt(r.file, f, load, maxW, maxH, quality * 0.7, encode))
    // the first encoding is kept only when it is within the limit
    ensures r.Resolved? && r.file != f && EncodedAt(r.file, f, load, maxW, maxH, quality, encode)
            && !(quality > 0.5 && EncodedAt(r.file, f, load, maxW, maxH, quality * 0.7, encode))
            ==> r.file.size as real <= MaxSizeBytes(maxSizeMB)
    // at quality 0.5 or below there is no second attempt
    ensures r.Resolved? && r.file != f && quality <= 0.5 ==>
              r.file.size as real <= MaxSizeBytes(maxSizeMB)
    // once the image is drawn: a null first blob gives back the original,
    // a first blob within the limit is used, and an oversized one leads to
    // the original (quality 0.5 or below) or to the second encoding, whose
    // null blob again gives back the original
    ensures f.size as real > MaxSizeBytes(maxSizeMB) && load.Loaded? && load.hasContext ==>
              var dims := FitWithin(load.width, load.height, maxW, maxH);
              var first := encode(dims.width, dims.height, quality);
              && (first.None? ==> r == Resolved(f))
              && (first.Some? && first.value.size as real <= MaxSizeBytes(maxSizeMB) ==>
                    r == Resolved(FromBlob(first.value, f.name)))
              && (first.Some? && first.value.size as real > MaxSizeBytes(maxSizeMB) && quality <= 0.5 ==>
                    r == Resolved(f))
              && (first.Some? && first.value.size as real > MaxSizeBytes(maxSizeMB) && quality > 0.5 ==>
                    var second := encode(dims.width, dims.height, quality * 0.7);
                    r == Resolved(if second.Some? then FromBlob(second.value, f.name) else f))
  {
    var limit := MaxSizeBytes(maxSizeMB);
    if f.size as real <= limit then Resolved(f)
    else
      match load
      case ReadFailed => Resolved(f)
      case ImageFailed => Resolved(f)
      case Loaded(w, h, hasContext) =>
        if !hasContext then Rejected(NoContextText)
        else
          var dims := FitWithin(w, h, maxW, maxH);
          match encode(dims.width, dims.height, quality)
          case None => Resolved(f)
          case Some(blob) =>
            if blob.size as real <= limit then Resolved(FromBlob(blob, f.name))
            else if quality > 0.5 then
              match encode(dims.width, dims.height, quality * 0.7)
              case None => Resolved(f)
              case Some(second) => Resolved(FromBlob(second, f.name))
            else Resolved(f)
  }

  /** The second encoding is taken without a size check, so the result can
      be larger than the limit, and even larger than the original file. */
  lemma SecondEncodingUnchecked(f: File, maxW: real, maxH: real, quality: real, maxSizeMB: real,
                                w: real, h: real, encode: Encoder, first: Blob, second: Blob)
    requires maxW > 0.0 && maxH > 0.0 && w >= 0.0 && h >= 0.0
    requires f.size as real > MaxSizeBytes(maxSizeMB)
    requires quality > 0.5
    requires encode(FitWithin(w, h, maxW, maxH).width, FitWithin(w, h, maxW, maxH).height, quality) == Some(first)
    requires first.size as real > MaxSizeBytes(maxSizeMB)
    requires encode(FitWithin(w, h, maxW, maxH).width, FitWithin(w, h, maxW, maxH).height, quality * 0.7) == Some(second)
    ensures CompressImage(f, maxW, maxH, quality, maxSizeMB, Loaded(w, h, true), encode)
            == Resolved(FromBlob(second, f.name))
  {
  }

  /** When the first encoding is too large at quality 0.5 or below, the
      original file comes back. */
  lemma LowQualityKeepsOriginal(f: File, maxW: real, maxH: real, quality: real, maxSizeMB: real,
                                w: real, h: real, encode: Encoder, first: Blob)
    requires maxW > 0.0 && maxH > 0.0 && w >= 0.0 && h >= 0.0
    requires f.size as real > MaxSizeBytes(maxSizeMB)
    requires quality <= 0.5
    requires encode(FitWithin(w, h, maxW, maxH).width, FitWithin(w, h, maxW, maxH).height, quality) == Some(first)
    requires first.size as real > MaxSizeBytes(maxSizeMB)
    ensures CompressImage(f, maxW, maxH, quality, maxSizeMB, Loaded(w, h, true), encode) == Resolved(f)
  {
  }
}
