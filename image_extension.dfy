/** `is_supported_image`: is a file extension, with or without its leading dot
    and in any case, one of the image formats OpenCV (and GDAL) can read? */
module ImageExtension {
  import opened Text

  /** The formats OpenCV reads itself, lower case and without a dot. */
  const OpenCvExtensions: set<string> := {
    "bmp", "dib", "jpeg", "jpg", "jpe", "jp2", "png", "webp", "pbm", "pgm",
    "ppm", "pxm", "pnm", "sr", "ras", "tiff", "tif", "exr", "hdr", "pic"
  }

  /** The formats read through GDAL ("hdr" is listed in both groups in the
      source; the union holds it once). */
  const GdalExtensions: set<string> := {"dt0", "dt1", "dt2", "hdr", "img", "j2k", "ecw"}

  /** The fixed whitelist. */
  const SupportedExtensions: set<string> := OpenCvExtensions + GdalExtensions

  /** Removes at most one leading dot. */
  function StripDot(extension: string): (r: string)
    ensures extension != [] && extension[0] == '.' ==> r == extension[1..]
    ensures extension == [] || extension[0] != '.' ==> r == extension
  {
    if extension != [] && extension[0] == '.' then extension[1..] else extension
  }

  predicate IsSupportedImage(extension: string) {
    ToLower(StripDot(extension)) in SupportedExtensions
  }

  /** Case-insensitive equality of two strings. */
  predicate EqualsIgnoreCase(a: string, b: string) {
    ToLower(a) == ToLower(b)
  }

  /** Lower-case letters and digits only, at least one of them. */
  predicate LowerAlphanumeric(m: string) {
    m != [] && forall i :: 0 <= i < |m| ==> 'a' <= m[i] <= 'z' || '0' <= m[i] <= '9'
  }

  lemma OpenCvAreAlphanumeric(m: string)
    requires m in OpenCvExtensions
    ensures LowerAlphanumeric(m)
  {}

  lemma GdalAreAlphanumeric(m: string)
    requires m in GdalExtensions
    ensures LowerAlphanumeric(m)
  {}

  /** Every member of the whitelist is non-empty, lower case and does not start with a dot. */
  lemma MembersAreNormal(m: string)
    requires m in SupportedExtensions
    ensures m != [] && m[0] != '.'
    ensures ToLower(m) == m
  {
    if m in OpenCvExtensions {
      OpenCvAreAlphanumeric(m);
    } else {
      GdalAreAlphanumeric(m);
    }
    ToLowerOfLower(m);
  }

  /** The member a supported extension stands for. */
  lemma SupportedMatchesMember(extension: string)
    requires IsSupportedImage(extension)
    ensures var m := ToLower(StripDot(extension));
      m in SupportedExtensions &&
      (EqualsIgnoreCase(extension, m) || EqualsIgnoreCase(extension, "." + m))
  {
    var body := StripDot(extension);
    var m := ToLower(body);
    ToLowerIdempotent(body);
    if extension != [] && extension[0] == '.' {
      assert extension == "." + body;
      ToLowerConcat(".", body);
      ToLowerConcat(".", m);
      assert ToLower(".") == ".";
    }
  }

  /** An extension that matches a member, with or without one dot, is supported. */
  lemma MemberMatchIsSupported(extension: string, m: string)
    requires m in SupportedExtensions
    requires EqualsIgnoreCase(extension, m) || EqualsIgnoreCase(extension, "." + m)
    ensures IsSupportedImage(extension)
  {
    MembersAreNormal(m);
    if EqualsIgnoreCase(extension, m) {
      assert ToLower(extension) == m;
      LowerCharKeepsClass(extension[0]);
      assert extension[0] != '.';
    } else {
      ToLowerConcat(".", m);
      assert ToLower(".") == ".";
      assert ToLower(extension) == "." + m;
      LowerCharKeepsClass(extension[0]);
      assert extension[0] == '.';
      assert ToLower(extension)[1..] == ToLower(extension[1..]);
    }
  }

  /** The reference reading of the documented contract: the extension matches,
      ignoring case, some member of the whitelist either as it is or after one dot. */
  lemma SupportedExactly(extension: string)
    ensures IsSupportedImage(extension) <==>
      exists m :: m in SupportedExtensions &&
        (EqualsIgnoreCase(extension, m) || EqualsIgnoreCase(extension, "." + m))
  {
    if IsSupportedImage(extension) {
      SupportedMatchesMember(extension);
    }
    forall m | m in SupportedExtensions &&
        (EqualsIgnoreCase(extension, m) || EqualsIgnoreCase(extension, "." + m))
      ensures IsSupportedImage(extension)
    {
      MemberMatchIsSupported(extension, m);
    }
  }

  /** The leading dot is optional: `png` and `.png` are treated alike. */
  lemma DotOptional(extension: string)
    requires extension == [] || extension[0] != '.'
    ensures IsSupportedImage("." + extension) <==> IsSupportedImage(extension)
  {
    assert ("." + extension)[1..] == extension;
  }

  /** Only one dot is stripped, so a doubled dot is rejected. */
  lemma DoubleDotRejected(extension: string)
    ensures !IsSupportedImage(".." + extension)
  {
    var body := StripDot(".." + extension);
    assert body == "." + extension;
    LowerCharKeepsClass('.');
    if ToLower(body) in SupportedExtensions {
      MembersAreNormal(ToLower(body));
      assert false;
    }
  }

  /** Case does not matter. */
  lemma CaseInsensitive(a: string, b: string)
    requires EqualsIgnoreCase(a, b)
    ensures IsSupportedImage(a) <==> IsSupportedImage(b)
  {
    SupportedExactly(a);
    SupportedExactly(b);
  }

  /** The empty extension (a file without one) and a lone dot are rejected. */
  lemma EmptyRejected()
    ensures !IsSupportedImage("")
    ensures !IsSupportedImage(".")
  {
    assert "."[1..] == "";
    assert "" !in SupportedExtensions;
  }

  /** The forms `std::filesystem::path::extension` yields for typical images are accepted. */
  lemma TypicalExtensions()
    ensures IsSupportedImage(".png") && IsSupportedImage(".JPG") && IsSupportedImage("tiff")
    ensures !IsSupportedImage(".gif") && !IsSupportedImage("..png")
  {
    assert ".png"[1..] == "png";
    assert ToLower("png") == "png";
    var jpg := ".JPG"[1..];
    assert ToLower(jpg) == "jpg" by {
      assert ToLower(jpg)[0] == 'j' && ToLower(jpg)[1] == 'p' && ToLower(jpg)[2] == 'g';
    }
    assert ToLower("tiff") == "tiff";
    assert ToLower(".gif"[1..]) == "gif";
    assert "..png" == ".." + "png";
    DoubleDotRejected("png");
  }
}
