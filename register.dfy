/**
 * The registration endpoint: file-name sanitising and storage keys, the image test, the JPEG
 * compression ladder against the 1 MiB budget, the OCR reply, the route's own amount check and
 * the early-return chain of `POST` that maps a form to a status.
 */
module Register {
  import opened Wrappers
  import opened Text
  import opened Regex

  type Bytes = seq<bv8>

  /** `MAX_IMAGE_SIZE_BYTES`: 1 MiB. */
  const MaxImageSizeBytes: nat := 1024 * 1024
  const JpegMimeType: string := "image/jpeg"
  const MaxResizeWidth: nat := 1600
  const MinResizeWidth: nat := 640
  const CompressError: string := "Unable to compress image under 1 MB."

  // ---------------------------------------------------------------- file names

  /** A character `[a-z0-9.\-_]` accepts under the `i` flag. */
  predicate IsNameChar(c: char) {
    'a' <= c <= 'z' || IsUpper(c) || IsDigit(c) || c == '.' || c == '-' || c == '_'
  }

  /** A character a sanitised name may hold: lower-case letters, digits, `.`, `-` and `_`. */
  predicate IsSafeNameChar(c: char) {
    'a' <= c <= 'z' || IsDigit(c) || c == '.' || c == '-' || c == '_'
  }

  /** `s.replace(/[^a-z0-9.\-_]/gi, "_")`. */
  function ReplaceUnsafe(s: string): (r: string)
    ensures |r| == |s|
    ensures forall i :: 0 <= i < |s| ==> r[i] == if IsNameChar(s[i]) then s[i] else '_'
  {
    if s == [] then [] else [if IsNameChar(s[0]) then s[0] else '_'] + ReplaceUnsafe(s[1..])
  }

  /** `sanitizeFilename`: unsafe characters become `_`, the rest is lower-cased; "upload" when empty. */
  function SanitizeFilename(filename: Option<string>): (r: string)
    ensures r != [] && forall i :: 0 <= i < |r| ==> IsSafeNameChar(r[i])
    ensures filename.None? || filename.value == [] ==> r == "upload"
    ensures filename.Some? && filename.value != [] ==>
      |r| == |filename.value| &&
      forall i :: 0 <= i < |r| ==> r[i] == if IsNameChar(filename.value[i]) then LowerChar(filename.value[i]) else '_'
  {
    match filename
    case None => "upload"
    case Some(f) =>
      var r := Lower(ReplaceUnsafe(f));
      if r == [] then "upload" else r
  }

  /** Sanitising a sanitised name changes nothing. */
  lemma SanitizeFilenameIdempotent(filename: Option<string>)
    ensures SanitizeFilename(Some(SanitizeFilename(filename))) == SanitizeFilename(filename)
  {
    var r := SanitizeFilename(filename);
    var rr := SanitizeFilename(Some(r));
    assert forall i :: 0 <= i < |r| ==> rr[i] == r[i];
  }

  /** The index of the last `.` in `s`, if there is one. */
  function LastDot(s: string): (r: Option<nat>)
    ensures r.Some? ==> r.value < |s| && s[r.value] == '.' && '.' !in s[r.value + 1..]
    ensures r.None? ==> '.' !in s
  {
    if s == [] then None
    else if s[|s| - 1] == '.' then Some(|s| - 1)
    else
      var r := LastDot(s[..|s| - 1]);
      assert r.Some? ==> s[r.value + 1..] == s[..|s| - 1][r.value + 1..] + [s[|s| - 1]];
      assert r.None? ==> s == s[..|s| - 1] + [s[|s| - 1]];
      r
  }

  /**
   * `s.replace(/\.[^.]+$/, "")`: a final `.` followed by one or more other characters is
   * dropped with them; a name without a dot, or whose last dot ends it, is kept.
   */
  function StripExtension(s: string): (r: string)
    ensures r == s || (|r| + 1 < |s| && s[..|r|] == r && s[|r|] == '.' && '.' !in s[|r| + 1..])
    ensures r == s <==> forall d :: 0 <= d < |s| - 1 && s[d] == '.' ==> '.' in s[d + 1..]
  {
    match LastDot(s)
    case None => s
    case Some(d) =>
      if d + 1 < |s| then
        assert forall e :: d < e < |s| ==> s[e] != '.' by {
          forall e | d < e < |s| ensures s[e] != '.' {
            assert s[e] == s[d + 1..][e - d - 1];
          }
        }
        s[..d]
      else
        assert forall e :: 0 <= e < d ==> s[e] == '.' ==> '.' in s[e + 1..] by {
          forall e | 0 <= e < d && s[e] == '.' ensures '.' in s[e + 1..] {
            assert s[e + 1..][d - e - 1] == '.';
          }
        }
        s
  }

  /** `ensureJpegFilename`: the sanitised name without its extension, or the fallback, plus `.jpg`. */
  function EnsureJpegFilename(filename: Option<string>, fallbackBase: string): (r: string)
    ensures EndsWith(r, ".jpg")
    ensures var stem := StripExtension(SanitizeFilename(filename));
      r[..|r| - 4] == if stem == [] then fallbackBase else stem
  {
    var stem := StripExtension(SanitizeFilename(filename));
    var base := if stem == [] then fallbackBase else stem;
    assert (base + ".jpg")[..|base|] == base;
    base + ".jpg"
  }

  /** `buildStorageKey`, with `Date.now()` and `crypto.randomUUID()` given as `now` and `uuid`. */
  function BuildStorageKey(folder: string, filename: Option<string>, now: nat, uuid: string): (key: string)
  {
    folder + "/" + NatToString(now) + "-" + uuid + "-" + SanitizeFilename(filename)
  }

  /**
   * A storage key lies in its folder and ends with the sanitised name; when the uuid has no
   * `/`, nothing after the folder's own `/` is a `/`, so the object sits directly in the folder.
   */
  lemma StorageKeyInFolder(folder: string, filename: Option<string>, now: nat, uuid: string)
    ensures var key := BuildStorageKey(folder, filename, now, uuid);
      StartsWith(key, folder + "/") && EndsWith(key, "-" + SanitizeFilename(filename))
    ensures '/' !in uuid ==>
      '/' !in BuildStorageKey(folder, filename, now, uuid)[|folder| + 1..]
  {
    var n := NatToString(now);
    var name := SanitizeFilename(filename);
    var tail := n + "-" + uuid + "-" + name;
    KeyShape(folder, n, uuid, name);
    SplitAt(folder + "/", tail);
    SplitAt(folder + "/" + n + "-" + uuid, "-" + name);
    if '/' !in uuid {
      assert '/' !in n && '/' !in name;
      NoCharInKeyTail('/', n, uuid, name);
    }
  }

  /** How the pieces of a storage key group. */
  lemma KeyShape(folder: string, n: string, uuid: string, name: string)
    ensures folder + "/" + n + "-" + uuid + "-" + name == (folder + "/") + (n + "-" + uuid + "-" + name)
    ensures folder + "/" + n + "-" + uuid + "-" + name == (folder + "/" + n + "-" + uuid) + ("-" + name)
  {
  }

  lemma SplitAt(x: string, y: string)
    ensures (x + y)[..|x|] == x && (x + y)[|x|..] == y
  {
  }

  lemma NoCharInKeyTail(c: char, n: string, uuid: string, name: string)
    requires c != '-' && c !in n && c !in uuid && c !in name
    ensures c !in n + "-" + uuid + "-" + name
  {
  }

  // ---------------------------------------------------------------- the image test

  /** What the route sees of an uploaded file: its MIME type and its name, either possibly absent. */
  datatype FileMeta = FileMeta(mimeType: Option<string>, name: Option<string>)

  const ImageExtensions: seq<string> := ["jpg", "jpeg", "png", "webp", "heic", "heif", "gif"]

  /** `/\.(jpg|jpeg|png|webp|heic|heif|gif)$/` */
  const ImageNamePattern: Pat := Then(Lit("."), Then(LitAlt(ImageExtensions), EndOfInput))

  /** `isImageFile`: an `image/` MIME type, or else a name with an image extension (both lower-cased). */
  function IsImageFile(file: Option<FileMeta>): bool {
    if file.Some? && file.value.mimeType.Some? && StartsWith(Lower(file.value.mimeType.value), "image/") then true
    else
      var name := if file.Some? && file.value.name.Some? then Lower(file.value.name.value) else "";
      Test(ImageNamePattern, name)
  }

  /** The extension pattern matches exactly the names that end in `.` and one of the extensions. */
  lemma ImageNamePatternIff(name: string)
    ensures Test(ImageNamePattern, name) <==>
      exists k :: 0 <= k < |ImageExtensions| && EndsWith(name, "." + ImageExtensions[k])
  {
    DotSuffixPatternIff(ImageExtensions, name);
  }

  /** `/\.(w0|w1|...)$/` matches exactly the names that end in `.` and one of the words. */
  lemma DotSuffixPatternIff(ws: seq<string>, name: string)
    ensures Test(Then(Lit("."), Then(LitAlt(ws), EndOfInput)), name) <==>
      exists k :: 0 <= k < |ws| && EndsWith(name, "." + ws[k])
  {
    var pat := Then(Lit("."), Then(LitAlt(ws), EndOfInput));
    SearchFromIff(pat, name, 0);
    if Test(pat, name) {
      var i: nat :| i <= |name| && MatchesAt(pat, name, i);
      var j :| i <= j <= |name| && Matches(pat, name, i, j);
      DotSuffixMatchEnds(ws, name, i, j);
    }
    if exists k :: 0 <= k < |ws| && EndsWith(name, "." + ws[k]) {
      var k :| 0 <= k < |ws| && EndsWith(name, "." + ws[k]);
      DotSuffixMatches(ws, name, k);
    }
  }

  lemma DotSuffixMatchEnds(ws: seq<string>, name: string, i: nat, j: nat)
    requires i <= j <= |name| && Matches(Then(Lit("."), Then(LitAlt(ws), EndOfInput)), name, i, j)
    ensures exists k :: 0 <= k < |ws| && EndsWith(name, "." + ws[k])
  {
    var p := LitAlt(ws);
    var m :| i <= m <= j && Matches(Lit("."), name, i, m) && Matches(Then(p, EndOfInput), name, m, j);
    MatchesThenSplit(p, EndOfInput, name, m, j);
    var e :| m <= e <= j && Matches(p, name, m, e) && Matches(EndOfInput, name, e, j);
    MatchesLitAlt(ws, name, m, e);
    var k :| 0 <= k < |ws| && e == m + |ws[k]| && OccursAt(name, ws[k], m);
    assert m == i + 1 && e == |name|;
    assert name[i..i + 1] == "." && name[m..e] == ws[k];
    SplitAt(".", ws[k]);
    assert name[i..] == name[i..i + 1] + name[m..e];
    assert name[|name| - |"." + ws[k]|..] == "." + ws[k];
  }

  lemma DotSuffixMatches(ws: seq<string>, name: string, k: nat)
    requires k < |ws| && EndsWith(name, "." + ws[k])
    ensures MatchesAt(Then(Lit("."), Then(LitAlt(ws), EndOfInput)), name, |name| - |ws[k]| - 1)
  {
    var p := LitAlt(ws);
    var ext := ws[k];
    var i := |name| - |ext| - 1;
    assert name[i..] == "." + ext;
    assert name[i..i + 1] == ".";
    assert name[i + 1..|name|] == ext;
    MatchesLitAlt(ws, name, i + 1, |name|);
    assert Matches(p, name, i + 1, |name|);
    assert Matches(EndOfInput, name, |name|, |name|);
    assert Matches(Then(p, EndOfInput), name, i + 1, |name|);
    assert Matches(Lit("."), name, i, i + 1);
    assert Matches(Then(Lit("."), Then(p, EndOfInput)), name, i, |name|);
  }

  /** A file is an image iff its lower-cased type starts with `image/` or its lower-cased name ends in an image extension. */
  lemma IsImageFileIff(file: Option<FileMeta>)
    ensures IsImageFile(file) <==>
      (file.Some? && file.value.mimeType.Some? && StartsWith(Lower(file.value.mimeType.value), "image/"))
      || (file.Some? && file.value.name.Some? &&
          exists k :: 0 <= k < |ImageExtensions| && EndsWith(Lower(file.value.name.value), "." + ImageExtensions[k]))
  {
    var name := if file.Some? && file.value.name.Some? then Lower(file.value.name.value) else "";
    ImageNamePatternIff(name);
  }

  // ---------------------------------------------------------------- the compression ladder

  /**
   * The image library as the route drives it: the JPEG bytes it produces for an input
   * buffer, a target width and a quality.
   */
  type Encoder = (Bytes, nat, nat) -> Bytes

  /** One width and quality the ladder tries. */
  datatype Setting = Setting(width: nat, quality: nat)

  /** What `compressImage` returns. */
  datatype Compressed = Compressed(buffer: Bytes, contentType: string)

  /** `Math.max(MIN_RESIZE_WIDTH, Math.round(width * 0.8))`, where `round(0.8 w)` is `(8w + 5) / 10`. */
  function NextWidth(w: nat): (r: nat)
    ensures r >= MinResizeWidth
    ensures w > MinResizeWidth ==> r < w
  {
    var rounded := (8 * w + 5) / 10;
    if rounded > MinResizeWidth then rounded else MinResizeWidth
  }

  /**
   * The settings the two loops try from `(w, q)` on: quality drops by 10 while it is above 40,
   * then the width shrinks while it is above the minimum.
   */
  function Ladder(w: nat, q: nat): (l: seq<Setting>)
    ensures |l| >= 1 && l[0] == Setting(w, q)
    decreases q, w
  {
    if q > 40 then [Setting(w, q)] + Ladder(w, q - 10)
    else if w > MinResizeWidth then [Setting(w, q)] + Ladder(NextWidth(w), q)
    else [Setting(w, q)]
  }

  predicate Fits(encode: Encoder, buffer: Bytes, st: Setting) {
    |encode(buffer, st.width, st.quality)| <= MaxImageSizeBytes
  }

  /** The first setting of `settings` whose output fits the budget. */
  function FirstFit(encode: Encoder, buffer: Bytes, settings: seq<Setting>): (r: Option<Setting>)
    ensures r.Some? ==> exists k :: (0 <= k < |settings| && settings[k] == r.value
      && Fits(encode, buffer, settings[k]) && forall j :: 0 <= j < k ==> !Fits(encode, buffer, settings[j]))
    ensures r.None? <==> forall k :: 0 <= k < |settings| ==> !Fits(encode, buffer, settings[k])
  {
    if settings == [] then None
    else if Fits(encode, buffer, settings[0]) then Some(settings[0])
    else
      var r := FirstFit(encode, buffer, settings[1..]);
      assert forall k :: 1 <= k < |settings| ==> settings[k] == settings[1..][k - 1];
      r
  }

  /**
   * `compressImage` stated over its ladder: the output of the first setting from (1600, 80)
   * that fits 1 MiB, as JPEG; when none fits, the fixed error message.
   */
  function CompressOutcome(encode: Encoder, buffer: Bytes): (r: Result<Compressed, string>)
    ensures r.Success? ==> |r.value.buffer| <= MaxImageSizeBytes && r.value.contentType == JpegMimeType
    ensures r.Failure? ==> r.error == CompressError
  {
    match FirstFit(encode, buffer, Ladder(MaxResizeWidth, 80))
    case None => Failure(CompressError)
    case Some(st) => Success(Compressed(encode(buffer, st.width, st.quality), JpegMimeType))
  }

  /** Compression fails exactly when no setting of the ladder fits. */
  lemma CompressFailsIff(encode: Encoder, buffer: Bytes)
    ensures var l := Ladder(MaxResizeWidth, 80);
      CompressOutcome(encode, buffer).Failure? <==> forall k :: 0 <= k < |l| ==> !Fits(encode, buffer, l[k])
  {
  }

  /** The settings tried from the start: five qualities at 1600 pixels, then five narrower widths at quality 40. */
  lemma {:induction false} LadderFromStart()
    ensures Ladder(MaxResizeWidth, 80) == [
      Setting(1600, 80), Setting(1600, 70), Setting(1600, 60), Setting(1600, 50), Setting(1600, 40),
      Setting(1280, 40), Setting(1024, 40), Setting(819, 40), Setting(655, 40), Setting(640, 40)]
  {
    assert NextWidth(1600) == 1280 && NextWidth(1280) == 1024 && NextWidth(1024) == 819;
    assert NextWidth(819) == 655 && NextWidth(655) == 640;
    assert Ladder(640, 40) == [Setting(640, 40)];
    assert Ladder(655, 40) == [Setting(655, 40)] + Ladder(640, 40);
    assert Ladder(819, 40) == [Setting(819, 40)] + Ladder(655, 40);
    assert Ladder(1024, 40) == [Setting(1024, 40)] + Ladder(819, 40);
    assert Ladder(1280, 40) == [Setting(1280, 40)] + Ladder(1024, 40);
    assert Ladder(1600, 40) == [Setting(1600, 40)] + Ladder(1280, 40);
    assert Ladder(1600, 50) == [Setting(1600, 50)] + Ladder(1600, 40);
    assert Ladder(1600, 60) == [Setting(1600, 60)] + Ladder(1600, 50);
    assert Ladder(1600, 70) == [Setting(1600, 70)] + Ladder(1600, 60);
  }

  /**
   * From a quality that is a multiple of 10 and at least 40, and a width of at least 640:
   * quality never drops below 40 and width never below 640, a narrower width is only tried at
   * quality 40, and the last setting tried is (640, 40).
   */
  lemma {:induction false} LadderBounds(w: nat, q: nat)
    requires q >= 40 && q % 10 == 0 && w >= MinResizeWidth
    ensures var l := Ladder(w, q);
      forall k :: 0 <= k < |l| ==> 40 <= l[k].quality <= q && MinResizeWidth <= l[k].width <= w
    ensures var l := Ladder(w, q); forall k :: 0 <= k < |l| && l[k].width < w ==> l[k].quality == 40
    ensures var l := Ladder(w, q); l[|l| - 1] == Setting(MinResizeWidth, 40)
    decreases q, w
  {
    var l := Ladder(w, q);
    if q > 40 {
      LadderBounds(w, q - 10);
      var rest := Ladder(w, q - 10);
      assert l == [Setting(w, q)] + rest;
      assert forall k :: 1 <= k < |l| ==> l[k] == rest[k - 1];
    } else if w > MinResizeWidth {
      LadderBounds(NextWidth(w), q);
      var rest := Ladder(NextWidth(w), q);
      assert l == [Setting(w, q)] + rest;
      assert forall k :: 1 <= k < |l| ==> l[k] == rest[k - 1];
    }
  }

  /** One step of the ladder: 10 less quality at the same width, or a narrower width at quality 40. */
  predicate LadderStep(a: Setting, b: Setting) {
    (b.width == a.width && b.quality + 10 == a.quality)
    || (b.quality == a.quality == 40 && b.width < a.width)
  }

  /** From a quality that is a multiple of 10 and at least 40, every step is a ladder step. */
  lemma {:induction false} LadderSteps(w: nat, q: nat)
    requires q >= 40 && q % 10 == 0
    ensures forall k :: 0 <= k < |Ladder(w, q)| - 1 ==> LadderStep(Ladder(w, q)[k], Ladder(w, q)[k + 1])
    decreases q, w
  {
    var l := Ladder(w, q);
    if q > 40 || w > MinResizeWidth {
      var rest := if q > 40 then Ladder(w, q - 10) else Ladder(NextWidth(w), q);
      if q > 40 {
        LadderSteps(w, q - 10);
      } else {
        LadderSteps(NextWidth(w), q);
      }
      assert l == [Setting(w, q)] + rest;
      forall k | 0 <= k < |l| - 1 ensures LadderStep(l[k], l[k + 1]) {
        if k > 0 {
          assert l[k] == rest[k - 1] && l[k + 1] == rest[k];
          assert LadderStep(rest[k - 1], rest[k - 1 + 1]);
        }
      }
    }
  }

  /** Skipping a first setting that does not fit leaves the first fit unchanged. */
  lemma FirstFitSkip(encode: Encoder, buffer: Bytes, st: Setting, rest: seq<Setting>)
    requires !Fits(encode, buffer, st)
    ensures FirstFit(encode, buffer, [st] + rest) == FirstFit(encode, buffer, rest)
  {
    assert ([st] + rest)[1..] == rest;
  }

  /**
   * `compressImage`: lower the quality by 10 while the output is over 1 MiB and the quality
   * above 40, then shrink the width while it is still over and wider than 640.
   */
  method CompressImage(encode: Encoder, buffer: Bytes) returns (r: Result<Compressed, string>)
    ensures r == CompressOutcome(encode, buffer)
  {
    var quality: nat := 80;
    var width: nat := MaxResizeWidth;
    var output := encode(buffer, width, quality);
    ghost var goal := FirstFit(encode, buffer, Ladder(MaxResizeWidth, 80));

    while |output| > MaxImageSizeBytes && quality > 40
      invariant output == encode(buffer, width, quality)
      invariant FirstFit(encode, buffer, Ladder(width, quality)) == goal
      decreases quality
    {
      FirstFitSkip(encode, buffer, Setting(width, quality), Ladder(width, quality - 10));
      quality := quality - 10;
      output := encode(buffer, width, quality);
    }

    while |output| > MaxImageSizeBytes && width > MinResizeWidth
      invariant output == encode(buffer, width, quality)
      invariant |output| > MaxImageSizeBytes ==> quality <= 40
      invariant FirstFit(encode, buffer, Ladder(width, quality)) == goal
      decreases width
    {
      FirstFitSkip(encode, buffer, Setting(width, quality), Ladder(NextWidth(width), quality));
      width := NextWidth(width);
      output := encode(buffer, width, quality);
    }

    if |output| > MaxImageSizeBytes {
      return Failure(CompressError);
    }
    assert Fits(encode, buffer, Setting(width, quality));
    return Success(Compressed(output, JpegMimeType));
  }

  // ---------------------------------------------------------------- the route's amount check

  // The six patterns the route tries last, on the substituted text without `,` and `₹`, each
  // given by its parts.

  /** `\b900(?:\.00)?\b` */
  const BareParts: seq<Pat> := [Boundary, Lit("900"), Opt(Lit(".00")), Boundary]
  /** `\b900\/-\b` */
  const DashParts: seq<Pat> := [Boundary, Lit("900"), Lit("/-"), Boundary]
  /** `\brs\.?\s*900(?:\.00)?\b` */
  const RsParts: seq<Pat> :=
    [Boundary, Lit("rs"), Opt(Lit(".")), Star(Space), Lit("900"), Opt(Lit(".00")), Boundary]
  /** `\binr\.?\s*900(?:\.00)?\b` */
  const InrParts: seq<Pat> :=
    [Boundary, Lit("inr"), Opt(Lit(".")), Star(Space), Lit("900"), Opt(Lit(".00")), Boundary]
  /** `\bamount\s*:?\.?\s*900(?:\.00)?\b` */
  const AmountParts: seq<Pat> :=
    [Boundary, Lit("amount"), Star(Space), Opt(Lit(":")), Opt(Lit(".")), Star(Space),
     Lit("900"), Opt(Lit(".00")), Boundary]
  /** `\bamount\s*:?\.?\s*rs\.?\s*900(?:\.00)?\b` */
  const AmountRsParts: seq<Pat> :=
    [Boundary, Lit("amount"), Star(Space), Opt(Lit(":")), Opt(Lit(".")), Star(Space),
     Lit("rs"), Opt(Lit(".")), Star(Space), Lit("900"), Opt(Lit(".00")), Boundary]

  const RoutePatterns: seq<Pat> :=
    [Cat(BareParts), Cat(DashParts), Cat(RsParts), Cat(InrParts), Cat(AmountParts), Cat(AmountRsParts)]

  /** `patterns.some((regex) => regex.test(s))`. */
  function SomeTest(ps: seq<Pat>, s: string): (r: bool)
    ensures r <==> exists k :: 0 <= k < |ps| && Test(ps[k], s)
  {
    if ps == [] then false
    else
      var r := Test(ps[0], s) || SomeTest(ps[1..], s);
      assert forall k :: 1 <= k < |ps| ==> ps[k] == ps[1..][k - 1];
      r
  }

  /**
   * The route's own `paymentLooksValid`: false for a missing or empty text; otherwise the
   * lower-cased text with `o` read as `0` passes when its digits contain "900", when it holds
   * "₹900" or "rs 900", or when one of the six patterns matches it without `,` and `₹`.
   */
  function RoutePaymentLooksValid(text: Option<string>): bool {
    if text.None? || text.value == "" then false
    else
      var zeroFriendly := ReplaceChar(Lower(text.value), 'o', '0');
      if Contains(DigitsOf(zeroFriendly), "900") then true
      else if Contains(zeroFriendly, [Rupee] + "900") || Contains(zeroFriendly, "rs 900") then true
      else SomeTest(RoutePatterns, RemoveChars(zeroFriendly, {',', Rupee}))
  }

  /** Every one of the six patterns has to pass through the literal "900". */
  lemma RoutePatternsNeed900()
    ensures AllMustContain(RoutePatterns, "900")
  {
    BareNeeds900();
    DashNeeds900();
    RsNeeds900();
    InrNeeds900();
    AmountNeeds900();
    AmountRsNeeds900();
    SixMustContain(RoutePatterns, "900");
  }

  lemma BareNeeds900()
    ensures MustContain(Cat(BareParts), "900")
  {
    CatMustContain(BareParts, "900", 1);
  }

  lemma DashNeeds900()
    ensures MustContain(Cat(DashParts), "900")
  {
    CatMustContain(DashParts, "900", 1);
  }

  lemma RsNeeds900()
    ensures MustContain(Cat(RsParts), "900")
  {
    CatMustContain(RsParts, "900", 4);
  }

  lemma InrNeeds900()
    ensures MustContain(Cat(InrParts), "900")
  {
    CatMustContain(InrParts, "900", 4);
  }

  lemma AmountNeeds900()
    ensures MustContain(Cat(AmountParts), "900")
  {
    CatMustContain(AmountParts, "900", 6);
  }

  lemma AmountRsNeeds900()
    ensures MustContain(Cat(AmountRsParts), "900")
  {
    CatMustContain(AmountRsParts, "900", 9);
  }

  /** A list of six patterns, each passing through `w`. */
  lemma SixMustContain(ps: seq<Pat>, w: string)
    requires |ps| == 6
    requires MustContain(ps[0], w) && MustContain(ps[1], w) && MustContain(ps[2], w)
    requires MustContain(ps[3], w) && MustContain(ps[4], w) && MustContain(ps[5], w)
    ensures AllMustContain(ps, w)
  {
  }

  /** Every pattern of `ps` has to pass through the literal `w`. */
  predicate AllMustContain(ps: seq<Pat>, w: string) {
    forall k :: 0 <= k < |ps| ==> MustContain(ps[k], w)
  }

  /** When some pattern that must pass through `w` succeeds, the text contains `w`. */
  lemma SomeTestMustContain(ps: seq<Pat>, w: string, s: string)
    requires AllMustContain(ps, w) && SomeTest(ps, s)
    ensures Contains(s, w)
  {
    var k :| 0 <= k < |ps| && Test(ps[k], s);
    TestMustContain(ps[k], w, s);
  }

  /** A text holding `a + w` for an all-digit word `w` has `w` among its digits. */
  lemma ContainsAfterPrefix(s: string, a: string, w: string)
    requires forall i :: 0 <= i < |w| ==> IsDigit(w[i])
    requires Contains(s, a + w)
    ensures Contains(DigitsOf(s), w)
  {
    var k: nat :| k <= |s| && OccursAt(s, a + w, k);
    assert s[k + |a|..k + |a| + |w|] == (a + w)[|a|..];
    assert OccursAt(s, w, k + |a|);
    DigitWordSurvives(s, w);
  }

  /**
   * Each of the route's checks on the substituted text `zf`, with any list of patterns that
   * must pass through "900", implies that the digits of `zf` contain "900".
   */
  lemma AnyCheckHas900(zf: string, ps: seq<Pat>)
    requires AllMustContain(ps, "900")
    requires Contains(DigitsOf(zf), "900") || Contains(zf, [Rupee] + "900") || Contains(zf, "rs 900")
      || SomeTest(ps, RemoveChars(zf, {',', Rupee}))
    ensures Contains(DigitsOf(zf), "900")
  {
    var w := "900";
    assert forall i :: 0 <= i < |w| ==> IsDigit(w[i]);
    if Contains(DigitsOf(zf), w) {
    } else if Contains(zf, [Rupee] + "900") {
      ContainsAfterPrefix(zf, [Rupee], w);
    } else if Contains(zf, "rs 900") {
      assert "rs " + w == "rs 900";
      ContainsAfterPrefix(zf, "rs ", w);
    } else {
      var sanitized := RemoveChars(zf, {',', Rupee});
      SomeTestMustContain(ps, w, sanitized);
      DigitWordSurvives(sanitized, w);
      DigitsOfRemoveChars(zf, {',', Rupee});
    }
  }

  /** Whatever check accepts a text, the digits of its lower-cased, `o`-as-`0` form contain "900". */
  lemma RoutePaymentAcceptedHas900(text: Option<string>)
    requires RoutePaymentLooksValid(text)
    ensures text.Some? && text.value != ""
    ensures Contains(DigitsOf(ReplaceChar(Lower(text.value), 'o', '0')), "900")
  {
    RoutePatternsNeed900();
    AnyCheckHas900(ReplaceChar(Lower(text.value), 'o', '0'), RoutePatterns);
  }

  /**
   * The checks after the first never change the outcome: the route accepts a text exactly
   * when it is non-empty and the digits of its lower-cased, `o`-as-`0` form contain "900".
   */
  lemma RoutePaymentLooksValidIff(text: Option<string>)
    ensures RoutePaymentLooksValid(text) <==>
      (text.Some? && text.value != "" && Contains(DigitsOf(ReplaceChar(Lower(text.value), 'o', '0')), "900"))
  {
    if RoutePaymentLooksValid(text) {
      RoutePaymentAcceptedHas900(text);
    }
  }

  // ---------------------------------------------------------------- the OCR reply

  /** `ErrorMessage` of an OCR payload: absent, a single value, or an array. */
  datatype ErrorMessage = NoMessage | Message(text: string) | Messages(texts: seq<string>)

  /** The fields of the OCR service's JSON the route reads; each parsed result is its `ParsedText`. */
  datatype OcrPayload = OcrPayload(
    isErroredOnProcessing: bool,
    errorMessage: ErrorMessage,
    parsedResults: Option<seq<string>>)

  /** The HTTP answer: `ok`, `status`, `statusText`, and the body's JSON (or the error parsing it threw). */
  datatype OcrReply = OcrReply(ok: bool, status: nat, statusText: string, payload: Result<OcrPayload, string>)

  const MissingApiKeyError: string := "OCR_SPACE_API_KEY is not configured."
  const DefaultOcrError: string := "OCR processing failed."

  /** The message thrown for a payload that reports a processing error. */
  function ProcessingErrorMessage(m: ErrorMessage): string {
    match m
    case Messages(ms) => Join(ms, "; ")
    case Message(t) => if t == "" then DefaultOcrError else t
    case NoMessage => DefaultOcrError
  }

  /**
   * `runOcrSpace` after the upload: `reply` is what the request produced (a thrown network
   * error is a `Failure`). The text is the parsed texts joined by newlines.
   */
  function OcrText(apiKey: Option<string>, reply: Result<OcrReply, string>): (r: Result<string, string>)
    ensures apiKey.None? || apiKey.value == "" ==> r == Failure(MissingApiKeyError)
    ensures r.Success? ==> (apiKey.Some? && apiKey.value != "" && reply.Success? && reply.value.ok
      && reply.value.payload.Success? && !reply.value.payload.value.isErroredOnProcessing)
    ensures r.Success? ==> r.value == match reply.value.payload.value.parsedResults
      case None => ""
      case Some(ts) => Join(ts, "\n")
    ensures (apiKey.Some? && apiKey.value != "" && reply.Success? && reply.value.ok
      && reply.value.payload.Success? && !reply.value.payload.value.isErroredOnProcessing) ==> r.Success?
    ensures apiKey.Some? && apiKey.value != "" && reply.Failure? ==> r == Failure(reply.error)
    ensures apiKey.Some? && apiKey.value != "" && reply.Success? && !reply.value.ok ==>
      r == Failure("OCR request failed with status " + NatToString(reply.value.status) + " " + reply.value.statusText)
    ensures (apiKey.Some? && apiKey.value != "" && reply.Success? && reply.value.ok
      && reply.value.payload.Failure?) ==> r == Failure(reply.value.payload.error)
  {
    if apiKey.None? || apiKey.value == "" then Failure(MissingApiKeyError)
    else if reply.Failure? then Failure(reply.error)
    else if !reply.value.ok then
      Failure("OCR request failed with status " + NatToString(reply.value.status) + " " + reply.value.statusText)
    else if reply.value.payload.Failure? then Failure(reply.value.payload.error)
    else if reply.value.payload.value.isErroredOnProcessing then
      Failure(ProcessingErrorMessage(reply.value.payload.value.errorMessage))
    else
      Success(match reply.value.payload.value.parsedResults
              case None => ""
              case Some(ts) => Join(ts, "\n"))
  }

  /**
   * A processing error carries the array's entries joined by "; ", a non-empty single message
   * as it is, and otherwise the default message.
   */
  lemma ProcessingErrorMessages(apiKey: string, reply: OcrReply)
    requires apiKey != "" && reply.ok && reply.payload.Success? && reply.payload.value.isErroredOnProcessing
    ensures var m := reply.payload.value.errorMessage;
      OcrText(Some(apiKey), Success(reply)) == Failure(
        if m.Messages? then Join(m.texts, "; ")
        else if m.Message? && m.text != "" then m.text
        else DefaultOcrError)
  {
  }

  // ---------------------------------------------------------------- POST

  /** An uploaded file: what the image test reads, its size in bytes and its content. */
  datatype Upload = Upload(meta: FileMeta, size: nat, bytes: Bytes)

  /**
   * The form fields as `formData.get(...)?.toString()` gives them (`None` when absent), and
   * the two uploads (`None` when absent or not a file).
   */
  datatype RegistrationForm = RegistrationForm(
    name: Option<string>, address: Option<string>,
    playerType: Option<string>, playerTypeOther: Option<string>,
    tshirtSize: Option<string>, jerseyName: Option<string>, jerseyNumber: Option<string>,
    foodType: Option<string>, foodTypeOther: Option<string>,
    feeResponse: Option<string>, feeResponseOther: Option<string>,
    photo: Option<Upload>, paymentScreenshot: Option<Upload>)

  /** The object the route stores. */
  datatype Submission = Submission(
    id: string, createdAt: string, name: string, address: string,
    playerType: string, playerTypeOther: string, tshirtSize: string,
    jerseyName: string, jerseyNumber: string,
    foodType: string, foodTypeOther: string, feeResponse: string, feeResponseOther: string,
    photoKey: string, photoContentType: string,
    paymentScreenshotKey: string, paymentContentType: string, ocrText: string)

  /** What `uploadObject` is given. */
  datatype UploadRequest = UploadRequest(
    key: string, body: Bytes, contentType: string, originalName: string, originalType: string)

  /**
   * The collaborators of `POST`: the image encoder, the OCR key and service, the object store
   * and the database (each `Some(message)` when it throws), and the clock and uuid values the
   * route draws, in the order it draws them.
   */
  datatype Services = Services(
    encode: Encoder,
    ocrApiKey: Option<string>,
    ocr: (Bytes, string) -> Result<OcrReply, string>,
    put: UploadRequest -> Option<string>,
    insert: Submission -> Option<string>,
    photoTime: nat, photoUuid: string, paymentTime: nat, paymentUuid: string,
    submissionId: string, createdAt: string)

  datatype ResponseBody = ErrorBody(error: string) | CreatedBody(submissionId: string)

  datatype Response = Response(status: nat, body: ResponseBody)

  const IncompleteError: string := "Please complete all required fields with valid uploads."
  const NotImageError: string := "Only image files are accepted for photo and payment proof."
  const TooLargeError: string := "Images must be 1 MB or smaller."
  const PlayerTypeError: string := "Please specify your player type."
  const FoodTypeError: string := "Please specify your food preference."
  const FeeResponseError: string := "Please describe your fee status."
  const PaymentNotConfirmedError: string :=
    "Unable to confirm the \U{20B9}900 payment from the screenshot. Please ensure the amount is clearly visible."
  const GenericError: string := "Something went wrong while processing the registration."

  /** `?.toString().trim()` of a field. */
  function Trimmed(f: Option<string>): Option<string> {
    match f
    case None => None
    case Some(v) => Some(Trim(v))
  }

  /** A field that JavaScript treats as true: present and not empty. */
  predicate Filled(f: Option<string>) {
    f.Some? && f.value != ""
  }

  /** A selection of "other" needs its free text. */
  predicate OtherMissing(selection: Option<string>, other: Option<string>) {
    selection == Some("other") && !Filled(Trimmed(other))
  }

  /** Every required field is filled (the free-text ones after trimming) and both uploads are files. */
  predicate RequiredPresent(form: RegistrationForm) {
    Filled(Trimmed(form.name)) && Filled(Trimmed(form.address)) && Filled(form.playerType)
    && Filled(form.tshirtSize) && Filled(Trimmed(form.jerseyName)) && Filled(Trimmed(form.jerseyNumber))
    && Filled(form.foodType) && Filled(form.feeResponse)
    && form.photo.Some? && form.paymentScreenshot.Some?
  }

  /** The checks before the `try` block, in order; `None` when the form passes all of them. */
  function ValidationFailure(form: RegistrationForm): (r: Option<Response>)
    ensures r.Some? ==> r.value.status in {400, 413} && r.value.body.ErrorBody?
    ensures r.Some? && r.value.status == 413 ==> r.value.body == ErrorBody(TooLargeError)
    ensures r.None? <==> (RequiredPresent(form)
      && IsImageFile(Some(form.photo.value.meta)) && IsImageFile(Some(form.paymentScreenshot.value.meta))
      && form.photo.value.size <= MaxImageSizeBytes && form.paymentScreenshot.value.size <= MaxImageSizeBytes
      && !OtherMissing(form.playerType, form.playerTypeOther)
      && !OtherMissing(form.foodType, form.foodTypeOther)
      && !OtherMissing(form.feeResponse, form.feeResponseOther))
  {
    if !RequiredPresent(form) then Some(Response(400, ErrorBody(IncompleteError)))
    else if !IsImageFile(Some(form.photo.value.meta)) || !IsImageFile(Some(form.paymentScreenshot.value.meta)) then
      Some(Response(400, ErrorBody(NotImageError)))
    else if form.photo.value.size > MaxImageSizeBytes || form.paymentScreenshot.value.size > MaxImageSizeBytes then
      Some(Response(413, ErrorBody(TooLargeError)))
    else if OtherMissing(form.playerType, form.playerTypeOther) then Some(Response(400, ErrorBody(PlayerTypeError)))
    else if OtherMissing(form.foodType, form.foodTypeOther) then Some(Response(400, ErrorBody(FoodTypeError)))
    else if OtherMissing(form.feeResponse, form.feeResponseOther) then Some(Response(400, ErrorBody(FeeResponseError)))
    else None
  }

  /** The `catch` block: only the compression message is a 413 and shown; anything else is a 500. */
  function Caught(message: string): (r: Response)
    ensures r.status == 413 <==> message == CompressError
    ensures r.status != 413 ==> r.status == 500 && r.body == ErrorBody(GenericError)
    ensures r.status == 413 ==> r.body == ErrorBody(message)
  {
    var status := if message == CompressError then 413 else 500;
    Response(status, ErrorBody(if status == 413 then message else GenericError))
  }

  /** The stored free text of a selection: kept only when "other" was selected. */
  function OtherText(selection: string, other: Option<string>): (r: string)
    ensures r != "" ==> selection == "other"
  {
    if selection == "other" then Trimmed(other).GetOr("") else ""
  }

  /** The submission the route stores for a validated form. */
  function SubmissionOf(form: RegistrationForm, sv: Services, photoKey: string, paymentKey: string,
                        photo: Compressed, payment: Compressed, text: string): (sub: Submission)
    requires RequiredPresent(form)
    ensures sub.playerTypeOther != "" ==> sub.playerType == "other"
    ensures sub.foodTypeOther != "" ==> sub.foodType == "other"
    ensures sub.feeResponseOther != "" ==> sub.feeResponse == "other"
  {
    Submission(
      sv.submissionId, sv.createdAt, Trimmed(form.name).value, Trimmed(form.address).value,
      form.playerType.value, OtherText(form.playerType.value, form.playerTypeOther), form.tshirtSize.value,
      Trimmed(form.jerseyName).value, Trimmed(form.jerseyNumber).value,
      form.foodType.value, OtherText(form.foodType.value, form.foodTypeOther),
      form.feeResponse.value, OtherText(form.feeResponse.value, form.feeResponseOther),
      photoKey, photo.contentType, paymentKey, payment.contentType, text)
  }

  /** `file.name || fallback`. */
  function NameOr(meta: FileMeta, fallback: string): string {
    if meta.name.Some? && meta.name.value != "" then meta.name.value else fallback
  }

  /** The upload of one compressed image to `folder`. */
  function UploadRequestFor(folder: string, fallback: string, meta: FileMeta, image: Compressed,
                            now: nat, uuid: string): UploadRequest {
    UploadRequest(
      BuildStorageKey(folder, Some(EnsureJpegFilename(meta.name, fallback)), now, uuid),
      image.buffer, image.contentType,
      SanitizeFilename(Some(NameOr(meta, fallback))), meta.mimeType.GetOr(""))
  }

  /** The upload of the compressed photo. */
  function PhotoRequest(form: RegistrationForm, sv: Services, photo: Compressed): UploadRequest
    requires form.photo.Some?
  {
    UploadRequestFor("photos", "photo", form.photo.value.meta, photo, sv.photoTime, sv.photoUuid)
  }

  /** The upload of the compressed payment screenshot. */
  function PaymentRequest(form: RegistrationForm, sv: Services, payment: Compressed): UploadRequest
    requires form.paymentScreenshot.Some?
  {
    UploadRequestFor("payments", "payment", form.paymentScreenshot.value.meta, payment,
                     sv.paymentTime, sv.paymentUuid)
  }

  /** The record inserted once both uploads are stored under their keys. */
  function StoredRecord(form: RegistrationForm, sv: Services, photo: Compressed, payment: Compressed,
                        text: string): Submission
    requires RequiredPresent(form)
  {
    SubmissionOf(form, sv, PhotoRequest(form, sv, photo).key, PaymentRequest(form, sv, payment).key,
                 photo, payment, text)
  }

  /**
   * The end of the `try` block: upload the two images, then insert the record. The first
   * thrown message becomes the caught answer; with nothing thrown the answer is 201 with the
   * new id.
   */
  function StoreSubmission(sv: Services, photoRequest: UploadRequest, paymentRequest: UploadRequest,
                           sub: Submission): (r: Response)
    ensures r.status in {201, 413, 500}
    ensures r.body.CreatedBody? <==> r.status == 201
    ensures r.status == 201 <==> (sv.put(photoRequest).None? && sv.put(paymentRequest).None? && sv.insert(sub).None?)
    ensures r.status == 201 ==> r == Response(201, CreatedBody(sv.submissionId))
    ensures sv.put(photoRequest).Some? ==> r == Caught(sv.put(photoRequest).value)
    ensures sv.put(photoRequest).None? && sv.put(paymentRequest).Some? ==> r == Caught(sv.put(paymentRequest).value)
    ensures (sv.put(photoRequest).None? && sv.put(paymentRequest).None? && sv.insert(sub).Some?) ==>
      r == Caught(sv.insert(sub).value)
    ensures r.status == 413 ==> r.body == ErrorBody(CompressError)
  {
    if sv.put(photoRequest).Some? then Caught(sv.put(photoRequest).value)
    else if sv.put(paymentRequest).Some? then Caught(sv.put(paymentRequest).value)
    else if sv.insert(sub).Some? then Caught(sv.insert(sub).value)
    else Response(201, CreatedBody(sv.submissionId))
  }

  /** The store step for a form and its two compressed images and OCR text. */
  function StoreFor(form: RegistrationForm, sv: Services, photo: Compressed, payment: Compressed,
                    text: string): Response
    requires RequiredPresent(form)
  {
    StoreSubmission(sv, PhotoRequest(form, sv, photo), PaymentRequest(form, sv, payment),
                    StoredRecord(form, sv, photo, payment, text))
  }

  /** The OCR request for the compressed payment screenshot. */
  function PaymentOcr(form: RegistrationForm, sv: Services, payment: Compressed): Result<string, string>
    requires form.paymentScreenshot.Some?
  {
    OcrText(sv.ocrApiKey, sv.ocr(payment.buffer, EnsureJpegFilename(form.paymentScreenshot.value.meta.name, "payment")))
  }

  /**
   * The answer `POST` gives once the form has passed validation and both images compressed:
   * a 422 only for an OCR text the route does not accept, a 201 only for one it does.
   */
  function AfterCompression(form: RegistrationForm, sv: Services, photo: Compressed, payment: Compressed): (r: Response)
    requires RequiredPresent(form)
    ensures r.status in {201, 413, 422, 500}
    ensures r.body.CreatedBody? <==> r.status == 201
    ensures r.status == 201 ==> (r.body == CreatedBody(sv.submissionId)
      && PaymentOcr(form, sv, payment).Success? && RoutePaymentLooksValid(Some(PaymentOcr(form, sv, payment).value)))
    ensures r.status == 413 ==> r.body == ErrorBody(CompressError)
    ensures r.status == 422 <==> (PaymentOcr(form, sv, payment).Success?
      && !RoutePaymentLooksValid(Some(PaymentOcr(form, sv, payment).value)))
    ensures r.status == 422 ==> r.body == ErrorBody(PaymentNotConfirmedError)
    ensures PaymentOcr(form, sv, payment).Failure? ==> r == Caught(PaymentOcr(form, sv, payment).error)
    ensures PaymentOcr(form, sv, payment).Success? && RoutePaymentLooksValid(Some(PaymentOcr(form, sv, payment).value)) ==>
      r == StoreFor(form, sv, photo, payment, PaymentOcr(form, sv, payment).value)
  {
    match PaymentOcr(form, sv, payment)
    case Failure(e) => Caught(e)
    case Success(text) =>
      if !RoutePaymentLooksValid(Some(text)) then Response(422, ErrorBody(PaymentNotConfirmedError))
      else StoreFor(form, sv, photo, payment, text)
  }

  /**
   * What a created registration needs: a form that passes validation, two images that
   * compress, and an OCR text of the compressed screenshot that the route accepts.
   */
  predicate Registrable(form: RegistrationForm, sv: Services) {
    ValidationFailure(form).None? && Compressible(form, sv)
  }

  /** Both images compress, and the route accepts the OCR text of the compressed screenshot. */
  predicate Compressible(form: RegistrationForm, sv: Services)
    requires RequiredPresent(form)
  {
    CompressOutcome(sv.encode, form.photo.value.bytes).Success?
    && CompressOutcome(sv.encode, form.paymentScreenshot.value.bytes).Success?
    && var payment := CompressOutcome(sv.encode, form.paymentScreenshot.value.bytes).value;
    PaymentOcr(form, sv, payment).Success? && RoutePaymentLooksValid(Some(PaymentOcr(form, sv, payment).value))
  }

  /** The `try` block of `POST` for a form that passed validation: the two compressions, then the rest. */
  function AfterValidation(form: RegistrationForm, sv: Services): (r: Response)
    requires RequiredPresent(form)
    ensures r.status in {413, 422, 201, 500}
    ensures r.body.CreatedBody? <==> r.status == 201
    ensures r.status == 201 ==> Compressible(form, sv) && r.body == CreatedBody(sv.submissionId)
    ensures r.status == 413 ==> r.body == ErrorBody(CompressError)
    ensures r.status == 422 ==> r.body == ErrorBody(PaymentNotConfirmedError)
    ensures CompressOutcome(sv.encode, form.photo.value.bytes).Failure? ==> r == Response(413, ErrorBody(CompressError))
    ensures CompressOutcome(sv.encode, form.paymentScreenshot.value.bytes).Failure? ==>
      r == Response(413, ErrorBody(CompressError))
    ensures (CompressOutcome(sv.encode, form.photo.value.bytes).Success?
      && CompressOutcome(sv.encode, form.paymentScreenshot.value.bytes).Success?) ==>
      r == AfterCompression(form, sv, CompressOutcome(sv.encode, form.photo.value.bytes).value,
                            CompressOutcome(sv.encode, form.paymentScreenshot.value.bytes).value)
  {
    match CompressOutcome(sv.encode, form.photo.value.bytes)
    case Failure(e) => Caught(e)
    case Success(photo) =>
      match CompressOutcome(sv.encode, form.paymentScreenshot.value.bytes)
      case Failure(e) => Caught(e)
      case Success(payment) => AfterCompression(form, sv, photo, payment)
  }

  /**
   * `POST` stated as one decision: validation, the two compressions, then the rest. It answers
   * with one of 400, 413, 422, 201 and 500; a registration is created only for a form that
   * passes every check, whose two images compress and whose OCR text the route accepts; 413
   * comes only from an upload over 1 MiB or from the compression message, 422 only from an
   * OCR text the route rejects.
   */
  function PostOutcome(form: RegistrationForm, sv: Services): (r: Response)
    ensures r.status in {400, 413, 422, 201, 500}
    ensures r.body.CreatedBody? <==> r.status == 201
    ensures r.status == 201 ==> Registrable(form, sv) && r.body == CreatedBody(sv.submissionId)
    ensures r.status == 413 ==> r.body in {ErrorBody(TooLargeError), ErrorBody(CompressError)}
    ensures r.status == 422 ==> (ValidationFailure(form).None? && r.body == ErrorBody(PaymentNotConfirmedError))
    ensures ValidationFailure(form).Some? ==> r == ValidationFailure(form).value
    ensures ValidationFailure(form).None? ==> r == AfterValidation(form, sv)
    ensures (Registrable(form, sv) && (forall q :: sv.put(q).None?) && (forall sub :: sv.insert(sub).None?)) ==>
      r == Response(201, CreatedBody(sv.submissionId))
  {
    match ValidationFailure(form)
    case Some(r) => r
    case None => AfterValidation(form, sv)
  }

  /** `POST`: the early returns of validation, then the `try` block and its `catch`. */
  method Post(form: RegistrationForm, sv: Services) returns (response: Response)
    ensures response == PostOutcome(form, sv)
  {
    var early := ValidationFailure(form);
    if early.Some? {
      return early.value;
    }
    var photo := CompressImage(sv.encode, form.photo.value.bytes);
    if photo.Failure? {
      return Caught(photo.error);
    }
    var payment := CompressImage(sv.encode, form.paymentScreenshot.value.bytes);
    if payment.Failure? {
      return Caught(payment.error);
    }
    var pay := form.paymentScreenshot.value;
    var text := OcrText(sv.ocrApiKey, sv.ocr(payment.value.buffer, EnsureJpegFilename(pay.meta.name, "payment")));
    if text.Failure? {
      return Caught(text.error);
    }
    if !RoutePaymentLooksValid(Some(text.value)) {
      return Response(422, ErrorBody(PaymentNotConfirmedError));
    }
    var photoRequest := PhotoRequest(form, sv, photo.value);
    var failed := sv.put(photoRequest);
    if failed.Some? {
      return Caught(failed.value);
    }
    var paymentRequest := PaymentRequest(form, sv, payment.value);
    failed := sv.put(paymentRequest);
    if failed.Some? {
      return Caught(failed.value);
    }
    var sub := SubmissionOf(form, sv, photoRequest.key, paymentRequest.key, photo.value, payment.value, text.value);
    failed := sv.insert(sub);
    if failed.Some? {
      return Caught(failed.value);
    }
    return Response(201, CreatedBody(sv.submissionId));
  }
}
