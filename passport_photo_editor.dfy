/** The passport-photo editor: the table of standard output sizes, the values the
    editor derives from its state (the active image, the output dimensions, the
    output file name, the zoom steps), and the editor session itself, a class whose
    fields are the component's state and whose methods are its event handlers. */
module PassportPhotoEditor {
  import opened Common
  import opened JsStrings

  /** A standard output size: its name, its pixel width and height, and the physical
      size shown beside the name. */
  datatype Dimension = Dimension(name: string, width: int, height: int, mm: string)

  /** Width and height typed in for the "Custom" size. */
  datatype Size = Size(width: int, height: int)

  const PassportSizes: seq<Dimension> := [
    Dimension("US Passport (2x2 inch)", 600, 600, "51x51"),
    Dimension("Schengen Visa (35x45 mm)", 413, 531, "35x45"),
    Dimension("Canada Passport (50x70 mm)", 591, 827, "50x70"),
    Dimension("India Passport (2x2 inch)", 600, 600, "51x51"),
    Dimension("Australia Passport (35x45 mm)", 413, 531, "35x45"),
    Dimension("UK Passport (35x45 mm)", 413, 531, "35x45"),
    Dimension("Pakistan Passport (35x45 mm)", 413, 531, "35x45"),
    Dimension("Philippines Passport (35x45 mm)", 413, 531, "35x45"),
    Dimension("Europe (35x45 mm)", 413, 531, "35x45"),
    Dimension("Custom", 500, 500, "Custom")
  ]

  /** Position of the "Custom" entry in the table. */
  const CustomIndex: nat := 9

  const CustomName: string := "Custom"
  const DefaultFilename: string := "passport-photo"
  const LoadingModelMessage: string := "Loading AI model (this may take a moment)..."
  const PngExtension: string := ".png"

  const MinZoom: real := 1.0
  const MaxZoom: real := 3.0
  const ZoomStep: real := 0.1

  // ---------------------------------------------------------------------------
  // The size table and the output dimensions

  predicate NamesDistinct(sizes: seq<Dimension>)
  {
    forall i, j :: 0 <= i < j < |sizes| ==> sizes[i].name != sizes[j].name
  }

  /** `sizes.find((s) => s.name === name)`: the first entry with that name, if any. */
  function FindSize(sizes: seq<Dimension>, name: string): (r: Option<Dimension>)
    ensures r.Some? ==> r.value in sizes && r.value.name == name
    ensures r.None? <==> forall i :: 0 <= i < |sizes| ==> sizes[i].name != name
    ensures r.Some? ==> exists i :: 0 <= i < |sizes| && sizes[i] == r.value &&
                                   forall j :: 0 <= j < i ==> sizes[j].name != name
    decreases |sizes|
  {
    if |sizes| == 0 then None
    else if sizes[0].name == name then Some(sizes[0])
    else
      var r := FindSize(sizes[1..], name);
      if r.Some? then
        var i :| 0 <= i < |sizes| - 1 && sizes[1..][i] == r.value &&
                 forall j :: 0 <= j < i ==> sizes[1..][j].name != name;
        assert sizes[i + 1] == r.value;
        assert forall j :: 1 <= j < i + 1 ==> sizes[j] == sizes[1..][j - 1];
        r
      else r
  }

  /** In a table whose names are distinct, looking an entry up by its own name finds
      that very entry. */
  lemma {:induction false} FindSizeUnique(sizes: seq<Dimension>, i: nat)
    requires NamesDistinct(sizes) && i < |sizes|
    ensures FindSize(sizes, sizes[i].name) == Some(sizes[i])
    decreases |sizes|
  {
    if i > 0 {
      var rest := sizes[1..];
      assert sizes[0].name != sizes[i].name;
      assert rest[i - 1] == sizes[i];
      forall a, b | 0 <= a < b < |rest| ensures rest[a].name != rest[b].name {
        assert rest[a] == sizes[a + 1] && rest[b] == sizes[b + 1];
      }
      FindSizeUnique(rest, i - 1);
    }
  }

  /** No two standard sizes share a name; "Custom" is the last one. */
  lemma PassportSizesWellFormed()
    ensures NamesDistinct(PassportSizes)
    ensures PassportSizes[CustomIndex].name == CustomName
  {
    forall i, j | 0 <= i < j < |PassportSizes|
      ensures PassportSizes[i].name != PassportSizes[j].name
    {
      // Any two names differ in length or in one of their first characters.
      var a, b := PassportSizes[i].name, PassportSizes[j].name;
      assert |a| != |b| || a[0] != b[0] || a[1] != b[1];
    }
  }

  /** Choosing a size from the list by its name selects exactly that entry. */
  lemma SelectSizeByName(i: nat)
    requires i < |PassportSizes|
    ensures FindSize(PassportSizes, PassportSizes[i].name) == Some(PassportSizes[i])
  {
    PassportSizesWellFormed();
    FindSizeUnique(PassportSizes, i);
  }

  /** `selectedSize.name === "Custom" ? { ...selectedSize, ...customDimensions } : selectedSize` */
  function OutputDimensions(selected: Dimension, custom: Size): (r: Dimension)
    ensures r.name == selected.name && r.mm == selected.mm
    ensures selected.name == CustomName ==> r.width == custom.width && r.height == custom.height
    ensures selected.name != CustomName ==> r == selected
  {
    if selected.name == CustomName then selected.(width := custom.width, height := custom.height)
    else selected
  }

  /** Selecting a size by name and deriving the output dimensions gives the table's
      width and height for every entry but "Custom", and the typed-in ones for "Custom". */
  lemma DimensionsOfSelectedSize(i: nat, custom: Size)
    requires i < |PassportSizes|
    ensures var d := OutputDimensions(FindSize(PassportSizes, PassportSizes[i].name).value, custom);
            if i == CustomIndex then d.width == custom.width && d.height == custom.height
            else d.width == PassportSizes[i].width && d.height == PassportSizes[i].height
  {
    SelectSizeByName(i);
    PassportSizesWellFormed();
    if i != CustomIndex {
      assert PassportSizes[i].name != PassportSizes[CustomIndex].name;
    }
  }

  // ---------------------------------------------------------------------------
  // The active image

  /** A JavaScript truthiness test on an image: present and not the empty string. */
  predicate Truthy(image: Option<string>)
  {
    image.Some? && image.value != ""
  }

  /** `processedImage || originalImage` */
  function ActiveImage(processed: Option<string>, original: Option<string>): (r: Option<string>)
    ensures Truthy(r) <==> Truthy(processed) || Truthy(original)
    ensures Truthy(processed) ==> r == processed
    ensures !Truthy(processed) ==> r == original
  {
    if Truthy(processed) then processed else original
  }

  // ---------------------------------------------------------------------------
  // The output file name

  /** Splitting at '.', dropping the last part and joining again leaves the text
      before the last '.', and nothing when there is no '.'. */
  lemma StemIsTextBeforeLastDot(fileName: string)
    ensures var k := LastIndexOf(fileName, '.');
            Join(DropLast(Split(fileName, '.')), '.') == if k < 0 then "" else fileName[..k]
  {
    var k := LastIndexOf(fileName, '.');
    if k < 0 {
      SplitWithoutSeparator(fileName, '.');
    } else {
      var before, after := fileName[..k], fileName[k + 1..];
      assert fileName == before + ['.'] + after;
      assert '.' !in after by {
        forall j | 0 <= j < |after| ensures after[j] != '.' {
          assert after[j] == fileName[k + 1 + j];
        }
      }
      SplitAtLastSeparator(before, '.', after);
      var parts := Split(before, '.');
      assert DropLast(parts + [after]) == parts;
      JoinSplit(before, '.');
    }
  }

  /** `fileName.split('.').slice(0, -1).join('.')`: the file name without its last
      extension. */
  function StemOf(fileName: string): (r: string)
    ensures var k := LastIndexOf(fileName, '.');
            r == if k < 0 then "" else fileName[..k]
  {
    StemIsTextBeforeLastDot(fileName);
    Join(DropLast(Split(fileName, '.')), '.')
  }

  /** `nameWithoutExtension || 'passport-photo'`: the file name without its last
      extension, or the default name when that leaves nothing (no '.' at all, or the
      only '.' the first character). */
  function OutputFilenameFor(fileName: string): (r: string)
    ensures r != ""
    ensures var k := LastIndexOf(fileName, '.');
            r == if k <= 0 then DefaultFilename else fileName[..k]
  {
    var stem := StemOf(fileName);
    if stem == "" then DefaultFilename else stem
  }

  /** Where the last '.' sits in the worked file names below. */
  lemma LastDotOfExamples()
    ensures LastIndexOf("a.b.jpg", '.') == 3
    ensures LastIndexOf("photo", '.') == -1
    ensures LastIndexOf(".png", '.') == 0
    ensures LastIndexOf("selfie.", '.') == 6
  {
    assert "a.b.jpg"[..6] == "a.b.jp" && "a.b.jp"[..5] == "a.b.j" && "a.b.j"[..4] == "a.b.";
    assert LastIndexOf("a.b.", '.') == 3;
    assert LastIndexOf("a.b.j", '.') == 3;
    assert LastIndexOf("a.b.jp", '.') == 3;
    assert ".png"[..3] == ".pn" && ".pn"[..2] == ".p" && ".p"[..1] == ".";
    assert LastIndexOf(".", '.') == 0;
    assert LastIndexOf(".p", '.') == 0;
    assert LastIndexOf(".pn", '.') == 0;
  }

  /** Worked cases: only the last extension goes, and names that keep nothing get the
      default. */
  lemma OutputFilenameExamples()
    ensures OutputFilenameFor("a.b.jpg") == "a.b"
    ensures OutputFilenameFor("photo") == DefaultFilename
    ensures OutputFilenameFor(".png") == DefaultFilename
    ensures OutputFilenameFor("selfie.") == "selfie"
  {
    LastDotOfExamples();
    assert "a.b.jpg"[..3] == "a.b";
    assert "selfie."[..6] == "selfie";
  }

  // ---------------------------------------------------------------------------
  // Zoom

  /** `Math.max(1, z - 0.1)`, the zoom-out button's update. */
  function ZoomOutStep(z: real): (r: real)
    ensures MinZoom <= r
    ensures z <= MaxZoom ==> r <= MaxZoom
    ensures MinZoom < z ==> r < z
    ensures z <= MinZoom + ZoomStep ==> r == MinZoom
  {
    if z - ZoomStep < MinZoom then MinZoom else z - ZoomStep
  }

  /** `Math.min(3, z + 0.1)`, the zoom-in button's update. */
  function ZoomInStep(z: real): (r: real)
    ensures r <= MaxZoom
    ensures MinZoom <= z ==> MinZoom <= r
    ensures z < MaxZoom ==> z < r
    ensures MaxZoom - ZoomStep <= z ==> r == MaxZoom
  {
    if z + ZoomStep > MaxZoom then MaxZoom else z + ZoomStep
  }

  /** Away from the bounds, one step out undoes one step in, and the other way round. */
  lemma ZoomStepsUndoEachOther(z: real)
    ensures MinZoom <= z <= MaxZoom - ZoomStep ==> ZoomOutStep(ZoomInStep(z)) == z
    ensures MinZoom + ZoomStep <= z <= MaxZoom ==> ZoomInStep(ZoomOutStep(z)) == z
  {
  }

  datatype ZoomButton = ZoomOutButton | ZoomInButton

  /** The zoom after pressing the buttons in order. */
  function PressZoomButtons(z: real, presses: seq<ZoomButton>): real
    decreases |presses|
  {
    if |presses| == 0 then z
    else
      var next := if presses[0] == ZoomOutButton then ZoomOutStep(z) else ZoomInStep(z);
      PressZoomButtons(next, presses[1..])
  }

  /** From a zoom in [1, 3], any sequence of button presses keeps it in [1, 3]. */
  lemma {:induction false} ZoomButtonsStayInRange(z: real, presses: seq<ZoomButton>)
    requires MinZoom <= z <= MaxZoom
    ensures MinZoom <= PressZoomButtons(z, presses) <= MaxZoom
    decreases |presses|
  {
    if |presses| > 0 {
      var next := if presses[0] == ZoomOutButton then ZoomOutStep(z) else ZoomInStep(z);
      ZoomButtonsStayInRange(next, presses[1..]);
    }
  }

  // ---------------------------------------------------------------------------
  // The editor session

  datatype Point = Point(x: real, y: real)

  /** A rectangle of the source image in pixels, as the cropper reports it. */
  datatype Area = Area(x: real, y: real, width: real, height: real)

  /** Brightness, contrast and saturation in percent; 100 leaves the image as it is. */
  datatype Adjustments = Adjustments(brightness: int, contrast: int, saturation: int)

  datatype Adjustment = Brightness | Contrast | Saturation

  /** Every field of an editor session, as one value. */
  datatype EditorView = EditorView(
    originalImage: Option<string>,
    processedImage: Option<string>,
    isLoading: bool,
    loadingMessage: string,
    isDownloading: bool,
    selectedSize: Dimension,
    customDimensions: Size,
    crop: Point,
    zoom: real,
    croppedAreaPixels: Option<Area>,
    adjustments: Adjustments,
    outputFilename: string,
    backgroundColor: string)

  const InitialView: EditorView := EditorView(
    None, None, false, "", false, PassportSizes[0], Size(500, 500), Point(0.0, 0.0), 1.0,
    None, Adjustments(100, 100, 100), DefaultFilename, "#ffffff")

  /** What the outside world does once background removal has started. */
  datatype RemovalOutcome =
    | RemovalFailed              // fetching the image, the remover or loading its result rejected
    | Composited(url: string)    // a 2d context existed: PNG data URL of the cut-out over the colour
    | Uncomposited(url: string)  // no 2d context: object URL of the transparent cut-out

  const ProgressPrefix: string := "Processing: "

  /** The progress message shown while the remover works: the prefix, the percentage
      in decimal, and '%'; reading the number after the prefix gives the percentage
      back. */
  function ProgressMessage(percent: nat): (m: string)
    ensures |m| > |ProgressPrefix| + 1 && m[..|ProgressPrefix|] == ProgressPrefix && m[|m| - 1] == '%'
  {
    ProgressPrefix + NatToString(percent) + "%"
  }

  /** Reading the number after the prefix of a progress message gives its percentage:
      what follows the prefix is that number's decimal text, ended by '%'. */
  lemma ProgressMessageReadsBack(percent: nat)
    ensures ParseInt(ProgressMessage(percent)[|ProgressPrefix|..]) == Some(percent)
    ensures ParseIntOrZero(ProgressMessage(percent)[|ProgressPrefix|..]) == percent
  {
    var m := ProgressMessage(percent);
    assert m[|ProgressPrefix|..] == IntToString(percent) + "%";
    ParseIntOfIntToString(percent, "%");
  }

  /** What a download works from: the values of the click that started it. */
  datatype DownloadJob = DownloadJob(image: string, area: Area, filename: string, width: int, height: int)

  /** What the outside world does once a download has started. */
  datatype DownloadOutcome =
    | CropFailed       // loading the image or cropping it rejected
    | NoFinalContext   // no 2d context for the final canvas
    | Rendered         // the final PNG was drawn and the link clicked

  /** The file handed to the browser: its name and pixel size. */
  datatype SavedFile = SavedFile(name: string, width: int, height: int)

  class Editor {
    var originalImage: Option<string>
    var processedImage: Option<string>
    var isLoading: bool
    var loadingMessage: string
    var isDownloading: bool
    var selectedSize: Dimension
    var customDimensions: Size
    var crop: Point
    var zoom: real
    var croppedAreaPixels: Option<Area>
    var adjustments: Adjustments
    var outputFilename: string
    var backgroundColor: string

    function View(): EditorView
      reads this
    {
      EditorView(originalImage, processedImage, isLoading, loadingMessage, isDownloading,
                 selectedSize, customDimensions, crop, zoom, croppedAreaPixels, adjustments,
                 outputFilename, backgroundColor)
    }

    /** The zoom stays within the slider's range, the selected size is a table entry,
        and a loading message is shown only while loading. */
    ghost predicate Valid()
      reads this
    {
      && MinZoom <= zoom <= MaxZoom
      && selectedSize in PassportSizes
      && (!isLoading ==> loadingMessage == "")
    }

    constructor ()
      ensures Valid() && View() == InitialView
      ensures ActiveImage(processedImage, originalImage) == None
    {
      originalImage, processedImage := None, None;
      isLoading, loadingMessage, isDownloading := false, "", false;
      selectedSize, customDimensions := PassportSizes[0], Size(500, 500);
      crop, zoom, croppedAreaPixels := Point(0.0, 0.0), 1.0, None;
      adjustments := Adjustments(100, 100, 100);
      outputFilename, backgroundColor := DefaultFilename, "#ffffff";
    }

    /** `handleFileAdded`: only the first file is read. When the reader's load event
        delivers `loaded`, that image becomes the original, the processed image is
        dropped, zoom and crop go back to their start values and the output name
        becomes the file's stem. `loaded` is `None` when no load event comes. */
    method HandleFileAdded(files: seq<File>, loaded: Option<string>)
      requires Valid()
      modifies this
      ensures |files| == 0 || loaded.None? ==> View() == old(View())
      ensures |files| > 0 && loaded.Some? ==>
        View() == old(View()).(originalImage := loaded, processedImage := None, zoom := 1.0,
                               crop := Point(0.0, 0.0),
                               outputFilename := OutputFilenameFor(files[0].name))
      ensures Valid()
      ensures |files| > 0 && loaded.Some? ==> ActiveImage(processedImage, originalImage) == loaded
    {
      if |files| > 0 && loaded.Some? {
        var name := OutputFilenameFor(files[0].name);
        originalImage, processedImage := loaded, None;
        zoom, crop := 1.0, Point(0.0, 0.0);
        outputFilename := name;
      }
    }

    /** The system picker's change handler: its first file, if any, goes to
        `HandleFileAdded` on its own. */
    method PickWithSystemPicker(files: seq<File>, loaded: Option<string>)
      requires Valid()
      modifies this
      ensures |files| == 0 || loaded.None? ==> View() == old(View())
      ensures |files| > 0 && loaded.Some? ==>
        View() == old(View()).(originalImage := loaded, processedImage := None, zoom := 1.0,
                               crop := Point(0.0, 0.0),
                               outputFilename := OutputFilenameFor(files[0].name))
      ensures Valid()
    {
      if |files| > 0 {
        HandleFileAdded([files[0]], loaded);
      }
    }

    /** `handleReset` ("Change Photo"): both images go; nothing is left to show. */
    method HandleReset()
      requires Valid()
      modifies this
      ensures Valid()
      ensures View() == old(View()).(originalImage := None, processedImage := None)
      ensures ActiveImage(processedImage, originalImage) == None
    {
      originalImage := None;
      processedImage := None;
    }

    /** The small cross on the processed preview: the original becomes active again. */
    method DiscardProcessedImage()
      requires Valid()
      modifies this
      ensures Valid()
      ensures View() == old(View()).(processedImage := None)
      ensures ActiveImage(processedImage, originalImage) == originalImage
    {
      processedImage := None;
    }

    /** First half of `handleRemoveBackground`, up to the wait for the remover: nothing
        happens without an original image; otherwise loading starts. */
    method BeginRemoveBackground() returns (started: bool)
      requires Valid()
      modifies this
      ensures Valid()
      ensures started == Truthy(old(originalImage))
      ensures !started ==> View() == old(View())
      ensures started ==> View() == old(View()).(isLoading := true, loadingMessage := LoadingModelMessage)
    {
      started := Truthy(originalImage);
      if started {
        isLoading := true;
        loadingMessage := LoadingModelMessage;
      }
    }

    /** The remover's progress callback, which runs only while loading. */
    method ReportRemovalProgress(percent: nat)
      requires Valid() && isLoading
      modifies this
      ensures Valid()
      ensures View() == old(View()).(loadingMessage := ProgressMessage(percent))
    {
      loadingMessage := ProgressMessage(percent);
    }

    /** Second half of `handleRemoveBackground`: on success the result becomes the
        processed image, on failure the processed image is kept as it was, and in
        every case loading ends with an empty message. */
    method FinishRemoveBackground(outcome: RemovalOutcome)
      requires Valid()
      modifies this
      ensures Valid()
      ensures outcome.RemovalFailed? ==> processedImage == old(processedImage)
      ensures !outcome.RemovalFailed? ==> processedImage == Some(outcome.url)
      ensures View() == old(View()).(isLoading := false, loadingMessage := "", processedImage := processedImage)
    {
      match outcome {
        case RemovalFailed =>
        case Composited(url) => processedImage := Some(url);
        case Uncomposited(url) => processedImage := Some(url);
      }
      isLoading := false;
      loadingMessage := "";
    }

    /** `handleRemoveBackground` from click to end, with no progress reported between. */
    method HandleRemoveBackground(outcome: RemovalOutcome) returns (ran: bool)
      requires Valid()
      modifies this
      ensures Valid()
      ensures ran == Truthy(old(originalImage))
      ensures !ran ==> View() == old(View())
      ensures ran && outcome.RemovalFailed? ==> processedImage == old(processedImage)
      ensures ran && !outcome.RemovalFailed? ==> processedImage == Some(outcome.url)
      ensures ran ==> View() == old(View()).(isLoading := false, loadingMessage := "", processedImage := processedImage)
    {
      ran := BeginRemoveBackground();
      if ran {
        FinishRemoveBackground(outcome);
      }
    }

    /** The background colour picker. The effect that watches the colour has an empty
        body, so an already processed image keeps its old background. */
    method SetBackgroundColor(color: string)
      requires Valid()
      modifies this
      ensures Valid()
      ensures View() == old(View()).(backgroundColor := color)
      ensures processedImage == old(processedImage)
    {
      backgroundColor := color;
    }

    /** First half of `handleDownload`: nothing happens without an active image and a
        crop rectangle; otherwise downloading starts from the values of this moment. */
    method BeginDownload() returns (job: Option<DownloadJob>)
      requires Valid()
      modifies this
      ensures Valid()
      ensures job.Some? <==> Truthy(old(ActiveImage(processedImage, originalImage))) && old(croppedAreaPixels).Some?
      ensures job.None? ==> View() == old(View())
      ensures job.Some? ==> View() == old(View()).(isDownloading := true)
      ensures job.Some? ==>
        job.value == DownloadJob(old(ActiveImage(processedImage, originalImage)).value, old(croppedAreaPixels).value, old(outputFilename),
                                 old(OutputDimensions(selectedSize, customDimensions)).width, old(OutputDimensions(selectedSize, customDimensions)).height)
    {
      var image := ActiveImage(processedImage, originalImage);
      if Truthy(image) && croppedAreaPixels.Some? {
        var d := OutputDimensions(selectedSize, customDimensions);
        job := Some(DownloadJob(image.value, croppedAreaPixels.value, outputFilename, d.width, d.height));
        isDownloading := true;
      } else {
        job := None;
      }
    }

    /** Second half of `handleDownload`: a rendered image is saved as the output name
        plus ".png" at the output size; a failure saves nothing; either way the
        download flag goes down. */
    method FinishDownload(job: DownloadJob, outcome: DownloadOutcome) returns (saved: Option<SavedFile>)
      requires Valid()
      modifies this
      ensures Valid()
      ensures View() == old(View()).(isDownloading := false)
      ensures saved.Some? <==> outcome.Rendered?
      ensures saved.Some? ==> saved.value == SavedFile(job.filename + PngExtension, job.width, job.height)
    {
      match outcome {
        case CropFailed => saved := None;
        case NoFinalContext => saved := None;
        case Rendered => saved := Some(SavedFile(job.filename + PngExtension, job.width, job.height));
      }
      isDownloading := false;
    }

    /** `handleDownload` from click to end. */
    method HandleDownload(outcome: DownloadOutcome) returns (saved: Option<SavedFile>)
      requires Valid()
      modifies this
      ensures Valid()
      ensures Truthy(old(ActiveImage(processedImage, originalImage))) && old(croppedAreaPixels).Some? ==> View() == old(View()).(isDownloading := false)
      ensures !(Truthy(old(ActiveImage(processedImage, originalImage))) && old(croppedAreaPixels).Some?) ==> View() == old(View())
      ensures saved.Some? <==> Truthy(old(ActiveImage(processedImage, originalImage))) && old(croppedAreaPixels).Some? && outcome.Rendered?
      ensures saved.Some? ==>
        saved.value == SavedFile(old(outputFilename) + PngExtension, old(OutputDimensions(selectedSize, customDimensions)).width, old(OutputDimensions(selectedSize, customDimensions)).height)
    {
      var job := BeginDownload();
      if job.Some? {
        saved := FinishDownload(job.value, outcome);
      } else {
        saved := None;
      }
    }

    /** The zoom-out button. */
    method ZoomOut()
      requires Valid()
      modifies this
      ensures Valid()
      ensures View() == old(View()).(zoom := ZoomOutStep(old(zoom)))
    {
      zoom := ZoomOutStep(zoom);
    }

    /** The zoom-in button. */
    method ZoomIn()
      requires Valid()
      modifies this
      ensures Valid()
      ensures View() == old(View()).(zoom := ZoomInStep(old(zoom)))
    {
      zoom := ZoomInStep(zoom);
    }

    /** The zoom slider and the cropper's own zoom gesture, both bounded to [1, 3]. */
    method SetZoom(value: real)
      requires Valid() && MinZoom <= value <= MaxZoom
      modifies this
      ensures Valid()
      ensures View() == old(View()).(zoom := value)
    {
      zoom := value;
    }

    /** The cropper moving the crop position. */
    method SetCrop(position: Point)
      requires Valid()
      modifies this
      ensures Valid()
      ensures View() == old(View()).(crop := position)
    {
      crop := position;
    }

    /** `onCropComplete`: the cropper reports the selected rectangle in pixels. */
    method CropComplete(pixels: Area)
      requires Valid()
      modifies this
      ensures Valid()
      ensures View() == old(View()).(croppedAreaPixels := Some(pixels))
    {
      croppedAreaPixels := Some(pixels);
    }

    /** The size list: it offers only the table's names, and the entry with the chosen
        name becomes the selected size. */
    method SelectSize(name: string)
      requires Valid()
      requires exists i :: 0 <= i < |PassportSizes| && PassportSizes[i].name == name
      modifies this
      ensures Valid()
      ensures selectedSize.name == name
      ensures View() == old(View()).(selectedSize := FindSize(PassportSizes, name).value)
    {
      selectedSize := FindSize(PassportSizes, name).value;
    }

    /** The custom width box: `parseInt(value) || 0`. */
    method SetCustomWidth(text: string)
      requires Valid()
      modifies this
      ensures View() == old(View()).(customDimensions := old(customDimensions).(width := ParseIntOrZero(text)))
      ensures Valid()
    {
      customDimensions := customDimensions.(width := ParseIntOrZero(text));
    }

    /** The custom height box: `parseInt(value) || 0`. */
    method SetCustomHeight(text: string)
      requires Valid()
      modifies this
      ensures View() == old(View()).(customDimensions := old(customDimensions).(height := ParseIntOrZero(text)))
      ensures Valid()
    {
      customDimensions := customDimensions.(height := ParseIntOrZero(text));
    }

    /** One of the three adjustment sliders. */
    method SetAdjustment(which: Adjustment, value: int)
      requires Valid()
      modifies this
      ensures Valid()
      ensures View() == old(View()).(adjustments := match which
        case Brightness => old(adjustments).(brightness := value)
        case Contrast => old(adjustments).(contrast := value)
        case Saturation => old(adjustments).(saturation := value))
    {
      match which {
        case Brightness => adjustments := adjustments.(brightness := value);
        case Contrast => adjustments := adjustments.(contrast := value);
        case Saturation => adjustments := adjustments.(saturation := value);
      }
    }

    /** The "Rename File" box. */
    method RenameOutput(name: string)
      requires Valid()
      modifies this
      ensures Valid()
      ensures View() == old(View()).(outputFilename := name)
    {
      outputFilename := name;
    }
  }

  /** "Change Photo" pressed while background removal is still running: the removal's
      result still arrives as the processed image, so the editor shows the old photo's
      cut-out although no original image is loaded. */
  method ResetDuringRemoval(file: File, photo: string, cutOut: string) returns (e: Editor)
    requires photo != "" && cutOut != ""
    ensures e.originalImage == None
    ensures ActiveImage(e.processedImage, e.originalImage) == Some(cutOut)
  {
    e := new Editor();
    e.HandleFileAdded([file], Some(photo));
    var started := e.BeginRemoveBackground();
    assert started;
    e.HandleReset();
    e.FinishRemoveBackground(Composited(cutOut));
  }

  /** A new session that loads a file, receives a crop rectangle and downloads: the
      saved file is named after the loaded file, its last extension replaced by
      ".png" (or "passport-photo.png"), at the first standard size. */
  method LoadThenDownload(file: File, photo: string, area: Area) returns (saved: Option<SavedFile>)
    requires photo != ""
    ensures saved.Some?
    ensures var k := LastIndexOf(file.name, '.');
            saved.value.name == (if k <= 0 then DefaultFilename else file.name[..k]) + PngExtension
    ensures saved.value.width == PassportSizes[0].width && saved.value.height == PassportSizes[0].height
  {
    var e := new Editor();
    e.HandleFileAdded([file], Some(photo));
    e.CropComplete(area);
    saved := e.HandleDownload(Rendered);
  }
}
