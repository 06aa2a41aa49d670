# Passport-photo editor and file drop zone, modelled in Dafny

This project models the two pieces of logic in the image tools' front end that can be
stated exactly:

- **The passport-photo editor session** (`src/components/passport-photo-editor.tsx`).
  The table of standard output sizes and its lookup by name. The values derived from
  the state: the active image (`processedImage || originalImage`), the output
  dimensions with the "Custom" override, and the output file name taken from the
  loaded file's name. The editor itself is the class `PassportPhotoEditor.Editor`.
  Its fields are the component's state, and its methods are the event handlers:
  loading a file, "Change Photo", background removal, download, the zoom buttons and
  slider, the crop callbacks, the size list, the custom size boxes, the adjustment
  sliders, the colour picker and the rename box. Every handler states the complete
  new state as an update of `View()`, the record of all fields. The invariant
  `Valid()` holds throughout: zoom in [1, 3], the selected size a table entry, and a
  loading message only while loading.
- **The file drop zone** (`src/components/file-dropzone.tsx`). `ValidateBatch` is the
  count check of `validateAndAddFiles`: it forwards the whole batch unchanged or
  refuses all of it. The class `FileDropzone.Dropzone` holds the drag highlight flag
  and the values of the two hidden file inputs. Its handlers keep empty drops and
  empty selections away from the check. `Choose` adds the browser's side of an input, which fires
  the change handler only when the input's value changes; it shows why the handler
  clears the input.

The JavaScript built-ins whose exact behaviour matters are modelled in `JsStrings`:

- `split`, `slice(0, -1)` and `join` give the file-name stem;
- `lastIndexOf` is the independent reference the stem is proved against;
- `parseInt(…) || 0` reads the custom size boxes;
- the decimal text of a number fills the progress message.

Each asynchronous handler is split at its `await`. Removing the background is
`BeginRemoveBackground`, then any number of `ReportRemovalProgress`, then
`FinishRemoveBackground`. Downloading is `BeginDownload`, then `FinishDownload`.
`HandleRemoveBackground` and `HandleDownload` run both halves back to back. Other
handlers may run between the halves, as they can in the browser.

`BeginDownload` returns the values of the click: the image, the crop rectangle, the
name and the size. `FinishDownload` uses those values, as the handler's closure does.

The outside world is a parameter:

- the file reader's result (`Option<string>`, `None` when no load event comes);
- the background remover and canvas together (`RemovalOutcome`: failed, composited,
  or no 2d context);
- the download's cropping and drawing (`DownloadOutcome`).

`PassportPhotoEditor.ResetDuringRemoval` shows one consequence of the split. If
"Change Photo" is pressed while removal is running, the removal's result still
becomes the processed image. The editor then shows the old photo's cut-out although
no original image is loaded.

The drop zone checks only the number of files; it has no size budget.

## Model

| member | source | states |
|---|---|---|
| `JsStrings.Split` | src/components/passport-photo-editor.tsx:123 | `split('.')` yields one part more than there are separators, and no part contains the separator |
| `JsStrings.Join` | src/components/passport-photo-editor.tsx:123 | `join('.')` starts with the first part, and parts without '.' are joined with exactly one '.' fewer than there are parts |
| `JsStrings.DropLast` | src/components/passport-photo-editor.tsx:123 | `slice(0, -1)` keeps every element but the last, in order, and leaves an empty array empty |
| `JsStrings.LastIndexOf` | src/components/passport-photo-editor.tsx:123 | reference for the stem: the greatest position holding the character, with none after it, or -1 when absent |
| `JsStrings.SplitWithoutSeparator` | src/components/passport-photo-editor.tsx:123 | a name without '.' splits into itself alone |
| `JsStrings.SplitAtLastSeparator` | src/components/passport-photo-editor.tsx:123 | splitting at the last '.' gives the parts of the text before it plus the text after it |
| `JsStrings.JoinSplit` | src/components/passport-photo-editor.tsx:123 | `join` undoes `split` with the same separator |
| `JsStrings.TrimStart` | src/components/passport-photo-editor.tsx:331 | `parseInt` skips exactly the leading white space: what remains is a suffix that starts with no white space |
| `JsStrings.DigitPrefix` | src/components/passport-photo-editor.tsx:331 | the digits `parseInt` reads are the longest run of digits at the start |
| `JsStrings.NatToString` | src/components/passport-photo-editor.tsx:150 | a number's decimal text is all digits, with a leading '0' only for zero |
| `JsStrings.DigitsValueOfNatToString` | src/components/passport-photo-editor.tsx:331 | reading a number's decimal digits gives the number back |
| `JsStrings.DigitPrefixStopsAt` | src/components/passport-photo-editor.tsx:331 | the digit run ends at the first character that is not a digit |
| `JsStrings.MagnitudeOfNatToString` | src/components/passport-photo-editor.tsx:331 | digits followed by text that ends a number are read as that number, with no "0x" switch |
| `JsStrings.ParseMagnitude` | src/components/passport-photo-editor.tsx:331 | the unsigned text is NaN exactly when no digit of its radix comes first: a hex digit after "0x"/"0X", a decimal digit otherwise |
| `JsStrings.ParseTrimmed` | src/components/passport-photo-editor.tsx:331 | after the optional sign the text is NaN exactly when its magnitude is; a negative number only follows '-', and '-' never gives a positive one |
| `JsStrings.ParseInt` | src/components/passport-photo-editor.tsx:331 | `parseInt` gives NaN exactly when no digit follows the leading white space and sign |
| `JsStrings.ParseIntOrZero` | src/components/passport-photo-editor.tsx:331 | `parseInt(…) \|\| 0` is 0 exactly when the text reads as NaN or as 0, and otherwise is the number read |
| `JsStrings.TrimStartSkipsWhiteSpace` | src/components/passport-photo-editor.tsx:331 | any run of white space in front of the text is removed by the trim |
| `JsStrings.ParseIntSkipsWhiteSpace` | src/components/passport-photo-editor.tsx:331 | white space in front of a number does not change what `parseInt` reads |
| `JsStrings.ParseIntOfDigits` | src/components/passport-photo-editor.tsx:331 | text starting with a decimal digit is read as its unsigned magnitude, untouched by the trim and the sign step |
| `JsStrings.ParseTrimmedOfMinus` | src/components/passport-photo-editor.tsx:331 | after a leading '-', the rest of the text is read as a magnitude and negated |
| `JsStrings.ParseIntOfMinus` | src/components/passport-photo-editor.tsx:331 | a minus sign before text that reads as a magnitude gives that magnitude negated |
| `JsStrings.ParseIntOfNegative` | src/components/passport-photo-editor.tsx:331 | `parseInt` reads back every negative number's text |
| `JsStrings.ParseIntOfNonNegative` | src/components/passport-photo-editor.tsx:331 | `parseInt` reads back every non-negative number's text |
| `JsStrings.ParseIntOfIntToString` | src/components/passport-photo-editor.tsx:331-335 | a custom width or height box whose value is a whole number, alone or followed by text that ends a number ("-7", "3.5", "1e3"), is stored as that whole number (-7, 3, 1) |
| `JsStrings.NonNumericIsZero` | src/components/passport-photo-editor.tsx:331-335 | a box whose text, after white space and sign, does not start with a digit is stored as 0 |
| `PassportPhotoEditor.FindSize` | src/components/passport-photo-editor.tsx:315 | `find` returns the first entry of the table with the given name (no earlier entry has it), and nothing exactly when no entry has that name |
| `PassportPhotoEditor.FindSizeUnique` | src/components/passport-photo-editor.tsx:315 | when the names are distinct, looking an entry up by its name returns that entry |
| `PassportPhotoEditor.PassportSizesWellFormed` | src/components/passport-photo-editor.tsx:24-35 | the ten standard sizes have distinct names, and the last is "Custom" |
| `PassportPhotoEditor.SelectSizeByName` | src/components/passport-photo-editor.tsx:314-316 | choosing a name from the list selects exactly the entry with that name |
| `PassportPhotoEditor.OutputDimensions` | src/components/passport-photo-editor.tsx:107 | the output keeps the selected name and millimetre label; its width and height are the custom ones for "Custom" and the entry's own otherwise |
| `PassportPhotoEditor.DimensionsOfSelectedSize` | src/components/passport-photo-editor.tsx:107 | after choosing entry i, the output size is the table's size unless i is "Custom", whose size is the typed-in one |
| `PassportPhotoEditor.ActiveImage` | src/components/passport-photo-editor.tsx:106 | there is an active image iff either image is non-empty; the processed image wins when non-empty, else the original is used |
| `PassportPhotoEditor.StemIsTextBeforeLastDot` | src/components/passport-photo-editor.tsx:123 | for every name, splitting at '.', dropping the last part and joining again is proved equal to the text before the last '.' found by `lastIndexOf` |
| `PassportPhotoEditor.StemOf` | src/components/passport-photo-editor.tsx:123 | `split('.').slice(0, -1).join('.')` is the text before the last '.', and empty when there is no '.' |
| `PassportPhotoEditor.OutputFilenameFor` | src/components/passport-photo-editor.tsx:123-124 | the output name is never empty: the text before the last '.', or "passport-photo" when there is no '.' or the last '.' is the first character |
| `PassportPhotoEditor.OutputFilenameExamples` | src/components/passport-photo-editor.tsx:123-124 | "a.b.jpg" gives "a.b", "photo" and ".png" give "passport-photo", "selfie." gives "selfie" |
| `PassportPhotoEditor.LoadThenDownload` | src/components/passport-photo-editor.tsx:114-241 | in a new session, loading any file, receiving a crop rectangle and downloading saves a file named after the loaded file with its last extension replaced by ".png" (or "passport-photo.png"), at the first standard size |
| `PassportPhotoEditor.ProgressMessage` | src/components/passport-photo-editor.tsx:150 | the message is "Processing: ", then the number, then '%' |
| `PassportPhotoEditor.ProgressMessageReadsBack` | src/components/passport-photo-editor.tsx:150 | what follows "Processing: " is read by `parseInt` as exactly the percentage reported (not NaN, so 0 is pinned too), and so is its `\|\| 0` value |
| `PassportPhotoEditor.ZoomOutStep` | src/components/passport-photo-editor.tsx:292 | zooming out never goes below 1, never leaves a zoom above 3, and decreases any zoom above 1 |
| `PassportPhotoEditor.ZoomInStep` | src/components/passport-photo-editor.tsx:294 | zooming in never goes above 3, never leaves a zoom below 1, and increases any zoom below 3 |
| `PassportPhotoEditor.ZoomStepsUndoEachOther` | src/components/passport-photo-editor.tsx:292-294 | away from the bounds, one step out undoes one step in and the reverse |
| `PassportPhotoEditor.ZoomButtonsStayInRange` | src/components/passport-photo-editor.tsx:292-294 | from a zoom in [1, 3], any sequence of button presses stays in [1, 3] |
| `PassportPhotoEditor.Editor.constructor` | src/components/passport-photo-editor.tsx:81-102 | a session starts with no images, no loading, the first standard size, custom 500x500, zoom 1, neutral adjustments, name "passport-photo" and a white background |
| `PassportPhotoEditor.Editor.HandleFileAdded` | src/components/passport-photo-editor.tsx:114-128 | with a file and a load event, only the first file counts: it becomes the original and the active image, the processed image is cleared, zoom is 1, crop is (0, 0), and the name is the file's stem; otherwise nothing changes |
| `PassportPhotoEditor.Editor.PickWithSystemPicker` | src/components/passport-photo-editor.tsx:262-265 | the system picker's first file is loaded as by a drop; an empty pick changes nothing |
| `PassportPhotoEditor.Editor.HandleReset` | src/components/passport-photo-editor.tsx:130-133 | both images are cleared and nothing else; no image is active afterwards |
| `PassportPhotoEditor.Editor.DiscardProcessedImage` | src/components/passport-photo-editor.tsx:375 | the processed image is cleared and the original becomes the active image |
| `PassportPhotoEditor.Editor.BeginRemoveBackground` | src/components/passport-photo-editor.tsx:135-139 | without an original image nothing changes; otherwise loading starts with the model-loading message and nothing else changes |
| `PassportPhotoEditor.Editor.ReportRemovalProgress` | src/components/passport-photo-editor.tsx:148-151 | while loading, the message becomes "Processing: N%" and nothing else changes |
| `PassportPhotoEditor.Editor.FinishRemoveBackground` | src/components/passport-photo-editor.tsx:142-190 | success stores the composited or transparent result as the processed image; failure keeps the previous one; loading ends with an empty message in every case |
| `PassportPhotoEditor.Editor.HandleRemoveBackground` | src/components/passport-photo-editor.tsx:135-191 | a no-op without an original image; otherwise the processed image is the result on success and unchanged on failure, and loading is off with an empty message |
| `PassportPhotoEditor.Editor.SetBackgroundColor` | src/components/passport-photo-editor.tsx:194-198 | a new colour changes only the colour: the processed image is not redone |
| `PassportPhotoEditor.Editor.BeginDownload` | src/components/passport-photo-editor.tsx:201-204 | without an active image or a crop rectangle nothing happens; otherwise downloading starts from the image, rectangle, name and size of that moment |
| `PassportPhotoEditor.Editor.FinishDownload` | src/components/passport-photo-editor.tsx:205-241 | a rendered download saves "name.png" at the output size; a failed one saves nothing; the download flag goes down either way |
| `PassportPhotoEditor.Editor.HandleDownload` | src/components/passport-photo-editor.tsx:201-242 | something is saved iff there is an active image and a crop rectangle and rendering succeeds, as the output name plus ".png" at the output size; the flag ends down |
| `PassportPhotoEditor.Editor.ZoomOut` | src/components/passport-photo-editor.tsx:292 | the zoom-out button applies the zoom-out step and changes nothing else |
| `PassportPhotoEditor.Editor.ZoomIn` | src/components/passport-photo-editor.tsx:294 | the zoom-in button applies the zoom-in step and changes nothing else |
| `PassportPhotoEditor.Editor.SetZoom` | src/components/passport-photo-editor.tsx:293 | the slider sets the zoom to a value in [1, 3] |
| `PassportPhotoEditor.Editor.SetCrop` | src/components/passport-photo-editor.tsx:284 | the cropper's position becomes the crop and nothing else changes |
| `PassportPhotoEditor.Editor.CropComplete` | src/components/passport-photo-editor.tsx:110-112 | the reported pixel rectangle becomes the crop rectangle |
| `PassportPhotoEditor.Editor.SelectSize` | src/components/passport-photo-editor.tsx:314-317 | the size with the chosen name becomes the selected size |
| `PassportPhotoEditor.Editor.SetCustomWidth` | src/components/passport-photo-editor.tsx:331 | the custom width becomes `parseInt(text) || 0`; the height is kept |
| `PassportPhotoEditor.Editor.SetCustomHeight` | src/components/passport-photo-editor.tsx:335 | the custom height becomes `parseInt(text) || 0`; the width is kept |
| `PassportPhotoEditor.Editor.SetAdjustment` | src/components/passport-photo-editor.tsx:346-354 | a slider sets its own adjustment and keeps the other two |
| `PassportPhotoEditor.Editor.RenameOutput` | src/components/passport-photo-editor.tsx:388 | the typed name becomes the output name |
| `PassportPhotoEditor.ResetDuringRemoval` | src/components/passport-photo-editor.tsx:130-191 | for any file, photo and non-empty result, a reset while removal runs leaves no original image, yet the removal's result becomes the active image |
| `FileDropzone.ValidateBatch` | src/components/file-dropzone.tsx:52-62 | a batch is refused as a whole iff a non-zero limit is given and exceeded, naming the limit; otherwise exactly the given files go on, in order |
| `FileDropzone.AtMostLimitIsForwarded` | src/components/file-dropzone.tsx:53 | a batch of exactly the limit, or fewer, is forwarded |
| `FileDropzone.NoLimitForwardsEverything` | src/components/file-dropzone.tsx:53 | with no limit or a limit of 0 every batch is forwarded |
| `FileDropzone.AdmissionByCount` | src/components/file-dropzone.tsx:53 | admission depends on the count only: smaller than forwarded is forwarded, larger than refused is refused |
| `FileDropzone.Dropzone.constructor` | src/components/file-dropzone.tsx:29 | a drop zone starts without highlight and with empty inputs |
| `FileDropzone.Dropzone.DragEnter` | src/components/file-dropzone.tsx:34-38 | drag-enter turns the highlight on |
| `FileDropzone.Dropzone.DragOver` | src/components/file-dropzone.tsx:46-50 | drag-over turns the highlight on |
| `FileDropzone.Dropzone.DragLeave` | src/components/file-dropzone.tsx:40-44 | drag-leave turns the highlight off |
| `FileDropzone.Dropzone.Drop` | src/components/file-dropzone.tsx:64-73 | a drop turns the highlight off; an empty drop reaches neither the check nor the tool, any other goes through the count check |
| `FileDropzone.Dropzone.SelectFiles` | src/components/file-dropzone.tsx:75-82 | an empty selection reaches neither the check nor the tool, any other goes through the count check; the input that fired is cleared |
| `FileDropzone.Dropzone.Choose` | src/components/file-dropzone.tsx:75-82 | choosing files sets the input's value; the handler runs exactly when that value differs from the input's previous value, and then the input ends up cleared |
| `FileDropzone.ChooseSameFilesTwice` | src/components/file-dropzone.tsx:80-81 | because the handler clears the input, choosing the same files twice in a row sends them through the count check both times |

## Left out

- Pixel work: cropping and resampling in `getCroppedImg`, drawing, the CSS filter string, PNG and JPEG encoding, and the canvas sizes. Each external step appears only as a success or failure outcome.
- The background-removal library, `fetch`, blobs, object URLs and `FileReader`. Their results are parameters of the handlers.
- Toast notifications, console logging, the temporary download link and the JSX markup. These are browser presentation with no effect on the modelled state.
- Floating point. The zoom is a real number, so `z - 0.1` and `z + 0.1` are exact here, and `ZoomStepsUndoEachOther` holds exactly only over reals.
- The aspect ratio (line 108) and the rounding of the progress percentage (line 149) are floating-point arithmetic. `ReportRemovalProgress` takes the already rounded percentage.
- How the cropper computes its position, zoom and pixel rectangle. These come in as values through `SetCrop`, `SetZoom` and `CropComplete`.
- `Editor.SetZoom` requires a value in [1, 3]. The slider's own bounds and the cropper's default zoom limits guarantee this; the cropper's clamping itself is not modelled.
- `Editor.ReportRemovalProgress` requires `isLoading`. The remover calls the progress callback only inside the handler's `try`, after loading has started.
- `Editor.SelectSize` requires a name from the table. The list offers only those names, and the source asserts the lookup succeeds.
- `Editor.SetCustomWidth` and `Editor.SetCustomHeight` accept any text. The boxes are number inputs, so the browser delivers only "" or a valid floating-point number; the model does not restrict the text to those.
- `JsStrings.ParseIntOrZero` uses exact integers. It does not model the precision loss of numbers above 2^53, or the distinction between -0 and 0 (both become 0 after `|| 0`).
- `FileDropzone.ValidateBatch` takes the limit as an integer. A fractional or NaN `maxFiles` is not modelled.
- `FileDropzone.Dropzone.Choose` reduces the browser's rule for the change event to a comparison of the input's value before and after the choice; the browser compares the selected file list. A file's size, type and bytes are not modelled, only its name.
- `preventDefault` and `stopPropagation` in the drag handlers are not modelled. `handleClick` and `handleFolderClick` open the browser's pickers, which is DOM behaviour outside the model.
- The "Max file size 10MB" tip is display text. The code checks no size, so the model has no size budget.
- `src/components/layout/header.tsx` renders navigation only. `src/app/actions.ts` wraps an AI flow whose code is not part of this model. The tool pages under `src/app/(tools)/` are not part of this model either.
