/** The file drop zone: the count check a batch of files passes before it reaches the
    tool (`validateAndAddFiles`), the guards that keep empty drops and selections
    away from it, the drag highlight flag, and the reset of the file inputs. */
module FileDropzone {
  import opened Common

  /** What the count check does with a batch: hand it to the tool, or refuse all of
      it with the "Too many files" notice naming the limit. */
  datatype Admission = Forwarded(batch: seq<File>) | TooManyFiles(limit: int)

  /** `maxFiles && …`: the limit applies only when `maxFiles` is given and is not 0. */
  predicate HasLimit(maxFiles: Option<int>)
  {
    maxFiles.Some? && maxFiles.value != 0
  }

  /** `validateAndAddFiles`: a batch over the limit is refused as a whole; any other
      batch is forwarded exactly as it came, same files in the same order. */
  function ValidateBatch(maxFiles: Option<int>, files: seq<File>): (r: Admission)
    ensures r.Forwarded? ==> r.batch == files
    ensures r.TooManyFiles? <==> HasLimit(maxFiles) && |files| > maxFiles.value
    ensures r.TooManyFiles? ==> r.limit == maxFiles.value
  {
    if HasLimit(maxFiles) && |files| > maxFiles.value then TooManyFiles(maxFiles.value)
    else Forwarded(files)
  }

  /** A batch of exactly the limit, or fewer files, is forwarded. */
  lemma AtMostLimitIsForwarded(limit: int, files: seq<File>)
    requires |files| <= limit
    ensures ValidateBatch(Some(limit), files) == Forwarded(files)
  {
  }

  /** Without a limit, or with a limit of 0, every batch is forwarded. This is the case
      of the passport-photo editor, whose drop zone is given no limit. */
  lemma NoLimitForwardsEverything(maxFiles: Option<int>, files: seq<File>)
    requires !HasLimit(maxFiles)
    ensures ValidateBatch(maxFiles, files) == Forwarded(files)
  {
  }

  /** Forwarding depends only on the number of files: a batch no larger than a
      forwarded one is forwarded too, and one no smaller than a refused one is refused. */
  lemma AdmissionByCount(maxFiles: Option<int>, small: seq<File>, large: seq<File>)
    requires |small| <= |large|
    ensures ValidateBatch(maxFiles, large).Forwarded? ==> ValidateBatch(maxFiles, small).Forwarded?
    ensures ValidateBatch(maxFiles, small).TooManyFiles? ==> ValidateBatch(maxFiles, large).TooManyFiles?
  {
  }

  /** The two hidden file inputs: single files, and whole folders. */
  datatype Picker = FilePicker | FolderPicker

  class Dropzone {
    const maxFiles: Option<int>
    var isDragging: bool
    var fileInputValue: string
    var folderInputValue: string

    constructor (maxFiles: Option<int>)
      ensures this.maxFiles == maxFiles
      ensures !isDragging && fileInputValue == "" && folderInputValue == ""
    {
      this.maxFiles := maxFiles;
      isDragging := false;
      fileInputValue, folderInputValue := "", "";
    }

    /** `handleDragEnter` */
    method DragEnter()
      modifies this
      ensures isDragging
      ensures fileInputValue == old(fileInputValue) && folderInputValue == old(folderInputValue)
    {
      isDragging := true;
    }

    /** `handleDragOver` */
    method DragOver()
      modifies this
      ensures isDragging
      ensures fileInputValue == old(fileInputValue) && folderInputValue == old(folderInputValue)
    {
      isDragging := true;
    }

    /** `handleDragLeave` */
    method DragLeave()
      modifies this
      ensures !isDragging
      ensures fileInputValue == old(fileInputValue) && folderInputValue == old(folderInputValue)
    {
      isDragging := false;
    }

    /** `handleDrop`: the highlight goes off; a drop with files goes through the count
        check, an empty one reaches neither the check nor the tool. */
    method Drop(dropped: seq<File>) returns (admission: Option<Admission>)
      modifies this
      ensures !isDragging
      ensures fileInputValue == old(fileInputValue) && folderInputValue == old(folderInputValue)
      ensures admission.None? <==> |dropped| == 0
      ensures admission.Some? ==> admission.value == ValidateBatch(maxFiles, dropped)
    {
      isDragging := false;
      if |dropped| > 0 {
        admission := Some(ValidateBatch(maxFiles, dropped));
      } else {
        admission := None;
      }
    }

    /** The value the given input holds. */
    function InputValue(picker: Picker): string
      reads this
    {
      match picker
      case FilePicker => fileInputValue
      case FolderPicker => folderInputValue
    }

    /** `handleFileSelect` on either input: a selection with files goes through the
        count check, an empty one reaches neither the check nor the tool; the input
        that fired is cleared, so choosing the same file again fires once more. */
    method SelectFiles(picker: Picker, selected: seq<File>) returns (admission: Option<Admission>)
      modifies this
      ensures isDragging == old(isDragging)
      ensures picker == FilePicker ==> fileInputValue == "" && folderInputValue == old(folderInputValue)
      ensures picker == FolderPicker ==> folderInputValue == "" && fileInputValue == old(fileInputValue)
      ensures admission.None? <==> |selected| == 0
      ensures admission.Some? ==> admission.value == ValidateBatch(maxFiles, selected)
    {
      if |selected| > 0 {
        admission := Some(ValidateBatch(maxFiles, selected));
      } else {
        admission := None;
      }
      match picker {
        case FilePicker => fileInputValue := "";
        case FolderPicker => folderInputValue := "";
      }
    }

    /** The browser's side of a file input: choosing files sets the input's value to
        `value` (the chosen path), and the change event, and with it
        `handleFileSelect`, fires only when that value differs from the one the input
        held. */
    method Choose(picker: Picker, selected: seq<File>, value: string) returns (fired: bool, admission: Option<Admission>)
      modifies this
      ensures fired <==> value != old(InputValue(picker))
      ensures isDragging == old(isDragging)
      ensures fired ==> InputValue(picker) == "" && admission == (if |selected| == 0 then None else Some(ValidateBatch(maxFiles, selected)))
      ensures !fired ==> InputValue(picker) == old(InputValue(picker)) && admission.None?
      ensures picker == FilePicker ==> folderInputValue == old(folderInputValue)
      ensures picker == FolderPicker ==> fileInputValue == old(fileInputValue)
    {
      fired := value != InputValue(picker);
      if fired {
        match picker {
          case FilePicker => fileInputValue := value;
          case FolderPicker => folderInputValue := value;
        }
        admission := SelectFiles(picker, selected);
      } else {
        admission := None;
      }
    }
  }

  /** Choosing the same files twice in a row, through the same input: because the
      handler clears the input, the second choice fires the handler again and the
      files go through the count check both times. */
  method ChooseSameFilesTwice(maxFiles: Option<int>, picker: Picker, selected: seq<File>, value: string)
    returns (first: Option<Admission>, second: Option<Admission>)
    requires value != "" && |selected| > 0
    ensures first == Some(ValidateBatch(maxFiles, selected))
    ensures second == first
  {
    var zone := new Dropzone(maxFiles);
    var fired1, fired2;
    fired1, first := zone.Choose(picker, selected, value);
    fired2, second := zone.Choose(picker, selected, value);
  }
}
