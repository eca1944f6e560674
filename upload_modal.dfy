/**
 * The upload dialog of the front end: a title field, a file field and a submit
 * button. Choosing a file checks its MIME type and may fill in the title from
 * the file name; submitting checks the file and the title, then posts both to
 * the backend and, when that succeeds, tells the parent and closes.
 */
module UploadModal {
  import opened Wrappers
  import opened Text

  /** A browser `File` as far as the dialog looks at it. */
  datatype SelectedFile = SelectedFile(name: string, mimeType: string)

  /**
   * What the dialog does outside its own state: the multipart `POST /upload/`
   * with the title and the file, the parent's optional `onUploadSuccess`, and
   * the parent's `onClose`.
   */
  datatype Effect = Posted(title: string, file: SelectedFile) | UploadSucceeded | Closed

  const PdfType: string := "application/pdf"

  const SelectPdf: string := "Please select a PDF file"

  const EnterTitle: string := "Please enter a title for the PDF"

  const UploadFailed: string := "Failed to upload the PDF. Please try again."

  /**
   * The title proposed for a file: the name before its last `.`, or the whole
   * name when that part is empty. It is always a prefix of the name, and empty
   * only for an empty name.
   */
  function DeriveTitle(name: string): (t: string)
    ensures t <= name
    ensures t == "" ==> name == ""
  {
    var base := Substring(name, 0, LastIndexOf(name, '.'));
    if base != "" then base else name
  }

  /** A name without a `.` is its own title. */
  lemma DeriveTitleNoDot(name: string)
    requires '.' !in name
    ensures DeriveTitle(name) == name
  {
    assert LastIndexOf(name, '.') == -1;
  }

  /** A name whose only `.` is its first character, such as `.pdf`, is its own title. */
  lemma DeriveTitleLeadingDot(ext: string)
    requires '.' !in ext
    ensures DeriveTitle("." + ext) == "." + ext
  {
    var name := "." + ext;
    assert name[0] == '.';
    assert forall k :: 0 < k < |name| ==> name[k] == ext[k - 1] && name[k] != '.';
    assert LastIndexOf(name, '.') == 0;
  }

  /** Otherwise the extension after the last `.` is dropped, whatever dots come before it. */
  lemma DeriveTitleDropsExtension(base: string, ext: string)
    requires base != "" && '.' !in ext
    ensures DeriveTitle(base + "." + ext) == base
  {
    var name := base + "." + ext;
    var k := |base|;
    assert name[k] == '.';
    assert forall j :: k < j < |name| ==> name[j] == ext[j - k - 1] && name[j] != '.';
    assert LastIndexOf(name, '.') == k;
    assert name[0..k] == base;
  }

  class UploadForm {
    /** Whether the parent passed the optional `onUploadSuccess` callback. */
    const hasSuccessHandler: bool
    var title: string
    var file: Option<SelectedFile>
    var uploading: bool
    var error: string
    /** Every call made outside the dialog, oldest first. */
    var effects: seq<Effect>

    /** Between two handlers the dialog is not uploading, and any file it holds is a PDF. */
    ghost predicate Valid()
      reads this
    {
      !uploading && (file.Some? ==> file.value.mimeType == PdfType)
    }

    constructor (hasSuccessHandler: bool)
      ensures Valid() && this.hasSuccessHandler == hasSuccessHandler
      ensures title == "" && file == None && !uploading && error == "" && effects == []
    {
      this.hasSuccessHandler := hasSuccessHandler;
      title := "";
      file := None;
      uploading := false;
      error := "";
      effects := [];
    }

    /** `isDisabled`: between handlers the upload button is disabled exactly when no file is chosen. */
    function IsDisabled(): (disabled: bool)
      reads this
      ensures Valid() ==> (disabled <==> file.None?)
    {
      uploading || file.None?
    }

    /** Typing in the title field replaces the title and nothing else. */
    method EditTitle(value: string)
      requires Valid()
      modifies this
      ensures Valid()
      ensures title == value
      ensures file == old(file) && uploading == old(uploading) && error == old(error)
        && effects == old(effects)
    {
      title := value;
    }

    /**
     * `handleFileChange`. An empty selection changes nothing. A file that is
     * not a PDF sets the error, drops the chosen file and leaves the title as
     * it was. A PDF is kept and clears the error; it fills in the title from
     * its name only when the title is the empty string, so a title that holds
     * anything, even only spaces, stays.
     */
    method HandleFileChange(files: seq<SelectedFile>)
      requires Valid()
      modifies this
      ensures Valid()
      ensures uploading == old(uploading) && effects == old(effects)
      ensures files == [] ==> title == old(title) && file == old(file) && error == old(error)
      ensures files != [] && files[0].mimeType != PdfType ==>
        error == SelectPdf && file == None && title == old(title) && IsDisabled()
      ensures files != [] && files[0].mimeType == PdfType ==>
        file == Some(files[0]) && error == "" && !IsDisabled()
        && title == (if old(title) == "" then DeriveTitle(files[0].name) else old(title))
    {
      if |files| > 0 {
        var selected := files[0];
        if selected.mimeType != PdfType {
          error := SelectPdf;
          file := None;
          return;
        }
        if title == "" {
          title := DeriveTitle(selected.name);
        }
        file := Some(selected);
        error := "";
      }
    }

    /**
     * `handleSubmit`. Without a file: the file error, nothing posted; this is
     * checked first. With a title that trims to nothing: the title error,
     * nothing posted. Otherwise the error is cleared and the title, untrimmed,
     * is posted with the file. If the post succeeds the parent is told (when
     * it asked to be) and the dialog closes; if not, the upload error is set.
     * The dialog is not uploading afterwards, whatever happened.
     */
    method HandleSubmit(postSucceeds: bool)
      requires Valid()
      modifies this
      ensures Valid()
      ensures title == old(title) && file == old(file)
      ensures old(file).None? ==> error == SelectPdf && effects == old(effects)
      ensures old(file).Some? && JsTrim(old(title)) == "" ==>
        error == EnterTitle && effects == old(effects)
      ensures old(file).Some? && JsTrim(old(title)) != "" ==>
        effects == old(effects) + [Posted(old(title), old(file).value)]
                   + (if !postSucceeds then []
                      else if hasSuccessHandler then [UploadSucceeded, Closed]
                      else [Closed])
        && error == (if postSucceeds then "" else UploadFailed)
    {
      if file.None? {
        error := SelectPdf;
        return;
      }
      if JsTrim(title) == "" {
        error := EnterTitle;
        return;
      }
      uploading := true;
      error := "";
      effects := effects + [Posted(title, file.value)];
      if postSucceeds {
        if hasSuccessHandler {
          effects := effects + [UploadSucceeded];
        }
        effects := effects + [Closed];
      } else {
        error := UploadFailed;
      }
      uploading := false;
    }
  }
}
