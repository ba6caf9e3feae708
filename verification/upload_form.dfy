/**
 The client-side check of the upload form (`frontend/src/components/FileUpload.jsx`,
 `handleFileChange`): the extension and size tests run before a file is
 sent, and the state the form moves to. The request itself and what the
 form does with its answer are not modelled.
 */
module UploadForm {
  import opened Wrappers
  import opened Text
  import FileUpload

  const ValidTypes: seq<string> := [".pdf", ".docx", ".txt"]
  /** `10 * 1024 * 1024` bytes. */
  const MaxSize: int := 10 * 1024 * 1024
  const TypeError: string := "Please upload a PDF, DOCX, or TXT file"
  const SizeError: string := "File too large. Maximum size is 10MB"

  /** The selected file: its name and its size in bytes. */
  datatype SelectedFile = SelectedFile(name: string, size: int)

  /** The component state `handleFileChange` touches. */
  datatype FormState = FormState(uploading: bool, message: Option<string>, error: Option<string>)

  /** `s.lastIndexOf(c)`: the last position of `c`, or -1. */
  function LastIndexOf(s: string, c: char): (k: int)
    ensures -1 <= k < |s|
    ensures k >= 0 ==> s[k] == c
    ensures forall i :: k < i < |s| ==> s[i] != c
  {
    if |s| == 0 then -1
    else if s[|s| - 1] == c then |s| - 1
    else LastIndexOf(s[..|s| - 1], c)
  }

  /** `s.substring(start)`: a negative start counts as 0, one past the end as the end. */
  function Substring(s: string, start: int): (r: string)
    ensures start <= 0 ==> r == s
    ensures 0 <= start <= |s| ==> r == s[start..]
  {
    if start <= 0 then s else if start >= |s| then "" else s[start..]
  }

  /** `file.name.toLowerCase().substring(file.name.lastIndexOf('.'))`. */
  function Extension(name: string): string {
    Substring(Lower(name), LastIndexOf(name, '.'))
  }

  /** `validTypes.includes(fileExt)`. */
  predicate TypeAccepted(name: string) {
    Extension(name) in ValidTypes
  }

  /** `file.size > 10 * 1024 * 1024`. */
  predicate TooLarge(size: int) {
    size > MaxSize
  }

  /**
    `handleFileChange`: the new state, and whether the upload request is
    sent. Without a file nothing changes; a rejected file only sets the
    error; an accepted one starts uploading with error and message cleared.
   */
  function HandleFileChange(state: FormState, file: Option<SelectedFile>): (r: (FormState, bool))
    ensures file.None? ==> r == (state, false)
    ensures r.1 <==> file.Some? && TypeAccepted(file.value.name) && !TooLarge(file.value.size)
    ensures r.1 ==> r.0 == FormState(true, None, None)
    ensures !r.1 && file.Some? ==> r.0.uploading == state.uploading && r.0.message == state.message
  {
    match file
    case None => (state, false)
    case Some(f) =>
      if !TypeAccepted(f.name) then (state.(error := Some(TypeError)), false)
      else if TooLarge(f.size) then (state.(error := Some(SizeError)), false)
      else (FormState(true, None, None), true)
  }

  /** A file of an unsupported type gets the type error, whatever its size. */
  lemma TypeCheckedFirst(state: FormState, name: string, size: int)
    requires !TypeAccepted(name)
    ensures HandleFileChange(state, Some(SelectedFile(name, size))).0.error == Some(TypeError)
  {
  }

  /** A supported file of exactly 10 MiB is accepted; one byte more is rejected with the size error. */
  lemma SizeLimitIsInclusive(state: FormState, name: string)
    requires TypeAccepted(name)
    ensures HandleFileChange(state, Some(SelectedFile(name, 10485760))).1
    ensures HandleFileChange(state, Some(SelectedFile(name, 10485761))).0.error == Some(SizeError)
  {
  }

  /** A name without a dot yields the whole lower-cased name as its "extension", and is rejected. */
  lemma NoDotRejected(name: string)
    requires forall i :: 0 <= i < |name| ==> name[i] != '.'
    ensures Extension(name) == Lower(name)
    ensures !TypeAccepted(name)
  {
    var e := Lower(name);
    assert |e| > 0 ==> e[0] == LowerChar(name[0]) && e[0] != '.';
    assert forall v :: v in ValidTypes ==> |v| > 0 && v[0] == '.';
  }

  /** The text after the last dot, with the dot, is the lower-cased name's suffix of that length. */
  lemma ExtensionIsSuffix(name: string)
    requires LastIndexOf(name, '.') >= 0
    ensures EndsWith(Lower(name), Extension(name))
  {
    var k := LastIndexOf(name, '.');
    assert Lower(name)[|Lower(name)| - |Extension(name)|..] == Lower(name)[k..];
  }

  /**
    A lower-cased name ending in a dot followed by dot-free text has that
    ending as its extension: the last dot is the one that starts it.
   */
  lemma ExtensionOfSuffix(name: string, suffix: string)
    requires EndsWith(Lower(name), suffix)
    requires |suffix| > 0 && suffix[0] == '.'
    requires forall i :: 0 < i < |suffix| ==> suffix[i] != '.'
    ensures Extension(name) == suffix
  {
    var lower := Lower(name);
    var start := |name| - |suffix|;
    assert lower[start] == suffix[0];
    assert name[start] == '.';
    forall i | start < i < |name| ensures name[i] != '.' {
      assert lower[i] == lower[start..][i - start];
    }
    var k := LastIndexOf(name, '.');
    assert k == start;
  }

  /** A name whose lower-cased form ends in one of the server's suffixes passes the form's type check. */
  lemma SuffixAccepted(name: string, t: FileUpload.FileType)
    requires EndsWith(Lower(name), t.Suffix())
    ensures TypeAccepted(name)
  {
    ExtensionOfSuffix(name, t.Suffix());
    assert Extension(name) == ValidTypes[if t.Pdf? then 0 else if t.Docx? then 1 else 2];
  }

  /** Whatever name the server dispatches to a reader passes the form's type check. */
  lemma ServerAcceptedPassesForm(name: string)
    requires FileUpload.DetectType(name).Some?
    ensures TypeAccepted(name)
  {
    SuffixAccepted(name, FileUpload.DetectType(name).value);
  }

  /**
    The form and the server agree on what they accept: the type check of the
    form passes exactly for the names `process_file` dispatches to a reader.
   */
  lemma FormAgreesWithServer(name: string)
    ensures TypeAccepted(name) <==> FileUpload.DetectType(name).Some?
  {
    if FileUpload.DetectType(name).Some? {
      ServerAcceptedPassesForm(name);
    }
    if TypeAccepted(name) {
      if LastIndexOf(name, '.') < 0 {
        NoDotRejected(name);
      }
      ExtensionIsSuffix(name);
      var t: FileUpload.FileType :=
        if Extension(name) == ".pdf" then FileUpload.Pdf
        else if Extension(name) == ".docx" then FileUpload.Docx
        else FileUpload.Txt;
      assert t.Suffix() == Extension(name);
      FileUpload.DetectTypeIff(name, t);
    }
  }
}
