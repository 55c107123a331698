/**
 * Request validation of the ranking endpoint. Unlike a fail-fast chain, every check runs and
 * contributes its message: at most one job-description error, at most one file-count error, then
 * one error per oversized file, in file order.
 */
module Validation {
  import opened Wrappers
  import opened Text

  const MinJobDescriptionLength: int := 50
  const MaxJobDescriptionLength: int := 50000
  const MaxResumeFiles: int := 10
  const MaxFileBytes: int := 5 * 1024 * 1024

  /** An uploaded file as validation sees it: its name and its `content_length`, which may be absent. */
  datatype FileMeta = FileMeta(filename: string, contentLength: Option<nat>)

  datatype ValidationError =
    | JobDescriptionRequired
    | JobDescriptionTooShort
    | JobDescriptionTooLong
    | NoResumeFiles
    | TooManyResumeFiles
    | FileTooLarge(filename: string)

  /** The message the service reports for each error. */
  function Message(e: ValidationError): (m: string)
    ensures m != []
  {
    match e
    case JobDescriptionRequired => "Job description is required"
    case JobDescriptionTooShort => "Job description must be at least 50 characters"
    case JobDescriptionTooLong => "Job description exceeds maximum length (50,000 characters)"
    case NoResumeFiles => "At least one resume file is required"
    case TooManyResumeFiles => "Maximum 10 resume files allowed"
    case FileTooLarge(name) => "File '" + name + "' exceeds 5MB limit"
  }

  /** `file.content_length and file.content_length > 5 * 1024 * 1024`: a missing or zero length is never flagged. */
  predicate Oversized(f: FileMeta) {
    f.contentLength.Some? && f.contentLength.value != 0 && f.contentLength.value > MaxFileBytes
  }

  /** The if/elif chain on the stripped job description: the first matching condition wins. */
  function JobDescriptionErrors(jd: string): (r: seq<ValidationError>)
    ensures |r| <= 1
    ensures r == [JobDescriptionRequired] <==> jd == []
    ensures r == [JobDescriptionTooShort] <==> 0 < |jd| < MinJobDescriptionLength
    ensures r == [JobDescriptionTooLong] <==> |jd| > MaxJobDescriptionLength
    ensures r == [] <==> MinJobDescriptionLength <= |jd| <= MaxJobDescriptionLength
  {
    if jd == [] then [JobDescriptionRequired]
    else if |jd| < MinJobDescriptionLength then [JobDescriptionTooShort]
    else if |jd| > MaxJobDescriptionLength then [JobDescriptionTooLong]
    else []
  }

  /** The if/elif chain on the number of files. */
  function FileCountErrors(files: seq<FileMeta>): (r: seq<ValidationError>)
    ensures |r| <= 1
    ensures r == [NoResumeFiles] <==> files == []
    ensures r == [TooManyResumeFiles] <==> |files| > MaxResumeFiles
    ensures r == [] <==> 1 <= |files| <= MaxResumeFiles
  {
    if files == [] then [NoResumeFiles]
    else if |files| > MaxResumeFiles then [TooManyResumeFiles]
    else []
  }

  /** The error the size loop adds for one file, if any. */
  function SizeError(f: FileMeta): seq<ValidationError> {
    if Oversized(f) then [FileTooLarge(f.filename)] else []
  }

  /** The errors of the size loop over `files`, in file order (defined from the last file, as the loop grows). */
  function FileSizeErrors(files: seq<FileMeta>): (r: seq<ValidationError>)
    ensures |r| <= |files|
    ensures forall k :: 0 <= k < |r| ==> r[k].FileTooLarge?
    ensures forall k :: 0 <= k < |r| ==> exists j :: 0 <= j < |files| && Oversized(files[j]) && r[k].filename == files[j].filename
  {
    if files == [] then []
    else
      var init := files[..|files| - 1];
      var last := files[|files| - 1];
      assert forall j :: 0 <= j < |init| ==> init[j] == files[j];
      assert SizeError(last) != [] ==> Oversized(last) && SizeError(last)[0].filename == last.filename;
      FileSizeErrors(init) + SizeError(last)
  }

  /** Everything `validate_request` reports, in the order it appends the messages. */
  function RequestErrors(jd: string, files: seq<FileMeta>): (r: seq<ValidationError>)
    ensures |r| <= 2 + |files|
    ensures forall k :: 0 <= k < |r| && !r[k].FileTooLarge? ==> k < 2
  {
    JobDescriptionErrors(jd) + FileCountErrors(files) + FileSizeErrors(files)
  }

  /** The text of the 400 response: the messages joined with "; ". */
  function ErrorText(errors: seq<ValidationError>): (t: string)
    ensures t == [] <==> errors == []
  {
    var messages := seq(|errors|, k requires 0 <= k < |errors| => Message(errors[k]));
    JoinEmptyIff(messages, "; ");
    Join(messages, "; ")
  }

  /**
   * `validate_request`: reads the `job_description` form field (absent reads as ""), strips it,
   * runs the two if/elif chains and then the size loop over every file, even when the count check
   * already failed. Returns the errors, the stripped text and the files.
   */
  method ValidateRequest(jobField: Option<string>, files: seq<FileMeta>)
    returns (errors: seq<ValidationError>, jdText: string, filesOut: seq<FileMeta>)
    ensures jdText == Strip(jobField.GetOr(""))
    ensures filesOut == files
    ensures errors == RequestErrors(jdText, files)
  {
    errors := [];
    jdText := Strip(jobField.GetOr(""));
    if jdText == [] {
      errors := errors + [JobDescriptionRequired];
    } else if |jdText| < MinJobDescriptionLength {
      errors := errors + [JobDescriptionTooShort];
    } else if |jdText| > MaxJobDescriptionLength {
      errors := errors + [JobDescriptionTooLong];
    }
    assert errors == JobDescriptionErrors(jdText);

    if files == [] {
      errors := errors + [NoResumeFiles];
    } else if |files| > MaxResumeFiles {
      errors := errors + [TooManyResumeFiles];
    }

    assert errors == JobDescriptionErrors(jdText) + FileCountErrors(files);
    ghost var before := errors;
    var i := 0;
    while i < |files|
      invariant 0 <= i <= |files|
      invariant errors == before + FileSizeErrors(files[..i])
    {
      var file := files[i];
      SizeErrorsStep(files, i);
      AppendAssociative(before, FileSizeErrors(files[..i]), SizeError(file));
      if file.contentLength.Some? && file.contentLength.value != 0 && file.contentLength.value > MaxFileBytes {
        errors := errors + [FileTooLarge(file.filename)];
      }
      i := i + 1;
    }
    assert files[..i] == files;
    filesOut := files;
  }

  lemma AppendAssociative(a: seq<ValidationError>, b: seq<ValidationError>, c: seq<ValidationError>)
    ensures a + b + c == a + (b + c)
  {
  }

  /** One more turn of the size loop appends the error of the next file, if any. */
  lemma SizeErrorsStep(files: seq<FileMeta>, i: nat)
    requires i < |files|
    ensures FileSizeErrors(files[..i + 1]) == FileSizeErrors(files[..i]) + SizeError(files[i])
  {
    assert files[..i + 1][..i] == files[..i];
  }

  /** The size loop is a homomorphism: the errors of a concatenation are the errors of each part, in order. */
  lemma {:induction false} FileSizeErrorsAppend(a: seq<FileMeta>, b: seq<FileMeta>)
    ensures FileSizeErrors(a + b) == FileSizeErrors(a) + FileSizeErrors(b)
  {
    if b == [] {
      assert a + b == a;
    } else {
      var b' := b[..|b| - 1];
      assert (a + b)[..|a + b| - 1] == a + b';
      assert (a + b)[|a + b| - 1] == b[|b| - 1];
      FileSizeErrorsAppend(a, b');
    }
  }

  /** One file gives one error naming it exactly when it is oversized, and none otherwise. */
  lemma FileSizeErrorsSingle(f: FileMeta)
    ensures FileSizeErrors([f]) == if Oversized(f) then [FileTooLarge(f.filename)] else []
  {
    assert [f][..0] == [];
  }

  /** The size loop reports nothing exactly when no file is oversized. */
  lemma {:induction false} FileSizeErrorsEmptyIff(files: seq<FileMeta>)
    ensures FileSizeErrors(files) == [] <==> forall k :: 0 <= k < |files| ==> !Oversized(files[k])
  {
    if files != [] {
      var init := files[..|files| - 1];
      FileSizeErrorsEmptyIff(init);
      assert forall k :: 0 <= k < |init| ==> init[k] == files[k];
    }
  }

  /** The number of size errors is the number of oversized files. */
  function CountOversized(files: seq<FileMeta>): nat {
    if files == [] then 0 else CountOversized(files[1..]) + (if Oversized(files[0]) then 1 else 0)
  }

  lemma {:induction false} FileSizeErrorsCount(files: seq<FileMeta>)
    ensures |FileSizeErrors(files)| == CountOversized(files)
  {
    if files != [] {
      FileSizeErrorsCount(files[1..]);
      FileSizeErrorsAppend([files[0]], files[1..]);
      FileSizeErrorsSingle(files[0]);
      assert [files[0]] + files[1..] == files;
    }
  }

  /** A request passes validation exactly when the text has 50..50000 characters, there are 1..10 files and none is oversized. */
  lemma RequestValidIff(jd: string, files: seq<FileMeta>)
    ensures RequestErrors(jd, files) == [] <==>
      && MinJobDescriptionLength <= |jd| <= MaxJobDescriptionLength
      && 1 <= |files| <= MaxResumeFiles
      && forall k :: 0 <= k < |files| ==> !Oversized(files[k])
  {
    FileSizeErrorsEmptyIff(files);
  }

  /** Errors accumulate: with more than 10 files, the count error is followed by every size error, none is dropped. */
  lemma TooManyFilesKeepsSizeErrors(jd: string, files: seq<FileMeta>)
    requires |files| > MaxResumeFiles
    ensures RequestErrors(jd, files) == JobDescriptionErrors(jd) + [TooManyResumeFiles] + FileSizeErrors(files)
    ensures |RequestErrors(jd, files)| == |JobDescriptionErrors(jd)| + 1 + CountOversized(files)
  {
    FileSizeErrorsCount(files);
  }
}
