/** The file-upload hook (`hooks/use-file-upload.ts`): validates a chosen or
    dropped file against an accepted-type list and a size limit, keeps the
    accepted file with its preview URL, and reports the outcome through the
    caller's callbacks. The preview URL, which the browser creates from the
    file, is a parameter; the callbacks are recorded as a list of events. */
module FileUpload {
  import opened Types
  import opened DateUtils

  /** A browser `File`: its name, MIME type and size in bytes. */
  datatype File = File(name: string, mimeType: string, size: nat)

  /** The hook's options; `None` leaves a default in place. */
  datatype UploadOptions = UploadOptions(maxSizeInMB: Option<nat>, acceptedFileTypes: Option<seq<string>>)

  const DefaultMaxSizeInMB: nat := 5

  function DefaultAcceptedFileTypes(): seq<string>
  {
    ["image/jpeg", "image/png", "image/gif", "application/pdf"]
  }

  /** `maxSizeInMB * 1024 * 1024`. */
  function MaxSizeInBytes(maxSizeInMB: nat): nat
  {
    maxSizeInMB * 1024 * 1024
  }

  // ---- messages ----

  /** A number as JavaScript writes it in a template: decimal digits, no
      leading zeros. */
  function Decimal(n: nat): (s: string)
    ensures s != [] && AllDigits(s)
    ensures |s| > 1 ==> s[0] != '0'
  {
    if n < 10 then [DigitChar(n)] else Decimal(n / 10) + [DigitChar(n % 10)]
  }

  /** Reading the digits back gives the number. */
  lemma {:induction false} ParseDecimal(n: nat)
    ensures ParseDigits(Decimal(n)) == n
  {
    if n >= 10 {
      ParseDecimal(n / 10);
      var s := Decimal(n);
      assert s[..|s| - 1] == Decimal(n / 10);
    }
  }

  /** `parts.join(sep)`: the empty string for no parts. */
  function JoinWith(parts: seq<string>, sep: string): (s: string)
    ensures |parts| == 1 ==> s == parts[0]
    decreases |parts|
  {
    if parts == [] then ""
    else if |parts| == 1 then parts[0]
    else parts[0] + sep + JoinWith(parts[1..], sep)
  }

  function TypeMessage(acceptedFileTypes: seq<string>): string
  {
    "File type not supported. Please upload " + JoinWith(acceptedFileTypes, ", ")
  }

  function SizeMessage(maxSizeInMB: nat): string
  {
    "File size exceeds " + Decimal(maxSizeInMB) + "MB limit"
  }

  /** The two rejections can be told apart by their messages, and the size
      message names the limit it was given. */
  lemma MessagesDistinguish(acceptedFileTypes: seq<string>, maxSizeInMB: nat, otherMB: nat)
    ensures TypeMessage(acceptedFileTypes) != SizeMessage(maxSizeInMB)
    ensures SizeMessage(maxSizeInMB) == SizeMessage(otherMB) ==> maxSizeInMB == otherMB
  {
    assert TypeMessage(acceptedFileTypes)[5] == 't';
    assert SizeMessage(maxSizeInMB)[5] == 's';
    var prefix := "File size exceeds ";
    var suffix := "MB limit";
    if SizeMessage(maxSizeInMB) == SizeMessage(otherMB) {
      var a, b := SizeMessage(maxSizeInMB), SizeMessage(otherMB);
      assert |Decimal(maxSizeInMB)| == |Decimal(otherMB)|;
      assert Decimal(maxSizeInMB) == a[|prefix|..|a| - |suffix|];
      assert Decimal(otherMB) == b[|prefix|..|b| - |suffix|];
      ParseDecimal(maxSizeInMB);
      ParseDecimal(otherMB);
    }
  }

  // ---- validation ----

  /** `validateFile`: the type is checked first, then the size; `None` means
      the file is accepted. */
  function ValidateFile(file: File, acceptedFileTypes: seq<string>, maxSizeInMB: nat): (r: Option<string>)
    ensures r.None? <==> file.mimeType in acceptedFileTypes && file.size <= MaxSizeInBytes(maxSizeInMB)
    ensures file.mimeType !in acceptedFileTypes ==> r == Some(TypeMessage(acceptedFileTypes))
    ensures file.mimeType in acceptedFileTypes && file.size > MaxSizeInBytes(maxSizeInMB) ==>
      r == Some(SizeMessage(maxSizeInMB))
  {
    if file.mimeType !in acceptedFileTypes then Some(TypeMessage(acceptedFileTypes))
    else if file.size > MaxSizeInBytes(maxSizeInMB) then Some(SizeMessage(maxSizeInMB))
    else None
  }

  /** A file accepted under some options is accepted under any options that
      allow more types and a larger size. */
  lemma ValidateMonotone(file: File, types: seq<string>, maxMB: nat, moreTypes: seq<string>, moreMB: nat)
    requires forall t :: t in types ==> t in moreTypes
    requires maxMB <= moreMB
    requires ValidateFile(file, types, maxMB).None?
    ensures ValidateFile(file, moreTypes, moreMB).None?
  {
    assert MaxSizeInBytes(maxMB) <= MaxSizeInBytes(moreMB);
  }

  /** With the defaults, JPEG, PNG, GIF and PDF files of at most 5 MiB
      (5242880 bytes) pass and nothing else does. */
  lemma DefaultsAccept(file: File)
    ensures ValidateFile(file, DefaultAcceptedFileTypes(), DefaultMaxSizeInMB).None? <==>
      (file.mimeType == "image/jpeg" || file.mimeType == "image/png"
       || file.mimeType == "image/gif" || file.mimeType == "application/pdf")
      && file.size <= 5242880
  {
  }

  // ---- the hook's state ----

  datatype UploadState = UploadState(file: Option<File>, preview: Option<string>, error: Option<string>, isLoading: bool)

  /** Nothing chosen, no error, not loading. */
  function InitialState(): UploadState
  {
    UploadState(None, None, None, false)
  }

  /** The callbacks the hook calls, in order. */
  datatype UploadEvent = UploadStart | UploadError(message: string) | UploadSuccess(file: File, preview: string)

  datatype Outcome = Outcome(state: UploadState, events: seq<UploadEvent>)

  /** `handleFile`: a rejected file leaves the held file and preview as they
      were and shows the message; an accepted one replaces everything. */
  function HandleFileOutcome(s: UploadState, file: File, previewUrl: string,
                             acceptedFileTypes: seq<string>, maxSizeInMB: nat): (o: Outcome)
    ensures !o.state.isLoading && |o.events| == 2 && o.events[0] == UploadStart
  {
    match ValidateFile(file, acceptedFileTypes, maxSizeInMB)
    case Some(message) =>
      Outcome(s.(error := Some(message), isLoading := false), [UploadStart, UploadError(message)])
    case None =>
      Outcome(UploadState(Some(file), Some(previewUrl), None, false), [UploadStart, UploadSuccess(file, previewUrl)])
  }

  /** What the states the hook shows between events have in common: a file
      and its preview come together, a held file passed validation, and an
      error is one of the two validation messages. */
  predicate Consistent(s: UploadState, acceptedFileTypes: seq<string>, maxSizeInMB: nat)
  {
    !s.isLoading
    && (s.file.Some? <==> s.preview.Some?)
    && (s.file.Some? ==> ValidateFile(s.file.value, acceptedFileTypes, maxSizeInMB).None?)
    && (s.error.Some? ==> s.error.value == TypeMessage(acceptedFileTypes) || s.error.value == SizeMessage(maxSizeInMB))
  }

  lemma InitialConsistent(acceptedFileTypes: seq<string>, maxSizeInMB: nat)
    ensures Consistent(InitialState(), acceptedFileTypes, maxSizeInMB)
  {
  }

  /** Handling a file keeps the state consistent, and the outcome is exactly
      one of: rejected with the validation message and the held file kept,
      or accepted and held with its preview and no error. */
  lemma HandleFileSpec(s: UploadState, file: File, previewUrl: string, acceptedFileTypes: seq<string>, maxSizeInMB: nat)
    requires Consistent(s, acceptedFileTypes, maxSizeInMB)
    ensures var o := HandleFileOutcome(s, file, previewUrl, acceptedFileTypes, maxSizeInMB);
      Consistent(o.state, acceptedFileTypes, maxSizeInMB)
      && (ValidateFile(file, acceptedFileTypes, maxSizeInMB).Some? ==>
            o.state.file == s.file && o.state.preview == s.preview
            && o.state.error == ValidateFile(file, acceptedFileTypes, maxSizeInMB)
            && o.events[1] == UploadError(o.state.error.value))
      && (ValidateFile(file, acceptedFileTypes, maxSizeInMB).None? ==>
            o.state == UploadState(Some(file), Some(previewUrl), None, false)
            && o.events[1] == UploadSuccess(file, previewUrl))
  {
  }

  /** The hook's state, held in place as React holds it between renders. */
  class FileUploader {
    var file: Option<File>
    var preview: Option<string>
    var error: Option<string>
    var isLoading: bool
    const maxSizeInMB: nat
    const acceptedFileTypes: seq<string>

    function State(): UploadState
      reads this
    {
      UploadState(file, preview, error, isLoading)
    }

    ghost predicate Valid()
      reads this
    {
      Consistent(State(), acceptedFileTypes, maxSizeInMB)
    }

    /** `useFileUpload(options)`: missing options take their defaults. */
    constructor(options: UploadOptions)
      ensures maxSizeInMB == options.maxSizeInMB.GetOr(DefaultMaxSizeInMB)
      ensures acceptedFileTypes == options.acceptedFileTypes.GetOr(DefaultAcceptedFileTypes())
      ensures State() == InitialState() && Valid()
    {
      maxSizeInMB := options.maxSizeInMB.GetOr(DefaultMaxSizeInMB);
      acceptedFileTypes := options.acceptedFileTypes.GetOr(DefaultAcceptedFileTypes());
      file, preview, error, isLoading := None, None, None, false;
    }

    /** `handleFile(file)`, with `previewUrl` the URL the browser creates for it. */
    method HandleFile(f: File, previewUrl: string) returns (events: seq<UploadEvent>)
      requires Valid()
      modifies this
      ensures Outcome(State(), events) == HandleFileOutcome(old(State()), f, previewUrl, acceptedFileTypes, maxSizeInMB)
      ensures Valid()
    {
      HandleFileSpec(State(), f, previewUrl, acceptedFileTypes, maxSizeInMB);
      isLoading, error := true, None;
      events := [UploadStart];
      var validationError := ValidateFile(f, acceptedFileTypes, maxSizeInMB);
      if validationError.Some? {
        error, isLoading := validationError, false;
        events := events + [UploadError(validationError.value)];
        return;
      }
      file, preview, error, isLoading := Some(f), Some(previewUrl), None, false;
      events := events + [UploadSuccess(f, previewUrl)];
    }

    /** `handleFileChange` and `handleDrop`: an absent or empty file list
        changes nothing; otherwise the first file is handled. */
    method HandleFiles(files: Option<seq<File>>, previewUrl: string) returns (events: seq<UploadEvent>)
      requires Valid()
      modifies this
      ensures files.None? || files.value == [] ==> State() == old(State()) && events == []
      ensures files.Some? && files.value != [] ==>
        Outcome(State(), events) == HandleFileOutcome(old(State()), files.value[0], previewUrl, acceptedFileTypes, maxSizeInMB)
      ensures Valid()
    {
      if files.None? || |files.value| == 0 {
        return [];
      }
      events := HandleFile(files.value[0], previewUrl);
    }

    /** `reset`: back to the initial state (the browser's release of the old
        preview URL is not modelled). */
    method Reset()
      modifies this
      ensures State() == InitialState() && Valid()
    {
      file, preview, error, isLoading := None, None, None, false;
    }
  }
}
