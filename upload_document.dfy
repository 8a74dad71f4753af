/** The upload form: the ordered pre-flight validation, the derivation of the
    envelope title and file extension, the check of the upload response, and
    the form's loading state. The host's toasts, browser and file system and
    the vendor client are recorded as effects in the order the form asks for
    them; their own behaviour is not modelled. */
module UploadDocument {
  import opened Wrappers
  import opened Strings
  import opened Types
  import Subnoto

  const AcceptedExtensions: set<string> := {"pdf", "doc", "docx", "odt", "rtf"}
  const NoEnvelopeId: string := "Failed to upload document. No envelope ID returned."
  const NoWorkspaceReturned: string := "No workspace UUID returned."
  const UnknownError: string := "An unknown error occurred"

  /** The submitted form; `file` is `None` when the picker gave no array. */
  datatype FormValues = FormValues(file: Option<seq<string>>, title: string, workspace: string)

  predicate HasFile(values: FormValues)
  {
    values.file.Some? && values.file.value != []
  }

  /** `path.basename`, taken as the text after the last `/`. */
  function Basename(path: string): (r: string)
    ensures '/' !in r
    ensures |r| <= |path| && r == path[|path| - |r|..]
    ensures |r| == |path| || path[|path| - |r| - 1] == '/'
  {
    AfterLast(path, '/')
  }

  /** Position `i` starts a final extension: a `.` followed by at least one
      character, none of them `.` or `/`. */
  predicate ExtensionAt(name: string, i: int)
  {
    0 <= i < |name| - 1 && name[i] == '.' && '.' !in name[i + 1..] && '/' !in name[i + 1..]
  }

  /** A final extension can only start at the last `.`. */
  lemma ExtensionAtLastDot(name: string, k: int)
    requires ExtensionAt(name, k)
    ensures k == LastIndexOf(name, '.')
  {
  }

  /** The file name with its final extension removed, if it has one. */
  function StripExtension(name: string): (r: string)
    ensures forall i :: ExtensionAt(name, i) ==> r == name[..i]
    ensures (forall i :: !ExtensionAt(name, i)) ==> r == name
  {
    var i := LastIndexOf(name, '.');
    assert forall k | ExtensionAt(name, k) :: k == i by {
      forall k | ExtensionAt(name, k) ensures k == i { ExtensionAtLastDot(name, k); }
    }
    if 0 <= i < |name| - 1 && '/' !in name[i + 1..] then
      assert ExtensionAt(name, i);
      name[..i]
    else name
  }

  /** The envelope title: the title field when it is non-empty, otherwise the
      file name without its final extension. */
  function DeriveTitle(title: string, filePath: string): (r: string)
    ensures title != "" ==> r == title
    ensures title == "" ==> r == StripExtension(Basename(filePath))
  {
    if title != "" then title else StripExtension(Basename(filePath))
  }

  /** The text after the last `.` of the lower-cased path: taken from the
      whole path, not the file name. */
  function Extension(filePath: string): (r: string)
    ensures '.' !in r && EndsWith(ToLower(filePath), r)
    ensures |r| == |filePath| || ToLower(filePath)[|filePath| - |r| - 1] == '.'
  {
    AfterLast(ToLower(filePath), '.')
  }

  /** An accepted path ends in one of the five extensions, and that
      extension follows a `.` unless it is the whole path. */
  predicate IsAcceptedPath(filePath: string)
    ensures IsAcceptedPath(filePath) ==>
      && Extension(filePath) in AcceptedExtensions && EndsWith(ToLower(filePath), Extension(filePath))
      && (|filePath| == |Extension(filePath)| || ToLower(filePath)[|filePath| - |Extension(filePath)| - 1] == '.')
  {
    Extension(filePath) in AcceptedExtensions
  }

  /** The outcome of the validation chain. */
  datatype Validation =
    | NoFile
    | InvalidFileType
    | NoWorkspace
    | Proceed(filePath: string, title: string, workspaceUuid: string)

  /** The checks run in order, file, then extension, then workspace; the
      first that fails decides, and only a form passing all three proceeds. */
  function Validate(values: FormValues): (v: Validation)
    ensures v == NoFile <==> !HasFile(values)
    ensures v == InvalidFileType <==> HasFile(values) && !IsAcceptedPath(values.file.value[0])
    ensures v == NoWorkspace <==> HasFile(values) && IsAcceptedPath(values.file.value[0]) && values.workspace == ""
    ensures v.Proceed? ==> && HasFile(values)
                           && v.filePath == values.file.value[0] && IsAcceptedPath(v.filePath)
                           && v.workspaceUuid == values.workspace && v.workspaceUuid != ""
                           && v.title == DeriveTitle(values.title, v.filePath)
  {
    if !HasFile(values) then NoFile
    else
      var filePath := values.file.value[0];
      var title := DeriveTitle(values.title, filePath);
      if !IsAcceptedPath(filePath) then InvalidFileType
      else if values.workspace == "" then NoWorkspace
      else Proceed(filePath, title, values.workspace)
  }

  /** The envelope's edit page: the fixed prefix, the workspace, a `/`, the
      envelope and `/edit`. */
  function EditUrl(workspaceUuid: string, envelopeUuid: string): (url: string)
    ensures |url| == |AppEnvelopesUrl| + |workspaceUuid| + |envelopeUuid| + 6
    ensures url[..|AppEnvelopesUrl|] == AppEnvelopesUrl
    ensures url[|AppEnvelopesUrl|..|AppEnvelopesUrl| + |workspaceUuid|] == workspaceUuid
    ensures url[|AppEnvelopesUrl| + |workspaceUuid|] == '/'
    ensures url[|AppEnvelopesUrl| + |workspaceUuid| + 1..|url| - 5] == envelopeUuid
    ensures url[|url| - 5..] == "/edit"
  {
    AppEnvelopesUrl + workspaceUuid + "/" + envelopeUuid + "/edit"
  }

  /** What the vendor upload resolves with (`result` may itself be undefined). */
  datatype UploadResult = UploadResult(envelopeUuid: Option<string>)

  /** The two checks after a resolved upload: the envelope uuid, or the
      message of the error thrown. */
  function CheckUploadResult(workspaceUuid: string, result: Option<UploadResult>): (r: Result<string, string>)
    ensures r.Success? <==> && result.Some? && result.value.envelopeUuid.Some?
                            && result.value.envelopeUuid.value != "" && workspaceUuid != ""
    ensures r.Success? ==> r.value == result.value.envelopeUuid.value
    ensures r.Failure? && workspaceUuid != "" ==> r.error == NoEnvelopeId
    ensures r.Failure? ==> r.error == (if result.Some? && result.value.envelopeUuid.Some? && result.value.envelopeUuid.value != ""
                                       then NoWorkspaceReturned else NoEnvelopeId)
  {
    if result.None? || result.value.envelopeUuid.None? || result.value.envelopeUuid.value == "" then
      Failure(NoEnvelopeId)
    else if workspaceUuid == "" then Failure(NoWorkspaceReturned)
    else Success(result.value.envelopeUuid.value)
  }

  /** The message of the "Upload failed" toast for a thrown value. */
  function UploadFailureMessage(t: Thrown): (m: string)
    ensures t.ErrorObject? ==> m == t.message
    ensures t.NonError? ==> m == UnknownError
  {
    match t
    case ErrorObject(message) => message
    case NonError(_) => UnknownError
  }

  datatype ToastStyle = FailureStyle | AnimatedStyle | SuccessStyle

  /** What the form asks of the host and of the vendor client, in order. */
  datatype Effect =
    | ShowToast(style: ToastStyle, title: string, message: Option<string>)
    | SetLoading(on: bool)
    | CreateClient(config: Subnoto.ClientConfig)
    | ReadFile(path: string)
    | CallUpload(workspaceUuid: string, filePath: string, envelopeTitle: string)
    | OpenUrl(url: string)

  /** How the attempt inside the `try` went: the client could not be made,
      the file could not be read, the upload rejected, or it resolved. */
  datatype UploadAttempt =
    | ClientFailed(reason: Thrown)
    | ReadFailed(reason: Thrown)
    | UploadRejected(reason: Thrown)
    | UploadResolved(result: Option<UploadResult>)

  function UploadFailedToast(message: string): Effect
  {
    ShowToast(FailureStyle, "Upload failed", Some(message))
  }

  /** The toast a failed validation shows. */
  function ValidationToast(v: Validation): (e: Effect)
    requires !v.Proceed?
  {
    match v
    case NoFile =>
      ShowToast(FailureStyle, "No file selected", Some("Please select a PDF or Word document to upload"))
    case InvalidFileType =>
      ShowToast(FailureStyle, "Invalid file type", Some("Please select a PDF or Word document (.pdf, .doc, .docx, .odt, .rtf)"))
    case NoWorkspace =>
      ShowToast(FailureStyle, "No workspace selected", Some("Please select a workspace to upload to."))
  }

  /** The effects of the `try` block and its `catch`. */
  function AttemptEffects(prefs: Preferences, filePath: string, title: string, workspaceUuid: string,
                          attempt: UploadAttempt): (es: seq<Effect>)
    ensures |es| >= 2 && es[0] == CreateClient(Subnoto.ClientConfigFor(prefs))
    ensures !es[|es| - 1].OpenUrl? ==> es[|es| - 1].ShowToast? && es[|es| - 1].style == FailureStyle
    ensures attempt.ClientFailed? ==> |es| == 2
  {
    var client := [CreateClient(Subnoto.ClientConfigFor(prefs))];
    var announce := [ShowToast(AnimatedStyle, "Uploading document...", None), ReadFile(filePath)];
    var upload := [CallUpload(workspaceUuid, filePath, title)];
    match attempt
    case ClientFailed(t) => client + [UploadFailedToast(UploadFailureMessage(t))]
    case ReadFailed(t) => client + announce + [UploadFailedToast(UploadFailureMessage(t))]
    case UploadRejected(t) => client + announce + upload + [UploadFailedToast(UploadFailureMessage(t))]
    case UploadResolved(result) =>
      client + announce + upload +
      match CheckUploadResult(workspaceUuid, result)
      case Failure(m) => [UploadFailedToast(m)]
      case Success(envelopeUuid) =>
        [ShowToast(SuccessStyle, "Document uploaded!", Some("Opening in browser...")),
         OpenUrl(EditUrl(workspaceUuid, envelopeUuid))]
  }

  /** Everything one call of `handleSubmit` does, in order. */
  function SubmitEffects(prefs: Preferences, values: FormValues, attempt: UploadAttempt): (es: seq<Effect>)
    ensures |es| >= 1
    ensures es[0] == SetLoading(true) <==> Validate(values).Proceed?
    ensures !Validate(values).Proceed? ==> es == [ValidationToast(Validate(values))]
  {
    EffectsAfter(prefs, Validate(values), attempt)
  }

  /** The effects that follow a validation outcome: one toast for a
      rejection, the bracketed attempt otherwise. */
  function EffectsAfter(prefs: Preferences, v: Validation, attempt: UploadAttempt): (es: seq<Effect>)
    ensures !v.Proceed? ==> |es| == 1 && es[0].ShowToast? && es[0].style == FailureStyle
    ensures v.Proceed? ==>
      && |es| >= 4 && es[0] == SetLoading(true) && es[|es| - 1] == SetLoading(false)
      && es[1] == CreateClient(Subnoto.ClientConfigFor(prefs))
  {
    if v.Proceed? then
      [SetLoading(true)] + AttemptEffects(prefs, v.filePath, v.title, v.workspaceUuid, attempt) + [SetLoading(false)]
    else [ValidationToast(v)]
  }

  /** The workspace dropdown's item values: the single `""` placeholder when
      the load finished with no workspaces, the uuids otherwise. */
  function DropdownValues(workspaces: seq<Workspace>, workspacesLoading: bool): (vs: seq<string>)
    ensures workspaces == [] && !workspacesLoading ==> vs == [""]
    ensures workspaces != [] || workspacesLoading ==>
      |vs| == |workspaces| && forall i :: 0 <= i < |vs| ==> vs[i] == workspaces[i].uuid
  {
    if |workspaces| == 0 && !workspacesLoading then [""]
    else seq(|workspaces|, i requires 0 <= i < |workspaces| => workspaces[i].uuid)
  }

  /** `/tmp/report.final.pdf` without a title gives `report.final`: only the
      final extension is removed, from the file name. */
  lemma ReportTitle()
    ensures DeriveTitle("", "/tmp/report.final.pdf") == "report.final"
    ensures DeriveTitle("Contract", "/tmp/report.final.pdf") == "Contract"
  {
    AfterLastAt("/tmp/report.final.pdf", '/', 4);
    assert Basename("/tmp/report.final.pdf") == "report.final.pdf";
    var b := "report.final.pdf";
    assert ExtensionAt(b, 12) by { assert b[13..] == "pdf"; }
    assert b[..12] == "report.final";
  }

  /** A trailing `.` is not an extension. */
  lemma TrailingDotTitle()
    ensures DeriveTitle("", "file.") == "file."
  {
    assert Basename("file.") == "file.";
    assert !ExtensionAt("file.", 4);
  }

  /** A dot-file is all extension: its title is empty. */
  lemma DotFileTitle()
    ensures DeriveTitle("", ".bashrc") == ""
  {
    assert Basename(".bashrc") == ".bashrc";
    assert ExtensionAt(".bashrc", 0) by { assert ".bashrc"[1..] == "bashrc"; }
  }

  lemma LowerCharIdempotent(c: char)
    ensures LowerChar(LowerChar(c)) == LowerChar(c)
  {
  }

  /** Every accepted extension is a short run of letters. */
  lemma AcceptedExtensionShape(e: string)
    requires e in AcceptedExtensions
    ensures '/' !in e && '.' !in e
  {
  }

  /** Acceptance does not depend on letter case. */
  lemma AcceptanceIgnoresCase(filePath: string)
    ensures IsAcceptedPath(ToLower(filePath)) <==> IsAcceptedPath(filePath)
  {
    var l := ToLower(filePath);
    forall i | 0 <= i < |l| ensures ToLower(l)[i] == l[i] { LowerCharIdempotent(filePath[i]); }
    assert ToLower(l) == l;
  }

  /** Whatever precedes it, an upper- or mixed-case accepted extension is
      accepted. */
  lemma UpperCaseAccepted(stem: string)
    ensures IsAcceptedPath(stem + ".PDF") && IsAcceptedPath(stem + ".Docx")
  {
    UpperCaseExtensionAccepted(stem, ".PDF", "pdf");
    UpperCaseExtensionAccepted(stem, ".Docx", "docx");
  }

  lemma UpperCaseExtensionAccepted(stem: string, suffix: string, lowered: string)
    requires |suffix| >= 1 && suffix[0] == '.' && ToLower(suffix) == "." + lowered && '.' !in lowered
    ensures Extension(stem + suffix) == lowered
  {
    var path := stem + suffix;
    ToLowerSuffix(path, |stem|);
    assert path[|stem|..] == suffix;
    AfterLastOfTail(ToLower(path), '.', |stem|, lowered);
  }

  /** A path without a `.` is judged on its whole lower-cased text, so a
      dotless absolute path is always rejected. */
  lemma DotlessPathJudgedWhole(filePath: string)
    requires '.' !in filePath
    ensures Extension(filePath) == ToLower(filePath)
    ensures '/' in filePath ==> !IsAcceptedPath(filePath)
  {
    var l := ToLower(filePath);
    forall i | 0 <= i < |l| ensures l[i] != '.' { assert filePath[i] != '.'; }
    if '/' in filePath {
      var k :| 0 <= k < |filePath| && filePath[k] == '/';
      assert l[k] == '/';
      if l in AcceptedExtensions {
        AcceptedExtensionShape(l);
      }
    }
  }

  /** Although the extension is cut from the whole path, an accepted one
      always lies inside the file name: it is the file name's own extension. */
  lemma AcceptedExtensionInFileName(filePath: string)
    requires IsAcceptedPath(filePath)
    ensures Extension(Basename(filePath)) == Extension(filePath)
  {
    AcceptedExtensionShape(Extension(filePath));
    SlashFreeExtensionInFileName(filePath);
  }

  /** The same for any extension without a `/`. */
  lemma SlashFreeExtensionInFileName(filePath: string)
    requires '/' !in Extension(filePath)
    ensures Extension(Basename(filePath)) == Extension(filePath)
  {
    DotTailPastSlash(filePath);
  }

  /** The text after the last `.` of the lower-cased path, when it holds no
      `/`, lies within the file name. */
  lemma DotTailPastSlash(filePath: string)
    requires '/' !in AfterLast(ToLower(filePath), '.')
    ensures AfterLast(ToLower(Basename(filePath)), '.') == AfterLast(ToLower(filePath), '.')
  {
    var n, m, l := |filePath|, |Basename(filePath)|, ToLower(filePath);
    assert Basename(filePath) == filePath[n - m..];
    ToLowerSuffix(filePath, n - m);
    assert ToLower(Basename(filePath)) == l[n - m..];
    if m < n {
      assert l[n - m - 1] == '/';
      AfterLastPastMark(l, '.', '/', n - m);
    }
  }

  /** A `/`-free head followed by `/` is never longer than another such head
      of the same string. */
  lemma SlashHeadNotLonger(w1: string, r1: string, w2: string, r2: string)
    requires '/' !in w1
    requires w1 + "/" + r1 == w2 + "/" + r2
    ensures |w1| <= |w2|
  {
    var u := w1 + "/" + r1;
    assert forall k :: 0 <= k < |w1| ==> u[k] == w1[k];
    assert u[|w2|] == '/';
  }

  /** A `/`-free head followed by `/` splits a string in one way only. */
  lemma SlashSplitUnique(w1: string, r1: string, w2: string, r2: string)
    requires '/' !in w1 && '/' !in w2
    requires w1 + "/" + r1 == w2 + "/" + r2
    ensures w1 == w2 && r1 == r2
  {
    SlashHeadNotLonger(w1, r1, w2, r2);
    SlashHeadNotLonger(w2, r2, w1, r1);
    var u1, u2 := w1 + "/" + r1, w2 + "/" + r2;
    assert w1 == u1[..|w1|] && w2 == u2[..|w2|];
    assert r1 == u1[|w1| + 1..] && r2 == u2[|w2| + 1..];
  }

  /** The edit URL determines the workspace and the envelope it was built
      from, as long as the workspace uuid holds no `/`. */
  lemma EditUrlInjective(w1: string, e1: string, w2: string, e2: string)
    requires '/' !in w1 && '/' !in w2
    requires EditUrl(w1, e1) == EditUrl(w2, e2)
    ensures w1 == w2 && e1 == e2
  {
    var p := |AppEnvelopesUrl|;
    var u1, u2 := EditUrl(w1, e1), EditUrl(w2, e2);
    assert u1[p..] == w1 + "/" + (e1 + "/edit");
    assert u2[p..] == w2 + "/" + (e2 + "/edit");
    SlashSplitUnique(w1, e1 + "/edit", w2, e2 + "/edit");
    assert e1 == (e1 + "/edit")[..|e1|];
    assert e2 == (e2 + "/edit")[..|e2|];
  }

  /** An attempt that does not open the browser ends with the "Upload
      failed" toast: the thrown value's message (or the unknown-error text)
      for a thrown failure, and the result check's message for a resolved
      upload that failed it. */
  lemma AttemptFailureToast(prefs: Preferences, filePath: string, title: string, workspaceUuid: string,
                            attempt: UploadAttempt)
    ensures var es := AttemptEffects(prefs, filePath, title, workspaceUuid, attempt);
      && (!attempt.UploadResolved? ==> es[|es| - 1] == UploadFailedToast(UploadFailureMessage(attempt.reason)))
      && (attempt.UploadResolved? && CheckUploadResult(workspaceUuid, attempt.result).Failure? ==>
            es[|es| - 1] == UploadFailedToast(CheckUploadResult(workspaceUuid, attempt.result).error))
  {
  }

  /** What the attempt can contain: never the loading flag, and only the
      client and upload call of this form's values. */
  lemma AttemptEffectsShape(prefs: Preferences, filePath: string, title: string, workspaceUuid: string,
                            attempt: UploadAttempt)
    ensures var a := AttemptEffects(prefs, filePath, title, workspaceUuid, attempt);
      && (forall e | e in a :: !e.SetLoading?)
      && (forall e | e in a && e.CallUpload? :: e == CallUpload(workspaceUuid, filePath, title))
      && (forall e | e in a && e.CreateClient? :: e == CreateClient(Subnoto.ClientConfigFor(prefs)))
  {
    if attempt.UploadResolved? {
      var checked := CheckUploadResult(workspaceUuid, attempt.result);
      assert checked.Success? || checked.Failure?;
    }
  }

  /** A form rejected by validation shows one failure toast and nothing
      else: no loading flag, no client, no file read, no upload. */
  lemma RejectedSubmitHasNoSideEffects(prefs: Preferences, values: FormValues, attempt: UploadAttempt)
    requires !Validate(values).Proceed?
    ensures var es := SubmitEffects(prefs, values, attempt);
      |es| == 1 && es[0].ShowToast? && es[0].style == FailureStyle
  {
  }

  /** Only a validation that proceeded leads to a client and an upload
      call, and those carry the values it derived. */
  lemma EffectsAfterCallsOnProceed(prefs: Preferences, v: Validation, attempt: UploadAttempt)
    ensures forall e | e in EffectsAfter(prefs, v, attempt) && e.CallUpload? ::
      v == Proceed(e.filePath, e.envelopeTitle, e.workspaceUuid)
    ensures forall e | e in EffectsAfter(prefs, v, attempt) && e.CreateClient? ::
      v.Proceed? && e.config == Subnoto.ClientConfigFor(prefs)
  {
    if v.Proceed? {
      var a := AttemptEffects(prefs, v.filePath, v.title, v.workspaceUuid, attempt);
      assert EffectsAfter(prefs, v, attempt) == [SetLoading(true)] + a + [SetLoading(false)];
      AttemptEffectsShape(prefs, v.filePath, v.title, v.workspaceUuid, attempt);
    }
  }

  /** The client is created and the upload called only for a form that
      passed every check, with the values the validation derived. */
  lemma UploadOnlyAfterValidation(prefs: Preferences, values: FormValues, attempt: UploadAttempt)
    ensures forall e | e in SubmitEffects(prefs, values, attempt) && e.CallUpload? ::
      && Validate(values) == Proceed(e.filePath, e.envelopeTitle, e.workspaceUuid)
      && e.workspaceUuid != "" && IsAcceptedPath(e.filePath)
    ensures forall e | e in SubmitEffects(prefs, values, attempt) && e.CreateClient? ::
      Validate(values).Proceed? && e.config == Subnoto.ClientConfigFor(prefs)
  {
    EffectsAfterCallsOnProceed(prefs, Validate(values), attempt);
  }

  /** Around a proceeding validation's attempt the loading flag is raised
      first and lowered last, and touched nowhere in between. */
  lemma EffectsAfterBracketed(prefs: Preferences, v: Validation, attempt: UploadAttempt)
    requires v.Proceed?
    ensures var es := EffectsAfter(prefs, v, attempt);
      && |es| >= 2 && es[0] == SetLoading(true) && es[|es| - 1] == SetLoading(false)
      && forall i :: 0 < i < |es| - 1 ==> !es[i].SetLoading?
  {
    var a := AttemptEffects(prefs, v.filePath, v.title, v.workspaceUuid, attempt);
    AttemptEffectsShape(prefs, v.filePath, v.title, v.workspaceUuid, attempt);
    var es := EffectsAfter(prefs, v, attempt);
    forall i | 0 < i < |es| - 1 ensures !es[i].SetLoading? {
      assert es[i] == a[i - 1];
    }
  }

  /** For a valid form the loading flag is raised first and lowered last,
      whatever the attempt did, and touched nowhere in between. */
  lemma LoadingBracketsAttempt(prefs: Preferences, values: FormValues, attempt: UploadAttempt)
    requires Validate(values).Proceed?
    ensures var es := SubmitEffects(prefs, values, attempt);
      && |es| >= 2 && es[0] == SetLoading(true) && es[|es| - 1] == SetLoading(false)
      && forall i :: 0 < i < |es| - 1 ==> !es[i].SetLoading?
  {
    var v := Validate(values);
    assert SubmitEffects(prefs, values, attempt) == EffectsAfter(prefs, v, attempt);
    EffectsAfterBracketed(prefs, v, attempt);
  }

  /** Within the attempt, the browser is opened only after a resolved
      upload that passed both checks, on that envelope's edit URL. */
  lemma AttemptOpensEditUrl(prefs: Preferences, filePath: string, title: string, workspaceUuid: string,
                            attempt: UploadAttempt, url: string)
    ensures OpenUrl(url) in AttemptEffects(prefs, filePath, title, workspaceUuid, attempt) <==>
      && attempt.UploadResolved? && CheckUploadResult(workspaceUuid, attempt.result).Success?
      && url == EditUrl(workspaceUuid, CheckUploadResult(workspaceUuid, attempt.result).value)
  {
  }

  /** After a validation outcome, the browser is opened exactly when it
      proceeded and the upload passed both checks. */
  lemma EffectsAfterOpensEditUrl(prefs: Preferences, v: Validation, attempt: UploadAttempt, url: string)
    ensures OpenUrl(url) in EffectsAfter(prefs, v, attempt) <==>
      && v.Proceed? && attempt.UploadResolved? && CheckUploadResult(v.workspaceUuid, attempt.result).Success?
      && url == EditUrl(v.workspaceUuid, CheckUploadResult(v.workspaceUuid, attempt.result).value)
  {
    if v.Proceed? {
      var a := AttemptEffects(prefs, v.filePath, v.title, v.workspaceUuid, attempt);
      assert EffectsAfter(prefs, v, attempt) == [SetLoading(true)] + a + [SetLoading(false)];
      AttemptOpensEditUrl(prefs, v.filePath, v.title, v.workspaceUuid, attempt, url);
    }
  }

  /** The browser is opened exactly when a valid form's upload resolved with
      a non-empty envelope uuid, and then on the edit URL of that envelope. */
  lemma OpensEditUrlExactlyOnSuccess(prefs: Preferences, values: FormValues, attempt: UploadAttempt, url: string)
    ensures OpenUrl(url) in SubmitEffects(prefs, values, attempt) <==>
      && Validate(values).Proceed? && attempt.UploadResolved?
      && attempt.result.Some? && attempt.result.value.envelopeUuid.Some?
      && attempt.result.value.envelopeUuid.value != ""
      && url == EditUrl(Validate(values).workspaceUuid, attempt.result.value.envelopeUuid.value)
  {
    var v := Validate(values);
    assert SubmitEffects(prefs, values, attempt) == EffectsAfter(prefs, v, attempt);
    EffectsAfterOpensEditUrl(prefs, v, attempt, url);
  }

  /** The second check after the upload never fires: a form that reaches
      the upload has a non-empty workspace, so the only way a resolved upload
      fails is a missing envelope uuid. */
  lemma WorkspaceCheckUnreachable(values: FormValues, result: Option<UploadResult>)
    requires Validate(values).Proceed?
    ensures CheckUploadResult(Validate(values).workspaceUuid, result) != Failure(NoWorkspaceReturned)
    ensures CheckUploadResult(Validate(values).workspaceUuid, result).Success? <==>
      result.Some? && result.value.envelopeUuid.Some? && result.value.envelopeUuid.value != ""
  {
  }

  /** Picking the placeholder item shown when no workspace loaded is the
      same as picking none: such a form never proceeds. */
  lemma PlaceholderNeverProceeds(values: FormValues)
    requires values.workspace in DropdownValues([], false)
    ensures !Validate(values).Proceed?
  {
    assert DropdownValues([], false) == [""];
    assert values.workspace == "";
  }

  lemma AppendAssociative<T>(a: seq<T>, b: seq<T>, c: seq<T>, d: seq<T>)
    ensures a + b + c + d == a + (b + c + d)
  {
  }

  /** The form's state: the submit flag, the workspaces loaded on mount, and
      the effects issued so far. */
  class UploadForm {
    var isLoading: bool
    var workspaces: seq<Workspace>
    var workspacesLoading: bool
    var effects: seq<Effect>

    constructor ()
      ensures !isLoading && workspaces == [] && workspacesLoading && effects == []
    {
      isLoading := false;
      workspaces := [];
      workspacesLoading := true;
      effects := [];
    }

    /** `isLoading || workspacesLoading`, the form's spinner. */
    function FormIsLoading(): (r: bool)
      reads this
      ensures r <==> isLoading || workspacesLoading
    {
      isLoading || workspacesLoading
    }

    /** The mount effect's completion: the loaded list, or [] when the load
        failed; the workspace spinner is cleared either way. */
    method WorkspacesLoaded(result: Result<seq<Workspace>, Thrown>)
      modifies this
      ensures workspaces == (if result.Success? then result.value else [])
      ensures !workspacesLoading
      ensures isLoading == old(isLoading) && effects == old(effects)
    {
      if result.Success? {
        workspaces := result.value;
      } else {
        workspaces := [];
      }
      workspacesLoading := false;
    }

    /** `handleSubmit`: validate, stop with a toast on the first failed
        check, otherwise run the upload with the loading flag raised. */
    method HandleSubmit(prefs: Preferences, values: FormValues, attempt: UploadAttempt)
      modifies this
      ensures effects == old(effects) + SubmitEffects(prefs, values, attempt)
      ensures isLoading == (if Validate(values).Proceed? then false else old(isLoading))
      ensures workspaces == old(workspaces) && workspacesLoading == old(workspacesLoading)
      ensures Validate(values).Proceed? ==> (FormIsLoading() <==> workspacesLoading)
    {
      var v := Validate(values);
      if v.Proceed? {
        Upload(prefs, v, attempt);
      } else {
        effects := effects + [ValidationToast(v)];
      }
    }

    /** The part of `handleSubmit` after validation: raise the flag, run the
        `try` block, and lower the flag in the `finally`. */
    method Upload(prefs: Preferences, v: Validation, attempt: UploadAttempt)
      requires v.Proceed?
      modifies this
      ensures effects == old(effects) + EffectsAfter(prefs, v, attempt)
      ensures !isLoading
      ensures workspaces == old(workspaces) && workspacesLoading == old(workspacesLoading)
    {
      ghost var before := effects;
      isLoading := true;
      effects := effects + [SetLoading(true)];
      TryUpload(prefs, v.filePath, v.title, v.workspaceUuid, attempt);
      isLoading := false;
      effects := effects + [SetLoading(false)];
      AppendAssociative(before, [SetLoading(true)],
                        AttemptEffects(prefs, v.filePath, v.title, v.workspaceUuid, attempt), [SetLoading(false)]);
    }

    /** The `try` block with its `catch`: create the client, announce, read
        the file, upload, check the result, then open the browser or report
        the failure. */
    method TryUpload(prefs: Preferences, filePath: string, title: string, workspaceUuid: string,
                     attempt: UploadAttempt)
      modifies this`effects
      ensures effects == old(effects) + AttemptEffects(prefs, filePath, title, workspaceUuid, attempt)
    {
      effects := effects + [CreateClient(Subnoto.ClientConfigFor(prefs))];
      var failure: Option<string> := None;
      match attempt {
        case ClientFailed(t) =>
          failure := Some(UploadFailureMessage(t));
        case ReadFailed(t) =>
          effects := effects + [ShowToast(AnimatedStyle, "Uploading document...", None), ReadFile(filePath)];
          failure := Some(UploadFailureMessage(t));
        case UploadRejected(t) =>
          effects := effects + [ShowToast(AnimatedStyle, "Uploading document...", None), ReadFile(filePath)];
          effects := effects + [CallUpload(workspaceUuid, filePath, title)];
          failure := Some(UploadFailureMessage(t));
        case UploadResolved(result) =>
          effects := effects + [ShowToast(AnimatedStyle, "Uploading document...", None), ReadFile(filePath)];
          effects := effects + [CallUpload(workspaceUuid, filePath, title)];
          var checked := CheckUploadResult(workspaceUuid, result);
          if checked.Failure? {
            failure := Some(checked.error);
          } else {
            effects := effects + [ShowToast(SuccessStyle, "Document uploaded!", Some("Opening in browser...")),
                                  OpenUrl(EditUrl(workspaceUuid, checked.value))];
          }
      }
      if failure.Some? {
        effects := effects + [UploadFailedToast(failure.value)];
      }
    }
  }
}
