/** The page component of the client (`App`): five pieces of state, the two
    change handlers its children call, and the submission handler. The HTTP
    call is represented by its outcome, so `handleSubmit` appears as the part
    that runs before the call (`BeginSubmit`) and the part that runs when the
    call settles (`FinishSubmit`). */
module Submission {
  import opened Common
  import opened ResultView

  const SelectTwoFiles := "Veuillez sélectionner exactement deux fichiers PDF."
  const ComparisonFailed := "Une erreur est survenue lors de la comparaison."

  /** How the comparison request settled: the `result` field of the response
      body (absent when the body has none), or a failure with the optional
      `detail` field of the error response. */
  datatype Outcome = Ok(result: Option<ComparisonResult>) | Err(detail: Option<string>)

  /** One entry of the multipart form, in the order it was appended. */
  datatype FormEntry = FilePart(field: string, file: UploadFile) | TextPart(field: string, text: string)

  /** The page's state: `files`, `prompt`, `result`, `isLoading`, `error`. */
  datatype AppState = AppState(
    files: seq<UploadFile>,
    prompt: string,
    result: Option<ComparisonResult>,
    isLoading: bool,
    error: Option<string>)

  function Initial(): AppState {
    AppState([], DefaultPrompt, None, false, None)
  }

  /** `handleFilesChange`: the new list replaces the old and any error is cleared. */
  function FilesChanged(s: AppState, newFiles: seq<UploadFile>): AppState {
    s.(files := newFiles, error := None)
  }

  /** `handlePromptChange`. */
  function PromptChanged(s: AppState, newPrompt: string): AppState {
    s.(prompt := newPrompt)
  }

  /** The synchronous part of `handleSubmit`: the file-count guard, or the
      loading state with result and error cleared. */
  function Submitted(s: AppState): AppState {
    if |s.files| != 2 then s.(error := Some(SelectTwoFiles))
    else s.(isLoading := true, error := None, result := None)
  }

  /** The message stored when the request fails: the server's `detail` when it
      is truthy, the fixed fallback otherwise. It is never empty, so the
      page's error block is always shown for it. */
  function FailureMessage(detail: Option<string>): (m: string)
    ensures Truthy(detail) ==> m == detail.value
    ensures !Truthy(detail) ==> m == ComparisonFailed
    ensures m != ""
  {
    if Truthy(detail) then detail.value else ComparisonFailed
  }

  /** The part of `handleSubmit` that runs when the call settles: the try
      branch or the catch branch, then the finally block. */
  function Resolved(s: AppState, outcome: Outcome): AppState {
    match outcome
    case Ok(r) => s.(result := r, isLoading := false)
    case Err(d) => s.(error := Some(FailureMessage(d)), isLoading := false)
  }

  /** The submit button is enabled (its `disabled` expression is false). */
  predicate SubmitEnabled(s: AppState) {
    |s.files| == 2 && !s.isLoading
  }

  /** The form data of a submission: one `files` entry per file, in list
      order, then the `prompt` entry. */
  method BuildFormData(files: seq<UploadFile>, prompt: string) returns (entries: seq<FormEntry>)
    ensures |entries| == |files| + 1
    ensures forall i :: 0 <= i < |files| ==> entries[i] == FilePart("files", files[i])
    ensures entries[|files|] == TextPart("prompt", prompt)
  {
    entries := [];
    var i := 0;
    while i < |files|
      invariant 0 <= i <= |files|
      invariant |entries| == i
      invariant forall k :: 0 <= k < i ==> entries[k] == FilePart("files", files[k])
    {
      entries := entries + [FilePart("files", files[i])];
      i := i + 1;
    }
    entries := entries + [TextPart("prompt", prompt)];
  }

  class App {
    var files: seq<UploadFile>
    var prompt: string
    var result: Option<ComparisonResult>
    var isLoading: bool
    var error: Option<string>

    function State(): AppState
      reads this
    {
      AppState(files, prompt, result, isLoading, error)
    }

    constructor ()
      ensures State() == Initial()
    {
      var init := Initial();
      files, prompt, result, isLoading, error := init.files, init.prompt, init.result, init.isLoading, init.error;
    }

    method HandleFilesChange(newFiles: seq<UploadFile>)
      modifies this
      ensures State() == FilesChanged(old(State()), newFiles)
    {
      files := newFiles;
      error := None;
    }

    method HandlePromptChange(newPrompt: string)
      modifies this
      ensures State() == PromptChanged(old(State()), newPrompt)
    {
      prompt := newPrompt;
    }

    /** Runs `handleSubmit` up to the HTTP call and returns the request it
        issues, or None when the guard stops it. */
    method BeginSubmit() returns (request: Option<seq<FormEntry>>)
      modifies this
      ensures State() == Submitted(old(State()))
      ensures request.Some? <==> |old(files)| == 2
      ensures request.Some? ==>
                request.value == [FilePart("files", old(files)[0]), FilePart("files", old(files)[1]),
                                  TextPart("prompt", old(prompt))]
    {
      if |files| != 2 {
        error := Some(SelectTwoFiles);
        return None;
      }
      isLoading := true;
      error := None;
      result := None;
      var entries := BuildFormData(files, prompt);
      request := Some(entries);
    }

    /** Runs the rest of `handleSubmit` once the call has settled. */
    method FinishSubmit(outcome: Outcome)
      modifies this
      ensures State() == Resolved(old(State()), outcome)
    {
      match outcome {
        case Ok(r) =>
          result := r;
        case Err(d) =>
          error := Some(FailureMessage(d));
      }
      isLoading := false;
    }

    /** One whole submission with no other event while the call is pending. */
    method HandleSubmit(outcome: Outcome) returns (request: Option<seq<FormEntry>>)
      modifies this
      ensures request.Some? <==> |old(files)| == 2
      ensures request.Some? ==>
                request.value == [FilePart("files", old(files)[0]), FilePart("files", old(files)[1]),
                                  TextPart("prompt", old(prompt))]
      ensures State() == if request.None? then Submitted(old(State())) else Resolved(Submitted(old(State())), outcome)
    {
      request := BeginSubmit();
      if request.Some? {
        FinishSubmit(outcome);
      }
    }
  }

  /** A submission with a file count other than two only sets the validation
      message; no other field changes. */
  lemma GuardKeepsState(s: AppState)
    requires |s.files| != 2
    ensures Submitted(s) == AppState(s.files, s.prompt, s.result, s.isLoading, Some(SelectTwoFiles))
  {
  }

  /** A completed submission with two files: loading is over, the prompt and
      files are untouched, and exactly one of result and error reflects the
      outcome. */
  lemma CompletedSubmission(s: AppState, outcome: Outcome)
    requires |s.files| == 2
    ensures Submitted(s).isLoading && Submitted(s).result.None? && Submitted(s).error.None?
    ensures var t := Resolved(Submitted(s), outcome);
      && !t.isLoading && t.files == s.files && t.prompt == s.prompt
      && (outcome.Ok? ==> t.result == outcome.result && t.error.None?)
      && (outcome.Err? ==> t.result.None? && t.error == Some(FailureMessage(outcome.detail)))
  {
  }

  /** User and network events seen by the page. */
  datatype Event =
    | FilesChange(newFiles: seq<UploadFile>)
    | PromptChange(newPrompt: string)
    | Submit
    | Resolve(outcome: Outcome)

  function Step(s: AppState, e: Event): AppState {
    match e
    case FilesChange(fs) => FilesChanged(s, fs)
    case PromptChange(p) => PromptChanged(s, p)
    case Submit => Submitted(s)
    case Resolve(o) => Resolved(s, o)
  }

  function Run(s: AppState, events: seq<Event>): AppState
    decreases |events|
  {
    if events == [] then s else Run(Step(s, events[0]), events[1..])
  }

  /** What the page lets happen: submitting needs the button enabled, and since
      the button stays disabled while a request is pending, a request settles
      only while `isLoading` holds. */
  predicate Allowed(s: AppState, e: Event) {
    match e
    case Submit => SubmitEnabled(s)
    case Resolve(_) => s.isLoading
    case _ => true
  }

  predicate AllAllowed(s: AppState, events: seq<Event>)
    decreases |events|
  {
    events == [] || (Allowed(s, events[0]) && AllAllowed(Step(s, events[0]), events[1..]))
  }

  /** While loading nothing stale is shown, and a result and an error are never
      shown together. */
  predicate Consistent(s: AppState) {
    && (s.isLoading ==> s.result.None? && s.error.None?)
    && !(s.result.Some? && s.error.Some?)
  }

  lemma StepConsistent(s: AppState, e: Event)
    requires Consistent(s) && Allowed(s, e)
    ensures Consistent(Step(s, e))
  {
  }

  /** Every sequence of events the page allows keeps the display consistent. */
  lemma {:induction false} RunConsistent(s: AppState, events: seq<Event>)
    requires Consistent(s) && AllAllowed(s, events)
    ensures Consistent(Run(s, events))
    decreases |events|
  {
    if events != [] {
      StepConsistent(s, events[0]);
      RunConsistent(Step(s, events[0]), events[1..]);
    }
  }

  /** Under the page's discipline every submission passes the file-count guard
      and issues a request. */
  lemma AllowedSubmitIssues(s: AppState)
    requires Allowed(s, Submit)
    ensures Submitted(s) == s.(isLoading := true, error := None, result := None)
  {
  }

  /** Nothing fences overlapping submissions: if two are pending and the first
      to settle fails, its message stays beside the result of the second. */
  lemma OverlappingSettlements(s: AppState, detail: Option<string>, r: ComparisonResult)
    requires |s.files| == 2
    ensures var t := Resolved(Resolved(Submitted(Submitted(s)), Err(detail)), Ok(Some(r)));
      t.result == Some(r) && t.error == Some(FailureMessage(detail)) && !Consistent(t)
  {
  }

  lemma InitialConsistent()
    ensures Consistent(Initial())
  {
  }
}
