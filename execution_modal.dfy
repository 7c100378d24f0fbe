/** The command execution modal: the progress bar, the status line, the output log and
    the `isExecuting` flag, driven by starting a command, its answer from the backend,
    and the cancel and close controls. `execute` awaits the backend, so it is modelled
    as two steps, `Begin` up to the call and `Finish` with the answer, between which the
    user may cancel. */
module ExecutionUi {
  import opened Wrappers
  import opened Text
  import opened SpecBackend

  // ---------------------------------------------------------------------------
  // Pure helpers

  /** The six commands a task's buttons offer. */
  const KnownCommands: seq<string> := ["execute-task", "fix", "tweak", "check-task", "queue-fix", "queue-tweak"]

  /** The command name the backend receives. */
  function BackendCommand(command: string): string {
    "sdd-" + command
  }

  /** The frontend's six commands are exactly the backend's whitelist: every one of them
      is accepted, and every accepted command is one of them. */
  lemma {:induction false} KnownCommandsAreWhitelisted()
    ensures forall c :: c in KnownCommands ==> BackendCommand(c) in AllowedCommands
    ensures forall w :: w in AllowedCommands ==> exists c :: c in KnownCommands && BackendCommand(c) == w
    ensures |KnownCommands| == |AllowedCommands|
  {
    forall c | c in KnownCommands ensures BackendCommand(c) in AllowedCommands {
      var k :| 0 <= k < |KnownCommands| && KnownCommands[k] == c;
      assert BackendCommand(c) == AllowedCommands[k];
    }
    forall w | w in AllowedCommands ensures exists c :: c in KnownCommands && BackendCommand(c) == w {
      var k :| 0 <= k < |AllowedCommands| && AllowedCommands[k] == w;
      assert BackendCommand(KnownCommands[k]) == w;
    }
  }

  /** JavaScript truthiness of `taskData.id`, a string when present. */
  predicate Truthy(id: Option<string>) {
    id.Some? && id.value != ""
  }

  /** `${this.taskData.id || 'Unknown'}`. */
  function IdOrUnknown(id: Option<string>): string {
    if Truthy(id) then id.value else "Unknown"
  }

  /** `getCommandDescription`. */
  function CommandDescription(command: string, id: Option<string>): (r: string)
    ensures command in KnownCommands ==> EndsWith(r, IdOrUnknown(id))
    ensures command !in KnownCommands ==> r == "Execute " + command + " command"
  {
    var who := IdOrUnknown(id);
    match command
    case "execute-task" => "Execute task " + who
    case "fix" => "Fix task " + who
    case "tweak" => "Tweak task " + who
    case "check-task" => "Check task " + who
    case "queue-fix" => "Queue fix for task " + who
    case "queue-tweak" => "Queue tweak for task " + who
    case _ => "Execute " + command + " command"
  }

  /** `buildCommandArgs`: every branch of its switch passes the id of a task when it is
      truthy, so the arguments do not depend on the command. */
  function BuildCommandArgs(command: string, id: Option<string>): (args: seq<string>)
    ensures args == (if Truthy(id) then [id.value] else [])
  {
    match command
    case "execute-task" => if Truthy(id) then [id.value] else []
    case "fix" | "tweak" | "check-task" | "queue-fix" | "queue-tweak" => if Truthy(id) then [id.value] else []
    case _ => if Truthy(id) then [id.value] else []
  }

  /** The width `updateProgress` gives the bar. */
  function Clamp(p: int): (w: int)
    ensures 0 <= w <= 100
    ensures 0 <= p <= 100 ==> w == p
    ensures p < 0 ==> w == 0
    ensures p > 100 ==> w == 100
  {
    if p < 0 then 0 else if p > 100 then 100 else p
  }

  /** A number as a template literal writes it. */
  function IntText(n: int): string {
    if n < 0 then "-" + NatToString(-n) else NatToString(n)
  }

  // ---------------------------------------------------------------------------
  // The backend's answer

  /** `CommandResult` as the frontend receives it. */
  datatype CommandResult = CommandResult(
    success: bool, exitCode: Option<int>, stdout: string, stderr: string,
    durationMs: nat, errorMessage: Option<string>)

  /** The message thrown for a failed command: its error message when one is given and
      nonempty, else the exit code (`null` when there is none). */
  function FailureMessage(res: CommandResult): string {
    if res.errorMessage.Some? && res.errorMessage.value != "" then res.errorMessage.value
    else "Command failed with exit code " + (if res.exitCode.Some? then IntText(res.exitCode.value) else "null")
  }

  /** The arguments of `invoke('execute_agent_sdd_command', ...)`. */
  datatype CommandRequest = CommandRequest(command: string, taskId: Option<string>, specPath: string, projectPath: string)

  datatype StatusKind = Executing | Success | Failure | Cancelled | Info

  datatype LineKind = InfoLine | SuccessLine | ErrorLine | WarningLine

  datatype OutputLine = OutputLine(text: string, kind: LineKind)

  function ErrorOutput(message: string): OutputLine {
    OutputLine("\n❌ Error: " + message + "\n", ErrorLine)
  }

  /** What the catch block of `execute` receives: an `Error` thrown by the frontend
      itself, or the bare string a Tauri command's `Err` is rejected with. */
  datatype Rejection = Thrown(message: string) | Rejected(reason: string)

  /** `error.message` as the catch block prints it: a string has no `message`
      property, so its value prints as `undefined`. */
  function CaughtMessage(e: Rejection): string {
    match e
    case Thrown(m) => m
    case Rejected(_) => "undefined"
  }

  /** The backend's reason never reaches the output: every rejection of the
      `invoke` call prints the same line, whatever the reason. */
  lemma {:induction false} RejectionReasonLost(a: string, b: string)
    ensures ErrorOutput(CaughtMessage(Rejected(a))) == ErrorOutput("undefined")
    ensures ErrorOutput(CaughtMessage(Rejected(a))) == ErrorOutput(CaughtMessage(Rejected(b)))
  {
  }

  /** The evident intent: the message of an `Error`, or the rejected string itself. */
  function ReasonMessage(e: Rejection): string {
    match e
    case Thrown(m) => m
    case Rejected(r) => r
  }

  /** Under the correction the error line names the reason, and different reasons
      give different lines. */
  lemma {:induction false} CorrectedRejectionShowsReason(a: string, b: string)
    ensures ErrorOutput(ReasonMessage(Rejected(a))).text == "\n❌ Error: " + a + "\n"
    ensures ErrorOutput(ReasonMessage(Rejected(a))) == ErrorOutput(ReasonMessage(Rejected(b))) ==> a == b
  {
    var pre := "\n❌ Error: ";
    if ErrorOutput(a) == ErrorOutput(b) {
      var ta := pre + a + "\n";
      var tb := pre + b + "\n";
      assert ta == tb;
      assert a == ta[|pre|..|pre| + |a|];
      assert b == tb[|pre|..|pre| + |b|];
    }
  }

  /** The lines `execute` writes before calling the backend. */
  function RequestLines(command: string, id: Option<string>, specPath: Option<string>, projectPath: string): seq<OutputLine> {
    [ OutputLine("Command arguments: " + Join(BuildCommandArgs(command, id), " ") + "\n", InfoLine),
      OutputLine("Task ID: " + (if id.Some? then id.value else "undefined") + "\n", InfoLine),
      OutputLine("Spec path: " + (if Truthy(specPath) then specPath.value else "Not provided") + "\n", InfoLine),
      OutputLine("Project path: " + (if projectPath != "" then projectPath else "Not provided") + "\n", InfoLine) ]
  }

  /** The lines written for the backend's answer: its output, then the outcome. */
  function ResultLines(res: CommandResult): seq<OutputLine> {
    (if res.stdout != "" then [OutputLine(res.stdout, InfoLine)] else []) +
    (if res.stderr != "" then [OutputLine(res.stderr, WarningLine)] else []) +
    (if res.success then
       [OutputLine("\n✅ Execution completed successfully\n", SuccessLine)] +
       (if res.durationMs > 0 then [OutputLine("\nExecution time: " + NatToString(res.durationMs) + "ms\n", InfoLine)] else [])
     else [ErrorOutput(FailureMessage(res))])
  }

  /** JavaScript's `||` treats an empty error message like a missing one: both fall back
      to the exit-code text. */
  lemma {:induction false} EmptyErrorMessageIgnored(res: CommandResult)
    ensures FailureMessage(res.(errorMessage := Some(""))) == FailureMessage(res.(errorMessage := None))
    ensures res.errorMessage.Some? && res.errorMessage.value != "" ==> FailureMessage(res) == res.errorMessage.value
    ensures res.errorMessage.None? ==> StartsWith(FailureMessage(res), "Command failed with exit code ")
  {
    var t := "Command failed with exit code " + (if res.exitCode.Some? then IntText(res.exitCode.value) else "null");
    assert t[..|"Command failed with exit code "|] == "Command failed with exit code ";
  }

  /** The request lines do not depend on the command: all its arms pass the same
      arguments. There are always four of them, and the first lists the id exactly when
      it is truthy. */
  lemma {:induction false} RequestLinesIgnoreCommand(c1: string, c2: string, id: Option<string>, specPath: Option<string>, projectPath: string)
    ensures RequestLines(c1, id, specPath, projectPath) == RequestLines(c2, id, specPath, projectPath)
    ensures |RequestLines(c1, id, specPath, projectPath)| == 4
    ensures RequestLines(c1, id, specPath, projectPath)[0].text ==
      "Command arguments: " + (if Truthy(id) then id.value else "") + "\n"
  {
    if Truthy(id) {
      assert Join([id.value], " ") == id.value;
    }
  }

  /** The answer's lines: its standard output and error come first, unchanged; a success
      line appears exactly for a successful result, and the last line is an error line
      exactly for a failed one. */
  lemma {:induction false} ResultLinesOutcome(res: CommandResult)
    ensures var ls := ResultLines(res);
      |ls| > 0 &&
      (res.success <==> exists i :: 0 <= i < |ls| && ls[i].kind == SuccessLine) &&
      (!res.success <==> ls[|ls| - 1].kind == ErrorLine)
    ensures res.stdout != "" ==> ResultLines(res)[0] == OutputLine(res.stdout, InfoLine)
  {
    var printed := (if res.stdout != "" then [OutputLine(res.stdout, InfoLine)] else []) +
      (if res.stderr != "" then [OutputLine(res.stderr, WarningLine)] else []);
    var tail := if res.success then
        [OutputLine("\n✅ Execution completed successfully\n", SuccessLine)] +
        (if res.durationMs > 0 then [OutputLine("\nExecution time: " + NatToString(res.durationMs) + "ms\n", InfoLine)] else [])
      else [ErrorOutput(FailureMessage(res))];
    var ls := ResultLines(res);
    assert ls == printed + tail;
    assert forall i :: 0 <= i < |printed| ==> printed[i].kind != SuccessLine && printed[i].kind != ErrorLine;
    if res.success {
      assert ls[|printed|].kind == SuccessLine;
      assert ls[|ls| - 1].kind != ErrorLine;
    } else {
      forall i | 0 <= i < |ls| ensures ls[i].kind != SuccessLine {
        if i < |printed| {
          assert ls[i] == printed[i];
        }
      }
    }
  }

  // ---------------------------------------------------------------------------
  // The modal

  class ExecutionModal {
    const command: string
    const taskId: Option<string>
    const specPath: Option<string>
    const projectPath: string

    var isExecuting: bool
    /** The progress bar's width in percent. */
    var progress: int
    var status: string
    var statusKind: StatusKind
    var output: seq<OutputLine>
    /** The label of the cancel buttons: "Cancel" while executing, "Close" after. */
    var buttonLabel: string
    var isOpen: bool
    /** How often `onCancel` has been called, and the results handed to `onComplete`. */
    var cancelCalls: nat
    var completed: seq<CommandResult>

    /** The progress bar stays within the track. */
    predicate Valid()
      reads this
    {
      0 <= progress <= 100
    }

    constructor(command: string, taskId: Option<string>, specPath: Option<string>, projectPath: string)
      ensures Valid()
      ensures this.command == command && this.taskId == taskId
      ensures this.specPath == specPath && this.projectPath == projectPath
      ensures !isExecuting && progress == 0 && status == "Initializing..." && statusKind == Info
      ensures output == [] && buttonLabel == "Cancel" && isOpen
      ensures cancelCalls == 0 && completed == []
    {
      this.command := command;
      this.taskId := taskId;
      this.specPath := specPath;
      this.projectPath := projectPath;
      isExecuting := false;
      progress := 0;
      status := "Initializing...";
      statusKind := Info;
      output := [];
      buttonLabel := "Cancel";
      isOpen := true;
      cancelCalls := 0;
      completed := [];
    }

    /** `updateProgress`: the width is the percentage clamped to 0..100. */
    method UpdateProgress(p: int)
      modifies this
      ensures progress == Clamp(p) && Valid()
      ensures isExecuting == old(isExecuting) && status == old(status) && statusKind == old(statusKind)
      ensures output == old(output) && buttonLabel == old(buttonLabel) && isOpen == old(isOpen)
      ensures cancelCalls == old(cancelCalls) && completed == old(completed)
    {
      progress := Clamp(p);
    }

    /** `updateActionButtons`. */
    method UpdateActionButtons()
      modifies this
      ensures buttonLabel == (if isExecuting then "Cancel" else "Close")
      ensures isExecuting == old(isExecuting) && progress == old(progress) && status == old(status)
      ensures statusKind == old(statusKind) && output == old(output) && isOpen == old(isOpen)
      ensures cancelCalls == old(cancelCalls) && completed == old(completed)
    {
      buttonLabel := if isExecuting then "Cancel" else "Close";
    }

    /** `execute` up to the backend call. A second start while executing does nothing.
        Without the Tauri API the run fails at once; otherwise the request is returned
        with the bar at 50%. */
    method Begin(tauriAvailable: bool) returns (request: Option<CommandRequest>)
      requires Valid()
      modifies this
      ensures Valid()
      ensures old(isExecuting) ==> request.None? && unchanged(this)
      ensures !old(isExecuting) && tauriAvailable ==>
        isExecuting && progress == 50 && status == "Executing..." && statusKind == Executing &&
        request == Some(CommandRequest(BackendCommand(command), taskId, specPath.GetOr(""), projectPath)) &&
        output == old(output) + [OutputLine("Starting execution of command: " + command + "\n", InfoLine)] +
          RequestLines(command, taskId, specPath, projectPath) &&
        buttonLabel == old(buttonLabel)
      ensures !old(isExecuting) && !tauriAvailable ==>
        !isExecuting && progress == 0 && status == "Execution failed" && statusKind == Failure &&
        request.None? && buttonLabel == "Close" &&
        output == old(output) + [OutputLine("Starting execution of command: " + command + "\n", InfoLine),
          ErrorOutput("Tauri API not available")]
      ensures isOpen == old(isOpen) && cancelCalls == old(cancelCalls) && completed == old(completed)
    {
      if isExecuting {
        return None;
      }
      isExecuting := true;
      status, statusKind := "Executing...", Executing;
      UpdateProgress(10);
      output := output + [OutputLine("Starting execution of command: " + command + "\n", InfoLine)];
      if !tauriAvailable {
        status, statusKind := "Execution failed", Failure;
        UpdateProgress(0);
        output := output + [ErrorOutput("Tauri API not available")];
        isExecuting := false;
        UpdateActionButtons();
        return None;
      }
      UpdateProgress(25);
      output := output + RequestLines(command, taskId, specPath, projectPath);
      UpdateProgress(50);
      request := Some(CommandRequest(BackendCommand(command), taskId, specPath.GetOr(""), projectPath));
    }

    /** The part of `execute` that shows the backend's answer: its output, then success
        at 100% with the result handed to `onComplete`, or the failure at 0%. */
    method ShowResult(res: CommandResult)
      requires Valid()
      modifies this
      ensures Valid()
      ensures res.success ==>
        progress == 100 && status == "Completed successfully" && statusKind == Success &&
        completed == old(completed) + [res]
      ensures !res.success ==>
        progress == 0 && status == "Execution failed" && statusKind == Failure && completed == old(completed)
      ensures output == old(output) + ResultLines(res)
      ensures isExecuting == old(isExecuting) && buttonLabel == old(buttonLabel)
      ensures isOpen == old(isOpen) && cancelCalls == old(cancelCalls)
    {
      UpdateProgress(75);
      var printed := (if res.stdout != "" then [OutputLine(res.stdout, InfoLine)] else []) +
        (if res.stderr != "" then [OutputLine(res.stderr, WarningLine)] else []);
      output := output + printed;
      if res.success {
        status, statusKind := "Completed successfully", Success;
        UpdateProgress(100);
        var tail := [OutputLine("\n✅ Execution completed successfully\n", SuccessLine)] +
          (if res.durationMs > 0 then [OutputLine("\nExecution time: " + NatToString(res.durationMs) + "ms\n", InfoLine)] else []);
        output := output + tail;
        assert ResultLines(res) == printed + tail;
        completed := completed + [res];
      } else {
        status, statusKind := "Execution failed", Failure;
        UpdateProgress(0);
        output := output + [ErrorOutput(FailureMessage(res))];
        assert ResultLines(res) == printed + [ErrorOutput(FailureMessage(res))];
      }
    }

    /** `execute` after the backend answered (`Ok`) or the call was rejected (`Err`,
        holding the command's error string). Success ends at 100% and hands the result
        to `onComplete`; anything else ends at 0% with an error line. A rejection is a
        bare string, so the line reads `undefined` instead of the reason. Either way the
        modal is no longer executing. */
    method Finish(answer: Result<CommandResult>)
      requires Valid()
      modifies this
      ensures Valid()
      ensures !isExecuting && buttonLabel == "Close"
      ensures answer.Ok? && answer.value.success ==>
        progress == 100 && status == "Completed successfully" && statusKind == Success &&
        completed == old(completed) + [answer.value]
      ensures answer.Ok? && !answer.value.success ==>
        progress == 0 && status == "Execution failed" && statusKind == Failure && completed == old(completed)
      ensures answer.Ok? ==> output == old(output) + ResultLines(answer.value)
      ensures answer.Err? ==>
        progress == 0 && status == "Execution failed" && statusKind == Failure &&
        output == old(output) + [ErrorOutput(CaughtMessage(Rejected(answer.error)))] &&
        output[|output| - 1].text == "\n❌ Error: undefined\n" && completed == old(completed)
      ensures isOpen == old(isOpen) && cancelCalls == old(cancelCalls)
    {
      if answer.Err? {
        status, statusKind := "Execution failed", Failure;
        UpdateProgress(0);
        output := output + [ErrorOutput(CaughtMessage(Rejected(answer.error)))];
      } else {
        ShowResult(answer.value);
      }
      isExecuting := false;
      UpdateActionButtons();
    }

    /** The state a cancel leaves, given the output and the `onCancel` count before it. */
    predicate CancelledFrom(output0: seq<OutputLine>, calls0: nat)
      reads this
    {
      !isExecuting && progress == 0 && status == "Cancelled" && statusKind == Cancelled &&
      output == output0 + [OutputLine("\n⚠️ Execution cancelled by user\n", WarningLine)] &&
      buttonLabel == "Close" && cancelCalls == calls0 + 1
    }

    /** `cancelExecution`: nothing unless executing; otherwise stops, empties the bar,
        notes the cancellation and calls `onCancel` once. */
    method CancelExecution()
      requires Valid()
      modifies this
      ensures Valid()
      ensures !old(isExecuting) ==> unchanged(this)
      ensures old(isExecuting) ==> CancelledFrom(old(output), old(cancelCalls))
      ensures isOpen == old(isOpen) && completed == old(completed)
    {
      if !isExecuting {
        return;
      }
      isExecuting := false;
      status, statusKind := "Cancelled", Cancelled;
      UpdateProgress(0);
      output := output + [OutputLine("\n⚠️ Execution cancelled by user\n", WarningLine)];
      UpdateActionButtons();
      cancelCalls := cancelCalls + 1;
    }

    /** `close`: cancels a running command first, then removes the modal. */
    method Close()
      requires Valid()
      modifies this
      ensures Valid()
      ensures !isOpen && completed == old(completed)
      ensures old(isExecuting) ==> CancelledFrom(old(output), old(cancelCalls))
      ensures !old(isExecuting) ==>
        !isExecuting && progress == old(progress) && status == old(status) &&
        statusKind == old(statusKind) && output == old(output) &&
        buttonLabel == old(buttonLabel) && cancelCalls == old(cancelCalls)
    {
      if isExecuting {
        CancelExecution();
      }
      isOpen := false;
    }

    /** The cancel buttons and Escape: cancel while executing, close otherwise. */
    method Dismiss()
      requires Valid()
      modifies this
      ensures Valid()
      ensures old(isExecuting) ==> CancelledFrom(old(output), old(cancelCalls)) && isOpen == old(isOpen)
      ensures !old(isExecuting) ==>
        !isOpen && progress == old(progress) && status == old(status) &&
        statusKind == old(statusKind) && output == old(output) &&
        buttonLabel == old(buttonLabel) && cancelCalls == old(cancelCalls)
      ensures completed == old(completed)
    {
      if isExecuting {
        CancelExecution();
      } else {
        Close();
      }
    }

    /** A click on the backdrop closes the modal only when nothing is executing. */
    method BackdropClick()
      requires Valid()
      modifies this
      ensures Valid()
      ensures old(isExecuting) ==> unchanged(this)
      ensures !old(isExecuting) ==>
        !isOpen && !isExecuting && progress == old(progress) && status == old(status) &&
        statusKind == old(statusKind) && output == old(output) && buttonLabel == old(buttonLabel) &&
        cancelCalls == old(cancelCalls) && completed == old(completed)
    {
      if !isExecuting {
        Close();
      }
    }
  }

  /** `handleCommandExecution` in the specs table: without a project path no modal
      opens; otherwise a modal for the command, its task and the spec's path. */
  method HandleCommandExecution(command: string, taskId: Option<string>, specPath: Option<string>, projectPath: string)
    returns (modal: Option<ExecutionModal>)
    ensures modal.None? <==> projectPath == ""
    ensures modal.Some? ==>
      fresh(modal.value) && modal.value.Valid() && !modal.value.isExecuting && modal.value.isOpen &&
      modal.value.command == command && modal.value.taskId == taskId &&
      modal.value.specPath == specPath && modal.value.projectPath == projectPath
  {
    if projectPath == "" {
      return None;
    }
    var m := new ExecutionModal(command, taskId, specPath, projectPath);
    modal := Some(m);
  }
}
