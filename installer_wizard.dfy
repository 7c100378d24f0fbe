/** The installer wizard: three steps (choose a project directory, name and configure
    the project, review and install), the Back/Next/Install buttons and their guards,
    the summary of the directories to create, and the installation progress loop that
    calls the backend once. */
module Installer {
  import opened Wrappers
  import opened Text
  import opened SpecBackend

  /** The directories the summary lists, in its order: the flagged optional ones, then
      `product` and `instructions`. */
  function SummaryDirectories(c: ProjectConfig): seq<string> {
    (if c.createStandards then ["standards"] else []) +
    (if c.createSpecs then ["specs"] else []) +
    (if c.createAgents then ["agents"] else []) +
    ["product", "instructions"]
  }

  /** The summary names exactly the directories the backend creates for the same
      configuration. */
  lemma {:induction false} SummaryMatchesBackend(c: ProjectConfig, d: string)
    ensures d in SummaryDirectories(c) <==> DirEntry(d) in CreatedEntries(c)
  {
    CreatedDirectories(c, d);
    var a: seq<string> := if c.createStandards then ["standards"] else [];
    var b: seq<string> := if c.createSpecs then ["specs"] else [];
    var e: seq<string> := if c.createAgents then ["agents"] else [];
    assert SummaryDirectories(c) == a + b + e + ["product", "instructions"];
  }

  /** The progress messages of the installation: five fixed ones and one per flag. */
  function InstallSteps(c: ProjectConfig): (steps: seq<string>)
    ensures |steps| == 5 + (if c.createStandards then 1 else 0) + (if c.createSpecs then 1 else 0) + (if c.createAgents then 1 else 0)
  {
    ["Creating .agent-sdd directory...", "Creating product directory...", "Creating instructions directory..."] +
    (if c.createStandards then ["Creating standards directory..."] else []) +
    (if c.createSpecs then ["Creating specs directory..."] else []) +
    (if c.createAgents then ["Creating agents directory..."] else []) +
    ["Creating configuration files...", "Installation complete!"]
  }

  /** The width of the bar at step i of n, in percent. */
  function StepWidth(i: nat, n: nat): real
    requires n > 0
  {
    ((i + 1) as real / n as real) * 100.0
  }

  /** The loop of the installation: each step shows its message and the bar's width;
      the backend is called at the first step, and when it fails the loop stops. */
  method RunSteps(steps: seq<string>, callFails: bool) returns (texts: seq<string>, widths: seq<real>, failed: bool)
    requires |steps| > 0
    ensures failed == callFails
    ensures !failed ==> texts == steps && |widths| == |steps| && widths[|widths| - 1] == 100.0
    ensures failed ==> texts == [steps[0]] && widths == [StepWidth(0, |steps|)]
    ensures forall k :: 0 <= k < |widths| ==> widths[k] == StepWidth(k, |steps|)
  {
    var n := |steps|;
    texts, widths, failed := [], [], false;
    var i := 0;
    while i < n && !failed
      invariant 0 <= i <= n
      invariant failed ==> i == 1 && callFails
      invariant callFails && i > 0 ==> failed
      invariant texts == steps[..i]
      invariant |widths| == i
      invariant forall k :: 0 <= k < i ==> widths[k] == StepWidth(k, n)
    {
      assert steps[..i + 1] == steps[..i] + [steps[i]];
      texts := texts + [steps[i]];
      widths := widths + [StepWidth(i, n)];
      if i == 0 {
        failed := callFails;
      }
      i := i + 1;
    }
    if !failed {
      assert steps[..n] == steps;
      assert StepWidth(n - 1, n) == 100.0;
    }
  }

  datatype Outcome = Installing | Succeeded | Failed

  class InstallerWizard {
    var currentStep: int
    var selectedProjectPath: string
    /** `projectConfig`, captured when leaving step 2; empty before. */
    var config: Option<ProjectConfig>
    /** The form's fields: the name and description inputs and the three checkboxes. */
    var nameInput: string
    var descriptionInput: string
    var standardsChecked: bool
    var specsChecked: bool
    var agentsChecked: bool
    var backVisible: bool
    var nextVisible: bool
    var installVisible: bool
    var nextDisabled: bool
    var installDisabled: bool
    var summary: seq<string>
    var progressTexts: seq<string>
    var progressWidths: seq<real>
    /** The backend calls made: the project path and the configuration. */
    var invocations: seq<(string, ProjectConfig)>
    var outcome: Option<Outcome>

    /** The step is 1, 2 or 3 with its buttons shown accordingly; Next is disabled at
        step 1 exactly without a chosen directory and at step 2 exactly without a name;
        steps 2 and 3 have a chosen directory, and step 3 a captured, named
        configuration. */
    predicate Valid()
      reads this
    {
      1 <= currentStep <= 3 &&
      backVisible == (currentStep != 1) && nextVisible == (currentStep != 3) && installVisible == (currentStep == 3) &&
      (currentStep == 1 ==> nextDisabled == (selectedProjectPath == "")) &&
      (currentStep == 2 ==> nextDisabled == (Trim(nameInput) == "")) &&
      (currentStep >= 2 ==> selectedProjectPath != "") &&
      (currentStep == 3 ==> config.Some? && config.value.name != "")
    }

    /** The wizard as it opens: step 1, nothing chosen, all three boxes ticked. */
    constructor()
      ensures Valid() && currentStep == 1 && nextDisabled
      ensures selectedProjectPath == "" && config.None? && nameInput == "" && descriptionInput == ""
      ensures standardsChecked && specsChecked && agentsChecked
      ensures !installDisabled && invocations == [] && outcome.None?
    {
      currentStep := 1;
      selectedProjectPath := "";
      config := None;
      nameInput, descriptionInput := "", "";
      standardsChecked, specsChecked, agentsChecked := true, true, true;
      backVisible, nextVisible, installVisible := false, true, false;
      nextDisabled := true;
      installDisabled := false;
      summary := [];
      progressTexts, progressWidths := [], [];
      invocations := [];
      outcome := None;
    }

    /** `updateNextButtonState`: at step 3 the flag is left as it was. */
    method UpdateNextButtonState()
      modifies this
      ensures nextDisabled == (if currentStep == 1 then selectedProjectPath == ""
        else if currentStep == 2 then Trim(nameInput) == "" else old(nextDisabled))
      ensures currentStep == old(currentStep) && selectedProjectPath == old(selectedProjectPath) && config == old(config)
      ensures nameInput == old(nameInput) && descriptionInput == old(descriptionInput)
      ensures standardsChecked == old(standardsChecked) && specsChecked == old(specsChecked) && agentsChecked == old(agentsChecked)
      ensures backVisible == old(backVisible) && nextVisible == old(nextVisible) && installVisible == old(installVisible)
      ensures installDisabled == old(installDisabled) && summary == old(summary)
      ensures progressTexts == old(progressTexts) && progressWidths == old(progressWidths)
      ensures invocations == old(invocations) && outcome == old(outcome)
    {
      if currentStep == 1 {
        nextDisabled := selectedProjectPath == "";
      } else if currentStep == 2 {
        nextDisabled := Trim(nameInput) == "";
      }
    }

    /** `showStep`: Back everywhere but step 1, Next everywhere but step 3, Install only
        at step 3. */
    method ShowStep(step: int)
      requires 1 <= step <= 3
      requires step >= 2 ==> selectedProjectPath != ""
      requires step == 3 ==> config.Some? && config.value.name != ""
      modifies this
      ensures Valid() && currentStep == step
      ensures nextDisabled == (if step == 1 then selectedProjectPath == ""
        else if step == 2 then Trim(nameInput) == "" else old(nextDisabled))
      ensures selectedProjectPath == old(selectedProjectPath) && config == old(config)
      ensures nameInput == old(nameInput) && descriptionInput == old(descriptionInput)
      ensures standardsChecked == old(standardsChecked) && specsChecked == old(specsChecked) && agentsChecked == old(agentsChecked)
      ensures installDisabled == old(installDisabled) && summary == old(summary)
      ensures progressTexts == old(progressTexts) && progressWidths == old(progressWidths)
      ensures invocations == old(invocations) && outcome == old(outcome)
    {
      backVisible := step != 1;
      nextVisible := step != 3;
      installVisible := step == 3;
      currentStep := step;
      UpdateNextButtonState();
    }

    /** The directory button, given the dialog's answer: a chosen path is recorded;
        a cancelled or failed dialog changes nothing. */
    method ChooseProjectDir(picked: Result<Option<string>>)
      requires Valid()
      modifies this
      ensures Valid() && currentStep == old(currentStep)
      ensures picked.Ok? && picked.value.Some? && picked.value.value != "" ==>
        selectedProjectPath == picked.value.value
      ensures !(picked.Ok? && picked.value.Some? && picked.value.value != "") ==> unchanged(this)
      ensures config == old(config) && invocations == old(invocations)
    {
      if picked.Ok? && picked.value.Some? && picked.value.value != "" {
        selectedProjectPath := picked.value.value;
        UpdateNextButtonState();
      }
    }

    /** Typing in the name field. */
    method TypeName(text: string)
      requires Valid()
      modifies this
      ensures Valid() && currentStep == old(currentStep) && nameInput == text
      ensures selectedProjectPath == old(selectedProjectPath) && config == old(config) && invocations == old(invocations)
    {
      nameInput := text;
      UpdateNextButtonState();
    }

    /** Filling in the description and the boxes, which no handler watches. */
    method EditForm(description: string, standards: bool, specs: bool, agents: bool)
      requires Valid()
      modifies this
      ensures Valid() && currentStep == old(currentStep)
      ensures descriptionInput == description
      ensures standardsChecked == standards && specsChecked == specs && agentsChecked == agents
      ensures selectedProjectPath == old(selectedProjectPath) && config == old(config) && invocations == old(invocations)
    {
      descriptionInput := description;
      standardsChecked, specsChecked, agentsChecked := standards, specs, agents;
    }

    /** Back: one step back, never below step 1. */
    method Back()
      requires Valid()
      modifies this
      ensures Valid()
      ensures currentStep == (if old(currentStep) > 1 then old(currentStep) - 1 else 1)
      ensures selectedProjectPath == old(selectedProjectPath) && config == old(config) && invocations == old(invocations)
    {
      if currentStep > 1 {
        ShowStep(currentStep - 1);
      }
    }

    /** Next, when the button can be clicked (shown and enabled): from step 1 with a
        chosen directory to step 2; from step 2, capturing the trimmed name and
        description and the boxes, to step 3 with the summary. */
    method Next()
      requires Valid()
      modifies this
      ensures Valid()
      ensures old(nextVisible) && !old(nextDisabled) && old(currentStep) == 1 ==> currentStep == 2
      ensures old(nextVisible) && !old(nextDisabled) && old(currentStep) == 2 ==>
        currentStep == 3 &&
        config == Some(ProjectConfig(Trim(nameInput), Trim(descriptionInput), standardsChecked, specsChecked, agentsChecked)) &&
        summary == SummaryDirectories(config.value)
      ensures !(old(nextVisible) && !old(nextDisabled)) ==> unchanged(this)
      ensures selectedProjectPath == old(selectedProjectPath) && invocations == old(invocations)
    {
      if !nextVisible || nextDisabled {
        return;
      }
      if currentStep == 1 {
        ShowStep(2);
      } else if currentStep == 2 {
        CaptureConfig();
        ShowStep(3);
      }
    }

    /** Leaving step 2: the configuration taken from the form, and its summary. */
    method CaptureConfig()
      requires Valid() && currentStep == 2 && !nextDisabled
      modifies this`config, this`summary
      ensures config == Some(ProjectConfig(Trim(nameInput), Trim(descriptionInput), standardsChecked, specsChecked, agentsChecked))
      ensures config.value.name != ""
      ensures summary == SummaryDirectories(config.value)
    {
      config := Some(ProjectConfig(Trim(nameInput), Trim(descriptionInput), standardsChecked, specsChecked, agentsChecked));
      summary := SummaryDirectories(config.value);
    }

    /** `performInstallation` given the backend's answer: one progress step per
        message, the backend called once at the first; on failure the loop stops there
        and Install is enabled again. */
    method PerformInstallation(answer: Result<string>)
      requires Valid()
      modifies this`installDisabled, this`outcome, this`progressTexts, this`progressWidths, this`invocations
      ensures Valid()
      ensures !old(installVisible) || old(installDisabled) ==> unchanged(this)
      ensures old(installVisible) && !old(installDisabled) ==>
        var steps := InstallSteps(config.value);
        invocations == old(invocations) + [(selectedProjectPath, config.value)] &&
        (answer.Ok? ==>
          outcome == Some(Succeeded) && installDisabled &&
          progressTexts == old(progressTexts) + steps &&
          |progressWidths| == |old(progressWidths)| + |steps| &&
          progressWidths[|progressWidths| - 1] == 100.0) &&
        (answer.Err? ==>
          outcome == Some(Failed) && !installDisabled &&
          progressTexts == old(progressTexts) + [steps[0]] &&
          progressWidths == old(progressWidths) + [StepWidth(0, |steps|)])
    {
      if !installVisible || installDisabled {
        return;
      }
      var c := config.value;
      installDisabled := true;
      outcome := Some(Installing);
      var steps := InstallSteps(c);
      var texts, widths, failed := RunSteps(steps, answer.Err?);
      invocations := invocations + [(selectedProjectPath, c)];
      if failed {
        outcome := Some(Failed);
        installDisabled := false;
      } else {
        outcome := Some(Succeeded);
      }
      progressTexts, progressWidths := progressTexts + texts, progressWidths + widths;
    }
  }
}
