/** The workflow in `main` (src/main.py:30-60): validate the employee dictionary, then run
    the three steps in order, merging each fragment into the same dictionary in place; an
    exception from any step ends the run and leaves whatever was merged before it. */
module Driver {
  import opened Wrappers
  import opened Errors
  import opened Text
  import opened RouterClient
  import opened OnboardingState
  import opened OnboardingChain

  /** How a run ends, that is, which message `main` prints. */
  datatype Outcome =
      /** "Error: Missing required employee information" */
    | MissingInformation
      /** The final package, printed under "Final Onboarding Package:" */
    | Completed(finalPackage: string)
      /** "Error during onboarding process: ..." */
    | Aborted(error: Error)

  /** A whole run: how it ended, the dictionary afterwards, and the prompts the generator
      was asked, in order. */
  datatype Run = Run(outcome: Outcome, state: EmployeeState, prompts: seq<string>)

  /** The prompt handed to the generator, when building it did not raise. */
  function Sent(prompt: Result<string, Error>): seq<string> {
    if prompt.Success? then [prompt.value] else []
  }

  /** The run as a function of the initial dictionary and the generator. */
  function Onboard(s: EmployeeState, generate: Generator): Run {
    if ValidateRequirements(s) == Fail then Run(MissingInformation, s, [])
    else
      var sent1 := Sent(WelcomePrompt(s));
      match WelcomeStep(s, generate)
      case Failure(e) => Run(Aborted(e), s, sent1)
      case Success(welcome) =>
        var s1 := Merge(s, welcome);
        var sent2 := sent1 + Sent(TrainingPrompt(s1));
        match TrainingStep(s1, generate)
        case Failure(e) => Run(Aborted(e), s1, sent2)
        case Success(training) =>
          var s2 := Merge(s1, training);
          var sent3 := sent2 + Sent(FinalPrompt(s2));
          match FinalStep(s2, generate)
          case Failure(e) => Run(Aborted(e), s2, sent3)
          case Success(final) => Run(Completed(final.value), Merge(s2, final), sent3)
  }

  /** The `employee_data` dictionary, which `main` updates in place. */
  class EmployeeData {
    var state: EmployeeState

    constructor (initial: EmployeeState)
      ensures state == initial
    {
      state := initial;
    }

    /** `employee_data.update(fragment)`. */
    method Update(fragment: Fragment)
      modifies this
      ensures state == Merge(old(state), fragment)
    {
      state := Merge(state, fragment);
    }
  }

  /** Lines 30-60 with the printing left out. */
  method RunOnboarding(data: EmployeeData, generate: Generator) returns (outcome: Outcome, ghost prompts: seq<string>)
    modifies data
    ensures Run(outcome, data.state, prompts) == Onboard(old(data.state), generate)
  {
    prompts := [];
    if ValidateRequirements(data.state) == Fail {
      outcome := MissingInformation;
      return;
    }
    prompts := prompts + Sent(WelcomePrompt(data.state));
    var welcome := WelcomeStep(data.state, generate);
    if welcome.Failure? {
      outcome := Aborted(welcome.error);
      return;
    }
    data.Update(welcome.value);

    prompts := prompts + Sent(TrainingPrompt(data.state));
    var training := TrainingStep(data.state, generate);
    if training.Failure? {
      outcome := Aborted(training.error);
      return;
    }
    data.Update(training.value);

    prompts := prompts + Sent(FinalPrompt(data.state));
    var final := FinalStep(data.state, generate);
    if final.Failure? {
      outcome := Aborted(final.error);
      return;
    }
    data.Update(final.value);
    outcome := Completed(data.state.finalPackage.value);
  }

  // ---------------------------------------------------------------- properties of a run

  /** The content the generator gives for a prompt, when it gives one. */
  function ContentFor(generate: Generator, prompt: string): string
    requires generate(prompt).Success?
  {
    generate(prompt).value.message.content
  }

  /** A failed check invokes no step and leaves the dictionary as it was. */
  lemma OnboardRejects(s: EmployeeState, generate: Generator)
    requires !(Filled(s.name) && Filled(s.role) && Filled(s.department) && Filled(s.startDate))
    ensures Onboard(s, generate) == Run(MissingInformation, s, [])
  {
    ValidatePassIff(s);
  }

  /** Only the three generated keys can change; the six input fields come out as they went in. */
  lemma OnboardKeepsInputs(s: EmployeeState, generate: Generator)
    ensures forall f :: !IsProgressive(f) ==> Get(Onboard(s, generate).state, f) == Get(s, f)
  {
  }

  /** A run completes exactly when the check passes, skills and access levels are present,
      and the generator answers the welcome, training and final prompts, each built from
      the dictionary as the previous merge left it; the dictionary then holds the three
      answers under their keys and nothing else has changed. */
  lemma OnboardCompletes(s: EmployeeState, generate: Generator)
    ensures var r := Onboard(s, generate);
      r.outcome.Completed? <==>
        && Filled(s.name) && Filled(s.role) && Filled(s.department) && Filled(s.startDate)
        && s.skills.Some? && s.accessLevels.Some?
        && var p1 := WelcomeText(s.name.value, s.role.value, s.department.value, s.startDate.value);
           var p2 := TrainingText(s.role.value, s.skills.value, s.department.value);
           && generate(p1).Success? && generate(p2).Success?
           && generate(FinalText(ContentFor(generate, p1), ContentFor(generate, p2), s.accessLevels.value)).Success?
    ensures var r := Onboard(s, generate);
      r.outcome.Completed? ==>
        var p1 := WelcomeText(s.name.value, s.role.value, s.department.value, s.startDate.value);
        var p2 := TrainingText(s.role.value, s.skills.value, s.department.value);
        var w := ContentFor(generate, p1);
        var t := ContentFor(generate, p2);
        var p3 := FinalText(w, t, s.accessLevels.value);
        var f := ContentFor(generate, p3);
        && r.prompts == [p1, p2, p3]
        && r.outcome == Completed(f)
        && r.state == s.(welcomePackage := Some(w), trainingMaterials := Some(t), finalPackage := Some(f))
  {
    ValidatePassIff(s);
    WelcomePromptSpec(s);
    if ValidateRequirements(s) == Pass && WelcomeStep(s, generate).Success? {
      var s1 := Merge(s, WelcomeStep(s, generate).value);
      assert s1 == s.(welcomePackage := s1.welcomePackage);
      if TrainingStep(s1, generate).Success? {
        var s2 := Merge(s1, TrainingStep(s1, generate).value);
        assert s2 == s1.(trainingMaterials := s2.trainingMaterials);
      }
    }
  }

  /** A failing step ends the run with its exception: later steps are never asked, the
      fields merged by earlier steps stay, the failing step's key and later ones keep what
      they had before the run, and the prompts sent are exactly those of the steps reached. */
  lemma OnboardAborts(s: EmployeeState, generate: Generator)
    requires Filled(s.name) && Filled(s.role) && Filled(s.department) && Filled(s.startDate)
    ensures var r := Onboard(s, generate);
      WelcomeStep(s, generate).Failure? ==>
        && r.outcome == Aborted(WelcomeStep(s, generate).error)
        && r.state == s
        && r.prompts == [WelcomeText(s.name.value, s.role.value, s.department.value, s.startDate.value)]
    ensures var r := Onboard(s, generate);
      WelcomeStep(s, generate).Success? ==>
        var p1 := WelcomeText(s.name.value, s.role.value, s.department.value, s.startDate.value);
        var w := WelcomeStep(s, generate).value.value;
        var s1 := s.(welcomePackage := Some(w));
        TrainingStep(s1, generate).Failure? ==>
          && r.outcome == Aborted(TrainingStep(s1, generate).error)
          && r.state == s1
          && r.prompts == [p1] + Sent(TrainingPrompt(s1))
    ensures var r := Onboard(s, generate);
      WelcomeStep(s, generate).Success? ==>
        var p1 := WelcomeText(s.name.value, s.role.value, s.department.value, s.startDate.value);
        var w := WelcomeStep(s, generate).value.value;
        var s1 := s.(welcomePackage := Some(w));
        TrainingStep(s1, generate).Success? ==>
          && s.skills.Some?
          && var p2 := TrainingText(s.role.value, s.skills.value, s.department.value);
             var s2 := s1.(trainingMaterials := Some(TrainingStep(s1, generate).value.value));
             FinalStep(s2, generate).Failure? ==>
               && r.outcome == Aborted(FinalStep(s2, generate).error)
               && r.state == s2
               && r.prompts == [p1, p2] + Sent(FinalPrompt(s2))
  {
    ValidatePassIff(s);
    WelcomePromptSpec(s);
    if WelcomeStep(s, generate).Success? {
      var s1 := s.(welcomePackage := Some(WelcomeStep(s, generate).value.value));
      TrainingPromptSpec(s1);
    }
  }

  /** The scenario of a generator that answers the welcome prompt and fails on the
      training prompt: the welcome package is stored, training materials and final package
      stay absent, exactly the welcome and training prompts are sent, and the failure is what
      the run reports. */
  lemma OnboardFailsOnSecondCall(s: EmployeeState, generate: Generator, e: Error)
    requires Filled(s.name) && Filled(s.role) && Filled(s.department) && Filled(s.startDate)
    requires s.skills.Some? && s.trainingMaterials.None? && s.finalPackage.None?
    requires generate(WelcomeText(s.name.value, s.role.value, s.department.value, s.startDate.value)).Success?
    requires generate(TrainingText(s.role.value, s.skills.value, s.department.value)) == Failure(e)
    ensures var r := Onboard(s, generate);
      var p1 := WelcomeText(s.name.value, s.role.value, s.department.value, s.startDate.value);
      var p2 := TrainingText(s.role.value, s.skills.value, s.department.value);
      && r.outcome == Aborted(e)
      && r.state == s.(welcomePackage := Some(ContentFor(generate, p1)))
      && r.state.trainingMaterials.None? && r.state.finalPackage.None?
      && r.prompts == [p1, p2]
  {
    ValidatePassIff(s);
    WelcomePromptSpec(s);
    var s1 := s.(welcomePackage := Some(WelcomeStep(s, generate).value.value));
    TrainingPromptSpec(s1);
  }

  /** The sample employee of main.py. */
  function SampleEmployee(): EmployeeState {
    EmployeeState(
      Some("Alice Smith"), Some("Full Stack Developer"), Some("Engineering"), Some("2024-03-15"),
      Some(["github", "jira", "aws", "slack"]), Some(["python", "javascript", "react", "docker"]),
      None, None, None)
  }

  /** The sample passes the check, so its run asks the generator for all three steps
      unless one fails. */
  lemma SamplePasses()
    ensures ValidateRequirements(SampleEmployee()) == Pass
  {
    ValidatePassIff(SampleEmployee());
  }

  /** A backend that always answers with a reasoning block followed by ` OK `. */
  function ThinkingBackend(call: HttpCall): Exchange {
    Responded(HttpResponse(200, "", Some("<think>plan</think> OK ")))
  }

  /** The client turns that answer into the content `OK`, for every prompt. */
  lemma ThinkingBackendAnswersOk(config: Config, prompt: string)
    ensures Client(config, ThinkingBackend)(prompt) == Success(Reply(Message("OK")))
  {
    ThinkingAnswerStripped();
    OkFormatted();
  }

  /** A generator that answers every prompt with the same content `c` completes any run
      that passes the check and has skills and access levels, with `c` under all three
      generated keys, after exactly three prompts. */
  lemma OnboardUniformAnswer(s: EmployeeState, generate: Generator, c: string)
    requires Filled(s.name) && Filled(s.role) && Filled(s.department) && Filled(s.startDate)
    requires s.skills.Some? && s.accessLevels.Some?
    requires forall prompt :: generate(prompt) == Success(Reply(Message(c)))
    ensures var r := Onboard(s, generate);
      && r.outcome == Completed(c)
      && r.state == s.(welcomePackage := Some(c), trainingMaterials := Some(c), finalPackage := Some(c))
      && |r.prompts| == 3
  {
    OnboardCompletes(s, generate);
  }

  /** The sample employee, run end to end against that backend, completes with `OK` as
      each of the three generated packages, after exactly three prompts. */
  lemma SampleRunsEndToEnd(config: Config)
    ensures var r := Onboard(SampleEmployee(), Client(config, ThinkingBackend));
      && r.outcome == Completed("OK")
      && r.state == SampleEmployee().(welcomePackage := Some("OK"), trainingMaterials := Some("OK"), finalPackage := Some("OK"))
      && |r.prompts| == 3
  {
    var generate := Client(config, ThinkingBackend);
    forall prompt: string
      ensures generate(prompt) == Success(Reply(Message("OK")))
    {
      ThinkingBackendAnswersOk(config, prompt);
    }
    OnboardUniformAnswer(SampleEmployee(), generate, "OK");
  }
}
