/** `OnboardingChain` of src/chains/onboarding_chain.py: the requirements check and the
    three generation steps.  Each step builds its prompt from the state, hands it to the
    generation client, and returns a one-key fragment; none of them changes the state. */
module OnboardingChain {
  import opened Wrappers
  import opened Errors
  import opened Text
  import opened RouterClient
  import opened OnboardingState

  /** The client's `generate`, as the chain sees it. */
  type Generator = string -> Result<Reply, Error>

  datatype Verdict = Pass | Fail

  // ---------------------------------------------------------------- validate_requirements

  const RequiredFields: seq<Field> := [Name, Role, Department, StartDate]

  /** Python truthiness of `state.get(key)`: absent, `''` and `[]` are false. */
  predicate Truthy(v: Option<Value>) {
    match v
    case None => false
    case Some(Str(s)) => s != ""
    case Some(StrList(xs)) => xs != []
  }

  /** Lines 86-89. */
  function ValidateRequirements(s: EmployeeState): Verdict {
    if forall i :: 0 <= i < |RequiredFields| ==> Truthy(Get(s, RequiredFields[i])) then Pass else Fail
  }

  predicate Filled(o: Option<string>) {
    o.Some? && o.value != ""
  }

  /** The check passes exactly when name, role, department and start date are all present
      and non-empty. */
  lemma ValidatePassIff(s: EmployeeState)
    ensures ValidateRequirements(s) == Pass <==>
      Filled(s.name) && Filled(s.role) && Filled(s.department) && Filled(s.startDate)
  {
    var fs := RequiredFields;
    assert fs[0] == Name && fs[1] == Role && fs[2] == Department && fs[3] == StartDate;
  }

  /** The check looks at nothing but the four required fields. */
  lemma ValidateIgnoresOtherFields(s: EmployeeState, t: EmployeeState)
    requires s.name == t.name && s.role == t.role && s.department == t.department && s.startDate == t.startDate
    ensures ValidateRequirements(s) == ValidateRequirements(t)
  {
    ValidatePassIff(s);
    ValidatePassIff(t);
  }

  // ---------------------------------------------------------------- prompts

  /** `state[key]`: the value, or a KeyError when the key is absent. */
  function Require<T>(o: Option<T>, f: Field): Result<T, Error> {
    match o
    case Some(v) => Success(v)
    case None => Failure(KeyError(f.Key()))
  }

  /** An f-string: its literal chunks with the interpolated values between them. */
  function Interpolate(chunks: seq<string>, values: seq<string>): string
    requires |chunks| == |values| + 1
    decreases |values|
  {
    if |values| == 0 then chunks[0]
    else chunks[0] + values[0] + Interpolate(chunks[1..], values[1..])
  }

  /** An f-string holds its interpolated values verbatim, in order. */
  lemma {:induction false} InterpolateInOrder(chunks: seq<string>, values: seq<string>)
    requires |chunks| == |values| + 1
    ensures InOrder(Interpolate(chunks, values), values)
    decreases |values|
  {
    if |values| > 0 {
      InterpolateInOrder(chunks[1..], values[1..]);
      InOrderCons(chunks[0], values[0], Interpolate(chunks[1..], values[1..]), values[1..]);
      assert [values[0]] + values[1..] == values;
    }
  }

  /** The literal text of the template at lines 25-31; the continuation lines of the
      triple-quoted string keep their eight spaces of indentation. */
  const WelcomeChunks: seq<string> := [
    "Create a personalized welcome package for:\n        Name: ",
    "\n        Role: ",
    "\n        Department: ",
    "\n        Start Date: ",
    "\n        \n        Include: Welcome message, first-day schedule, and key contacts."]

  /** Lines 46-51. */
  const TrainingChunks: seq<string> := [
    "Create training materials for:\n        Role: ",
    "\n        Skills: ",
    "\n        Department: ",
    "\n        \n        Include: Learning path, required training modules, and skill assessments."]

  /** Lines 66-71. */
  const FinalChunks: seq<string> := [
    "Create a final onboarding package combining:\n        Welcome Package: ",
    "\n        Training Materials: ",
    "\n        Access Levels: ",
    "\n        \n        Format as a structured onboarding plan with timeline."]

  function WelcomeText(name: string, role: string, department: string, startDate: string): string {
    Interpolate(WelcomeChunks, [name, role, department, startDate])
  }

  /** `', '.join(state['skills'])` fills the second hole. */
  function TrainingText(role: string, skills: seq<string>, department: string): string {
    Interpolate(TrainingChunks, [role, Join(", ", skills), department])
  }

  function FinalText(welcome: string, training: string, accessLevels: seq<string>): string {
    Interpolate(FinalChunks, [welcome, training, Join(", ", accessLevels)])
  }

  /** An f-string ends with its last literal chunk. */
  lemma {:induction false} InterpolateEndsWith(chunks: seq<string>, values: seq<string>)
    requires |chunks| == |values| + 1
    ensures var tail, r := chunks[|chunks| - 1], Interpolate(chunks, values);
      |tail| <= |r| && r[|r| - |tail|..] == tail
    decreases |values|
  {
    if |values| > 0 {
      var rest := Interpolate(chunks[1..], values[1..]);
      InterpolateEndsWith(chunks[1..], values[1..]);
      var head := chunks[0] + values[0];
      assert Interpolate(chunks, values) == head + rest;
      assert (head + rest)[|head + rest| - |chunks[|chunks| - 1]|..] == rest[|rest| - |chunks[|chunks| - 1]|..];
    }
  }

  /** Characters near the end of the three closing chunks, where they differ. */
  lemma TemplateEndings()
    ensures var c := WelcomeChunks[4]; |c| >= 4 && c[|c| - 2] == 's' && c[|c| - 4] == 'c'
    ensures var c := TrainingChunks[3]; |c| >= 4 && c[|c| - 2] == 's' && c[|c| - 4] == 'n'
    ensures var c := FinalChunks[3]; |c| >= 4 && c[|c| - 2] == 'e'
  {
  }

  /** The three prompt texts never coincide, whatever is interpolated into them: their
      fixed closing lines already differ, so within one run the generator is asked three
      different questions. */
  lemma PromptsDistinct(name: string, role: string, department: string, startDate: string,
                        skills: seq<string>, welcome: string, training: string, accessLevels: seq<string>)
    ensures WelcomeText(name, role, department, startDate) != TrainingText(role, skills, department)
    ensures WelcomeText(name, role, department, startDate) != FinalText(welcome, training, accessLevels)
    ensures TrainingText(role, skills, department) != FinalText(welcome, training, accessLevels)
  {
    var w := WelcomeText(name, role, department, startDate);
    var t := TrainingText(role, skills, department);
    var f := FinalText(welcome, training, accessLevels);
    InterpolateEndsWith(WelcomeChunks, [name, role, department, startDate]);
    InterpolateEndsWith(TrainingChunks, [role, Join(", ", skills), department]);
    InterpolateEndsWith(FinalChunks, [welcome, training, Join(", ", accessLevels)]);
    TemplateEndings();
    var cw, ct, cf := WelcomeChunks[4], TrainingChunks[3], FinalChunks[3];
    assert w[|w| - 2] == cw[|cw| - 2] && w[|w| - 4] == cw[|cw| - 4];
    assert t[|t| - 2] == ct[|ct| - 2] && t[|t| - 4] == ct[|ct| - 4];
    assert f[|f| - 2] == cf[|cf| - 2];
  }

  /** The welcome prompt, with the fields read in the order the f-string reads them. */
  function WelcomePrompt(s: EmployeeState): Result<string, Error> {
    var name :- Require(s.name, Name);
    var role :- Require(s.role, Role);
    var department :- Require(s.department, Department);
    var startDate :- Require(s.startDate, StartDate);
    Success(WelcomeText(name, role, department, startDate))
  }

  function TrainingPrompt(s: EmployeeState): Result<string, Error> {
    var role :- Require(s.role, Role);
    var skills :- Require(s.skills, Skills);
    var department :- Require(s.department, Department);
    Success(TrainingText(role, skills, department))
  }

  function FinalPrompt(s: EmployeeState): Result<string, Error> {
    var welcome :- Require(s.welcomePackage, WelcomePackage);
    var training :- Require(s.trainingMaterials, TrainingMaterials);
    var accessLevels :- Require(s.accessLevels, AccessLevels);
    Success(FinalText(welcome, training, accessLevels))
  }

  /** The welcome prompt exists exactly when name, role, department and start date are
      present, and holds them verbatim, in that order; otherwise the KeyError names the
      first absent key in the order the f-string reads them. */
  lemma WelcomePromptSpec(s: EmployeeState)
    ensures WelcomePrompt(s).Success? <==> s.name.Some? && s.role.Some? && s.department.Some? && s.startDate.Some?
    ensures s.name.None? ==> WelcomePrompt(s) == Failure(KeyError("name"))
    ensures s.name.Some? && s.role.None? ==> WelcomePrompt(s) == Failure(KeyError("role"))
    ensures s.name.Some? && s.role.Some? && s.department.None? ==> WelcomePrompt(s) == Failure(KeyError("department"))
    ensures s.name.Some? && s.role.Some? && s.department.Some? && s.startDate.None? ==>
      WelcomePrompt(s) == Failure(KeyError("start_date"))
    ensures WelcomePrompt(s).Success? ==>
      InOrder(WelcomePrompt(s).value, [s.name.value, s.role.value, s.department.value, s.startDate.value])
  {
    if WelcomePrompt(s).Success? {
      InterpolateInOrder(WelcomeChunks, [s.name.value, s.role.value, s.department.value, s.startDate.value]);
    }
  }

  /** The training prompt exists exactly when role, skills and department are present, and
      holds the role, the skills joined by ", " in list order, and the department, in order;
      otherwise the KeyError names the first absent key. */
  lemma TrainingPromptSpec(s: EmployeeState)
    ensures TrainingPrompt(s).Success? <==> s.role.Some? && s.skills.Some? && s.department.Some?
    ensures s.role.None? ==> TrainingPrompt(s) == Failure(KeyError("role"))
    ensures s.role.Some? && s.skills.None? ==> TrainingPrompt(s) == Failure(KeyError("skills"))
    ensures s.role.Some? && s.skills.Some? && s.department.None? ==> TrainingPrompt(s) == Failure(KeyError("department"))
    ensures TrainingPrompt(s).Success? ==>
      InOrder(TrainingPrompt(s).value, [s.role.value, Join(", ", s.skills.value), s.department.value])
  {
    if TrainingPrompt(s).Success? {
      InterpolateInOrder(TrainingChunks, [s.role.value, Join(", ", s.skills.value), s.department.value]);
    }
  }

  /** The final prompt exists exactly when both generated fields and the access levels are
      present, and holds the welcome package, the training materials and the access levels
      joined by ", " in list order, in that order; otherwise the KeyError names the first
      absent key. */
  lemma FinalPromptSpec(s: EmployeeState)
    ensures FinalPrompt(s).Success? <==> s.welcomePackage.Some? && s.trainingMaterials.Some? && s.accessLevels.Some?
    ensures s.welcomePackage.None? ==> FinalPrompt(s) == Failure(KeyError("welcome_package"))
    ensures s.welcomePackage.Some? && s.trainingMaterials.None? ==> FinalPrompt(s) == Failure(KeyError("training_materials"))
    ensures s.welcomePackage.Some? && s.trainingMaterials.Some? && s.accessLevels.None? ==>
      FinalPrompt(s) == Failure(KeyError("access_levels"))
    ensures FinalPrompt(s).Success? ==>
      InOrder(FinalPrompt(s).value, [s.welcomePackage.value, s.trainingMaterials.value, Join(", ", s.accessLevels.value)])
  {
    if FinalPrompt(s).Success? {
      InterpolateInOrder(FinalChunks, [s.welcomePackage.value, s.trainingMaterials.value, Join(", ", s.accessLevels.value)]);
    }
  }

  // ---------------------------------------------------------------- steps

  /** Lines 15-34. */
  function WelcomeStep(s: EmployeeState, generate: Generator): Result<Fragment, Error> {
    var prompt :- WelcomePrompt(s);
    var response :- generate(prompt);
    Success(Fragment(WelcomePackage, response.message.content))
  }

  /** Lines 36-54. */
  function TrainingStep(s: EmployeeState, generate: Generator): Result<Fragment, Error> {
    var prompt :- TrainingPrompt(s);
    var response :- generate(prompt);
    Success(Fragment(TrainingMaterials, response.message.content))
  }

  /** Lines 56-74. */
  function FinalStep(s: EmployeeState, generate: Generator): Result<Fragment, Error> {
    var prompt :- FinalPrompt(s);
    var response :- generate(prompt);
    Success(Fragment(FinalPackage, response.message.content))
  }

  /** With its keys present, each step asks the generator for exactly its template text:
      it succeeds exactly when that call does, the fragment is the step's own key holding
      the reply's `message.content`, and a failure of the call is the step's failure. */
  lemma StepsUseTemplates(s: EmployeeState, generate: Generator)
    ensures s.name.Some? && s.role.Some? && s.department.Some? && s.startDate.Some? ==>
      var reply := generate(WelcomeText(s.name.value, s.role.value, s.department.value, s.startDate.value));
      && (WelcomeStep(s, generate).Success? <==> reply.Success?)
      && (reply.Success? ==> WelcomeStep(s, generate).value == Fragment(WelcomePackage, reply.value.message.content))
      && (reply.Failure? ==> WelcomeStep(s, generate).error == reply.error)
    ensures s.role.Some? && s.skills.Some? && s.department.Some? ==>
      var reply := generate(TrainingText(s.role.value, s.skills.value, s.department.value));
      && (TrainingStep(s, generate).Success? <==> reply.Success?)
      && (reply.Success? ==> TrainingStep(s, generate).value == Fragment(TrainingMaterials, reply.value.message.content))
      && (reply.Failure? ==> TrainingStep(s, generate).error == reply.error)
    ensures s.welcomePackage.Some? && s.trainingMaterials.Some? && s.accessLevels.Some? ==>
      var reply := generate(FinalText(s.welcomePackage.value, s.trainingMaterials.value, s.accessLevels.value));
      && (FinalStep(s, generate).Success? <==> reply.Success?)
      && (reply.Success? ==> FinalStep(s, generate).value == Fragment(FinalPackage, reply.value.message.content))
      && (reply.Failure? ==> FinalStep(s, generate).error == reply.error)
  {
  }

  /** A step whose keys are missing fails with the KeyError of its prompt. */
  lemma StepsNeedTheirKeys(s: EmployeeState, generate: Generator)
    ensures WelcomePrompt(s).Failure? ==> WelcomeStep(s, generate) == Failure(WelcomePrompt(s).error)
    ensures TrainingPrompt(s).Failure? ==> TrainingStep(s, generate) == Failure(TrainingPrompt(s).error)
    ensures FinalPrompt(s).Failure? ==> FinalStep(s, generate) == Failure(FinalPrompt(s).error)
  {
  }

  /** Each step reads only the keys its prompt interpolates: states that agree on them give
      the same result, whatever the other keys hold. */
  lemma StepsReadOnlyTheirKeys(s: EmployeeState, t: EmployeeState, generate: Generator)
    ensures s.name == t.name && s.role == t.role && s.department == t.department && s.startDate == t.startDate ==>
      WelcomeStep(s, generate) == WelcomeStep(t, generate)
    ensures s.role == t.role && s.skills == t.skills && s.department == t.department ==>
      TrainingStep(s, generate) == TrainingStep(t, generate)
    ensures (s.welcomePackage == t.welcomePackage && s.trainingMaterials == t.trainingMaterials
             && s.accessLevels == t.accessLevels) ==>
      FinalStep(s, generate) == FinalStep(t, generate)
  {
  }

  /** A generator that echoes its prompt makes the welcome step return a text holding
      the four fields verbatim, in order. */
  lemma EchoedWelcomeHoldsFields(s: EmployeeState)
    requires s.name.Some? && s.role.Some? && s.department.Some? && s.startDate.Some?
    ensures var echo := (p: string) => Success(Reply(Message(p)));
      && WelcomeStep(s, echo).Success?
      && InOrder(WelcomeStep(s, echo).value.value,
                 [s.name.value, s.role.value, s.department.value, s.startDate.value])
  {
    WelcomePromptSpec(s);
  }
}
