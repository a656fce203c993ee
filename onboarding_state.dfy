/** The `EmployeeState` record of src/models/onboarding_state.py as the dictionary the
    program actually passes around: any key may be absent, so every field is an Option. */
module OnboardingState {
  import opened Wrappers

  /** The nine keys of the record. */
  datatype Field =
    | Name | Role | Department | StartDate | AccessLevels | Skills
    | WelcomePackage | TrainingMaterials | FinalPackage
  {
    /** The dictionary key the source writes for this field. */
    function Key(): string {
      match this
      case Name => "name"
      case Role => "role"
      case Department => "department"
      case StartDate => "start_date"
      case AccessLevels => "access_levels"
      case Skills => "skills"
      case WelcomePackage => "welcome_package"
      case TrainingMaterials => "training_materials"
      case FinalPackage => "final_package"
    }
  }

  /** The three keys the chain steps fill in. */
  predicate IsProgressive(f: Field) {
    f.WelcomePackage? || f.TrainingMaterials? || f.FinalPackage?
  }

  type ProgressiveField = f: Field | IsProgressive(f) witness WelcomePackage

  /** A value stored in the dictionary: a string or a list of strings. */
  datatype Value = Str(s: string) | StrList(items: seq<string>)

  datatype EmployeeState = EmployeeState(
    name: Option<string>,
    role: Option<string>,
    department: Option<string>,
    startDate: Option<string>,
    accessLevels: Option<seq<string>>,
    skills: Option<seq<string>>,
    welcomePackage: Option<string>,
    trainingMaterials: Option<string>,
    finalPackage: Option<string>)

  function AsStr(o: Option<string>): Option<Value> {
    match o
    case None => None
    case Some(s) => Some(Str(s))
  }

  function AsList(o: Option<seq<string>>): Option<Value> {
    match o
    case None => None
    case Some(xs) => Some(StrList(xs))
  }

  /** `state.get(key)`: the value under a key, None when the key is absent. */
  function Get(s: EmployeeState, f: Field): Option<Value> {
    match f
    case Name => AsStr(s.name)
    case Role => AsStr(s.role)
    case Department => AsStr(s.department)
    case StartDate => AsStr(s.startDate)
    case AccessLevels => AsList(s.accessLevels)
    case Skills => AsList(s.skills)
    case WelcomePackage => AsStr(s.welcomePackage)
    case TrainingMaterials => AsStr(s.trainingMaterials)
    case FinalPackage => AsStr(s.finalPackage)
  }

  /** A state is determined by what `get` returns for each key. */
  lemma GetDetermines(s: EmployeeState, t: EmployeeState)
    requires forall f :: Get(s, f) == Get(t, f)
    ensures s == t
  {
    assert Get(s, Name) == Get(t, Name) && Get(s, Role) == Get(t, Role);
    assert Get(s, Department) == Get(t, Department) && Get(s, StartDate) == Get(t, StartDate);
    assert Get(s, AccessLevels) == Get(t, AccessLevels) && Get(s, Skills) == Get(t, Skills);
    assert Get(s, WelcomePackage) == Get(t, WelcomePackage);
    assert Get(s, TrainingMaterials) == Get(t, TrainingMaterials);
    assert Get(s, FinalPackage) == Get(t, FinalPackage);
  }

  /** The one-key dictionary `{key: value}` a chain step returns. */
  datatype Fragment = Fragment(field: ProgressiveField, value: string)

  /** `state.update(fragment)`: the fragment's key now holds its value; every other key
      keeps what it had. */
  function Merge(s: EmployeeState, fragment: Fragment): (r: EmployeeState)
    ensures Get(r, fragment.field) == Some(Str(fragment.value))
    ensures forall f :: f != fragment.field ==> Get(r, f) == Get(s, f)
  {
    match fragment.field
    case WelcomePackage => s.(welcomePackage := Some(fragment.value))
    case TrainingMaterials => s.(trainingMaterials := Some(fragment.value))
    case FinalPackage => s.(finalPackage := Some(fragment.value))
  }
}
