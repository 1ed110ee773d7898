/** The prediction page: the student form's answers are turned into the
    twelve-field input the pre-trained classifier expects, and the class label
    it returns is turned back into an outcome name. The classifier itself is
    a parameter: the model only fixes what it is given and how its answer is
    read. */
module Prediction {
  import opened Outcomes
  import opened Catalogs
  import opened Table

  /** What the form submits, one field per input widget. Grades are copied,
      never computed with, so they stay `real`s here. */
  datatype FormInput = FormInput(
    course: string,
    previousGrade: real,
    admissionGrade: real,
    tuitionUpToDate: string,
    age: int,
    scholarshipHolder: string,
    firstSemGrade: real,
    secondSemGrade: real,
    firstSemEvaluations: int,
    secondSemEvaluations: int,
    secondSemApproved: int,
    fatherOccupation: string)

  /** Why a submission yields no outcome: the `[0]` of a reverse lookup on a
      name that is in no catalog (an IndexError), a Yes/No answer missing from
      its dictionary, or a class label missing from the label dictionary (both
      KeyErrors). */
  datatype Failure =
    | UnknownCourse(course: string)
    | UnknownOccupation(occupation: string)
    | UnknownAnswer(answer: string)
    | UnknownLabel(predicted: int)

  /** One named column of the single-row input frame. */
  type Features = seq<(string, Cell)>

  /** The columns of the input frame, in the order the classifier was trained on. */
  const FeatureNames: seq<string> := [
    "Course",
    "Previous_qualification_grade",
    "Admission_grade",
    "Tuition_fees_up_to_date",
    "Age_at_enrollment",
    "Scholarship_holder",
    "Curricular_units_1st_sem_grade",
    "Curricular_units_2nd_sem_grade",
    "Curricular_units_1st_sem_evaluations",
    "Curricular_units_2nd_sem_evaluations",
    "Curricular_units_2nd_sem_approved",
    "Fathers_occupation"
  ]

  /** `tuition_map` and `scholarship_map`, which are the same dictionary. */
  const YesNoCodes: map<string, int> := map["Yes" := 1, "No" := 0]

  /** The options of the two Yes/No select boxes. */
  const YesNoOptions: seq<string> := ["Yes", "No"]

  /** Indexing `YesNoCodes` with an answer: 1 for Yes, 0 for No, a KeyError
      (None) for anything else. */
  function YesNo(answer: string): (r: Option<int>)
    ensures r.Some? <==> answer in YesNoOptions
    ensures r == Some(1) <==> answer == "Yes"
    ensures r == Some(0) <==> answer == "No"
  {
    if answer in YesNoCodes then Some(YesNoCodes[answer]) else None
  }

  /** The input frame built from a submission, or the first exception its
      construction raises: the course lookup, then the occupation lookup, then
      the two Yes/No dictionaries in column order. */
  function EncodeForm(courses: Catalog, occupations: Catalog, f: FormInput): (r: Result<Features, Failure>)
    ensures r.Ok? <==>
      f.course in Labels(courses) && f.fatherOccupation in Labels(occupations) &&
      f.tuitionUpToDate in YesNoOptions && f.scholarshipHolder in YesNoOptions
    ensures f.course !in Labels(courses) ==> r == Err(UnknownCourse(f.course))
    ensures f.course in Labels(courses) && f.fatherOccupation !in Labels(occupations) ==>
      r == Err(UnknownOccupation(f.fatherOccupation))
    ensures (f.course in Labels(courses) && f.fatherOccupation in Labels(occupations) &&
             !(f.tuitionUpToDate in YesNoOptions && f.scholarshipHolder in YesNoOptions)) ==>
      r == Err(UnknownAnswer(if f.tuitionUpToDate !in YesNoOptions then f.tuitionUpToDate else f.scholarshipHolder))
    ensures r.Err? && r.error.UnknownAnswer? ==>
      r.error.answer !in YesNoOptions &&
      r.error.answer == (if f.tuitionUpToDate !in YesNoOptions then f.tuitionUpToDate else f.scholarshipHolder)
    ensures r.Err? ==> !r.error.UnknownLabel?
    ensures r.Ok? ==> |r.value| == |FeatureNames| && forall i :: 0 <= i < |r.value| ==> r.value[i].0 == FeatureNames[i]
  {
    match ReverseLookup(courses, f.course)
    case None => Err(UnknownCourse(f.course))
    case Some(courseId) =>
      match ReverseLookup(occupations, f.fatherOccupation)
      case None => Err(UnknownOccupation(f.fatherOccupation))
      case Some(occupationId) =>
        match YesNo(f.tuitionUpToDate)
        case None => Err(UnknownAnswer(f.tuitionUpToDate))
        case Some(tuition) =>
          match YesNo(f.scholarshipHolder)
          case None => Err(UnknownAnswer(f.scholarshipHolder))
          case Some(scholarship) =>
            Ok([
              ("Course", Int(courseId)),
              ("Previous_qualification_grade", Float(f.previousGrade)),
              ("Admission_grade", Float(f.admissionGrade)),
              ("Tuition_fees_up_to_date", Int(tuition)),
              ("Age_at_enrollment", Int(f.age)),
              ("Scholarship_holder", Int(scholarship)),
              ("Curricular_units_1st_sem_grade", Float(f.firstSemGrade)),
              ("Curricular_units_2nd_sem_grade", Float(f.secondSemGrade)),
              ("Curricular_units_1st_sem_evaluations", Int(f.firstSemEvaluations)),
              ("Curricular_units_2nd_sem_evaluations", Int(f.secondSemEvaluations)),
              ("Curricular_units_2nd_sem_approved", Int(f.secondSemApproved)),
              ("Fathers_occupation", Int(occupationId))
            ])
  }

  /** A submission the form's widgets can produce: both names are options of
      their select boxes (the catalogs' labels), both flags are Yes or No, and
      the numbers lie in the widgets' ranges. */
  ghost predicate FromWidgets(courses: Catalog, occupations: Catalog, f: FormInput) {
    f.course in Labels(courses) && f.fatherOccupation in Labels(occupations) &&
    f.tuitionUpToDate in YesNoOptions && f.scholarshipHolder in YesNoOptions &&
    0.0 <= f.previousGrade <= 1000.0 && 0.0 <= f.admissionGrade <= 1000.0 &&
    0.0 <= f.firstSemGrade <= 1000.0 && 0.0 <= f.secondSemGrade <= 1000.0 &&
    15 <= f.age <= 60 &&
    0 <= f.firstSemEvaluations <= 60 && 0 <= f.secondSemEvaluations <= 60 && 0 <= f.secondSemApproved <= 60
  }

  /** Reads a flag column back: 1 is Yes, 0 is No. */
  function YesNoAnswer(c: Cell): Option<string> {
    match c
    case Int(k) => if k == 1 then Some("Yes") else if k == 0 then Some("No") else None
    case _ => None
  }

  /** Reads an input frame back into the submission it describes, turning
      the two codes into catalog labels and the two flags into answers;
      None when a column is misnamed, mistyped or out of its catalog. */
  function DecodeFeatures(courses: Catalog, occupations: Catalog, v: Features): Option<FormInput> {
    if |v| != |FeatureNames| || exists i :: 0 <= i < |v| && v[i].0 != FeatureNames[i] then None
    else if !(v[0].1.Int? && v[1].1.Float? && v[2].1.Float? && v[4].1.Int? && v[6].1.Float? &&
              v[7].1.Float? && v[8].1.Int? && v[9].1.Int? && v[10].1.Int? && v[11].1.Int?) then None
    else if v[0].1.i !in AsMap(courses) || v[11].1.i !in AsMap(occupations) then None
    else match (YesNoAnswer(v[3].1), YesNoAnswer(v[5].1))
      case (Some(tuition), Some(scholarship)) =>
        Some(FormInput(AsMap(courses)[v[0].1.i], v[1].1.x, v[2].1.x, tuition, v[4].1.i, scholarship,
          v[6].1.x, v[7].1.x, v[8].1.i, v[9].1.i, v[10].1.i, AsMap(occupations)[v[11].1.i]))
      case _ => None
  }

  /** Every submission the widgets can produce is encoded, and the input frame
      holds exactly what was entered: reading it back gives the submission. In
      particular the course and occupation columns hold the codes whose labels
      were chosen, the flags hold 1 for Yes and 0 for No, and the other eight
      columns hold the entered numbers. */
  lemma {:induction false} EncodeDecodeRoundTrip(courses: Catalog, occupations: Catalog, f: FormInput)
    requires DistinctCodes(courses) && DistinctCodes(occupations)
    requires FromWidgets(courses, occupations, f)
    ensures EncodeForm(courses, occupations, f).Ok?
    ensures DecodeFeatures(courses, occupations, EncodeForm(courses, occupations, f).value) == Some(f)
  {
    LabelRoundTrip(courses, f.course);
    LabelRoundTrip(occupations, f.fatherOccupation);
  }

  /** The dashboard's two tables satisfy the round trip's requirement. */
  lemma DashboardEncodeDecodeRoundTrip(f: FormInput)
    requires FromWidgets(CourseCatalog, FathersOccupationCatalog, f)
    ensures EncodeForm(CourseCatalog, FathersOccupationCatalog, f).Ok?
    ensures DecodeFeatures(CourseCatalog, FathersOccupationCatalog,
      EncodeForm(CourseCatalog, FathersOccupationCatalog, f).value) == Some(f)
  {
    CourseCatalogWellFormed();
    OccupationCatalogWellFormed();
    EncodeDecodeRoundTrip(CourseCatalog, FathersOccupationCatalog, f);
  }

  /** The two code columns of an encoded submission hold codes whose labels
      are the chosen names. */
  lemma {:induction false} EncodedCodes(courses: Catalog, occupations: Catalog, f: FormInput)
    requires DistinctCodes(courses) && DistinctCodes(occupations)
    requires EncodeForm(courses, occupations, f).Ok?
    ensures var v := EncodeForm(courses, occupations, f).value;
      v[0].1.Int? && v[0].1.i in AsMap(courses) && AsMap(courses)[v[0].1.i] == f.course &&
      v[11].1.Int? && v[11].1.i in AsMap(occupations) && AsMap(occupations)[v[11].1.i] == f.fatherOccupation
  {
    LabelRoundTrip(courses, f.course);
    LabelRoundTrip(occupations, f.fatherOccupation);
  }

  /** The other ten columns of an encoded submission: 1 for Yes and 0 for No
      in the two flags, and the entered numbers verbatim. */
  lemma EncodedValues(courses: Catalog, occupations: Catalog, f: FormInput)
    requires EncodeForm(courses, occupations, f).Ok?
    ensures var v := EncodeForm(courses, occupations, f).value;
      v[1].1 == Float(f.previousGrade) && v[2].1 == Float(f.admissionGrade) &&
      v[3].1 == Int(if f.tuitionUpToDate == "Yes" then 1 else 0) &&
      v[4].1 == Int(f.age) &&
      v[5].1 == Int(if f.scholarshipHolder == "Yes" then 1 else 0) &&
      v[6].1 == Float(f.firstSemGrade) && v[7].1 == Float(f.secondSemGrade) &&
      v[8].1 == Int(f.firstSemEvaluations) && v[9].1 == Int(f.secondSemEvaluations) &&
      v[10].1 == Int(f.secondSemApproved)
  {
  }

  /** The Yes/No dictionary undoes the relabelling of the binary columns whose
      labels are Yes/No: the label of a 1/0 code answers back to that code. */
  lemma YesNoUndoesRelabel(j: nat, k: int)
    requires j < |BinaryLabels| && 2 <= j && k in BinaryLabels[j].1
    ensures YesNo(BinaryLabels[j].1[k]) == Some(k)
  {
    BinaryLabelsMeaning();
  }

  /** The form with Tuition Yes, Scholarship No, age 20, and every other widget
      at its default: the first course and the first occupation of the select
      boxes, grades 10.0 and counts 0. */
  const DefaultScenario: FormInput := FormInput(
    "Biofuel Production Technologies", 10.0, 10.0, "Yes", 20, "No", 10.0, 10.0, 0, 0, 0, "Student")

  /** That form gives tuition 1, scholarship 0, age 20, the first entries'
      codes (33 and 0) and the entered values in the other columns. */
  lemma DefaultScenarioEncodes()
    ensures EncodeForm(CourseCatalog, FathersOccupationCatalog, DefaultScenario) == Ok([
      ("Course", Int(33)),
      ("Previous_qualification_grade", Float(10.0)),
      ("Admission_grade", Float(10.0)),
      ("Tuition_fees_up_to_date", Int(1)),
      ("Age_at_enrollment", Int(20)),
      ("Scholarship_holder", Int(0)),
      ("Curricular_units_1st_sem_grade", Float(10.0)),
      ("Curricular_units_2nd_sem_grade", Float(10.0)),
      ("Curricular_units_1st_sem_evaluations", Int(0)),
      ("Curricular_units_2nd_sem_evaluations", Int(0)),
      ("Curricular_units_2nd_sem_approved", Int(0)),
      ("Fathers_occupation", Int(0))
    ])
  {
    DefaultCodes();
  }

  /** The first entries of the two select boxes resolve to codes 33 and 0. */
  lemma DefaultCodes()
    ensures ReverseLookup(CourseCatalog, DefaultScenario.course) == Some(33)
    ensures ReverseLookup(FathersOccupationCatalog, DefaultScenario.fatherOccupation) == Some(0)
  {
    CourseCatalogWellFormed();
    LookupFindsItem(CourseCatalog, 0);
    OccupationCatalogWellFormed();
    LookupFindsItem(FathersOccupationCatalog, 0);
  }

  /** `status_mapping`: the classifier's two class labels. */
  const LabelNames: map<int, string> := map[0 := "Dropout", 1 := "Graduate"]

  /** Indexing `status_mapping` with the predicted label. */
  function DecodeLabel(predicted: int): (r: Result<string, Failure>)
    ensures r.Ok? <==> predicted == 0 || predicted == 1
    ensures predicted == 0 ==> r == Ok("Dropout")
    ensures predicted == 1 ==> r == Ok("Graduate")
    ensures r.Err? ==> r.error == UnknownLabel(predicted)
  {
    if predicted in LabelNames then Ok(LabelNames[predicted]) else Err(UnknownLabel(predicted))
  }

  /** Decoding a label is the inverse of the outcome encoding used for the
      correlation chart, except that the classifier knows no Enrolled class. */
  lemma DecodeLabelInvertsStatusCodes(s: string)
    requires s in StatusCodes
    ensures DecodeLabel(StatusCodes[s]).Ok? <==> s != "Enrolled"
    ensures s != "Enrolled" ==> DecodeLabel(StatusCodes[s]) == Ok(s)
  {
  }

  /** And the other way round: a decoded outcome encodes back to its label. */
  lemma StatusCodesInvertDecodeLabel(predicted: int)
    requires DecodeLabel(predicted).Ok?
    ensures DecodeLabel(predicted).value in StatusCodes && StatusCodes[DecodeLabel(predicted).value] == predicted
  {
  }

  /** One submission: encode it, ask `classify` once, decode its label. */
  function Predict(courses: Catalog, occupations: Catalog, f: FormInput, classify: Features -> int): (r: Result<string, Failure>)
    ensures var e := EncodeForm(courses, occupations, f);
      (r.Ok? <==> e.Ok? && classify(e.value) in {0, 1}) &&
      (r.Ok? ==> r.value in StatusCodes && StatusCodes[r.value] == classify(e.value)) &&
      (e.Err? ==> r == Err(e.error))
  {
    match EncodeForm(courses, occupations, f)
    case Err(e) => Err(e)
    case Ok(v) =>
      DecodeLabel(classify(v))
  }

  /** A classifier that only answers 0 or 1 always yields an outcome for a
      submission from the widgets: Dropout for 0 and Graduate for 1. */
  lemma PredictFromWidgets(courses: Catalog, occupations: Catalog, f: FormInput, classify: Features -> int)
    requires FromWidgets(courses, occupations, f)
    requires classify(EncodeForm(courses, occupations, f).value) in {0, 1}
    ensures Predict(courses, occupations, f, classify) ==
      Ok(if classify(EncodeForm(courses, occupations, f).value) == 0 then "Dropout" else "Graduate")
  {
  }
}
