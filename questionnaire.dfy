/** The questionnaire of the wizard's first stage: a fixed table of four
    sections over ten text fields, the record of field values, and the
    section cursor with its Next/Previous navigation. */
module Questionnaire {
  import opened Wrappers
  import opened Text

  /** The ten keys of the project form. */
  datatype FieldKey =
    | CompanyName | ProjectTitle | ProjectDescription | Objectives
    | StartDate | EndDate | Budget | TeamSize | TechnicalChallenges | ExpectedResults

  /** The input control a field is rendered with. */
  datatype FieldKind = TextInput | TextArea | DateInput | NumberInput

  datatype Field = Field(key: FieldKey, caption: string, kind: FieldKind, required: bool)

  datatype Section = Section(title: string, fields: seq<Field>)

  /** The project form: one string per key. */
  datatype FormData = FormData(
    companyName: string, projectTitle: string, projectDescription: string, objectives: string,
    startDate: string, endDate: string, budget: string, teamSize: string,
    technicalChallenges: string, expectedResults: string)
  {
    /** `formData[key]`. */
    function Get(k: FieldKey): string {
      match k
      case CompanyName => companyName
      case ProjectTitle => projectTitle
      case ProjectDescription => projectDescription
      case Objectives => objectives
      case StartDate => startDate
      case EndDate => endDate
      case Budget => budget
      case TeamSize => teamSize
      case TechnicalChallenges => technicalChallenges
      case ExpectedResults => expectedResults
    }

    /** `{ ...formData, [key]: value }`: only `key` changes. */
    function Set(k: FieldKey, v: string): (r: FormData)
      ensures r.Get(k) == v
      ensures forall k' :: k' != k ==> r.Get(k') == Get(k')
    {
      match k
      case CompanyName => this.(companyName := v)
      case ProjectTitle => this.(projectTitle := v)
      case ProjectDescription => this.(projectDescription := v)
      case Objectives => this.(objectives := v)
      case StartDate => this.(startDate := v)
      case EndDate => this.(endDate := v)
      case Budget => this.(budget := v)
      case TeamSize => this.(teamSize := v)
      case TechnicalChallenges => this.(technicalChallenges := v)
      case ExpectedResults => this.(expectedResults := v)
    }
  }

  /** The form the questionnaire starts with. */
  const EmptyForm: FormData := FormData("", "", "", "", "", "", "", "", "", "")

  lemma EmptyFormIsEmpty()
    ensures forall k :: EmptyForm.Get(k) == ""
  {
    forall k ensures EmptyForm.Get(k) == "" { }
  }

  /** The section table, in display order. */
  const Sections: seq<Section> := [
    Section("Informations générales", [
      Field(CompanyName, "Nom de R&D Lines", TextInput, true),
      Field(ProjectTitle, "Titre du projet", TextInput, true)]),
    Section("Description du projet", [
      Field(ProjectDescription, "Description du projet", TextArea, true),
      Field(Objectives, "Objectifs principaux", TextArea, true)]),
    Section("Planning et ressources", [
      Field(StartDate, "Date de début", DateInput, true),
      Field(EndDate, "Date de fin", DateInput, true),
      Field(Budget, "Budget total (€)", NumberInput, true),
      Field(TeamSize, "Taille de l'équipe", NumberInput, true)]),
    Section("Aspects techniques", [
      Field(TechnicalChallenges, "Défis techniques", TextArea, true),
      Field(ExpectedResults, "Résultats attendus", TextArea, true)])
  ]

  /** The keys of section `s`, in display order. */
  function SectionKeys(s: nat): seq<FieldKey>
    requires s < |Sections|
  {
    seq(|Sections[s].fields|, j requires 0 <= j < |Sections[s].fields| => Sections[s].fields[j].key)
  }

  /** The section each key is listed in. */
  function SectionOf(k: FieldKey): nat {
    match k
    case CompanyName | ProjectTitle => 0
    case ProjectDescription | Objectives => 1
    case StartDate | EndDate | Budget | TeamSize => 2
    case TechnicalChallenges | ExpectedResults => 3
  }

  /** The table has four sections; read in order they list the ten keys
      once each; every field is required; and a key appears in section `s`
      exactly when `s` is its `SectionOf`. */
  lemma SectionTableShape()
    ensures |Sections| == 4
    ensures SectionKeys(0) + SectionKeys(1) + SectionKeys(2) + SectionKeys(3)
         == [CompanyName, ProjectTitle, ProjectDescription, Objectives,
             StartDate, EndDate, Budget, TeamSize, TechnicalChallenges, ExpectedResults]
    ensures forall s, j :: 0 <= s < |Sections| && 0 <= j < |Sections[s].fields| ==> Sections[s].fields[j].required
    ensures forall s, j :: 0 <= s < |Sections| && 0 <= j < |Sections[s].fields| ==>
      SectionOf(Sections[s].fields[j].key) == s
    ensures forall k :: SectionOf(k) < |Sections| && k in SectionKeys(SectionOf(k))
  {
    assert SectionKeys(0) == [CompanyName, ProjectTitle];
    assert SectionKeys(1) == [ProjectDescription, Objectives];
    assert SectionKeys(2) == [StartDate, EndDate, Budget, TeamSize];
    assert SectionKeys(3) == [TechnicalChallenges, ExpectedResults];
  }

  /** A field counts as filled when what is left after trimming is not
      empty. */
  predicate Filled(value: string) {
    Trim(value) != ""
  }

  /** The validity test of one section (`isCurrentSectionValid` for cursor
      `s`). */
  predicate SectionValid(form: FormData, s: nat)
    requires s < |Sections|
  {
    forall j :: 0 <= j < |Sections[s].fields| ==>
      !Sections[s].fields[j].required || Filled(form.Get(Sections[s].fields[j].key))
  }

  /** Since every field is required, a section is valid exactly when each of
      its fields holds a character that is not white space. */
  lemma SectionValidIffNoBlankField(form: FormData, s: nat)
    requires s < |Sections|
    ensures SectionValid(form, s) <==>
      forall j :: 0 <= j < |Sections[s].fields| ==> !Blank(form.Get(Sections[s].fields[j].key))
  {
    SectionTableShape();
    forall j | 0 <= j < |Sections[s].fields| {
      TrimEmptyIffBlank(form.Get(Sections[s].fields[j].key));
    }
  }

  /** Every one of the ten fields holds a character that is not white
      space. */
  predicate Complete(form: FormData) {
    forall k :: !Blank(form.Get(k))
  }

  /** All four sections are valid exactly when the form is complete. */
  lemma AllSectionsValidIffComplete(form: FormData)
    ensures (forall s :: 0 <= s < |Sections| ==> SectionValid(form, s)) <==> Complete(form)
  {
    SectionTableShape();
    forall s | 0 <= s < |Sections| {
      SectionValidIffNoBlankField(form, s);
    }
    if forall s :: 0 <= s < |Sections| ==> SectionValid(form, s) {
      forall k ensures !Blank(form.Get(k)) {
        var s := SectionOf(k);
        assert k in SectionKeys(s);
        var j :| 0 <= j < |SectionKeys(s)| && SectionKeys(s)[j] == k;
        assert Sections[s].fields[j].key == k;
      }
    }
  }

  /** Editing a key listed in section `s` leaves the validity of every other
      section as it was. */
  lemma EditKeepsOtherSections(form: FormData, key: FieldKey, v: string, s: nat)
    requires s < |Sections| && SectionOf(key) != s
    ensures SectionValid(form.Set(key, v), s) <==> SectionValid(form, s)
  {
    SectionTableShape();
    forall j | 0 <= j < |Sections[s].fields|
      ensures form.Set(key, v).Get(Sections[s].fields[j].key) == form.Get(Sections[s].fields[j].key)
    {
      assert Sections[s].fields[j].key != key;
    }
  }

  /** The state of the questionnaire component. */
  class CIRQuestionnaire {
    var formData: FormData
    var currentSection: nat

    ghost predicate Valid()
      reads this
    {
      currentSection < |Sections|
    }

    /** Every section before the cursor is valid: Next was enabled when the
        cursor left it, and its fields are rendered only while it is
        current. */
    ghost predicate PassedSectionsValid()
      reads this
    {
      forall s :: 0 <= s < currentSection && s < |Sections| ==> SectionValid(formData, s)
    }

    constructor ()
      ensures Valid() && PassedSectionsValid()
      ensures formData == EmptyForm && currentSection == 0
    {
      formData := EmptyForm;
      currentSection := 0;
    }

    /** `isCurrentSectionValid`: every field of the current section holds a
        character that is not white space. */
    function IsCurrentSectionValid(): (r: bool)
      reads this
      requires Valid()
      ensures r <==> forall j :: 0 <= j < |Sections[currentSection].fields| ==>
        !Blank(formData.Get(Sections[currentSection].fields[j].key))
    {
      SectionValidIffNoBlankField(formData, currentSection);
      SectionValid(formData, currentSection)
    }

    /** The Next control is disabled exactly when the current section is
        invalid. */
    function NextDisabled(): (r: bool)
      reads this
      requires Valid()
      ensures r <==> (exists j :: 0 <= j < |Sections[currentSection].fields| &&
                                  Blank(formData.Get(Sections[currentSection].fields[j].key)))
    {
      !IsCurrentSectionValid()
    }

    /** The Previous control is disabled exactly on the first section, which
        is exactly when `handlePrevious` would leave the cursor where it is
        (see `HandlePrevious`). */
    function PreviousDisabled(): (r: bool)
      reads this
      requires Valid()
      ensures r <==> currentSection == 0
      ensures !r ==> 0 <= currentSection - 1 < |Sections|
    {
      currentSection == 0
    }

    /** `handleInputChange`: set one field. The page renders inputs only for
        the fields of the current section, and for those the record of
        passed sections stays valid. */
    method HandleInputChange(key: FieldKey, value: string)
      requires Valid()
      modifies this
      ensures Valid()
      ensures formData == old(formData).Set(key, value)
      ensures currentSection == old(currentSection)
      ensures old(PassedSectionsValid()) && SectionOf(key) == currentSection ==> PassedSectionsValid()
    {
      ghost var before := formData;
      formData := formData.Set(key, value);
      if SectionOf(key) == currentSection {
        forall s | 0 <= s < currentSection
          ensures SectionValid(formData, s) <==> SectionValid(before, s)
        {
          EditKeepsOtherSections(before, key, value, s);
        }
      }
    }

    /** `handleNext`: below the last section, move on by one; on the last
        section, emit the record (the parent's `onComplete`). Pressed while
        enabled, it emits only a complete form. */
    method HandleNext() returns (emitted: Option<FormData>)
      requires Valid()
      modifies this
      ensures Valid() && formData == old(formData)
      ensures old(currentSection) < |Sections| - 1 ==> currentSection == old(currentSection) + 1 && emitted == None
      ensures old(currentSection) == |Sections| - 1 ==> currentSection == old(currentSection) && emitted == Some(formData)
      ensures old(PassedSectionsValid() && IsCurrentSectionValid()) ==> PassedSectionsValid()
      ensures old(PassedSectionsValid() && IsCurrentSectionValid()) && emitted.Some? ==> Complete(emitted.value)
    {
      ghost var wasEnabled := PassedSectionsValid() && IsCurrentSectionValid();
      if currentSection < |Sections| - 1 {
        currentSection := currentSection + 1;
        emitted := None;
      } else {
        emitted := Some(formData);
        if wasEnabled {
          AllSectionsValidIffComplete(formData);
        }
      }
    }

    /** `handlePrevious`: step back by one unless on the first section
        (where the Previous control is also disabled). */
    method HandlePrevious()
      requires Valid()
      modifies this
      ensures Valid() && formData == old(formData)
      ensures currentSection == if old(currentSection) > 0 then old(currentSection) - 1 else old(currentSection)
      ensures old(PassedSectionsValid()) ==> PassedSectionsValid()
      ensures old(PreviousDisabled()) <==> currentSection == old(currentSection)
    {
      if currentSection > 0 {
        currentSection := currentSection - 1;
      }
    }
  }
}
