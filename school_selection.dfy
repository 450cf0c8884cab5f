/**
 * The school-selection step of the calculator
 * (src/components/calculator/SchoolSelectionStep.tsx): a form that either
 * picks an existing school or describes a new one, and the list of schools
 * chosen for the results step. Server calls are parameters that always
 * succeed: `create` stands for `createSchool`, and the display order handed to
 * `addSelectedSchool` is returned.
 */
module SchoolSelection {
  import opened Wrappers
  import opened JsText
  import opened ScoreEngine

  /** The messages the step can show. */
  datatype StepError = NameRequired | SchoolNotFound | AlreadyAdded | NoSchoolSelected

  /** What `createSchool` is sent for a new school. */
  datatype Draft = Draft(name: string, patternType: Pattern, ratioTest: real, ratioNaishin: real,
                         passRate80: Option<real>, passRate60: Option<real>)

  /** No two schools in the list share an id. */
  predicate IdsUnique(s: seq<School>) {
    forall i, j :: 0 <= i < j < |s| ==> s[i].id != s[j].id
  }

  predicate HasId(s: seq<School>, id: int) {
    exists i :: 0 <= i < |s| && s[i].id == id
  }

  /** `list.find(s => s.id === id)`: the first school with that id. */
  function FindById(s: seq<School>, id: int): (r: Option<School>)
    ensures r.None? <==> !HasId(s, id)
    ensures r.Some? ==> r.value in s && r.value.id == id
  {
    if s == [] then None
    else if s[0].id == id then Some(s[0])
    else
      var r := FindById(s[1..], id);
      assert HasId(s, id) <==> HasId(s[1..], id) by {
        if HasId(s, id) {
          var i :| 0 <= i < |s| && s[i].id == id;
          assert s[1..][i - 1].id == id;
        }
        if HasId(s[1..], id) {
          var i :| 0 <= i < |s[1..]| && s[1..][i].id == id;
          assert s[i + 1].id == id;
        }
      }
      r
  }

  /** `list.filter(s => s.id !== id)`. */
  function RemoveId(s: seq<School>, id: int): (r: seq<School>)
    ensures |r| <= |s|
    ensures forall x :: x in r <==> x in s && x.id != id
  {
    if s == [] then []
    else if s[0].id == id then RemoveId(s[1..], id)
    else [s[0]] + RemoveId(s[1..], id)
  }

  /** Removing keeps the relative order: the result is the list with the matching schools taken out, one by one. */
  lemma {:induction false} RemoveIdKeepsOrder(s: seq<School>, id: int, x: School)
    requires x.id != id
    ensures RemoveId(s + [x], id) == RemoveId(s, id) + [x]
  {
    if s != [] {
      assert (s + [x])[1..] == s[1..] + [x];
      RemoveIdKeepsOrder(s[1..], id, x);
    }
  }

  /** Removing an id keeps the other ids distinct. */
  lemma {:induction false} RemoveIdUnique(s: seq<School>, id: int)
    requires IdsUnique(s)
    ensures IdsUnique(RemoveId(s, id))
  {
    if s != [] {
      RemoveIdUnique(s[1..], id);
      var rest := RemoveId(s[1..], id);
      if s[0].id != id {
        var r := [s[0]] + rest;
        forall i, j | 0 <= i < j < |r| ensures r[i].id != r[j].id {
          if i == 0 {
            assert r[j] in s[1..];
            var k :| 0 <= k < |s[1..]| && s[1..][k] == r[j];
            assert s[k + 1] == r[j];
          }
        }
      }
    }
  }

  /** Appending a school whose id is not yet there keeps the ids distinct. */
  lemma AppendUnique(s: seq<School>, x: School)
    requires IdsUnique(s) && !HasId(s, x.id)
    ensures IdsUnique(s + [x])
  {
    forall i, j | 0 <= i < j < |s + [x]| ensures (s + [x])[i].id != (s + [x])[j].id {
      if j == |s| {
        assert s[i].id != x.id;
      }
    }
  }

  /** `selectedExistingSchoolId` is truthy: set, and not 0. */
  predicate Chosen(id: Option<int>) {
    id.Some? && id.value != 0
  }

  /** The add-school form's fields, taken together. */
  datatype Form = Form(isNewSchool: bool, selectedExistingId: Option<int>, schoolName: string, patternType: Pattern,
                       ratioTest: real, ratioNaishin: real, passRate80: string, passRate60: string)

  class SelectionStep {
    var availableSchools: seq<School>
    var selectedSchools: seq<School>
    var isNewSchool: bool
    var selectedExistingId: Option<int>
    var schoolName: string
    var patternType: Pattern
    var ratioTest: real
    var ratioNaishin: real
    var passRate80: string
    var passRate60: string
    var error: Option<StepError>

    /** The selected list never holds two schools with the same id. */
    predicate Valid()
      reads this
    {
      IdsUnique(selectedSchools)
    }

    /** The form's current contents. */
    function CurrentForm(): Form
      reads this
    {
      Form(isNewSchool, selectedExistingId, schoolName, patternType, ratioTest, ratioNaishin, passRate80, passRate60)
    }

    /** The form as `resetForm` leaves it. */
    predicate FormIsReset()
      reads this
    {
      && schoolName == "" && patternType == Simple && ratioTest == 7.0 && ratioNaishin == 3.0
      && passRate80 == "" && passRate60 == "" && selectedExistingId.None? && isNewSchool
    }

    /** What `createSchool` is sent: a rate field left empty becomes `null`. */
    function CurrentDraft(parseFloat: string -> real): (d: Draft)
      reads this
      ensures d.name == schoolName
      ensures d.passRate80.None? <==> passRate80 == ""
      ensures d.passRate60.None? <==> passRate60 == ""
    {
      Draft(schoolName, patternType, ratioTest, ratioNaishin,
            if passRate80 != "" then Some(parseFloat(passRate80)) else None,
            if passRate60 != "" then Some(parseFloat(passRate60)) else None)
    }

    /** The step as first shown, with the list the parent passes in. */
    constructor(selected: seq<School>)
      requires IdsUnique(selected)
      ensures Valid() && FormIsReset()
      ensures availableSchools == [] && selectedSchools == selected && error == None
    {
      availableSchools := [];
      selectedSchools := selected;
      isNewSchool := true;
      selectedExistingId := None;
      schoolName := "";
      patternType := Simple;
      ratioTest := 7.0;
      ratioNaishin := 3.0;
      passRate80 := "";
      passRate60 := "";
      error := None;
    }

    /** `resetForm()`: the form fields back to their defaults; the lists and the error stay. */
    method ResetForm()
      modifies this
      ensures FormIsReset()
      ensures availableSchools == old(availableSchools) && selectedSchools == old(selectedSchools) && error == old(error)
    {
      schoolName := "";
      patternType := Simple;
      ratioTest := 7.0;
      ratioNaishin := 3.0;
      passRate80 := "";
      passRate60 := "";
      selectedExistingId := None;
      isNewSchool := true;
    }

    /**
     * `handleExistingSchoolSelect(id)`: copies a listed school into the form;
     * an id not in the list changes nothing. `show` stands for `toString`.
     */
    method SelectExisting(id: int, show: real -> string)
      modifies this
      ensures FindById(old(availableSchools), id).None? ==> unchanged(this)
      ensures FindById(old(availableSchools), id).Some? ==>
        var school := FindById(old(availableSchools), id).value;
        && selectedExistingId == Some(id) && schoolName == school.name && patternType == school.patternType
        && ratioTest == school.ratioTest && ratioNaishin == school.ratioNaishin
        && passRate80 == (if school.passRate80.Some? then show(school.passRate80.value) else "")
        && passRate60 == (if school.passRate60.Some? then show(school.passRate60.value) else "")
        && isNewSchool == old(isNewSchool) && error == old(error)
        && availableSchools == old(availableSchools) && selectedSchools == old(selectedSchools)
    {
      var found := FindById(availableSchools, id);
      if found.Some? {
        var school := found.value;
        selectedExistingId := Some(id);
        schoolName := school.name;
        patternType := school.patternType;
        ratioTest := school.ratioTest;
        ratioNaishin := school.ratioNaishin;
        passRate80 := if school.passRate80.Some? then show(school.passRate80.value) else "";
        passRate60 := if school.passRate60.Some? then show(school.passRate60.value) else "";
      }
    }

    /**
     * `handleAddSchool()`. A blank name stops with an error. The existing-school
     * path needs `!isNewSchool` and a truthy chosen id; a chosen id missing from
     * the list stops with an error and leaves the form as it is. Otherwise the
     * school (found, or created from the form and appended to the available
     * list) is appended to the selection unless its id is already there, and
     * the form is reset either way. `addedAt` is the display order sent with a
     * new selection.
     */
    method AddSchool(parseFloat: string -> real, create: Draft -> School) returns (addedAt: Option<int>)
      requires Valid()
      modifies this
      ensures Valid()
      ensures Trim(old(schoolName)) == [] ==>
        addedAt.None? && error == Some(NameRequired) && selectedSchools == old(selectedSchools)
        && availableSchools == old(availableSchools) && CurrentForm() == old(CurrentForm())
      ensures Trim(old(schoolName)) != [] && !old(isNewSchool) && Chosen(old(selectedExistingId))
              && FindById(old(availableSchools), old(selectedExistingId).value).None? ==>
        addedAt.None? && error == Some(SchoolNotFound) && selectedSchools == old(selectedSchools)
        && availableSchools == old(availableSchools) && CurrentForm() == old(CurrentForm())
      ensures Trim(old(schoolName)) != [] && !(!old(isNewSchool) && Chosen(old(selectedExistingId))) ==>
        var school := create(old(CurrentDraft(parseFloat)));
        && availableSchools == old(availableSchools) + [school]
        && Added(school, old(selectedSchools), selectedSchools, addedAt, error)
        && FormIsReset()
      ensures Trim(old(schoolName)) != [] && !old(isNewSchool) && Chosen(old(selectedExistingId))
              && FindById(old(availableSchools), old(selectedExistingId).value).Some? ==>
        var school := FindById(old(availableSchools), old(selectedExistingId).value).value;
        && availableSchools == old(availableSchools)
        && Added(school, old(selectedSchools), selectedSchools, addedAt, error)
        && FormIsReset()
    {
      error := None;
      addedAt := None;
      if Trim(schoolName) == [] {
        error := Some(NameRequired);
        return;
      }
      var school: School;
      if !isNewSchool && Chosen(selectedExistingId) {
        var found := FindById(availableSchools, selectedExistingId.value);
        if found.None? {
          error := Some(SchoolNotFound);
          return;
        }
        school := found.value;
      } else {
        school := create(CurrentDraft(parseFloat));
        availableSchools := availableSchools + [school];
      }
      if FindById(selectedSchools, school.id).None? {
        addedAt := Some(|selectedSchools|);
        AppendUnique(selectedSchools, school);
        selectedSchools := selectedSchools + [school];
      } else {
        error := Some(AlreadyAdded);
      }
      ResetForm();
    }

    /** `handleRemoveSchool(id)`: every school with that id leaves both lists; the others keep their order. */
    method RemoveSchool(id: int)
      requires Valid()
      modifies this
      ensures Valid()
      ensures selectedSchools == RemoveId(old(selectedSchools), id)
      ensures availableSchools == RemoveId(old(availableSchools), id)
      ensures !HasId(selectedSchools, id) && !HasId(availableSchools, id)
    {
      RemoveIdUnique(selectedSchools, id);
      selectedSchools := RemoveId(selectedSchools, id);
      availableSchools := RemoveId(availableSchools, id);
    }

    /** `handleFinish()`: moves on only with at least one school selected. */
    method Finish() returns (next: bool)
      modifies this
      ensures next <==> old(selectedSchools) != []
      ensures !next ==> error == Some(NoSchoolSelected)
      ensures next ==> error == old(error)
      ensures selectedSchools == old(selectedSchools) && availableSchools == old(availableSchools)
      ensures CurrentForm() == old(CurrentForm())
    {
      if selectedSchools == [] {
        error := Some(NoSchoolSelected);
        return false;
      }
      return true;
    }
  }

  /**
   * The outcome of the duplicate check: a school whose id is new is appended
   * with display order `|before|`; one already there leaves the list as it was
   * and sets the error. Either way the id is selected afterwards.
   */
  predicate Added(school: School, before: seq<School>, after: seq<School>, addedAt: Option<int>, error: Option<StepError>) {
    if !HasId(before, school.id) then
      after == before + [school] && addedAt == Some(|before|) && error == None
    else
      after == before && addedAt == None && error == Some(AlreadyAdded)
  }

  /** After any successful add the school's id is in the selection, exactly once. */
  lemma AddedSelects(school: School, before: seq<School>, after: seq<School>, addedAt: Option<int>, error: Option<StepError>)
    requires IdsUnique(before) && Added(school, before, after, addedAt, error)
    ensures HasId(after, school.id) && IdsUnique(after)
    ensures |after| == |before| + (if addedAt.Some? then 1 else 0)
  {
    if !HasId(before, school.id) {
      AppendUnique(before, school);
      assert after[|before|].id == school.id;
    }
  }
}
