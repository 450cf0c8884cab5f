/**
 * The school management page (src/pages/SchoolManagementPage.tsx): a list of
 * saved schools with a set of checked ids, a select-all switch and a bulk
 * delete. The confirmation dialog's answer and the reloaded list are
 * parameters; the delete requests are returned instead of sent.
 */
module SchoolManagement {
  import opened ScoreEngine

  /** A checkbox click: the id leaves the set when present and joins it when absent. */
  function Toggled(selected: set<int>, id: int): (r: set<int>)
    ensures id in r <==> id !in selected
    ensures forall other :: other != id ==> (other in r <==> other in selected)
  {
    if id in selected then selected - {id} else selected + {id}
  }

  /** Clicking the same checkbox twice restores the selection. */
  lemma ToggledTwice(selected: set<int>, id: int)
    ensures Toggled(Toggled(selected, id), id) == selected
  {
  }

  /** Clicks on two different checkboxes commute. */
  lemma ToggledCommutes(selected: set<int>, a: int, b: int)
    ensures Toggled(Toggled(selected, a), b) == Toggled(Toggled(selected, b), a)
  {
  }

  /** `new Set(schools.map(s => s.id))`. */
  function AllIds(schools: seq<School>): (ids: set<int>)
    ensures forall i :: 0 <= i < |schools| ==> schools[i].id in ids
    ensures forall id :: id in ids ==> exists i :: 0 <= i < |schools| && schools[i].id == id
  {
    set i | 0 <= i < |schools| :: schools[i].id
  }

  /** What a bulk delete did. */
  datatype DeleteOutcome = NothingSelected | Cancelled | Deleted(ids: set<int>)

  class ManagementPage {
    var schools: seq<School>
    var selected: set<int>

    constructor(loaded: seq<School>)
      ensures schools == loaded && selected == {}
    {
      schools := loaded;
      selected := {};
    }

    /** `handleCheckboxChange(id)`. */
    method ToggleId(id: int)
      modifies this
      ensures selected == Toggled(old(selected), id)
      ensures schools == old(schools)
    {
      var next := selected;
      if id in next {
        next := next - {id};
      } else {
        next := next + {id};
      }
      selected := next;
    }

    /**
     * `handleSelectAll()`: clears the set when its size equals the number of
     * schools, otherwise checks every listed id. Only the sizes are compared.
     */
    method SelectAll()
      modifies this
      ensures selected == SelectAllOf(old(selected), schools)
      ensures schools == old(schools)
    {
      if |selected| == |schools| {
        selected := {};
      } else {
        selected := AllIds(schools);
      }
    }

    /**
     * `handleDeleteSelected()`: nothing checked stops before the dialog; a
     * declined dialog stops before any request; otherwise one delete per
     * checked id, the set is cleared and the list reloaded.
     */
    method DeleteSelected(confirmed: bool, reloaded: seq<School>) returns (outcome: DeleteOutcome)
      modifies this
      ensures old(selected) == {} ==> outcome == NothingSelected && unchanged(this)
      ensures old(selected) != {} && !confirmed ==> outcome == Cancelled && unchanged(this)
      ensures old(selected) != {} && confirmed ==> outcome == Deleted(old(selected)) && selected == {} && schools == reloaded
    {
      if |selected| == 0 {
        return NothingSelected;
      }
      if !confirmed {
        return Cancelled;
      }
      outcome := Deleted(selected);
      selected := {};
      schools := reloaded;
    }
  }

  /** The selection a select-all click leaves. */
  function SelectAllOf(selected: set<int>, schools: seq<School>): (r: set<int>)
    ensures |selected| == |schools| ==> r == {}
    ensures |selected| != |schools| ==> r == AllIds(schools)
  {
    if |selected| == |schools| then {} else AllIds(schools)
  }

  /** On a list with distinct ids, a second select-all click undoes a first one that checked everything. */
  lemma SelectAllTwiceClears(selected: set<int>, schools: seq<School>)
    requires forall i, j :: 0 <= i < j < |schools| ==> schools[i].id != schools[j].id
    requires |selected| != |schools|
    ensures SelectAllOf(selected, schools) == AllIds(schools)
    ensures SelectAllOf(SelectAllOf(selected, schools), schools) == {}
  {
    IdsCount(schools);
  }

  lemma AllIdsSnoc(init: seq<School>, last: School)
    ensures AllIds(init + [last]) == AllIds(init) + {last.id}
  {
    var s := init + [last];
    forall id | id in AllIds(s) ensures id in AllIds(init) + {last.id} {
      var i :| 0 <= i < |s| && s[i].id == id;
      if i < |init| {
        assert init[i].id == id;
      }
    }
    forall id | id in AllIds(init) ensures id in AllIds(s) {
      var i :| 0 <= i < |init| && init[i].id == id;
      assert s[i].id == id;
    }
    assert s[|init|].id == last.id;
  }

  /** With distinct ids there are as many ids as schools. */
  lemma {:induction false} IdsCount(schools: seq<School>)
    requires forall i, j :: 0 <= i < j < |schools| ==> schools[i].id != schools[j].id
    ensures |AllIds(schools)| == |schools|
  {
    if schools != [] {
      var last := schools[|schools| - 1];
      var init := schools[..|schools| - 1];
      IdsCount(init);
      assert schools == init + [last];
      AllIdsSnoc(init, last);
    }
  }

  /**
   * Because only sizes are compared, select-all clears a selection that does
   * not match the list: with one school of id 1 and a stale checked id 2, the
   * click empties the set instead of checking id 1.
   */
  lemma SelectAllComparesSizesOnly(s: School)
    requires s.id == 1
    ensures SelectAllOf({2}, [s]) == {}
    ensures 1 !in SelectAllOf({2}, [s])
  {
    assert |{2}| == 1;
  }
}
