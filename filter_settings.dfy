/**
 * The filter widget of scripts/filterSettings.js: an "All" button and a
 * list of labels, each holding a checkbox and a close button.
 *
 * A label's close button is shown exactly when its checkbox is checked, and
 * the "All" button carries the `current` class when no checkbox is checked.
 * Clicking "All" clears every checkbox; checking a box takes `current` off
 * the "All" button.
 *
 * Every checkbox of the filter list sits inside one of the labels the
 * widget found at setup, so `closest("label")` always finds that label and
 * "is any checkbox in the list checked" asks about exactly these labels.
 */
module FilterSettings {

  /** One `.c-filter-item label`: whether it holds a checkbox and whether
      that is checked, whether it holds a `.c-filter-close` button and
      whether that is displayed, and whether it carries `current`. */
  datatype Label = Label(hasCheckbox: bool, checked: bool, hasCloseBtn: bool, closeShown: bool, current: bool)

  /** A label without a checkbox has nothing that could be checked. */
  predicate WellFormed(l: Label)
  {
    !l.hasCheckbox ==> !l.checked
  }

  /** The close button shows whether the checkbox is checked. */
  predicate CloseSynced(l: Label)
  {
    l.hasCheckbox && l.hasCloseBtn ==> (l.closeShown <==> l.checked)
  }

  /** `updateFilterClose(label)`: with both a checkbox and a close button,
      display the button exactly when the box is checked; otherwise leave
      the label alone. */
  function UpdateFilterClose(l: Label): (r: Label)
    ensures CloseSynced(r)
    ensures r == l.(closeShown := r.closeShown)
    ensures !(l.hasCheckbox && l.hasCloseBtn) ==> r == l
  {
    if !l.hasCheckbox || !l.hasCloseBtn then l else l.(closeShown := l.checked)
  }

  /** The "All" click's work on one label: uncheck its checkbox if it has
      one, update its close button, and remove `current`. */
  function ClearLabel(l: Label): (r: Label)
    requires WellFormed(l)
    ensures WellFormed(r)
    ensures !r.checked && !r.current && CloseSynced(r)
    ensures r.hasCheckbox && r.hasCloseBtn ==> !r.closeShown
    ensures r.hasCheckbox == l.hasCheckbox && r.hasCloseBtn == l.hasCloseBtn
    ensures !(l.hasCheckbox && l.hasCloseBtn) ==> r.closeShown == l.closeShown
  {
    var unchecked := if l.hasCheckbox then l.(checked := false) else l;
    UpdateFilterClose(unchecked).(current := false)
  }

  predicate Checked(l: Label)
  {
    l.hasCheckbox && l.checked
  }

  /** No checkbox among `ls` is checked. */
  predicate NoneChecked(ls: seq<Label>)
  {
    forall k :: 0 <= k < |ls| ==> !Checked(ls[k])
  }

  /** The target of a `change` event in the filter list. */
  datatype ChangeTarget = Checkbox(index: nat) | OtherInput

  class FilterWidget {
    /** Whether `[data-all-btn]` and `[data-filter-list]` exist. */
    const hasAllBtn: bool
    const hasFilterList: bool
    /** The labels `querySelectorAll(".c-filter-item label")` found. */
    const labels: array<Label>
    /** Whether the "All" button carries `current`. */
    var allCurrent: bool
    /** Whether setup went past its guard and installed the listeners. */
    var installed: bool

    ghost predicate Valid()
      reads this, labels
    {
      && (installed ==> hasAllBtn && hasFilterList)
      && forall k :: 0 <= k < labels.Length ==> WellFormed(labels[k])
    }

    /** Every close button matches its checkbox. */
    ghost predicate ClosesSynced()
      reads this, labels
    {
      forall k :: 0 <= k < labels.Length ==> CloseSynced(labels[k])
    }

    /** The "All" button is current exactly when nothing is checked. */
    ghost predicate AllSynced()
      reads this, labels
    {
      allCurrent <==> NoneChecked(labels[..])
    }

    constructor (hasAllBtn: bool, hasFilterList: bool, labels: array<Label>, allCurrent: bool)
      requires forall k :: 0 <= k < labels.Length ==> WellFormed(labels[k])
      ensures Valid() && !installed
      ensures this.hasAllBtn == hasAllBtn && this.hasFilterList == hasFilterList
      ensures this.labels == labels && this.allCurrent == allCurrent
    {
      this.hasAllBtn := hasAllBtn;
      this.hasFilterList := hasFilterList;
      this.labels := labels;
      this.allCurrent := allCurrent;
      installed := false;
    }

    /** `filterList.querySelector("input[type='checkbox']:checked")`. */
    method AnyChecked() returns (any: bool)
      ensures any <==> !NoneChecked(labels[..])
    {
      any := false;
      var i := 0;
      while i < labels.Length
        invariant 0 <= i <= labels.Length
        invariant !any <==> forall k :: 0 <= k < i ==> !Checked(labels[k])
      {
        if Checked(labels[i]) {
          any := true;
        }
        i := i + 1;
      }
    }

    /** `updateAllBtnCurrent()`: add `current` to "All" when nothing is
        checked; it never removes it. */
    method UpdateAllBtnCurrent()
      modifies this`allCurrent
      ensures allCurrent == (old(allCurrent) || NoneChecked(labels[..]))
    {
      var any := AnyChecked();
      if !any {
        allCurrent := true;
      }
    }

    /** `filterSettings()`: without the "All" button or the filter list it
        does nothing; otherwise it brings every close button in line with
        its checkbox, installs the handlers and marks "All" current when
        nothing is checked. */
    method Setup()
      requires Valid() && !installed
      modifies this`installed, this`allCurrent, labels
      ensures Valid()
      ensures !(hasAllBtn && hasFilterList) ==>
        !installed && allCurrent == old(allCurrent) && labels[..] == old(labels[..])
      ensures hasAllBtn && hasFilterList ==>
        && installed
        && (forall k :: 0 <= k < labels.Length ==> labels[k] == UpdateFilterClose(old(labels[k])))
        && allCurrent == (old(allCurrent) || NoneChecked(labels[..]))
        && ClosesSynced()
        && (NoneChecked(labels[..]) ==> allCurrent)
    {
      if !hasAllBtn || !hasFilterList {
        return;
      }
      var i := 0;
      while i < labels.Length
        invariant 0 <= i <= labels.Length
        invariant forall k :: 0 <= k < i ==> labels[k] == UpdateFilterClose(old(labels[k]))
        invariant forall k :: i <= k < labels.Length ==> labels[k] == old(labels[k])
        invariant allCurrent == old(allCurrent) && !installed
      {
        labels[i] := UpdateFilterClose(labels[i]);
        i := i + 1;
      }
      installed := true;
      UpdateAllBtnCurrent();
    }

    /** The "All" button's click handler: every label is cleared and "All"
        becomes current. */
    method OnAllClick()
      requires Valid()
      modifies this`allCurrent, labels
      ensures Valid()
      ensures !installed ==> allCurrent == old(allCurrent) && labels[..] == old(labels[..])
      ensures installed ==>
        && (forall k :: 0 <= k < labels.Length ==> labels[k] == ClearLabel(old(labels[k])))
        && allCurrent
        && NoneChecked(labels[..])
        && ClosesSynced()
        && AllSynced()
    {
      if !installed {
        return;
      }
      var i := 0;
      while i < labels.Length
        invariant 0 <= i <= labels.Length
        invariant forall k :: 0 <= k < i ==> labels[k] == ClearLabel(old(labels[k]))
        invariant forall k :: i <= k < labels.Length ==> labels[k] == old(labels[k])
      {
        labels[i] := ClearLabel(labels[i]);
        i := i + 1;
      }
      allCurrent := true;
    }

    /** The filter list's `change` handler, run after the browser has set
        the target's `checked`. A target that is not a checkbox changes
        nothing. For a checkbox, its label's close button follows it; a
        checked box takes `current` off "All"; and "All" becomes current
        when nothing is left checked. */
    method OnChange(target: ChangeTarget)
      requires Valid()
      requires target.Checkbox? ==> target.index < labels.Length && labels[target.index].hasCheckbox
      modifies this`allCurrent, labels
      ensures Valid()
      ensures !installed || target.OtherInput? ==>
        allCurrent == old(allCurrent) && labels[..] == old(labels[..])
      ensures installed && target.Checkbox? ==>
        var i := target.index;
        && labels[..] == old(labels[..])[i := UpdateFilterClose(old(labels[i]))]
        && allCurrent == (NoneChecked(labels[..]) || (!labels[i].checked && old(allCurrent)))
        && (old(ClosesSynced()) ==> ClosesSynced())
        && (old(AllSynced()) ==> AllSynced())
    {
      if !installed || target.OtherInput? {
        return;
      }
      var i := target.index;
      labels[i] := UpdateFilterClose(labels[i]);
      if labels[i].checked {
        allCurrent := false;
      }
      UpdateAllBtnCurrent();
      assert Checked(labels[i]) ==> !NoneChecked(labels[..]);
    }

    /** A user click on the checkbox of label `i`: the browser flips it and
        fires `change` on the list, which the widget handles only once it
        is installed. */
    method ClickCheckbox(i: nat)
      requires Valid() && i < labels.Length && labels[i].hasCheckbox
      modifies this`allCurrent, labels
      ensures Valid()
      ensures var flipped := old(labels[i]).(checked := !old(labels[i].checked));
        && (installed ==>
          && labels[..] == old(labels[..])[i := UpdateFilterClose(flipped)]
          && allCurrent == (NoneChecked(labels[..]) || (!labels[i].checked && old(allCurrent))))
        && (!installed ==> labels[..] == old(labels[..])[i := flipped] && allCurrent == old(allCurrent))
      ensures labels[i].checked == !old(labels[i].checked)
      ensures installed ==>
        && (labels[i].checked ==> !allCurrent)
        && (NoneChecked(labels[..]) ==> allCurrent)
        && (old(ClosesSynced()) ==> ClosesSynced())
        && (old(AllSynced()) ==> AllSynced())
    {
      labels[i] := labels[i].(checked := !labels[i].checked);
      OnChange(Checkbox(i));
      assert Checked(labels[i]) ==> !NoneChecked(labels[..]);
    }
  }
}
