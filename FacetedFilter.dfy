/** The multi-select faceted filter control. The committed selection is
    owned by the caller (`value`, changed only through the `onChange`
    callback); the control itself holds whether its popover is open and
    the local search text. */
module FacetedFilter {
  import opened Base
  import opened Text

  datatype FilterMode = Any | All

  /** One choice offered by the control (`{label, value}`). */
  datatype FacetOption = FacetOption(labelText: string, value: string)

  predicate NoDuplicates(s: seq<string>) {
    forall i, j :: 0 <= i < j < |s| ==> s[i] != s[j]
  }

  /** `Array.from(new Set(s))`: each element once, in the order of its
      first insertion. */
  function Distinct(s: seq<string>): (r: seq<string>)
    ensures forall x :: x in r <==> x in s
    ensures NoDuplicates(r)
    ensures |r| <= |s|
  {
    if s == [] then []
    else
      var d := Distinct(s[..|s| - 1]);
      if s[|s| - 1] in d then d else d + [s[|s| - 1]]
  }

  /** A sequence without duplicates is already its own set. */
  lemma {:induction false} DistinctOfDistinct(s: seq<string>)
    requires NoDuplicates(s)
    ensures Distinct(s) == s
  {
    if s != [] {
      var init := s[..|s| - 1];
      assert NoDuplicates(init);
      DistinctOfDistinct(init);
      assert s[|s| - 1] !in init;
      assert init + [s[|s| - 1]] == s;
    }
  }

  /** `Set.delete` followed by `Array.from`: the other elements in their
      order. */
  function Without(s: seq<string>, x: string): (r: seq<string>)
    ensures forall y :: y in r <==> y in s && y != x
  {
    if s == [] then []
    else
      var rest := Without(s[1..], x);
      if s[0] == x then rest else [s[0]] + rest
  }

  lemma {:induction false} WithoutNoDuplicates(s: seq<string>, x: string)
    requires NoDuplicates(s)
    ensures NoDuplicates(Without(s, x))
  {
    if s != [] {
      assert NoDuplicates(s[1..]);
      WithoutNoDuplicates(s[1..], x);
      var rest := Without(s[1..], x);
      if s[0] != x {
        assert s[0] !in rest;
        var r := [s[0]] + rest;
        forall i, j | 0 <= i < j < |r| ensures r[i] != r[j] {
          if i > 0 {
            assert r[i] == rest[i - 1] && r[j] == rest[j - 1];
          } else {
            assert r[j] in rest;
          }
        }
      }
    }
  }

  lemma {:induction false} WithoutAbsent(s: seq<string>, x: string)
    requires x !in s
    ensures Without(s, x) == s
  {
    if s != [] {
      WithoutAbsent(s[1..], x);
    }
  }

  /** Deleting the element at position `i` of a duplicate-free sequence
      leaves the others in their relative order. */
  lemma {:induction false} WithoutAt(s: seq<string>, i: nat)
    requires NoDuplicates(s) && i < |s|
    ensures Without(s, s[i]) == s[..i] + s[i + 1..]
  {
    if i == 0 {
      assert s[0] !in s[1..];
      WithoutAbsent(s[1..], s[0]);
    } else {
      assert NoDuplicates(s[1..]);
      assert s[1..][i - 1] == s[i];
      WithoutAt(s[1..], i - 1);
      assert s[1..][..i - 1] + s[1..][i..] == s[1..i] + s[i + 1..];
      assert [s[0]] + s[1..i] == s[..i];
    }
  }

  /** The selection emitted when option `id` is clicked: removed if it was
      selected, appended last otherwise. */
  function Toggle(value: seq<string>, id: string): seq<string> {
    var selected := Distinct(value);
    if id in selected then Without(selected, id) else selected + [id]
  }

  /** `handleSelect`: copies the selection into a fresh insertion-ordered
      set, deletes or adds the clicked id, and hands the array form to
      `onChange`; without a callback nothing is emitted. */
  method HandleSelect(value: seq<string>, id: string, hasOnChange: bool) returns (emitted: Option<seq<string>>)
    ensures !hasOnChange ==> emitted == None
    ensures hasOnChange ==> emitted == Some(Toggle(value, id))
  {
    if !hasOnChange {
      return None;
    }
    var selected: seq<string> := [];
    var i := 0;
    while i < |value|
      invariant 0 <= i <= |value|
      invariant selected == Distinct(value[..i])
    {
      assert value[..i + 1][..i] == value[..i];
      if value[i] !in selected {
        selected := selected + [value[i]];
      }
      i := i + 1;
    }
    assert value[..|value|] == value;
    if id in selected {
      selected := Without(selected, id);
    } else {
      selected := selected + [id];
    }
    emitted := Some(selected);
  }

  /** Toggling is a symmetric difference: afterwards exactly the ids that
      were selected, except `id`, plus `id` if it was not selected. */
  lemma ToggleMembership(value: seq<string>, id: string, x: string)
    ensures x in Toggle(value, id) <==> (x in value) != (x == id)
  {
  }

  /** The emitted selection never repeats an id. */
  lemma ToggleNoDuplicates(value: seq<string>, id: string)
    ensures NoDuplicates(Toggle(value, id))
  {
    var d := Distinct(value);
    if id in d {
      WithoutNoDuplicates(d, id);
    } else {
      assert forall i :: 0 <= i < |d| ==> d[i] != id;
    }
  }

  /** Deselecting keeps the remaining ids in their original relative order. */
  lemma ToggleRemovesInPlace(value: seq<string>, i: nat)
    requires NoDuplicates(value) && i < |value|
    ensures Toggle(value, value[i]) == value[..i] + value[i + 1..]
  {
    DistinctOfDistinct(value);
    WithoutAt(value, i);
  }

  /** Selecting a new id appends it after the existing selection. */
  lemma ToggleAppends(value: seq<string>, id: string)
    requires NoDuplicates(value) && id !in value
    ensures Toggle(value, id) == value + [id]
  {
    DistinctOfDistinct(value);
  }

  /** Clicking the same option twice restores the selection as a set. */
  lemma ToggleTwice(value: seq<string>, id: string)
    ensures forall x :: x in Toggle(Toggle(value, id), id) <==> x in value
  {
    forall x ensures x in Toggle(Toggle(value, id), id) <==> x in value {
      ToggleMembership(Toggle(value, id), id, x);
      ToggleMembership(value, id, x);
    }
  }

  /** Selecting a new id and clicking it again gives back the exact
      selection, order included. */
  lemma ToggleUndo(value: seq<string>, id: string)
    requires NoDuplicates(value) && id !in value
    ensures Toggle(Toggle(value, id), id) == value
  {
    var added := value + [id];
    ToggleAppends(value, id);
    ToggleNoDuplicates(value, id);
    ToggleRemovesInPlace(added, |value|);
    assert added[..|value|] == value && added[|value| + 1..] == [];
  }

  /** `handleClear`: the empty selection, when there is a callback. */
  function HandleClear(hasOnChange: bool): (emitted: Option<seq<string>>)
    ensures emitted.Some? <==> hasOnChange
    ensures emitted.Some? ==> emitted.value == []
  {
    if hasOnChange then Some([]) else None
  }

  /** The ANY/ALL switch: on means "all". */
  function ModeFromSwitch(checked: bool): FilterMode {
    if checked then All else Any
  }

  /** The switch is shown on exactly when the current mode is "all". */
  function SwitchChecked(mode: FilterMode): bool {
    mode == All
  }

  /** Flipping the switch from the state it shows for a mode and back
      reproduces that mode, and vice versa. */
  lemma ModeSwitchRoundTrip(mode: FilterMode, checked: bool)
    ensures ModeFromSwitch(SwitchChecked(mode)) == mode
    ensures SwitchChecked(ModeFromSwitch(checked)) == checked
  {
  }

  /** `handleModeToggle`: forwards the mode for the new switch position. */
  function HandleModeToggle(checked: bool, hasOnFilterModeChange: bool): (r: Option<FilterMode>)
    ensures r.Some? <==> hasOnFilterModeChange
    ensures r.Some? ==> (r.value == All <==> checked)
  {
    if hasOnFilterModeChange then Some(ModeFromSwitch(checked)) else None
  }

  /** `selectedValues.size`. */
  function SelectedCount(value: seq<string>): nat {
    |Distinct(value)|
  }

  /** The clear button (and the footer holding it) is shown when something
      is selected. */
  predicate FooterVisible(value: seq<string>) {
    SelectedCount(value) > 0
  }

  /** The ANY/ALL switch is shown when the caller allows it and at least
      two distinct ids are selected. */
  predicate ModeToggleVisible(showModeToggle: bool, value: seq<string>) {
    showModeToggle && SelectedCount(value) > 1
  }

  lemma FooterVisibleIff(value: seq<string>)
    ensures FooterVisible(value) <==> value != []
  {
    if value != [] {
      assert value[0] in Distinct(value);
    }
  }

  /** The mode switch is shown exactly when two different ids are selected;
      a single id, even repeated, never shows it. */
  lemma ModeToggleVisibleIff(showModeToggle: bool, value: seq<string>)
    ensures ModeToggleVisible(showModeToggle, value) <==>
            showModeToggle && exists i, j :: 0 <= i < |value| && 0 <= j < |value| && value[i] != value[j]
    ensures ModeToggleVisible(showModeToggle, value) ==> FooterVisible(value)
  {
    var d := Distinct(value);
    if |d| > 1 {
      assert d[0] in value && d[1] in value;
      var i :| 0 <= i < |value| && value[i] == d[0];
      var j :| 0 <= j < |value| && value[j] == d[1];
      assert value[i] != value[j];
    } else {
      forall i, j | 0 <= i < |value| && 0 <= j < |value|
        ensures value[i] == value[j]
      {
        assert value[i] in d && value[j] in d;
      }
    }
  }

  /** Options whose lowercased label contains `q`. */
  function MatchingOptions(options: seq<FacetOption>, q: string): (r: seq<FacetOption>)
    ensures |r| <= |options|
    ensures forall o :: o in r <==> o in options && Contains(Lower(o.labelText), q)
  {
    if options == [] then []
    else
      (if Contains(Lower(options[0].labelText), q) then [options[0]] else [])
      + MatchingOptions(options[1..], q)
  }

  lemma {:induction false} MatchingOptionsAppend(a: seq<FacetOption>, b: seq<FacetOption>, q: string)
    ensures MatchingOptions(a + b, q) == MatchingOptions(a, q) + MatchingOptions(b, q)
  {
    if a == [] {
      assert a + b == b;
    } else {
      assert (a + b)[1..] == a[1..] + b;
      MatchingOptionsAppend(a[1..], b, q);
    }
  }

  /** `filteredOptions`: all options for an empty query, otherwise those
      whose label contains the query, ignoring case. */
  function FilteredOptions(options: seq<FacetOption>, searchQuery: string): seq<FacetOption> {
    if searchQuery == "" then options else MatchingOptions(options, Lower(searchQuery))
  }

  /** The lowercased query occurs somewhere in the lowercased label. */
  ghost predicate LabelMatches(o: FacetOption, searchQuery: string) {
    exists i :: OccursAt(Lower(o.labelText), Lower(searchQuery), i)
  }

  /** An empty search shows every option; a non-empty one shows exactly the
      options in whose lowercased label the lowercased query occurs. */
  lemma FilteredOptionsSpec(options: seq<FacetOption>, searchQuery: string, o: FacetOption)
    ensures searchQuery == "" ==> FilteredOptions(options, searchQuery) == options
    ensures searchQuery != "" ==>
              (o in FilteredOptions(options, searchQuery) <==> o in options && LabelMatches(o, searchQuery))
  {
    if searchQuery != "" {
      ContainsSpec(Lower(o.labelText), Lower(searchQuery));
    }
  }

  /** Filtering keeps the options' relative order: it distributes over any
      split of the option list. */
  lemma FilteredOptionsKeepOrder(a: seq<FacetOption>, b: seq<FacetOption>, searchQuery: string)
    ensures FilteredOptions(a + b, searchQuery) == FilteredOptions(a, searchQuery) + FilteredOptions(b, searchQuery)
  {
    if searchQuery != "" {
      MatchingOptionsAppend(a, b, Lower(searchQuery));
    }
  }

  /** Labels of the options whose value is selected, in option order. */
  function SelectedLabels(options: seq<FacetOption>, value: seq<string>): (r: seq<string>)
    ensures |r| <= |options|
  {
    if options == [] then []
    else
      (if options[0].value in value then [options[0].labelText] else [])
      + SelectedLabels(options[1..], value)
  }

  /** A badge is shown for exactly the labels of the selected options. */
  lemma {:induction false} SelectedLabelsMembers(options: seq<FacetOption>, value: seq<string>)
    ensures forall l :: l in SelectedLabels(options, value) ==>
              exists o :: o in options && o.value in value && o.labelText == l
    ensures forall o :: o in options && o.value in value ==> o.labelText in SelectedLabels(options, value)
  {
    if options != [] {
      SelectedLabelsMembers(options[1..], value);
      assert forall o :: o in options ==> o == options[0] || o in options[1..];
    }
  }

  /** The badges follow the option list's order: the labels of a split
      list are those of its first part, then those of its second. */
  lemma {:induction false} SelectedLabelsAppend(a: seq<FacetOption>, b: seq<FacetOption>, value: seq<string>)
    ensures SelectedLabels(a + b, value) == SelectedLabels(a, value) + SelectedLabels(b, value)
  {
    if a == [] {
      assert a + b == b;
    } else {
      var c := a + b;
      assert c[0] == a[0];
      assert c[1..] == a[1..] + b;
      var head := if a[0].value in value then [a[0].labelText] else [];
      var x, y := SelectedLabels(a[1..], value), SelectedLabels(b, value);
      SelectedLabelsAppend(a[1..], b, value);
      calc {
        SelectedLabels(c, value);
        head + SelectedLabels(a[1..] + b, value);
        head + (x + y);
        { assert head + (x + y) == (head + x) + y; }
        (head + x) + y;
      }
    }
  }

  /** What the trigger button shows next to its title. */
  datatype TriggerBadges =
    | NoBadges
    | CountText(count: nat, text: string)          // "<n> selected"
    | LabelBadges(count: nat, labels: seq<string>)

  /** The trigger summary: nothing when nothing is selected, "<n> selected"
      for more than two distinct ids, otherwise the selected options'
      labels. */
  function Trigger(options: seq<FacetOption>, value: seq<string>): (r: TriggerBadges)
    ensures r.NoBadges? <==> value == []
    ensures r.CountText? ==> r.count > 2 && r.text == NatToString(r.count) + " selected"
    ensures r.LabelBadges? ==> 0 < r.count <= 2 && r.count == SelectedCount(value)
    ensures !r.NoBadges? ==> r.count == SelectedCount(value)
    ensures r.CountText? <==> SelectedCount(value) > 2
    ensures r.LabelBadges? ==> r.labels == SelectedLabels(options, value)
  {
    FooterVisibleIff(value);
    var n := SelectedCount(value);
    if n == 0 then NoBadges
    else if n > 2 then CountText(n, NatToString(n) + " selected")
    else LabelBadges(n, SelectedLabels(options, value))
  }

  /** What the popover's list area shows: loading wins over an error, and
      an error over the option list. */
  datatype ListArea = LoadingOptions | ErrorText(message: string) | NoResults | OptionList(options: seq<FacetOption>)

  function ListAreaOf(isLoading: bool, error: Option<string>, filtered: seq<FacetOption>): (r: ListArea)
    ensures isLoading ==> r == LoadingOptions
    ensures r.ErrorText? ==> !isLoading && error == Some(r.message) && r.message != ""
    ensures r.OptionList? ==> r.options == filtered && filtered != []
    ensures r.NoResults? ==> filtered == []
    ensures !isLoading && error.Some? && error.value != "" ==> r == ErrorText(error.value)
    ensures !isLoading && (error.None? || error.value == "") ==>
              r == (if filtered == [] then NoResults else OptionList(filtered))
  {
    if isLoading then LoadingOptions
    else if error.Some? && error.value != "" then ErrorText(error.value)
    else if |filtered| == 0 then NoResults
    else OptionList(filtered)
  }

  /** The control's own state: whether the popover is open and the local
      search text. */
  class FacetState {
    var open: bool
    var searchQuery: string

    constructor ()
      ensures !open && searchQuery == ""
    {
      open := false;
      searchQuery := "";
    }

    /** The options currently listed in the popover. */
    function Visible(options: seq<FacetOption>): seq<FacetOption>
      reads this
    {
      FilteredOptions(options, searchQuery)
    }

    /** `handleOpenChange`: opens or closes the popover and forwards the
        new state to `onOpenChange`; the search text is kept. */
    method HandleOpenChange(newOpen: bool, hasOnOpenChange: bool) returns (forwarded: Option<bool>)
      modifies this
      ensures open == newOpen && searchQuery == old(searchQuery)
      ensures forwarded == if hasOnOpenChange then Some(newOpen) else None
    {
      open := newOpen;
      forwarded := if hasOnOpenChange then Some(newOpen) else None;
    }

    /** `handleClose`: closes the popover and discards the search text, so
        every option is listed again. */
    method HandleClose()
      modifies this
      ensures !open && searchQuery == ""
      ensures forall options :: Visible(options) == options
    {
      open := false;
      searchQuery := "";
    }

    /** Typing in the search box. */
    method SetSearchQuery(q: string)
      modifies this
      ensures searchQuery == q && open == old(open)
    {
      searchQuery := q;
    }
  }
}
