/** The save-diff rules of a dashboard scene: which variable values, time
    range and refresh setting changed between the dashboard being saved and
    its migrated original, and how the variables, the time range and the
    refresh setting that are not being saved are put back. */
module DashboardChanges {
  import opened Wrappers

  // ---------------------------------------------------------------------------
  // Values of the save model
  // ---------------------------------------------------------------------------

  /** The text or value of a variable option: a string or an array of
      strings. */
  datatype StrOrArr = Str(s: string) | Arr(items: seq<string>)

  /** An option of a variable. `selected` is optional, and is removed from
      originals before they are compared. */
  datatype VariableOption = VariableOption(selected: Option<bool>, text: StrOrArr, value: StrOrArr)

  /** An ad hoc filter, by the three properties compared. */
  datatype AdHocFilter = AdHocFilter(key: string, operator: string, value: string)

  /** A template variable. `kind` is the variable's `type`; `filters` is held
      by ad hoc variables and may be missing. */
  datatype Variable = Variable(
    name: string,
    kind: string,
    current: Option<VariableOption>,
    options: seq<VariableOption>,
    filters: Option<seq<AdHocFilter>>)

  /** A dashboard's time range. */
  datatype TimeRange = TimeRange(from: string, to: string)

  /** The outcome of a JavaScript call: its value, or the message of the error
      it threw. */
  datatype Completion<T> = Normal(value: T) | Threw(message: string)

  // ---------------------------------------------------------------------------
  // Equality helpers
  // ---------------------------------------------------------------------------

  /** `typeof a === typeof b`. */
  predicate SameType(a: StrOrArr, b: StrOrArr) {
    a.Str? == b.Str?
  }

  /** `deepEqual`: same type, and equal strings or equal-length arrays that
      agree at every index. */
  predicate DeepEqual(a: StrOrArr, b: StrOrArr) {
    && SameType(a, b)
    && ((a.Str? && a.s == b.s) ||
        (a.Arr? && |a.items| == |b.items| && forall i :: 0 <= i < |a.items| ==> a.items[i] == b.items[i]))
  }

  /** `deepEqual` is equality of the two values. */
  lemma DeepEqualIsEquality(a: StrOrArr, b: StrOrArr)
    ensures DeepEqual(a, b) <==> a == b
  {
    if a.Arr? && b.Arr? && DeepEqual(a, b) {
      assert a.items == b.items;
    }
  }

  /** `isEqual`: both the same option, or both present with the same
      `selected` and deep-equal `text` and `value`. */
  predicate IsEqual(a: Option<VariableOption>, b: Option<VariableOption>) {
    a == b ||
    (a.Some? && b.Some? && a.value.selected == b.value.selected &&
     DeepEqual(a.value.text, b.value.text) && DeepEqual(a.value.value, b.value.value))
  }

  /** `isEqual` is equality of the two options: an absent option equals only
      an absent one, and present ones are equal field by field. */
  lemma IsEqualIsEquality(a: Option<VariableOption>, b: Option<VariableOption>)
    ensures IsEqual(a, b) <==> a == b
  {
    if a.Some? && b.Some? {
      DeepEqualIsEquality(a.value.text, b.value.text);
      DeepEqualIsEquality(a.value.value, b.value.value);
    }
  }

  /** `getHasTimeChanged`: the start or the end of the optional time range
      differs, an absent range reading as undefined for both. */
  predicate HasTimeChanged(time: Option<TimeRange>, originalTime: Option<TimeRange>) {
    || (if time.Some? then Some(time.value.from) else None) != (if originalTime.Some? then Some(originalTime.value.from) else None)
    || (if time.Some? then Some(time.value.to) else None) != (if originalTime.Some? then Some(originalTime.value.to) else None)
  }

  /** The time range changed exactly when the two optional ranges differ. */
  lemma HasTimeChangedIsInequality(time: Option<TimeRange>, originalTime: Option<TimeRange>)
    ensures HasTimeChanged(time, originalTime) <==> time != originalTime
  {
  }

  /** Two filters match on key, operator and value. */
  predicate SameFilter(f: AdHocFilter, g: AdHocFilter) {
    f.key == g.key && f.operator == g.operator && f.value == g.value
  }

  /** What `adHocVariableFiltersEqual` computes: an error when either side has
      no filters, and otherwise whether the two lists are equal. */
  function FiltersOutcome(a: Variable, b: Variable): (r: Completion<bool>)
    ensures r.Threw? <==> a.filters.None? || b.filters.None?
    ensures r.Normal? ==> (r.value <==> a.filters.value == b.filters.value)
  {
    if a.filters.None? || b.filters.None? then Threw(MissingFilters)
    else Normal(a.filters.value == b.filters.value)
  }

  const MissingFilters := "AdHoc variable missing filter property"

  /** `adHocVariableFiltersEqual`: throws when either side has no filters,
      answers false on a length mismatch, and otherwise compares the filters
      pairwise, stopping at the first pair that differs. */
  method AdHocVariableFiltersEqual(a: Variable, b: Variable) returns (r: Completion<bool>)
    ensures r.Threw? <==> a.filters.None? || b.filters.None?
    ensures r.Threw? ==> r.message == MissingFilters
    ensures r.Normal? ==> (r.value <==>
      |a.filters.value| == |b.filters.value| &&
      forall i :: 0 <= i < |a.filters.value| ==> SameFilter(a.filters.value[i], b.filters.value[i]))
    ensures r == FiltersOutcome(a, b)
  {
    if a.filters.None? || b.filters.None? {
      return Threw(MissingFilters);
    }
    var fa, fb := a.filters.value, b.filters.value;
    if |fa| != |fb| {
      return Normal(false);
    }
    var i := 0;
    while i < |fa|
      invariant 0 <= i <= |fa|
      invariant forall j :: 0 <= j < i ==> SameFilter(fa[j], fb[j])
    {
      if fa[i].key != fb[i].key || fa[i].operator != fb[i].operator || fa[i].value != fb[i].value {
        return Normal(false);
      }
      i := i + 1;
    }
    assert fa == fb by {
      forall j | 0 <= j < |fa| ensures fa[j] == fb[j] {
        assert SameFilter(fa[j], fb[j]);
      }
    }
    return Normal(true);
  }

  // ---------------------------------------------------------------------------
  // applyVariableChanges, on the variable lists
  // ---------------------------------------------------------------------------

  /** `find`'s test: the same name and the same type. */
  predicate SameVar(a: Variable, b: Variable) {
    a.name == b.name && a.kind == b.kind
  }

  /** The index `find` returns: the first original with the variable's name
      and type, or None. */
  function MatchIndex(originals: seq<Variable>, v: Variable): (r: Option<nat>)
    ensures r.Some? ==> r.value < |originals|
  {
    if originals == [] then None
    else if SameVar(originals[0], v) then Some(0)
    else match MatchIndex(originals[1..], v)
      case None => None
      case Some(i) => Some(i + 1)
  }

  /** `find` returns the first match, and None only when nothing matches. */
  lemma {:induction false} MatchIndexIsFirst(originals: seq<Variable>, v: Variable)
    ensures var r := MatchIndex(originals, v);
      && (r.Some? ==> SameVar(originals[r.value], v) && forall i :: 0 <= i < r.value ==> !SameVar(originals[i], v))
      && (r.None? <==> forall i :: 0 <= i < |originals| ==> !SameVar(originals[i], v))
  {
    if originals != [] && !SameVar(originals[0], v) {
      MatchIndexIsFirst(originals[1..], v);
      forall i | 1 <= i < |originals| ensures originals[i] == originals[1..][i - 1] {
      }
    }
  }

  /** `find` looks at names and types only, so it finds the same index in two
      lists that agree on them. */
  lemma {:induction false} MatchIndexOfSameVars(o1: seq<Variable>, o2: seq<Variable>, v: Variable)
    requires |o1| == |o2| && forall i :: 0 <= i < |o1| ==> SameVar(o1[i], o2[i])
    ensures MatchIndex(o1, v) == MatchIndex(o2, v)
  {
    if o1 != [] {
      assert SameVar(o1[0], o2[0]);
      forall i | 0 <= i < |o1[1..]| ensures SameVar(o1[1..][i], o2[1..][i]) {
        assert SameVar(o1[i + 1], o2[i + 1]);
      }
      MatchIndexOfSameVars(o1[1..], o2[1..], v);
    }
  }

  /** The original with `selected` removed from its current option. */
  function StripSelected(o: Variable): (r: Variable)
    ensures SameVar(r, o)
    ensures r.current.Some? ==> r.current.value.selected.None?
  {
    if o.current.Some? then o.(current := Some(o.current.value.(selected := None))) else o
  }

  /** Stripping `selected` twice is stripping it once. */
  lemma StripSelectedIdempotent(o: Variable)
    ensures StripSelected(StripSelected(o)) == StripSelected(o)
  {
  }

  /** A variable that is not being saved takes back the original's filters
      when it is ad hoc, and otherwise the original's current option and
      options. */
  function Restored(v: Variable, o: Variable): Variable {
    if v.kind == "adhoc" then v.(filters := o.filters) else v.(current := o.current, options := o.options)
  }

  /** The outcome after comparing `v` with its original `o`, given the
      outcome so far: true once some value differs, and an error when the
      filter comparison throws. */
  function CompareOutcome(v: Variable, o: Variable, sofar: Completion<bool>): Completion<bool> {
    if !IsEqual(v.current, o.current) then Normal(true)
    else if v.kind == "adhoc" then
      match FiltersOutcome(v, o)
      case Threw(e) => Threw(e)
      case Normal(eq) => if eq then sofar else Normal(true)
    else sofar
  }

  /** The variables being saved, the originals and the outcome so far. */
  datatype ApplyState = ApplyState(save: seq<Variable>, originals: seq<Variable>, outcome: Completion<bool>)

  /** The pass of the loop over variable `j`, told in terms of the lists
      `save` and `originals` as they were before the loop: a pass reads only
      its own variable, which no earlier pass writes, and the names, types
      and stripped current options of the originals, which no pass changes.
      Nothing happens once a comparison has thrown. */
  function ApplyStep(save: seq<Variable>, originals: seq<Variable>, st: ApplyState, j: nat, saveVariables: bool): ApplyState
    requires j < |save| && |st.save| == |save| && |st.originals| == |originals|
  {
    if st.outcome.Threw? then st
    else match MatchIndex(originals, save[j])
      case None => st
      case Some(m) =>
        var o := StripSelected(originals[m]);
        var outcome := CompareOutcome(save[j], o, st.outcome);
        ApplyState(
          if outcome.Threw? || saveVariables then st.save else st.save[j := Restored(save[j], o)],
          st.originals[m := o],
          outcome)
  }

  /** The state after the loop has visited the first `n` variables. */
  function Applied(save: seq<Variable>, originals: seq<Variable>, saveVariables: bool, n: nat): (r: ApplyState)
    requires n <= |save|
    ensures |r.save| == |save| && |r.originals| == |originals|
    decreases n
  {
    if n == 0 then ApplyState(save, originals, Normal(false))
    else ApplyStep(save, originals, Applied(save, originals, saveVariables, n - 1), n - 1, saveVariables)
  }

  /** After `n` passes the variables not yet visited are as they were, and
      every original is either as it was or has lost `selected`. */
  lemma {:induction false} AppliedTracks(save: seq<Variable>, originals: seq<Variable>, saveVariables: bool, n: nat)
    requires n <= |save|
    ensures var st := Applied(save, originals, saveVariables, n);
      && (forall i :: n <= i < |save| ==> st.save[i] == save[i])
      && (forall i :: 0 <= i < |originals| ==>
            st.originals[i] == originals[i] || st.originals[i] == StripSelected(originals[i]))
  {
    if n > 0 {
      AppliedTracks(save, originals, saveVariables, n - 1);
    }
  }

  /** A thrown error stops the loop: every later pass leaves the state as it is. */
  lemma {:induction false} AppliedStaysThrown(save: seq<Variable>, originals: seq<Variable>, saveVariables: bool, k: nat, n: nat)
    requires k <= n <= |save|
    requires Applied(save, originals, saveVariables, k).outcome.Threw?
    ensures Applied(save, originals, saveVariables, n) == Applied(save, originals, saveVariables, k)
    decreases n
  {
    if n > k {
      AppliedStaysThrown(save, originals, saveVariables, k, n - 1);
    }
  }

  // ---------------------------------------------------------------------------
  // What applyVariableChanges does
  // ---------------------------------------------------------------------------

  /** Comparing `v` with its original `o` throws: the current options are
      equal, `v` is ad hoc, and one side has no filters. */
  predicate Raises(v: Variable, o: Variable) {
    IsEqual(v.current, o.current) && v.kind == "adhoc" && FiltersOutcome(v, o).Threw?
  }

  /** `v`'s value differs from its original `o`'s: the current options
      differ, or `v` is ad hoc and the filters differ. */
  predicate Differs(v: Variable, o: Variable) {
    !IsEqual(v.current, o.current) || (v.kind == "adhoc" && FiltersOutcome(v, o) == Normal(false))
  }

  /** How one comparison changes the outcome so far. */
  lemma CompareOutcomeCases(v: Variable, o: Variable, sofar: Completion<bool>)
    ensures Raises(v, o) ==> CompareOutcome(v, o, sofar) == Threw(MissingFilters)
    ensures !Raises(v, o) && Differs(v, o) ==> CompareOutcome(v, o, sofar) == Normal(true)
    ensures !Raises(v, o) && !Differs(v, o) ==> CompareOutcome(v, o, sofar) == sofar
  {
  }

  /** Variable `i` has an original, and comparing the two throws. */
  predicate RaisesAt(save: seq<Variable>, originals: seq<Variable>, i: nat)
    requires i < |save|
  {
    var mi := MatchIndex(originals, save[i]);
    mi.Some? && Raises(save[i], StripSelected(originals[mi.value]))
  }

  /** Variable `i` has an original, and its value differs from it. */
  predicate DiffersAt(save: seq<Variable>, originals: seq<Variable>, i: nat)
    requires i < |save|
  {
    var mi := MatchIndex(originals, save[i]);
    mi.Some? && Differs(save[i], StripSelected(originals[mi.value]))
  }

  /** The loop throws exactly when some variable's comparison throws, and
      the error is the missing-filters one. */
  lemma {:induction false} AppliedThrows(save: seq<Variable>, originals: seq<Variable>, saveVariables: bool, n: nat)
    requires n <= |save|
    ensures var r := Applied(save, originals, saveVariables, n).outcome;
      && (r.Threw? <==> exists i :: 0 <= i < n && RaisesAt(save, originals, i))
      && (r.Threw? ==> r.message == MissingFilters)
  {
    if n > 0 {
      var j := n - 1;
      AppliedThrows(save, originals, saveVariables, j);
      var mi := MatchIndex(originals, save[j]);
      if mi.Some? {
        CompareOutcomeCases(save[j], StripSelected(originals[mi.value]), Applied(save, originals, saveVariables, j).outcome);
      }
      assert (exists i :: 0 <= i < n && RaisesAt(save, originals, i)) <==>
        (exists i :: 0 <= i < j && RaisesAt(save, originals, i)) || RaisesAt(save, originals, j);
    }
  }

  /** When the loop does not throw, it answers true exactly when some
      variable that has an original differs from it; variables without an
      original play no part. */
  lemma {:induction false} AppliedAnswers(save: seq<Variable>, originals: seq<Variable>, saveVariables: bool, n: nat)
    requires n <= |save|
    ensures var r := Applied(save, originals, saveVariables, n).outcome;
      r.Normal? ==> (r.value <==> exists i :: 0 <= i < n && DiffersAt(save, originals, i))
  {
    if n > 0 {
      var j := n - 1;
      AppliedAnswers(save, originals, saveVariables, j);
      var st := Applied(save, originals, saveVariables, j);
      var mi := MatchIndex(originals, save[j]);
      if mi.Some? {
        CompareOutcomeCases(save[j], StripSelected(originals[mi.value]), st.outcome);
      }
      assert (exists i :: 0 <= i < n && DiffersAt(save, originals, i)) <==>
        (exists i :: 0 <= i < j && DiffersAt(save, originals, i)) || DiffersAt(save, originals, j);
    }
  }

  /** While the loop has not thrown, every original that some visited
      variable matched has lost `selected`; an original nothing matched is
      left as it was, throw or not. */
  lemma {:induction false} AppliedStrips(save: seq<Variable>, originals: seq<Variable>, saveVariables: bool, n: nat, m: nat)
    requires n <= |save| && m < |originals|
    ensures var r := Applied(save, originals, saveVariables, n);
      && (r.outcome.Normal? && (exists i :: 0 <= i < n && MatchIndex(originals, save[i]) == Some(m)) ==>
            r.originals[m] == StripSelected(originals[m]))
      && ((forall i :: 0 <= i < n ==> MatchIndex(originals, save[i]) != Some(m)) ==>
            r.originals[m] == originals[m])
  {
    if n > 0 {
      var j := n - 1;
      AppliedStrips(save, originals, saveVariables, j, m);
      var st := Applied(save, originals, saveVariables, j);
      if st.outcome.Threw? {
        AppliedStaysThrown(save, originals, saveVariables, j, n);
      }
    }
  }

  /** A variable with no original of the same name and type is never
      modified; with `saveVariables` set, no variable is. */
  lemma {:induction false} AppliedKeeps(save: seq<Variable>, originals: seq<Variable>, saveVariables: bool, n: nat, i: nat)
    requires n <= |save| && i < |save|
    requires MatchIndex(originals, save[i]).None? || saveVariables
    ensures Applied(save, originals, saveVariables, n).save[i] == save[i]
  {
    if n > 0 {
      AppliedKeeps(save, originals, saveVariables, n - 1, i);
    }
  }

  /** Without `saveVariables`, and while the loop has not thrown, every
      visited variable that has an original takes back the original's
      filters, when ad hoc, or its current option and options. */
  lemma {:induction false} AppliedRestores(save: seq<Variable>, originals: seq<Variable>, n: nat, i: nat)
    requires i < n <= |save|
    requires MatchIndex(originals, save[i]).Some?
    ensures var r := Applied(save, originals, false, n);
      r.outcome.Normal? ==> r.save[i] == Restored(save[i], StripSelected(originals[MatchIndex(originals, save[i]).value]))
  {
    var j := n - 1;
    var st := Applied(save, originals, false, j);
    if st.outcome.Threw? {
      AppliedStaysThrown(save, originals, false, j, n);
    } else if i < j {
      AppliedRestores(save, originals, j, i);
    }
  }

  // ---------------------------------------------------------------------------
  // The dashboards
  // ---------------------------------------------------------------------------

  /** A dashboard save model, by the properties the save-diff rules read and
      write. `templating` is the variable list, absent when the dashboard has
      none. */
  class Dashboard {
    var time: Option<TimeRange>
    var refresh: Option<string>
    var version: Option<int>
    var templating: Option<seq<Variable>>

    /** The dashboard as a value, for the diff. */
    function Model(): DashboardModel
      reads this
    {
      DashboardModel(time, refresh, version, templating)
    }
  }

  /** The value of a dashboard's properties. */
  datatype DashboardModel = DashboardModel(
    time: Option<TimeRange>,
    refresh: Option<string>,
    version: Option<int>,
    templating: Option<seq<Variable>>)

  /** `templating?.list ?? []`. */
  function ListOf(templating: Option<seq<Variable>>): seq<Variable> {
    if templating.Some? then templating.value else []
  }

  /** The list written back where there was one. */
  function WithList(templating: Option<seq<Variable>>, list: seq<Variable>): Option<seq<Variable>> {
    if templating.Some? then Some(list) else None
  }

  /** One pass of `applyVariableChanges`'s loop, over variable `j` of the
      lists `toSave` and `originals` as the loop holds them: finds the first
      original of the same name and type, removes `selected` from its current
      option, compares, and puts the original's value back when variables are
      not being saved. */
  method ApplyPass(toSave: seq<Variable>, originals: seq<Variable>, changed: bool, j: nat, saveVariables: bool,
                   ghost save0: seq<Variable>, ghost originals0: seq<Variable>)
    returns (toSave': seq<Variable>, originals': seq<Variable>, outcome: Completion<bool>)
    requires j < |toSave| == |save0| && |originals| == |originals0|
    requires toSave[j] == save0[j]
    requires forall i :: 0 <= i < |originals| ==>
      originals[i] == originals0[i] || originals[i] == StripSelected(originals0[i])
    ensures ApplyState(toSave', originals', outcome) ==
      ApplyStep(save0, originals0, ApplyState(toSave, originals, Normal(changed)), j, saveVariables)
  {
    toSave', originals', outcome := toSave, originals, Normal(changed);
    var v := toSave[j];
    forall i | 0 <= i < |originals| ensures SameVar(originals[i], originals0[i]) {
    }
    MatchIndexOfSameVars(originals, originals0, v);
    var found := MatchIndex(originals, v);
    if found.None? {
      return;
    }
    var m := found.value;
    if originals[m].current.Some? {
      originals' := originals[m := originals[m].(current := Some(originals[m].current.value.(selected := None)))];
    }
    var original := originals'[m];
    StripSelectedIdempotent(originals0[m]);
    assert original == StripSelected(originals0[m]);
    if !IsEqual(v.current, original.current) {
      outcome := Normal(true);
    } else if v.kind == "adhoc" {
      var eq := AdHocVariableFiltersEqual(v, original);
      if eq.Threw? {
        return toSave, originals', eq;
      }
      if !eq.value {
        outcome := Normal(true);
      }
    }
    if !saveVariables {
      if v.kind == "adhoc" {
        toSave' := toSave[j := v.(filters := original.filters)];
      } else {
        toSave' := toSave[j := v.(current := original.current, options := original.options)];
      }
    }
  }

  /** `applyVariableChanges`: visits the variables being saved in order,
      one pass each. A filter comparison that throws ends the call, leaving
      the changes made so far. */
  method ApplyVariableChanges(saveModel: Dashboard, originalSaveModel: Dashboard, saveVariables: bool)
    returns (r: Completion<bool>)
    requires saveModel != originalSaveModel
    modifies saveModel, originalSaveModel
    ensures var save0, originals0 := ListOf(old(saveModel.templating)), ListOf(old(originalSaveModel.templating));
      var st := Applied(save0, originals0, saveVariables, |save0|);
      && r == st.outcome
      && saveModel.templating == WithList(old(saveModel.templating), st.save)
      && originalSaveModel.templating == WithList(old(originalSaveModel.templating), st.originals)
    ensures saveModel.time == old(saveModel.time) && saveModel.refresh == old(saveModel.refresh)
    ensures saveModel.version == old(saveModel.version)
    ensures originalSaveModel.time == old(originalSaveModel.time) && originalSaveModel.refresh == old(originalSaveModel.refresh)
    ensures originalSaveModel.version == old(originalSaveModel.version)
  {
    var originals := ListOf(originalSaveModel.templating);
    var toSave := ListOf(saveModel.templating);
    ghost var save0, originals0 := toSave, originals;
    r := Normal(false);
    var j := 0;
    while j < |toSave|
      invariant 0 <= j <= |toSave| == |save0|
      invariant ApplyState(toSave, originals, r) == Applied(save0, originals0, saveVariables, j)
      invariant r.Normal?
      modifies {}
    {
      AppliedTracks(save0, originals0, saveVariables, j);
      toSave, originals, r := ApplyPass(toSave, originals, r.value, j, saveVariables, save0, originals0);
      j := j + 1;
      if r.Threw? {
        AppliedStaysThrown(save0, originals0, saveVariables, j, |save0|);
        break;
      }
    }
    saveModel.templating := WithList(saveModel.templating, toSave);
    originalSaveModel.templating := WithList(originalSaveModel.templating, originals);
  }

  // ---------------------------------------------------------------------------
  // getDashboardChanges
  // ---------------------------------------------------------------------------

  /** A JSON diff, by the values of its object: one array of changes per
      changed path, the changes themselves left abstract. */
  type Diff = seq<seq<string>>

  /** The diff count: the lengths of the diff's arrays added up, from the
      first to the last. */
  function DiffCount(d: Diff): nat {
    if d == [] then 0 else DiffCount(d[..|d| - 1]) + |d[|d| - 1]|
  }

  /** The count is zero exactly when every array of the diff is empty, and it
      is at least the length of each. */
  lemma {:induction false} DiffCountBounds(d: Diff)
    ensures DiffCount(d) == 0 <==> forall i :: 0 <= i < |d| ==> d[i] == []
    ensures forall i :: 0 <= i < |d| ==> |d[i]| <= DiffCount(d)
  {
    if d != [] {
      var init := d[..|d| - 1];
      DiffCountBounds(init);
      forall i | 0 <= i < |init| ensures init[i] == d[i] {
      }
    }
  }

  /** What `getDashboardChanges` reports. */
  datatype Changes = Changes(
    migrationDiff: Diff,
    diffs: Diff,
    diffCount: nat,
    hasChanges: bool,
    hasTimeChanges: bool,
    isNew: bool,
    hasVariableValueChanges: bool,
    hasRefreshChange: bool)

  /** `getDashboardChanges`: notes which of the time range and the refresh
      setting changed, applies the variable rules, puts back the migrated time
      range and refresh setting unless they are being saved, and then diffs
      the dashboards. `jsonDiff` stands for the JSON diff of two dashboards.
      An error thrown by the variable rules ends the call before the time
      range and the refresh setting are touched. */
  method GetDashboardChanges(
    initial: Dashboard, changed: Dashboard, migrated: Dashboard,
    saveTimeRange: bool, saveVariables: bool, saveRefresh: bool,
    jsonDiff: (DashboardModel, DashboardModel) -> Diff)
    returns (r: Completion<Changes>)
    requires changed != migrated
    modifies changed, migrated
    ensures var save0, originals0 := ListOf(old(changed.templating)), ListOf(old(migrated.templating));
      var applied := Applied(save0, originals0, saveVariables, |save0|);
      && (r.Threw? <==> applied.outcome.Threw?)
      && changed.templating == WithList(old(changed.templating), applied.save)
      && migrated.templating == WithList(old(migrated.templating), applied.originals)
      && (r.Normal? ==> r.value.hasVariableValueChanges == applied.outcome.value)
    ensures migrated.time == old(migrated.time) && migrated.refresh == old(migrated.refresh)
    ensures migrated.version == old(migrated.version) && changed.version == old(changed.version)
    ensures r.Threw? ==> changed.time == old(changed.time) && changed.refresh == old(changed.refresh)
    ensures r.Normal? ==>
      && changed.time == (if saveTimeRange then old(changed.time) else migrated.time)
      && changed.refresh == (if saveRefresh then old(changed.refresh) else migrated.refresh)
      && (!saveTimeRange ==> !HasTimeChanged(changed.time, migrated.time))
    ensures r.Normal? ==>
      && r.value.hasTimeChanges == HasTimeChanged(old(changed.time), old(migrated.time))
      && r.value.hasRefreshChange == (old(changed.refresh) != old(migrated.refresh))
    ensures r.Normal? ==>
      && r.value.migrationDiff == jsonDiff(initial.Model(), migrated.Model())
      && r.value.diffs == jsonDiff(migrated.Model(), changed.Model())
      && r.value.diffCount == DiffCount(r.value.diffs)
      && (r.value.hasChanges <==> exists i :: 0 <= i < |r.value.diffs| && r.value.diffs[i] != [])
      && (r.value.isNew <==> changed.version == Some(0))
  {
    var hasTimeChanged := HasTimeChanged(changed.time, migrated.time);
    var hasVariableValueChanges := ApplyVariableChanges(changed, migrated, saveVariables);
    if hasVariableValueChanges.Threw? {
      return Threw(hasVariableValueChanges.message);
    }
    var hasRefreshChanged := changed.refresh != migrated.refresh;
    if !saveTimeRange {
      changed.time := migrated.time;
    }
    if !saveRefresh {
      changed.refresh := migrated.refresh;
    }
    var migrationDiff := jsonDiff(initial.Model(), migrated.Model());
    var diff := jsonDiff(migrated.Model(), changed.Model());
    var diffCount := DiffCount(diff);
    DiffCountBounds(diff);
    r := Normal(Changes(
      migrationDiff := migrationDiff,
      diffs := diff,
      diffCount := diffCount,
      hasChanges := diffCount > 0,
      hasTimeChanges := hasTimeChanged,
      isNew := changed.version == Some(0),
      hasVariableValueChanges := hasVariableValueChanges.value,
      hasRefreshChange := hasRefreshChanged));
  }
}
