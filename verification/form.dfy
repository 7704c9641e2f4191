/** The form controller: a registry of field getters and updaters keyed by
    field name, autofill through that registry, and the submit protocol that
    refreshes every field, partitions them by validity and settles on exactly
    one outcome. */
module FormController {
  import opened FieldController

  /** One entry of the list the submit protocol works on: a getter's snapshot
      `{name, ...getter()}`, or, once the field's updater has been re-run, the
      updater's result `{...updater(value)}`. */
  datatype FieldData =
    | Snapshot(key: string, state: FieldState)
    | Refreshed(result: UpdateResult)
  {
    function Name(): (n: string) {
      match this
      case Snapshot(k, _) => k
      case Refreshed(r) => r.name
    }

    function Value(): (v: string) {
      match this
      case Snapshot(_, s) => s.value
      case Refreshed(r) => r.value
    }

    /** The truthiness of `field.isValid`: an updater result for a validator
        verdict that fell through has no `isValid`, which reads as false. */
    function IsValid(): (valid: bool)
      ensures Refreshed? && result.validation.None? ==> !valid
      ensures Refreshed? && result.validation.Some? ==> (valid <==> result.validation.value.isValid)
      ensures Snapshot? ==> (valid <==> state.isValid)
    {
      match this
      case Snapshot(_, s) => s.isValid
      case Refreshed(r) => r.validation.Some? && r.validation.value.isValid
    }
  }

  /** What an attempt to submit comes to: ignored by the guard, `onSubmit`
      with the value map, `onValidationError` with the value map and the
      invalid fields, or no call at all (invalid fields and no error callback). */
  datatype SubmitOutcome =
    | Ignored
    | Submitted(values: map<string, string>)
    | ValidationError(values: map<string, string>, invalid: seq<FieldData>)
    | NoCallback

  predicate Distinct(s: seq<string>) {
    forall i, j :: 0 <= i < j < |s| ==> s[i] != s[j]
  }

  predicate DistinctNames(fields: seq<FieldData>) {
    forall i, j :: 0 <= i < j < |fields| ==> fields[i].Name() != fields[j].Name()
  }

  /** Every updater is registered under the name of the field it updates. */
  predicate Coherent(updaters: map<string, Field>) {
    forall k :: k in updaters ==> updaters[k].name == k
  }

  /** `s` with `x` deleted: the key order after `delete`. */
  function Without(s: seq<string>, x: string): (r: seq<string>)
    ensures x !in r
    ensures x !in s ==> r == s
    ensures x in s ==> |r| < |s|
    ensures |r| <= |s|
  {
    if s == [] then []
    else if s[0] == x then Without(s[1..], x)
    else [s[0]] + Without(s[1..], x)
  }

  /** Deleting `x` removes exactly `x` and keeps a key order free of repeats. */
  lemma {:induction false} WithoutMembers(s: seq<string>, x: string)
    ensures forall y :: y in Without(s, x) <==> y in s && y != x
    ensures Distinct(s) ==> Distinct(Without(s, x))
  {
    if s != [] {
      var t := s[1..];
      WithoutMembers(t, x);
      assert forall y :: y in s <==> y == s[0] || y in t;
      if Distinct(s) {
        assert Distinct(t);
        assert s[0] !in t;
      }
    }
  }

  /** Deleting a key that occurs once, at `i`, closes the gap at `i`. */
  lemma {:induction false} WithoutOnce(s: seq<string>, i: nat)
    requires i < |s| && s[i] !in s[..i] && s[i] !in s[i + 1..]
    ensures Without(s, s[i]) == s[..i] + s[i + 1..]
  {
    var t := s[1..];
    if i == 0 {
      assert s[..0] + s[1..] == t;
    } else {
      assert s[..i] == [s[0]] + t[..i - 1];
      assert t[i - 1] == s[i] && t[i..] == s[i + 1..];
      WithoutOnce(t, i - 1);
    }
  }

  /** In a key order without repeats, deleting a key closes the gap and keeps
      every other key where it was relative to the rest. */
  lemma WithoutAt(s: seq<string>, i: nat)
    requires Distinct(s) && i < |s|
    ensures Without(s, s[i]) == s[..i] + s[i + 1..]
  {
    assert s[i] !in s[..i] && s[i] !in s[i + 1..];
    WithoutOnce(s, i);
  }

  /** `getInvalidFields`: the fields whose `isValid` is falsy, in order. */
  function GetInvalidFields(fields: seq<FieldData>): (r: seq<FieldData>)
    ensures |r| <= |fields|
    ensures forall i :: 0 <= i < |r| ==> !r[i].IsValid()
  {
    if fields == [] then []
    else (if fields[0].IsValid() then [] else [fields[0]]) + GetInvalidFields(fields[1..])
  }

  /** The invalid fields are exactly the fields that are not valid, so the
      list is empty exactly when every field is valid. */
  lemma {:induction false} InvalidFieldsMembers(fields: seq<FieldData>)
    ensures forall f :: f in GetInvalidFields(fields) <==> f in fields && !f.IsValid()
    ensures GetInvalidFields(fields) == [] <==> forall f :: f in fields ==> f.IsValid()
  {
    if fields != [] {
      var t := fields[1..];
      InvalidFieldsMembers(t);
      assert forall f :: f in fields <==> f == fields[0] || f in t;
    }
  }

  /** Filtering distributes over concatenation; with the single-element case
      this pins the order of the result to the order of the input. */
  lemma {:induction false} InvalidFieldsDistribute(a: seq<FieldData>, b: seq<FieldData>)
    ensures GetInvalidFields(a + b) == GetInvalidFields(a) + GetInvalidFields(b)
  {
    if a == [] {
      assert a + b == b;
    } else {
      var head := if a[0].IsValid() then [] else [a[0]];
      calc {
        GetInvalidFields(a + b);
        { assert (a + b)[0] == a[0] && (a + b)[1..] == a[1..] + b; }
        head + GetInvalidFields(a[1..] + b);
        { InvalidFieldsDistribute(a[1..], b); }
        head + (GetInvalidFields(a[1..]) + GetInvalidFields(b));
        (head + GetInvalidFields(a[1..])) + GetInvalidFields(b);
      }
    }
  }

  /** The `fieldData` map built by assigning `fieldData[f.name] = f.value` in order. */
  function ValueMap(fields: seq<FieldData>): (m: map<string, string>)
  {
    if fields == [] then map[]
    else
      var last := fields[|fields| - 1];
      ValueMap(fields[..|fields| - 1])[last.Name() := last.Value()]
  }

  /** The value map has exactly the names of the list as keys. */
  lemma {:induction false} ValueMapKeys(fields: seq<FieldData>)
    ensures forall k :: k in ValueMap(fields) <==> k in Names(fields)
  {
    if fields != [] {
      var n := |fields| - 1;
      ValueMapKeys(fields[..n]);
      assert Names(fields) == Names(fields[..n]) + [fields[n].Name()];
    }
  }

  /** Assigning one more entry updates the map at that entry's name. */
  lemma ValueMapSnoc(fields: seq<FieldData>, f: FieldData)
    ensures ValueMap(fields + [f]) == ValueMap(fields)[f.Name() := f.Value()]
  {
    assert (fields + [f])[..|fields|] == fields;
  }

  /** When names do not repeat, each name maps to its own field's value. */
  lemma {:induction false} ValueMapAt(fields: seq<FieldData>, i: nat)
    requires DistinctNames(fields) && i < |fields|
    ensures fields[i].Name() in ValueMap(fields)
    ensures ValueMap(fields)[fields[i].Name()] == fields[i].Value()
  {
    var n := |fields| - 1;
    if i < n {
      var init := fields[..n];
      assert init[i] == fields[i];
      ValueMapAt(init, i);
    }
  }

  /** One entry of the submit loop: re-run the field's updater, if there is
      one, on the snapshot's value and keep what it returns. */
  function Refresh(field: FieldData, updaters: map<string, Field>): (r: FieldData)
    ensures r.Value() == field.Value()
    ensures Coherent(updaters) ==> r.Name() == field.Name()
    ensures field.Name() !in updaters ==> r == field
  {
    if field.Name() in updaters then Refreshed(updaters[field.Name()].Result(field.Value()))
    else field
  }

  /** The `fields` list of the submit protocol: every snapshot refreshed, in order. */
  function RefreshAll(fields: seq<FieldData>, updaters: map<string, Field>): (r: seq<FieldData>)
    ensures |r| == |fields|
  {
    seq(|fields|, i requires 0 <= i < |fields| => Refresh(fields[i], updaters))
  }

  /** The names of a list of entries, in order. */
  function Names(fields: seq<FieldData>): (r: seq<string>)
    ensures |r| == |fields|
    ensures forall i :: 0 <= i < |fields| ==> r[i] == fields[i].Name()
  {
    seq(|fields|, i requires 0 <= i < |fields| => fields[i].Name())
  }

  /** Re-running the updaters changes no name and no value, so the value
      map of the refreshed list is the value map of the snapshots. */
  lemma {:induction false} RefreshedValueMap(fields: seq<FieldData>, updaters: map<string, Field>)
    requires Coherent(updaters)
    ensures ValueMap(RefreshAll(fields, updaters)) == ValueMap(fields)
  {
    if fields != [] {
      var n := |fields| - 1;
      var r := RefreshAll(fields, updaters);
      assert r[..n] == RefreshAll(fields[..n], updaters);
      RefreshedValueMap(fields[..n], updaters);
    }
  }

  /** Among the refreshed fields, the submit judgement of a field agrees with
      the validity its updater committed, except when the validator's verdict
      fell through: the field then keeps its previous flag but counts as invalid. */
  lemma RefreshedJudgement(f: Field, s: FieldState, v: string)
    ensures Refreshed(f.Result(v)).IsValid() ==> f.AfterUpdate(s, v).isValid
    ensures f.Result(v).validation.Some? ==> (Refreshed(f.Result(v)).IsValid() <==> f.AfterUpdate(s, v).isValid)
    ensures f.Result(v).validation.None? ==> !Refreshed(f.Result(v)).IsValid()
  {
  }

  /** The decision of the submit protocol. */
  function Decide(values: map<string, string>, fields: seq<FieldData>, hasOnValidationError: bool): (r: SubmitOutcome)
    ensures !r.Ignored?
    ensures r.Submitted? <==> forall f :: f in fields ==> f.IsValid()
    ensures r.ValidationError? <==> hasOnValidationError && exists f :: f in fields && !f.IsValid()
    ensures r.NoCallback? <==> !hasOnValidationError && exists f :: f in fields && !f.IsValid()
    ensures r.Submitted? || r.ValidationError? ==> r.values == values
    ensures r.ValidationError? ==> r.invalid == GetInvalidFields(fields) && r.invalid != []
  {
    InvalidFieldsMembers(fields);
    var invalid := GetInvalidFields(fields);
    if |invalid| == 0 then Submitted(values)
    else if hasOnValidationError then ValidationError(values, invalid)
    else NoCallback
  }

  /** `f` has been updated once with `v` since it held `s0` and had notified `n0`. */
  ghost predicate UpdatedWith(f: Field, s0: FieldState, n0: seq<FieldState>, v: string)
    reads f
  {
    f.state == f.AfterUpdate(s0, v) && f.notified == n0 + [f.state]
  }

  /** `f` still holds `s0` and has notified nothing since `n0`. */
  ghost predicate Untouched(f: Field, s0: FieldState, n0: seq<FieldState>)
    reads f
  {
    f.state == s0 && f.notified == n0
  }

  /** One pass of the submit loop: re-runs the updater registered under
      the entry's name, if any, on the entry's value. */
  method RefreshEntry(updaters: map<string, Field>, field: FieldData) returns (r: FieldData)
    requires Coherent(updaters)
    modifies updaters.Values
    ensures r == Refresh(field, updaters)
    ensures field.Name() in updaters ==>
      UpdatedWith(updaters[field.Name()], old(updaters[field.Name()].state), old(updaters[field.Name()].notified), field.Value())
    ensures forall k :: k in updaters && k != field.Name() ==>
      Untouched(updaters[k], old(updaters[k].state), old(updaters[k].notified))
  {
    r := field;
    if field.Name() in updaters {
      var result := updaters[field.Name()].UpdateField(Some(field.Value()));
      r := Refreshed(result);
    }
  }

  /** The loop of `onSubmit` over the snapshots: re-runs each entry's
      updater on the entry's value, collects the resulting list and assigns
      each entry's value into the value map. Every updater whose name ends
      up in the value map has run exactly once, on that name's value; every
      other updater is untouched. */
  method RefreshFields(updaters: map<string, Field>, snapshots: seq<FieldData>)
    returns (fields: seq<FieldData>, fieldData: map<string, string>)
    requires Coherent(updaters) && DistinctNames(snapshots)
    modifies updaters.Values
    ensures fields == RefreshAll(snapshots, updaters)
    ensures fieldData == ValueMap(snapshots)
    ensures forall k :: k in updaters ==>
      if k in fieldData then UpdatedWith(updaters[k], old(updaters[k].state), old(updaters[k].notified), fieldData[k])
      else Untouched(updaters[k], old(updaters[k].state), old(updaters[k].notified))
  {
    fields, fieldData := [], map[];
    var i := 0;
    while i < |snapshots|
      invariant 0 <= i <= |snapshots|
      invariant |fields| == i && forall j :: 0 <= j < i ==> fields[j] == Refresh(snapshots[j], updaters)
      invariant fieldData == ValueMap(fields)
      invariant forall j :: i <= j < |snapshots| ==> snapshots[j].Name() !in fieldData
      invariant forall k :: k in updaters ==>
        if k in fieldData then UpdatedWith(updaters[k], old(updaters[k].state), old(updaters[k].notified), fieldData[k])
        else Untouched(updaters[k], old(updaters[k].state), old(updaters[k].notified))
    {
      var snapshot := snapshots[i];
      var entry := RefreshEntry(updaters, snapshot);
      assert entry.Name() == snapshot.Name() && entry.Value() == snapshot.Value();
      fieldData := fieldData[entry.Name() := entry.Value()];
      ValueMapSnoc(fields, entry);
      fields := fields + [entry];
      i := i + 1;
    }
    assert fields == RefreshAll(snapshots, updaters);
    RefreshedValueMap(snapshots, updaters);
  }

  class Form {
    const isDisabled: bool
    const hasOnValidationError: bool

    var isSubmitting: bool
    var isMounted: bool

    var getters: map<string, Field>
    var updaters: map<string, Field>
    /** The keys of `getters` in insertion order, as `Object.entries` lists them. */
    var order: seq<string>

    ghost predicate Valid()
      reads this`getters, this`updaters, this`order
    {
      && Distinct(order)
      && (forall k :: k in getters <==> k in order)
      && Coherent(updaters)
    }

    constructor (isDisabled: bool, hasOnValidationError: bool)
      ensures this.isDisabled == isDisabled && this.hasOnValidationError == hasOnValidationError
      ensures !isSubmitting && !isMounted
      ensures getters == map[] && updaters == map[] && order == []
      ensures Valid()
    {
      this.isDisabled := isDisabled;
      this.hasOnValidationError := hasOnValidationError;
      isSubmitting, isMounted := false, false;
      getters, updaters, order := map[], map[], [];
    }

    method ComponentDidMount()
      modifies this
      ensures isMounted
      ensures isSubmitting == old(isSubmitting)
      ensures getters == old(getters) && updaters == old(updaters) && order == old(order)
    {
      isMounted := true;
    }

    method ComponentWillUnmount()
      modifies this
      ensures !isMounted
      ensures isSubmitting == old(isSubmitting)
      ensures getters == old(getters) && updaters == old(updaters) && order == old(order)
    {
      isMounted := false;
    }

    /** The name -> current value map of the registered getters. */
    function Values(): (m: map<string, string>)
      reads this`getters, getters.Values
      ensures m.Keys == getters.Keys
      ensures forall k :: k in m ==> m[k] == getters[k].state.value
    {
      map k | k in getters :: getters[k].state.value
    }

    /** `getFields`: one snapshot per registered getter, in registration
        order, each the getter's current state. */
    function GetFields(): (r: seq<FieldData>)
      requires Valid()
      reads this`getters, this`updaters, this`order, getters.Values
      ensures |r| == |order|
      ensures forall i :: 0 <= i < |r| ==> r[i].Snapshot? && r[i].Name() == order[i]
      ensures forall i :: 0 <= i < |r| ==> r[i].state == getters[order[i]].state
      ensures DistinctNames(r)
    {
      var o, g := order, getters;
      seq(|o|, i requires 0 <= i < |o| && o[i] in g reads g.Values =>
        Snapshot(o[i], g[o[i]].state))
    }

    /** The value map of the snapshots is the map of the getters' values. */
    lemma SnapshotValues()
      requires Valid()
      ensures ValueMap(GetFields()) == Values()
    {
      var fields := GetFields();
      assert Names(fields) == order;
      ValueMapKeys(fields);
      var m := ValueMap(fields);
      assert m.Keys == Values().Keys;
      forall k | k in m
        ensures m[k] == Values()[k]
      {
        var i :| 0 <= i < |order| && order[i] == k;
        ValueMapAt(fields, i);
      }
    }

    /** `registerGetter`: last write wins; a new name goes to the end of the order. */
    method RegisterGetter(name: string, f: Field)
      requires Valid()
      modifies this
      ensures Valid()
      ensures getters == old(getters)[name := f]
      ensures order == if name in old(getters) then old(order) else old(order) + [name]
      ensures updaters == old(updaters)
      ensures isSubmitting == old(isSubmitting) && isMounted == old(isMounted)
    {
      if name !in getters {
        order := order + [name];
      }
      getters := getters[name := f];
    }

    /** `registerUpdater`: last write wins. */
    method RegisterUpdater(name: string, f: Field)
      requires Valid() && f.name == name
      modifies this
      ensures Valid()
      ensures updaters == old(updaters)[name := f]
      ensures getters == old(getters) && order == old(order)
      ensures isSubmitting == old(isSubmitting) && isMounted == old(isMounted)
    {
      updaters := updaters[name := f];
    }

    /** `unregister`: drops both entries for `name`, if present. */
    method Unregister(name: string)
      requires Valid()
      modifies this
      ensures Valid()
      ensures getters == old(getters) - {name} && updaters == old(updaters) - {name}
      ensures order == Without(old(order), name)
      ensures isSubmitting == old(isSubmitting) && isMounted == old(isMounted)
    {
      if name in getters {
        getters := getters - {name};
      }
      if name in updaters {
        updaters := updaters - {name};
      }
      WithoutMembers(order, name);
      order := Without(order, name);
    }

    /** A child field mounts inside this form: it runs its `componentDidMount`
        and the form carries out the registration calls it makes. */
    method MountField(f: Field)
      requires Valid()
      modifies this, f
      ensures Valid()
      ensures RegistryCall.RegisterUpdater(f.name) in f.MountCalls() ==> updaters == old(updaters)[f.name := f]
      ensures RegistryCall.RegisterUpdater(f.name) !in f.MountCalls() ==> updaters == old(updaters)
      ensures RegistryCall.RegisterGetter(f.name) in f.MountCalls() ==>
        getters == old(getters)[f.name := f] &&
        order == if f.name in old(getters) then old(order) else old(order) + [f.name]
      ensures RegistryCall.RegisterGetter(f.name) !in f.MountCalls() ==> getters == old(getters) && order == old(order)
      ensures isSubmitting == old(isSubmitting) && isMounted == old(isMounted)
      ensures f.initialValue != "" ==>
        f.state == f.AfterUpdate(old(f.state), f.initialValue) && f.notified == old(f.notified) + [f.state]
      ensures f.initialValue == "" ==> f.state == old(f.state) && f.notified == old(f.notified)
      ensures old(f.Valid()) ==> f.Valid()
    {
      var calls := f.Mount();
      if RegistryCall.RegisterUpdater(f.name) in calls {
        RegisterUpdater(f.name, f);
      }
      if RegistryCall.RegisterGetter(f.name) in calls {
        RegisterGetter(f.name, f);
      }
    }

    /** A child field unmounts: the form carries out its unregister call. */
    method UnmountField(f: Field)
      requires Valid()
      modifies this
      ensures Valid()
      ensures f.UnmountCalls() != [] ==>
        getters == old(getters) - {f.name} && updaters == old(updaters) - {f.name} &&
        order == Without(old(order), f.name)
      ensures f.UnmountCalls() == [] ==>
        getters == old(getters) && updaters == old(updaters) && order == old(order)
      ensures isSubmitting == old(isSubmitting) && isMounted == old(isMounted)
    {
      if RegistryCall.Unregister(f.name) in f.UnmountCalls() {
        Unregister(f.name);
      }
    }

    /** `autoFill`: run the updater registered for `name`, if there is one. */
    method AutoFill(name: string, v: Option<string>)
      modifies updaters.Values
      ensures name in updaters ==>
        UpdatedWith(updaters[name], old(updaters[name].state), old(updaters[name].notified), ArgOrDefault(v))
      ensures forall f :: f in updaters.Values && (name !in updaters || f != updaters[name]) ==> unchanged(f)
    {
      if name in updaters {
        var _ := updaters[name].UpdateField(v);
      }
    }

    /** The body of `onSubmit` between the guard and the decision: takes the
        snapshots, re-runs every registered updater on its getter's value
        and builds the value map. */
    method RunUpdaters() returns (fields: seq<FieldData>, fieldData: map<string, string>)
      requires Valid()
      modifies updaters.Values
      ensures fields == RefreshAll(old(GetFields()), updaters)
      ensures fieldData == old(Values())
      ensures forall k :: k in updaters ==>
        if k in getters then
          UpdatedWith(updaters[k], old(updaters[k].state), old(updaters[k].notified), old(getters[k].state.value))
        else
          Untouched(updaters[k], old(updaters[k].state), old(updaters[k].notified))
    {
      var snapshots := GetFields();
      SnapshotValues();
      fields, fieldData := RefreshFields(updaters, snapshots);
    }

    /** The first half of `onSubmit`, up to and including the callback: the
        guard, then re-running every updater on its getter's value, building
        the value map, partitioning by validity and deciding the outcome. */
    method StartSubmit() returns (outcome: SubmitOutcome)
      requires Valid()
      modifies this, updaters.Values
      ensures Valid()
      ensures getters == old(getters) && updaters == old(updaters) && order == old(order)
      ensures isMounted == old(isMounted)
      ensures old(isDisabled || isSubmitting) ==>
        outcome == Ignored && isSubmitting == old(isSubmitting) && unchanged(updaters.Values)
      ensures !old(isDisabled || isSubmitting) ==>
        isSubmitting &&
        outcome == Decide(old(Values()), RefreshAll(old(GetFields()), updaters), hasOnValidationError)
      ensures !old(isDisabled || isSubmitting) ==> forall k :: k in updaters ==>
        if k in getters then
          UpdatedWith(updaters[k], old(updaters[k].state), old(updaters[k].notified), old(getters[k].state.value))
        else
          Untouched(updaters[k], old(updaters[k].state), old(updaters[k].notified))
    {
      if isDisabled || isSubmitting {
        return Ignored;
      }
      var fields, fieldData := RunUpdaters();
      isSubmitting := true;
      outcome := Decide(fieldData, fields, hasOnValidationError);
    }

    /** The second half of `onSubmit`, once the callback has settled:
        `isSubmitting` is reset only while the form is still mounted. */
    method FinishSubmit()
      modifies this
      ensures isSubmitting == (old(isSubmitting) && !isMounted)
      ensures isMounted == old(isMounted)
      ensures getters == old(getters) && updaters == old(updaters) && order == old(order)
    {
      if isMounted {
        isSubmitting := false;
      }
    }
  }
}
