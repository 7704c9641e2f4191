/** The test fixture of the form's submit and autofill tests: a form with
    a validated field `test1` (valid only for "foobar"), a field `test2`
    with the initial value "fred" and no validator, and a field `testfill`
    that does not register. */
module FormScenario {
  import opened FieldController
  import opened FormController

  /** `test1` passes only for the value "foobar". */
  function Foobar(name: string, value: string): (r: Returned) {
    Bool(value == "foobar")
  }

  function Identity(value: string): (r: string) {
    value
  }

  const AllCallbacks := Callbacks(true, true, true)

  /** The form and its three fields, before anything mounts. */
  method Build() returns (form: Form, test1: Field, test2: Field, testfill: Field)
    ensures fresh(form) && fresh(test1) && fresh(test2) && fresh(testfill)
    ensures form.Valid() && !form.isSubmitting && !form.isDisabled && form.hasOnValidationError
    ensures form.getters == map[] && form.updaters == map[] && form.order == []
    ensures test1.name == "test1" && test1.validator == Validator(Foobar) && test1.normalizer == Identity
    ensures test1.initialValue == "" && test1.shouldRegister && test1.callbacks == AllCallbacks
    ensures test2.name == "test2" && test2.validator.NoValidator? && test2.normalizer == Identity
    ensures test2.initialValue == "fred" && test2.shouldRegister && test2.callbacks == AllCallbacks
    ensures testfill.name == "testfill" && testfill.initialValue == "" && !testfill.shouldRegister
    ensures test1.state == InitialState && test2.state == InitialState
  {
    form := new Form(false, true);
    test1 := new Field("test1", Validator(Foobar), Identity, "", true, AllCallbacks);
    test2 := new Field("test2", NoValidator, Identity, "fred", true, AllCallbacks);
    testfill := new Field("testfill", NoValidator, Identity, "", false, AllCallbacks);
  }

  /** Mounting a field that registers both callbacks under a new name. */
  method MountNew(form: Form, f: Field)
    requires form.Valid() && f.shouldRegister && f.callbacks == AllCallbacks && f.name !in form.getters
    modifies form, f
    ensures form.Valid()
    ensures form.getters == old(form.getters)[f.name := f] && form.updaters == old(form.updaters)[f.name := f]
    ensures form.order == old(form.order) + [f.name]
    ensures form.isSubmitting == old(form.isSubmitting) && form.isMounted == old(form.isMounted)
    ensures f.initialValue != "" ==>
      f.state == f.AfterUpdate(old(f.state), f.initialValue) && f.notified == old(f.notified) + [f.state]
    ensures f.initialValue == "" ==> f.state == old(f.state) && f.notified == old(f.notified)
    ensures old(f.Valid()) ==> f.Valid()
  {
    assert f.MountCalls() == [RegistryCall.RegisterUpdater(f.name), RegistryCall.RegisterGetter(f.name)];
    form.MountField(f);
  }

  /** Builds the three fields and mounts them in document order, then the
      form itself, as React mounts children before their parent. */
  method Setup() returns (form: Form, test1: Field, test2: Field, testfill: Field)
    ensures fresh(form) && fresh(test1) && fresh(test2) && fresh(testfill)
    ensures form.Valid() && form.isMounted && !form.isSubmitting && !form.isDisabled && form.hasOnValidationError
    ensures form.order == ["test1", "test2"]
    ensures form.getters == map["test1" := test1, "test2" := test2]
    ensures form.updaters == map["test1" := test1, "test2" := test2]
    ensures test1.name == "test1" && test1.validator == Validator(Foobar) && test1.normalizer == Identity
    ensures test2.name == "test2" && test2.validator.NoValidator? && test2.normalizer == Identity
    ensures test1.state.value == "" && test2.state.value == "fred"
  {
    form, test1, test2, testfill := Build();
    MountNew(form, test1);
    MountNew(form, test2);
    assert testfill.MountCalls() == [];
    form.MountField(testfill);
    form.ComponentDidMount();
  }

  /** The decision on the refreshed fixture fields: `test1` decides alone. */
  lemma ExampleDecision(test1: Field, test2: Field, v1: string)
    requires test1.name == "test1" && test1.validator == Validator(Foobar)
    requires test2.name == "test2" && test2.validator.NoValidator?
    ensures var values := map["test1" := v1, "test2" := "fred"];
      var outcome := Decide(values, [Refreshed(test1.Result(v1)), Refreshed(test2.Result("fred"))], true);
      (v1 == "foobar" ==> outcome == Submitted(values)) &&
      (v1 != "foobar" ==> outcome.ValidationError? && outcome.values == values)
  {
    var refreshed := [Refreshed(test1.Result(v1)), Refreshed(test2.Result("fred"))];
    assert refreshed[1..][1..] == [];
  }

  /** What the fixture form hands to the submit protocol: the value map of
      its two getters and their two refreshed entries, in registration order. */
  lemma ExampleSnapshot(form: Form, test1: Field, test2: Field, v1: string)
    requires form.Valid() && form.order == ["test1", "test2"]
    requires form.getters == map["test1" := test1, "test2" := test2]
    requires form.updaters == map["test1" := test1, "test2" := test2]
    requires test1.state.value == v1 && test2.state.value == "fred"
    ensures form.Values() == map["test1" := v1, "test2" := "fred"]
    ensures RefreshAll(form.GetFields(), form.updaters) == [Refreshed(test1.Result(v1)), Refreshed(test2.Result("fred"))]
  {
    var snapshots := form.GetFields();
    assert snapshots == [Snapshot("test1", test1.state), Snapshot("test2", test2.state)];
    var refreshed := RefreshAll(snapshots, form.updaters);
    assert refreshed[0] == Refreshed(test1.Result(v1));
    assert refreshed[1] == Refreshed(test2.Result("fred"));
  }

  /** One submit of the mounted fixture form, with `test1` holding `v1`,
      up to its callback. */
  method SubmitOnce(form: Form, test1: Field, test2: Field, v1: string) returns (outcome: SubmitOutcome)
    requires form.Valid() && form.isMounted && !form.isSubmitting && !form.isDisabled && form.hasOnValidationError
    requires form.order == ["test1", "test2"] && test1 != test2
    requires form.getters == map["test1" := test1, "test2" := test2]
    requires form.updaters == map["test1" := test1, "test2" := test2]
    requires test1.name == "test1" && test1.validator == Validator(Foobar) && test1.normalizer == Identity
    requires test2.name == "test2" && test2.validator.NoValidator? && test2.normalizer == Identity
    requires test1.state.value == v1 && test2.state.value == "fred"
    modifies form, test1, test2
    ensures v1 == "foobar" ==> outcome == Submitted(map["test1" := v1, "test2" := "fred"])
    ensures v1 != "foobar" ==> outcome.ValidationError? && outcome.values == map["test1" := v1, "test2" := "fred"]
    ensures form.Valid() && form.isMounted && form.isSubmitting
    ensures form.order == old(form.order) && form.getters == old(form.getters) && form.updaters == old(form.updaters)
    ensures test1.state.value == v1 && test2.state.value == "fred"
  {
    ExampleSnapshot(form, test1, test2, v1);
    outcome := form.StartSubmit();
    ExampleDecision(test1, test2, v1);
    UpdatedValue(form.updaters["test1"], old(test1.state), old(test1.notified), v1);
    UpdatedValue(form.updaters["test2"], old(test2.state), old(test2.notified), "fred");
  }

  /** With the identity normaliser, an update stores the value it was given. */
  lemma UpdatedValue(f: Field, s0: FieldState, n0: seq<FieldState>, v: string)
    requires f.normalizer == Identity && UpdatedWith(f, s0, n0, v)
    ensures f.state.value == v
  {
  }

  /** Submitting with `test1` empty reports a validation error with the
      values of both registered fields; once `test1` holds "foobar" the
      next submit goes through with the same two names. */
  method SubmitTwice() returns (first: SubmitOutcome, second: SubmitOutcome)
    ensures first.ValidationError? && first.values == map["test1" := "", "test2" := "fred"]
    ensures second == Submitted(map["test1" := "foobar", "test2" := "fred"])
  {
    var form, test1, test2, testfill := Setup();
    first := SubmitOnce(form, test1, test2, "");
    form.FinishSubmit();
    test1.SetFieldValue("foobar");
    second := SubmitOnce(form, test1, test2, "foobar");
    form.FinishSubmit();
  }

  /** `testfill` autofills `test2` through the form's registry. */
  method AutoFillOther() returns (before: string, after: string)
    ensures before == "fred" && after == "filled-value"
  {
    var form, test1, test2, testfill := Setup();
    before := test2.state.value;
    form.AutoFill("test2", Some("filled-value"));
    after := test2.state.value;
  }
}
