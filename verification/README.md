# react-form-field: the field and form controllers

This project models the two controllers of the react-form-field library with
their rendering stripped away, and proves what they promise.

- **Field controller** (`field.dfy`, module `FieldController`). A `Field`
  object holds one named field's state: `value`, `isValid`, `isValidated` and
  `validationMessage`.
  - `Validate` is the total case analysis of `validate`. It turns whatever the
    caller's validator returned into a verdict `{isValid, validationMessage}`,
    or into no verdict at all when the returned value matches none of the cases.
  - `UpdateField` validates the raw value, stores the normalised value, marks
    the field validated, records the committed state as one `onFieldUpdate`
    call and returns `{name, value, ...verdict}`.
  - `SetFieldValue` stores a value and nothing else. `ValidateField` forwards
    to `UpdateField`.
  - `Mount` and `UnmountCalls` give the registration calls the field makes on
    its parent, and `Mount` runs one update exactly when the initial value is
    truthy.
- **Form controller** (`form.dfy`, module `FormController`). A `Form` object
  owns the registry: `getters` and `updaters` map field names to `Field`
  objects, and `order` lists the getter names in insertion order, the order in
  which `Object.entries` lists them.
  - Registration is last-write-wins, and `unregister` removes a name from both
    maps and from the order. `AutoFill` runs the registered updater, if there
    is one.
  - Submit is split at its `await`. `StartSubmit` applies the guard, snapshots
    every getter, re-runs each snapshot's updater inside a loop
    (`RefreshFields`), builds the name→value map, partitions the fields with
    `GetInvalidFields` and settles on exactly one `SubmitOutcome`.
    `FinishSubmit` resets `isSubmitting`, but only while the form is mounted.
- **Test fixture** (`scenario.dfy`, module `FormScenario`). This replays the
  fixture of the form's tests in `src/form.spec.jsx`: a field `test1` that is
  valid only for "foobar", a field `test2` with initial value "fred", and a
  field `testfill` that does not register. It proves the outcomes of the two
  submits and of the autofill that those tests expect.

The caller's `validate` and `normalizer` are function-valued parameters of a
field. The `onSubmit` and `onValidationError` callbacks are represented by the
outcome that says which of them is called and with what. `onFieldUpdate` is
recorded as the log `Field.notified` of the states it was handed.
The getter a field registers, `getFieldData`, returns the field's state, so the
form reads a registered field's `state` wherever the source calls its getter.

Two consequences of the code are easy to miss:

- A validator that returns `undefined`, a number or a plain object matches
  none of the cases of `validate` (src/field.jsx:96-121). The field therefore
  keeps its previous `isValid` and `validationMessage`, and the updater's
  result has no `isValid`. This is `Returned.Other` and `Validate(...) == None`.
- `getInvalidFields` keeps the fields whose `isValid` is falsy
  (src/form.jsx:104), so an updater result without `isValid` counts as
  invalid. This is `FieldData.IsValid`, and `RefreshedJudgement` states the
  consequence.

## Model

| member | source | states |
|---|---|---|
| FieldController.Validate | src/field.jsx:88-122 | No validator gives valid with an empty message. A boolean `b` gives `b` with an empty message. A string `s` is valid exactly when it is empty, with message `s`. `null` gives valid with an empty message. A function or element gives invalid with itself as the message. Any other value gives no verdict, and this happens exactly for such values. A passing verdict never carries a message. |
| FieldController.Field.constructor | src/field.jsx:5-10 | A new field has value "", is invalid and not validated, has the empty message, and has notified nothing. |
| FieldController.Field.UpdateField | src/field.jsx:57-86 | The value defaults to "". The result is `{name, value: raw value, ...Validate(name, raw value)}`. The new state holds the normalised value and is validated. It takes validity and message from the verdict, or keeps the previous ones when there is no verdict. The new state is appended to the `onFieldUpdate` log. The field stays validated exactly when it has notified. |
| FieldController.Field.SetFieldValue | src/field.jsx:124-138 | Only `value` changes. Validity, validated flag and message stay as they were, and nothing is notified. |
| FieldController.Field.ValidateField | src/field.jsx:140-144 | It is the same state change as `updateField` on the selected value, with one notification. |
| FieldController.Field.MountCalls | src/field.jsx:12-25 | The updater is registered exactly when `shouldRegister` holds and `registerUpdater` was given, and likewise the getter. Each is registered at most once: the number of calls is the number of those two conditions that hold. Every call uses the field's own name and none is an unregister. When both are made, the updater comes first. |
| FieldController.Field.Mount | src/field.jsx:12-29 | It makes the registration calls of `MountCalls`. It runs one update with the initial value exactly when that value is truthy, and otherwise leaves the state and the log alone. |
| FieldController.Field.UnmountCalls | src/field.jsx:31-36 | `unregister(name)` is called, once, exactly when `shouldRegister` holds and `unregister` was given, and no other call is made. |
| FieldController.NoValidatorAlwaysValid | src/field.jsx:88-95 | Without a validator, every update leaves the field valid with an empty message. |
| FieldController.UpdateIdempotent | src/field.jsx:57-86 | Updating twice with the same value commits the same state as updating once. |
| FormController.FieldData.IsValid | src/form.jsx:103-105 | It is the truthiness of `field.isValid`. A snapshot is valid exactly when its state is. An updater result is valid exactly when its verdict passes, and it is invalid when there is no verdict. |
| FormController.GetInvalidFields | src/form.jsx:103-105 | Every field it keeps is invalid, and it is no longer than its input. Exact membership and order are stated by the two lemmas below. |
| FormController.InvalidFieldsMembers | src/form.jsx:103-105 | `getInvalidFields` keeps exactly the fields whose `isValid` is falsy. It is empty exactly when every field is valid. |
| FormController.InvalidFieldsDistribute | src/form.jsx:103-105 | Filtering distributes over concatenation, so the invalid fields keep their original order. |
| FormController.Without | src/form.jsx:115-122 | After `delete`, the name is gone from the key order. The order is unchanged when the name was absent and strictly shorter when it was present. |
| FormController.WithoutMembers | src/form.jsx:115-122 | Deleting a name from the key order removes exactly that name and keeps the order free of repeats. |
| FormController.WithoutAt | src/form.jsx:115-122 | In an order without repeats, deleting the name at position `i` closes the gap and keeps every other name in place relative to the rest. |
| FormController.ValueMapKeys | src/form.jsx:73-80 | The keys of the value map built by `fieldData[field.name] = field.value` are exactly the names of the list. |
| FormController.ValueMapAt | src/form.jsx:73-80 | When names do not repeat, each name maps to its own entry's value. |
| FormController.Refresh | src/form.jsx:74-79 | Re-running an entry's updater keeps its value, and keeps its name when the registry is coherent. An entry without an updater is kept as it is. |
| FormController.RefreshedValueMap | src/form.jsx:73-80 | Re-running the updaters changes no name and no value, so the value map of the refreshed list is that of the snapshots. |
| FormController.RefreshedJudgement | src/form.jsx:75-81 | For a refreshed field, submit treats it as valid exactly when the committed state is valid, provided there was a verdict. With no verdict, submit treats it as invalid whatever its state says. |
| FormController.Decide | src/form.jsx:81-88 | An accepted submit has exactly one outcome. `onSubmit` with the value map is called exactly when every field is valid. `onValidationError` with the value map and the non-empty, ordered invalid list is called exactly when some field is invalid and that callback exists. Otherwise no callback is called. |
| FormController.RefreshEntry | src/form.jsx:75-79 | One pass of the loop runs the entry's updater, if registered, once on the entry's value and touches no other updater. The entry becomes the updater's result. |
| FormController.RefreshFields | src/form.jsx:73-80 | The loop yields the refreshed list in order and the value map of the snapshots. Every updater whose name is in that map has run exactly once on that name's value, and every other updater is untouched. |
| FormController.Form.constructor | src/form.jsx:5-7 | A new form is not submitting, not mounted, and has an empty registry. |
| FormController.Form.ComponentDidMount | src/form.jsx:9-11 | It sets the mounted flag and changes nothing else. |
| FormController.Form.ComponentWillUnmount | src/form.jsx:13-15 | It clears the mounted flag and changes nothing else. |
| FormController.Form.Values | src/form.jsx:95-101 | The current value map has exactly the getter names as keys, each with its field's current value. |
| FormController.Form.GetFields | src/form.jsx:95-101 | There is one snapshot per getter, in registration order, each holding that getter's current state. No name repeats. |
| FormController.Form.SnapshotValues | src/form.jsx:73-101 | The value map of the snapshots is the map of the getters' current values. |
| FormController.Form.RegisterGetter | src/form.jsx:107-109 | Last write wins and other names are unchanged. A new name goes to the end of the order, and a known name keeps its place. |
| FormController.Form.RegisterUpdater | src/form.jsx:111-113 | Last write wins and other names are unchanged. |
| FormController.Form.Unregister | src/form.jsx:115-122 | It removes the name from both maps and from the order if present, and otherwise does nothing. Every other entry is unchanged. |
| FormController.Form.MountField | src/field.jsx:12-29 | The form carries out a mounting field's registration calls, last write wins. The field runs its initial update exactly when its initial value is truthy, and that update appends one entry to its `onFieldUpdate` log. Otherwise the field's state and log are unchanged. The field's invariant is kept. |
| FormController.Form.UnmountField | src/field.jsx:31-36 | The form carries out an unmounting field's unregister call, or nothing. |
| FormController.Form.AutoFill | src/form.jsx:60-64 | It runs the updater registered for the name, if any, and leaves every other field unchanged. With no updater, nothing changes. |
| FormController.Form.RunUpdaters | src/form.jsx:73-80 | It returns the refreshed snapshot list and the pre-submit getter values. Each field with both a getter and an updater has been updated once with its own pre-submit value, and every other updater is untouched. |
| FormController.Form.StartSubmit | src/form.jsx:66-88 | A disabled or already-submitting form ignores the submit and changes nothing. Otherwise `isSubmitting` is set, the updaters run as in `RunUpdaters`, and the outcome is the decision on the pre-submit values and the refreshed list. |
| FormController.Form.FinishSubmit | src/form.jsx:89-91 | `isSubmitting` is reset exactly when the form is still mounted. |
| FormScenario.ExampleDecision | src/form.spec.jsx:96-114 | In the test fixture, `test1` alone decides. With "foobar" the form submits both values, and otherwise it reports a validation error with both values. |
| FormScenario.SubmitTwice | src/form.spec.jsx:96-114 | The first submit reports a validation error with `{test1: "", test2: "fred"}`. After `test1` is set to "foobar", the second submit calls `onSubmit` with `{test1: "foobar", test2: "fred"}`. |
| FormScenario.AutoFillOther | src/form.spec.jsx:90-95 | `test2` shows "fred" after mounting and "filled-value" after being autofilled through the form. |

## Left out

- Rendering is not modelled. This covers both `render` methods, the cloning of `Field` children with the form's callbacks and state, the `child.type.name === 'Field'` test, `derivedProps`, and the render-prop arguments. All of it is presentation.
- React's `setState` is modelled as immediate assignment. The post-commit `onFieldUpdate` call is the entry appended to `Field.notified`. The other things it is handed (`autoFill`, `isDisabled`, `isSubmitting`, `updateField`, the event) are not recorded.
- The `onSubmit` and `onValidationError` callbacks are not executed, and their `await` is the split between `StartSubmit` and `FinishSubmit`. A callback that throws or whose promise rejects is not modelled, and neither is the `event` argument passed to them.
- FormController.Form.StartSubmit: runs the updaters before it sets `isSubmitting`, whereas the source sets the flag first and runs the loop in the `setState` callback. During the loop each field's `updateField` reads its `isSubmitting` prop, which is `true` by then (src/field.jsx:61, src/form.jsx:42). It only passes that prop on to `onFieldUpdate`, and the model does not record it there, so nothing the model states depends on the order.
- `event.preventDefault()` and event objects are not modelled. `valueSelector` is applied outside the model, so the handlers take the extracted string.
- The `event` argument of `updateField` is left out.
- The validator's return value is reduced to its type as `validate` tests it. Functions and React elements are an opaque token (`Renderable`), and everything else that matches no case is `Other`.
- A numeric `initialValue` is not modelled. The initial value is a string, and only the empty string is falsy.
- Registry names are assumed to be ordinary own keys of the registry objects. In the source the registries are plain JavaScript objects. Their lookups (`typeof this._updaters[id] === 'function'`, `name in this._getters`) also see members inherited from `Object.prototype`, so `autoFill('toString', v)` calls an inherited function. Registering a getter named `__proto__` replaces the prototype instead of adding a key, and `Object.entries` never lists it. The model's `map` has none of this.
- `Object.entries` lists integer-like keys first, in ascending order. The model uses insertion order for every name.
- FormController.Form.RegisterUpdater: requires that the updater's field has the name it is registered under. Its only caller in the library, a mounting field, registers under its own name, and the requirement keeps the registry coherent.
- `isDisabled` and the presence of `onValidationError` are fixed when a form is created, and so are a field's props. Changing props between renders is not modelled.
- `PropTypes` and `defaultProps` are not modelled. The identity normaliser, `shouldRegister: true` and the no-op `onFieldUpdate` are not built in; a caller supplies them when constructing a field.
- The build and test configuration (`rollup.config.js`, `jest.config.js`, `babel.config.js`) contains no logic and is not part of this model.
