/** The field controller: one named form field's value and validation state,
    the normalisation of whatever its validator returns, and the registration
    calls it makes to its parent when it mounts and unmounts. */
module FieldController {

  datatype Option<T> = None | Some(value: T)

  /** A validation message is either text or the very value the validator
      returned (a function or a renderable element), stood for by a token. */
  datatype Message = Text(text: string) | Rendered(token: nat)

  /** What a caller-supplied validator returns, by the JavaScript type the
      controller tests for; `Other` is any value none of its tests match. */
  datatype Returned =
    | Bool(b: bool)
    | Str(s: string)
    | Null
    | Renderable(token: nat)
    | Other

  /** The `validate` configuration: absent, or a function of (name, value). */
  datatype Validator = NoValidator | Validator(check: (string, string) -> Returned)

  /** The normalised verdict `{isValid, validationMessage}`. */
  datatype Validation = Validation(isValid: bool, validationMessage: Message)

  /** A field's state, as its getter hands it out. */
  datatype FieldState = FieldState(value: string, isValid: bool, isValidated: bool, validationMessage: Message)

  /** What the updater returns: `{name, value, ...validationResult}`; when the
      validator's result falls through every test, the record has no
      `isValid` and no `validationMessage` at all (`validation == None`). */
  datatype UpdateResult = UpdateResult(name: string, value: string, validation: Option<Validation>)

  /** Which of the three registration callbacks the field was given. */
  datatype Callbacks = Callbacks(registerGetter: bool, registerUpdater: bool, unregister: bool)

  /** A call the field makes on its parent's registry, keyed by its name. */
  datatype RegistryCall = RegisterUpdater(name: string) | RegisterGetter(name: string) | Unregister(name: string)

  const EmptyMessage := Text("")

  /** The state every field starts in. */
  const InitialState := FieldState("", false, false, EmptyMessage)

  /** Runs the configured validator on (name, value) and normalises its result.
      `None` is the fall-through case, in which the field keeps its previous
      `isValid` and `validationMessage`. */
  function Validate(validator: Validator, name: string, value: string): (r: Option<Validation>)
    ensures validator.NoValidator? ==> r == Some(Validation(true, EmptyMessage))
    ensures validator.Validator? ==>
      match validator.check(name, value)
      case Bool(b) => r == Some(Validation(b, EmptyMessage))
      case Str(s) => r == Some(Validation(s == "", Text(s)))
      case Null => r == Some(Validation(true, EmptyMessage))
      case Renderable(t) => r == Some(Validation(false, Rendered(t)))
      case Other => r == None
    ensures r.None? <==> validator.Validator? && validator.check(name, value).Other?
    // a verdict that passes never carries a message
    ensures r.Some? && r.value.isValid ==> r.value.validationMessage == EmptyMessage
  {
    match validator
    case NoValidator => Some(Validation(true, EmptyMessage))
    case Validator(check) =>
      match check(name, value)
      case Bool(b) => Some(Validation(b, EmptyMessage))
      case Str(s) => Some(Validation(|s| == 0, Text(s)))
      case Null => Some(Validation(true, EmptyMessage))
      case Renderable(t) => Some(Validation(false, Rendered(t)))
      case Other => None
  }

  /** The value `updateField` falls back to when called without one. */
  function ArgOrDefault(arg: Option<string>): (v: string)
    ensures arg.Some? ==> v == arg.value
    ensures arg.None? ==> v == ""
  {
    match arg
    case Some(s) => s
    case None => ""
  }

  class Field {
    // configuration, fixed for the life of the controller
    const name: string
    const validator: Validator
    const normalizer: string -> string
    /** The initial value; the empty string stands for a falsy or missing one. */
    const initialValue: string
    const shouldRegister: bool
    const callbacks: Callbacks

    /** The component state `{value, isValid, isValidated, validationMessage}`. */
    var state: FieldState

    /** Every state handed to `onFieldUpdate`, oldest first. */
    var notified: seq<FieldState>

    /** The field has been validated exactly when `onFieldUpdate` has fired,
        and until then it is invalid with an empty message. */
    ghost predicate Valid()
      reads this
    {
      && (state.isValidated <==> notified != [])
      && (!state.isValidated ==> !state.isValid && state.validationMessage == EmptyMessage)
    }

    constructor (name: string, validator: Validator, normalizer: string -> string,
                 initialValue: string, shouldRegister: bool, callbacks: Callbacks)
      ensures this.name == name && this.validator == validator && this.normalizer == normalizer
      ensures this.initialValue == initialValue && this.shouldRegister == shouldRegister
      ensures this.callbacks == callbacks
      ensures state == InitialState && notified == []
      ensures Valid()
    {
      this.name := name;
      this.validator := validator;
      this.normalizer := normalizer;
      this.initialValue := initialValue;
      this.shouldRegister := shouldRegister;
      this.callbacks := callbacks;
      state := InitialState;
      notified := [];
    }

    /** What `updateField(v)` returns: the raw value, not the normalised one. */
    function Result(v: string): (r: UpdateResult)
      ensures r.name == name && r.value == v
      ensures r.validation == Validate(validator, name, v)
    {
      UpdateResult(name, v, Validate(validator, name, v))
    }

    /** The state `updateField(v)` commits on top of `s`. */
    function AfterUpdate(s: FieldState, v: string): (t: FieldState)
      ensures t.value == normalizer(v) && t.isValidated
      ensures Result(v).validation.Some? ==>
        t.isValid == Result(v).validation.value.isValid &&
        t.validationMessage == Result(v).validation.value.validationMessage
      ensures Result(v).validation.None? ==>
        t.isValid == s.isValid && t.validationMessage == s.validationMessage
    {
      match Validate(validator, name, v)
      case Some(x) => FieldState(normalizer(v), x.isValid, true, x.validationMessage)
      case None => FieldState(normalizer(v), s.isValid, true, s.validationMessage)
    }

    /** `updateField(value = '')`: validates the raw value, stores the
        normalised one, marks the field validated, fires `onFieldUpdate` with
        the committed state and returns the validation result. */
    method UpdateField(arg: Option<string>) returns (r: UpdateResult)
      modifies this
      ensures r == Result(ArgOrDefault(arg))
      ensures state == AfterUpdate(old(state), ArgOrDefault(arg))
      ensures notified == old(notified) + [state]
      ensures Valid()
    {
      var v := ArgOrDefault(arg);
      var validation := Validate(validator, name, v);
      state := state.(isValidated := true, value := normalizer(v));
      if validation.Some? {
        state := state.(isValid := validation.value.isValid,
                        validationMessage := validation.value.validationMessage);
      }
      notified := notified + [state];
      r := UpdateResult(name, v, validation);
    }

    /** `setFieldValueHandler`: stores the selected value and nothing else;
        no validation and no `onFieldUpdate`. */
    method SetFieldValue(v: string)
      modifies this
      ensures state == old(state).(value := v)
      ensures notified == old(notified)
      ensures old(Valid()) ==> Valid()
    {
      state := state.(value := v);
    }

    /** `validateFieldHandler`: forwards the selected value to `updateField`. */
    method ValidateField(v: string)
      modifies this
      ensures state == AfterUpdate(old(state), v)
      ensures notified == old(notified) + [state]
      ensures Valid()
    {
      var _ := UpdateField(Some(v));
    }

    /** The registration calls `componentDidMount` makes, in order: the
        updater first, then the getter, each only when the field should
        register and was given that callback. */
    function MountCalls(): (calls: seq<RegistryCall>)
      ensures RegisterUpdater(name) in calls <==> shouldRegister && callbacks.registerUpdater
      ensures RegisterGetter(name) in calls <==> shouldRegister && callbacks.registerGetter
      ensures forall c :: c in calls ==> c.name == name && !c.Unregister?
      ensures |calls| == (if shouldRegister && callbacks.registerUpdater then 1 else 0) +
                         (if shouldRegister && callbacks.registerGetter then 1 else 0)
      ensures |calls| == 2 ==> calls == [RegisterUpdater(name), RegisterGetter(name)]
    {
      (if shouldRegister && callbacks.registerUpdater then [RegisterUpdater(name)] else []) +
      (if shouldRegister && callbacks.registerGetter then [RegisterGetter(name)] else [])
    }

    /** The registration call `componentWillUnmount` makes. */
    function UnmountCalls(): (calls: seq<RegistryCall>)
      ensures calls != [] <==> shouldRegister && callbacks.unregister
      ensures |calls| <= 1
      ensures forall c :: c in calls ==> c == Unregister(name)
    {
      if shouldRegister && callbacks.unregister then [Unregister(name)] else []
    }

    /** `componentDidMount`: hands back the registration calls for the parent
        and runs one `updateField` exactly when the initial value is truthy. */
    method Mount() returns (calls: seq<RegistryCall>)
      modifies this
      ensures calls == MountCalls()
      ensures initialValue != "" ==>
        state == AfterUpdate(old(state), initialValue) && notified == old(notified) + [state]
      ensures initialValue == "" ==> state == old(state) && notified == old(notified)
      ensures old(Valid()) ==> Valid()
    {
      calls := MountCalls();
      if initialValue != "" {
        var _ := UpdateField(Some(initialValue));
      }
    }
  }

  /** Updating twice with the same value commits the same state as updating once. */
  lemma UpdateIdempotent(f: Field, s: FieldState, v: string)
    ensures f.AfterUpdate(f.AfterUpdate(s, v), v) == f.AfterUpdate(s, v)
  {
  }

  /** With no validator, every update leaves the field valid with an empty message. */
  lemma NoValidatorAlwaysValid(f: Field, s: FieldState, v: string)
    requires f.validator.NoValidator?
    ensures f.AfterUpdate(s, v).isValid && f.AfterUpdate(s, v).validationMessage == EmptyMessage
  {
  }
}
