/** The validation engine: the `all`/`some` rule combinators and the
    validator built from a rule table and a message table. */
module Services {
  import opened SharedKernel

  /** A rule looks at the whole record, so it may relate several fields. */
  type ValidationRule<!T> = T -> bool

  type ErrorMessage = string

  /** `Partial<Record<keyof TData, ErrorMessage>>`: a key may be missing or
      present with an undefined value. The same shape holds the messages a
      validator is given and the errors it reports. */
  type ErrorMessages<K> = map<K, Optional<ErrorMessage>>

  /** `Partial<Record<keyof TData, ValidationRule<TData>>>`. */
  type ValidationRules<K, !T> = map<K, Optional<ValidationRule<T>>>

  datatype ValidationResult<K> = ValidationResult(valid: bool, errors: ErrorMessages<K>)

  /** The closure `createValidator(rules, errors)` returns: the two tables it
      captured. Values cannot be changed, so neither table changes after
      creation. */
  datatype Validator<K, !T> = Validator(rules: ValidationRules<K, T>, messages: ErrorMessages<K>)

  // ---------------------------------------------------------------------
  // Rule combinators

  /** `rules.every(isValid => isValid(data))`, left to right. */
  function Every<T>(rules: seq<ValidationRule<T>>, data: T): (r: bool)
    ensures r <==> forall i :: 0 <= i < |rules| ==> rules[i](data)
  {
    |rules| == 0 || (rules[0](data) && Every(rules[1..], data))
  }

  /** `rules.some(isValid => isValid(data))`, left to right. */
  function Any<T>(rules: seq<ValidationRule<T>>, data: T): (r: bool)
    ensures r <==> exists i :: 0 <= i < |rules| && rules[i](data)
  {
    |rules| > 0 && (rules[0](data) || Any(rules[1..], data))
  }

  /** `all(rules)`: the record passes when every rule passes. */
  function All<T(!new)>(rules: seq<ValidationRule<T>>): (requiresAll: ValidationRule<T>)
    ensures forall data :: requiresAll(data) <==> forall i :: 0 <= i < |rules| ==> rules[i](data)
  {
    data => Every(rules, data)
  }

  /** `some(rules)`: the record passes when at least one rule passes. */
  function Some<T(!new)>(rules: seq<ValidationRule<T>>): (requiresAny: ValidationRule<T>)
    ensures forall data :: requiresAny(data) <==> exists i :: 0 <= i < |rules| && rules[i](data)
  {
    data => Any(rules, data)
  }

  /** `all([])` accepts every record. */
  lemma AllOfNothing<T(!new)>(data: T)
    ensures All<T>([])(data)
  {
  }

  /** `some([])` rejects every record. */
  lemma SomeOfNothing<T(!new)>(data: T)
    ensures !Some<T>([])(data)
  {
  }

  // ---------------------------------------------------------------------
  // Specification of `validate`

  /** A field passes when it has no rule (`if (!validate) return;`) or its
      rule accepts the record. */
  predicate Passes<T>(rule: Optional<ValidationRule<T>>, data: T) {
    rule.Undefined? || rule.value(data)
  }

  /** `errors[field]`: the message, or undefined when there is none. */
  function Lookup<K>(messages: ErrorMessages<K>, key: K): Optional<ErrorMessage> {
    if key in messages then messages[key] else Undefined
  }

  /** The result once the keys in `done` have been visited, in any order:
      valid while every visited field passes, and one error entry for each
      visited field that fails. */
  function Visited<K, T>(rules: ValidationRules<K, T>, messages: ErrorMessages<K>, data: T, done: set<K>)
    : ValidationResult<K>
  {
    ValidationResult(
      forall k :: k in done && k in rules ==> Passes(rules[k], data),
      map k | k in done && k in rules && !Passes(rules[k], data) :: Lookup(messages, k))
  }

  /** What `validate(data)` returns: every key of the rule table visited. */
  function Verdict<K, T>(rules: ValidationRules<K, T>, messages: ErrorMessages<K>, data: T)
    : ValidationResult<K>
  {
    Visited(rules, messages, data, rules.Keys)
  }

  /** The body of the `forEach` callback for one key. */
  function Step<K, T>(rules: ValidationRules<K, T>, messages: ErrorMessages<K>, data: T,
                      acc: ValidationResult<K>, key: K): (r: ValidationResult<K>)
    requires key in rules
    ensures r.valid <==> acc.valid && Passes(rules[key], data)
    ensures r.errors.Keys == if Passes(rules[key], data) then acc.errors.Keys else acc.errors.Keys + {key}
    ensures forall k :: k in acc.errors && k != key ==> r.errors[k] == acc.errors[k]
    ensures !Passes(rules[key], data) ==> r.errors[key] == Lookup(messages, key)
  {
    match rules[key]
    case Undefined => acc
    case Defined(validate) =>
      if validate(data) then acc
      else ValidationResult(false, acc.errors[key := Lookup(messages, key)])
  }

  /** Visiting one more key extends the result by exactly that key. */
  lemma VisitOneMore<K, T>(rules: ValidationRules<K, T>, messages: ErrorMessages<K>, data: T,
                           done: set<K>, key: K)
    requires key in rules && key !in done
    ensures Step(rules, messages, data, Visited(rules, messages, data, done), key)
         == Visited(rules, messages, data, done + {key})
  {
  }

  // ---------------------------------------------------------------------
  // The validator

  /** `validate(data)`: starts from `{valid: true, errors: {}}` and visits
      every key of the rule table, in whatever order the keys come. */
  method Validate<K, T>(validator: Validator<K, T>, data: T) returns (result: ValidationResult<K>)
    ensures result == Verdict(validator.rules, validator.messages, data)
    ensures result.valid <==> forall k :: k in validator.rules ==> Passes(validator.rules[k], data)
    ensures forall k :: k in result.errors <==> k in validator.rules && !Passes(validator.rules[k], data)
    ensures forall k :: k in result.errors ==> result.errors[k] == Lookup(validator.messages, k)
  {
    var rules, messages := validator.rules, validator.messages;
    var valid := true;
    var errors: ErrorMessages<K> := map[];
    var keys := rules.Keys;
    ghost var done: set<K> := {};
    while keys != {}
      invariant keys + done == rules.Keys && keys !! done
      invariant ValidationResult(valid, errors) == Visited(rules, messages, data, done)
      decreases keys
    {
      var key :| key in keys;
      VisitOneMore(rules, messages, data, done, key);
      var validate := rules[key];
      if validate.Defined? {
        if !validate.value(data) {
          valid := false;
          errors := errors[key := Lookup(messages, key)];
        }
      }
      keys, done := keys - {key}, done + {key};
    }
    result := ValidationResult(valid, errors);
  }

  /** Two calls on the same record return the same result. */
  method ValidateTwice<K, T>(validator: Validator<K, T>, data: T)
    returns (first: ValidationResult<K>, second: ValidationResult<K>)
    ensures first == second
  {
    first := Validate(validator, data);
    second := Validate(validator, data);
  }

  // ---------------------------------------------------------------------
  // Properties of the result

  /** `valid` is false exactly when some error entry exists. */
  lemma ValidIffNoErrors<K, T>(rules: ValidationRules<K, T>, messages: ErrorMessages<K>, data: T)
    ensures Verdict(rules, messages, data).valid <==> Verdict(rules, messages, data).errors == map[]
  {
    var r := Verdict(rules, messages, data);
    if !r.valid {
      var k :| k in rules && !Passes(rules[k], data);
      assert k in r.errors;
    }
  }

  /** Only keys of the rule table can carry an error. */
  lemma ErrorsWithinRules<K, T>(rules: ValidationRules<K, T>, messages: ErrorMessages<K>, data: T)
    ensures Verdict(rules, messages, data).errors.Keys <= rules.Keys
  {
  }

  /** An empty rule table gives `{valid: true, errors: {}}`. */
  lemma NoRulesNoErrors<K, T>(messages: ErrorMessages<K>, data: T)
    ensures Verdict(map[], messages, data) == ValidationResult(true, map[])
  {
  }

  /** A failing field without a message still gets an error entry, whose
      value is undefined. */
  lemma MissingMessageStillRecorded<K, T>(rules: ValidationRules<K, T>, messages: ErrorMessages<K>,
                                          data: T, key: K)
    requires key in rules && !Passes(rules[key], data) && key !in messages
    ensures !Verdict(rules, messages, data).valid
    ensures key in Verdict(rules, messages, data).errors
    ensures Verdict(rules, messages, data).errors[key] == Undefined
  {
  }

  /** A key whose rule is undefined never shows up in the errors and never
      affects `valid`: dropping it from the table changes nothing. */
  lemma UndefinedRuleIgnored<K, T>(rules: ValidationRules<K, T>, messages: ErrorMessages<K>,
                                   data: T, key: K)
    requires key in rules && rules[key] == Undefined
    ensures key !in Verdict(rules, messages, data).errors
    ensures Verdict(rules, messages, data) == Verdict(rules - {key}, messages, data)
  {
    var r := Verdict(rules, messages, data);
    var s := Verdict(rules - {key}, messages, data);
    assert r.valid == s.valid by {
      if !r.valid {
        var k :| k in rules && !Passes(rules[k], data);
        assert k in (rules - {key}).Keys;
      }
    }
    assert r.errors == s.errors;
  }

  // ---------------------------------------------------------------------
  // Order of the keys

  /** `keys` lists every element of `s` exactly once. */
  predicate Enumerates<K>(keys: seq<K>, s: set<K>) {
    && (forall i, j :: 0 <= i < j < |keys| ==> keys[i] != keys[j])
    && (forall i :: 0 <= i < |keys| ==> keys[i] in s)
    && (forall k :: k in s ==> k in keys)
  }

  /** The `forEach` over `Object.keys(rules)`, run in the order of `keys`. */
  function ForEach<K, T>(rules: ValidationRules<K, T>, messages: ErrorMessages<K>, data: T,
                         keys: seq<K>, acc: ValidationResult<K>): (r: ValidationResult<K>)
    requires forall i :: 0 <= i < |keys| ==> keys[i] in rules
    ensures r.valid <==> acc.valid && forall i :: 0 <= i < |keys| ==> Passes(rules[keys[i]], data)
    ensures forall k :: k in r.errors ==> k in acc.errors || (k in keys && !Passes(rules[k], data))
    ensures forall i :: 0 <= i < |keys| && !Passes(rules[keys[i]], data) ==>
      keys[i] in r.errors && r.errors[keys[i]] == Lookup(messages, keys[i])
    ensures forall k :: k in acc.errors && !(k in keys && !Passes(rules[k], data)) ==>
      k in r.errors && r.errors[k] == acc.errors[k]
  {
    if keys == [] then acc
    else ForEach(rules, messages, data, keys[1..], Step(rules, messages, data, acc, keys[0]))
  }

  lemma {:induction false} ForEachExtends<K, T>(rules: ValidationRules<K, T>, messages: ErrorMessages<K>,
                                                data: T, keys: seq<K>, done: set<K>, rest: set<K>)
    requires Enumerates(keys, rest) && rest <= rules.Keys && rest !! done
    ensures ForEach(rules, messages, data, keys, Visited(rules, messages, data, done))
         == Visited(rules, messages, data, done + rest)
  {
    if keys == [] {
      assert rest == {};
      assert done + rest == done;
    } else {
      var key := keys[0];
      VisitOneMore(rules, messages, data, done, key);
      var rest' := rest - {key};
      assert Enumerates(keys[1..], rest') by {
        forall k ensures k in rest' <==> k in keys[1..] {
          if k in keys[1..] {
            var j :| 0 <= j < |keys[1..]| && keys[1..][j] == k;
            assert keys[j + 1] == k;
          }
        }
      }
      ForEachExtends(rules, messages, data, keys[1..], done + {key}, rest');
      assert done + {key} + rest' == done + rest;
    }
  }

  /** Whatever order `Object.keys` lists the rule keys in, the result is the
      same: the one `Verdict` describes. */
  lemma KeyOrderIrrelevant<K, T>(rules: ValidationRules<K, T>, messages: ErrorMessages<K>, data: T,
                                 keys: seq<K>)
    requires Enumerates(keys, rules.Keys)
    ensures ForEach(rules, messages, data, keys, ValidationResult(true, map[]))
         == Verdict(rules, messages, data)
  {
    assert Visited(rules, messages, data, {}) == ValidationResult(true, map[]);
    ForEachExtends(rules, messages, data, keys, {}, rules.Keys);
    assert {} + rules.Keys == rules.Keys;
  }
}
