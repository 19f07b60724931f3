# form-validation-ts in Dafny

A model of a small declarative form-validation engine and the application
form it checks.

- **Rule combinators** (`all`, `some`): they turn a list of predicates over a
  record into one predicate. `all` passes when every predicate passes and
  `some` when at least one does. `Services.Every` and `Services.Any` are the
  left-to-right `every`/`some` folds over `seq<T -> bool>`. `Services.All` and
  `Services.Some` wrap them as rules.
- **Validator engine** (`createValidator` / `validate`): a rule table and a
  message table are captured in a `Validator` value. `Services.Validate` is
  the `forEach` loop. It starts from `{valid: true, errors: {}}` and visits
  every key of the rule table. A key whose rule is undefined is skipped. A
  failing field clears `valid` and writes its message, or `Undefined`, into
  `errors`. The loop is proved against the specification function
  `Services.Verdict`. The keys are chosen in arbitrary order (`:|`), and
  `Services.KeyOrderIrrelevant` shows that a sequential `forEach` over any
  enumeration of the keys gives the same result.
- **Form rules** (module `Validation`): the name, email, phone, birth-date,
  specialty, experience and password predicates and the `rules`/`errors`
  tables. `Validation.ValidateForm` builds the form's validator. Each field
  rule has a contract or lemma that says what it accepts. For the name,
  email, phone, specialty and password rules this is stated character by
  character. The birth-date and experience rules are stated in terms of the
  `Validation.Host` parameters that stand for `Date.parse`, the clock and
  `Number(...)`. The `rules` and `errors` object literals are maps built from
  one entry per field (`RuleOf`, `MessageOf`). The form-level lemmas say
  which fields can ever carry an error and with which text.
- **Helpers** (module `Utils`): `exists` on strings, `contains` for the
  one-character patterns the rules use, `inRange` on integers, `yearsOf`, and
  JavaScript's `length`, which counts UTF-16 code units.

Tables are Dafny maps. `Partial<Record<...>>` allows a key that is present
with an undefined value, so table values are `Optional<...>`. Rules are total
functions `T -> bool` over the whole record.

A failing field with no message still gets a key in `errors`, whose value is
`Undefined` (`result.errors[field] = errors[field]`, services.ts:44); see
`Services.MissingMessageStillRecorded`.

The password message asks for "longer than 10 characters", but the rule
accepts exactly ten (`>= MIN_PASSWORD_SIZE`). `Validation.TenCharacterPasswordAccepted`
records this. Both readings are plausible, so the model keeps the code's
behaviour.

## Model

| member | source | states |
|---|---|---|
| `Services.Every` | services.ts:6-9 | the fold is true iff every rule in the sequence accepts the record |
| `Services.Any` | services.ts:11-14 | the fold is true iff at least one rule in the sequence accepts the record |
| `Services.All` | services.ts:6-9 | `all(rules)` accepts a record iff every rule in the list accepts it |
| `Services.Some` | services.ts:11-14 | `some(rules)` accepts a record iff at least one rule in the list accepts it |
| `Services.AllOfNothing` | services.ts:9 | `all([])` accepts every record (vacuous truth) |
| `Services.SomeOfNothing` | services.ts:14 | `some([])` rejects every record |
| `Services.Step` | services.ts:33-46 | one callback: `valid` stays true iff it was true and the key's rule is undefined or passes; a failing key is added to `errors` with its message lookup; every other entry is kept |
| `Services.VisitOneMore` | services.ts:36-45 | one callback of the `forEach` extends the result by exactly the visited key: no change if the rule is undefined or passes, otherwise `valid` cleared and the key's message written |
| `Services.Validate` | services.ts:26-49 | the loop returns `Verdict`: `valid` iff every defined rule passes; the error keys are exactly the keys with a defined failing rule; each error entry is that key's message lookup (undefined when missing) |
| `Services.ValidateTwice` | services.ts:27-31 | two calls of `validate` on the same record give equal results |
| `Services.ValidIffNoErrors` | services.ts:28-45 | `valid` is false iff `errors` has at least one key |
| `Services.ErrorsWithinRules` | services.ts:33-46 | every key of `errors` is a key of the rule table |
| `Services.NoRulesNoErrors` | services.ts:28-33 | an empty rule table gives `{valid: true, errors: {}}` |
| `Services.MissingMessageStillRecorded` | services.ts:42-45 | a failing field without a message still makes the result invalid and gets an error key whose value is undefined |
| `Services.UndefinedRuleIgnored` | services.ts:36-39 | a key whose rule is undefined never appears in `errors`, and removing it from the table changes nothing |
| `Services.ForEach` | services.ts:33-46 | the sequential `forEach` over a list of keys: `valid` iff it was valid and every listed rule passes; new error keys are listed keys whose rule fails, each with its message lookup; entries for other keys are kept |
| `Services.ForEachExtends` | services.ts:33-46 | running the callback over any duplicate-free list of further keys adds exactly those keys to the result, with no short-circuit |
| `Services.KeyOrderIrrelevant` | services.ts:33-46 | whatever order `Object.keys` lists the rule keys in, the sequential `forEach` returns the order-free `Verdict` |
| `Utils.Exists` | utils.ts:1 | a string is truthy iff it is non-empty |
| `Utils.Search` | utils.ts:2 | `search` returns -1 when no character matches, otherwise the index of the first matching character |
| `Utils.Contains` | utils.ts:2 | `contains` holds iff some character of the value matches the one-character pattern |
| `Utils.InRange` | utils.ts:3 | `inRange` holds iff `min <= value <= max`, inclusive at both ends, and only when `min <= max` |
| `Utils.InRangeEmptyWhenBoundsCross` | utils.ts:3 | with `min > max` no value is in range |
| `Utils.SameCalendarYearSameAge` | utils.ts:5 | `yearsOf` is the current year minus the year of the date, so two dates in the same calendar year give the same age |
| `Utils.Length` | validation.ts:43 | the JavaScript length is between the number of characters and twice that, and is 0 only for "" |
| `Utils.LengthOfCharacter` | validation.ts:43 | one character has length 2 outside the Basic Multilingual Plane and 1 inside it |
| `Utils.LengthOfConcat` | validation.ts:43 | the length of a concatenation is the sum of the lengths |
| `Utils.LengthOfBasicPlaneText` | validation.ts:43 | on text made only of Basic Multilingual Plane characters, the JavaScript length equals the number of characters |
| `SharedKernel.AtLeast` | validation.ts:36 | `n >= bound` is false for NaN and -Infinity, true for +Infinity, and for a finite number it is the real comparison |
| `Validation.ValidateName` | validation.ts:7 | the name rule holds iff the name is not the empty string |
| `Validation.ValidateEmail` | validation.ts:10 | the email rule holds iff the email contains an '@' and contains a '.' |
| `Validation.OnlyInternationalForm` | validation.ts:13 | holds iff the phone is non-empty and starts with '+' |
| `Validation.UnsafeCharacterMeans` | validation.ts:14 | `[^\d\s\-\(\)\+]` matches a character iff it is not an ASCII digit, a whitespace, '-', '(', ')' or '+' |
| `Validation.OnlySafeCharacters` | validation.ts:14 | holds iff every character of the phone is an ASCII digit, a whitespace, '-', '(', ')' or '+' |
| `Validation.AllowedAge` | validation.ts:21-22 | holds iff the birth date parses and its calendar year lies between 50 and 20 years before the current year |
| `Validation.IsKnownSpecialty` | validation.ts:26-28 | holds iff the specialty is "engineer", "scientist" or "psychologist" |
| `Validation.IsValidCustom` | validation.ts:29-30 | holds iff the custom specialty is non-empty with JavaScript length at most 50; more than 50 characters is always rejected, 1 to 25 always accepted |
| `Validation.IsExperienced` | validation.ts:36 | holds iff `Number(experience)` is +Infinity or a finite number at least 3 |
| `Validation.CapitalClassMeans` | validation.ts:40 | `[A-Z]` matches exactly 'A'..'Z' |
| `Validation.DigitClassMeans` | validation.ts:41 | `\d` with the `i` flag matches exactly the ASCII digits |
| `Validation.HasRequiredSize` | validation.ts:43 | ten or more characters always pass; a password passing it has at least five characters |
| `Validation.HasCapital` | validation.ts:44 | holds iff some character of the password is 'A'..'Z' |
| `Validation.HasDigit` | validation.ts:45 | holds iff some character of the password is an ASCII digit |
| `Validation.Rules` | validation.ts:63-71 | the rule table has exactly the keys name, email, phone, birthDate, specialty, experience and password, each with a defined rule |
| `Validation.Errors` | validation.ts:73-81 | the message table has exactly the same seven keys, each with a defined text |
| `Validation.ValidateForm` | validation.ts:83 | the form's validator has the same seven keys in both tables, and every message is defined |
| `Validation.ValidatePhoneMeans` | validation.ts:13-14 | the phone rule holds iff the phone starts with '+' and every character is an ASCII digit, a whitespace, '-', '(', ')' or '+' |
| `Validation.ValidateBirthDateMeans` | validation.ts:20-22 | the birth-date rule (`validDate` and `allowedAge`) holds iff `Date.parse` reads the date and the years since it lie in [20, 50] |
| `Validation.ValidateSpecialtyMeans` | validation.ts:25-30 | the specialty rule holds iff the specialty is engineer, scientist or psychologist, or the custom specialty is non-empty with JavaScript length at most 50 |
| `Validation.ValidateExperienceMeans` | validation.ts:35-36 | the experience rule (`isNumberLike` and `isExperienced`) holds iff `Number(experience)` is finite and at least 3 |
| `Validation.InfiniteExperienceRejected` | validation.ts:35-36 | "Infinity" passes `isExperienced` alone and is rejected by the combined rule |
| `Validation.ValidatePasswordMeans` | validation.ts:39-45 | the password rule holds iff the JavaScript length is at least 10, some character is 'A'..'Z' and some character is an ASCII digit |
| `Validation.TenCharacterPasswordAccepted` | validation.ts:43 | every password of JavaScript length exactly ten with a capital and a digit is accepted |
| `Validation.FormErrorFields` | validation.ts:63-71 | only name, email, phone, birthDate, specialty, experience and password can appear in `errors`; photo and customSpecialty never do |
| `Validation.FormErrorsCarryMessages` | validation.ts:63-81 | every ruled field has a message, so each error entry is the field's defined text and never undefined |
| `Validation.FieldReported` | validation.ts:63-71 | a ruled field is in `errors` exactly when the rule in its entry of the rules literal rejects the form |
| `Validation.FormValidIffRulesPass` | validation.ts:54-71 | the form is valid exactly when the name, email, phone, birth-date, specialty, experience and password rules all accept it |
| `Validation.ValidateFormMeans` | validation.ts:63-83 | each field is in `errors` exactly when its own condition fails, and the form is valid exactly when `errors` is empty |
| `Validation.ValidateApplication` | validation.ts:83 | running `validateForm` returns the form's `Verdict`, so each field is reported exactly as `ValidateFormMeans` says; it gives errors only on ruled fields, each with its defined message, and `valid` iff every field rule passes |

## Left out

- `Date.parse`, the wall clock and the time-zone calendar behind `yearsOf`, and `Number(...)` are not modelled. They are the parameters of `Validation.Host`: `parseDate`, `Clock` and `toNumber`. `Date.parse` results are `TimeValue`: NaN or whole milliseconds. `Number(...)` results are `JsNumber`: NaN, plus or minus Infinity, or a finite real.
- One `Validation.Host` value stands for one moment in time. `ValidateForm(host)` fixes `clock.currentYear` when the validator is built. The source builds `validateForm` once (validation.ts:83), but `yearsOf` reads `new Date()` on every call (utils.ts:5), so the same birth date can be judged differently before and after New Year. `Services.ValidateTwice` holds only because the model's rules are pure functions of a fixed host.
- Floating-point rounding of `Number(...)` is not modelled. The finite case is an exact real, and the conversion itself is a parameter.
- There is no general regular-expression engine. Only the three patterns used are modelled, as character classes: `[^\d\s\-\(\)\+]`, `[A-Z]` and `\d`. The `g` flag does not affect `search`, and the `i` flag does not change `\d`.
- `Utils.Search` returns the index counted in characters, not in UTF-16 code units. Only its sign is used, and the sign is the same either way.
- Strings holding lone surrogate code units cannot be written in Dafny strings, which hold Unicode scalar values.
- `exists` is modelled for strings only, and `inRange` for integers only. The source declares them generically (`exists<TEntity>` at utils.ts:1, `Comparable = string | number` at shared-kernel.d.ts:11), but it calls `exists` only on the name and custom-specialty strings (validation.ts:7, :30) and `inRange` only on the number `yearsOf` returns (validation.ts:22).
- The photo field is an opaque type, `Types.Image`. No rule reads it.
- `Object.keys` insertion order is not modelled. The loop picks keys in any order, and `Services.KeyOrderIrrelevant` covers every order.
- The closure returned by `createValidator` keeps references to the rule and message objects, so changing them later would change the results of later calls. The model's tables are values and cannot change, so this is not modelled.
