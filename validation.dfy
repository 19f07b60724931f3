/** The application form's rules and messages, and the validator built from
    them. */
module Validation {
  import opened SharedKernel
  import opened Types
  import opened Utils
  import opened Services

  /** What the date and experience rules need from the JavaScript host:
      `Date.parse`, the clock and calendar behind `yearsOf`, and the
      string-to-number conversion `Number(...)`. */
  datatype Host = Host(parseDate: string -> TimeValue, clock: Clock, toNumber: string -> JsNumber)

  // ---------------------------------------------------------------------
  // Name, email, phone

  function ValidateName(form: ApplicationForm): (r: bool)
    ensures r <==> form.name != ""
  {
    Exists(form.name)
  }

  function ValidateEmail(form: ApplicationForm): (r: bool)
    ensures r <==>
      && (exists i :: 0 <= i < |form.email| && form.email[i] == '@')
      && (exists j :: 0 <= j < |form.email| && form.email[j] == '.')
  {
    '@' in form.email && '.' in form.email
  }

  /** `phone.startsWith('+')`. */
  function OnlyInternationalForm(form: ApplicationForm): (r: bool)
    ensures r <==> |form.phone| > 0 && form.phone[0] == '+'
  {
    "+" <= form.phone
  }

  /** A character a phone number may contain. */
  predicate SafePhoneCharacter(c: char) {
    IsDigit(c) || IsWhiteSpace(c) || c == '-' || c == '(' || c == ')' || c == '+'
  }

  /** `/[^\d\s\-\(\)\+]/g`: any character that is not allowed in a phone. */
  const UnsafeCharacter := CharClass(true, [DigitEscape, SpaceEscape, Char('-'), Char('('), Char(')'), Char('+')])

  lemma UnsafeCharacterMeans()
    ensures forall c :: ClassMatches(UnsafeCharacter, c) <==> !SafePhoneCharacter(c)
  {
    var atoms := UnsafeCharacter.atoms;
    forall c | SafePhoneCharacter(c) ensures ClassMatches(UnsafeCharacter, c) == false {
      if IsDigit(c) { assert AtomMatches(atoms[0], c); }
      else if IsWhiteSpace(c) { assert AtomMatches(atoms[1], c); }
      else if c == '-' { assert AtomMatches(atoms[2], c); }
      else if c == '(' { assert AtomMatches(atoms[3], c); }
      else if c == ')' { assert AtomMatches(atoms[4], c); }
      else { assert AtomMatches(atoms[5], c); }
    }
  }

  function OnlySafeCharacters(form: ApplicationForm): (r: bool)
    ensures r <==> forall i :: 0 <= i < |form.phone| ==> SafePhoneCharacter(form.phone[i])
  {
    UnsafeCharacterMeans();
    !Contains(form.phone, UnsafeCharacter)
  }

  // ---------------------------------------------------------------------
  // Birth date

  const MinAge := 20
  const MaxAge := 50

  /** `!Number.isNaN(Date.parse(birthDate))`. */
  function ValidDate(host: Host, form: ApplicationForm): bool {
    host.parseDate(form.birthDate) != InvalidDate
  }

  /** The age counts calendar years, so the accepted birth dates are those
      whose year lies between `MaxAge` and `MinAge` years before now. */
  function AllowedAge(host: Host, form: ApplicationForm): (r: bool)
    ensures r <==>
      && host.parseDate(form.birthDate).Time?
      && host.clock.currentYear - MaxAge
         <= host.clock.fullYearOf(host.parseDate(form.birthDate).ms)
         <= host.clock.currentYear - MinAge
  {
    match host.parseDate(form.birthDate)
    // yearsOf(NaN) is NaN, and both comparisons inside inRange are false
    case InvalidDate => false
    case Time(ms) => InRange(YearsOf(host.clock, ms), MinAge, MaxAge)
  }

  // ---------------------------------------------------------------------
  // Specialty

  const MaxSpecialtyLength := 50
  const DefaultSpecialties: seq<string> := ["engineer", "scientist", "psychologist"]

  function IsKnownSpecialty(form: ApplicationForm): (r: bool)
    ensures r <==> form.specialty == "engineer" || form.specialty == "scientist" || form.specialty == "psychologist"
  {
    form.specialty in DefaultSpecialties
  }

  function IsValidCustom(form: ApplicationForm): (r: bool)
    ensures r <==> form.customSpecialty != "" && Length(form.customSpecialty) <= MaxSpecialtyLength
    ensures |form.customSpecialty| > MaxSpecialtyLength ==> !r
    ensures 0 < |form.customSpecialty| && 2 * |form.customSpecialty| <= MaxSpecialtyLength ==> r
  {
    Exists(form.customSpecialty) && Length(form.customSpecialty) <= MaxSpecialtyLength
  }

  // ---------------------------------------------------------------------
  // Experience

  const MinExperienceYears := 3

  /** `Number.isFinite(Number(experience))`. */
  function IsNumberLike(host: Host, form: ApplicationForm): bool {
    host.toNumber(form.experience).Finite?
  }

  /** `Number(experience) >= MIN_EXPERIENCE_YEARS`. */
  function IsExperienced(host: Host, form: ApplicationForm): (r: bool)
    ensures r <==>
      || host.toNumber(form.experience) == PositiveInfinity
      || (host.toNumber(form.experience).Finite? && host.toNumber(form.experience).value >= MinExperienceYears as real)
  {
    AtLeast(host.toNumber(form.experience), MinExperienceYears)
  }

  // ---------------------------------------------------------------------
  // Password

  const MinPasswordSize := 10
  const AtLeastOneCapital := CharClass(false, [Range('A', 'Z')])
  const AtLeastOneDigit := CharClass(false, [DigitEscape])

  predicate IsCapital(c: char) {
    'A' <= c <= 'Z'
  }

  lemma CapitalClassMeans()
    ensures forall c :: ClassMatches(AtLeastOneCapital, c) <==> IsCapital(c)
  {
    forall c | IsCapital(c) ensures ClassMatches(AtLeastOneCapital, c) {
      assert AtomMatches(AtLeastOneCapital.atoms[0], c);
    }
  }

  lemma DigitClassMeans()
    ensures forall c :: ClassMatches(AtLeastOneDigit, c) <==> IsDigit(c)
  {
    forall c | IsDigit(c) ensures ClassMatches(AtLeastOneDigit, c) {
      assert AtomMatches(AtLeastOneDigit.atoms[0], c);
    }
  }

  /** `password.length` counts UTF-16 code units, so ten characters always
      suffice and five never do. */
  function HasRequiredSize(form: ApplicationForm): (r: bool)
    ensures |form.password| >= MinPasswordSize ==> r
    ensures r ==> 2 * |form.password| >= MinPasswordSize
  {
    Length(form.password) >= MinPasswordSize
  }

  function HasCapital(form: ApplicationForm): (r: bool)
    ensures r <==> exists i :: 0 <= i < |form.password| && IsCapital(form.password[i])
  {
    CapitalClassMeans();
    Contains(form.password, AtLeastOneCapital)
  }

  function HasDigit(form: ApplicationForm): (r: bool)
    ensures r <==> exists i :: 0 <= i < |form.password| && IsDigit(form.password[i])
  {
    DigitClassMeans();
    Contains(form.password, AtLeastOneDigit)
  }

  // ---------------------------------------------------------------------
  // Field rules, messages and the form validator

  const PhoneRules: seq<ValidationRule<ApplicationForm>> := [OnlyInternationalForm, OnlySafeCharacters]
  const SpecialtyRules: seq<ValidationRule<ApplicationForm>> := [IsKnownSpecialty, IsValidCustom]
  const PasswordRules: seq<ValidationRule<ApplicationForm>> := [HasRequiredSize, HasCapital, HasDigit]

  function BirthDateRules(host: Host): seq<ValidationRule<ApplicationForm>> {
    [form => ValidDate(host, form), form => AllowedAge(host, form)]
  }

  function ExperienceRules(host: Host): seq<ValidationRule<ApplicationForm>> {
    [form => IsNumberLike(host, form), form => IsExperienced(host, form)]
  }

  const ValidatePhone: ValidationRule<ApplicationForm> := All(PhoneRules)
  const ValidateSpecialty: ValidationRule<ApplicationForm> := Some(SpecialtyRules)
  const ValidatePassword: ValidationRule<ApplicationForm> := All(PasswordRules)

  function ValidateBirthDate(host: Host): ValidationRule<ApplicationForm> {
    All(BirthDateRules(host))
  }

  function ValidateExperience(host: Host): ValidationRule<ApplicationForm> {
    All(ExperienceRules(host))
  }

  /** The fields that carry a rule. */
  function RuledFields(): set<Field> {
    {Name, Email, Phone, BirthDate, Specialty, Experience, Password}
  }

  /** The entry of the rule object literal for one field; `photo` and
      `customSpecialty` have none. */
  function RuleOf(host: Host, field: Field): Optional<ValidationRule<ApplicationForm>> {
    match field
    case Name => Defined(ValidateName)
    case Email => Defined(ValidateEmail)
    case Phone => Defined(ValidatePhone)
    case BirthDate => Defined(ValidateBirthDate(host))
    case Specialty => Defined(ValidateSpecialty)
    case Experience => Defined(ValidateExperience(host))
    case Password => Defined(ValidatePassword)
    case Photo | CustomSpecialty => Undefined
  }

  /** The form's rule table: a defined rule for each ruled field, none for
      `photo` or `customSpecialty`. */
  function Rules(host: Host): (rules: ValidationRules<Field, ApplicationForm>)
    ensures rules.Keys == RuledFields()
    ensures forall k :: k in rules ==> rules[k].Defined?
  {
    map field | field in RuledFields() :: RuleOf(host, field)
  }

  // The texts of the message object literal.
  const NameMessage: ErrorMessage := "Your name is required for this mission."
  const EmailMessage: ErrorMessage := "Correct email format is user@example.com."
  const PhoneMessage: ErrorMessage := "Please, use only “+”, “-”, “(”, “)”, and a whitespace."
  const BirthDateMessage: ErrorMessage := "We require applicants to be between 20 and 50 years."
  const SpecialtyMessage: ErrorMessage := "Please, use up to 50 characters to describe your specialty."
  const ExperienceMessage: ErrorMessage := "For this mission, we search for experience 3+ years."
  const PasswordMessage: ErrorMessage := "Your password must be longer than 10 characters, include a capital letter and a digit."

  /** The entry of the message object literal for one field. */
  function MessageOf(field: Field): Optional<ErrorMessage> {
    match field
    case Name => Defined(NameMessage)
    case Email => Defined(EmailMessage)
    case Phone => Defined(PhoneMessage)
    case BirthDate => Defined(BirthDateMessage)
    case Specialty => Defined(SpecialtyMessage)
    case Experience => Defined(ExperienceMessage)
    case Password => Defined(PasswordMessage)
    case Photo | CustomSpecialty => Undefined
  }

  /** The form's message table: a text for each ruled field. */
  function Errors(): (messages: ErrorMessages<Field>)
    ensures messages.Keys == RuledFields()
    ensures forall k :: k in messages ==> messages[k].Defined?
  {
    map field | field in RuledFields() :: MessageOf(field)
  }

  /** `validateForm`: the validator over the form's rules and messages, in
      which every rule has a defined message. */
  function ValidateForm(host: Host): (validator: Validator<Field, ApplicationForm>)
    ensures validator.rules.Keys == validator.messages.Keys == RuledFields()
    ensures forall k :: k in validator.messages ==> validator.messages[k].Defined?
  {
    Validator(Rules(host), Errors())
  }

  // ---------------------------------------------------------------------
  // What each field rule accepts

  lemma ValidatePhoneMeans(form: ApplicationForm)
    ensures ValidatePhone(form) <==>
      && |form.phone| > 0 && form.phone[0] == '+'
      && forall i :: 0 <= i < |form.phone| ==> SafePhoneCharacter(form.phone[i])
  {
    assert PhoneRules[0](form) == OnlyInternationalForm(form);
    assert PhoneRules[1](form) == OnlySafeCharacters(form);
  }

  lemma ValidateBirthDateMeans(host: Host, form: ApplicationForm)
    ensures ValidateBirthDate(host)(form) <==>
      && host.parseDate(form.birthDate).Time?
      && MinAge <= YearsOf(host.clock, host.parseDate(form.birthDate).ms) <= MaxAge
  {
  }

  lemma ValidateSpecialtyMeans(form: ApplicationForm)
    ensures ValidateSpecialty(form) <==>
      || form.specialty == "engineer" || form.specialty == "scientist" || form.specialty == "psychologist"
      || (form.customSpecialty != "" && Length(form.customSpecialty) <= MaxSpecialtyLength)
  {
    assert SpecialtyRules[0](form) == IsKnownSpecialty(form);
    assert SpecialtyRules[1](form) == IsValidCustom(form);
  }

  lemma ValidateExperienceMeans(host: Host, form: ApplicationForm)
    ensures ValidateExperience(host)(form) <==>
      host.toNumber(form.experience).Finite? && host.toNumber(form.experience).value >= MinExperienceYears as real
  {
  }

  /** `isExperienced` alone lets "Infinity" through; `isNumberLike` is what
      rejects it. */
  lemma InfiniteExperienceRejected(host: Host, form: ApplicationForm)
    requires host.toNumber(form.experience) == PositiveInfinity
    ensures IsExperienced(host, form) && !ValidateExperience(host)(form)
  {
  }

  lemma ValidatePasswordMeans(form: ApplicationForm)
    ensures ValidatePassword(form) <==>
      && Length(form.password) >= MinPasswordSize
      && (exists i :: 0 <= i < |form.password| && IsCapital(form.password[i]))
      && (exists j :: 0 <= j < |form.password| && IsDigit(form.password[j]))
  {
    assert PasswordRules[0](form) == HasRequiredSize(form);
    assert PasswordRules[1](form) == HasCapital(form);
    assert PasswordRules[2](form) == HasDigit(form);
  }

  /** A password whose length is exactly ten is accepted once it has a
      capital and a digit, although its message asks for more than ten. */
  lemma TenCharacterPasswordAccepted(form: ApplicationForm)
    requires Length(form.password) == MinPasswordSize
    requires exists i :: 0 <= i < |form.password| && IsCapital(form.password[i])
    requires exists j :: 0 <= j < |form.password| && IsDigit(form.password[j])
    ensures ValidatePassword(form)
  {
    ValidatePasswordMeans(form);
  }

  // ---------------------------------------------------------------------
  // The whole form

  /** Only ruled fields can ever carry an error: never `photo`, never
      `customSpecialty`. */
  lemma FormErrorFields(host: Host, form: ApplicationForm)
    ensures Verdict(Rules(host), Errors(), form).errors.Keys <= RuledFields()
    ensures Photo !in Verdict(Rules(host), Errors(), form).errors
    ensures CustomSpecialty !in Verdict(Rules(host), Errors(), form).errors
  {
    ErrorsWithinRules(Rules(host), Errors(), form);
  }

  /** Every ruled field has a message, so an error entry always carries the
      field's text and is never undefined. */
  lemma FormErrorsCarryMessages(host: Host, form: ApplicationForm)
    ensures Rules(host).Keys == RuledFields() && Rules(host).Keys <= Errors().Keys
    ensures forall k :: k in Verdict(Rules(host), Errors(), form).errors ==>
      k in Errors() && Errors()[k].Defined? && Verdict(Rules(host), Errors(), form).errors[k] == Errors()[k]
  {
  }

  /** A ruled field is reported exactly when its own rule rejects the form. */
  lemma FieldReported(host: Host, form: ApplicationForm, field: Field, rule: ValidationRule<ApplicationForm>)
    requires RuleOf(host, field) == Defined(rule)
    ensures field in Verdict(Rules(host), Errors(), form).errors <==> !rule(form)
  {
    assert Rules(host)[field] == RuleOf(host, field);
  }

  /** Each field is reported exactly when its own condition fails, and the
      form is valid exactly when no field is reported. */
  lemma ValidateFormMeans(host: Host, form: ApplicationForm)
    ensures Name in Verdict(Rules(host), Errors(), form).errors <==> form.name == ""
    ensures Email in Verdict(Rules(host), Errors(), form).errors <==> !('@' in form.email && '.' in form.email)
    ensures Phone in Verdict(Rules(host), Errors(), form).errors <==>
      !(&& |form.phone| > 0 && form.phone[0] == '+'
        && forall i :: 0 <= i < |form.phone| ==> SafePhoneCharacter(form.phone[i]))
    ensures BirthDate in Verdict(Rules(host), Errors(), form).errors <==> !ValidateBirthDate(host)(form)
    ensures Specialty in Verdict(Rules(host), Errors(), form).errors <==>
      !(|| form.specialty in DefaultSpecialties
        || (form.customSpecialty != "" && Length(form.customSpecialty) <= MaxSpecialtyLength))
    ensures Experience in Verdict(Rules(host), Errors(), form).errors <==> !ValidateExperience(host)(form)
    ensures Password in Verdict(Rules(host), Errors(), form).errors <==> !ValidatePassword(form)
    ensures Verdict(Rules(host), Errors(), form).valid <==> Verdict(Rules(host), Errors(), form).errors == map[]
  {
    FieldReported(host, form, Name, ValidateName);
    FieldReported(host, form, Email, ValidateEmail);
    FieldReported(host, form, Phone, ValidatePhone);
    FieldReported(host, form, BirthDate, ValidateBirthDate(host));
    FieldReported(host, form, Specialty, ValidateSpecialty);
    FieldReported(host, form, Experience, ValidateExperience(host));
    FieldReported(host, form, Password, ValidatePassword);
    ValidatePhoneMeans(form);
    ValidateSpecialtyMeans(form);
    ValidIffNoErrors(Rules(host), Errors(), form);
  }

  /** The form is valid exactly when all seven field rules accept it. */
  lemma FormValidIffRulesPass(host: Host, form: ApplicationForm)
    ensures Verdict(Rules(host), Errors(), form).valid <==>
      && ValidateName(form) && ValidateEmail(form) && ValidatePhone(form)
      && ValidateBirthDate(host)(form) && ValidateSpecialty(form)
      && ValidateExperience(host)(form) && ValidatePassword(form)
  {
    var rules := Rules(host);
    assert Verdict(rules, Errors(), form).valid <==> forall k :: k in RuledFields() ==> RuleOf(host, k).value(form);
  }

  /** Running the form validator on one application: the result is the
      form's verdict, so `ValidateFormMeans` says which fields it reports. */
  method ValidateApplication(host: Host, form: ApplicationForm) returns (result: ValidationResult<Field>)
    ensures result == Verdict(Rules(host), Errors(), form)
    ensures result.errors.Keys <= RuledFields()
    ensures result.valid <==> result.errors == map[]
    ensures forall k :: k in result.errors ==> result.errors[k] == Errors()[k] && Errors()[k].Defined?
    ensures result.valid <==>
      && ValidateName(form) && ValidateEmail(form) && ValidatePhone(form)
      && ValidateBirthDate(host)(form) && ValidateSpecialty(form)
      && ValidateExperience(host)(form) && ValidatePassword(form)
  {
    var rules := Rules(host);
    result := Validate(Validator(rules, Errors()), form);
    FormErrorFields(host, form);
    FormErrorsCarryMessages(host, form);
    ValidIffNoErrors(Rules(host), Errors(), form);
    FormValidIffRulesPass(host, form);
  }

}
