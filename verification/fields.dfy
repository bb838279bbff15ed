/** The field descriptors of api.py: a shared presence check
    (`Field.is_valid`) followed by one type and shape check per field kind.
    A validator returns normally, raises `ValueError` (which the binder
    records as the field's message), or raises some other exception (which
    escapes the binder). */
module Fields {
  import opened Optional
  import opened Json
  import opened Decimal
  import opened Calendar
  import opened DateFormat
  import opened Regex

  datatype Kind =
    | CharKind | ArgumentsKind | EmailKind | PhoneKind
    | DateKind | BirthDayKind | GenderKind | ClientIdsKind

  /** A field descriptor: its kind and the `required` and `nullable` flags
      of `Field.__init__`. */
  datatype Field = Field(kind: Kind, required: bool, nullable: bool)

  /** What `validate` does with a value. */
  datatype Outcome = Ok | Err(msg: string) | Crash

  const RequiredMsg := "Field is required and cannot be None"
  const EmptyMsg := "Field cannot be empty"
  const CharMsg := "Field must be a string"
  const ArgumentsMsg := "Arguments must be a valid json"
  const EmailMsg := "Email must be a valid email address"
  const PhoneTypeMsg := "Phone number must be a string or an integer"
  const PhoneLengthMsg := "Phone number must be 11 characters long"
  const PhoneLeadMsg := "Phone number must start with 7"
  const DateMsg := "Invalid date. Date must be in format DD.MM.YYYY"
  const BirthDayMsg := "Invalid date"
  const GenderMsg := "Invalid gender"
  const ListMsg := "client_ids should be a list"
  const EmptyListMsg := "client_ids cannot be an empty list"
  const IntMsg := "client_ids should be an int"

  /** The values `Field.is_valid` lets through without raising: not a
      missing value on a required field, not `""` on a non-nullable one. */
  predicate Admissible(f: Field, v: JValue) {
    !(v == JNull && f.required) && !(v == JStr("") && !f.nullable)
  }

  /** `Field.is_valid`. Its boolean result is ignored by every validator;
      only what it raises matters. */
  function Presence(f: Field, v: JValue): (r: Outcome)
    ensures r == Ok <==> Admissible(f, v)
    ensures r != Ok ==> r == Err(if v == JNull then RequiredMsg else EmptyMsg)
  {
    if v == JNull then (if f.required then Err(RequiredMsg) else Ok)
    else if v == JStr("") && !f.nullable then Err(EmptyMsg)
    else Ok
  }

  /** `CharField.validate`: only a truthy non-string is a type error, so
      `0`, `False`, `[]` and `{}` pass. */
  function CheckChar(f: Field, v: JValue): (r: Outcome)
    ensures r != Crash
    ensures r == Ok <==> Admissible(f, v) && (!Truthy(v) || v.JStr?)
    ensures Admissible(f, v) && r != Ok ==> r == Err(CharMsg)
  {
    var p := Presence(f, v);
    if p != Ok then p
    else if Truthy(v) && !v.JStr? then Err(CharMsg)
    else Ok
  }

  /** `ArgumentsField.validate`: the type check runs on falsy values too,
      so `""` fails even when the field is nullable. */
  function CheckArguments(f: Field, v: JValue): (r: Outcome)
    ensures r != Crash
    ensures r == Ok <==> v.JObj?
    ensures Admissible(f, v) && r != Ok ==> r == Err(ArgumentsMsg)
  {
    var p := Presence(f, v);
    if p != Ok then p
    else if !v.JObj? then Err(ArgumentsMsg)
    else Ok
  }

  /** `EmailField.validate`: `re.match(r'.+@.+', value)`. A truthy
      non-string makes `re.match` raise `TypeError`. */
  function CheckEmail(f: Field, v: JValue): (r: Outcome)
    ensures r == Crash <==> Admissible(f, v) && Truthy(v) && !v.JStr?
    ensures r == Ok <==> Admissible(f, v) && (!Truthy(v) || (v.JStr? && EmailShape(v.s)))
    ensures Admissible(f, v) && r.Err? ==> r == Err(EmailMsg)
  {
    var p := Presence(f, v);
    if p != Ok then p
    else if !Truthy(v) then Ok
    else if !v.JStr? then Crash
    else
      EmailMatch(v.s);
      if Match(EmailPattern, v.s) then Ok else Err(EmailMsg)
  }

  /** `str(v)` for a string or int-like value. */
  function PyStr(v: JValue): string
    requires v.JStr? || IsInt(v)
  {
    match v
    case JStr(s) => s
    case JBool(b) => if b then "True" else "False"
    case JInt(i) => IntStr(i)
  }

  /** The phone values the check accepts, stated without rendering. */
  predicate PhoneShape(v: JValue) {
    (v.JStr? && |v.s| == 11 && v.s[0] == '7')
    || (v.JInt? && 70000000000 <= v.i < 80000000000)
  }

  /** `PhoneField.validate`. A `bool` is an `int` whose `str` is `"True"`,
      so it fails the length check. */
  function CheckPhone(f: Field, v: JValue): (r: Outcome)
    ensures r != Crash
    ensures r == Ok <==> Admissible(f, v) && (!Truthy(v) || PhoneShape(v))
    ensures Admissible(f, v) && Truthy(v) && !(v.JStr? || IsInt(v)) ==> r == Err(PhoneTypeMsg)
    ensures Admissible(f, v) && v.JBool? && v.b ==> r == Err(PhoneLengthMsg)
    ensures Admissible(f, v) && Truthy(v) && (v.JStr? || IsInt(v)) && |PyStr(v)| != 11 ==> r == Err(PhoneLengthMsg)
    ensures Admissible(f, v) && Truthy(v) && (v.JStr? || IsInt(v)) && |PyStr(v)| == 11 && PyStr(v)[0] != '7' ==>
              r == Err(PhoneLeadMsg)
  {
    var p := Presence(f, v);
    if p != Ok then p
    else if !Truthy(v) then Ok
    else if !(v.JStr? || IsInt(v)) then Err(PhoneTypeMsg)
    else
      ElevenCharsLeadingSeven(if v.JInt? then v.i else 0);
      if IsInt(v) && |PyStr(v)| != 11 then Err(PhoneLengthMsg)
      else if v.JStr? && |v.s| != 11 then Err(PhoneLengthMsg)
      else if PyStr(v)[0] != '7' then Err(PhoneLeadMsg)
      else Ok
  }

  /** `DateField.validate`: `strptime(value, "%d.%m.%Y")`; a truthy
      non-string makes `strptime` raise `TypeError`. */
  function CheckDate(f: Field, v: JValue): (r: Outcome)
    ensures r == Crash <==> Admissible(f, v) && Truthy(v) && !v.JStr?
    ensures r == Ok <==> Admissible(f, v) && (!Truthy(v) || (v.JStr? && ParseDate(v.s).Some?))
    ensures Admissible(f, v) && r.Err? ==> r == Err(DateMsg)
  {
    var p := Presence(f, v);
    if p != Ok then p
    else if !Truthy(v) then Ok
    else if !v.JStr? then Crash
    else if ParseDate(v.s).None? then Err(DateMsg)
    else Ok
  }

  /** The comparison `date < datetime.today() - relativedelta(years=70)`:
      the parsed date is at midnight, the cutoff keeps the time of day of
      now, so the cutoff's own calendar day is too old unless now is
      exactly midnight. */
  predicate TooOld(d: Date, now: Clock) {
    var c := YearsBack(now.today, 70);
    Before(d, c) || (d == c && !now.midnight)
  }

  /** `BirthDayField.validate`. When now minus seventy years leaves
      `datetime`'s range, `replace` raises `ValueError("year N is out of
      range")`, which the binder records like any other message. */
  function CheckBirthDay(f: Field, v: JValue, now: Clock): (r: Outcome)
    ensures r == Crash <==> Admissible(f, v) && Truthy(v) && !v.JStr?
    ensures r == Ok <==>
              Admissible(f, v)
              && (!Truthy(v) || (v.JStr? && ParseDate(v.s).Some? && now.today.year > 70
                                 && !TooOld(ParseDate(v.s).value, now)))
    ensures Admissible(f, v) && v.JStr? && Truthy(v) && ParseDate(v.s).None? ==> r == Err(DateMsg)
    ensures Admissible(f, v) && v.JStr? && Truthy(v) && ParseDate(v.s).Some? && now.today.year <= 70 ==>
              r == Err("year " + IntStr(now.today.year - 70) + " is out of range")
    ensures (Admissible(f, v) && v.JStr? && Truthy(v) && ParseDate(v.s).Some? && now.today.year > 70
             && TooOld(ParseDate(v.s).value, now)) ==> r == Err(BirthDayMsg)
  {
    var p := Presence(f, v);
    if p != Ok then p
    else if !Truthy(v) then Ok
    else if !v.JStr? then Crash
    else match ParseDate(v.s)
      case None => Err(DateMsg)
      case Some(d) =>
        var c := YearsBack(now.today, 70);
        if c.year < 1 then Err("year " + IntStr(c.year) + " is out of range")
        else if TooOld(d, now) then Err(BirthDayMsg)
        else Ok
  }

  /** `GenderField.validate`: `isinstance(value, int) and value in [0, 1, 2]`
      for truthy values, where `True == 1`. */
  function CheckGender(f: Field, v: JValue): (r: Outcome)
    ensures r != Crash
    ensures r == Ok <==> Admissible(f, v) && (!Truthy(v) || v in {JInt(1), JInt(2), JBool(true)})
    ensures Admissible(f, v) && r != Ok ==> r == Err(GenderMsg)
  {
    var p := Presence(f, v);
    if p != Ok then p
    else if Truthy(v) && (!IsInt(v) || IntValue(v) !in {0, 1, 2}) then Err(GenderMsg)
    else Ok
  }

  /** `ClientIDsField.validate`: its checks run in order (presence, list,
      non-empty, every element an int) and on falsy values too. */
  function CheckClientIds(f: Field, v: JValue): (r: Outcome)
    ensures r != Crash
    ensures r == Ok <==> v.JList? && |v.items| > 0 && forall i :: 0 <= i < |v.items| ==> IsInt(v.items[i])
    ensures Admissible(f, v) && !v.JList? ==> r == Err(ListMsg)
    ensures Admissible(f, v) && v == JList([]) ==> r == Err(EmptyListMsg)
    ensures v.JList? && v.items != [] && r != Ok ==> r == Err(IntMsg)
  {
    var p := Presence(f, v);
    if p != Ok then p
    else if !v.JList? then Err(ListMsg)
    else if |v.items| == 0 then Err(EmptyListMsg)
    else if exists i :: 0 <= i < |v.items| && !IsInt(v.items[i]) then Err(IntMsg)
    else Ok
  }

  /** `field.validate(value)`. */
  function Validate(f: Field, v: JValue, now: Clock): (r: Outcome)
    ensures v == JNull && f.required ==> r == Err(RequiredMsg)
    ensures v == JStr("") && !f.nullable ==> r == Err(EmptyMsg)
    ensures r == Crash ==> f.kind in {EmailKind, DateKind, BirthDayKind} && Truthy(v) && !v.JStr?
    ensures Admissible(f, v) && !Truthy(v) && f.kind !in {ArgumentsKind, ClientIdsKind} ==> r == Ok
  {
    match f.kind
    case CharKind => CheckChar(f, v)
    case ArgumentsKind => CheckArguments(f, v)
    case EmailKind => CheckEmail(f, v)
    case PhoneKind => CheckPhone(f, v)
    case DateKind => CheckDate(f, v)
    case BirthDayKind => CheckBirthDay(f, v, now)
    case GenderKind => CheckGender(f, v)
    case ClientIdsKind => CheckClientIds(f, v)
  }

  /** A date exactly on the day seventy years back is accepted only when now
      is midnight; an earlier one never is; a later one always is, however
      far in the future. */
  lemma BirthDayCutoff(f: Field, d: Day, now: Clock)
    requires f.kind == BirthDayKind && now.today.year > 70
    ensures var c := YearsBack(now.today, 70);
            Validate(f, JStr(FormatDate(d)), now) == Ok
            <==> Before(c, d) || (d == c && now.midnight)
  {
    FormatRoundTrip(d);
  }

  /** There is no upper bound: any date after today is a valid birthday. */
  lemma FutureBirthDayAccepted(f: Field, d: Day, now: Clock)
    requires f.kind == BirthDayKind && now.today.year > 70
    requires Before(now.today, d)
    ensures Validate(f, JStr(FormatDate(d)), now) == Ok
  {
    var c := YearsBack(now.today, 70);
    assert Before(c, now.today);
    BeforeTransitive(c, now.today, d);
    BirthDayCutoff(f, d, now);
  }

  /** A phone accepted as a string and as an integer. */
  lemma PhonesAccepted(f: Field, now: Clock)
    requires f.kind == PhoneKind
    ensures Validate(f, JStr("79161234567"), now) == Ok
    ensures Validate(f, JInt(79161234567), now) == Ok
  {
    assert PhoneShape(JStr("79161234567")) && PhoneShape(JInt(79161234567));
  }

  /** A phone rejected on its leading digit and one rejected on its length. */
  lemma PhonesRejected(f: Field, now: Clock)
    requires f.kind == PhoneKind
    ensures Validate(f, JStr("89161234567"), now) == Err(PhoneLeadMsg)
    ensures Validate(f, JStr("7916123456"), now) == Err(PhoneLengthMsg)
  {
    var lead, short := JStr("89161234567"), JStr("7916123456");
    assert |lead.s| == 11 && PyStr(lead)[0] == '8';
    assert |short.s| == 10 && |PyStr(short)| == 10;
  }

  /** Two accepted phones, as a string and as an integer, and one rejected
      for each of the leading digit and the length. */
  lemma PhoneExamples(f: Field, now: Clock)
    requires f.kind == PhoneKind
    ensures Validate(f, JStr("79161234567"), now) == Ok
    ensures Validate(f, JInt(79161234567), now) == Ok
    ensures Validate(f, JStr("89161234567"), now) == Err(PhoneLeadMsg)
    ensures Validate(f, JStr("7916123456"), now) == Err(PhoneLengthMsg)
  {
    PhonesAccepted(f, now);
    PhonesRejected(f, now);
  }
}
