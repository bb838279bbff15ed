# Scoring API: request validation and dispatch

A Dafny model of the request-validation and dispatch core of the scoring
HTTP API in `api.py`. It covers three parts:

- the field validators (`Field.is_valid` and the eight field classes);
- request binding (`BaseRequest` with its three schemas,
  `OnlineScoreRequest.validate`, `MethodRequest.is_admin`);
- authentication (`check_auth`) and the method dispatcher (`method_handler`),
  including the JSON envelope the HTTP handler wraps around a handler outcome.

The modules are:

- **Json** (`json.dfy`): decoded JSON values, with Python's truthiness and
  `isinstance(v, int)`. A dictionary is an association list. `Get` is
  `dict.get`: it reads the last assignment to a key, or `None` when the key is
  absent. `Put` is `d[k] = v`. `Keys` lists each key once, in order of first
  insertion.
- **Decimal** (`decimal.dfy`): `str(n)` on integers, and `int()` on digit
  strings.
- **Calendar** (`calendar.dfy`): proleptic Gregorian dates in years 1 to 9999,
  the clock (today's date, the `%Y%m%d%H` stamp, and whether it is midnight),
  and `relativedelta(years=n)` subtraction.
- **DateFormat** (`dateformat.dfy`): `datetime.strptime(s, "%d.%m.%Y")`, plus a
  zero-padded formatter used to prove the parser accepts every date.
- **Regex** (`regex.dfy`): a backtracking matcher for the email pattern
  `.+@.+`, proved equal to a declarative "something, `@`, something" shape.
- **Fields** (`fields.dfy`): every field validator. Its outcome is `Ok`,
  `Err(message)` (a `ValueError` with that exact message), or `Crash` (any
  other exception).
- **Requests** (`requests.dfy`): the three schemas and the binding loop of
  `BaseRequest.__init__`, plus the online-score pair rule.
- **Auth** (`auth.dfy`): `is_admin` and `check_auth`. SHA-512 is a function
  parameter.
- **Dispatch** (`dispatch.dfy`): `method_handler`, which returns a body, a
  status code and the updated context, or raises. It also covers the response
  object `do_POST` builds from that outcome.

Things outside the model are parameters:

- the clock is a `Clock` value;
- SHA-512 is `hash: string -> string`;
- the scoring store calls are `score: Dict -> Option<JValue>` and
  `interests: JValue -> Option<JValue>`, where `None` means the call raised.

### Behaviour of the code worth knowing

- A birthday exactly 70 years back is rejected unless the clock reads exactly
  midnight: the parsed date is at midnight and is compared with
  `datetime.today()`, which carries the time of day (`Fields.BirthDayCutoff`).
- An optional field that is absent is bound as `None`, because
  `kwargs.get(name)` is `None` and `None` passes validation. The pair rule
  therefore sees `None` for it.
- When every online-score field passes but no pair is present, the answer is
  `{"error": {}}` with status 422: the error mapping is empty
  (`Dispatch.PhoneAloneFailsPairRule`).

## Model

| member | source | states |
|---|---|---|
| Json.Get | api.py:153 | `kwargs.get(name)`: a key never assigned reads as `None` |
| Json.Keys | api.py:233 | the key list contains exactly the dictionary's keys, each once |
| Json.Put | api.py:226 | after `d[k] = v`, `k` reads `v`, every other key reads as before, and the key set grows by `k` alone |
| Json.PutKeys | api.py:233 | assigning an existing key keeps the key order; assigning a new key appends it |
| Fields.Presence | api.py:48-55 | `None` on a required field is "Field is required and cannot be None"; `""` on a non-nullable field is "Field cannot be empty"; everything else passes |
| Fields.CheckChar | api.py:61-66 | a character field never raises anything else; it accepts exactly admissible values that are falsy or strings |
| Fields.CheckArguments | api.py:69-73 | the arguments field accepts exactly dictionaries, an empty one included |
| Fields.CheckEmail | api.py:76-81 | a truthy non-string crashes the regex; otherwise an admissible value passes iff it is falsy or has an `@` with at least one character before it, no newline before it, and a non-newline character after it |
| Regex.EmailMatch | api.py:80 | `re.match(".+@.+", s)` succeeds iff `s` has an `@` at index 1 or later, no newline before it, and a non-newline character right after it |
| Regex.EmailExamples | api.py:80 | `stupnikov@otus.ru` and `a@@` match; `@otus.ru` and `stupnikov@` do not |
| Regex.MatchFrom | api.py:80 | matching from index `i` succeeds iff some `@` after index `i` has no newline between `i` and it and a non-newline character after it |
| Fields.CheckPhone | api.py:84-95 | an admissible value passes iff it is falsy, or an 11-character string starting with `7`, or an integer in [70000000000, 80000000000); `True` fails on length, and other truthy types fail on type; a truthy string or int-like value whose `str` is not 11 characters gets the length message, and one of 11 characters not starting with `7` gets the leading-digit message |
| Decimal.ElevenCharsLeadingSeven | api.py:90-94 | `str(n)` has 11 characters and starts with `7` iff 70000000000 ≤ n < 80000000000 |
| Decimal.LeadingDigit | api.py:90-94 | `str(n)` has k+1 digits and leads with d iff d·10^k ≤ n < (d+1)·10^k |
| Decimal.ParseNatStr | api.py:90 | parsing `str(n)` back gives n |
| DateFormat.ParseDate | api.py:106 | whatever `%d.%m.%Y` accepts is a real calendar date |
| DateFormat.ParseDateSpells | api.py:106 | `strptime(s, "%d.%m.%Y")` returns d iff d is a valid date and s is day, `.`, month, `.`, four-digit year, where the day is two digits or, below ten, one digit or a space and a digit, and the month is two digits or, below ten, one digit |
| DateFormat.ParsedSpells | api.py:106 | every accepted string spells the date returned |
| DateFormat.SpellingParses | api.py:106 | every spelling of a valid date is accepted as that date |
| DateFormat.DayTokenSpells | api.py:106 | `%d` reads a token as n iff 1 ≤ n ≤ 31 and the token is one of the spellings of n |
| DateFormat.MonthTokenSpells | api.py:106 | `%m` reads a token as n iff 1 ≤ n ≤ 12 and the token is one of the spellings of n |
| DateFormat.YearTokenSpells | api.py:106 | `%Y` reads a token as y iff the token is y in exactly four digits |
| DateFormat.FormatRoundTrip | api.py:106 | every date in years 1–9999, written `DD.MM.YYYY`, parses back to itself |
| DateFormat.ParseUnpadded | api.py:106 | unpadded day and month (`1.2.2000`) are accepted |
| DateFormat.ParseSpacePadded | api.py:106 | a space-padded day (` 5.07.2017`) is accepted |
| DateFormat.ParseBadMonth | api.py:106 | month 13 is rejected |
| DateFormat.ParseLeapDay | api.py:106 | 29 February parses in 2000 but not in 2001 |
| Fields.CheckDate | api.py:101-108 | a truthy non-string crashes; an admissible string passes iff it is empty or parses as `%d.%m.%Y` |
| Calendar.DaysInMonth | api.py:106 | April, June, September and November have 30 days; February has 29 in a leap year and 28 otherwise; the other months have 31 |
| Calendar.YearLength | api.py:106 | the twelve months add up to 366 days in a leap year and 365 otherwise |
| Calendar.YearsBack | api.py:119 | `relativedelta(years=n)` keeps the month, moves the year back n, and clamps only 29 February to the 28th in a non-leap year |
| Fields.CheckBirthDay | api.py:111-120 | a truthy non-string crashes; an unparseable string gets the format message; an admissible value passes iff it is falsy, or parses to a date that is not too old while the 70-years-back date is in year 1 or later; a parsed date that is too old gets the birthday message, and when today's year is 70 or less every parsed date gets `year N is out of range` with N the year seventy years back |
| Fields.BirthDayCutoff | api.py:119 | a parsed birthday passes iff it is after the 70-years-back date, or on it at exactly midnight |
| Fields.FutureBirthDayAccepted | api.py:114-120 | there is no upper bound: a date after today passes |
| Fields.PhoneExamples | api.py:84-95 | `"79161234567"` and `79161234567` pass; `"89161234567"` fails on the leading digit; `"7916123456"` fails on length |
| Fields.CheckGender | api.py:123-128 | an admissible value passes iff it is falsy or one of 1, 2, `True` |
| Fields.CheckClientIds | api.py:131-141 | client ids pass iff they are a non-empty list of ints (bools included); the messages come in the order of `ClientIDsField.validate` |
| Fields.Validate | api.py:48-141 | across all kinds: presence errors come first; only email, date and birthday crash, and only on truthy non-strings; an admissible falsy value passes every kind except arguments and client ids |
| Requests.CollectFirst | api.py:149-159 | after the first n fields, the loop has aborted iff one of them crashed; otherwise each of them has its message or its value recorded, no other key is set, and `errors` is empty iff all n passed |
| Requests.Collect | api.py:149-159 | each field ends up with its message in `errors` or its value in the attributes; no other key appears; `errors` is empty iff every field passed; a crash aborts |
| Requests.Bind | api.py:143-159 | the constructor succeeds iff there is no `self` key and no validator crashes; it records every field's outcome, and it is valid iff every field passed |
| Requests.BindKeysDeclared | api.py:149-159 | every key in `errors` or in the bound attributes is a declared field name |
| Requests.BindReadsDeclared | api.py:149-159 | undeclared keys do not change the errors or the bound values |
| Requests.MethodRequestBinds | api.py:197-202 | the envelope constructor raises only on a `self` key |
| Requests.HasBoundPair | api.py:187-195 | the early-exit loop finds a pair iff some pair has both sides bound to non-`None` values |
| Requests.ValidateOnlineScore | api.py:178-195 | the online-score request is usable iff it has no errors and phone+email, first+last name, or gender+birthday are both non-`None` |
| Requests.ValidHoldsRaw | api.py:153-159 | a request without errors holds every declared field's raw value |
| Requests.OnlineScoreRule | api.py:178-195 | stated on the raw arguments: usable iff every field passes and some pair is present as non-`None` raw values |
| Requests.EmptyNamesUsable | api.py:171-195 | two empty-string names form a usable pair |
| Requests.FirstNameAloneUnusable | api.py:171-195 | a first name alone is error-free but unusable |
| Auth.AdminIsExactLogin | api.py:204-206 | a request is an admin one iff its login is exactly the string `"admin"` |
| Auth.UserAuth | api.py:209-214 | a user with a string account and login authenticates iff the token equals the digest of account, login and `"Otus"` |
| Auth.UserIgnoresClock | api.py:212-214 | a user's authentication does not depend on the time |
| Auth.AdminIgnoresAccount | api.py:210-211 | two admin requests with the same token authenticate alike, whatever their accounts |
| Auth.AuthRaises | api.py:209-214 | `check_auth` raises iff the request is not an admin one and its account or login is not a string |
| Auth.AdminAuth | api.py:204-214 | for admin, only the current hour's digest authenticates, whatever the account |
| Auth.MissingAccountRaises | api.py:213 | a non-admin request without an account raises instead of answering 403 |
| Dispatch.Envelope | api.py:218-219 | the envelope binds iff the body is a dictionary without a `self` key |
| Dispatch.IdKeyInjective | api.py:253 | `str(cid)` gives different ids different keys, so `1` and `True` fill separate keys |
| Dispatch.LastIndex | api.py:251-253 | the last id that renders as a key, or -1 when none does |
| Dispatch.CollectPrefix | api.py:250-253 | after the first n rounds the loop has raised iff one of the first n lookups raised; otherwise each key rendered so far holds the interests of its last id among those n |
| Dispatch.CollectInterests | api.py:250-253 | the loop raises iff some lookup raises; otherwise the result has a key for each rendered id, holding the last such id's interests |
| Dispatch.OnlineScore | api.py:228-242 | unbindable arguments raise; unusable ones give 422 with the errors and the context unchanged; usable ones give 200 with `{"score": s}` and a context changed only at `has` (the argument keys) and `score`, with s 42 for admin and 0.0 when scoring raises |
| Dispatch.ClientsInterests | api.py:244-255 | with valid arguments, the ids are a non-empty list; it raises iff some lookup raises; otherwise the context changes only at `nclients`, which is the list length (repeats included), and the result maps each rendered id to its interests |
| Dispatch.Handle | api.py:217-258 | a bad envelope gives 422 with its errors; a raising `check_auth` raises; 403 iff the digest mismatches; after authentication `has` is `[]` and `online_score` and `clients_interests` run their branches on the arguments, while any other method gives 422; the codes are only 200, 403 and 422; admin scoring answers 42 |
| Dispatch.PhoneAloneFailsPairRule | api.py:228-232 | a valid phone with no partner gives 422 with an empty error mapping |
| Dispatch.RepeatedIdCountedTwice | api.py:250-254 | `[1, 1]` gives `nclients` 2 and a single key `"1"` |
| Dispatch.Respond | api.py:283-298 | handler exceptions become 500; every response carries its code; an error code wraps the body as `error`, or the status text of `ERRORS` when the body is falsy; every code outside `ERRORS` wraps the body as `response` |

## Left out

- Reading the request from the socket, JSON decoding failures (400), routing on the path (404), logging, `get_request_id`, and the `__main__` server: these are I/O. `Dispatch.Respond` models only how a handler outcome becomes the response object.
- The scoring module (`get_score`, `get_interests`) is not part of this model. Its calls are uninterpreted parameters. A `TypeError` from `get_score(store, **args)` on unexpected keyword arguments counts as the call raising, which the handler catches as 0.0.
- SHA-512 is an uninterpreted function from the hashed text to its digest. UTF-8 encoding and the hex rendering are part of that function.
- Strings are sequences of Unicode scalar values. A JSON `\ud800` escape decodes in Python to a lone surrogate, which `.encode('utf-8')` at api.py:213 rejects, giving a 500. No Dafny `char` is a surrogate, so those inputs are outside the model.
- The clock: `datetime.now()` and `datetime.today()` are one `Clock` value. The model does not tie the `%Y%m%d%H` stamp to the date it carries.
- Schema discovery through `__class__.__dict__` is replaced by explicit field lists in class declaration order.
- DateFormat.ParseDate: `strptime`'s `\d` also matches non-ASCII Unicode digits. The model accepts ASCII digits only.
- Floating-point values are real numbers. NaN and infinities are not modelled. Only their truthiness and type matter to the validators.
- Dispatch.CollectInterests: the model cannot state that the store is called once per id, in order, because pure functions have no call log. It states the resulting mapping and when the loop raises.
- Idempotence of binding and dispatch holds because every member is a pure function of its inputs. It gets no separate lemma.
