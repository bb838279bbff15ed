/** `BaseRequest` and the three request schemas. The class-attribute
    introspection of `BaseRequest` becomes an explicit list of (name, field)
    pairs in declaration order. */
module Requests {
  import opened Optional
  import opened Json
  import opened Calendar
  import opened Fields

  type FieldList = seq<(string, Field)>

  predicate DistinctNames(fields: FieldList) {
    forall i, j :: 0 <= i < j < |fields| ==> fields[i].0 != fields[j].0
  }

  /** A schema declares each name once, as a class body does. */
  type Schema = fields: FieldList | DistinctNames(fields) witness []

  /** `ClientsInterestsRequest`. */
  const ClientsInterestsFields: Schema := [
    ("client_ids", Field(ClientIdsKind, true, false)),
    ("date", Field(DateKind, false, true))
  ]

  /** `OnlineScoreRequest`. */
  const OnlineScoreFields: Schema := [
    ("first_name", Field(CharKind, false, true)),
    ("last_name", Field(CharKind, false, true)),
    ("email", Field(EmailKind, false, true)),
    ("phone", Field(PhoneKind, false, true)),
    ("birthday", Field(BirthDayKind, false, true)),
    ("gender", Field(GenderKind, false, true))
  ]

  /** `MethodRequest`. */
  const MethodRequestFields: Schema := [
    ("account", Field(CharKind, false, true)),
    ("login", Field(CharKind, true, true)),
    ("token", Field(CharKind, true, true)),
    ("arguments", Field(ArgumentsKind, true, true)),
    ("method", Field(CharKind, true, false))
  ]

  /** A constructed request: `errors` maps each failing field to its
      message, `values` maps each passing field to its raw value (`None`
      when the key is absent). The constructor's `raw_data` is its own
      argument, so it is not repeated here. */
  datatype Request = Request(errors: Dict, values: Dict)

  /** What the constructor leaves for one declared field, given the
      outcome `o` of its validator on the raw value `v`: the message when it
      fails, the value when it passes, never both. */
  predicate Recorded(name: string, o: Outcome, v: JValue, errors: Dict, values: Dict) {
    && (Has(errors, name) <==> o.Err?)
    && (Has(values, name) <==> o == Ok)
    && (o.Err? ==> Get(errors, name) == JStr(o.msg))
    && (o == Ok ==> Get(values, name) == v)
  }

  predicate DistinctSeq(names: seq<string>) {
    forall i, j :: 0 <= i < j < |names| ==> names[i] != names[j]
  }

  /** The first `n` rounds of the loop of `BaseRequest.__init__`, once every
      field's validator has run: field `i` is called `names[i]`, its raw
      value is `vals[i]` and its validator's outcome is `outs[i]`. An
      exception other than `ValueError` ends the loop. */
  function CollectFirst(names: seq<string>, outs: seq<Outcome>, vals: seq<JValue>, n: nat): (r: Option<(Dict, Dict)>)
    requires |outs| == |names| == |vals| && DistinctSeq(names) && n <= |names|
    ensures r.Some? <==> forall i :: 0 <= i < n ==> outs[i] != Crash
    ensures r.Some? ==> forall i :: 0 <= i < n ==> Recorded(names[i], outs[i], vals[i], r.value.0, r.value.1)
    ensures r.Some? ==> forall k :: Has(r.value.0, k) || Has(r.value.1, k) ==> exists i :: 0 <= i < n && names[i] == k
    ensures r.Some? ==> (r.value.0 == [] <==> forall i :: 0 <= i < n ==> outs[i] == Ok)
  {
    if n == 0 then Some(([], []))
    else
      match CollectFirst(names, outs, vals, n - 1)
      case None => None
      case Some((errors, values)) =>
        match outs[n - 1]
        case Crash => None
        case Err(msg) => Some((Put(errors, names[n - 1], JStr(msg)), values))
        case Ok => Some((errors, Put(values, names[n - 1], vals[n - 1])))
  }

  /** The whole loop of `BaseRequest.__init__`: the errors and the bound
      attributes, or `None` when a validator raised something other than
      `ValueError`. */
  function Collect(names: seq<string>, outs: seq<Outcome>, vals: seq<JValue>): (r: Option<(Dict, Dict)>)
    requires |outs| == |names| == |vals| && DistinctSeq(names)
    ensures r.Some? <==> forall i :: 0 <= i < |outs| ==> outs[i] != Crash
    ensures r.Some? ==> forall i :: 0 <= i < |names| ==> Recorded(names[i], outs[i], vals[i], r.value.0, r.value.1)
    ensures r.Some? ==> forall k :: Has(r.value.0, k) || Has(r.value.1, k) ==> k in names
    ensures r.Some? ==> (r.value.0 == [] <==> forall i :: 0 <= i < |outs| ==> outs[i] == Ok)
  {
    CollectFirst(names, outs, vals, |names|)
  }

  function Names(fields: FieldList): (names: seq<string>)
    ensures |names| == |fields| && forall i :: 0 <= i < |fields| ==> names[i] == fields[i].0
  {
    seq(|fields|, i requires 0 <= i < |fields| => fields[i].0)
  }

  function RawValues(fields: FieldList, raw: Dict): (vals: seq<JValue>)
    ensures |vals| == |fields| && forall i :: 0 <= i < |fields| ==> vals[i] == Get(raw, fields[i].0)
  {
    seq(|fields|, i requires 0 <= i < |fields| => Get(raw, fields[i].0))
  }

  /** Every field's validator run on `raw.get(name)`. */
  function Outcomes(fields: FieldList, raw: Dict, now: Clock): (outs: seq<Outcome>)
    ensures |outs| == |fields|
    ensures forall i :: 0 <= i < |fields| ==> outs[i] == Validate(fields[i].1, Get(raw, fields[i].0), now)
  {
    seq(|fields|, i requires 0 <= i < |fields| => Validate(fields[i].1, Get(raw, fields[i].0), now))
  }

  /** `Schema(**raw)`: `None` when the constructor raises. A key `self`
      collides with the constructor's own parameter and raises `TypeError`
      before any field is looked at. */
  function Bind(fields: Schema, raw: Dict, now: Clock): (r: Option<Request>)
    ensures r.Some? <==> !Has(raw, "self") && forall i :: 0 <= i < |fields| ==> Outcomes(fields, raw, now)[i] != Crash
    ensures r.Some? ==> forall i :: 0 <= i < |fields| ==>
              Recorded(fields[i].0, Outcomes(fields, raw, now)[i], Get(raw, fields[i].0), r.value.errors, r.value.values)
    ensures r.Some? ==> (IsValid(r.value) <==> forall i :: 0 <= i < |fields| ==> Outcomes(fields, raw, now)[i] == Ok)
  {
    if Has(raw, "self") then None
    else match Collect(Names(fields), Outcomes(fields, raw, now), RawValues(fields, raw))
      case None => None
      case Some((errors, values)) => Some(Request(errors, values))
  }

  /** The constructor sets no key but the declared field names. */
  lemma BindKeysDeclared(fields: Schema, raw: Dict, now: Clock, k: string)
    ensures var b := Bind(fields, raw, now);
            b.Some? && (Has(b.value.errors, k) || Has(b.value.values, k)) ==> exists i :: 0 <= i < |fields| && fields[i].0 == k
  {
    var b := Bind(fields, raw, now);
    if b.Some? && (Has(b.value.errors, k) || Has(b.value.values, k)) {
      var c := Collect(Names(fields), Outcomes(fields, raw, now), RawValues(fields, raw));
      assert k in Names(fields);
    }
  }

  /** `BaseRequest.is_valid`. */
  predicate IsValid(req: Request) {
    req.errors == []
  }

  /** Keys that are not declared fields change nothing but `raw`: binding
      depends only on the values of the declared names. */
  lemma BindReadsDeclared(fields: Schema, raw1: Dict, raw2: Dict, now: Clock)
    requires Has(raw1, "self") == Has(raw2, "self")
    requires forall i :: 0 <= i < |fields| ==> Get(raw1, fields[i].0) == Get(raw2, fields[i].0)
    ensures Bind(fields, raw1, now).Some? == Bind(fields, raw2, now).Some?
    ensures Bind(fields, raw1, now).Some? ==>
              Bind(fields, raw1, now).value.errors == Bind(fields, raw2, now).value.errors
              && Bind(fields, raw1, now).value.values == Bind(fields, raw2, now).value.values
  {
    assert Outcomes(fields, raw1, now) == Outcomes(fields, raw2, now);
    assert RawValues(fields, raw1) == RawValues(fields, raw2);
  }

  /** Character, argument and client-id fields never raise anything but
      `ValueError`, so `MethodRequest(**raw)` raises only on a `self` key. */
  lemma MethodRequestBinds(raw: Dict, now: Clock)
    ensures Bind(MethodRequestFields, raw, now).Some? <==> !Has(raw, "self")
  {
  }

  /** The pairs of `OnlineScoreRequest.validate`, in the order it tries them. */
  const ValidPairs: seq<(string, string)> := [("phone", "email"), ("first_name", "last_name"), ("gender", "birthday")]

  predicate PairBound(values: Dict, left: string, right: string) {
    Get(values, left) != JNull && Get(values, right) != JNull
  }

  /** The loop over the pairs, stopping at the first one bound on both sides. */
  function HasBoundPair(pairs: seq<(string, string)>, values: Dict): (b: bool)
    ensures b <==> exists i :: 0 <= i < |pairs| && PairBound(values, pairs[i].0, pairs[i].1)
  {
    if |pairs| == 0 then false
    else if PairBound(values, pairs[0].0, pairs[0].1) then true
    else
      assert forall i :: 1 <= i < |pairs| ==> pairs[1..][i - 1] == pairs[i];
      HasBoundPair(pairs[1..], values)
  }

  /** `OnlineScoreRequest.validate`. */
  function ValidateOnlineScore(req: Request): (ok: bool)
    ensures ok <==> IsValid(req)
                    && (PairBound(req.values, "phone", "email")
                        || PairBound(req.values, "first_name", "last_name")
                        || PairBound(req.values, "gender", "birthday"))
  {
    if !IsValid(req) then false
    else
      assert ValidPairs[0] == ("phone", "email");
      assert ValidPairs[1] == ("first_name", "last_name");
      assert ValidPairs[2] == ("gender", "birthday");
      HasBoundPair(ValidPairs, req.values)
  }

  /** A request without errors holds every declared field's raw value. */
  lemma ValidHoldsRaw(fields: Schema, raw: Dict, now: Clock, k: nat)
    requires k < |fields|
    requires Bind(fields, raw, now).Some? && IsValid(Bind(fields, raw, now).value)
    ensures Get(Bind(fields, raw, now).value.values, fields[k].0) == Get(raw, fields[k].0)
  {
    var req := Bind(fields, raw, now).value;
    assert Recorded(fields[k].0, Outcomes(fields, raw, now)[k], Get(raw, fields[k].0), req.errors, req.values);
  }

  /** The online-score arguments are usable exactly when every field passes
      and some pair has both raw values other than `None`. An empty string,
      `0` or `[]` counts as present. */
  lemma OnlineScoreRule(raw: Dict, now: Clock)
    requires Bind(OnlineScoreFields, raw, now).Some?
    ensures ValidateOnlineScore(Bind(OnlineScoreFields, raw, now).value)
            <==> (forall i :: 0 <= i < |OnlineScoreFields| ==> Outcomes(OnlineScoreFields, raw, now)[i] == Ok)
                 && (PairBound(raw, "phone", "email")
                     || PairBound(raw, "first_name", "last_name")
                     || PairBound(raw, "gender", "birthday"))
  {
    var req := Bind(OnlineScoreFields, raw, now).value;
    if IsValid(req) {
      var fs := OnlineScoreFields;
      assert fs[0].0 == "first_name" && fs[1].0 == "last_name" && fs[2].0 == "email";
      assert fs[3].0 == "phone" && fs[4].0 == "birthday" && fs[5].0 == "gender";
      ValidHoldsRaw(fs, raw, now, 0);
      ValidHoldsRaw(fs, raw, now, 1);
      ValidHoldsRaw(fs, raw, now, 2);
      ValidHoldsRaw(fs, raw, now, 3);
      ValidHoldsRaw(fs, raw, now, 4);
      ValidHoldsRaw(fs, raw, now, 5);
      assert PairBound(req.values, "phone", "email") == PairBound(raw, "phone", "email");
      assert PairBound(req.values, "first_name", "last_name") == PairBound(raw, "first_name", "last_name");
      assert PairBound(req.values, "gender", "birthday") == PairBound(raw, "gender", "birthday");
    } else {
      assert !ValidateOnlineScore(req);
    }
  }


  /** A first and a last name, even both empty, make a usable request. */
  lemma EmptyNamesUsable(now: Clock)
    ensures var b := Bind(OnlineScoreFields, [("first_name", JStr("")), ("last_name", JStr(""))], now);
            b.Some? && ValidateOnlineScore(b.value)
  {
    var raw: Dict := [("first_name", JStr("")), ("last_name", JStr(""))];
    assert !Has(raw, "self");
    assert Get(raw, "first_name") == JStr("") && Get(raw, "last_name") == JStr("");
    assert Get(raw, "email") == JNull && Get(raw, "phone") == JNull;
    assert Get(raw, "birthday") == JNull && Get(raw, "gender") == JNull;
    var outs := Outcomes(OnlineScoreFields, raw, now);
    assert forall i :: 0 <= i < 6 ==> outs[i] == Ok;
    OnlineScoreRule(raw, now);
  }

  /** A first name alone satisfies no pair. */
  lemma FirstNameAloneUnusable(now: Clock)
    ensures var b := Bind(OnlineScoreFields, [("first_name", JStr("a"))], now);
            b.Some? && IsValid(b.value) && !ValidateOnlineScore(b.value)
  {
    var raw: Dict := [("first_name", JStr("a"))];
    assert !Has(raw, "self");
    assert Get(raw, "first_name") == JStr("a") && Get(raw, "last_name") == JNull;
    assert Get(raw, "email") == JNull && Get(raw, "phone") == JNull;
    assert Get(raw, "birthday") == JNull && Get(raw, "gender") == JNull;
    var outs := Outcomes(OnlineScoreFields, raw, now);
    assert forall i :: 0 <= i < 6 ==> outs[i] == Ok;
    OnlineScoreRule(raw, now);
  }
}
