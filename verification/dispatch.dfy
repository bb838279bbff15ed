/** `method_handler`: bind the envelope, authenticate, then run the method
    the envelope names. The context dictionary it writes to is threaded
    through and returned; SHA-512, the clock and the two store calls are
    parameters. */
module Dispatch {
  import opened Optional
  import opened Json
  import opened Decimal
  import opened Calendar
  import opened Fields
  import opened Requests
  import opened Auth

  const OK := 200
  const BAD_REQUEST := 400
  const FORBIDDEN := 403
  const NOT_FOUND := 404
  const INVALID_REQUEST := 422
  const INTERNAL_ERROR := 500

  /** What `method_handler` does: return a body with a status code, or
      raise. Either way `ctx` is the context as the handler left it. */
  datatype Reply = Reply(body: JValue, code: int, ctx: Dict) | Raised(ctx: Dict)

  /** `{"error": e}`. */
  function ErrorBody(e: JValue): JValue {
    JObj([("error", e)])
  }

  /** A list of client ids that passed `ClientIDsField`. */
  type Ids = ids: seq<JValue> | forall i :: 0 <= i < |ids| ==> IsInt(ids[i])

  /** `str(cid)`: `str(True)` is `"True"`. */
  function IdKey(v: JValue): (k: string)
    requires IsInt(v)
    ensures v.JInt? ==> k == IntStr(v.i)
  {
    if v.JBool? then (if v.b then "True" else "False") else IntStr(v.i)
  }

  lemma IntStrInjective(a: int, b: int)
    ensures IntStr(a) == IntStr(b) ==> a == b
  {
    if IntStr(a) == IntStr(b) {
      if a < 0 {
        assert IntStr(a)[1..] == NatStr(-a) && IntStr(b)[1..] == NatStr(-b);
        ParseNatStr(-a);
        ParseNatStr(-b);
      } else {
        ParseNatStr(a);
        ParseNatStr(b);
      }
    }
  }

  /** `str(i)` of an int starts with a minus sign or a digit, never with the
      `T` or `F` of `str(True)` or `str(False)`. */
  lemma IntStrHead(n: int)
    ensures IntStr(n)[0] == '-' || IsDigit(IntStr(n)[0])
  {
  }

  /** Distinct ids give distinct keys: `str` tells `True` from `1`, so the
      result has one key per distinct id. */
  lemma IdKeyInjective(v: JValue, w: JValue)
    requires IsInt(v) && IsInt(w)
    ensures IdKey(v) == IdKey(w) <==> v == w
  {
    if v.JInt? && w.JInt? {
      IntStrInjective(v.i, w.i);
    } else if v.JInt? {
      IntStrHead(v.i);
    } else if w.JInt? {
      IntStrHead(w.i);
    }
  }

  /** The index of the last of the first `n` ids rendering to `k`, or -1
      when none does. */
  function LastBefore(ids: Ids, k: string, n: nat): (j: int)
    requires n <= |ids|
    ensures -1 <= j < n
    ensures j >= 0 ==> IdKey(ids[j]) == k && forall l :: j < l < n ==> IdKey(ids[l]) != k
    ensures j == -1 ==> forall l :: 0 <= l < n ==> IdKey(ids[l]) != k
  {
    if n == 0 then -1
    else if IdKey(ids[n - 1]) == k then n - 1
    else LastBefore(ids, k, n - 1)
  }

  /** The index of the last id rendering to `k`, or -1 when none does. */
  function LastIndex(ids: Ids, k: string): (j: int)
    ensures -1 <= j < |ids|
    ensures j >= 0 ==> IdKey(ids[j]) == k && forall l :: j < l < |ids| ==> IdKey(ids[l]) != k
    ensures j == -1 ==> forall l :: 0 <= l < |ids| ==> IdKey(ids[l]) != k
  {
    LastBefore(ids, k, |ids|)
  }

  /** The first `n` rounds of the loop `result[str(cid)] = get_interests(store, cid)`. */
  function CollectPrefix(ids: Ids, interests: JValue -> Option<JValue>, n: nat): (r: Option<Dict>)
    requires n <= |ids|
    ensures r.Some? <==> forall i :: 0 <= i < n ==> interests(ids[i]).Some?
    ensures r.Some? ==> forall k :: Has(r.value, k) <==> LastBefore(ids, k, n) >= 0
    ensures r.Some? ==> forall k :: LastBefore(ids, k, n) >= 0 ==> Get(r.value, k) == interests(ids[LastBefore(ids, k, n)]).value
  {
    if n == 0 then Some([])
    else
      match CollectPrefix(ids, interests, n - 1)
      case None => None
      case Some(result) =>
        match interests(ids[n - 1])
        case None => None
        case Some(list) => Some(Put(result, IdKey(ids[n - 1]), list))
  }

  /** The loop `result[str(cid)] = get_interests(store, cid)` over the ids
      in order; `None` when a lookup raises, which nothing catches. Each key
      holds the interests of the last id rendering to it. */
  function CollectInterests(ids: Ids, interests: JValue -> Option<JValue>): (r: Option<Dict>)
    ensures r.Some? <==> forall i :: 0 <= i < |ids| ==> interests(ids[i]).Some?
    ensures r.Some? ==> forall k :: Has(r.value, k) <==> LastIndex(ids, k) >= 0
    ensures r.Some? ==> forall k :: LastIndex(ids, k) >= 0 ==> Get(r.value, k) == interests(ids[LastIndex(ids, k)]).value
  {
    CollectPrefix(ids, interests, |ids|)
  }

  /** The ids of a clients_interests request that passed validation. */
  function ValidIds(v: JValue): (ids: Ids)
    ensures v.JList? && (forall i :: 0 <= i < |v.items| ==> IsInt(v.items[i])) ==> ids == v.items
  {
    if v.JList? && forall i :: 0 <= i < |v.items| ==> IsInt(v.items[i]) then v.items else []
  }

  /** The `online_score` branch, entered with `ctx["has"]` already set. */
  function OnlineScore(admin: bool, args: Dict, ctx: Dict, now: Clock, score: Dict -> Option<JValue>): (r: Reply)
    ensures r.Raised? <==> Bind(OnlineScoreFields, args, now).None?
    ensures r.Raised? ==> r.ctx == ctx
    ensures var b := Bind(OnlineScoreFields, args, now);
            b.Some? && !ValidateOnlineScore(b.value) ==> r == Reply(ErrorBody(JObj(b.value.errors)), INVALID_REQUEST, ctx)
    ensures var b := Bind(OnlineScoreFields, args, now);
            var s := if admin then JInt(42) else if score(args).Some? then score(args).value else JFloat(0.0);
            b.Some? && ValidateOnlineScore(b.value) ==>
              r == Reply(JObj([("score", s)]), OK, Put(Put(ctx, "has", KeyList(args)), "score", s))
    ensures r.Reply? ==> r.code == OK || r.code == INVALID_REQUEST
    ensures r.Reply? && r.code == OK ==> Get(r.ctx, "has") == KeyList(args)
    ensures r.Reply? && r.code == OK ==> r.body == JObj([("score", Get(r.ctx, "score"))])
    ensures r.Reply? && r.code == OK && admin ==> Get(r.ctx, "score") == JInt(42)
    ensures r.Reply? && r.code == OK && !admin ==>
              Get(r.ctx, "score") == (if score(args).Some? then score(args).value else JFloat(0.0))
  {
    match Bind(OnlineScoreFields, args, now)
    case None => Raised(ctx)
    case Some(req) =>
      if !ValidateOnlineScore(req) then Reply(ErrorBody(JObj(req.errors)), INVALID_REQUEST, ctx)
      else
        var ctx1 := Put(ctx, "has", KeyList(args));
        var computed := match score(args) case Some(s) => s case None => JFloat(0.0);
        var s := if admin then JInt(42) else computed;
        Reply(JObj([("score", s)]), OK, Put(ctx1, "score", s))
  }

  /** The `clients_interests` branch, entered with `ctx["has"]` already set. */
  function ClientsInterests(args: Dict, ctx: Dict, now: Clock, interests: JValue -> Option<JValue>): (r: Reply)
    ensures Bind(ClientsInterestsFields, args, now).None? ==> r == Raised(ctx)
    ensures var b := Bind(ClientsInterestsFields, args, now);
            b.Some? && !IsValid(b.value) ==> r == Reply(ErrorBody(JObj(b.value.errors)), INVALID_REQUEST, ctx)
    ensures var b := Bind(ClientsInterestsFields, args, now);
            b.Some? && IsValid(b.value) ==>
              var v := Get(args, "client_ids");
              && v.JList? && v.items != [] && ValidIds(v) == v.items
              && (r.Raised? <==> exists i :: 0 <= i < |v.items| && interests(v.items[i]).None?)
              && (r.Raised? ==> r.ctx == ctx)
              && (r.Reply? ==> r.code == OK && r.body.JObj? && r.ctx == Put(ctx, "nclients", JInt(|v.items|)))
              && (r.Reply? ==> forall k :: Has(r.body.entries, k) <==> LastIndex(ValidIds(v), k) >= 0)
              && (r.Reply? ==> forall k :: LastIndex(ValidIds(v), k) >= 0 ==>
                                 Get(r.body.entries, k) == interests(v.items[LastIndex(ValidIds(v), k)]).value)
  {
    match Bind(ClientsInterestsFields, args, now)
    case None => Raised(ctx)
    case Some(req) =>
      if !IsValid(req) then Reply(ErrorBody(JObj(req.errors)), INVALID_REQUEST, ctx)
      else
        ValidHoldsRaw(ClientsInterestsFields, args, now, 0);
        var v := Get(args, "client_ids");
        assert ClientsInterestsFields[0].0 == "client_ids";
        assert Outcomes(ClientsInterestsFields, args, now)[0] == Ok;
        assert v.JList? && v.items != [] && ValidIds(v) == v.items;
        var ids := ValidIds(Get(req.values, "client_ids"));
        assert ids == v.items;
        match CollectInterests(ids, interests)
        case None => Raised(ctx)
        case Some(result) => Reply(JObj(result), OK, Put(ctx, "nclients", JInt(|ids|)))
  }

  /** `MethodRequest(**body)`; `None` where it raises (a body that is not a
      dictionary, or one with a `self` key). */
  function Envelope(body: JValue, now: Clock): (r: Option<Request>)
    ensures r.Some? <==> body.JObj? && !Has(body.entries, "self")
  {
    if body.JObj? then
      MethodRequestBinds(body.entries, now);
      Bind(MethodRequestFields, body.entries, now)
    else None
  }

  /** `arguments` of a valid envelope, which `ArgumentsField` guarantees is
      a dictionary. */
  function Arguments(env: Request): Dict {
    var a := Get(env.values, "arguments");
    if a.JObj? then a.entries else []
  }

  /** `method_handler(request, ctx, store)` on the decoded body. */
  function Handle(body: JValue, ctx: Dict, now: Clock, hash: string -> string,
                  score: Dict -> Option<JValue>, interests: JValue -> Option<JValue>): (r: Reply)
    ensures Envelope(body, now).None? ==> r == Raised(ctx)
    ensures var e := Envelope(body, now);
            e.Some? && !IsValid(e.value) ==> r == Reply(ErrorBody(JObj(e.value.errors)), INVALID_REQUEST, ctx)
    ensures var e := Envelope(body, now);
            e.Some? && IsValid(e.value) && CheckAuth(e.value, now, hash).None? ==> r == Raised(ctx)
    ensures var e := Envelope(body, now);
            e.Some? && IsValid(e.value) && CheckAuth(e.value, now, hash) == Some(true)
            && Get(e.value.values, "method") == JStr("online_score")
            ==> r == OnlineScore(IsAdmin(e.value), Arguments(e.value), Put(ctx, "has", JList([])), now, score)
    ensures var e := Envelope(body, now);
            e.Some? && IsValid(e.value) && CheckAuth(e.value, now, hash) == Some(true)
            && Get(e.value.values, "method") == JStr("clients_interests")
            ==> r == ClientsInterests(Arguments(e.value), Put(ctx, "has", JList([])), now, interests)
    ensures r.Reply? && r.code == FORBIDDEN <==>
              var e := Envelope(body, now);
              e.Some? && IsValid(e.value) && CheckAuth(e.value, now, hash) == Some(false)
    ensures r.Reply? && r.code == FORBIDDEN ==> r.body == ErrorBody(JStr("Forbidden")) && r.ctx == ctx
    ensures r.Reply? ==> r.code in {OK, FORBIDDEN, INVALID_REQUEST}
    ensures r.Reply? && r.code == OK ==>
              var e := Envelope(body, now);
              e.Some? && IsValid(e.value) && CheckAuth(e.value, now, hash) == Some(true) && Has(r.ctx, "has")
    ensures var e := Envelope(body, now);
            e.Some? && IsValid(e.value) && CheckAuth(e.value, now, hash) == Some(true)
            && Get(e.value.values, "method") !in {JStr("online_score"), JStr("clients_interests")}
            ==> r == Reply(ErrorBody(JStr("Unknown method")), INVALID_REQUEST, Put(ctx, "has", JList([])))
    ensures var e := Envelope(body, now);
            r.Reply? && r.code == OK && e.Some? && IsAdmin(e.value)
            && Get(e.value.values, "method") == JStr("online_score")
            ==> r.body == JObj([("score", JInt(42))])
  {
    match Envelope(body, now)
    case None => Raised(ctx)
    case Some(env) =>
      if !IsValid(env) then Reply(ErrorBody(JObj(env.errors)), INVALID_REQUEST, ctx)
      else match CheckAuth(env, now, hash)
        case None => Raised(ctx)
        case Some(false) => Reply(ErrorBody(JStr("Forbidden")), FORBIDDEN, ctx)
        case Some(true) =>
          var ctx1 := Put(ctx, "has", JList([]));
          var name := Get(env.values, "method");
          if name == JStr("online_score") then OnlineScore(IsAdmin(env), Arguments(env), ctx1, now, score)
          else if name == JStr("clients_interests") then ClientsInterests(Arguments(env), ctx1, now, interests)
          else Reply(ErrorBody(JStr("Unknown method")), INVALID_REQUEST, ctx1)
  }

  /** The status texts of `ERRORS`. */
  function ErrorText(code: int): Option<string> {
    if code == BAD_REQUEST then Some("Bad Request")
    else if code == FORBIDDEN then Some("Forbidden")
    else if code == NOT_FOUND then Some("Not Found")
    else if code == INVALID_REQUEST then Some("Invalid Request")
    else if code == INTERNAL_ERROR then Some("Internal Server Error")
    else None
  }

  /** The JSON object the HTTP handler writes for a handler outcome: an
      exception becomes 500 with an empty response; a code outside `ERRORS`
      wraps the body as `response`; an error code wraps it as `error`,
      falling back to the status text when the body is falsy. */
  function Respond(r: Reply): (out: JValue)
    ensures r.Raised? ==> out == JObj([("error", JStr("Internal Server Error")), ("code", JInt(500))])
    ensures r.Reply? && ErrorText(r.code).None? ==> out == JObj([("response", r.body), ("code", JInt(r.code))])
    ensures r.Reply? && ErrorText(r.code).Some? && Truthy(r.body) ==> out == JObj([("error", r.body), ("code", JInt(r.code))])
    ensures r.Reply? && ErrorText(r.code).Some? && !Truthy(r.body) ==>
              out == JObj([("error", JStr(ErrorText(r.code).value)), ("code", JInt(r.code))])
    ensures out.JObj? && Get(out.entries, "code") == JInt(if r.Raised? then INTERNAL_ERROR else r.code)
    ensures out.JObj? && (Has(out.entries, "error") <==> r.Raised? || ErrorText(r.code).Some?)
    ensures out.JObj? && Has(out.entries, "error") ==> Truthy(Get(out.entries, "error"))
  {
    var (body, code) := if r.Raised? then (JObj([]), INTERNAL_ERROR) else (r.body, r.code);
    match ErrorText(code)
    case None => JObj([("response", body), ("code", JInt(code))])
    case Some(text) =>
      var entries := [("error", if Truthy(body) then body else JStr(text)), ("code", JInt(code))];
      assert entries[0].0 == "error";
      JObj(entries)
  }

  /** When every field passes but no pair is present, the 422 body carries
      an empty error mapping. */
  lemma PhoneAloneFailsPairRule(admin: bool, ctx: Dict, now: Clock, score: Dict -> Option<JValue>)
    ensures OnlineScore(admin, [("phone", JStr("79175002040"))], ctx, now, score)
            == Reply(ErrorBody(JObj([])), INVALID_REQUEST, ctx)
  {
    var args: Dict := [("phone", JStr("79175002040"))];
    assert !Has(args, "self");
    assert Get(args, "phone") == JStr("79175002040");
    assert Get(args, "first_name") == JNull && Get(args, "last_name") == JNull && Get(args, "email") == JNull;
    assert Get(args, "birthday") == JNull && Get(args, "gender") == JNull;
    var outs := Outcomes(OnlineScoreFields, args, now);
    assert outs[3] == CheckPhone(Field(PhoneKind, false, true), JStr("79175002040"));
    assert forall i :: 0 <= i < 6 ==> outs[i] == Ok;
    OnlineScoreRule(args, now);
  }

  /** A repeated id is looked up twice and counted twice, but fills one key. */
  lemma RepeatedIdCountedTwice(ctx: Dict, now: Clock, interests: JValue -> Option<JValue>)
    requires interests(JInt(1)).Some?
    ensures var r := ClientsInterests([("client_ids", JList([JInt(1), JInt(1)]))], ctx, now, interests);
            && r.Reply? && r.code == OK
            && Get(r.ctx, "nclients") == JInt(2)
            && (forall k :: Has(r.body.entries, k) <==> k == "1")
            && Get(r.body.entries, "1") == interests(JInt(1)).value
  {
    var args: Dict := [("client_ids", JList([JInt(1), JInt(1)]))];
    assert !Has(args, "self");
    assert Get(args, "client_ids") == JList([JInt(1), JInt(1)]);
    assert Get(args, "date") == JNull;
    var outs := Outcomes(ClientsInterestsFields, args, now);
    assert outs[0] == Ok && outs[1] == Ok;
    var ids: Ids := [JInt(1), JInt(1)];
    assert IdKey(JInt(1)) == "1";
    assert forall k :: LastIndex(ids, k) >= 0 <==> k == "1";
    assert LastIndex(ids, "1") == 1;
  }
}
