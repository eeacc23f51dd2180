/**
  The `/public/onboard` POST handler (server/app/routes/api/v1/public/onboard.js): a ladder of
  guarded early returns over the request body and two database lookups, ending in an invite code.
  The lookups are inputs: the first value of each query's result, `None` when it has no row.
 */
module Onboard {
  import opened Js

  /** What the handler sends: an error response built by `_400`/`_403`, or the JSON `{inviteCode}`. */
  datatype Response = Failure(status: nat, msg: string) | Invite(inviteCode: string)

  const MissingFormId := "Missing parameter to 'formId'."
  const InvalidCoordinates := "Invalid value to parameters 'longitude' or 'latitude'."
  const RejectMsg := "Sorry, no availability in your area right now."
  const InvalidFormId := "Invalid formId"

  /** The global `isNaN(v)`, that is `Number.isNaN(Number(v))`. `undefined` converts to NaN; `null`,
      booleans and (integer) numbers convert to numbers; a plain object converts to NaN; strings and
      arrays convert through their string. */
  predicate IsNaN(v: Value, rt: Runtime) {
    match v
    case Undefined => true
    case Null => false
    case Bool(_) => false
    case Num(_) => false
    case Obj(_) => true
    case _ => !rt.numeric(ToStr(v))
  }

  /** `ref.data[0]` is truthy. */
  predicate Found(lookup: Option<Value>) {
    lookup.Some? && Truthy(lookup.value)
  }

  /** Both coordinates convert to numbers. */
  predicate CoordinatesValid(body: map<string, Value>, rt: Runtime) {
    !IsNaN(Lookup(body, "longitude"), rt) && !IsNaN(Lookup(body, "latitude"), rt)
  }

  /** `formId + ',' + turfId`: string concatenation converts both values with `String(v)`. */
  function InviteCode(formId: Value, turfId: Value): (code: string)
    ensures ',' in code
  {
    var s := ToStr(formId) + "," + ToStr(turfId);
    assert s[|ToStr(formId)|] == ',';
    s
  }

  /** The handler, from the request body and the two lookups. */
  function HandleOnboard(body: map<string, Value>, form: Option<Value>, turf: Option<Value>, rt: Runtime): (r: Response)
    ensures r.Failure? ==> r.status in {400, 403}
    ensures r.Invite? <==>
      && Truthy(Lookup(body, "formId"))
      && CoordinatesValid(body, rt)
      && !Truthy(Lookup(body, "badinput"))
      && Found(form) && Found(turf)
  {
    if !Truthy(Lookup(body, "formId")) then Failure(400, MissingFormId)
    else if IsNaN(Lookup(body, "longitude"), rt) || IsNaN(Lookup(body, "latitude"), rt) then Failure(400, InvalidCoordinates)
    else if Truthy(Lookup(body, "badinput")) then Failure(403, RejectMsg)
    else if !Found(form) then Failure(403, InvalidFormId)
    else if !Found(turf) then Failure(403, RejectMsg)
    else Invite(InviteCode(form.value, turf.value))
  }

  /** A falsy `formId` is answered with 400 before anything else is looked at. */
  lemma FormIdCheckedFirst(body: map<string, Value>, form: Option<Value>, turf: Option<Value>, rt: Runtime)
    requires !Truthy(Lookup(body, "formId"))
    ensures HandleOnboard(body, form, turf, rt) == Failure(400, MissingFormId)
  {
  }

  /** With a `formId`, the coordinates decide the second 400, whatever else the body or the lookups hold. */
  lemma CoordinatesCheckedSecond(body: map<string, Value>, form: Option<Value>, turf: Option<Value>, rt: Runtime)
    requires Truthy(Lookup(body, "formId"))
    ensures HandleOnboard(body, form, turf, rt) == Failure(400, InvalidCoordinates) <==> !CoordinatesValid(body, rt)
  {
  }

  /** Status 400 means exactly that the request is malformed: no `formId`, or a coordinate that is not a number. */
  lemma BadRequestExactly(body: map<string, Value>, form: Option<Value>, turf: Option<Value>, rt: Runtime)
    ensures var r := HandleOnboard(body, form, turf, rt);
      r.Failure? && r.status == 400 <==> !Truthy(Lookup(body, "formId")) || !CoordinatesValid(body, rt)
  {
  }

  /** A truthy `badinput` in an otherwise well-formed request is rejected before either lookup matters. */
  lemma BadInputBeforeLookups(body: map<string, Value>, form: Option<Value>, turf: Option<Value>, rt: Runtime)
    requires Truthy(Lookup(body, "formId")) && CoordinatesValid(body, rt)
    requires Truthy(Lookup(body, "badinput"))
    ensures HandleOnboard(body, form, turf, rt) == Failure(403, RejectMsg)
  {
  }

  /** Past the body checks, no form gives "Invalid formId" whatever the turf lookup gives, and a form
      without a turf gives the rejection message. */
  lemma LookupFailures(body: map<string, Value>, form: Option<Value>, turf: Option<Value>, rt: Runtime)
    requires Truthy(Lookup(body, "formId")) && CoordinatesValid(body, rt) && !Truthy(Lookup(body, "badinput"))
    ensures !Found(form) ==> HandleOnboard(body, form, turf, rt) == Failure(403, InvalidFormId)
    ensures Found(form) && !Found(turf) ==> HandleOnboard(body, form, turf, rt) == Failure(403, RejectMsg)
  {
  }

  /** When every check passes the answer is the invite code of the two values found. */
  lemma SuccessCode(body: map<string, Value>, form: Option<Value>, turf: Option<Value>, rt: Runtime)
    requires HandleOnboard(body, form, turf, rt).Invite?
    ensures form.Some? && turf.Some?
    ensures HandleOnboard(body, form, turf, rt).inviteCode == ToStr(form.value) + "," + ToStr(turf.value)
  {
  }

  /** The position of the first `c` in `s`, or `|s|` when there is none. */
  function FirstIndex(s: string, c: char): (i: nat)
    ensures i <= |s|
    ensures forall j :: 0 <= j < i ==> s[j] != c
    ensures i < |s| ==> s[i] == c
  {
    if |s| == 0 then 0 else if s[0] == c then 0 else 1 + FirstIndex(s[1..], c)
  }

  /** Splits an invite code at its first comma into the form part and the turf part. */
  function SplitInviteCode(code: string): (parts: (string, string))
  {
    var i := FirstIndex(code, ',');
    if i < |code| then (code[..i], code[i + 1..]) else (code, "")
  }

  /** When the form id's text holds no comma, the invite code splits back into the two ids' texts. */
  lemma {:induction false} InviteCodeSplits(formId: Value, turfId: Value)
    requires ',' !in ToStr(formId)
    ensures SplitInviteCode(InviteCode(formId, turfId)) == (ToStr(formId), ToStr(turfId))
  {
    var f := ToStr(formId);
    var code := InviteCode(formId, turfId);
    FirstIndexOfPrefix(f, ToStr(turfId));
    assert code[..|f|] == f;
    assert code[|f| + 1..] == ToStr(turfId);
  }

  /** The first comma of `f + "," + t` is the one after `f` when `f` has none. */
  lemma {:induction false} FirstIndexOfPrefix(f: string, t: string)
    requires ',' !in f
    ensures FirstIndex(f + "," + t, ',') == |f|
  {
    if |f| > 0 {
      assert (f + "," + t)[1..] == f[1..] + "," + t;
      FirstIndexOfPrefix(f[1..], t);
    }
  }
}
