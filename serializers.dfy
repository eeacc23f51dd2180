/**
  The record serializers of the volunteer API (server/app/routes/api/v1/va/serializers.js):
  they turn a graph node into the flat record the API responds with, deriving a display
  address, a display name and the parsed JSON blobs.
 */
module Serializers {
  import opened Js

  /** A graph node as the object-graph mapper hands it out: properties are read with `node.get(k)`. */
  datatype Node = Node(props: map<string, Value>) {
    function Get(k: string): Value {
      Lookup(props, k)
    }
  }

  /** The one entity-read capability both tripler serializers use: through the mapper's
      accessor, or by plain property access on a query-result row. */
  datatype Reader = FromNode(node: Node) | FromRow(row: map<string, Value>) {
    function Read(k: string): Value {
      match this
      case FromNode(n) => n.Get(k)
      case FromRow(r) => Lookup(r, k)
    }
  }

  /** The JavaScript object a serializer returns. */
  type Record = map<string, Value>

  const AddressKeys: seq<string> := ["address1", "city", "state", "zip"]

  const AmbassadorKeys: seq<string> :=
    ["id", "external_id", "first_name", "last_name", "phone", "email", "location",
     "signup_completed", "onboarding_completed", "approved", "locked",
     "payout_provider", "payout_additional_data"]

  const TriplerKeys: seq<string> :=
    ["id", "first_name", "last_name", "status", "phone", "location", "email"]

  // ----- _displayAddress -----

  /** The truthy values among `address[k]` for `k` in `keys`, in key order. */
  function PresentValues(address: Value, keys: seq<string>): (values: seq<Value>)
    requires Readable(address)
    ensures |values| <= |keys|
    ensures forall i :: 0 <= i < |values| ==> Truthy(values[i])
  {
    if keys == [] then []
    else
      var v := Prop(address, keys[|keys| - 1]);
      PresentValues(address, keys[..|keys| - 1]) + (if Truthy(v) then [v] else [])
  }

  /** `_displayAddress(address)`: `''` for a falsy address, otherwise the truthy values of
      `address1`, `city`, `state` and `zip`, in that order, joined by `", "`. */
  function DisplayAddress(address: Value): string {
    if !Truthy(address) then "" else JoinValues(", ", PresentValues(address, AddressKeys))
  }

  /** `_displayAddress` as the source runs it: a `forEach` over the keys pushing into `values`. */
  method DisplayAddressOf(address: Value) returns (s: string)
    ensures s == DisplayAddress(address)
  {
    if !Truthy(address) {
      return "";
    }
    var keys := AddressKeys;
    var values: seq<Value> := [];
    for i := 0 to |keys|
      invariant values == PresentValues(address, keys[..i])
    {
      assert keys[..i + 1][..i] == keys[..i];
      var v := Prop(address, keys[i]);
      if Truthy(v) {
        values := values + [v];
      }
    }
    assert keys[..|keys|] == keys;
    s := JoinValues(", ", values);
  }

  /** Only the four address keys contribute: values agreeing on them give equal lists. */
  lemma {:induction false} PresentValuesOnlyKeys(a: Value, b: Value, keys: seq<string>)
    requires Readable(a) && Readable(b)
    requires forall i :: 0 <= i < |keys| ==> Prop(a, keys[i]) == Prop(b, keys[i])
    ensures PresentValues(a, keys) == PresentValues(b, keys)
  {
    if keys != [] {
      PresentValuesOnlyKeys(a, b, keys[..|keys| - 1]);
    }
  }

  /** No key other than `address1`, `city`, `state` and `zip` affects the display address. */
  lemma DisplayAddressOnlyAddressKeys(a: Value, b: Value)
    requires Truthy(a) && Truthy(b)
    requires forall k :: k in AddressKeys ==> Prop(a, k) == Prop(b, k)
    ensures DisplayAddress(a) == DisplayAddress(b)
  {
    PresentValuesOnlyKeys(a, b, AddressKeys);
  }

  /** One more key: its value is appended when truthy. */
  lemma PresentValuesStep(address: Value, keys: seq<string>, k: string)
    requires Readable(address)
    ensures PresentValues(address, keys + [k])
         == PresentValues(address, keys) + (if Truthy(Prop(address, k)) then [Prop(address, k)] else [])
  {
    assert (keys + [k])[..|keys|] == keys;
  }

  /** `AddressKeys` read one key at a time, in order. */
  lemma PresentAddressValues(address: Value)
    requires Readable(address)
    ensures PresentValues(address, AddressKeys)
         == (if Truthy(Prop(address, "address1")) then [Prop(address, "address1")] else [])
          + (if Truthy(Prop(address, "city")) then [Prop(address, "city")] else [])
          + (if Truthy(Prop(address, "state")) then [Prop(address, "state")] else [])
          + (if Truthy(Prop(address, "zip")) then [Prop(address, "zip")] else [])
  {
    PresentValuesStep(address, [], "address1");
    assert [] + ["address1"] == ["address1"];
    PresentValuesStep(address, ["address1"], "city");
    assert ["address1"] + ["city"] == ["address1", "city"];
    PresentValuesStep(address, ["address1", "city"], "state");
    assert ["address1", "city"] + ["state"] == ["address1", "city", "state"];
    PresentValuesStep(address, ["address1", "city", "state"], "zip");
    assert ["address1", "city", "state"] + ["zip"] == AddressKeys;
  }

  /** An address with none of the four keys set displays as the empty string. */
  lemma DisplayAddressNoKeys(address: Value)
    requires Readable(address)
    requires forall k :: k in AddressKeys ==> !Truthy(Prop(address, k))
    ensures DisplayAddress(address) == ""
  {
    PresentAddressValues(address);
  }

  /** All four keys set to non-empty strings: they appear in the fixed order, separated by `", "`. */
  lemma DisplayAddressAllKeys(address1: string, city: string, state: string, zip: string, rest: map<string, Value>)
    requires address1 != "" && city != "" && state != "" && zip != ""
    ensures DisplayAddress(Obj(rest["address1" := Str(address1)]["city" := Str(city)]["state" := Str(state)]["zip" := Str(zip)]))
         == address1 + ", " + city + ", " + state + ", " + zip
  {
    var a := Obj(rest["address1" := Str(address1)]["city" := Str(city)]["state" := Str(state)]["zip" := Str(zip)]);
    PresentAddressValues(a);
    var values := [Str(address1), Str(city), Str(state), Str(zip)];
    assert PresentValues(a, AddressKeys) == values;
    var texts := seq(|values|, i requires 0 <= i < |values| => JoinText(values[i]));
    assert texts[0] == JoinText(Str(address1)) == address1;
    assert texts[1] == JoinText(Str(city)) == city;
    assert texts[2] == JoinText(Str(state)) == state;
    assert texts[3] == JoinText(Str(zip)) == zip;
    assert texts == [address1, city, state, zip];
    JoinSnoc(", ", [address1], city);
    JoinSnoc(", ", [address1, city], state);
    JoinSnoc(", ", [address1, city, state], zip);
    assert [address1, city, state] + [zip] == texts;
  }

  /** A partial address (only `city` and `zip`) shows exactly those two values, in that order. */
  lemma DisplayAddressPartial(city: string, zip: string)
    requires city != "" && zip != ""
    ensures DisplayAddress(Obj(map["city" := Str(city), "zip" := Str(zip)])) == city + ", " + zip
  {
    var a := Obj(map["city" := Str(city), "zip" := Str(zip)]);
    PresentAddressValues(a);
    var values := [Str(city), Str(zip)];
    assert PresentValues(a, AddressKeys) == values;
    var texts := seq(|values|, i requires 0 <= i < |values| => JoinText(values[i]));
    assert texts[0] == JoinText(Str(city)) == city;
    assert texts[1] == JoinText(Str(zip)) == zip;
    assert texts == [city, zip];
    JoinSnoc(", ", [city], zip);
  }

  // ----- _displayName -----

  /** `_displayName(first_name, last_name)`. */
  function DisplayName(first: Value, last: Value): (name: Value)
    ensures !Truthy(last) ==> name == first
    ensures Truthy(last) ==> name == Str(JoinText(first) + " " + JoinText(last))
  {
    if !Truthy(last) then first
    else
      JoinSnoc(" ", [JoinText(first)], JoinText(last));
      assert [JoinText(first)] + [JoinText(last)] == [JoinText(first), JoinText(last)];
      Str(Join(" ", [JoinText(first), JoinText(last)]))
  }

  /** For string names: the first name alone when the last name is empty, else both separated by one space. */
  lemma DisplayNameOfStrings(first: string, last: string)
    ensures DisplayName(Str(first), Str(last)) == if last == "" then Str(first) else Str(first + " " + last)
  {
    if last != "" {
      JoinSnoc(" ", [first], last);
      assert [first] + [last] == [JoinText(Str(first)), JoinText(Str(last))];
    }
  }

  /** A missing last name (`null` or `undefined`) leaves the first name as it is, whatever its type. */
  lemma DisplayNameWithoutLast(first: Value, last: Value)
    requires !Readable(last)
    ensures DisplayName(first, last) == first
  {
  }

  // ----- JSON blobs -----

  /** `JSON.parse` does not throw on the blob wherever the code parses it (only truthy blobs are parsed). */
  predicate Parses(rt: Runtime, blob: Value) {
    Truthy(blob) ==> rt.parse(ToStr(blob)).Some?
  }

  /** `!!blob ? JSON.parse(blob) : null` */
  function ParseBlob(rt: Runtime, blob: Value): (v: Value)
    requires Parses(rt, blob)
    ensures !Truthy(blob) ==> v == Null
  {
    if Truthy(blob) then rt.parse(ToStr(blob)).value else Null
  }

  /** `!!address ? _displayAddress(address) : null` */
  function DisplayAddressField(address: Value): (v: Value)
    ensures v == Null <==> !Truthy(address)
  {
    if Truthy(address) then Str(DisplayAddress(address)) else Null
  }

  // ----- field copying -----

  /** `keys.forEach(x => obj[x] = read(x))` starting from `{}`. */
  function CopyFields(keys: seq<string>, r: Reader): Record {
    if keys == [] then map[]
    else CopyFields(keys[..|keys| - 1], r)[keys[|keys| - 1] := r.Read(keys[|keys| - 1])]
  }

  /** The copy holds exactly the listed keys, each with the value read for it. */
  lemma {:induction false} CopyFieldsShape(keys: seq<string>, r: Reader)
    ensures CopyFields(keys, r).Keys == set k | k in keys
    ensures forall k :: k in keys ==> CopyFields(keys, r)[k] == r.Read(k)
  {
    if keys != [] {
      CopyFieldsShape(keys[..|keys| - 1], r);
      assert forall k :: k in keys <==> k in keys[..|keys| - 1] || k == keys[|keys| - 1];
    }
  }

  /** Records that read equal values at every key copy equal fields. */
  lemma {:induction false} CopyFieldsOnlyReads(keys: seq<string>, a: Reader, b: Reader)
    requires forall k :: a.Read(k) == b.Read(k)
    ensures CopyFields(keys, a) == CopyFields(keys, b)
  {
    if keys != [] {
      CopyFieldsOnlyReads(keys[..|keys| - 1], a, b);
    }
  }

  /** Four derived fields written after the copies, under keys outside the copied list, leave the copies intact. */
  lemma DerivedKeepCopies(keys: seq<string>, r: Reader,
                          k1: string, v1: Value, k2: string, v2: Value, k3: string, v3: Value, k4: string, v4: Value)
    requires k1 !in keys && k2 !in keys && k3 !in keys && k4 !in keys
    ensures var obj := CopyFields(keys, r)[k1 := v1][k2 := v2][k3 := v3][k4 := v4];
      && obj.Keys == (set k | k in keys) + {k1, k2, k3, k4}
      && (forall k :: k in keys ==> obj[k] == r.Read(k))
  {
    CopyFieldsShape(keys, r);
  }

  // ----- serializeAmbassador -----

  predicate AmbassadorParses(r: Reader, rt: Runtime) {
    Parses(rt, r.Read("address")) && Parses(rt, r.Read("quiz_results"))
  }

  /** The record `serializeAmbassador` builds. */
  function AmbassadorRecord(r: Reader, rt: Runtime): Record
    requires AmbassadorParses(r, rt)
  {
    var address := ParseBlob(rt, r.Read("address"));
    CopyFields(AmbassadorKeys, r)
      ["address" := address]
      ["display_address" := DisplayAddressField(address)]
      ["display_name" := DisplayName(r.Read("first_name"), r.Read("last_name"))]
      ["quiz_results" := ParseBlob(rt, r.Read("quiz_results"))]
  }

  /** `serializeAmbassador(ambassador)`: fills `obj` field by field. */
  method SerializeAmbassador(ambassador: Node, rt: Runtime) returns (obj: Record)
    requires AmbassadorParses(FromNode(ambassador), rt)
    ensures obj == AmbassadorRecord(FromNode(ambassador), rt)
  {
    obj := map[];
    var keys := AmbassadorKeys;
    for i := 0 to |keys|
      invariant obj == CopyFields(keys[..i], FromNode(ambassador))
    {
      assert keys[..i + 1][..i] == keys[..i];
      obj := obj[keys[i] := ambassador.Get(keys[i])];
    }
    assert keys[..|keys|] == keys;
    var address := if Truthy(ambassador.Get("address")) then rt.parse(ToStr(ambassador.Get("address"))).value else Null;
    obj := obj["address" := address];
    var displayAddress := Null;
    if Truthy(address) {
      var text := DisplayAddressOf(address);
      displayAddress := Str(text);
    }
    obj := obj["display_address" := displayAddress];
    obj := obj["display_name" := DisplayName(ambassador.Get("first_name"), ambassador.Get("last_name"))];
    obj := obj["quiz_results" := if Truthy(ambassador.Get("quiz_results")) then rt.parse(ToStr(ambassador.Get("quiz_results"))).value else Null];
  }

  /** The ambassador record holds exactly the 13 copied fields, verbatim, plus the four derived ones. */
  lemma AmbassadorRecordFields(r: Reader, rt: Runtime)
    requires AmbassadorParses(r, rt)
    ensures var obj := AmbassadorRecord(r, rt);
      && obj.Keys == (set k | k in AmbassadorKeys) + {"address", "display_address", "display_name", "quiz_results"}
      && (forall k :: k in AmbassadorKeys ==> obj[k] == r.Read(k))
  {
    assert "address" !in AmbassadorKeys && "display_address" !in AmbassadorKeys;
    assert "display_name" !in AmbassadorKeys && "quiz_results" !in AmbassadorKeys;
    var address := ParseBlob(rt, r.Read("address"));
    DerivedKeepCopies(AmbassadorKeys, r, "address", address, "display_address", DisplayAddressField(address),
      "display_name", DisplayName(r.Read("first_name"), r.Read("last_name")),
      "quiz_results", ParseBlob(rt, r.Read("quiz_results")));
  }

  /** A key that was copied and is not overwritten afterwards still reads the copied value. */
  lemma CopiedKeyKept(keys: seq<string>, r: Reader, k: string,
                      k1: string, v1: Value, k2: string, v2: Value, k3: string, v3: Value, k4: string, v4: Value)
    requires k in keys && k != k1 && k != k2 && k != k3 && k != k4
    ensures Lookup(CopyFields(keys, r)[k1 := v1][k2 := v2][k3 := v3][k4 := v4], k) == r.Read(k)
  {
    CopyFieldsShape(keys, r);
  }

  /** The record fields the ambassador export reads: the node's identity, name and contact values,
      and the parsed address. */
  lemma AmbassadorRecordColumns(r: Reader, rt: Runtime)
    requires AmbassadorParses(r, rt)
    ensures var obj := AmbassadorRecord(r, rt);
      && Lookup(obj, "external_id") == r.Read("external_id")
      && Lookup(obj, "first_name") == r.Read("first_name")
      && Lookup(obj, "last_name") == r.Read("last_name")
      && Lookup(obj, "email") == r.Read("email")
      && Lookup(obj, "phone") == r.Read("phone")
      && Lookup(obj, "address") == ParseBlob(rt, r.Read("address"))
  {
    var address := ParseBlob(rt, r.Read("address"));
    var displayAddress := DisplayAddressField(address);
    var displayName := DisplayName(r.Read("first_name"), r.Read("last_name"));
    var quiz := ParseBlob(rt, r.Read("quiz_results"));
    var keys := AmbassadorKeys;
    assert keys[1] == "external_id" && keys[2] == "first_name" && keys[3] == "last_name";
    assert keys[4] == "phone" && keys[5] == "email";
    forall k | k in {"external_id", "first_name", "last_name", "email", "phone"}
      ensures Lookup(AmbassadorRecord(r, rt), k) == r.Read(k)
    {
      CopiedKeyKept(keys, r, k, "address", address, "display_address", displayAddress,
        "display_name", displayName, "quiz_results", quiz);
    }
  }

  /** The derived fields of the ambassador record: the parsed address, its display form, the
      display name and the parsed quiz results. */
  lemma AmbassadorRecordDerived(r: Reader, rt: Runtime)
    requires AmbassadorParses(r, rt)
    ensures var obj := AmbassadorRecord(r, rt);
      && (!Truthy(r.Read("address")) ==> obj["address"] == Null)
      && (Truthy(r.Read("address")) ==> Some(obj["address"]) == rt.parse(ToStr(r.Read("address"))))
      && (obj["display_address"] == Null <==> !Truthy(obj["address"]))
      && (Truthy(obj["address"]) ==> obj["display_address"] == Str(DisplayAddress(obj["address"])))
      && obj["display_name"] == DisplayName(r.Read("first_name"), r.Read("last_name"))
      && (!Truthy(r.Read("quiz_results")) ==> obj["quiz_results"] == Null)
  {
  }

  // ----- serializeTripler / serializeNeo4JTripler -----

  predicate TriplerParses(r: Reader, rt: Runtime) {
    Parses(rt, r.Read("address")) && Parses(rt, r.Read("triplees"))
  }

  /** The record both tripler serializers build from what the reader yields. */
  function TriplerRecord(r: Reader, rt: Runtime): Record
    requires TriplerParses(r, rt)
  {
    var address := ParseBlob(rt, r.Read("address"));
    CopyFields(TriplerKeys, r)
      ["address" := address]
      ["display_address" := DisplayAddressField(address)]
      ["display_name" := DisplayName(r.Read("first_name"), r.Read("last_name"))]
      ["triplees" := ParseBlob(rt, r.Read("triplees"))]
  }

  /** `serializeTripler(tripler)`: reads through the mapper's `tripler.get(k)`. */
  method SerializeTripler(tripler: Node, rt: Runtime) returns (obj: Record)
    requires TriplerParses(FromNode(tripler), rt)
    ensures obj == TriplerRecord(FromNode(tripler), rt)
  {
    obj := map[];
    var keys := TriplerKeys;
    for i := 0 to |keys|
      invariant obj == CopyFields(keys[..i], FromNode(tripler))
    {
      assert keys[..i + 1][..i] == keys[..i];
      obj := obj[keys[i] := tripler.Get(keys[i])];
    }
    assert keys[..|keys|] == keys;
    var address := if Truthy(tripler.Get("address")) then rt.parse(ToStr(tripler.Get("address"))).value else Null;
    obj := obj["address" := address];
    var displayAddress := Null;
    if Truthy(address) {
      var text := DisplayAddressOf(address);
      displayAddress := Str(text);
    }
    obj := obj["display_address" := displayAddress];
    obj := obj["display_name" := DisplayName(tripler.Get("first_name"), tripler.Get("last_name"))];
    obj := obj["triplees" := if Truthy(tripler.Get("triplees")) then rt.parse(ToStr(tripler.Get("triplees"))).value else Null];
  }

  /** `serializeNeo4JTripler(tripler)`: reads a raw query-result row with `tripler[k]`. */
  method SerializeNeo4JTripler(tripler: map<string, Value>, rt: Runtime) returns (obj: Record)
    requires TriplerParses(FromRow(tripler), rt)
    ensures obj == TriplerRecord(FromRow(tripler), rt)
  {
    obj := map[];
    var keys := TriplerKeys;
    for i := 0 to |keys|
      invariant obj == CopyFields(keys[..i], FromRow(tripler))
    {
      assert keys[..i + 1][..i] == keys[..i];
      obj := obj[keys[i] := Lookup(tripler, keys[i])];
    }
    assert keys[..|keys|] == keys;
    var address := if Truthy(Lookup(tripler, "address")) then rt.parse(ToStr(Lookup(tripler, "address"))).value else Null;
    obj := obj["address" := address];
    var displayAddress := Null;
    if Truthy(address) {
      var text := DisplayAddressOf(address);
      displayAddress := Str(text);
    }
    obj := obj["display_address" := displayAddress];
    obj := obj["display_name" := DisplayName(Lookup(tripler, "first_name"), Lookup(tripler, "last_name"))];
    obj := obj["triplees" := if Truthy(Lookup(tripler, "triplees")) then rt.parse(ToStr(Lookup(tripler, "triplees"))).value else Null];
  }

  /** The tripler record holds exactly the 7 copied fields, verbatim, plus the four derived ones. */
  lemma TriplerRecordShape(r: Reader, rt: Runtime)
    requires TriplerParses(r, rt)
    ensures var obj := TriplerRecord(r, rt);
      && obj.Keys == (set k | k in TriplerKeys) + {"address", "display_address", "display_name", "triplees"}
      && (forall k :: k in TriplerKeys ==> obj[k] == r.Read(k))
      && (!Truthy(r.Read("address")) ==> obj["address"] == Null)
      && (Truthy(r.Read("address")) ==> Some(obj["address"]) == rt.parse(ToStr(r.Read("address"))))
      && (obj["display_address"] == Null <==> !Truthy(obj["address"]))
      && (Truthy(obj["address"]) ==> obj["display_address"] == Str(DisplayAddress(obj["address"])))
      && obj["display_name"] == DisplayName(r.Read("first_name"), r.Read("last_name"))
      && (!Truthy(r.Read("triplees")) ==> obj["triplees"] == Null)
  {
    assert "address" !in TriplerKeys && "display_address" !in TriplerKeys;
    assert "display_name" !in TriplerKeys && "triplees" !in TriplerKeys;
    var address := ParseBlob(rt, r.Read("address"));
    DerivedKeepCopies(TriplerKeys, r, "address", address, "display_address", DisplayAddressField(address),
      "display_name", DisplayName(r.Read("first_name"), r.Read("last_name")),
      "triplees", ParseBlob(rt, r.Read("triplees")));
  }

  /** The record fields the tripler export reads: the node's name, status and phone values, the
      parsed address and the parsed triplees. */
  lemma TriplerRecordColumns(r: Reader, rt: Runtime)
    requires TriplerParses(r, rt)
    ensures var obj := TriplerRecord(r, rt);
      && Lookup(obj, "first_name") == r.Read("first_name")
      && Lookup(obj, "last_name") == r.Read("last_name")
      && Lookup(obj, "status") == r.Read("status")
      && Lookup(obj, "phone") == r.Read("phone")
      && Lookup(obj, "address") == ParseBlob(rt, r.Read("address"))
      && Lookup(obj, "triplees") == ParseBlob(rt, r.Read("triplees"))
  {
    var address := ParseBlob(rt, r.Read("address"));
    var displayAddress := DisplayAddressField(address);
    var displayName := DisplayName(r.Read("first_name"), r.Read("last_name"));
    var triplees := ParseBlob(rt, r.Read("triplees"));
    var keys := TriplerKeys;
    assert keys[1] == "first_name" && keys[2] == "last_name" && keys[3] == "status" && keys[4] == "phone";
    forall k | k in {"first_name", "last_name", "status", "phone"}
      ensures Lookup(TriplerRecord(r, rt), k) == r.Read(k)
    {
      CopiedKeyKept(keys, r, k, "address", address, "display_address", displayAddress,
        "display_name", displayName, "triplees", triplees);
    }
  }

  /** The tripler record depends on nothing but what the reader yields. */
  lemma TriplerRecordOnlyReads(a: Reader, b: Reader, rt: Runtime)
    requires TriplerParses(a, rt)
    requires forall k :: a.Read(k) == b.Read(k)
    ensures TriplerParses(b, rt)
    ensures TriplerRecord(a, rt) == TriplerRecord(b, rt)
  {
    CopyFieldsOnlyReads(TriplerKeys, a, b);
  }

  /** `serializeNeo4JTripler(row)` and `serializeTripler(node)` agree whenever `node.get(k) == row[k]` for every key. */
  lemma Neo4JTriplerMatchesTripler(node: Node, row: map<string, Value>, rt: Runtime)
    requires TriplerParses(FromNode(node), rt)
    requires forall k :: node.Get(k) == Lookup(row, k)
    ensures TriplerParses(FromRow(row), rt)
    ensures TriplerRecord(FromNode(node), rt) == TriplerRecord(FromRow(row), rt)
  {
    TriplerRecordOnlyReads(FromNode(node), FromRow(row), rt);
  }

  // ----- serializePayout -----

  /** A date built from a string (`new Date(s)`), or `null`. The date is kept as the text it is
      built from: two texts for the same instant are different stamps here. */
  datatype Stamp = NoStamp | DateFrom(source: string)

  /** The object `serializePayout` returns. */
  datatype PayoutView = PayoutView(amount: string, status: Value, disbursedAt: Stamp, settledAt: Stamp, error: Value)

  /** `payout.amount.low` can be read and a truthy `payout.error` is well-formed JSON. */
  predicate PayoutSerializable(payout: map<string, Value>, rt: Runtime) {
    Readable(Lookup(payout, "amount")) && Parses(rt, Lookup(payout, "error"))
  }

  /** `v ? new Date(v.toString()) : null`. An object is a value of the database driver and prints
      its own text (a driver date prints its date); other values print as `String(v)`. */
  function StampOf(v: Value, rt: Runtime): (s: Stamp)
    ensures s == NoStamp <==> !Truthy(v)
    ensures v.Obj? ==> s == DateFrom(rt.objectText(v.fields))
    ensures v.Str? && v.s != "" ==> s == DateFrom(v.s)
  {
    if !Truthy(v) then NoStamp
    else if v.Obj? then DateFrom(rt.objectText(v.fields))
    else DateFrom(ToStr(v))
  }

  /** `serializePayout(payout)` */
  function SerializePayout(payout: map<string, Value>, rt: Runtime): (p: PayoutView)
    requires PayoutSerializable(payout, rt)
    ensures p.status == Lookup(payout, "status")
  {
    PayoutView(
      rt.currency(Prop(Lookup(payout, "amount"), "low")),
      Lookup(payout, "status"),
      StampOf(Lookup(payout, "disbursed_at"), rt),
      StampOf(Lookup(payout, "settled_at"), rt),
      ParseBlob(rt, Lookup(payout, "error")))
  }

  /** Absent `disbursed_at`, `settled_at` and `error` come out as `null`. */
  lemma PayoutAbsentFieldsAreNull(payout: map<string, Value>, rt: Runtime)
    requires PayoutSerializable(payout, rt)
    requires "disbursed_at" !in payout && "settled_at" !in payout && "error" !in payout
    ensures SerializePayout(payout, rt).disbursedAt == NoStamp
    ensures SerializePayout(payout, rt).settledAt == NoStamp
    ensures SerializePayout(payout, rt).error == Null
  {
  }

  /** The formatted amount depends on `amount.low` alone. */
  lemma PayoutAmountOnlyLow(p: map<string, Value>, q: map<string, Value>, rt: Runtime)
    requires PayoutSerializable(p, rt) && PayoutSerializable(q, rt)
    requires Prop(Lookup(p, "amount"), "low") == Prop(Lookup(q, "amount"), "low")
    ensures SerializePayout(p, rt).amount == SerializePayout(q, rt).amount
  {
  }

  // ----- module.exports -----

  /** The names `serializers.js` exports; an import of any other name binds `undefined`. */
  const SerializerExports: set<string> :=
    {"serializeAmbassador", "serializeTripler", "serializeNeo4JTripler", "serializePayout"}
}
