/**
  The CSV exports (server/app/services/export.js): `exportAmbassadors` counts each
  ambassador's claimed triplers by status, totals their payouts and writes one row per
  ambassador; `exportTriplers` writes one row per claims relationship.

  Both build their text by appending. The text is specified as the concatenation of the
  pieces appended, in order: a header (the header array converted to a string, appended
  with no newline before it) or a row (a newline followed by the comma-joined fields).
 */
module Export {
  import opened Js
  import opened Serializers

  /** A claims relationship: its `since` property and the tripler at its other end. */
  datatype Claim = Claim(since: Value, tripler: Node)

  /** An ambassador node with its `claims` relationships and the payout nodes of its `gets_paid` relationships. */
  datatype AmbassadorEntry = AmbassadorEntry(node: Node, claims: seq<Claim>, payouts: seq<Node>)

  /** One chunk appended to the export text. */
  datatype Piece = Header(names: seq<string>) | Row(fields: seq<string>)

  const AmbassadorHeader: seq<string> :=
    ["Google/FB ID", "Created at", "First Name", "Last Name", "Street Address", "Zip Code",
     "Email", "Phone", "Unconfirmed", "Pending", "Confirmed", "Total Sent to Bank", "Total Earned"]

  const TriplerHeader: seq<string> :=
    ["First Name", "Last Name", "Street", "Zip", "Status", "Date Claimed", "Date Confirmed",
     "Ambassador Name", "Phone", "Triplee1", "Triplee2", "Triplee3"]

  /** `text + header_line` appends the header array's string form; `text + '\n' + line` a row. */
  function PieceText(p: Piece): string {
    match p
    case Header(names) => Join(",", names)
    case Row(fields) => "\n" + Join(",", fields)
  }

  /** The texts appended, in order, to `''`. */
  function Concat(texts: seq<string>): string {
    if |texts| == 0 then "" else Concat(texts[..|texts| - 1]) + texts[|texts| - 1]
  }

  function Texts(ps: seq<Piece>): (ts: seq<string>)
    ensures |ts| == |ps|
  {
    seq(|ps|, i requires 0 <= i < |ps| => PieceText(ps[i]))
  }

  /** The text produced by appending the pieces in order to `''`. */
  function Render(ps: seq<Piece>): string {
    Concat(Texts(ps))
  }

  function HeaderCount(ps: seq<Piece>): nat {
    if ps == [] then 0 else HeaderCount(ps[..|ps| - 1]) + (if ps[|ps| - 1].Header? then 1 else 0)
  }

  /** The fields of the row pieces, in order. */
  function RowsOf(ps: seq<Piece>): seq<seq<string>> {
    if ps == [] then [] else RowsOf(ps[..|ps| - 1]) + (if ps[|ps| - 1].Row? then [ps[|ps| - 1].fields] else [])
  }

  lemma RenderSnoc(ps: seq<Piece>, p: Piece)
    ensures Render(ps + [p]) == Render(ps) + PieceText(p)
  {
    assert Texts(ps + [p])[..|ps|] == Texts(ps);
  }

  lemma {:induction false} ConcatAppend(a: seq<string>, b: seq<string>)
    ensures Concat(a + b) == Concat(a) + Concat(b)
  {
    if |b| == 0 {
      assert a + b == a;
    } else {
      var init := b[..|b| - 1];
      ConcatAppend(a, init);
      assert (a + b)[..|a + b| - 1] == a + init;
      var last := b[|b| - 1];
      calc {
        Concat(a + b);
        Concat(a + init) + last;
        Concat(a) + Concat(init) + last;
        Concat(a) + (Concat(init) + last);
      }
    }
  }

  /** Appending two runs of pieces appends their texts. */
  lemma RenderAppend(a: seq<Piece>, b: seq<Piece>)
    ensures Render(a + b) == Render(a) + Render(b)
  {
    assert Texts(a + b) == Texts(a) + Texts(b);
    ConcatAppend(Texts(a), Texts(b));
  }

  /** Appending two runs of pieces adds their header counts. */
  lemma {:induction false} HeaderCountAppend(a: seq<Piece>, b: seq<Piece>)
    ensures HeaderCount(a + b) == HeaderCount(a) + HeaderCount(b)
  {
    if b == [] {
      assert a + b == a;
    } else {
      var init := b[..|b| - 1];
      HeaderCountAppend(a, init);
      assert (a + b)[..|a + b| - 1] == a + init;
    }
  }

  /** Appending two runs of pieces appends their rows. */
  lemma {:induction false} RowsOfAppend(a: seq<Piece>, b: seq<Piece>)
    ensures RowsOf(a + b) == RowsOf(a) + RowsOf(b)
  {
    if b == [] {
      assert a + b == a;
    } else {
      var init := b[..|b| - 1];
      RowsOfAppend(a, init);
      assert (a + b)[..|a + b| - 1] == a + init;
    }
  }

  /** A row piece for each list of fields, in order. */
  function RowPieces(rows: seq<seq<string>>): (ps: seq<Piece>)
    ensures |ps| == |rows|
    ensures forall i :: 0 <= i < |rows| ==> ps[i] == Row(rows[i])
  {
    seq(|rows|, i requires 0 <= i < |rows| => Row(rows[i]))
  }

  /** Row pieces hold no header, and their rows are the given ones. */
  lemma {:induction false} RowPiecesContent(rows: seq<seq<string>>)
    ensures HeaderCount(RowPieces(rows)) == 0
    ensures RowsOf(RowPieces(rows)) == rows
  {
    if rows != [] {
      var init := rows[..|rows| - 1];
      RowPiecesContent(init);
      assert RowPieces(rows)[..|rows| - 1] == RowPieces(init);
    }
  }

  /** One more list of fields adds one row piece. */
  lemma RowPiecesSnoc(rows: seq<seq<string>>, fields: seq<string>)
    ensures RowPieces(rows + [fields]) == RowPieces(rows) + [Row(fields)]
  {
  }

  /** A report: nothing when there are no rows, else the header followed by one row piece per list of fields. */
  function Report(header: seq<string>, rows: seq<seq<string>>): seq<Piece> {
    if rows == [] then [] else [Header(header)] + RowPieces(rows)
  }

  /** The first row brings the header with it. */
  lemma ReportFirst(header: seq<string>, fields: seq<string>)
    ensures Render(Report(header, [fields])) == PieceText(Header(header)) + PieceText(Row(fields))
  {
    assert Report(header, [fields]) == [Header(header)] + [Row(fields)];
    RenderSnoc([Header(header)], Row(fields));
    RenderSnoc([], Header(header));
  }

  /** `text + '\n' + line` appends the row piece's text. */
  lemma AppendRowText(text: string, fields: seq<string>)
    ensures text + "\n" + Join(",", fields) == text + PieceText(Row(fields))
  {
  }

  /** Every later row appends a newline and its fields. */
  lemma ReportNext(header: seq<string>, rows: seq<seq<string>>, fields: seq<string>)
    requires rows != []
    ensures Render(Report(header, rows + [fields])) == Render(Report(header, rows)) + PieceText(Row(fields))
  {
    RowPiecesSnoc(rows, fields);
    assert Report(header, rows + [fields]) == Report(header, rows) + [Row(fields)];
    RenderSnoc(Report(header, rows), Row(fields));
  }

  /** A report with rows has exactly one header, first, and its rows in order. */
  lemma ReportShape(header: seq<string>, rows: seq<seq<string>>)
    ensures |Report(header, rows)| == if rows == [] then 0 else |rows| + 1
    ensures HeaderCount(Report(header, rows)) == if rows == [] then 0 else 1
    ensures RowsOf(Report(header, rows)) == rows
    ensures rows != [] ==> Report(header, rows)[0] == Header(header)
  {
    RowPiecesContent(rows);
    if rows != [] {
      HeaderCountAppend([Header(header)], RowPieces(rows));
      RowsOfAppend([Header(header)], RowPieces(rows));
      assert [Header(header)][..0] == [];
    }
  }

  /** No field holds a newline. */
  predicate NoNewline(fields: seq<string>) {
    forall j :: 0 <= j < |fields| ==> '\n' !in fields[j]
  }

  /** Joining newline-free parts with a comma gives a newline-free text. */
  lemma {:induction false} JoinNoNewline(parts: seq<string>)
    requires NoNewline(parts)
    ensures Occurrences(Join(",", parts), '\n') == 0
  {
    if |parts| > 1 {
      var init := parts[..|parts| - 1];
      JoinNoNewline(init);
      OccurrencesAppend(Join(",", init) + ",", parts[|parts| - 1], '\n');
      OccurrencesAppend(Join(",", init), ",", '\n');
      OccurrencesNone(",", '\n');
      OccurrencesNone(parts[|parts| - 1], '\n');
    } else if |parts| == 1 {
      OccurrencesNone(parts[0], '\n');
    }
  }

  /** A report over newline-free header and fields has one newline per row: with rows, it is the
      header line followed by exactly one line per row. */
  lemma {:induction false} ReportLines(header: seq<string>, rows: seq<seq<string>>)
    requires NoNewline(header)
    requires forall i :: 0 <= i < |rows| ==> NoNewline(rows[i])
    ensures Occurrences(Render(Report(header, rows)), '\n') == |rows|
  {
    if |rows| > 0 {
      var init := rows[..|rows| - 1];
      var last := rows[|rows| - 1];
      assert init + [last] == rows;
      JoinNoNewline(last);
      OccurrencesAppend("\n", Join(",", last), '\n');
      if |init| == 0 {
        ReportFirst(header, last);
        JoinNoNewline(header);
        OccurrencesAppend(PieceText(Header(header)), PieceText(Row(last)), '\n');
      } else {
        ReportLines(header, init);
        ReportNext(header, init, last);
        OccurrencesAppend(Render(Report(header, init)), PieceText(Row(last)), '\n');
      }
    }
  }

  // ----- status buckets -----

  /** `node.get('status') === s` */
  predicate HasStatus(n: Node, s: string) {
    n.Get("status") == Str(s)
  }

  /** How many of the nodes have status `s`, counted front to back as the loops do. */
  function StatusCount(ns: seq<Node>, s: string): (count: nat)
    ensures count <= |ns|
  {
    if ns == [] then 0 else StatusCount(ns[..|ns| - 1], s) + (if HasStatus(ns[|ns| - 1], s) then 1 else 0)
  }

  /** The positions holding a node with status `s`: an independent definition of the count. */
  function StatusPositions(ns: seq<Node>, s: string): set<nat> {
    set i: nat | i < |ns| && HasStatus(ns[i], s)
  }

  /** The running count equals the number of positions whose status is `s`. */
  lemma {:induction false} StatusCountIsPositions(ns: seq<Node>, s: string)
    ensures StatusCount(ns, s) == |StatusPositions(ns, s)|
  {
    if ns != [] {
      var n := |ns| - 1;
      StatusCountIsPositions(ns[..n], s);
      var before := StatusPositions(ns[..n], s);
      if HasStatus(ns[n], s) {
        assert StatusPositions(ns, s) == before + {n};
      } else {
        assert StatusPositions(ns, s) == before;
      }
    }
  }

  const TriplerStatuses: set<string> := {"unconfirmed", "pending", "confirmed"}

  /** The node's status is one of the three tripler buckets. */
  predicate InBucket(n: Node) {
    n.Get("status").Str? && n.Get("status").s in TriplerStatuses
  }

  /** How many of the nodes have a status of one of the three buckets. */
  function BucketedCount(ns: seq<Node>): (count: nat)
    ensures count <= |ns|
  {
    if ns == [] then 0 else BucketedCount(ns[..|ns| - 1]) + (if InBucket(ns[|ns| - 1]) then 1 else 0)
  }

  /** The three buckets are exclusive: their counts add up to the number of triplers whose status is
      exactly one of the three strings, which is at most the number of claims. */
  lemma {:induction false} BucketsPartitionRecognized(ns: seq<Node>)
    ensures StatusCount(ns, "unconfirmed") + StatusCount(ns, "pending") + StatusCount(ns, "confirmed")
         == BucketedCount(ns) <= |ns|
  {
    if ns != [] {
      BucketsPartitionRecognized(ns[..|ns| - 1]);
    }
  }

  /** A tripler whose status is none of the three is counted in no bucket, wherever it stands. */
  lemma {:induction false} UnknownStatusIgnored(before: seq<Node>, t: Node, after: seq<Node>, s: string)
    requires !HasStatus(t, s)
    ensures StatusCount(before + [t] + after, s) == StatusCount(before + after, s)
  {
    if after == [] {
      assert before + [t] + after == before + [t];
      assert (before + [t])[..|before|] == before;
      assert before + after == before;
    } else {
      var init := after[..|after| - 1];
      UnknownStatusIgnored(before, t, init, s);
      assert (before + [t] + after)[..|before + [t] + after| - 1] == before + [t] + init;
      assert (before + after)[..|before + after| - 1] == before + init;
    }
  }

  /** The example of triplers with statuses confirmed, confirmed, pending and bogus. */
  lemma BucketExample(a: Node, b: Node, c: Node, d: Node)
    requires HasStatus(a, "confirmed") && HasStatus(b, "confirmed") && HasStatus(c, "pending") && HasStatus(d, "bogus")
    ensures StatusCount([a, b, c, d], "confirmed") == 2
    ensures StatusCount([a, b, c, d], "pending") == 1
    ensures StatusCount([a, b, c, d], "unconfirmed") == 0
  {
    assert [a, b, c, d][..3] == [a, b, c];
    assert [a, b, c][..2] == [a, b];
    assert [a, b][..1] == [a];
    assert [a][..0] == [];
    assert StatusCount([a], "confirmed") == 1 && StatusCount([a], "pending") == 0 && StatusCount([a], "unconfirmed") == 0;
    assert !HasStatus(a, "pending") && !HasStatus(a, "unconfirmed") && !HasStatus(c, "confirmed");
    assert !HasStatus(d, "confirmed") && !HasStatus(d, "pending") && !HasStatus(d, "unconfirmed");
    assert !HasStatus(b, "pending") && !HasStatus(b, "unconfirmed") && !HasStatus(c, "unconfirmed");
    assert StatusCount([a, b], "confirmed") == 2 && StatusCount([a, b], "pending") == 0 && StatusCount([a, b], "unconfirmed") == 0;
    assert StatusCount([a, b, c], "confirmed") == 2 && StatusCount([a, b, c], "pending") == 1 && StatusCount([a, b, c], "unconfirmed") == 0;
  }

  // ----- payout totals (in cents) -----

  /** `total_earned`: the unit added for every payout. */
  function Earned(payouts: seq<Node>, unit: int): int {
    if payouts == [] then 0 else Earned(payouts[..|payouts| - 1], unit) + unit
  }

  /** `total_sent_to_bank`: the unit added for every settled payout. */
  function SentToBank(payouts: seq<Node>, unit: int): int {
    if payouts == [] then 0
    else SentToBank(payouts[..|payouts| - 1], unit) + (if HasStatus(payouts[|payouts| - 1], "settled") then unit else 0)
  }

  /** The totals are fixed multiples of the unit: every payout for `total_earned`, the settled ones
      for `total_sent_to_bank`. */
  lemma {:induction false} TotalsAreMultiples(payouts: seq<Node>, unit: int)
    ensures Earned(payouts, unit) == |payouts| * unit
    ensures SentToBank(payouts, unit) == StatusCount(payouts, "settled") * unit
  {
    if payouts != [] {
      var init := payouts[..|payouts| - 1];
      TotalsAreMultiples(init, unit);
      assert |payouts| * unit == |init| * unit + unit;
      assert (StatusCount(init, "settled") + 1) * unit == StatusCount(init, "settled") * unit + unit;
    }
  }

  /** With a non-negative unit, no more is sent to the bank than is earned. */
  lemma SentAtMostEarned(payouts: seq<Node>, unit: int)
    requires unit >= 0
    ensures 0 <= SentToBank(payouts, unit) <= Earned(payouts, unit)
  {
    TotalsAreMultiples(payouts, unit);
    assert StatusCount(payouts, "settled") * unit <= |payouts| * unit;
  }

  /** The example of one settled and one disbursed payout. */
  lemma TotalsExample(p: Node, q: Node, unit: int)
    requires HasStatus(p, "settled") && HasStatus(q, "disbursed")
    ensures Earned([p, q], unit) == 2 * unit
    ensures SentToBank([p, q], unit) == unit
  {
    assert [p, q][..1] == [p] && [p][..0] == [];
    assert Earned([p], unit) == unit;
    assert SentToBank([p], unit) == unit;
    assert !HasStatus(q, "settled");
  }

  // ----- exportAmbassadors -----

  /** The triplers at the other end of the claims relationships. */
  function Triplers(claims: seq<Claim>): (ts: seq<Node>)
    ensures |ts| == |claims|
  {
    seq(|claims|, i requires 0 <= i < |claims| => claims[i].tripler)
  }

  /** The first inner loop of `exportAmbassadors`: one pass over the claimed triplers, bumping the
      counter of the first status among `unconfirmed`, `confirmed` and `pending` that matches. */
  method CountTriplerStatuses(claims: seq<Claim>) returns (unconfirmed: nat, pending: nat, confirmed: nat)
    ensures unconfirmed == StatusCount(Triplers(claims), "unconfirmed")
    ensures pending == StatusCount(Triplers(claims), "pending")
    ensures confirmed == StatusCount(Triplers(claims), "confirmed")
  {
    unconfirmed, pending, confirmed := 0, 0, 0;
    ghost var ts := Triplers(claims);
    for x := 0 to |claims|
      invariant unconfirmed == StatusCount(ts[..x], "unconfirmed")
      invariant pending == StatusCount(ts[..x], "pending")
      invariant confirmed == StatusCount(ts[..x], "confirmed")
    {
      assert ts[..x + 1][..x] == ts[..x];
      var tripler := claims[x].tripler;
      if tripler.Get("status") == Str("unconfirmed") {
        unconfirmed := unconfirmed + 1;
      } else if tripler.Get("status") == Str("confirmed") {
        confirmed := confirmed + 1;
      } else if tripler.Get("status") == Str("pending") {
        pending := pending + 1;
      }
    }
    assert ts[..|claims|] == ts;
  }

  /** The second inner loop of `exportAmbassadors`: counts disbursed and settled payouts (counts the
      row never shows) and keeps the two running totals, in cents. */
  method TotalPayouts(payouts: seq<Node>, payoutPerTripler: int) returns (totalSentToBank: int, totalEarned: int)
    ensures totalSentToBank == SentToBank(payouts, payoutPerTripler)
    ensures totalEarned == Earned(payouts, payoutPerTripler)
  {
    totalSentToBank, totalEarned := 0, 0;
    var disbursed, settled := 0, 0;
    for x := 0 to |payouts|
      invariant disbursed == StatusCount(payouts[..x], "disbursed")
      invariant settled == StatusCount(payouts[..x], "settled")
      invariant totalSentToBank == SentToBank(payouts[..x], payoutPerTripler)
      invariant totalEarned == Earned(payouts[..x], payoutPerTripler)
    {
      assert payouts[..x + 1][..x] == payouts[..x];
      var payout := payouts[x];
      if payout.Get("status") == Str("disbursed") {
        disbursed := disbursed + 1;
      } else if payout.Get("status") == Str("settled") {
        settled := settled + 1;
        totalSentToBank := totalSentToBank + payoutPerTripler;
      }
      totalEarned := totalEarned + payoutPerTripler;
    }
    assert payouts[..|payouts|] == payouts;
  }

  /** The ambassador can be serialized and its `address` read (`ambassador.address.address1` throws on `null`). */
  predicate AmbassadorExportable(e: AmbassadorEntry, rt: Runtime) {
    AmbassadorParses(FromNode(e.node), rt) && Readable(ParseBlob(rt, e.node.Get("address")))
  }

  /** The 13 fields of an ambassador's row. `unit` is `payout_per_tripler`, in cents. The serialized
      ambassador's `external_id`, names, email and phone are the node's own (`AmbassadorRecordFields`),
      and its `address` is the parsed `address` property, so the fields are stated on the node. */
  function AmbassadorFields(e: AmbassadorEntry, rt: Runtime, unit: int): seq<string>
    requires AmbassadorExportable(e, rt)
  {
    var address := ParseBlob(rt, e.node.Get("address"));
    var triplers := Triplers(e.claims);
    [ JoinText(e.node.Get("external_id")),
      rt.dateText(e.node.Get("created_at")),
      JoinText(e.node.Get("first_name")),
      JoinText(e.node.Get("last_name")),
      JoinText(Prop(address, "address1")),
      JoinText(Prop(address, "zip")),
      JoinText(e.node.Get("email")),
      JoinText(e.node.Get("phone")),
      NatText(StatusCount(triplers, "unconfirmed")),
      NatText(StatusCount(triplers, "pending")),
      NatText(StatusCount(triplers, "confirmed")),
      rt.moneyText(SentToBank(e.payouts, unit)),
      rt.moneyText(Earned(e.payouts, unit)) ]
  }

  /** The body of the outer loop of `exportAmbassadors` up to the row: serialize the ambassador, count
      its triplers, total its payouts and list the fields. */
  method AmbassadorLine(entry: AmbassadorEntry, rt: Runtime, payoutPerTripler: int) returns (line: seq<string>)
    requires AmbassadorExportable(entry, rt)
    ensures line == AmbassadorFields(entry, rt, payoutPerTripler)
  {
    var ambassador := SerializeAmbassador(entry.node, rt);
    AmbassadorRecordColumns(FromNode(entry.node), rt);
    var unconfirmed, pending, confirmed := CountTriplerStatuses(entry.claims);
    var totalSentToBank, totalEarned := TotalPayouts(entry.payouts, payoutPerTripler);
    var address := Lookup(ambassador, "address");
    line := [
      JoinText(Lookup(ambassador, "external_id")),
      rt.dateText(entry.node.Get("created_at")),
      JoinText(Lookup(ambassador, "first_name")),
      JoinText(Lookup(ambassador, "last_name")),
      JoinText(Prop(address, "address1")),
      JoinText(Prop(address, "zip")),
      JoinText(Lookup(ambassador, "email")),
      JoinText(Lookup(ambassador, "phone")),
      NatText(unconfirmed),
      NatText(pending),
      NatText(confirmed),
      rt.moneyText(totalSentToBank),
      rt.moneyText(totalEarned)];
  }

  /** The rows' fields, one list per ambassador, in collection order. */
  function AmbassadorTable(c: seq<AmbassadorEntry>, rt: Runtime, unit: int): (t: seq<seq<string>>)
    requires forall i :: 0 <= i < |c| ==> AmbassadorExportable(c[i], rt)
    ensures |t| == |c|
  {
    if |c| == 0 then [] else AmbassadorTable(c[..|c| - 1], rt, unit) + [AmbassadorFields(c[|c| - 1], rt, unit)]
  }

  lemma AmbassadorTableSnoc(c: seq<AmbassadorEntry>, rt: Runtime, unit: int, x: nat)
    requires forall i :: 0 <= i < |c| ==> AmbassadorExportable(c[i], rt)
    requires x < |c|
    ensures AmbassadorTable(c[..x + 1], rt, unit) == AmbassadorTable(c[..x], rt, unit) + [AmbassadorFields(c[x], rt, unit)]
  {
    assert c[..x + 1][..x] == c[..x];
  }

  /** Each row of the table holds the fields of the ambassador at the same position. */
  lemma {:induction false} AmbassadorTableRows(c: seq<AmbassadorEntry>, rt: Runtime, unit: int)
    requires forall i :: 0 <= i < |c| ==> AmbassadorExportable(c[i], rt)
    ensures forall i :: 0 <= i < |c| ==> AmbassadorTable(c, rt, unit)[i] == AmbassadorFields(c[i], rt, unit)
  {
    forall i | 0 <= i < |c|
      ensures AmbassadorTable(c, rt, unit)[i] == AmbassadorFields(c[i], rt, unit)
    {
      AmbassadorTableRow(c, rt, unit, i);
    }
  }

  lemma {:induction false} AmbassadorTableRow(c: seq<AmbassadorEntry>, rt: Runtime, unit: int, i: nat)
    requires forall i :: 0 <= i < |c| ==> AmbassadorExportable(c[i], rt)
    requires i < |c|
    ensures AmbassadorTable(c, rt, unit)[i] == AmbassadorFields(c[i], rt, unit)
  {
    if i < |c| - 1 {
      var init := c[..|c| - 1];
      AmbassadorTableRow(init, rt, unit, i);
      assert init[i] == c[i];
    }
  }

  /** What `exportAmbassadors` appends: nothing for an empty collection, else the header and one row per ambassador. */
  function AmbassadorPieces(c: seq<AmbassadorEntry>, rt: Runtime, unit: int): seq<Piece>
    requires forall i :: 0 <= i < |c| ==> AmbassadorExportable(c[i], rt)
  {
    Report(AmbassadorHeader, AmbassadorTable(c, rt, unit))
  }

  /** `exportAmbassadors(neode)` over the pre-fetched collection. */
  method ExportAmbassadors(collection: seq<AmbassadorEntry>, rt: Runtime, payoutPerTripler: int) returns (text: string)
    requires forall i :: 0 <= i < |collection| ==> AmbassadorExportable(collection[i], rt)
    ensures text == Render(AmbassadorPieces(collection, rt, payoutPerTripler))
  {
    text := "";
    ghost var table: seq<seq<string>> := [];
    for x := 0 to |collection|
      invariant table == AmbassadorTable(collection[..x], rt, payoutPerTripler)
      invariant text == Render(Report(AmbassadorHeader, table))
    {
      var line := AmbassadorLine(collection[x], rt, payoutPerTripler);
      var header := AmbassadorHeader;
      AmbassadorTableSnoc(collection, rt, payoutPerTripler, x);
      if x == 0 {
        assert text == "" && table + [line] == [line];
        text := text + Join(",", header);
        assert text == PieceText(Header(header));
      }
      AppendRowText(text, line);
      text := text + "\n" + Join(",", line);
      if x == 0 {
        ReportFirst(header, line);
      } else {
        ReportNext(header, table, line);
      }
      table := table + [line];
    }
    assert collection[..|collection|] == collection;
  }

  /** An empty collection exports `''`; otherwise the header comes first, exactly once, followed by
      one row per ambassador in collection order: n + 1 pieces in all. */
  lemma AmbassadorReportShape(c: seq<AmbassadorEntry>, rt: Runtime, unit: int)
    requires forall i :: 0 <= i < |c| ==> AmbassadorExportable(c[i], rt)
    ensures c == [] ==> AmbassadorPieces(c, rt, unit) == []
    ensures |AmbassadorPieces(c, rt, unit)| == if c == [] then 0 else |c| + 1
    ensures HeaderCount(AmbassadorPieces(c, rt, unit)) == if c == [] then 0 else 1
    ensures c != [] ==> AmbassadorPieces(c, rt, unit)[0] == Header(AmbassadorHeader)
    ensures |RowsOf(AmbassadorPieces(c, rt, unit))| == |c|
    ensures forall i :: 0 <= i < |c| ==> RowsOf(AmbassadorPieces(c, rt, unit))[i] == AmbassadorFields(c[i], rt, unit)
  {
    ReportShape(AmbassadorHeader, AmbassadorTable(c, rt, unit));
    AmbassadorTableRows(c, rt, unit);
  }

  lemma HeaderHasNoNewline()
    ensures NoNewline(AmbassadorHeader)
  {
  }

  /** When no field holds a newline, the export of n ambassadors has n newlines: n + 1 lines. */
  lemma AmbassadorReportLines(c: seq<AmbassadorEntry>, rt: Runtime, unit: int)
    requires forall i :: 0 <= i < |c| ==> AmbassadorExportable(c[i], rt)
    requires forall i :: 0 <= i < |c| ==> NoNewline(AmbassadorFields(c[i], rt, unit))
    ensures Occurrences(Render(AmbassadorPieces(c, rt, unit)), '\n') == |c|
  {
    var table := AmbassadorTable(c, rt, unit);
    AmbassadorTableRows(c, rt, unit);
    assert forall i :: 0 <= i < |table| ==> NoNewline(table[i]);
    HeaderHasNoNewline();
    ReportLines(AmbassadorHeader, table);
  }

  /** An ambassador's row holds 13 columns, and when no field holds a comma, splitting the row at its
      commas gives the fields back. The three count columns are digits, so they never hold one. */
  lemma AmbassadorRowSplits(e: AmbassadorEntry, rt: Runtime, unit: int)
    requires AmbassadorExportable(e, rt)
    ensures var f := AmbassadorFields(e, rt, unit);
      && |f| == 13
      && ',' !in f[8] && ',' !in f[9] && ',' !in f[10]
      && ((forall i :: 0 <= i < |f| ==> ',' !in f[i]) ==> Split(Join(",", f), ',') == f)
  {
    var f := AmbassadorFields(e, rt, unit);
    if forall i :: 0 <= i < |f| ==> ',' !in f[i] {
      SplitJoin(',', f);
    }
  }

  /** Columns 9 to 13 of an ambassador's row: the three bucket counts of the claimed triplers, then
      the settled payouts and all payouts, each times the unit. */
  lemma AmbassadorColumnsCounted(e: AmbassadorEntry, rt: Runtime, unit: int)
    requires AmbassadorExportable(e, rt)
    ensures var f := AmbassadorFields(e, rt, unit);
      && f[8] == NatText(StatusCount(Triplers(e.claims), "unconfirmed"))
      && f[9] == NatText(StatusCount(Triplers(e.claims), "pending"))
      && f[10] == NatText(StatusCount(Triplers(e.claims), "confirmed"))
      && f[11] == rt.moneyText(StatusCount(e.payouts, "settled") * unit)
      && f[12] == rt.moneyText(|e.payouts| * unit)
  {
    TotalsAreMultiples(e.payouts, unit);
  }

  /** The `disbursed` and `settled` counters are not emitted: two ambassadors whose payouts agree in
      number and in how many are settled get the same row, whatever else their payouts say. */
  lemma DisbursedNotEmitted(e: AmbassadorEntry, payouts: seq<Node>, rt: Runtime, unit: int)
    requires AmbassadorExportable(e, rt)
    requires |payouts| == |e.payouts| && StatusCount(payouts, "settled") == StatusCount(e.payouts, "settled")
    ensures AmbassadorFields(e.(payouts := payouts), rt, unit) == AmbassadorFields(e, rt, unit)
  {
    TotalsAreMultiples(payouts, unit);
    TotalsAreMultiples(e.payouts, unit);
  }

  // ----- exportTriplers -----

  /** The tripler can be serialized and its `address` read (`tripler.address.address1` throws on `null`). */
  predicate TriplerExportable(t: Node, rt: Runtime) {
    TriplerParses(FromNode(t), rt) && Readable(ParseBlob(rt, t.Get("address")))
  }

  /** `serializeAmbassador(entry)` runs for every ambassador, and every claimed tripler is exportable. */
  predicate EntryExportable(e: AmbassadorEntry, rt: Runtime) {
    && AmbassadorParses(FromNode(e.node), rt)
    && forall j :: 0 <= j < |e.claims| ==> TriplerExportable(e.claims[j].tripler, rt)
  }

  predicate AllExportable(c: seq<AmbassadorEntry>, rt: Runtime) {
    forall i :: 0 <= i < |c| ==> EntryExportable(c[i], rt)
  }

  /** `tripler.triplees ? tripler.triplees[i] : ''`, as text in the row. */
  function TripleeCell(triplees: Value, i: nat): (cell: string)
    ensures !Truthy(triplees) ==> cell == ""
    ensures triplees.Arr? && i < |triplees.items| ==> cell == JoinText(triplees.items[i])
    ensures triplees.Arr? && i >= |triplees.items| ==> cell == ""
  {
    if Truthy(triplees) then JoinText(Index(triplees, i)) else ""
  }

  /** The ambassador's name column: `_displayName(first_name, last_name)` of the serialized ambassador,
      whose names are the node's own. */
  function AmbassadorName(e: AmbassadorEntry): Value {
    DisplayName(e.node.Get("first_name"), e.node.Get("last_name"))
  }

  /** The 12 fields of a tripler's row: the tripler's names, street and zip, status, the claim's
      `since`, the tripler's `confirmed_at`, the ambassador's name, the phone and the first three triplees. */
  function TriplerFields(name: Value, claim: Claim, rt: Runtime): seq<string>
    requires TriplerExportable(claim.tripler, rt)
  {
    var t := claim.tripler;
    var address := ParseBlob(rt, t.Get("address"));
    var triplees := ParseBlob(rt, t.Get("triplees"));
    [ JoinText(t.Get("first_name")),
      JoinText(t.Get("last_name")),
      JoinText(Prop(address, "address1")),
      JoinText(Prop(address, "zip")),
      JoinText(t.Get("status")),
      rt.dateText(claim.since),
      rt.dateText(t.Get("confirmed_at")),
      JoinText(name),
      JoinText(t.Get("phone")),
      TripleeCell(triplees, 0),
      TripleeCell(triplees, 1),
      TripleeCell(triplees, 2) ]
  }

  /** A tripler's row holds 12 columns, and when no field holds a comma, splitting the row at its
      commas gives the fields back. */
  lemma TriplerRowSplits(name: Value, claim: Claim, rt: Runtime)
    requires TriplerExportable(claim.tripler, rt)
    ensures var f := TriplerFields(name, claim, rt);
      && |f| == 12
      && ((forall i :: 0 <= i < |f| ==> ',' !in f[i]) ==> Split(Join(",", f), ',') == f)
  {
    var f := TriplerFields(name, claim, rt);
    if forall i :: 0 <= i < |f| ==> ',' !in f[i] {
      SplitJoin(',', f);
    }
  }

  /** The body of the inner loop of `exportTriplers` up to the row: serialize the tripler and list the fields. */
  method TriplerLine(ambassador: Record, relationship: Claim, rt: Runtime) returns (line: seq<string>)
    requires TriplerExportable(relationship.tripler, rt)
    ensures line == TriplerFields(DisplayName(Lookup(ambassador, "first_name"), Lookup(ambassador, "last_name")), relationship, rt)
  {
    var entry := relationship.tripler;
    var tripler := SerializeTripler(entry, rt);
    TriplerRecordColumns(FromNode(entry), rt);
    var address := Lookup(tripler, "address");
    var triplees := Lookup(tripler, "triplees");
    line := [
      JoinText(Lookup(tripler, "first_name")),
      JoinText(Lookup(tripler, "last_name")),
      JoinText(Prop(address, "address1")),
      JoinText(Prop(address, "zip")),
      JoinText(Lookup(tripler, "status")),
      rt.dateText(relationship.since),
      rt.dateText(entry.Get("confirmed_at")),
      JoinText(DisplayName(Lookup(ambassador, "first_name"), Lookup(ambassador, "last_name"))),
      JoinText(Lookup(tripler, "phone")),
      if Truthy(triplees) then JoinText(Index(triplees, 0)) else "",
      if Truthy(triplees) then JoinText(Index(triplees, 1)) else "",
      if Truthy(triplees) then JoinText(Index(triplees, 2)) else ""];
  }

  /** The rows of one ambassador's claims, in relationship order. */
  function ClaimRows(name: Value, claims: seq<Claim>, rt: Runtime): (rows: seq<seq<string>>)
    requires forall j :: 0 <= j < |claims| ==> TriplerExportable(claims[j].tripler, rt)
    ensures |rows| == |claims|
  {
    if |claims| == 0 then [] else ClaimRows(name, claims[..|claims| - 1], rt) + [TriplerFields(name, claims[|claims| - 1], rt)]
  }

  lemma ClaimRowsSnoc(name: Value, claims: seq<Claim>, rt: Runtime, y: nat)
    requires forall j :: 0 <= j < |claims| ==> TriplerExportable(claims[j].tripler, rt)
    requires y < |claims|
    ensures ClaimRows(name, claims[..y + 1], rt) == ClaimRows(name, claims[..y], rt) + [TriplerFields(name, claims[y], rt)]
  {
    assert claims[..y + 1][..y] == claims[..y];
  }

  /** Each row holds the fields of the claim at the same position. */
  lemma {:induction false} ClaimRowsRows(name: Value, claims: seq<Claim>, rt: Runtime)
    requires forall j :: 0 <= j < |claims| ==> TriplerExportable(claims[j].tripler, rt)
    ensures forall j :: 0 <= j < |claims| ==> ClaimRows(name, claims, rt)[j] == TriplerFields(name, claims[j], rt)
  {
    if |claims| > 0 {
      ClaimRowsRows(name, claims[..|claims| - 1], rt);
    }
  }

  /** What one ambassador contributes: nothing without claims, else a header and a row per claim. */
  function TriplerBlock(e: AmbassadorEntry, rt: Runtime): seq<Piece>
    requires EntryExportable(e, rt)
  {
    Report(TriplerHeader, ClaimRows(AmbassadorName(e), e.claims, rt))
  }

  /** What `exportTriplers` appends: the ambassadors' blocks in collection order. */
  function TriplerPieces(c: seq<AmbassadorEntry>, rt: Runtime): seq<Piece>
    requires AllExportable(c, rt)
  {
    if |c| == 0 then [] else TriplerPieces(c[..|c| - 1], rt) + TriplerBlock(c[|c| - 1], rt)
  }

  lemma TriplerPiecesSnoc(c: seq<AmbassadorEntry>, rt: Runtime, x: nat)
    requires AllExportable(c, rt)
    requires x < |c|
    ensures AllExportable(c[..x], rt)
    ensures TriplerPieces(c[..x + 1], rt) == TriplerPieces(c[..x], rt) + TriplerBlock(c[x], rt)
  {
    assert c[..x + 1][..x] == c[..x];
  }

  /** `(a + b) + c == a + (b + c)` on text. */
  lemma AppendAssociates(a: string, b: string, c: string)
    ensures a + b + c == a + (b + c)
  {
  }

  /** The inner loop of `exportTriplers`: for each claims relationship, the header when the inner
      index is 0, then a newline and the tripler's row. */
  method AppendClaims(text0: string, ambassador: Record, relationships: seq<Claim>, rt: Runtime) returns (text: string)
    requires forall j :: 0 <= j < |relationships| ==> TriplerExportable(relationships[j].tripler, rt)
    ensures text == text0 + Render(Report(TriplerHeader,
      ClaimRows(DisplayName(Lookup(ambassador, "first_name"), Lookup(ambassador, "last_name")), relationships, rt)))
  {
    ghost var name := DisplayName(Lookup(ambassador, "first_name"), Lookup(ambassador, "last_name"));
    text := text0;
    ghost var rows: seq<seq<string>> := [];
    assert text == text0 + Render(Report(TriplerHeader, rows));
    for x := 0 to |relationships|
      invariant rows == ClaimRows(name, relationships[..x], rt)
      invariant text == text0 + Render(Report(TriplerHeader, rows))
    {
      var line := TriplerLine(ambassador, relationships[x], rt);
      var header := TriplerHeader;
      ghost var before := Render(Report(header, rows));
      ClaimRowsSnoc(name, relationships, rt, x);
      if x == 0 {
        assert before == "" && rows + [line] == [line];
        text := text + Join(",", header);
      }
      AppendRowText(text, line);
      text := text + "\n" + Join(",", line);
      if x == 0 {
        ReportFirst(header, line);
        AppendAssociates(text0, PieceText(Header(header)), PieceText(Row(line)));
      } else {
        ReportNext(header, rows, line);
        AppendAssociates(text0, before, PieceText(Row(line)));
      }
      rows := rows + [line];
    }
    assert relationships[..|relationships|] == relationships;
  }

  /** `exportTriplers(neode)` over the pre-fetched collection, with the ambassador's name column
      computed by `_displayName` (see `TriplerTextAsWritten`). */
  method ExportTriplers(collection: seq<AmbassadorEntry>, rt: Runtime) returns (text: string)
    requires AllExportable(collection, rt)
    ensures text == Render(TriplerPieces(collection, rt))
  {
    text := "";
    for x := 0 to |collection|
      invariant text == Render(TriplerPieces(collection[..x], rt))
    {
      var entry := collection[x];
      var ambassador := SerializeAmbassador(entry.node, rt);
      AmbassadorRecordColumns(FromNode(entry.node), rt);
      var relationships := entry.claims;
      ghost var before := text;
      text := AppendClaims(text, ambassador, relationships, rt);
      TriplerPiecesSnoc(collection, rt, x);
      RenderAppend(TriplerPieces(collection[..x], rt), TriplerBlock(entry, rt));
    }
    assert collection[..|collection|] == collection;
  }

  /** Every claims relationship, over all ambassadors. */
  function TotalClaims(c: seq<AmbassadorEntry>): nat {
    if |c| == 0 then 0 else TotalClaims(c[..|c| - 1]) + |c[|c| - 1].claims|
  }

  /** How many ambassadors have at least one claims relationship. */
  function ClaimingAmbassadors(c: seq<AmbassadorEntry>): (n: nat)
    ensures n <= |c|
  {
    if |c| == 0 then 0 else ClaimingAmbassadors(c[..|c| - 1]) + (if c[|c| - 1].claims != [] then 1 else 0)
  }

  /** All tripler rows, ambassador by ambassador, each ambassador's in relationship order. */
  function TriplerTable(c: seq<AmbassadorEntry>, rt: Runtime): seq<seq<string>>
    requires AllExportable(c, rt)
  {
    if |c| == 0 then [] else TriplerTable(c[..|c| - 1], rt) + ClaimRows(AmbassadorName(c[|c| - 1]), c[|c| - 1].claims, rt)
  }

  /** The export holds one row per claims relationship, in order, and one header per ambassador
      with claims; an ambassador without claims contributes nothing. */
  lemma {:induction false} TriplerPiecesShape(c: seq<AmbassadorEntry>, rt: Runtime)
    requires AllExportable(c, rt)
    ensures RowsOf(TriplerPieces(c, rt)) == TriplerTable(c, rt)
    ensures |TriplerTable(c, rt)| == TotalClaims(c)
    ensures HeaderCount(TriplerPieces(c, rt)) == ClaimingAmbassadors(c)
  {
    if |c| > 0 {
      var init := c[..|c| - 1];
      var e := c[|c| - 1];
      TriplerPiecesShape(init, rt);
      ReportShape(TriplerHeader, ClaimRows(AmbassadorName(e), e.claims, rt));
      RowsOfAppend(TriplerPieces(init, rt), TriplerBlock(e, rt));
      HeaderCountAppend(TriplerPieces(init, rt), TriplerBlock(e, rt));
    }
  }

  /** Two one-row reports, one after the other: the second header follows the first row with no newline. */
  lemma TwoOneRowReports(header: seq<string>, r1: seq<string>, r2: seq<string>)
    ensures Render(Report(header, [r1]) + Report(header, [r2]))
         == Join(",", header) + "\n" + Join(",", r1) + Join(",", header) + "\n" + Join(",", r2)
  {
    RenderAppend(Report(header, [r1]), Report(header, [r2]));
    ReportFirst(header, r1);
    ReportFirst(header, r2);
    var h := PieceText(Header(header));
    AppendRowText(h, r1);
    var first := h + PieceText(Row(r1));
    AppendRowText(first + h, r2);
    AppendAssociates(first, h, PieceText(Row(r2)));
  }

  /** The header repeats: two ambassadors with one claim each yield the header, the first row, the
      header again glued to the end of that row with no newline, and the second row. */
  lemma RepeatedHeader(e1: AmbassadorEntry, e2: AmbassadorEntry, rt: Runtime)
    requires EntryExportable(e1, rt) && EntryExportable(e2, rt)
    requires |e1.claims| == 1 && |e2.claims| == 1
    ensures AllExportable([e1, e2], rt)
    ensures Render(TriplerPieces([e1, e2], rt))
         == Join(",", TriplerHeader) + "\n" + Join(",", TriplerFields(AmbassadorName(e1), e1.claims[0], rt))
          + Join(",", TriplerHeader) + "\n" + Join(",", TriplerFields(AmbassadorName(e2), e2.claims[0], rt))
  {
    var c := [e1, e2];
    assert c[..1] == [e1] && [e1][..0] == [];
    assert e1.claims[..0] == [] && e2.claims[..0] == [];
    var r1 := TriplerFields(AmbassadorName(e1), e1.claims[0], rt);
    var r2 := TriplerFields(AmbassadorName(e2), e2.claims[0], rt);
    assert ClaimRows(AmbassadorName(e1), e1.claims, rt) == [r1];
    assert ClaimRows(AmbassadorName(e2), e2.claims, rt) == [r2];
    assert TriplerPieces([e1], rt) == TriplerBlock(e1, rt);
    assert TriplerPieces(c, rt) == Report(TriplerHeader, [r1]) + Report(TriplerHeader, [r2]);
    TwoOneRowReports(TriplerHeader, r1, r2);
  }

  /** The report `exportTriplers` evidently intends: the header once, then every row. */
  function TriplerReport(c: seq<AmbassadorEntry>, rt: Runtime): seq<Piece>
    requires AllExportable(c, rt)
  {
    Report(TriplerHeader, TriplerTable(c, rt))
  }

  /** The intended report has the same rows in the same order, with exactly one header, first,
      when there is any claim and none otherwise. */
  lemma TriplerReportShape(c: seq<AmbassadorEntry>, rt: Runtime)
    requires AllExportable(c, rt)
    ensures RowsOf(TriplerReport(c, rt)) == RowsOf(TriplerPieces(c, rt))
    ensures HeaderCount(TriplerReport(c, rt)) == if TotalClaims(c) == 0 then 0 else 1
    ensures TotalClaims(c) > 0 ==> TriplerReport(c, rt)[0] == Header(TriplerHeader)
    ensures HeaderCount(TriplerReport(c, rt)) <= HeaderCount(TriplerPieces(c, rt))
  {
    TriplerPiecesShape(c, rt);
    ReportShape(TriplerHeader, TriplerTable(c, rt));
    ClaimingWhenClaims(c);
  }

  /** Some ambassador has a claim exactly when the total is positive. */
  lemma {:induction false} ClaimingWhenClaims(c: seq<AmbassadorEntry>)
    ensures ClaimingAmbassadors(c) == 0 <==> TotalClaims(c) == 0
  {
    if |c| > 0 {
      ClaimingWhenClaims(c[..|c| - 1]);
    }
  }

  /** The name column as the source writes it: `serializeName` is imported but not exported by
      `serializers.js`, so the binding is `undefined` and calling it throws a TypeError (`None`). */
  function NameColumnAsWritten(first: Value, last: Value): (name: Option<Value>)
    ensures name == None
  {
    if "serializeName" in SerializerExports then Some(DisplayName(first, last)) else None
  }

  /** `exportTriplers` as written: `None` when it throws. Ambassadors without claims never reach the
      name column; the first claim does, and the call there always throws (`NameColumnAsWritten`),
      so no row is ever produced. */
  function TriplerTextAsWritten(c: seq<AmbassadorEntry>, rt: Runtime): (t: Option<string>)
    requires AllExportable(c, rt)
    ensures t.Some? <==> TotalClaims(c) == 0
    ensures t.Some? ==> t.value == ""
  {
    if |c| == 0 then Some("")
    else
      var prev := TriplerTextAsWritten(c[..|c| - 1], rt);
      var e := c[|c| - 1];
      if prev.None? then None
      else if e.claims == [] then prev
      else match NameColumnAsWritten(e.node.Get("first_name"), e.node.Get("last_name"))
        case None => None
  }

  /** As written, the export throws as soon as there is a claim, and otherwise yields the empty text
      that the corrected export yields too. */
  lemma {:induction false} TriplerTextAsWrittenThrows(c: seq<AmbassadorEntry>, rt: Runtime)
    requires AllExportable(c, rt)
    ensures TriplerTextAsWritten(c, rt).Some? <==> TotalClaims(c) == 0
    ensures TotalClaims(c) == 0 ==> TriplerTextAsWritten(c, rt) == Some(Render(TriplerPieces(c, rt))) == Some("")
  {
    if |c| > 0 {
      var init := c[..|c| - 1];
      var e := c[|c| - 1];
      TriplerTextAsWrittenThrows(init, rt);
      assert "serializeName" !in SerializerExports;
      if e.claims == [] {
        assert TriplerBlock(e, rt) == [];
        assert TriplerPieces(c, rt) == TriplerPieces(init, rt) + [];
        assert TriplerPieces(init, rt) + [] == TriplerPieces(init, rt);
        assert TriplerTextAsWritten(c, rt) == TriplerTextAsWritten(init, rt);
        assert TotalClaims(c) == TotalClaims(init);
      }
    }
  }
}
