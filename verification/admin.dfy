/** The admin routes of admin.js over the `packages` table: register,
    update-status, the PUT that replaces whole sections, and delete. The table
    is a map from tracking number to row; each handler is one atomic change
    of that map (the transaction of update-status included). The pure
    `...Outcome` functions say what each handler does to the table and what it
    answers; the methods of PackageStore perform it step by step, and the PUT
    handler builds its UPDATE statement with numbered placeholders and sends
    it to a model of the database. */
module Admin {
  import opened Common

  // ---------------------------------------------------------------------
  // Rows of the packages table

  /** The JSON objects kept in the `sender` and `receiver` columns. */
  datatype Person = Person(name: string, email: string, phone: string, address: string)

  /** The JSON object kept in the `shipmentinfo` column. */
  datatype ShipmentInfo = ShipmentInfo(origin: string, destination: string, weight: real, eta: string)

  /** One element of the JSON array in the `history` column. */
  datatype HistoryEntry = HistoryEntry(status: string, location: string, description: string, timestamp: string)

  /** A row of `packages`; None is SQL NULL. */
  datatype Package = Package(
    trackingNumber: string,
    sender: Option<Person>,
    receiver: Option<Person>,
    shipmentInfo: Option<ShipmentInfo>,
    status: Option<string>,
    location: Option<string>,
    history: Option<seq<HistoryEntry>>)

  /** The statuses update-status accepts. */
  const Statuses: seq<string> := ["pending", "in-transit", "out-for-delivery", "delivered", "on-hold", "cancelled"]

  /** No status is the empty string, so a stored status is always truthy. */
  lemma EmptyIsNoStatus()
    ensures "" !in Statuses
  {
    assert forall i :: 0 <= i < |Statuses| ==> |Statuses[i]| >= 7;
  }

  const RegisteredStatus := "Package Registered"
  const RegisteredDescription := "Shipment information received and registered."

  /** A row as these handlers leave it: filed under its own tracking number,
      with a status update-status accepts, a non-empty location and a
      non-empty history. */
  predicate Stored(tn: string, p: Package)
  {
    && p.trackingNumber == tn
    && p.status.Some? && p.status.value in Statuses
    && p.location.Some? && p.location.value != ""
    && p.history.Some? && |p.history.value| >= 1
  }

  ghost predicate ValidTable(table: map<string, Package>)
  {
    forall tn :: tn in table ==> Stored(tn, table[tn])
  }

  // ---------------------------------------------------------------------
  // Request bodies and their validation

  /** The fields of a request body the schemas check. A required string that
      is missing is the empty string here (the schemas refuse both). */
  datatype RegisterBody = RegisterBody(
    sender: Person, receiver: Person,
    origin: string, destination: string, weight: real, eta: string)

  datatype StatusBody = StatusBody(trackingNumber: string, newStatus: string, location: string, description: string)

  /** The PUT body: each section may be left out. */
  datatype UpdateBody = UpdateBody(sender: Option<Person>, receiver: Option<Person>, shipmentInfo: Option<ShipmentInfo>)

  /** packagePersonSchema: four required, non-empty strings. */
  predicate ValidPerson(p: Person)
  {
    p.name != "" && p.email != "" && p.phone != "" && p.address != ""
  }

  /** packageShipmentInfoSchema: required strings and a positive weight. */
  predicate ValidShipmentInfo(s: ShipmentInfo)
  {
    s.origin != "" && s.destination != "" && s.weight > 0.0 && s.eta != ""
  }

  /** registerPackageSchema: the same checks over the flattened fields. */
  predicate ValidRegisterBody(b: RegisterBody)
    ensures ValidRegisterBody(b) <==>
      ValidUpdateBody(UpdateBody(Some(b.sender), Some(b.receiver),
                                 Some(ShipmentInfo(b.origin, b.destination, b.weight, b.eta))))
  {
    && ValidPerson(b.sender) && ValidPerson(b.receiver)
    && ValidShipmentInfo(ShipmentInfo(b.origin, b.destination, b.weight, b.eta))
  }

  /** updateStatusSchema: four required strings, the status from the list. */
  predicate ValidStatusBody(b: StatusBody)
    ensures ValidStatusBody(b) ==> b.trackingNumber != "" && b.newStatus != "" && b.location != ""
  {
    EmptyIsNoStatus();
    && b.trackingNumber != "" && b.newStatus in Statuses
    && b.location != "" && b.description != ""
  }

  /** updatePackageSchema: every section present is itself valid. */
  predicate ValidUpdateBody(b: UpdateBody)
    ensures b.sender.None? && b.receiver.None? && b.shipmentInfo.None? ==> ValidUpdateBody(b)
  {
    && (b.sender.Some? ==> ValidPerson(b.sender.value))
    && (b.receiver.Some? ==> ValidPerson(b.receiver.value))
    && (b.shipmentInfo.Some? ==> ValidShipmentInfo(b.shipmentInfo.value))
  }

  // ---------------------------------------------------------------------
  // Replies

  /** The HTTP replies of the handlers. `Invalid` is the 400 the validation
      middleware sends with the schema's own message. */
  datatype Reply =
    | Created(trackingNumber: string)   // 201, "Package registered successfully."
    | Ok(message: string)               // 200
    | Invalid                           // 400, the schema's message
    | BadRequest(message: string)       // 400
    | NotFound                          // 404, "Package not found."
    | ServerError(message: string)      // 500
  {
    function Code(): nat
    {
      match this
      case Created(_) => 201
      case Ok(_) => 200
      case Invalid => 400
      case BadRequest(_) => 400
      case NotFound => 404
      case ServerError(_) => 500
    }
  }

  const SaveError := "Error saving package to the database."
  const NoFields := "No updatable fields provided."
  const Updated := "Package updated successfully."
  const UpdateError := "Error updating package details."
  const Deleted := "Package deleted."

  function StatusUpdated(tn: string): string
  {
    "Package " + tn + " status updated successfully."
  }

  /** A handler's reply together with the table it leaves. */
  datatype Outcome = Outcome(reply: Reply, table: map<string, Package>)

  // ---------------------------------------------------------------------
  // Register

  /** A character of nanoid's default alphabet. */
  predicate IsNanoidChar(c: char)
  {
    IsAsciiLetterOrDigit(c) || c == '_' || c == '-'
  }

  /** What `nanoid(10)` may return. */
  predicate IsNanoid(id: string)
  {
    |id| == 10 && forall i :: 0 <= i < |id| ==> IsNanoidChar(id[i])
  }

  /** `SC${nanoid(10).toUpperCase()}`. */
  function TrackingNumberFor(id: string): (tn: string)
    ensures |tn| == |id| + 2 && tn[..2] == "SC"
    ensures forall i :: 0 <= i < |id| ==> tn[i + 2] == UpperChar(id[i])
  {
    "SC" + ToUpper(id)
  }

  /** A tracking number from a nanoid id is "SC" and twelve characters long;
      after the prefix come the id's characters, upper-cased, so none is a
      lower-case letter and each is a letter, a digit, '_' or '-'. */
  lemma TrackingNumberShape(id: string)
    requires IsNanoid(id)
    ensures var tn := TrackingNumberFor(id);
      && |tn| == 12 && tn[..2] == "SC"
      && (forall i :: 2 <= i < 12 ==> IsNanoidChar(tn[i]) && !('a' <= tn[i] <= 'z'))
      && (forall i :: 2 <= i < 12 ==> LowerChar(tn[i]) == LowerChar(id[i - 2]))
  {
    var tn := TrackingNumberFor(id);
    forall i | 2 <= i < 12
      ensures IsNanoidChar(tn[i]) && !('a' <= tn[i] <= 'z')
      ensures LowerChar(tn[i]) == LowerChar(id[i - 2])
    {
      assert tn[i] == UpperChar(id[i - 2]);
    }
  }

  /** The row register inserts: the body's sections as given, status
      "pending", the origin as location, and one "Package Registered" entry. */
  function NewPackage(b: RegisterBody, tn: string, now: string): (p: Package)
    ensures p.trackingNumber == tn
    ensures p.sender == Some(b.sender) && p.receiver == Some(b.receiver)
    ensures p.shipmentInfo == Some(ShipmentInfo(b.origin, b.destination, b.weight, b.eta))
    ensures p.status == Some("pending") && p.location == Some(b.origin)
    ensures p.history == Some([HistoryEntry(RegisteredStatus, b.origin, RegisteredDescription, now)])
  {
    Package(tn, Some(b.sender), Some(b.receiver),
            Some(ShipmentInfo(b.origin, b.destination, b.weight, b.eta)),
            Some("pending"), Some(b.origin),
            Some([HistoryEntry(RegisteredStatus, b.origin, RegisteredDescription, now)]))
  }

  /** POST /register-package. The tracking number is assumed to be the
      table's key, so an INSERT under a number already present fails in the
      database and is answered 500. */
  function RegisterOutcome(table: map<string, Package>, b: RegisterBody, id: string, now: string): (o: Outcome)
    ensures o.reply.Created? <==> ValidRegisterBody(b) && TrackingNumberFor(id) !in table
    ensures !o.reply.Created? ==> o.table == table
    ensures !ValidRegisterBody(b) ==> o.reply == Invalid
    ensures ValidRegisterBody(b) && TrackingNumberFor(id) in table ==> o.reply == ServerError(SaveError)
    ensures o.reply.Created? ==>
      o.table == table[TrackingNumberFor(id) := NewPackage(b, TrackingNumberFor(id), now)]
    ensures o.reply.Created? ==>
      var tn := TrackingNumberFor(id);
      && o.reply.trackingNumber == tn
      && o.table.Keys == table.Keys + {tn}
      && (forall k :: k in table ==> o.table[k] == table[k])
      && o.table[tn].status == Some("pending")
      && o.table[tn].location == Some(b.origin)
      && o.table[tn].history == Some([HistoryEntry(RegisteredStatus, b.origin, RegisteredDescription, now)])
  {
    if !ValidRegisterBody(b) then Outcome(Invalid, table)
    else
      var tn := TrackingNumberFor(id);
      if tn in table then Outcome(ServerError(SaveError), table)
      else Outcome(Created(tn), table[tn := NewPackage(b, tn, now)])
  }

  // ---------------------------------------------------------------------
  // Update status

  /** `history || $3::jsonb` with a one-element array: the entry is appended;
      concatenation with SQL NULL stays NULL. */
  function AppendHistory(h: Option<seq<HistoryEntry>>, e: HistoryEntry): (r: Option<seq<HistoryEntry>>)
    ensures r.Some? <==> h.Some?
    ensures r.Some? ==> |r.value| == |h.value| + 1 && r.value[..|h.value|] == h.value && r.value[|h.value|] == e
  {
    if h.Some? then Some(h.value + [e]) else None
  }

  /** POST /update-status: one UPDATE inside a transaction, rolled back when
      no row matches. */
  function UpdateStatusOutcome(table: map<string, Package>, b: StatusBody, now: string): (o: Outcome)
    ensures o.reply.Ok? <==> ValidStatusBody(b) && b.trackingNumber in table
    ensures !o.reply.Ok? ==> o.table == table
    ensures !ValidStatusBody(b) ==> o.reply == Invalid
    ensures ValidStatusBody(b) && b.trackingNumber !in table ==> o.reply == NotFound
    ensures o.reply.Ok? ==>
      var tn := b.trackingNumber;
      && o.reply.message == StatusUpdated(tn)
      && o.table.Keys == table.Keys
      && (forall k :: k in table && k != tn ==> o.table[k] == table[k])
      && o.table[tn] == table[tn].(status := Some(b.newStatus), location := Some(b.location),
                                   history := AppendHistory(table[tn].history, HistoryEntry(b.newStatus, b.location, b.description, now)))
  {
    if !ValidStatusBody(b) then Outcome(Invalid, table)
    else
      var tn := b.trackingNumber;
      var entry := HistoryEntry(b.newStatus, b.location, b.description, now);
      if tn !in table then Outcome(NotFound, table)
      else
        var p := table[tn];
        Outcome(Ok(StatusUpdated(tn)),
                table[tn := p.(status := Some(b.newStatus), location := Some(b.location),
                               history := AppendHistory(p.history, entry))])
  }

  /** A successful status update adds exactly one history entry, at the end,
      describing the update, and the row's status and location are those of
      that entry. */
  lemma UpdateStatusAppendsOne(table: map<string, Package>, b: StatusBody, now: string)
    requires ValidTable(table)
    requires UpdateStatusOutcome(table, b, now).reply.Ok?
    ensures var tn := b.trackingNumber;
      var before := table[tn].history.value;
      var after := UpdateStatusOutcome(table, b, now).table[tn];
      && after.history.Some?
      && |after.history.value| == |before| + 1
      && after.history.value[..|before|] == before
      && var last := after.history.value[|before|];
        && after.status == Some(last.status)
        && after.location == Some(last.location)
        && last.timestamp == now
  {
  }

  // ---------------------------------------------------------------------
  // The PUT statement

  /** The JSON columns the PUT handler may set, in the order it tests them. */
  datatype Column = SenderColumn | ReceiverColumn | ShipmentInfoColumn
  {
    function Name(): string
    {
      match this
      case SenderColumn => "sender"
      case ReceiverColumn => "receiver"
      case ShipmentInfoColumn => "shipmentinfo"
    }
  }

  /** A parameter bound to a placeholder: the JSON text of a section, or the
      tracking number. */
  datatype SqlValue = PersonJson(person: Person) | ShipmentJson(info: ShipmentInfo) | Text(text: string)

  /** One SET part, `<column> = $<placeholder>::jsonb`. */
  datatype Assignment = Assignment(column: Column, placeholder: nat)

  function RenderAssignment(a: Assignment): string
  {
    a.column.Name() + " = $" + NatToString(a.placeholder) + "::jsonb"
  }

  function RenderAll(parts: seq<Assignment>): (r: seq<string>)
    ensures |r| == |parts| && forall j :: 0 <= j < |parts| ==> r[j] == RenderAssignment(parts[j])
  {
    if parts == [] then [] else [RenderAssignment(parts[0])] + RenderAll(parts[1..])
  }

  /** The sections a PUT body supplies, in the order sender, receiver,
      shipmentinfo. */
  function Supplied(b: UpdateBody): (cols: seq<Column>)
    ensures |cols| <= 3
    ensures SenderColumn in cols <==> b.sender.Some?
    ensures ReceiverColumn in cols <==> b.receiver.Some?
    ensures ShipmentInfoColumn in cols <==> b.shipmentInfo.Some?
    ensures forall i, j :: 0 <= i < j < |cols| ==>
      cols[i] != cols[j] && (cols[i] == SenderColumn || cols[j] == ShipmentInfoColumn)
  {
    (if b.sender.Some? then [SenderColumn] else [])
    + (if b.receiver.Some? then [ReceiverColumn] else [])
    + (if b.shipmentInfo.Some? then [ShipmentInfoColumn] else [])
  }

  /** The JSON text the handler binds for a supplied column. */
  function ColumnValue(b: UpdateBody, col: Column): SqlValue
    requires col in Supplied(b)
  {
    match col
    case SenderColumn => PersonJson(b.sender.value)
    case ReceiverColumn => PersonJson(b.receiver.value)
    case ShipmentInfoColumn => ShipmentJson(b.shipmentInfo.value)
  }

  /** The SET-clause builder: one part per supplied section, in the order
      sender, receiver, shipmentinfo, with placeholders numbered $1, $2, ...
      in step with `values`, and `idx` the next free number. */
  method BuildUpdate(b: UpdateBody) returns (parts: seq<Assignment>, values: seq<SqlValue>, idx: nat)
    ensures |parts| == |values| == |Supplied(b)| && idx == |parts| + 1
    ensures forall j :: 0 <= j < |parts| ==>
      && parts[j] == Assignment(Supplied(b)[j], j + 1)
      && values[j] == ColumnValue(b, Supplied(b)[j])
  {
    parts, values, idx := [], [], 1;
    if b.sender.Some? {
      parts := parts + [Assignment(SenderColumn, idx)];
      values := values + [PersonJson(b.sender.value)];
      idx := idx + 1;
    }
    if b.receiver.Some? {
      parts := parts + [Assignment(ReceiverColumn, idx)];
      values := values + [PersonJson(b.receiver.value)];
      idx := idx + 1;
    }
    if b.shipmentInfo.Some? {
      parts := parts + [Assignment(ShipmentInfoColumn, idx)];
      values := values + [ShipmentJson(b.shipmentInfo.value)];
      idx := idx + 1;
    }
  }

  /** With every section supplied, the parts BuildUpdate returns render as
      the SET clauses of the three columns from $1, $2 and $3, and the WHERE
      clause uses $4. */
  lemma {:induction false} FullUpdateSetParts(b: UpdateBody, parts: seq<Assignment>)
    requires b.sender.Some? && b.receiver.Some? && b.shipmentInfo.Some?
    requires |parts| == |Supplied(b)|
    requires forall j :: 0 <= j < |parts| ==> parts[j] == Assignment(Supplied(b)[j], j + 1)
    ensures RenderAll(parts) == ["sender = $1::jsonb", "receiver = $2::jsonb", "shipmentinfo = $3::jsonb"]
    ensures NatToString(|parts| + 1) == "4"
  {
    assert Supplied(b) == [SenderColumn, ReceiverColumn, ShipmentInfoColumn];
    assert parts == [Assignment(SenderColumn, 1), Assignment(ReceiverColumn, 2), Assignment(ShipmentInfoColumn, 3)];
    assert NatToString(4) == "4";
    RenderedSetParts();
  }

  /** The SET clause of each column at its place in a full update. */
  lemma RenderedSetParts()
    ensures RenderAssignment(Assignment(SenderColumn, 1)) == "sender = $1::jsonb"
    ensures RenderAssignment(Assignment(ReceiverColumn, 2)) == "receiver = $2::jsonb"
    ensures RenderAssignment(Assignment(ShipmentInfoColumn, 3)) == "shipmentinfo = $3::jsonb"
  {
    assert NatToString(1) == "1" && NatToString(2) == "2" && NatToString(3) == "3";
  }

  /** The database setting one column from one bound parameter; a JSON text
      of the wrong kind (which BuildUpdate never binds) is an error. */
  function Assign(p: Package, col: Column, v: SqlValue): Option<Package>
  {
    match (col, v)
    case (SenderColumn, PersonJson(x)) => Some(p.(sender := Some(x)))
    case (ReceiverColumn, PersonJson(x)) => Some(p.(receiver := Some(x)))
    case (ShipmentInfoColumn, ShipmentJson(x)) => Some(p.(shipmentInfo := Some(x)))
    case _ => None
  }

  /** The database applying the SET parts to one row, each from the
      parameter its placeholder names; an unbound placeholder is an error. */
  function ApplySet(p: Package, parts: seq<Assignment>, values: seq<SqlValue>): Option<Package>
    decreases |parts|
  {
    if parts == [] then Some(p)
    else
      var a := parts[0];
      if !(1 <= a.placeholder <= |values|) then None
      else
        match Assign(p, a.column, values[a.placeholder - 1])
        case None => None
        case Some(q) => ApplySet(q, parts[1..], values)
  }

  /** What the database does with the UPDATE statement and its parameters:
      an error (None) when the parameters do not match the placeholders,
      otherwise the new table and the number of rows changed. */
  datatype UpdateResult = UpdateResult(table: map<string, Package>, rowCount: nat)

  function RunUpdate(table: map<string, Package>, parts: seq<Assignment>, whereParam: nat, values: seq<SqlValue>): (r: Option<UpdateResult>)
    ensures r.Some? ==> 1 <= whereParam == |values| && values[whereParam - 1].Text?
    ensures r.Some? ==> var tn := values[whereParam - 1].text;
      && r.value.rowCount == (if tn in table then 1 else 0)
      && r.value.table.Keys == table.Keys
      && (forall k :: k in table && k != tn ==> r.value.table[k] == table[k])
  {
    if |values| != whereParam || !(1 <= whereParam) || !values[whereParam - 1].Text? then None
    else
      var tn := values[whereParam - 1].text;
      if tn !in table then Some(UpdateResult(table, 0))
      else
        match ApplySet(table[tn], parts, values)
        case None => None
        case Some(p) => Some(UpdateResult(table[tn := p], 1))
  }

  /** Only the supplied sections, each replaced whole. */
  function Replace(p: Package, b: UpdateBody): (q: Package)
    ensures q.trackingNumber == p.trackingNumber && q.status == p.status
    ensures q.location == p.location && q.history == p.history
  {
    p.(sender := if b.sender.Some? then b.sender else p.sender,
       receiver := if b.receiver.Some? then b.receiver else p.receiver,
       shipmentInfo := if b.shipmentInfo.Some? then b.shipmentInfo else p.shipmentInfo)
  }

  /** PUT /admin/package/:trackingNumber, as intended: 400 for an invalid or
      empty body, 404 for an unknown number, otherwise the supplied sections
      replaced and nothing else. */
  function UpdateDetailsOutcome(table: map<string, Package>, tn: string, b: UpdateBody): (o: Outcome)
    ensures o.reply == Ok(Updated) <==> ValidUpdateBody(b) && Supplied(b) != [] && tn in table
    ensures o.reply != Ok(Updated) ==> o.table == table
    ensures !ValidUpdateBody(b) ==> o.reply == Invalid
    ensures ValidUpdateBody(b) && Supplied(b) == [] ==> o.reply == BadRequest(NoFields)
    ensures ValidUpdateBody(b) && Supplied(b) != [] && tn !in table ==> o.reply == NotFound
    ensures o.reply == Ok(Updated) ==>
      && o.table.Keys == table.Keys
      && (forall k :: k in table && k != tn ==> o.table[k] == table[k])
      && o.table[tn] == Replace(table[tn], b)
  {
    if !ValidUpdateBody(b) then Outcome(Invalid, table)
    else if Supplied(b) == [] then Outcome(BadRequest(NoFields), table)
    else if tn !in table then Outcome(NotFound, table)
    else Outcome(Ok(Updated), table[tn := Replace(table[tn], b)])
  }

  /** The statement BuildUpdate numbers, with the tracking number bound last,
      does to the row exactly what UpdateDetailsOutcome says: the placeholder
      of every SET part names the parameter of its own section, and the WHERE
      placeholder names the tracking number. */
  lemma {:induction false} RunBuiltUpdate(table: map<string, Package>, tn: string, b: UpdateBody,
                                          parts: seq<Assignment>, values: seq<SqlValue>)
    requires |parts| == |values| == |Supplied(b)|
    requires forall j :: 0 <= j < |parts| ==>
      parts[j] == Assignment(Supplied(b)[j], j + 1) && values[j] == ColumnValue(b, Supplied(b)[j])
    ensures RunUpdate(table, parts, |parts| + 1, values + [Text(tn)])
         == Some(if tn in table then UpdateResult(table[tn := Replace(table[tn], b)], 1) else UpdateResult(table, 0))
  {
    var all := values + [Text(tn)];
    assert all[|parts|] == Text(tn);
    if tn in table {
      ApplySupplied(table[tn], b, parts, all);
    }
  }

  /** Applying the built SET parts replaces exactly the supplied sections. */
  lemma {:induction false} ApplySupplied(p: Package, b: UpdateBody, parts: seq<Assignment>, all: seq<SqlValue>)
    requires |parts| == |Supplied(b)| < |all|
    requires forall j :: 0 <= j < |parts| ==>
      parts[j] == Assignment(Supplied(b)[j], j + 1) && all[j] == ColumnValue(b, Supplied(b)[j])
    ensures ApplySet(p, parts, all) == Some(Replace(p, b))
  {
    ApplySuffix(p, b, parts, all, 0);
    assert parts[0..] == parts;
    assert Supplied(b)[0..] == Supplied(b);
    SetSuppliedIsReplace(p, b);
  }

  /** A supplied section, set from the body. */
  function SetColumn(p: Package, b: UpdateBody, col: Column): Package
  {
    match col
    case SenderColumn => p.(sender := b.sender)
    case ReceiverColumn => p.(receiver := b.receiver)
    case ShipmentInfoColumn => p.(shipmentInfo := b.shipmentInfo)
  }

  function SetColumns(p: Package, b: UpdateBody, cols: seq<Column>): Package
    decreases |cols|
  {
    if cols == [] then p else SetColumns(SetColumn(p, b, cols[0]), b, cols[1..])
  }

  lemma {:induction false} ApplySuffix(p: Package, b: UpdateBody, parts: seq<Assignment>, all: seq<SqlValue>, k: nat)
    requires |parts| == |Supplied(b)| < |all| && k <= |parts|
    requires forall j :: 0 <= j < |parts| ==>
      parts[j] == Assignment(Supplied(b)[j], j + 1) && all[j] == ColumnValue(b, Supplied(b)[j])
    ensures ApplySet(p, parts[k..], all) == Some(SetColumns(p, b, Supplied(b)[k..]))
    decreases |parts| - k
  {
    if k < |parts| {
      var cols := Supplied(b);
      assert parts[k..][0] == parts[k] && parts[k..][1..] == parts[k + 1..];
      assert cols[k..][0] == cols[k] && cols[k..][1..] == cols[k + 1..];
      AssignSupplied(p, b, cols[k]);
      ApplySuffix(SetColumn(p, b, cols[k]), b, parts, all, k + 1);
    }
  }

  /** The database sets a supplied column from the JSON the handler binds for it. */
  lemma AssignSupplied(p: Package, b: UpdateBody, col: Column)
    requires col in Supplied(b)
    ensures Assign(p, col, ColumnValue(b, col)) == Some(SetColumn(p, b, col))
  {
  }

  lemma SetSuppliedIsReplace(p: Package, b: UpdateBody)
    ensures SetColumns(p, b, Supplied(b)) == Replace(p, b)
  {
    SetColumnsFields(p, b, Supplied(b));
  }

  /** Setting a list of columns sets exactly the columns in the list. */
  lemma {:induction false} SetColumnsFields(p: Package, b: UpdateBody, cols: seq<Column>)
    ensures var q := SetColumns(p, b, cols);
      && q.sender == (if SenderColumn in cols then b.sender else p.sender)
      && q.receiver == (if ReceiverColumn in cols then b.receiver else p.receiver)
      && q.shipmentInfo == (if ShipmentInfoColumn in cols then b.shipmentInfo else p.shipmentInfo)
      && q.(sender := p.sender, receiver := p.receiver, shipmentInfo := p.shipmentInfo) == p
    decreases |cols|
  {
    if cols != [] {
      SetColumnsFields(SetColumn(p, b, cols[0]), b, cols[1..]);
      assert cols == [cols[0]] + cols[1..];
    }
  }

  // ---------------------------------------------------------------------
  // Delete

  /** DELETE /admin/package/:trackingNumber. */
  function DeleteOutcome(table: map<string, Package>, tn: string): (o: Outcome)
    ensures o.reply == Ok(Deleted) <==> tn in table
    ensures tn !in table ==> o == Outcome(NotFound, table)
    ensures tn in table ==> o.table.Keys == table.Keys - {tn}
    ensures forall k :: k in o.table ==> k in table && o.table[k] == table[k]
  {
    if tn !in table then Outcome(NotFound, table)
    else Outcome(Ok(Deleted), table - {tn})
  }

  /** Registering a package and then deleting it leaves the table as it was. */
  lemma RegisterThenDelete(table: map<string, Package>, b: RegisterBody, id: string, now: string)
    requires RegisterOutcome(table, b, id, now).reply.Created?
    ensures var r := RegisterOutcome(table, b, id, now);
      DeleteOutcome(r.table, r.reply.trackingNumber) == Outcome(Ok(Deleted), table)
  {
    var r := RegisterOutcome(table, b, id, now);
    var d := DeleteOutcome(r.table, r.reply.trackingNumber);
    assert d.table == table;
  }

  /** Every handler keeps every row in the shape register gives it. */
  lemma RegisterKeepsTableValid(table: map<string, Package>, b: RegisterBody, id: string, now: string)
    requires ValidTable(table)
    ensures ValidTable(RegisterOutcome(table, b, id, now).table)
  {
  }

  lemma UpdateStatusKeepsTableValid(table: map<string, Package>, b: StatusBody, now: string)
    requires ValidTable(table)
    ensures ValidTable(UpdateStatusOutcome(table, b, now).table)
  {
  }

  lemma UpdateDetailsKeepsTableValid(table: map<string, Package>, tn: string, b: UpdateBody)
    requires ValidTable(table)
    ensures ValidTable(UpdateDetailsOutcome(table, tn, b).table)
  {
  }

  lemma DeleteKeepsTableValid(table: map<string, Package>, tn: string)
    requires ValidTable(table)
    ensures ValidTable(DeleteOutcome(table, tn).table)
  {
  }

  // ---------------------------------------------------------------------
  // The table, changed in place

  /** The `packages` table as the handlers see it. */
  class PackageStore {
    var table: map<string, Package>

    ghost predicate Valid()
      reads this
    {
      ValidTable(table)
    }

    constructor()
      ensures table == map[] && Valid()
    {
      table := map[];
    }

    /** The register handler: builds the row, then inserts it. */
    method Register(b: RegisterBody, id: string, now: string) returns (reply: Reply)
      requires Valid()
      modifies this
      ensures var o := RegisterOutcome(old(table), b, id, now); reply == o.reply && table == o.table
      ensures Valid()
    {
      if !ValidRegisterBody(b) {
        return Invalid;
      }
      var tn := TrackingNumberFor(id);
      var row := NewPackage(b, tn, now);
      if tn in table {
        return ServerError(SaveError);
      }
      table := table[tn := row];
      reply := Created(tn);
    }

    /** The update-status handler: the UPDATE appends the entry and sets
        status and location; no matching row rolls the transaction back. */
    method UpdateStatus(b: StatusBody, now: string) returns (reply: Reply)
      requires Valid()
      modifies this
      ensures var o := UpdateStatusOutcome(old(table), b, now); reply == o.reply && table == o.table
      ensures Valid()
    {
      if !ValidStatusBody(b) {
        return Invalid;
      }
      var tn := b.trackingNumber;
      var entry := HistoryEntry(b.newStatus, b.location, b.description, now);
      if tn !in table {
        return NotFound;
      }
      var row := table[tn];
      table := table[tn := row.(status := Some(b.newStatus), location := Some(b.location),
                                history := AppendHistory(row.history, entry))];
      reply := Ok(StatusUpdated(tn));
    }

    /** The PUT handler: builds the statement, binds the tracking number to
        the last placeholder and runs it. */
    method UpdateDetails(tn: string, b: UpdateBody) returns (reply: Reply)
      requires Valid()
      modifies this
      ensures var o := UpdateDetailsOutcome(old(table), tn, b); reply == o.reply && table == o.table
      ensures Valid()
    {
      if !ValidUpdateBody(b) {
        return Invalid;
      }
      var parts, values, idx := BuildUpdate(b);
      if |parts| == 0 {
        return BadRequest(NoFields);
      }
      values := values + [Text(tn)];
      RunBuiltUpdate(table, tn, b, parts, values[..|parts|]);
      assert values[..|parts|] + [Text(tn)] == values;
      var result := RunUpdate(table, parts, idx, values);
      if result.None? {
        return ServerError(UpdateError);
      }
      if result.value.rowCount == 0 {
        return NotFound;
      }
      table := result.value.table;
      reply := Ok(Updated);
    }

    /** The delete handler. */
    method Delete(tn: string) returns (reply: Reply)
      requires Valid()
      modifies this
      ensures var o := DeleteOutcome(old(table), tn); reply == o.reply && table == o.table
      ensures Valid()
    {
      if tn !in table {
        return NotFound;
      }
      table := table - {tn};
      reply := Ok(Deleted);
    }
  }
}
