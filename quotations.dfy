/**
 * QuotationService over an in-memory store: the quotation table (each row
 * holding its items), the response rows and the audit-log rows. Every
 * database call acts on one snapshot; the id the database would generate is
 * a counter.
 */
module Quotations {
  import opened Wrappers
  import opened Money
  import opened Pricing
  import opened Folds

  datatype Status = PENDING | SENT | APPROVED | REJECTED | EXPIRED

  /** The enum value's name, as Prisma stores and accepts it. */
  function StatusName(s: Status): string {
    match s
    case PENDING => "PENDING"
    case SENT => "SENT"
    case APPROVED => "APPROVED"
    case REJECTED => "REJECTED"
    case EXPIRED => "EXPIRED"
  }

  /** Prisma's check of a string against the QuotationStatus enum. */
  function ParseStatus(name: string): (r: Option<Status>)
    ensures r.Some? ==> StatusName(r.value) == name
  {
    if name == "PENDING" then Some(PENDING)
    else if name == "SENT" then Some(SENT)
    else if name == "APPROVED" then Some(APPROVED)
    else if name == "REJECTED" then Some(REJECTED)
    else if name == "EXPIRED" then Some(EXPIRED)
    else None
  }

  /** Every enum name is accepted, as the value it names. */
  lemma ParseStatusName(s: Status)
    ensures ParseStatus(StatusName(s)) == Some(s)
  {
    match s
    case PENDING =>
    case SENT => assert StatusName(s) != "PENDING";
    case APPROVED => assert StatusName(s) != "PENDING" && StatusName(s) != "SENT";
    case REJECTED => assert StatusName(s) != "PENDING" && StatusName(s) != "SENT" && StatusName(s) != "APPROVED";
    case EXPIRED =>
      assert StatusName(s) != "PENDING" && StatusName(s) != "SENT" && StatusName(s) != "APPROVED";
      assert StatusName(s) != "REJECTED";
  }

  /** A quotation row with its items (`include: { items: true }`). */
  datatype Quotation = Quotation(
    id: nat,
    adminId: string,
    clientName: string,
    clientEmail: string,
    status: Status,
    totalAmount: string,
    validityDate: Option<int>,
    createdAt: int,
    items: seq<ItemRow>)

  datatype QuotationResponse = QuotationResponse(
    quotationId: nat,
    status: Status,
    comment: Option<string>,
    clientIp: Option<string>,
    userAgent: Option<string>)

  datatype AuditAction = CREATE_QUOTATION | UPDATE_QUOTATION | DELETE_QUOTATION

  datatype AuditLog = AuditLog(adminId: string, quotationId: nat, action: AuditAction, details: string)

  /**
   * The request body of create. `adminId` is not a declared field of
   * CreateQuotationDto, but the service reads it from the body, and the
   * validation pipe (without whitelisting) lets it through when it is sent.
   * The frontend's form does not send it, so it is optional.
   */
  datatype CreateQuotationDto = CreateQuotationDto(
    clientName: string,
    clientEmail: string,
    adminId: Option<string>,
    validityDate: Option<string>,
    items: seq<CreateItemDto>)

  /**
   * The request body of update: the two fields the service reads, and the
   * names of all keys the body carried (`Object.keys(dto)`).
   */
  datatype UpdateQuotationDto = UpdateQuotationDto(
    status: Option<string>,
    validityDate: Option<string>,
    keys: seq<string>)

  datatype ServiceError =
    | NotFound(message: string)
    | Priced(cause: PricingError)
    | InvalidArgument(message: string)
    | MissingOwner
    | EmailFailed

  /** findOne's result: the quotation with its responses. */
  datatype QuotationDetail = QuotationDetail(quotation: Quotation, responses: seq<QuotationResponse>)

  datatype AdminPage = AdminPage(items: seq<Quotation>, count: nat)

  datatype DashboardStats = DashboardStats(total: nat, pending: nat, approved: nat, rejected: nat, recent: seq<Quotation>)

  /** A JavaScript truthiness test on an optional string: present and not "". */
  predicate Truthy(s: Option<string>) {
    s.Some? && s.value != ""
  }

  // ---------------------------------------------------------------------------
  // Lookups and filters over the tables
  // ---------------------------------------------------------------------------

  predicate UniqueIds(qs: seq<Quotation>) {
    forall i, j :: 0 <= i < j < |qs| ==> qs[i].id != qs[j].id
  }

  predicate HasId(qs: seq<Quotation>, id: nat) {
    exists i :: 0 <= i < |qs| && qs[i].id == id
  }

  /** `findUnique({ where: { id } })` as a position in the table. */
  function IndexOf(qs: seq<Quotation>, id: nat): (k: Option<nat>)
    ensures k.Some? <==> HasId(qs, id)
    ensures k.Some? ==> k.value < |qs| && qs[k.value].id == id
  {
    IndexWhere(qs, (q: Quotation) => q.id == id)
  }

  /** In a table with unique ids, the row found is the only row with that id. */
  lemma IndexOfUnique(qs: seq<Quotation>, id: nat, i: nat)
    requires UniqueIds(qs) && i < |qs| && qs[i].id == id
    ensures IndexOf(qs, id) == Some(i)
  {
  }

  /** The table without position k. */
  function RemoveAt(qs: seq<Quotation>, k: nat): (r: seq<Quotation>)
    requires k < |qs|
    ensures |r| == |qs| - 1
    ensures forall i :: 0 <= i < k ==> r[i] == qs[i]
    ensures forall i :: k <= i < |r| ==> r[i] == qs[i + 1]
  {
    qs[..k] + qs[k + 1..]
  }

  /** With unique ids, deleting the row of `id` leaves exactly the rows of the other ids. */
  lemma RemoveAtKeepsOthers(qs: seq<Quotation>, k: nat)
    requires UniqueIds(qs) && k < |qs|
    ensures UniqueIds(RemoveAt(qs, k))
    ensures forall q :: q in RemoveAt(qs, k) <==> q in qs && q.id != qs[k].id
  {
    var r := RemoveAt(qs, k);
    forall q ensures q in r <==> q in qs && q.id != qs[k].id {
      if q in r {
        var i :| 0 <= i < |r| && r[i] == q;
        if i < k { assert qs[i] == q; } else { assert qs[i + 1] == q; }
      }
      if q in qs && q.id != qs[k].id {
        var i :| 0 <= i < |qs| && qs[i] == q;
        if i < k { assert r[i] == q; } else { assert r[i - 1] == q; }
      }
    }
  }

  /**
   * The responses of one quotation: every response row of that quotation, as
   * often as the table holds it (publicView appends equal rows), and no other.
   */
  function ResponsesOf(rs: seq<QuotationResponse>, id: nat): (r: seq<QuotationResponse>)
    ensures forall x :: multiset(r)[x] == if x.quotationId == id then multiset(rs)[x] else 0
    ensures forall x :: x in r <==> x in rs && x.quotationId == id
    ensures |r| <= |rs|
  {
    Filter(rs, (x: QuotationResponse) => x.quotationId == id)
  }

  /** The response rows of the other quotations, each as often as before. */
  function ResponsesNotOf(rs: seq<QuotationResponse>, id: nat): (r: seq<QuotationResponse>)
    ensures forall x :: multiset(r)[x] == if x.quotationId != id then multiset(rs)[x] else 0
    ensures forall x :: x in r <==> x in rs && x.quotationId != id
    ensures |r| <= |rs|
  {
    Filter(rs, (x: QuotationResponse) => x.quotationId != id)
  }

  /** `where: { adminId }`: every row of the admin, as often as the table holds it, and no other. */
  function Owned(qs: seq<Quotation>, adminId: string): (r: seq<Quotation>)
    ensures forall q :: multiset(r)[q] == if q.adminId == adminId then multiset(qs)[q] else 0
    ensures forall q :: q in r <==> q in qs && q.adminId == adminId
    ensures |r| <= |qs|
  {
    Filter(qs, (q: Quotation) => q.adminId == adminId)
  }

  /** The rows' statuses, position by position. */
  function Statuses(qs: seq<Quotation>): (r: seq<Status>)
    ensures |r| == |qs| && forall i :: 0 <= i < |qs| ==> r[i] == qs[i].status
  {
    seq(|qs|, i requires 0 <= i < |qs| => qs[i].status)
  }

  /** `count({ where: { ..., status } })`: how many of the rows have status `s`. */
  function CountStatus(qs: seq<Quotation>, s: Status): (n: nat)
    ensures n <= |qs|
    ensures n == multiset(Statuses(qs))[s]
  {
    if qs == [] then 0
    else
      assert Statuses(qs) == [qs[0].status] + Statuses(qs[1..]);
      (if qs[0].status == s then 1 else 0) + CountStatus(qs[1..], s)
  }

  /** Rows of distinct statuses are counted apart, so three such counts never exceed the rows. */
  lemma {:induction false} CountThreeStatuses(qs: seq<Quotation>)
    ensures CountStatus(qs, PENDING) + CountStatus(qs, APPROVED) + CountStatus(qs, REJECTED) <= |qs|
  {
    if qs != [] {
      CountThreeStatuses(qs[1..]);
    }
  }

  // ---------------------------------------------------------------------------
  // orderBy: { createdAt: 'desc' }, skip, take
  // ---------------------------------------------------------------------------

  function CreatedAt(q: Quotation): int {
    q.createdAt
  }

  predicate NewestFirstOrder(s: seq<Quotation>) {
    Descending(s, CreatedAt)
  }

  /** The rows sorted newest first (the order among equal timestamps is the database's). */
  function NewestFirst(qs: seq<Quotation>): (r: seq<Quotation>)
    ensures NewestFirstOrder(r)
    ensures multiset(r) == multiset(qs)
  {
    SortDescending(qs, CreatedAt)
  }

  /** `skip` rows dropped, then at most `take` kept. */
  function Window(s: seq<Quotation>, skip: nat, take: nat): (r: seq<Quotation>)
    ensures |r| <= take
    ensures skip <= |s| ==> |r| == if |s| - skip < take then |s| - skip else take
    ensures skip >= |s| ==> r == []
    ensures forall i :: 0 <= i < |r| ==> skip + i < |s| && r[i] == s[skip + i]
  {
    var from := if skip <= |s| then skip else |s|;
    var rest := s[from..];
    if |rest| <= take then rest else rest[..take]
  }

  lemma WindowKeepsOrder(s: seq<Quotation>, skip: nat, take: nat)
    requires NewestFirstOrder(s)
    ensures NewestFirstOrder(Window(s, skip, take))
  {
    var r := Window(s, skip, take);
    forall i, j | 0 <= i < j < |r| ensures CreatedAt(r[i]) >= CreatedAt(r[j]) {
      assert r[i] == s[skip + i] && r[j] == s[skip + j];
    }
  }

  /** In a newest-first list, a row left out of the first `k` is no newer than any row among them. */
  lemma PrefixIsNewest(s: seq<Quotation>, k: nat)
    requires NewestFirstOrder(s)
    ensures forall q, p :: q in Window(s, 0, k) && p in s && p !in Window(s, 0, k) ==> CreatedAt(p) <= CreatedAt(q)
  {
    var w := Window(s, 0, k);
    forall q, p | q in w && p in s && p !in w ensures CreatedAt(p) <= CreatedAt(q) {
      var i :| 0 <= i < |w| && w[i] == q;
      var j :| 0 <= j < |s| && s[j] == p;
      assert s[i] == q;
    }
  }

  lemma WindowElements(s: seq<Quotation>, skip: nat, take: nat)
    ensures forall q :: q in Window(s, skip, take) ==> q in s
  {
    var r := Window(s, skip, take);
    forall q | q in r ensures q in s {
      var i :| 0 <= i < |r| && r[i] == q;
      assert s[skip + i] == q;
    }
  }

  // ---------------------------------------------------------------------------
  // The store
  // ---------------------------------------------------------------------------

  /** `Object.keys(dto).join(', ')`. */
  function Join(parts: seq<string>, sep: string): string {
    if parts == [] then ""
    else if |parts| == 1 then parts[0]
    else parts[0] + sep + Join(parts[1..], sep)
  }

  /** The database accepts the status (an enum name) and the date of an update, where given. */
  predicate UpdateAccepted(dto: UpdateQuotationDto, parseDate: string -> Option<int>) {
    (!Truthy(dto.status) || ParseStatus(dto.status.value).Some?) &&
    (!Truthy(dto.validityDate) || parseDate(dto.validityDate.value).Some?)
  }

  /** A row's totalAmount is the two-decimal sum of its items' totalPrice strings. */
  predicate AmountMatchesItems(q: Quotation) {
    SumTotals(q.items).Ok? && q.totalAmount == ToFixed2(SumTotals(q.items).value)
  }

  predicate AllAmountsMatch(qs: seq<Quotation>) {
    forall i :: 0 <= i < |qs| ==> AmountMatchesItems(qs[i])
  }

  predicate IdsBelow(qs: seq<Quotation>, n: nat) {
    forall i :: 0 <= i < |qs| ==> qs[i].id < n
  }

  /** Appending a fresh, matching row keeps ids unique and below the new counter, and amounts matching. */
  lemma AppendKeepsInvariant(qs: seq<Quotation>, n: nat, q: Quotation)
    requires UniqueIds(qs) && IdsBelow(qs, n) && AllAmountsMatch(qs)
    requires q.id == n && AmountMatchesItems(q)
    ensures UniqueIds(qs + [q]) && IdsBelow(qs + [q], n + 1) && AllAmountsMatch(qs + [q])
  {
    var r := qs + [q];
    assert forall i :: 0 <= i < |qs| ==> r[i] == qs[i];
  }

  /** Rewriting a row without touching its id, items or total keeps the invariant. */
  lemma ReplaceKeepsInvariant(qs: seq<Quotation>, n: nat, k: nat, q: Quotation)
    requires UniqueIds(qs) && IdsBelow(qs, n) && AllAmountsMatch(qs)
    requires k < |qs| && q.id == qs[k].id && q.items == qs[k].items && q.totalAmount == qs[k].totalAmount
    ensures UniqueIds(qs[k := q]) && IdsBelow(qs[k := q], n) && AllAmountsMatch(qs[k := q])
  {
    assert AmountMatchesItems(qs[k]);
  }

  /** Deleting a row keeps the invariant. */
  lemma RemoveKeepsInvariant(qs: seq<Quotation>, n: nat, k: nat)
    requires UniqueIds(qs) && IdsBelow(qs, n) && AllAmountsMatch(qs) && k < |qs|
    ensures IdsBelow(RemoveAt(qs, k), n) && AllAmountsMatch(RemoveAt(qs, k))
  {
    var r := RemoveAt(qs, k);
    forall i | 0 <= i < |r| ensures r[i].id < n && AmountMatchesItems(r[i]) {
      if i < k { assert r[i] == qs[i]; } else { assert r[i] == qs[i + 1]; }
    }
  }

  class QuotationStore {
    var quotations: seq<Quotation>
    var responses: seq<QuotationResponse>
    var auditLogs: seq<AuditLog>
    var nextId: nat

    /** Ids are unique and below the next one to be issued; every amount matches its items. */
    ghost predicate Valid()
      reads this
    {
      UniqueIds(quotations) && IdsBelow(quotations, nextId) && AllAmountsMatch(quotations)
    }

    constructor ()
      ensures Valid()
      ensures quotations == [] && responses == [] && auditLogs == [] && nextId == 0
    {
      quotations, responses, auditLogs, nextId := [], [], [], 0;
    }

    /**
     * create: price the items, insert the quotation as PENDING, send the
     * email, then write the audit row. `parseDate` is `new Date(s)` (None for
     * an invalid date, which the database rejects); `emailSent` is whether
     * sendQuotationEmail returned rather than threw. A body without `adminId`
     * gives Prisma an undefined owner, which the database refuses
     * (`MissingOwner`) before writing anything.
     */
    method Create(dto: CreateQuotationDto, now: int, parseDate: string -> Option<int>, emailSent: bool)
      returns (r: Result<Quotation, ServiceError>)
      requires Valid()
      modifies this
      ensures Valid()
      ensures responses == old(responses)
      ensures Price(dto.items).Err? ==>
        r == Err(Priced(Price(dto.items).error)) &&
        quotations == old(quotations) && auditLogs == old(auditLogs) && nextId == old(nextId)
      ensures Price(dto.items).Ok? && Truthy(dto.validityDate) && parseDate(dto.validityDate.value).None? ==>
        r == Err(InvalidArgument("Invalid Date")) &&
        quotations == old(quotations) && auditLogs == old(auditLogs) && nextId == old(nextId)
      ensures Price(dto.items).Ok? && (!Truthy(dto.validityDate) || parseDate(dto.validityDate.value).Some?) &&
              dto.adminId.None? ==>
        r == Err(MissingOwner) &&
        quotations == old(quotations) && auditLogs == old(auditLogs) && nextId == old(nextId)
      ensures Price(dto.items).Ok? && (!Truthy(dto.validityDate) || parseDate(dto.validityDate.value).Some?) &&
              dto.adminId.Some? ==>
        var priced := Price(dto.items).value;
        var q := Quotation(old(nextId), dto.adminId.value, dto.clientName, dto.clientEmail, PENDING,
                           priced.totalAmount,
                           if Truthy(dto.validityDate) then parseDate(dto.validityDate.value) else None,
                           now, priced.rows);
        quotations == old(quotations) + [q] && nextId == old(nextId) + 1 &&
        (emailSent ==>
          r == Ok(q) &&
          auditLogs == old(auditLogs) + [AuditLog(dto.adminId.value, q.id, CREATE_QUOTATION,
                                                  "Created quotation with total " + priced.totalAmount)]) &&
        (!emailSent ==> r == Err(EmailFailed) && auditLogs == old(auditLogs))
    {
      var priced := Price(dto.items);
      if priced.Err? {
        return Err(Priced(priced.error));
      }
      var validity: Option<int> := None;
      if Truthy(dto.validityDate) {
        validity := parseDate(dto.validityDate.value);
        if validity.None? {
          return Err(InvalidArgument("Invalid Date"));
        }
      }
      if dto.adminId.None? {
        return Err(MissingOwner);
      }
      var rows, totalAmount := priced.value.rows, priced.value.totalAmount;
      var q := Quotation(nextId, dto.adminId.value, dto.clientName, dto.clientEmail, PENDING,
                         totalAmount, validity, now, rows);
      PricedQuotationMatches(dto.items, q);
      AppendKeepsInvariant(quotations, nextId, q);
      quotations := quotations + [q];
      nextId := nextId + 1;
      if !emailSent {
        return Err(EmailFailed);
      }
      auditLogs := auditLogs + [AuditLog(dto.adminId.value, q.id, CREATE_QUOTATION, "Created quotation with total " + totalAmount)];
      r := Ok(q);
    }

    /** findOne: the quotation and its responses, or NotFound. */
    function FindOne(id: nat): (r: Result<QuotationDetail, ServiceError>)
      reads this
      ensures r.Err? <==> !HasId(quotations, id)
      ensures r.Err? ==> r.error == NotFound("Quotation not found")
      ensures r.Ok? ==>
        r.value.quotation in quotations && r.value.quotation.id == id &&
        forall x :: multiset(r.value.responses)[x] == if x.quotationId == id then multiset(responses)[x] else 0
    {
      match IndexOf(quotations, id)
      case None => Err(NotFound("Quotation not found"))
      case Some(k) => Ok(QuotationDetail(quotations[k], ResponsesOf(responses, id)))
    }

    /**
     * update: NotFound, or a status / validityDate the database rejects, leave
     * the store as it was; otherwise the two fields are written when given
     * (truthy) and one UPDATE_QUOTATION row is appended.
     */
    method Update(id: nat, dto: UpdateQuotationDto, parseDate: string -> Option<int>)
      returns (r: Result<Quotation, ServiceError>)
      requires Valid()
      modifies this`quotations, this`auditLogs
      ensures Valid()
      ensures !HasId(old(quotations), id) ==>
        r == Err(NotFound("Quotation not found")) && quotations == old(quotations) && auditLogs == old(auditLogs)
      ensures HasId(old(quotations), id) && !UpdateAccepted(dto, parseDate) ==>
        r.Err? && r.error.InvalidArgument? && quotations == old(quotations) && auditLogs == old(auditLogs)
      ensures HasId(old(quotations), id) && UpdateAccepted(dto, parseDate) ==>
        var k := IndexOf(old(quotations), id).value;
        var was := old(quotations)[k];
        var q := was.(status := if Truthy(dto.status) then ParseStatus(dto.status.value).value else was.status,
                      validityDate := if Truthy(dto.validityDate) then parseDate(dto.validityDate.value) else was.validityDate);
        r == Ok(q) &&
        quotations == old(quotations)[k := q] &&
        auditLogs == old(auditLogs) + [AuditLog(was.adminId, id, UPDATE_QUOTATION, "Updated fields: " + Join(dto.keys, ", "))]
    {
      var found := IndexOf(quotations, id);
      if found.None? {
        return Err(NotFound("Quotation not found"));
      }
      var k := found.value;
      var was := quotations[k];
      var status := was.status;
      if Truthy(dto.status) {
        var parsed := ParseStatus(dto.status.value);
        if parsed.None? {
          return Err(InvalidArgument("Invalid value for argument `status`"));
        }
        status := parsed.value;
      }
      var validity := was.validityDate;
      if Truthy(dto.validityDate) {
        var parsed := parseDate(dto.validityDate.value);
        if parsed.None? {
          return Err(InvalidArgument("Invalid value for argument `validityDate`"));
        }
        validity := parsed;
      }
      var q := was.(status := status, validityDate := validity);
      ReplaceKeepsInvariant(quotations, nextId, k, q);
      quotations := quotations[k := q];
      auditLogs := auditLogs + [AuditLog(was.adminId, id, UPDATE_QUOTATION, "Updated fields: " + Join(dto.keys, ", "))];
      r := Ok(q);
    }

    /**
     * remove: NotFound leaves the store as it was; otherwise the quotation and
     * its responses are deleted and one DELETE_QUOTATION row is appended.
     */
    method Remove(id: nat) returns (r: Result<string, ServiceError>)
      requires Valid()
      modifies this`quotations, this`responses, this`auditLogs
      ensures Valid()
      ensures !HasId(old(quotations), id) ==>
        r == Err(NotFound("Quotation not found")) &&
        quotations == old(quotations) && responses == old(responses) && auditLogs == old(auditLogs)
      ensures HasId(old(quotations), id) ==>
        var k := IndexOf(old(quotations), id).value;
        r == Ok("Quotation deleted") &&
        quotations == RemoveAt(old(quotations), k) &&
        (forall q :: q in quotations <==> q in old(quotations) && q.id != id) &&
        responses == ResponsesNotOf(old(responses), id) &&
        auditLogs == old(auditLogs) + [AuditLog(old(quotations)[k].adminId, id, DELETE_QUOTATION, "Deleted quotation")]
    {
      var found := IndexOf(quotations, id);
      if found.None? {
        return Err(NotFound("Quotation not found"));
      }
      var k := found.value;
      var was := quotations[k];
      RemoveAtKeepsOthers(quotations, k);
      RemoveKeepsInvariant(quotations, nextId, k);
      quotations := RemoveAt(quotations, k);
      responses := ResponsesNotOf(responses, id);
      auditLogs := auditLogs + [AuditLog(was.adminId, id, DELETE_QUOTATION, "Deleted quotation")];
      r := Ok("Quotation deleted");
    }

    /** publicView: the quotation, after one PENDING response row with no ip or agent is appended. */
    method PublicView(id: nat) returns (r: Result<Quotation, ServiceError>)
      requires Valid()
      modifies this`responses
      ensures Valid()
      ensures !HasId(quotations, id) ==> r == Err(NotFound("Quotation not found")) && responses == old(responses)
      ensures HasId(quotations, id) ==>
        r == Ok(quotations[IndexOf(quotations, id).value]) &&
        responses == old(responses) + [QuotationResponse(id, PENDING, None, None, None)]
    {
      var found := IndexOf(quotations, id);
      if found.None? {
        return Err(NotFound("Quotation not found"));
      }
      responses := responses + [QuotationResponse(id, PENDING, None, None, None)];
      r := Ok(quotations[found.value]);
    }

    /**
     * listForAdmin: the admin's quotations newest first, `skip` dropped and at
     * most `take` kept, with the count of all of them.
     */
    function ListForAdmin(adminId: string, take: nat, skip: nat): (page: AdminPage)
      reads this
      ensures page.count == |Owned(quotations, adminId)|
      ensures |page.items| <= take
      ensures forall q :: q in page.items ==> q in quotations && q.adminId == adminId
      ensures NewestFirstOrder(page.items)
      ensures skip <= page.count ==> |page.items| == if page.count - skip < take then page.count - skip else take
      ensures page.items == Window(NewestFirst(Owned(quotations, adminId)), skip, take)
    {
      var sorted := NewestFirst(Owned(quotations, adminId));
      WindowKeepsOrder(sorted, skip, take);
      WindowElements(sorted, skip, take);
      assert forall q :: q in sorted ==> q in multiset(Owned(quotations, adminId));
      AdminPage(Window(sorted, skip, take), |Owned(quotations, adminId)|)
    }

    /** adminDashboardStats: the three status counts, the total, and the five newest. */
    function AdminDashboardStats(adminId: string): (s: DashboardStats)
      reads this
      ensures s.total == |Owned(quotations, adminId)|
      ensures s.pending == CountStatus(Owned(quotations, adminId), PENDING)
      ensures s.approved == CountStatus(Owned(quotations, adminId), APPROVED)
      ensures s.rejected == CountStatus(Owned(quotations, adminId), REJECTED)
      ensures s.pending + s.approved + s.rejected <= s.total
      ensures s.recent == ListForAdmin(adminId, 5, 0).items
      ensures |s.recent| <= 5 && (s.total >= 5 ==> |s.recent| == 5) && (s.total < 5 ==> |s.recent| == s.total)
      ensures forall q :: q in s.recent ==> q in quotations && q.adminId == adminId
      ensures NewestFirstOrder(s.recent)
      ensures forall q, p :: q in s.recent && p in Owned(quotations, adminId) && p !in s.recent ==>
        CreatedAt(p) <= CreatedAt(q)
    {
      var owned := Owned(quotations, adminId);
      var sorted := NewestFirst(owned);
      CountThreeStatuses(owned);
      PrefixIsNewest(sorted, 5);
      assert forall p :: p in owned ==> p in multiset(sorted);
      var recent := ListForAdmin(adminId, 5, 0).items;
      DashboardStats(|owned|, CountStatus(owned, PENDING), CountStatus(owned, APPROVED), CountStatus(owned, REJECTED), recent)
    }
  }

  /** The rows create stores reproduce, summed, the totalAmount it stores. */
  lemma PricedQuotationMatches(items: seq<CreateItemDto>, q: Quotation)
    requires Price(items).Ok?
    requires q.items == Price(items).value.rows && q.totalAmount == Price(items).value.totalAmount
    ensures AmountMatchesItems(q)
  {
  }
}
