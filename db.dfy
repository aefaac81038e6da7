/** The relational store the application runs on: one sequence of rows per
    table, in primary-key order, with the foreign-key integrity the schema's
    `on_delete=CASCADE` rules keep. */
module Db {

  import opened Outcomes
  import opened Seqs
  import opened Entities

  function EmployeeKey(e: Employee): nat { e.id }
  function PeriodKey(p: EmploymentPeriod): nat { p.id }
  function DocumentKey(d: Document): nat { d.id }
  function PermitKey(p: WorkPermit): nat { p.id }
  function CardKey(c: CardSubmission): nat { c.id }
  function ContractKey(c: Contract): nat { c.id }
  function SanepidKey(s: Sanepid): nat { s.id }

  class Database {
    var employees: seq<Employee>
    var periods: seq<EmploymentPeriod>
    var documents: seq<Document>
    var permits: seq<WorkPermit>
    var cards: seq<CardSubmission>
    var contracts: seq<Contract>
    var sanepids: seq<Sanepid>
    var notifications: seq<Notification>
    var history: seq<HistoryEntry>
    /** The next primary key handed out by an insert. */
    var nextId: nat

    constructor ()
      ensures Valid()
      ensures employees == [] && periods == [] && documents == [] && permits == []
      ensures cards == [] && contracts == [] && sanepids == []
      ensures notifications == [] && history == [] && nextId == 1
    {
      employees, periods, documents, permits := [], [], [], [];
      cards, contracts, sanepids := [], [], [];
      notifications, history := [], [];
      nextId := 1;
    }

    predicate HasEmployee(id: Id) reads this`employees { exists e :: e in employees && e.id == id }
    predicate HasDocument(id: Id) reads this`documents { exists d :: d in documents && d.id == id }
    predicate HasPermit(id: Id) reads this`permits { exists p :: p in permits && p.id == id }

    /** Primary keys are unique and below `nextId`. */
    predicate KeysValid() reads this`employees, this`periods, this`documents, this`permits, this`cards, this`contracts, this`sanepids, this`nextId {
      DistinctKeys(employees, EmployeeKey) && KeysBelow(employees, EmployeeKey, nextId)
      && DistinctKeys(periods, PeriodKey) && KeysBelow(periods, PeriodKey, nextId)
      && DistinctKeys(documents, DocumentKey) && KeysBelow(documents, DocumentKey, nextId)
      && DistinctKeys(permits, PermitKey) && KeysBelow(permits, PermitKey, nextId)
      && DistinctKeys(cards, CardKey) && KeysBelow(cards, CardKey, nextId)
      && DistinctKeys(contracts, ContractKey) && KeysBelow(contracts, ContractKey, nextId)
      && DistinctKeys(sanepids, SanepidKey) && KeysBelow(sanepids, SanepidKey, nextId)
    }

    /** Every foreign key points at an existing row. */
    predicate RefsValid() reads this`employees, this`periods, this`documents, this`permits, this`cards, this`contracts, this`sanepids, this`notifications {
      (forall p :: p in periods ==> HasEmployee(p.employee))
      && (forall d :: d in documents ==> HasEmployee(d.employee))
      && (forall p :: p in permits ==> HasEmployee(p.employee))
      && (forall c :: c in cards ==> HasEmployee(c.employee))
      && (forall c :: c in contracts ==> HasEmployee(c.employee))
      && (forall s :: s in sanepids ==> HasEmployee(s.employee))
      && (forall n :: n in notifications ==> NotificationRefsValid(n))
    }

    predicate NotificationRefsValid(n: Notification) reads this`employees, this`documents, this`permits {
      HasEmployee(n.employee)
      && (n.document.Some? ==> HasDocument(n.document.value))
      && (n.workPermit.Some? ==> HasPermit(n.workPermit.value))
    }

    predicate Valid() reads this`employees, this`periods, this`documents, this`permits, this`cards, this`contracts, this`sanepids, this`notifications, this`nextId { KeysValid() && RefsValid() }

    function EmployeeById(id: Id): (r: Option<Employee>)
      reads this`employees
      ensures r.Some? <==> HasEmployee(id)
      ensures r.Some? ==> r.value in employees && r.value.id == id
    {
      FindBy(employees, EmployeeKey, id)
    }

    function DocumentById(id: Id): (r: Option<Document>)
      reads this`documents
      ensures r.Some? <==> HasDocument(id)
      ensures r.Some? ==> r.value in documents && r.value.id == id
    {
      FindBy(documents, DocumentKey, id)
    }

    function PermitById(id: Id): (r: Option<WorkPermit>)
      reads this`permits
      ensures r.Some? <==> HasPermit(id)
      ensures r.Some? ==> r.value in permits && r.value.id == id
    {
      FindBy(permits, PermitKey, id)
    }

    /** Insert one notification row whose foreign keys resolve. */
    method AppendNotification(n: Notification)
      requires Valid() && NotificationRefsValid(n)
      modifies this`notifications
      ensures Valid() && notifications == old(notifications) + [n]
    {
      notifications := notifications + [n];
    }

    /** One bulk insert of notification rows whose foreign keys resolve. */
    method AppendNotifications(batch: seq<Notification>)
      requires Valid() && forall n :: n in batch ==> NotificationRefsValid(n)
      modifies this`notifications
      ensures Valid() && notifications == old(notifications) + batch
    {
      notifications := notifications + batch;
    }

    /** Replace the notification table by rows whose foreign keys resolve. */
    method SetNotifications(rows: seq<Notification>)
      requires Valid() && forall n :: n in rows ==> NotificationRefsValid(n)
      modifies this`notifications
      ensures Valid() && notifications == rows
    {
      notifications := rows;
    }

    /** Rewrite employee rows in place (`save` of existing rows, or a bulk
        `update`): every row keeps its key and position. */
    method ReplaceEmployees(es: seq<Employee>)
      requires Valid() && SameKeys(es, employees, EmployeeKey)
      modifies this`employees
      ensures Valid() && employees == es
    {
      SameKeysPreserve(employees, es, EmployeeKey);
      employees := es;
    }

    /** Insert a new employee under the next key. */
    method InsertEmployee(e: Employee)
      requires Valid() && e.id == nextId
      modifies this`employees, this`nextId
      ensures Valid() && employees == old(employees) + [e] && nextId == old(nextId) + 1
    {
      employees := employees + [e];
      nextId := nextId + 1;
      assert forall x :: x in old(employees) ==> x in employees;
    }

    /** Rewrite document rows in place; their employees must exist. */
    method ReplaceDocuments(ds: seq<Document>)
      requires Valid() && SameKeys(ds, documents, DocumentKey)
      requires forall d :: d in ds ==> HasEmployee(d.employee)
      modifies this`documents
      ensures Valid() && documents == ds
    {
      SameKeysPreserve(documents, ds, DocumentKey);
      documents := ds;
    }

    /** Insert a new document under the next key. */
    method InsertDocument(d: Document)
      requires Valid() && d.id == nextId && HasEmployee(d.employee)
      modifies this`documents, this`nextId
      ensures Valid() && documents == old(documents) + [d] && nextId == old(nextId) + 1
    {
      documents := documents + [d];
      nextId := nextId + 1;
      assert forall x :: x in old(documents) ==> x in documents;
    }

    /** Rewrite work-permit rows in place; their employees must exist. */
    method ReplacePermits(ps: seq<WorkPermit>)
      requires Valid() && SameKeys(ps, permits, PermitKey)
      requires forall p :: p in ps ==> HasEmployee(p.employee)
      modifies this`permits
      ensures Valid() && permits == ps
    {
      SameKeysPreserve(permits, ps, PermitKey);
      permits := ps;
    }

    /** Insert a new work permit under the next key. */
    method InsertPermit(p: WorkPermit)
      requires Valid() && p.id == nextId && HasEmployee(p.employee)
      modifies this`permits, this`nextId
      ensures Valid() && permits == old(permits) + [p] && nextId == old(nextId) + 1
    {
      permits := permits + [p];
      nextId := nextId + 1;
      assert forall x :: x in old(permits) ==> x in permits;
    }

    /** `employee.delete()` after its History purge: the row goes, and with
        it, by `on_delete=CASCADE`, its periods, documents, permits, cards,
        contracts and sanepid rows, and every notification that points at
        the employee or at one of its documents or permits. */
    method DeleteEmployeeCascade(id: Id)
      requires Valid()
      modifies this`employees, this`periods, this`documents, this`permits
      modifies this`cards, this`contracts, this`sanepids, this`notifications
      ensures Valid() && !HasEmployee(id)
      ensures forall n :: n in notifications ==> n in old(notifications) && n.employee != id
      ensures employees == Filter(old(employees), OtherEmployee(id))
      ensures periods == Filter(old(periods), PeriodNotOf(id))
      ensures documents == Filter(old(documents), DocumentNotOf(id))
      ensures permits == Filter(old(permits), PermitNotOf(id))
      ensures cards == Filter(old(cards), CardNotOf(id))
      ensures contracts == Filter(old(contracts), ContractNotOf(id))
      ensures sanepids == Filter(old(sanepids), SanepidNotOf(id))
      ensures notifications == Filter(old(notifications),
        Survives(id, DocumentIdsOf(old(documents), id), PermitIdsOf(old(permits), id)))
    {
      var docIds := DocumentIdsOf(documents, id);
      var permitIds := PermitIdsOf(permits, id);
      notifications := Filter(notifications, Survives(id, docIds, permitIds));
      DeleteSubRecords(id);
      employees := Filter(employees, OtherEmployee(id));
      FilterDistinct(old(employees), EmployeeKey, OtherEmployee(id));
      assert forall e :: e in employees ==> e.id != id;
      CascadeRefs(this, id, old(employees), old(documents), old(permits), docIds, permitIds);
    }

    /** The sub-record part of the cascade. */
    method DeleteSubRecords(id: Id)
      requires KeysValid()
      modifies this`periods, this`documents, this`permits, this`cards, this`contracts, this`sanepids
      ensures KeysValid()
      ensures periods == Filter(old(periods), PeriodNotOf(id))
      ensures documents == Filter(old(documents), DocumentNotOf(id))
      ensures permits == Filter(old(permits), PermitNotOf(id))
      ensures cards == Filter(old(cards), CardNotOf(id))
      ensures contracts == Filter(old(contracts), ContractNotOf(id))
      ensures sanepids == Filter(old(sanepids), SanepidNotOf(id))
    {
      DeleteDatedRecords(id);
      DeleteOtherRecords(id);
    }

    /** Periods, documents and permits of the employee. */
    method DeleteDatedRecords(id: Id)
      requires KeysValid()
      modifies this`periods, this`documents, this`permits
      ensures KeysValid()
      ensures periods == Filter(old(periods), PeriodNotOf(id))
      ensures documents == Filter(old(documents), DocumentNotOf(id))
      ensures permits == Filter(old(permits), PermitNotOf(id))
    {
      FilterDistinct(periods, PeriodKey, PeriodNotOf(id));
      FilterDistinct(documents, DocumentKey, DocumentNotOf(id));
      FilterDistinct(permits, PermitKey, PermitNotOf(id));
      periods := Filter(periods, PeriodNotOf(id));
      documents := Filter(documents, DocumentNotOf(id));
      permits := Filter(permits, PermitNotOf(id));
    }

    /** Cards, contracts and sanepid rows of the employee. */
    method DeleteOtherRecords(id: Id)
      requires KeysValid()
      modifies this`cards, this`contracts, this`sanepids
      ensures KeysValid()
      ensures cards == Filter(old(cards), CardNotOf(id))
      ensures contracts == Filter(old(contracts), ContractNotOf(id))
      ensures sanepids == Filter(old(sanepids), SanepidNotOf(id))
    {
      FilterDistinct(cards, CardKey, CardNotOf(id));
      FilterDistinct(contracts, ContractKey, ContractNotOf(id));
      FilterDistinct(sanepids, SanepidKey, SanepidNotOf(id));
      cards := Filter(cards, CardNotOf(id));
      contracts := Filter(contracts, ContractNotOf(id));
      sanepids := Filter(sanepids, SanepidNotOf(id));
    }

    /** Whether the employee with this key exists and is dismissed. */
    predicate EmployeeDismissed(id: Id) reads this`employees {
      var e := EmployeeById(id);
      e.Some? && IsDismissed(e.value)
    }
  }

  /** A stored document row resolves, and so does its employee. */
  lemma DocumentRefs(db: Database, d: Document)
    requires db.Valid() && d in db.documents
    ensures db.HasDocument(d.id) && db.HasEmployee(d.employee)
  {
  }

  /** A stored permit row resolves, and so does its employee. */
  lemma PermitRefs(db: Database, p: WorkPermit)
    requires db.Valid() && p in db.permits
    ensures db.HasPermit(p.id) && db.HasEmployee(p.employee)
  {
  }

  /** Two tables with the same keys at the same positions. */
  predicate SameKeys<T>(a: seq<T>, b: seq<T>, key: T -> nat) {
    |a| == |b| && forall i :: 0 <= i < |a| ==> key(a[i]) == key(b[i])
  }

  /** Rewriting rows in place keeps keys distinct and bounded, and every key
      that resolved still resolves. */
  lemma SameKeysPreserve<T(!new)>(a: seq<T>, b: seq<T>, key: T -> nat)
    requires SameKeys(b, a, key)
    ensures DistinctKeys(a, key) ==> DistinctKeys(b, key)
    ensures forall bound :: KeysBelow(a, key, bound) ==> KeysBelow(b, key, bound)
    ensures forall x :: x in a ==> exists y :: y in b && key(y) == key(x)
  {
    forall x | x in a
      ensures exists y :: y in b && key(y) == key(x)
    {
      var i :| 0 <= i < |a| && a[i] == x;
      assert b[i] in b;
    }
    forall bound | KeysBelow(a, key, bound) ensures KeysBelow(b, key, bound) {
      forall y | y in b ensures key(y) < bound {
        var i :| 0 <= i < |b| && b[i] == y;
        assert a[i] in a;
      }
    }
  }

  function OtherEmployee(id: Id): Employee -> bool { (e: Employee) => e.id != id }
  function PeriodNotOf(id: Id): EmploymentPeriod -> bool { (p: EmploymentPeriod) => p.employee != id }
  function DocumentNotOf(id: Id): Document -> bool { (d: Document) => d.employee != id }
  function PermitNotOf(id: Id): WorkPermit -> bool { (p: WorkPermit) => p.employee != id }
  function CardNotOf(id: Id): CardSubmission -> bool { (c: CardSubmission) => c.employee != id }
  function ContractNotOf(id: Id): Contract -> bool { (c: Contract) => c.employee != id }
  function SanepidNotOf(id: Id): Sanepid -> bool { (s: Sanepid) => s.employee != id }

  /** The keys of one employee's documents. */
  function DocumentIdsOf(docs: seq<Document>, id: Id): set<Id> {
    set d | d in docs && d.employee == id :: d.id
  }

  /** The keys of one employee's work permits. */
  function PermitIdsOf(permits: seq<WorkPermit>, id: Id): set<Id> {
    set p | p in permits && p.employee == id :: p.id
  }

  /** A notification outlives the employee's deletion when it points neither
      at the employee nor at one of the deleted documents or permits. */
  function Survives(id: Id, docIds: set<Id>, permitIds: set<Id>): Notification -> bool {
    (n: Notification) =>
      n.employee != id
      && (n.document.None? || n.document.value !in docIds)
      && (n.workPermit.None? || n.workPermit.value !in permitIds)
  }

  /** After the cascade every remaining foreign key still resolves. */
  lemma CascadeRefs(db: Database, id: Id, employees: seq<Employee>, documents: seq<Document>, permits: seq<WorkPermit>,
                    docIds: set<Id>, permitIds: set<Id>)
    requires docIds == DocumentIdsOf(documents, id) && permitIds == PermitIdsOf(permits, id)
    requires forall d :: d in documents ==> exists e :: e in employees && e.id == d.employee
    requires forall p :: p in permits ==> exists e :: e in employees && e.id == p.employee
    requires db.employees == Filter(employees, OtherEmployee(id))
    requires db.documents == Filter(documents, DocumentNotOf(id))
    requires db.permits == Filter(permits, PermitNotOf(id))
    requires forall n :: n in db.notifications ==> Survives(id, docIds, permitIds)(n)
    requires forall n :: n in db.notifications ==>
      (exists e :: e in employees && e.id == n.employee)
      && (n.document.Some? ==> exists d :: d in documents && d.id == n.document.value)
      && (n.workPermit.Some? ==> exists p :: p in permits && p.id == n.workPermit.value)
    requires forall x :: x in db.periods ==> x.employee != id && exists e :: e in employees && e.id == x.employee
    requires forall x :: x in db.cards ==> x.employee != id && exists e :: e in employees && e.id == x.employee
    requires forall x :: x in db.contracts ==> x.employee != id && exists e :: e in employees && e.id == x.employee
    requires forall x :: x in db.sanepids ==> x.employee != id && exists e :: e in employees && e.id == x.employee
    ensures db.RefsValid()
  {
    forall n | n in db.notifications ensures db.NotificationRefsValid(n) {
      var e :| e in employees && e.id == n.employee;
      assert e in db.employees;
      if n.document.Some? {
        var d :| d in documents && d.id == n.document.value;
        assert d in db.documents;
      }
      if n.workPermit.Some? {
        var p :| p in permits && p.id == n.workPermit.value;
        assert p in db.permits;
      }
    }
  }
}
