/** The daily notification jobs of apps/notification/tasks.py and their
    duplicate management command: the creation sweep over every document and
    work permit (`check_expiring_documents`, `notification` command) and the
    aging step that counts `days_left` down and drops notices at one day or
    less (`decrease_days_left`). */
module Sweep {

  import opened Outcomes
  import opened Text
  import opened Dates
  import opened Seqs
  import opened Entities
  import opened Db
  import opened Reconcile

  // ------------------------------------------------------------- selection

  /** `Exists(Notification.objects.filter(document=pk))`: any notification at all, whoever it names. */
  predicate DocumentNoticed(ns: seq<Notification>, id: Id) {
    exists n :: n in ns && n.document == Some(id)
  }

  predicate PermitNoticed(ns: seq<Notification>, id: Id) {
    exists n :: n in ns && n.workPermit == Some(id)
  }

  /** `employee__working_status="Zwolniony"` through the foreign key; a null status is not dismissed. */
  predicate OwnerDismissed(employees: seq<Employee>, id: Id) {
    var e := FindBy(employees, EmployeeKey, id);
    e.Some? && IsDismissed(e.value)
  }

  /** The sweep's document filter, as one predicate value. */
  function DocumentSelector(employees: seq<Employee>, ns: seq<Notification>, today: Date): Document -> bool
    requires Valid(today) && today.year < MaxYear
  {
    (d: Document) => InWindow(d.validUntil, today) && !DocumentNoticed(ns, d.id) && !OwnerDismissed(employees, d.employee)
  }

  function PermitSelector(employees: seq<Employee>, ns: seq<Notification>, today: Date): WorkPermit -> bool
    requires Valid(today) && today.year < MaxYear
  {
    (p: WorkPermit) => InWindow(p.endDate, today) && !PermitNoticed(ns, p.id) && !OwnerDismissed(employees, p.employee)
  }

  /** The documents the sweep selects. */
  function SweptDocuments(docs: seq<Document>, employees: seq<Employee>, ns: seq<Notification>, today: Date): (r: seq<Document>)
    requires Valid(today) && today.year < MaxYear
    ensures forall d :: d in r <==>
      d in docs && InWindow(d.validUntil, today) && !DocumentNoticed(ns, d.id) && !OwnerDismissed(employees, d.employee)
  {
    Filter(docs, DocumentSelector(employees, ns, today))
  }

  /** The work permits the sweep selects. */
  function SweptPermits(permits: seq<WorkPermit>, employees: seq<Employee>, ns: seq<Notification>, today: Date): (r: seq<WorkPermit>)
    requires Valid(today) && today.year < MaxYear
    ensures forall p :: p in r <==>
      p in permits && InWindow(p.endDate, today) && !PermitNoticed(ns, p.id) && !OwnerDismissed(employees, p.employee)
  {
    Filter(permits, PermitSelector(employees, ns, today))
  }

  // ------------------------------------------------------------- the batch

  /** The unsaved row the sweep builds for a document: the per-employee row
      with a period after the closing parenthesis. */
  function BatchDocumentNotice(d: Document, today: Date, now: Timestamp): (n: Notification)
    requires Valid(today) && today.year < MaxYear && InWindow(d.validUntil, today)
    ensures n.kind == DocumentNotice && n.employee == d.employee
    ensures n.document == Some(d.id) && n.workPermit.None?
    ensures n.daysLeft.Some? && 0 <= n.daysLeft.value <= 62
  {
    Notification(d.employee, DocumentNotice, Some(d.id), None,
      Some(DocumentMessage(d, today) + "."), Some(DaysLeft(d.validUntil.value, today)), now)
  }

  function BatchPermitNotice(p: WorkPermit, today: Date, now: Timestamp): (n: Notification)
    requires Valid(today) && today.year < MaxYear && InWindow(p.endDate, today)
    ensures n.kind == PermitNotice && n.employee == p.employee
    ensures n.workPermit == Some(p.id) && n.document.None?
    ensures n.daysLeft.Some? && 0 <= n.daysLeft.value <= 62
  {
    Notification(p.employee, PermitNotice, None, Some(p.id),
      Some(PermitMessage(p, today) + "."), Some(DaysLeft(p.endDate.value, today)), now)
  }

  /** The batch rows differ from the per-employee rows in one character: the final period. */
  lemma BatchDiffersByPeriod(d: Document, p: WorkPermit, today: Date, now: Timestamp)
    requires Valid(today) && today.year < MaxYear
    requires InWindow(d.validUntil, today) && InWindow(p.endDate, today)
    ensures var b := BatchDocumentNotice(d, today, now);
      var u := NewDocumentNotice(d, d.employee, today, now);
      b == u.(message := b.message) && b.message.value == u.message.value + "."
      && u.message.value[|u.message.value| - 1] != '.'
    ensures var b := BatchPermitNotice(p, today, now);
      var u := NewPermitNotice(p, p.employee, today, now);
      b == u.(message := b.message) && b.message.value == u.message.value + "."
      && u.message.value[|u.message.value| - 1] != '.'
  {
  }

  /** `[Notification(...) for doc in documents]`. */
  function DocumentBatch(docs: seq<Document>, today: Date, now: Timestamp): (r: seq<Notification>)
    requires Valid(today) && today.year < MaxYear
    requires forall d :: d in docs ==> InWindow(d.validUntil, today)
    ensures |r| == |docs|
    ensures forall k :: 0 <= k < |r| ==> r[k] == BatchDocumentNotice(docs[k], today, now)
  {
    seq(|docs|, k requires 0 <= k < |docs| && InWindow(docs[k].validUntil, today) => BatchDocumentNotice(docs[k], today, now))
  }

  function PermitBatch(permits: seq<WorkPermit>, today: Date, now: Timestamp): (r: seq<Notification>)
    requires Valid(today) && today.year < MaxYear
    requires forall p :: p in permits ==> InWindow(p.endDate, today)
    ensures |r| == |permits|
    ensures forall k :: 0 <= k < |r| ==> r[k] == BatchPermitNotice(permits[k], today, now)
  {
    seq(|permits|, k requires 0 <= k < |permits| && InWindow(permits[k].endDate, today) => BatchPermitNotice(permits[k], today, now))
  }

  /** The notification table after one creation sweep. */
  function Swept(ns: seq<Notification>, docs: seq<Document>, permits: seq<WorkPermit>, employees: seq<Employee>, today: Date, now: Timestamp): seq<Notification>
    requires Valid(today) && today.year < MaxYear
  {
    ns + DocumentBatch(SweptDocuments(docs, employees, ns, today), today, now)
       + PermitBatch(SweptPermits(permits, employees, ns, today), today, now)
  }

  lemma DocumentBatchRefs(db: Database, docs: seq<Document>, today: Date, now: Timestamp)
    requires db.Valid() && Valid(today) && today.year < MaxYear
    requires forall d :: d in docs ==> d in db.documents && InWindow(d.validUntil, today)
    ensures forall n :: n in DocumentBatch(docs, today, now) ==> db.NotificationRefsValid(n)
  {
    var batch := DocumentBatch(docs, today, now);
    forall n | n in batch ensures db.NotificationRefsValid(n) {
      var k :| 0 <= k < |batch| && batch[k] == n;
      DocumentRefs(db, docs[k]);
    }
  }

  lemma PermitBatchRefs(db: Database, permits: seq<WorkPermit>, today: Date, now: Timestamp)
    requires db.Valid() && Valid(today) && today.year < MaxYear
    requires forall p :: p in permits ==> p in db.permits && InWindow(p.endDate, today)
    ensures forall n :: n in PermitBatch(permits, today, now) ==> db.NotificationRefsValid(n)
  {
    var batch := PermitBatch(permits, today, now);
    forall n | n in batch ensures db.NotificationRefsValid(n) {
      var k :| 0 <= k < |batch| && batch[k] == n;
      PermitRefs(db, permits[k]);
    }
  }

  /** `check_expiring_documents()`, and the `notification` command, which
      runs the same selection and reports the two list lengths. */
  method CheckExpiringDocuments(db: Database, today: Date, now: Timestamp) returns (documentCount: nat, permitCount: nat)
    requires db.Valid() && Valid(today) && today.year < MaxYear
    modifies db`notifications
    ensures db.Valid()
    ensures db.notifications == Swept(old(db.notifications), db.documents, db.permits, db.employees, today, now)
    ensures documentCount == |SweptDocuments(db.documents, db.employees, old(db.notifications), today)|
    ensures permitCount == |SweptPermits(db.permits, db.employees, old(db.notifications), today)|
  {
    var docs := SweptDocuments(db.documents, db.employees, db.notifications, today);
    var permits := SweptPermits(db.permits, db.employees, db.notifications, today);
    var docNotices := DocumentBatch(docs, today, now);
    var permitNotices := PermitBatch(permits, today, now);
    ghost var after := Swept(db.notifications, db.documents, db.permits, db.employees, today, now);
    assert after == db.notifications + (docNotices + permitNotices);
    DocumentBatchRefs(db, docs, today, now);
    PermitBatchRefs(db, permits, today, now);
    if |docNotices| > 0 || |permitNotices| > 0 {
      db.AppendNotifications(docNotices + permitNotices);
    } else {
      assert docNotices + permitNotices == [];
    }
    documentCount, permitCount := |docNotices|, |permitNotices|;
  }

  /** The command's closing report line. */
  function CommandReport(documentCount: nat, permitCount: nat): (s: string)
    ensures StartsWith(s, "Created notifications: ")
  {
    var head := "Created notifications: ";
    var s := head + NatToString(documentCount) + " documents and " + NatToString(permitCount) + " work permits";
    assert s[..|head|] == head;
    s
  }

  /** `Command.handle` of the `notification` management command. */
  method NotificationCommand(db: Database, today: Date, now: Timestamp) returns (report: string)
    requires db.Valid() && Valid(today) && today.year < MaxYear
    modifies db`notifications
    ensures db.Valid()
    ensures db.notifications == Swept(old(db.notifications), db.documents, db.permits, db.employees, today, now)
    ensures report == CommandReport(
      |SweptDocuments(db.documents, db.employees, old(db.notifications), today)|,
      |SweptPermits(db.permits, db.employees, old(db.notifications), today)|)
  {
    var documentCount, permitCount := CheckExpiringDocuments(db, today, now);
    report := CommandReport(documentCount, permitCount);
  }

  // ------------------------------------------------------ sweep properties

  /** The sweep keeps every old row in place, then appends the document
      rows in the order of the selected documents, then the permit rows in
      the order of the selected permits (row k of each batch is the notice
      of the k-th selected item), so the two reported counts are the numbers
      of rows added. */
  lemma SweptLayout(ns: seq<Notification>, docs: seq<Document>, permits: seq<WorkPermit>, employees: seq<Employee>, today: Date, now: Timestamp)
    requires Valid(today) && today.year < MaxYear
    ensures var r := Swept(ns, docs, permits, employees, today, now);
      var sd := SweptDocuments(docs, employees, ns, today);
      var sp := SweptPermits(permits, employees, ns, today);
      |r| == |ns| + |sd| + |sp| && r[..|ns|] == ns
      && r[|ns|..|ns| + |sd|] == DocumentBatch(sd, today, now)
      && r[|ns| + |sd|..] == PermitBatch(sp, today, now)
  {
    var sd := SweptDocuments(docs, employees, ns, today);
    var sp := SweptPermits(permits, employees, ns, today);
    Parts3(ns, DocumentBatch(sd, today, now), PermitBatch(sp, today, now));
  }

  /** An in-window document of a non-dismissed employee has a notification
      row after the sweep, whether it had one before or was selected. */
  lemma SweptCoversDocuments(ns: seq<Notification>, docs: seq<Document>, permits: seq<WorkPermit>, employees: seq<Employee>, today: Date, now: Timestamp)
    requires Valid(today) && today.year < MaxYear
    ensures var r := Swept(ns, docs, permits, employees, today, now);
      forall d :: d in docs && InWindow(d.validUntil, today) && !OwnerDismissed(employees, d.employee) ==> DocumentNoticed(r, d.id)
  {
    var r := Swept(ns, docs, permits, employees, today, now);
    var sd := SweptDocuments(docs, employees, ns, today);
    var batch := DocumentBatch(sd, today, now);
    assert r == ns + batch + PermitBatch(SweptPermits(permits, employees, ns, today), today, now);
    forall d | d in docs && InWindow(d.validUntil, today) && !OwnerDismissed(employees, d.employee)
      ensures DocumentNoticed(r, d.id)
    {
      if DocumentNoticed(ns, d.id) {
        var n :| n in ns && n.document == Some(d.id);
        assert n in r;
      } else {
        var k :| 0 <= k < |sd| && sd[k] == d;
        assert batch[k] in r;
      }
    }
  }

  lemma SweptCoversPermits(ns: seq<Notification>, docs: seq<Document>, permits: seq<WorkPermit>, employees: seq<Employee>, today: Date, now: Timestamp)
    requires Valid(today) && today.year < MaxYear
    ensures var r := Swept(ns, docs, permits, employees, today, now);
      forall p :: p in permits && InWindow(p.endDate, today) && !OwnerDismissed(employees, p.employee) ==> PermitNoticed(r, p.id)
  {
    var r := Swept(ns, docs, permits, employees, today, now);
    var sp := SweptPermits(permits, employees, ns, today);
    var batch := PermitBatch(sp, today, now);
    assert r == ns + DocumentBatch(SweptDocuments(docs, employees, ns, today), today, now) + batch;
    forall p | p in permits && InWindow(p.endDate, today) && !OwnerDismissed(employees, p.employee)
      ensures PermitNoticed(r, p.id)
    {
      if PermitNoticed(ns, p.id) {
        var n :| n in ns && n.workPermit == Some(p.id);
        assert n in r;
      } else {
        var k :| 0 <= k < |sp| && sp[k] == p;
        assert batch[k] in r;
      }
    }
  }

  /** A second sweep over unchanged data selects nothing and adds no row. */
  lemma SweepIdempotent(ns: seq<Notification>, docs: seq<Document>, permits: seq<WorkPermit>, employees: seq<Employee>, today: Date, now: Timestamp, later: Timestamp)
    requires Valid(today) && today.year < MaxYear
    ensures var r := Swept(ns, docs, permits, employees, today, now);
      SweptDocuments(docs, employees, r, today) == [] && SweptPermits(permits, employees, r, today) == []
      && Swept(r, docs, permits, employees, today, later) == r
  {
    var r := Swept(ns, docs, permits, employees, today, now);
    SweptCoversDocuments(ns, docs, permits, employees, today, now);
    SweptCoversPermits(ns, docs, permits, employees, today, now);
    FilterNone(docs, DocumentSelector(employees, r, today));
    FilterNone(permits, PermitSelector(employees, r, today));
    assert r + [] + [] == r;
  }

  // ------------------------------------------------------------------ aging

  /** The type and number shown by the aged message: from the document when
      the row has one, otherwise the permit's type and "Не вказано". A
      foreign key that resolves nowhere cannot occur in a valid table; it
      falls through to the defaults. */
  function AgedMessage(n: Notification, docs: seq<Document>, permits: seq<WorkPermit>, daysLeft: int): (s: string)
    ensures StartsWith(s, "Документ ")
  {
    var doc := if n.document.Some? then FindBy(docs, DocumentKey, n.document.value) else None;
    var permit := if n.workPermit.Some? then FindBy(permits, PermitKey, n.workPermit.value) else None;
    var docType :=
      if doc.Some? then OrDefault(doc.value.docType, UnknownType)
      else if permit.Some? then OrDefault(permit.value.docType, UnknownType)
      else UnknownType;
    var number := if doc.Some? then OrDefault(doc.value.number, NoNumber) else NoNumber;
    var head := "Документ ";
    var s := head + docType + " № " + number + " мине через " + IntToString(daysLeft) + " днів.";
    assert s[..|head|] == head;
    s
  }

  /** A row whose document resolves shows that document's type and number,
      each defaulted when empty. */
  lemma AgedMessageOfDocument(n: Notification, docs: seq<Document>, permits: seq<WorkPermit>, daysLeft: int, d: Document)
    requires n.document.Some? && FindBy(docs, DocumentKey, n.document.value) == Some(d)
    ensures AgedMessage(n, docs, permits, daysLeft)
      == "Документ " + OrDefault(d.docType, UnknownType) + " № " + OrDefault(d.number, NoNumber)
         + " мине через " + IntToString(daysLeft) + " днів."
  {
  }

  /** A row with no resolving document but a resolving permit shows the
      permit's type, defaulted when empty, and "Не вказано" for the number. */
  lemma AgedMessageOfPermit(n: Notification, docs: seq<Document>, permits: seq<WorkPermit>, daysLeft: int, p: WorkPermit)
    requires n.document.None? && n.workPermit.Some? && FindBy(permits, PermitKey, n.workPermit.value) == Some(p)
    ensures AgedMessage(n, docs, permits, daysLeft)
      == "Документ " + OrDefault(p.docType, UnknownType) + " № " + NoNumber
         + " мине через " + IntToString(daysLeft) + " днів."
  {
  }

  /** A row that resolves neither shows both defaults. */
  lemma AgedMessageOfNothing(n: Notification, docs: seq<Document>, permits: seq<WorkPermit>, daysLeft: int)
    requires n.document.None? && n.workPermit.None?
    ensures AgedMessage(n, docs, permits, daysLeft)
      == "Документ " + UnknownType + " № " + NoNumber + " мине через " + IntToString(daysLeft) + " днів."
  {
  }

  /** A row after one day of aging: one day less, and the new text. */
  function AgeOne(n: Notification, docs: seq<Document>, permits: seq<WorkPermit>): (m: Notification)
    requires n.daysLeft.Some? && n.daysLeft.value > 1
    ensures m.daysLeft == Some(n.daysLeft.value - 1)
    ensures m == n.(daysLeft := m.daysLeft, message := m.message)
    ensures m.message.Some?
  {
    var left := n.daysLeft.value - 1;
    n.(daysLeft := Some(left), message := Some(AgedMessage(n, docs, permits, left)))
  }

  /** The table after `decrease_days_left` has visited `ns` in order: rows
      with more than one day left are aged and kept, the rest are deleted.
      A null `days_left` makes the comparison raise `TypeError` before
      anything is written: `None`. */
  function Aged(ns: seq<Notification>, docs: seq<Document>, permits: seq<WorkPermit>): Option<seq<Notification>>
    decreases |ns|
  {
    if ns == [] then Some([])
    else
      var prev := Aged(ns[..|ns| - 1], docs, permits);
      var n := ns[|ns| - 1];
      if prev.None? || n.daysLeft.None? then None
      else if n.daysLeft.value > 1 then Some(prev.value + [AgeOne(n, docs, permits)])
      else prev
  }

  /** The aging fails exactly when some row has a null day count. */
  lemma {:induction false} AgedFailsOnNull(ns: seq<Notification>, docs: seq<Document>, permits: seq<WorkPermit>)
    ensures Aged(ns, docs, permits).None? <==> exists n :: n in ns && n.daysLeft.None?
    decreases |ns|
  {
    if ns != [] {
      var front := ns[..|ns| - 1];
      AgedFailsOnNull(front, docs, permits);
      if exists n :: n in front && n.daysLeft.None? {
        var n :| n in front && n.daysLeft.None?;
        assert n in ns;
      }
      if exists n :: n in ns && n.daysLeft.None? {
        var n :| n in ns && n.daysLeft.None?;
        var i :| 0 <= i < |ns| && ns[i] == n;
        if i < |ns| - 1 {
          assert front[i] == n;
        }
      }
    }
  }

  /** Every surviving row is an aged old row with more than one day left, and
      every old row with more than one day left survives aged: nothing is
      created, nothing is ever stored with zero days, and only `days_left`
      and `message` change. */
  lemma {:induction false} AgedRows(ns: seq<Notification>, docs: seq<Document>, permits: seq<WorkPermit>)
    requires Aged(ns, docs, permits).Some?
    ensures var r := Aged(ns, docs, permits).value;
      |r| <= |ns|
      && (forall m :: m in r ==> exists n :: n in ns && n.daysLeft.Some? && n.daysLeft.value > 1 && m == AgeOne(n, docs, permits))
      && (forall n :: n in ns && n.daysLeft.Some? && n.daysLeft.value > 1 ==> AgeOne(n, docs, permits) in r)
      && (forall m :: m in r ==> m.daysLeft.Some? && m.daysLeft.value >= 1)
    decreases |ns|
  {
    if ns != [] {
      var front := ns[..|ns| - 1];
      var last := ns[|ns| - 1];
      AgedRows(front, docs, permits);
      var prev := Aged(front, docs, permits).value;
      var r := Aged(ns, docs, permits).value;
      forall m | m in r
        ensures exists n :: n in ns && n.daysLeft.Some? && n.daysLeft.value > 1 && m == AgeOne(n, docs, permits)
      {
        if m in prev {
          var n :| n in front && n.daysLeft.Some? && n.daysLeft.value > 1 && m == AgeOne(n, docs, permits);
          assert n in ns;
        } else {
          assert m == AgeOne(last, docs, permits);
        }
      }
      forall n | n in ns && n.daysLeft.Some? && n.daysLeft.value > 1 ensures AgeOne(n, docs, permits) in r {
        var i :| 0 <= i < |ns| && ns[i] == n;
        if i < |ns| - 1 {
          assert front[i] == n;
        }
      }
    }
  }

  /** Aging a table is aging its two halves. */
  lemma {:induction false} AgedConcat(a: seq<Notification>, b: seq<Notification>, docs: seq<Document>, permits: seq<WorkPermit>)
    ensures Aged(a + b, docs, permits) ==
      if Aged(a, docs, permits).None? || Aged(b, docs, permits).None? then None
      else Some(Aged(a, docs, permits).value + Aged(b, docs, permits).value)
    decreases |b|
  {
    if b == [] {
      assert a + b == a;
      if Aged(a, docs, permits).Some? {
        assert Aged(a, docs, permits).value + [] == Aged(a, docs, permits).value;
      }
    } else {
      var front := b[..|b| - 1];
      var last := b[|b| - 1];
      assert b == front + [last];
      assert a + b == (a + front) + [last];
      AgedConcat(a, front, docs, permits);
      AgedSnoc(front, last, docs, permits);
      AgedSnoc(a + front, last, docs, permits);
      var pa, pf := Aged(a, docs, permits), Aged(front, docs, permits);
      if pa.Some? && pf.Some? && last.daysLeft.Some? && last.daysLeft.value > 1 {
        var m := AgeOne(last, docs, permits);
        assert pa.value + pf.value + [m] == pa.value + (pf.value + [m]);
      }
    }
  }

  /** Aging one more row at the end. */
  lemma AgedSnoc(ns: seq<Notification>, n: Notification, docs: seq<Document>, permits: seq<WorkPermit>)
    ensures Aged(ns + [n], docs, permits) ==
      if Aged(ns, docs, permits).None? || n.daysLeft.None? then None
      else if n.daysLeft.value > 1 then Some(Aged(ns, docs, permits).value + [AgeOne(n, docs, permits)])
      else Aged(ns, docs, permits)
  {
    var s := ns + [n];
    assert s[..|s| - 1] == ns;
    assert s[|s| - 1] == n;
  }

  /** `decrease_days_left()`: one pass collecting the rows to update and the
      rows to delete, then a bulk update and a bulk delete. Returns false,
      with the table untouched, when a null day count raises. */
  method DecreaseDaysLeft(db: Database) returns (ok: bool)
    requires db.Valid()
    modifies db`notifications
    ensures db.Valid()
    ensures ok <==> Aged(old(db.notifications), db.documents, db.permits).Some?
    ensures ok ==> db.notifications == Aged(old(db.notifications), db.documents, db.permits).value
    ensures !ok ==> db.notifications == old(db.notifications)
  {
    var ns := db.notifications;
    var toUpdate: seq<Notification> := [];
    var i := 0;
    while i < |ns|
      invariant 0 <= i <= |ns|
      invariant Aged(ns[..i], db.documents, db.permits) == Some(toUpdate)
      invariant forall m :: m in toUpdate ==> db.NotificationRefsValid(m)
    {
      var n := ns[i];
      assert ns[..i + 1][..i] == ns[..i] && ns[..i + 1][i] == n;
      if n.daysLeft.None? {
        AgedConcat(ns[..i + 1], ns[i + 1..], db.documents, db.permits);
        assert ns[..i + 1] + ns[i + 1..] == ns;
        return false;
      }
      if n.daysLeft.value > 1 {
        assert n in db.notifications;
        toUpdate := toUpdate + [AgeOne(n, db.documents, db.permits)];
      }
      i := i + 1;
    }
    assert ns[..|ns|] == ns;
    db.SetNotifications(toUpdate);
    return true;
  }

  // ----------------------------------------------------- the daily schedule

  /** Every row the sweep adds has a day count, so the sweep never makes a
      table that aging would fail on. */
  lemma SweptAges(ns: seq<Notification>, docs: seq<Document>, permits: seq<WorkPermit>, employees: seq<Employee>, today: Date, now: Timestamp)
    requires Valid(today) && today.year < MaxYear
    ensures var r := Swept(ns, docs, permits, employees, today, now);
      Aged(r, docs, permits).Some? <==> Aged(ns, docs, permits).Some?
  {
    var r := Swept(ns, docs, permits, employees, today, now);
    var batch := DocumentBatch(SweptDocuments(docs, employees, ns, today), today, now)
      + PermitBatch(SweptPermits(permits, employees, ns, today), today, now);
    assert r == ns + batch;
    forall x | x in batch ensures x.daysLeft.Some? {
      var i :| 0 <= i < |batch| && batch[i] == x;
    }
    AgedFailsOnNull(batch, docs, permits);
    AgedConcat(ns, batch, docs, permits);
  }

  /** With distinct keys, a batch built from selected documents has exactly
      one row naming each of them. */
  lemma BatchRowOfDocument(sd: seq<Document>, today: Date, now: Timestamp, d: Document)
    requires Valid(today) && today.year < MaxYear
    requires forall x :: x in sd ==> InWindow(x.validUntil, today)
    requires DistinctKeys(sd, DocumentKey) && d in sd
    ensures var batch := DocumentBatch(sd, today, now);
      forall k :: 0 <= k < |batch| && batch[k].document == Some(d.id) ==> sd[k] == d
  {
    var batch := DocumentBatch(sd, today, now);
    var kd :| 0 <= kd < |sd| && sd[kd] == d;
    forall k | 0 <= k < |batch| && batch[k].document == Some(d.id) ensures sd[k] == d {
      assert batch[k].document == Some(sd[k].id);
      DistinctKeysIndex(sd, DocumentKey, k, kd);
    }
  }

  /** In old rows, then a document batch, then rows naming no document, the
      only row naming a batch document is its batch row. */
  lemma RowsOfBatchDocument(ns: seq<Notification>, sd: seq<Document>, rest: seq<Notification>, today: Date, now: Timestamp, d: Document)
    requires Valid(today) && today.year < MaxYear
    requires forall x :: x in sd ==> InWindow(x.validUntil, today)
    requires DistinctKeys(sd, DocumentKey) && d in sd
    requires forall x :: x in ns ==> x.document != Some(d.id)
    requires forall x :: x in rest ==> x.document.None?
    ensures var r := ns + DocumentBatch(sd, today, now) + rest;
      BatchDocumentNotice(d, today, now) in r
      && forall x :: x in r && x.document == Some(d.id) ==> x == BatchDocumentNotice(d, today, now)
  {
    var batch := DocumentBatch(sd, today, now);
    var r := ns + batch + rest;
    BatchRowOfDocument(sd, today, now, d);
    var kd :| 0 <= kd < |sd| && sd[kd] == d;
    assert batch[kd] in r;
    forall x | x in batch && x.document == Some(d.id) ensures x == BatchDocumentNotice(d, today, now) {
      var k :| 0 <= k < |batch| && batch[k] == x;
    }
  }

  /** With distinct document keys, the only row of the swept table naming a
      selected document is the batch row built for it. */
  lemma SweptRowsOfDocument(ns: seq<Notification>, docs: seq<Document>, permits: seq<WorkPermit>, employees: seq<Employee>, today: Date, now: Timestamp, d: Document)
    requires Valid(today) && today.year < MaxYear
    requires DistinctKeys(docs, DocumentKey)
    requires d in SweptDocuments(docs, employees, ns, today)
    ensures var r := Swept(ns, docs, permits, employees, today, now);
      BatchDocumentNotice(d, today, now) in r
      && forall x :: x in r && x.document == Some(d.id) ==> x == BatchDocumentNotice(d, today, now)
  {
    var sd := SweptDocuments(docs, employees, ns, today);
    var pb := PermitBatch(SweptPermits(permits, employees, ns, today), today, now);
    FilterDistinct(docs, DocumentKey, DocumentSelector(employees, ns, today));
    assert !DocumentNoticed(ns, d.id);
    forall x | x in pb ensures x.document.None? {
      var k :| 0 <= k < |pb| && pb[k] == x;
    }
    RowsOfBatchDocument(ns, sd, pb, today, now, d);
  }

  /** Creation runs at 01:00 and aging at 01:05, so a document selected by
      the sweep with one day or less to go loses its new notice the same
      morning, and one with more days keeps it, one day shorter. */
  lemma SameMorning(ns: seq<Notification>, docs: seq<Document>, permits: seq<WorkPermit>, employees: seq<Employee>, today: Date, now: Timestamp, d: Document)
    requires Valid(today) && today.year < MaxYear
    requires DistinctKeys(docs, DocumentKey)
    requires Aged(ns, docs, permits).Some?
    requires d in SweptDocuments(docs, employees, ns, today)
    ensures var r := Swept(ns, docs, permits, employees, today, now);
      var v := DaysLeft(d.validUntil.value, today);
      Aged(r, docs, permits).Some?
      && (v <= 1 ==> forall m :: m in Aged(r, docs, permits).value ==> m.document != Some(d.id))
      && (v > 1 ==> exists m :: m in Aged(r, docs, permits).value && m.document == Some(d.id) && m.daysLeft == Some(v - 1))
  {
    var r := Swept(ns, docs, permits, employees, today, now);
    var b := BatchDocumentNotice(d, today, now);
    SweptAges(ns, docs, permits, employees, today, now);
    SweptRowsOfDocument(ns, docs, permits, employees, today, now, d);
    AgedRows(r, docs, permits);
    var aged := Aged(r, docs, permits).value;
    forall m | m in aged && m.document == Some(d.id) ensures m == AgeOne(b, docs, permits) {
      var x :| x in r && x.daysLeft.Some? && x.daysLeft.value > 1 && m == AgeOne(x, docs, permits);
    }
  }
}
