/** `check_and_create_notifications(employee)` (apps/notification/utils.py):
    for one employee, create a "document" notification for every document
    whose expiry falls in the window [today, today + 2 months], and a
    "work_permit" notification for every such permit, unless a notification
    for that row and employee already exists. Dismissed employees get nothing. */
module Reconcile {

  import opened Outcomes
  import opened Text
  import opened Dates
  import opened Seqs
  import opened Entities
  import opened Db
  import opened Notices

  const UnknownType: string := "Невідомий"
  const NoNumber: string := "Не вказано"

  /** Python's `value or default` on an optional string: None and "" are falsy. */
  function OrDefault(o: Option<string>, default: string): (s: string)
    ensures o.Some? && o.value != "" ==> s == o.value
    ensures o.None? || o.value == "" ==> s == default
  {
    if o.Some? && o.value != "" then o.value else default
  }

  /** The inclusive expiry window `today <= expiry <= today + relativedelta(months=2)`. */
  predicate InWindow(expiry: Option<Date>, today: Date)
    requires Valid(today) && today.year < MaxYear
  {
    expiry.Some? && Valid(expiry.value)
    && NotAfter(today, expiry.value) && NotAfter(expiry.value, Horizon(today))
  }

  /** `(expiry - today).days` for an expiry in the window. */
  function DaysLeft(expiry: Date, today: Date): (n: int)
    requires Valid(today) && today.year < MaxYear && InWindow(Some(expiry), today)
    ensures 0 <= n <= 62
  {
    NotAfterOrdinal(today, expiry);
    NotAfterOrdinal(expiry, Horizon(today));
    HorizonSpan(today);
    DaysBetween(expiry, today)
  }

  /** The document text of the per-employee path; it ends with ")" and has no final period. */
  function DocumentMessage(d: Document, today: Date): (s: string)
    requires Valid(today) && today.year < MaxYear && InWindow(d.validUntil, today)
    ensures |s| > 0 && s[|s| - 1] == ')'
  {
    "Документ " + OrDefault(d.docType, UnknownType) + " №" + OrDefault(d.number, NoNumber)
    + " закінчується через " + IntToString(DaysLeft(d.validUntil.value, today))
    + " днів (до " + IsoString(d.validUntil.value) + ")"
  }

  /** The permit text: no number, otherwise the same shape. */
  function PermitMessage(p: WorkPermit, today: Date): (s: string)
    requires Valid(today) && today.year < MaxYear && InWindow(p.endDate, today)
    ensures |s| > 0 && s[|s| - 1] == ')'
  {
    "Документ " + OrDefault(p.docType, UnknownType)
    + " закінчується через " + IntToString(DaysLeft(p.endDate.value, today))
    + " днів (до " + IsoString(p.endDate.value) + ")"
  }

  /** `employee.documents.filter(valid_until in window)`. */
  function DocumentsInWindow(docs: seq<Document>, employee: Id, today: Date): (r: seq<Document>)
    requires Valid(today) && today.year < MaxYear
    ensures forall d :: d in r <==> d in docs && d.employee == employee && InWindow(d.validUntil, today)
  {
    Filter(docs, (d: Document) => d.employee == employee && InWindow(d.validUntil, today))
  }

  /** `employee.work_permits.filter(end_date in window)`. */
  function PermitsInWindow(permits: seq<WorkPermit>, employee: Id, today: Date): (r: seq<WorkPermit>)
    requires Valid(today) && today.year < MaxYear
    ensures forall p :: p in r <==> p in permits && p.employee == employee && InWindow(p.endDate, today)
  {
    Filter(permits, (p: WorkPermit) => p.employee == employee && InWindow(p.endDate, today))
  }

  /** `Notification.objects.filter(document=doc, employee=employee).exists()`. */
  predicate HasDocumentNotice(ns: seq<Notification>, doc: Id, employee: Id) {
    exists n :: n in ns && n.document == Some(doc) && n.employee == employee
  }

  predicate HasPermitNotice(ns: seq<Notification>, permit: Id, employee: Id) {
    exists n :: n in ns && n.workPermit == Some(permit) && n.employee == employee
  }

  function NewDocumentNotice(d: Document, employee: Id, today: Date, now: Timestamp): (n: Notification)
    requires Valid(today) && today.year < MaxYear && InWindow(d.validUntil, today)
    ensures n.kind == DocumentNotice && n.document == Some(d.id) && n.workPermit.None?
    ensures n.employee == employee && n.daysLeft == Some(DaysBetween(d.validUntil.value, today))
    ensures 0 <= n.daysLeft.value <= 62
  {
    Notification(employee, DocumentNotice, Some(d.id), None,
      Some(DocumentMessage(d, today)), Some(DaysLeft(d.validUntil.value, today)), now)
  }

  function NewPermitNotice(p: WorkPermit, employee: Id, today: Date, now: Timestamp): (n: Notification)
    requires Valid(today) && today.year < MaxYear && InWindow(p.endDate, today)
    ensures n.kind == PermitNotice && n.workPermit == Some(p.id) && n.document.None?
    ensures n.employee == employee && n.daysLeft == Some(DaysBetween(p.endDate.value, today))
    ensures 0 <= n.daysLeft.value <= 62
  {
    Notification(employee, PermitNotice, None, Some(p.id),
      Some(PermitMessage(p, today)), Some(DaysLeft(p.endDate.value, today)), now)
  }

  /** The table after the document loop has visited `docs` in order. */
  function AfterDocuments(ns: seq<Notification>, docs: seq<Document>, employee: Id, today: Date, now: Timestamp): seq<Notification>
    requires Valid(today) && today.year < MaxYear
    requires forall d :: d in docs ==> InWindow(d.validUntil, today)
    decreases |docs|
  {
    if docs == [] then ns
    else
      var prev := AfterDocuments(ns, docs[..|docs| - 1], employee, today, now);
      var d := docs[|docs| - 1];
      if HasDocumentNotice(prev, d.id, employee) then prev
      else prev + [NewDocumentNotice(d, employee, today, now)]
  }

  /** The table after the permit loop has visited `permits` in order. */
  function AfterPermits(ns: seq<Notification>, permits: seq<WorkPermit>, employee: Id, today: Date, now: Timestamp): seq<Notification>
    requires Valid(today) && today.year < MaxYear
    requires forall p :: p in permits ==> InWindow(p.endDate, today)
    decreases |permits|
  {
    if permits == [] then ns
    else
      var prev := AfterPermits(ns, permits[..|permits| - 1], employee, today, now);
      var p := permits[|permits| - 1];
      if HasPermitNotice(prev, p.id, employee) then prev
      else prev + [NewPermitNotice(p, employee, today, now)]
  }

  /** The notification table after `check_and_create_notifications(e)`. */
  function Reconciled(ns: seq<Notification>, docs: seq<Document>, permits: seq<WorkPermit>, e: Employee, today: Date, now: Timestamp): seq<Notification>
    requires Valid(today) && today.year < MaxYear
  {
    if IsDismissed(e) then ns
    else
      AfterPermits(
        AfterDocuments(ns, DocumentsInWindow(docs, e.id, today), e.id, today, now),
        PermitsInWindow(permits, e.id, today), e.id, today, now)
  }

  // ------------------------------------------------------------ properties

  /** `n` is the notification the document loop inserts for some in-window row of `docs`. */
  predicate FromDocuments(n: Notification, docs: seq<Document>, employee: Id, today: Date, now: Timestamp)
    requires Valid(today) && today.year < MaxYear
  {
    exists d :: d in docs && InWindow(d.validUntil, today) && n == NewDocumentNotice(d, employee, today, now)
  }

  predicate FromPermits(n: Notification, permits: seq<WorkPermit>, employee: Id, today: Date, now: Timestamp)
    requires Valid(today) && today.year < MaxYear
  {
    exists p :: p in permits && InWindow(p.endDate, today) && n == NewPermitNotice(p, employee, today, now)
  }

  /** No two rows name the same (document, employee) pair. */
  predicate UniqueDocumentNotices(ns: seq<Notification>) {
    forall i, j :: 0 <= i < j < |ns| && ns[i].document.Some? ==>
      ns[i].document != ns[j].document || ns[i].employee != ns[j].employee
  }

  /** No two rows name the same (work permit, employee) pair. */
  predicate UniquePermitNotices(ns: seq<Notification>) {
    forall i, j :: 0 <= i < j < |ns| && ns[i].workPermit.Some? ==>
      ns[i].workPermit != ns[j].workPermit || ns[i].employee != ns[j].employee
  }

  lemma HasDocumentNoticeExtends(ns: seq<Notification>, more: seq<Notification>, doc: Id, employee: Id)
    requires HasDocumentNotice(ns, doc, employee)
    ensures HasDocumentNotice(ns + more, doc, employee)
  {
    var n :| n in ns && n.document == Some(doc) && n.employee == employee;
    assert n in ns + more;
  }

  lemma HasPermitNoticeExtends(ns: seq<Notification>, more: seq<Notification>, permit: Id, employee: Id)
    requires HasPermitNotice(ns, permit, employee)
    ensures HasPermitNotice(ns + more, permit, employee)
  {
    var n :| n in ns && n.workPermit == Some(permit) && n.employee == employee;
    assert n in ns + more;
  }

  /** The document loop only appends: the old rows stay in place, unaltered,
      and at most one row per visited document is added. */
  lemma {:induction false} AfterDocumentsPrefix(ns: seq<Notification>, docs: seq<Document>, employee: Id, today: Date, now: Timestamp)
    requires Valid(today) && today.year < MaxYear
    requires forall d :: d in docs ==> InWindow(d.validUntil, today)
    ensures var r := AfterDocuments(ns, docs, employee, today, now);
      |ns| <= |r| <= |ns| + |docs| && r[..|ns|] == ns
    decreases |docs|
  {
    if docs != [] {
      var front := docs[..|docs| - 1];
      AfterDocumentsPrefix(ns, front, employee, today, now);
      var prev := AfterDocuments(ns, front, employee, today, now);
      var r := AfterDocuments(ns, docs, employee, today, now);
      assert r[..|ns|] == prev[..|ns|];
    }
  }

  /** A notice of a row of a prefix is a notice of a row of the whole. */
  lemma FromDocumentsWiden(n: Notification, front: seq<Document>, docs: seq<Document>, employee: Id, today: Date, now: Timestamp)
    requires Valid(today) && today.year < MaxYear
    requires FromDocuments(n, front, employee, today, now) && forall d :: d in front ==> d in docs
    ensures FromDocuments(n, docs, employee, today, now)
  {
    var d :| d in front && InWindow(d.validUntil, today) && n == NewDocumentNotice(d, employee, today, now);
    assert d in docs;
  }

  /** What the document loop appends are notices of `docs`. */
  lemma {:induction false} AfterDocumentsShape(ns: seq<Notification>, docs: seq<Document>, employee: Id, today: Date, now: Timestamp)
    requires Valid(today) && today.year < MaxYear
    requires forall d :: d in docs ==> InWindow(d.validUntil, today)
    ensures var r := AfterDocuments(ns, docs, employee, today, now);
      |ns| <= |r| && forall k :: |ns| <= k < |r| ==> FromDocuments(r[k], docs, employee, today, now)
    decreases |docs|
  {
    AfterDocumentsPrefix(ns, docs, employee, today, now);
    if docs != [] {
      var front := docs[..|docs| - 1];
      var last := docs[|docs| - 1];
      AfterDocumentsShape(ns, front, employee, today, now);
      var prev := AfterDocuments(ns, front, employee, today, now);
      var r := AfterDocuments(ns, docs, employee, today, now);
      forall k | |ns| <= k < |r| ensures FromDocuments(r[k], docs, employee, today, now) {
        if k < |prev| {
          assert r[k] == prev[k];
          FromDocumentsWiden(prev[k], front, docs, employee, today, now);
        } else {
          assert last in docs && r[k] == NewDocumentNotice(last, employee, today, now);
        }
      }
    }
  }

  /** The permit loop only appends: the old rows stay in place, unaltered,
      and at most one row per visited permit is added. */
  lemma {:induction false} AfterPermitsPrefix(ns: seq<Notification>, permits: seq<WorkPermit>, employee: Id, today: Date, now: Timestamp)
    requires Valid(today) && today.year < MaxYear
    requires forall p :: p in permits ==> InWindow(p.endDate, today)
    ensures var r := AfterPermits(ns, permits, employee, today, now);
      |ns| <= |r| <= |ns| + |permits| && r[..|ns|] == ns
    decreases |permits|
  {
    if permits != [] {
      var front := permits[..|permits| - 1];
      AfterPermitsPrefix(ns, front, employee, today, now);
      var prev := AfterPermits(ns, front, employee, today, now);
      var r := AfterPermits(ns, permits, employee, today, now);
      assert r[..|ns|] == prev[..|ns|];
    }
  }

  /** A notice of a row of a prefix is a notice of a row of the whole. */
  lemma FromPermitsWiden(n: Notification, front: seq<WorkPermit>, permits: seq<WorkPermit>, employee: Id, today: Date, now: Timestamp)
    requires Valid(today) && today.year < MaxYear
    requires FromPermits(n, front, employee, today, now) && forall p :: p in front ==> p in permits
    ensures FromPermits(n, permits, employee, today, now)
  {
    var p :| p in front && InWindow(p.endDate, today) && n == NewPermitNotice(p, employee, today, now);
    assert p in permits;
  }

  /** What the permit loop appends are notices of `permits`. */
  lemma {:induction false} AfterPermitsShape(ns: seq<Notification>, permits: seq<WorkPermit>, employee: Id, today: Date, now: Timestamp)
    requires Valid(today) && today.year < MaxYear
    requires forall p :: p in permits ==> InWindow(p.endDate, today)
    ensures var r := AfterPermits(ns, permits, employee, today, now);
      |ns| <= |r| && forall k :: |ns| <= k < |r| ==> FromPermits(r[k], permits, employee, today, now)
    decreases |permits|
  {
    AfterPermitsPrefix(ns, permits, employee, today, now);
    if permits != [] {
      var front := permits[..|permits| - 1];
      var last := permits[|permits| - 1];
      AfterPermitsShape(ns, front, employee, today, now);
      var prev := AfterPermits(ns, front, employee, today, now);
      var r := AfterPermits(ns, permits, employee, today, now);
      forall k | |ns| <= k < |r| ensures FromPermits(r[k], permits, employee, today, now) {
        if k < |prev| {
          assert r[k] == prev[k];
          FromPermitsWiden(prev[k], front, permits, employee, today, now);
        } else {
          assert last in permits && r[k] == NewPermitNotice(last, employee, today, now);
        }
      }
    }
  }

  /** After the document loop every visited document has its notice. */
  lemma {:induction false} AfterDocumentsCovers(ns: seq<Notification>, docs: seq<Document>, employee: Id, today: Date, now: Timestamp)
    requires Valid(today) && today.year < MaxYear
    requires forall d :: d in docs ==> InWindow(d.validUntil, today)
    ensures forall d :: d in docs ==> HasDocumentNotice(AfterDocuments(ns, docs, employee, today, now), d.id, employee)
    decreases |docs|
  {
    if docs != [] {
      var front := docs[..|docs| - 1];
      var last := docs[|docs| - 1];
      AfterDocumentsCovers(ns, front, employee, today, now);
      var prev := AfterDocuments(ns, front, employee, today, now);
      var r := AfterDocuments(ns, docs, employee, today, now);
      forall d | d in docs ensures HasDocumentNotice(r, d.id, employee) {
        if HasDocumentNotice(prev, last.id, employee) {
          assert r == prev;
          if d != last {
            assert d in front;
          }
        } else {
          assert r == prev + [NewDocumentNotice(last, employee, today, now)];
          if d == last {
            assert r[|prev|] in r;
          } else {
            assert d in front;
            HasDocumentNoticeExtends(prev, [NewDocumentNotice(last, employee, today, now)], d.id, employee);
          }
        }
      }
    }
  }

  /** After the permit loop every visited permit has its notice. */
  lemma {:induction false} AfterPermitsCovers(ns: seq<Notification>, permits: seq<WorkPermit>, employee: Id, today: Date, now: Timestamp)
    requires Valid(today) && today.year < MaxYear
    requires forall p :: p in permits ==> InWindow(p.endDate, today)
    ensures forall p :: p in permits ==> HasPermitNotice(AfterPermits(ns, permits, employee, today, now), p.id, employee)
    decreases |permits|
  {
    if permits != [] {
      var front := permits[..|permits| - 1];
      var last := permits[|permits| - 1];
      AfterPermitsCovers(ns, front, employee, today, now);
      var prev := AfterPermits(ns, front, employee, today, now);
      var r := AfterPermits(ns, permits, employee, today, now);
      forall p | p in permits ensures HasPermitNotice(r, p.id, employee) {
        if HasPermitNotice(prev, last.id, employee) {
          assert r == prev;
          if p != last {
            assert p in front;
          }
        } else {
          assert r == prev + [NewPermitNotice(last, employee, today, now)];
          if p == last {
            assert r[|prev|] in r;
          } else {
            assert p in front;
            HasPermitNoticeExtends(prev, [NewPermitNotice(last, employee, today, now)], p.id, employee);
          }
        }
      }
    }
  }

  /** When every document already has its notice, the loop inserts nothing. */
  lemma {:induction false} AfterDocumentsCovered(ns: seq<Notification>, docs: seq<Document>, employee: Id, today: Date, now: Timestamp)
    requires Valid(today) && today.year < MaxYear
    requires forall d :: d in docs ==> InWindow(d.validUntil, today)
    requires forall d :: d in docs ==> HasDocumentNotice(ns, d.id, employee)
    ensures AfterDocuments(ns, docs, employee, today, now) == ns
    decreases |docs|
  {
    if docs != [] {
      AfterDocumentsCovered(ns, docs[..|docs| - 1], employee, today, now);
      assert docs[|docs| - 1] in docs;
    }
  }

  lemma {:induction false} AfterPermitsCovered(ns: seq<Notification>, permits: seq<WorkPermit>, employee: Id, today: Date, now: Timestamp)
    requires Valid(today) && today.year < MaxYear
    requires forall p :: p in permits ==> InWindow(p.endDate, today)
    requires forall p :: p in permits ==> HasPermitNotice(ns, p.id, employee)
    ensures AfterPermits(ns, permits, employee, today, now) == ns
    decreases |permits|
  {
    if permits != [] {
      AfterPermitsCovered(ns, permits[..|permits| - 1], employee, today, now);
      assert permits[|permits| - 1] in permits;
    }
  }

  /** The document loop keeps (document, employee) pairs unique, and adds no permit notices. */
  lemma {:induction false} AfterDocumentsUnique(ns: seq<Notification>, docs: seq<Document>, employee: Id, today: Date, now: Timestamp)
    requires Valid(today) && today.year < MaxYear
    requires forall d :: d in docs ==> InWindow(d.validUntil, today)
    requires UniqueDocumentNotices(ns) && UniquePermitNotices(ns)
    ensures UniqueDocumentNotices(AfterDocuments(ns, docs, employee, today, now))
    ensures UniquePermitNotices(AfterDocuments(ns, docs, employee, today, now))
    decreases |docs|
  {
    if docs != [] {
      var front := docs[..|docs| - 1];
      var last := docs[|docs| - 1];
      AfterDocumentsUnique(ns, front, employee, today, now);
      var prev := AfterDocuments(ns, front, employee, today, now);
      if !HasDocumentNotice(prev, last.id, employee) {
        var r := prev + [NewDocumentNotice(last, employee, today, now)];
        forall i, j | 0 <= i < j < |r| && r[i].document.Some?
          ensures r[i].document != r[j].document || r[i].employee != r[j].employee
        {
          if j == |prev| {
            assert r[i] in prev;
          }
        }
      }
    }
  }

  /** The permit loop keeps (permit, employee) pairs unique, and adds no document notices. */
  lemma {:induction false} AfterPermitsUnique(ns: seq<Notification>, permits: seq<WorkPermit>, employee: Id, today: Date, now: Timestamp)
    requires Valid(today) && today.year < MaxYear
    requires forall p :: p in permits ==> InWindow(p.endDate, today)
    requires UniqueDocumentNotices(ns) && UniquePermitNotices(ns)
    ensures UniqueDocumentNotices(AfterPermits(ns, permits, employee, today, now))
    ensures UniquePermitNotices(AfterPermits(ns, permits, employee, today, now))
    decreases |permits|
  {
    if permits != [] {
      var front := permits[..|permits| - 1];
      var last := permits[|permits| - 1];
      AfterPermitsUnique(ns, front, employee, today, now);
      var prev := AfterPermits(ns, front, employee, today, now);
      if !HasPermitNotice(prev, last.id, employee) {
        var r := prev + [NewPermitNotice(last, employee, today, now)];
        forall i, j | 0 <= i < j < |r| && r[i].workPermit.Some?
          ensures r[i].workPermit != r[j].workPermit || r[i].employee != r[j].employee
        {
          if j == |prev| {
            assert r[i] in prev;
          }
        }
      }
    }
  }

  /** A document whose key no visited document shares gets no notice from the loop. */
  lemma FreshDocumentUnnoticed(ns: seq<Notification>, docs: seq<Document>, id: Id, employee: Id, today: Date, now: Timestamp)
    requires Valid(today) && today.year < MaxYear
    requires forall d :: d in docs ==> InWindow(d.validUntil, today)
    requires forall d :: d in docs ==> d.id != id
    requires !HasDocumentNotice(ns, id, employee)
    ensures !HasDocumentNotice(AfterDocuments(ns, docs, employee, today, now), id, employee)
  {
    AfterDocumentsPrefix(ns, docs, employee, today, now);
    AfterDocumentsShape(ns, docs, employee, today, now);
    var r := AfterDocuments(ns, docs, employee, today, now);
    forall m | m in r && m.employee == employee ensures m.document != Some(id) {
      var k :| 0 <= k < |r| && r[k] == m;
      if k < |ns| {
        assert r[..|ns|][k] == m;
      } else {
        var d :| d in docs && InWindow(d.validUntil, today) && m == NewDocumentNotice(d, employee, today, now);
        assert m.document == Some(d.id);
      }
    }
  }

  lemma FreshPermitUnnoticed(ns: seq<Notification>, permits: seq<WorkPermit>, id: Id, employee: Id, today: Date, now: Timestamp)
    requires Valid(today) && today.year < MaxYear
    requires forall p :: p in permits ==> InWindow(p.endDate, today)
    requires forall p :: p in permits ==> p.id != id
    requires !HasPermitNotice(ns, id, employee)
    ensures !HasPermitNotice(AfterPermits(ns, permits, employee, today, now), id, employee)
  {
    AfterPermitsPrefix(ns, permits, employee, today, now);
    AfterPermitsShape(ns, permits, employee, today, now);
    var r := AfterPermits(ns, permits, employee, today, now);
    forall m | m in r && m.employee == employee ensures m.workPermit != Some(id) {
      var k :| 0 <= k < |r| && r[k] == m;
      if k < |ns| {
        assert r[..|ns|][k] == m;
      } else {
        var p :| p in permits && InWindow(p.endDate, today) && m == NewPermitNotice(p, employee, today, now);
        assert m.workPermit == Some(p.id);
      }
    }
  }

  /** With distinct document keys and no notice yet for any of them, the loop
      inserts exactly one notice per document. */
  lemma {:induction false} AfterDocumentsCount(ns: seq<Notification>, docs: seq<Document>, employee: Id, today: Date, now: Timestamp)
    requires Valid(today) && today.year < MaxYear
    requires forall d :: d in docs ==> InWindow(d.validUntil, today)
    requires DistinctKeys(docs, DocumentKey)
    requires forall d :: d in docs ==> !HasDocumentNotice(ns, d.id, employee)
    ensures |AfterDocuments(ns, docs, employee, today, now)| == |ns| + |docs|
    decreases |docs|
  {
    if docs != [] {
      var front := docs[..|docs| - 1];
      var last := docs[|docs| - 1];
      assert DistinctKeys(front, DocumentKey);
      AfterDocumentsCount(ns, front, employee, today, now);
      forall d | d in front ensures d.id != last.id {
        var j :| 0 <= j < |front| && front[j] == d;
        assert DocumentKey(docs[j]) != DocumentKey(docs[|docs| - 1]);
      }
      assert last in docs;
      FreshDocumentUnnoticed(ns, front, last.id, employee, today, now);
    }
  }

  lemma {:induction false} AfterPermitsCount(ns: seq<Notification>, permits: seq<WorkPermit>, employee: Id, today: Date, now: Timestamp)
    requires Valid(today) && today.year < MaxYear
    requires forall p :: p in permits ==> InWindow(p.endDate, today)
    requires DistinctKeys(permits, PermitKey)
    requires forall p :: p in permits ==> !HasPermitNotice(ns, p.id, employee)
    ensures |AfterPermits(ns, permits, employee, today, now)| == |ns| + |permits|
    decreases |permits|
  {
    if permits != [] {
      var front := permits[..|permits| - 1];
      var last := permits[|permits| - 1];
      assert DistinctKeys(front, PermitKey);
      AfterPermitsCount(ns, front, employee, today, now);
      forall p | p in front ensures p.id != last.id {
        var j :| 0 <= j < |front| && front[j] == p;
        assert PermitKey(permits[j]) != PermitKey(permits[|permits| - 1]);
      }
      assert last in permits;
      FreshPermitUnnoticed(ns, front, last.id, employee, today, now);
    }
  }

  /** The two-digit day count keeps a document text within the 255-character
      column whenever its type and number text together stay within 201
      characters; with both at their 128-character column limit it does not fit. */
  lemma DocumentMessageFits(d: Document, today: Date)
    requires Valid(today) && today.year < MaxYear && InWindow(d.validUntil, today)
    ensures var t := |OrDefault(d.docType, UnknownType)| + |OrDefault(d.number, NoNumber)|;
      var m := |DocumentMessage(d, today)|;
      53 + t <= m <= 54 + t && (t <= 201 ==> m <= MessageMaxLength)
  {
    var days := DaysLeft(d.validUntil.value, today);
    assert |IntToString(days)| <= 2 by {
      if days >= 10 {
        assert NatToString(days) == NatToString(days / 10) + [DigitChar(days % 10)];
      }
    }
  }

  lemma PermitMessageFits(p: WorkPermit, today: Date)
    requires Valid(today) && today.year < MaxYear && InWindow(p.endDate, today)
    ensures var t := |OrDefault(p.docType, UnknownType)|;
      var m := |PermitMessage(p, today)|;
      51 + t <= m <= 52 + t && (t <= 203 ==> m <= MessageMaxLength)
  {
    var days := DaysLeft(p.endDate.value, today);
    assert |IntToString(days)| <= 2 by {
      if days >= 10 {
        assert NatToString(days) == NatToString(days / 10) + [DigitChar(days % 10)];
      }
    }
  }

  // ------------------------------------------------ the whole reconciliation

  /** A dismissed employee leaves the table as it was; otherwise the old rows
      stay in place, unaltered, and every added row is the notice of an
      in-window document or permit of this employee. */
  lemma ReconciledExtends(ns: seq<Notification>, docs: seq<Document>, permits: seq<WorkPermit>, e: Employee, today: Date, now: Timestamp)
    requires Valid(today) && today.year < MaxYear
    ensures IsDismissed(e) ==> Reconciled(ns, docs, permits, e, today, now) == ns
    ensures var r := Reconciled(ns, docs, permits, e, today, now);
      |ns| <= |r| && r[..|ns|] == ns
      && forall k :: |ns| <= k < |r| ==>
           FromDocuments(r[k], DocumentsInWindow(docs, e.id, today), e.id, today, now)
           || FromPermits(r[k], PermitsInWindow(permits, e.id, today), e.id, today, now)
  {
    if !IsDismissed(e) {
      var dw := DocumentsInWindow(docs, e.id, today);
      var pw := PermitsInWindow(permits, e.id, today);
      var mid := AfterDocuments(ns, dw, e.id, today, now);
      AfterDocumentsPrefix(ns, dw, e.id, today, now);
      AfterDocumentsShape(ns, dw, e.id, today, now);
      AfterPermitsPrefix(mid, pw, e.id, today, now);
      AfterPermitsShape(mid, pw, e.id, today, now);
      var r := AfterPermits(mid, pw, e.id, today, now);
      assert r[..|mid|][..|ns|] == r[..|ns|];
      forall k | |ns| <= k < |r|
        ensures FromDocuments(r[k], dw, e.id, today, now) || FromPermits(r[k], pw, e.id, today, now)
      {
        if k < |mid| {
          assert r[..|mid|][k] == r[k];
        }
      }
    }
  }

  /** Every created notice carries a day count inside the window, 0 to 62. */
  lemma CreatedDaysLeftBounded(ns: seq<Notification>, docs: seq<Document>, permits: seq<WorkPermit>, e: Employee, today: Date, now: Timestamp)
    requires Valid(today) && today.year < MaxYear
    ensures var r := Reconciled(ns, docs, permits, e, today, now);
      forall k :: |ns| <= k < |r| ==> r[k].employee == e.id && r[k].daysLeft.Some? && 0 <= r[k].daysLeft.value <= 62
  {
    ReconciledExtends(ns, docs, permits, e, today, now);
    var r := Reconciled(ns, docs, permits, e, today, now);
    var dw := DocumentsInWindow(docs, e.id, today);
    var pw := PermitsInWindow(permits, e.id, today);
    forall k | |ns| <= k < |r| ensures r[k].employee == e.id && r[k].daysLeft.Some? && 0 <= r[k].daysLeft.value <= 62 {
      if FromDocuments(r[k], dw, e.id, today, now) {
        var d :| d in dw && InWindow(d.validUntil, today) && r[k] == NewDocumentNotice(d, e.id, today, now);
        assert r[k].daysLeft.value == DaysLeft(d.validUntil.value, today);
      } else {
        var p :| p in pw && InWindow(p.endDate, today) && r[k] == NewPermitNotice(p, e.id, today, now);
        assert r[k].daysLeft.value == DaysLeft(p.endDate.value, today);
      }
    }
  }

  /** For an employee still employed, every in-window document and permit
      has its notice afterwards. */
  lemma ReconciledCovers(ns: seq<Notification>, docs: seq<Document>, permits: seq<WorkPermit>, e: Employee, today: Date, now: Timestamp)
    requires Valid(today) && today.year < MaxYear && !IsDismissed(e)
    ensures var r := Reconciled(ns, docs, permits, e, today, now);
      (forall d :: d in docs && d.employee == e.id && InWindow(d.validUntil, today) ==> HasDocumentNotice(r, d.id, e.id))
      && (forall p :: p in permits && p.employee == e.id && InWindow(p.endDate, today) ==> HasPermitNotice(r, p.id, e.id))
  {
    var dw := DocumentsInWindow(docs, e.id, today);
    var pw := PermitsInWindow(permits, e.id, today);
    var mid := AfterDocuments(ns, dw, e.id, today, now);
    AfterDocumentsCovers(ns, dw, e.id, today, now);
    AfterPermitsCovers(mid, pw, e.id, today, now);
    forall d | d in dw ensures HasDocumentNotice(AfterPermits(mid, pw, e.id, today, now), d.id, e.id) {
      AfterPermitsKeepsDocumentNotices(mid, pw, d.id, e.id, today, now);
    }
  }

  /** The permit loop keeps every document notice already in the table. */
  lemma AfterPermitsKeepsDocumentNotices(ns: seq<Notification>, permits: seq<WorkPermit>, doc: Id, employee: Id, today: Date, now: Timestamp)
    requires Valid(today) && today.year < MaxYear
    requires forall p :: p in permits ==> InWindow(p.endDate, today)
    requires HasDocumentNotice(ns, doc, employee)
    ensures HasDocumentNotice(AfterPermits(ns, permits, employee, today, now), doc, employee)
  {
    AfterPermitsPrefix(ns, permits, employee, today, now);
    var r := AfterPermits(ns, permits, employee, today, now);
    var n :| n in ns && n.document == Some(doc) && n.employee == employee;
    var k :| 0 <= k < |ns| && ns[k] == n;
    assert r[..|ns|][k] == r[k];
    assert r[k] in r;
  }

  /** A second call with the same data inserts nothing. */
  lemma ReconciledIdempotent(ns: seq<Notification>, docs: seq<Document>, permits: seq<WorkPermit>, e: Employee, today: Date, now: Timestamp, later: Timestamp)
    requires Valid(today) && today.year < MaxYear
    ensures var r := Reconciled(ns, docs, permits, e, today, now);
      Reconciled(r, docs, permits, e, today, later) == r
  {
    if !IsDismissed(e) {
      var r := Reconciled(ns, docs, permits, e, today, now);
      ReconciledCovers(ns, docs, permits, e, today, now);
      var dw := DocumentsInWindow(docs, e.id, today);
      var pw := PermitsInWindow(permits, e.id, today);
      AfterDocumentsCovered(r, dw, e.id, today, later);
      AfterPermitsCovered(r, pw, e.id, today, later);
    }
  }

  /** Uniqueness per (document, employee) and per (permit, employee) survives a call. */
  lemma ReconciledKeepsUnique(ns: seq<Notification>, docs: seq<Document>, permits: seq<WorkPermit>, e: Employee, today: Date, now: Timestamp)
    requires Valid(today) && today.year < MaxYear
    requires UniqueDocumentNotices(ns) && UniquePermitNotices(ns)
    ensures UniqueDocumentNotices(Reconciled(ns, docs, permits, e, today, now))
    ensures UniquePermitNotices(Reconciled(ns, docs, permits, e, today, now))
  {
    if !IsDismissed(e) {
      var dw := DocumentsInWindow(docs, e.id, today);
      var pw := PermitsInWindow(permits, e.id, today);
      AfterDocumentsUnique(ns, dw, e.id, today, now);
      AfterPermitsUnique(AfterDocuments(ns, dw, e.id, today, now), pw, e.id, today, now);
    }
  }

  /** On an empty table, one notice per in-window document plus one per in-window permit. */
  lemma ReconciledOnEmptyTable(docs: seq<Document>, permits: seq<WorkPermit>, e: Employee, today: Date, now: Timestamp)
    requires Valid(today) && today.year < MaxYear && !IsDismissed(e)
    requires DistinctKeys(docs, DocumentKey) && DistinctKeys(permits, PermitKey)
    ensures |Reconciled([], docs, permits, e, today, now)|
      == |DocumentsInWindow(docs, e.id, today)| + |PermitsInWindow(permits, e.id, today)|
  {
    var dw := DocumentsInWindow(docs, e.id, today);
    var pw := PermitsInWindow(permits, e.id, today);
    FilterDistinct(docs, DocumentKey, (d: Document) => d.employee == e.id && InWindow(d.validUntil, today));
    FilterDistinct(permits, PermitKey, (p: WorkPermit) => p.employee == e.id && InWindow(p.endDate, today));
    AfterDocumentsCount([], dw, e.id, today, now);
    AfterDocumentsShape([], dw, e.id, today, now);
    var mid := AfterDocuments([], dw, e.id, today, now);
    forall p | p in pw ensures !HasPermitNotice(mid, p.id, e.id) {
      forall m | m in mid ensures m.workPermit.None? {
        var k :| 0 <= k < |mid| && mid[k] == m;
        assert FromDocuments(mid[k], dw, e.id, today, now);
      }
    }
    AfterPermitsCount(mid, pw, e.id, today, now);
  }

  method CheckAndCreateNotifications(db: Database, e: Employee, today: Date, now: Timestamp)
    requires db.Valid() && Valid(today) && today.year < MaxYear
    modifies db`notifications
    ensures db.Valid()
    ensures db.notifications == Reconciled(old(db.notifications), db.documents, db.permits, e, today, now)
  {
    if e.workingStatus == Some(Dismissed) {
      return;
    }
    CreateDocumentNotices(db, e, today, now);
    CreatePermitNotices(db, e, today, now);
  }

  /** One unfolding of `AfterDocuments` at the element just visited. */
  lemma AfterDocumentsStep(ns: seq<Notification>, docs: seq<Document>, i: nat, employee: Id, today: Date, now: Timestamp)
    requires Valid(today) && today.year < MaxYear
    requires forall d :: d in docs ==> InWindow(d.validUntil, today)
    requires i < |docs|
    ensures forall d :: d in docs[..i] ==> InWindow(d.validUntil, today)
    ensures var prev := AfterDocuments(ns, docs[..i], employee, today, now);
      AfterDocuments(ns, docs[..i + 1], employee, today, now)
      == if HasDocumentNotice(prev, docs[i].id, employee) then prev
         else prev + [NewDocumentNotice(docs[i], employee, today, now)]
  {
    assert docs[..i + 1][..i] == docs[..i];
  }

  lemma AfterPermitsStep(ns: seq<Notification>, permits: seq<WorkPermit>, i: nat, employee: Id, today: Date, now: Timestamp)
    requires Valid(today) && today.year < MaxYear
    requires forall p :: p in permits ==> InWindow(p.endDate, today)
    requires i < |permits|
    ensures forall p :: p in permits[..i] ==> InWindow(p.endDate, today)
    ensures var prev := AfterPermits(ns, permits[..i], employee, today, now);
      AfterPermits(ns, permits[..i + 1], employee, today, now)
      == if HasPermitNotice(prev, permits[i].id, employee) then prev
         else prev + [NewPermitNotice(permits[i], employee, today, now)]
  {
    assert permits[..i + 1][..i] == permits[..i];
  }

  /** The body of the document loop for one document `d` of employee `e`. */
  method VisitDocument(db: Database, d: Document, e: Employee, today: Date, now: Timestamp)
    requires db.Valid() && Valid(today) && today.year < MaxYear
    requires d in db.documents && d.employee == e.id && InWindow(d.validUntil, today)
    modifies db`notifications
    ensures db.Valid()
    ensures db.notifications == if HasDocumentNotice(old(db.notifications), d.id, e.id) then old(db.notifications)
      else old(db.notifications) + [NewDocumentNotice(d, e.id, today, now)]
  {
    DocumentRefs(db, d);
    if !HasDocumentNotice(db.notifications, d.id, e.id) {
      var days := DaysLeft(d.validUntil.value, today);
      var text := DocumentMessage(d, today);
      db.AppendNotification(Notification(e.id, DocumentNotice, Some(d.id), None, Some(text), Some(days), now));
    }
  }

  /** The body of the permit loop for one permit `p` of employee `e`. */
  method VisitPermit(db: Database, p: WorkPermit, e: Employee, today: Date, now: Timestamp)
    requires db.Valid() && Valid(today) && today.year < MaxYear
    requires p in db.permits && p.employee == e.id && InWindow(p.endDate, today)
    modifies db`notifications
    ensures db.Valid()
    ensures db.notifications == if HasPermitNotice(old(db.notifications), p.id, e.id) then old(db.notifications)
      else old(db.notifications) + [NewPermitNotice(p, e.id, today, now)]
  {
    PermitRefs(db, p);
    if !HasPermitNotice(db.notifications, p.id, e.id) {
      var days := DaysLeft(p.endDate.value, today);
      var text := PermitMessage(p, today);
      db.AppendNotification(Notification(e.id, PermitNotice, None, Some(p.id), Some(text), Some(days), now));
    }
  }

  /** The document loop. */
  method CreateDocumentNotices(db: Database, e: Employee, today: Date, now: Timestamp)
    requires db.Valid() && Valid(today) && today.year < MaxYear
    modifies db`notifications
    ensures db.Valid()
    ensures db.notifications == AfterDocuments(old(db.notifications), DocumentsInWindow(db.documents, e.id, today), e.id, today, now)
  {
    var docs := DocumentsInWindow(db.documents, e.id, today);
    var i := 0;
    while i < |docs|
      invariant 0 <= i <= |docs|
      invariant db.Valid()
      invariant db.notifications == AfterDocuments(old(db.notifications), docs[..i], e.id, today, now)
    {
      AfterDocumentsStep(old(db.notifications), docs, i, e.id, today, now);
      VisitDocument(db, docs[i], e, today, now);
      i := i + 1;
    }
    assert docs[..|docs|] == docs;
  }

  /** The permit loop. */
  method CreatePermitNotices(db: Database, e: Employee, today: Date, now: Timestamp)
    requires db.Valid() && Valid(today) && today.year < MaxYear
    modifies db`notifications
    ensures db.Valid()
    ensures db.notifications == AfterPermits(old(db.notifications), PermitsInWindow(db.permits, e.id, today), e.id, today, now)
  {
    var permits := PermitsInWindow(db.permits, e.id, today);
    var j := 0;
    while j < |permits|
      invariant 0 <= j <= |permits|
      invariant db.Valid()
      invariant db.notifications == AfterPermits(old(db.notifications), permits[..j], e.id, today, now)
    {
      AfterPermitsStep(old(db.notifications), permits, j, e.id, today, now);
      VisitPermit(db, permits[j], e, today, now);
      j := j + 1;
    }
    assert permits[..|permits|] == permits;
  }
}
