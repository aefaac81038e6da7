/** The field-level audit trail of apps/main/models.py: `HistoryMixin.save`
    writes one "updated" History row per field whose normalised value
    changed, `HistoryMixin.delete` purges the rows of the object, and
    `_prepare_value` is the normalisation. A model row is seen here as its
    list of fields in declaration order (`_meta.fields`). */
module Audit {

  import opened Outcomes
  import opened Text
  import opened Dates
  import opened Seqs
  import opened Entities
  import opened Db
  import opened ChangeUser

  // ------------------------------------------------------------ field values

  /** The Python value held by one model field. A related row is held as its
      `str()`; date-times (only `created_at`/`updated_at`) as their text. */
  datatype FieldValue =
    | NoValue
    | BoolValue(b: bool)
    | IntValue(i: int)
    | TextValue(s: string)
    | DateValue(d: Date)
    | RelatedValue(str: string)
    | DateTimeValue(text: string)

  predicate WellFormed(v: FieldValue) { v.DateValue? ==> Valid(v.d) }

  /** `_prepare_value`: None to "", bool/number/model to `str(v)`, anything
      else to `str(v).strip()`. */
  function PrepareValue(v: FieldValue): (s: string)
    requires WellFormed(v)
    ensures v.NoValue? ==> s == ""
    ensures v.BoolValue? ==> s == (if v.b then "True" else "False")
    ensures v.RelatedValue? ==> s == v.str
    ensures v.TextValue? ==> s == Strip(v.s)
  {
    match v
    case NoValue => ""
    case BoolValue(b) => if b then "True" else "False"
    case IntValue(i) => IntToString(i)
    case RelatedValue(str) => str
    case TextValue(s) => Strip(s)
    case DateValue(d) => Strip(IsoString(d))
    case DateTimeValue(text) => Strip(text)
  }

  /** A date normalises to its ISO text: stripping finds no blank in it. */
  lemma PreparedDateIsIso(d: Date)
    requires Valid(d)
    ensures PrepareValue(DateValue(d)) == IsoString(d)
  {
    var s := IsoString(d);
    assert IsDigit(s[0]) by {
      assert s[..4][0] == s[0];
    }
    assert IsDigit(s[9]) by {
      assert s[8..][1] == s[9];
    }
    StripUnpadded(s);
  }

  /** Two texts differing only in surrounding blanks normalise alike, so
      such a change is not logged. */
  lemma NormalisationIgnoresBlanks(s: string)
    ensures PrepareValue(TextValue(s)) == PrepareValue(TextValue(Strip(s)))
  {
    StripIdempotent(s);
  }

  /** A null field normalises like an empty text, so clearing a text field to
      null is not logged; a boolean is never confused with a null. */
  lemma NormalisationOfNull(b: bool)
    ensures PrepareValue(NoValue) == PrepareValue(TextValue(""))
    ensures PrepareValue(BoolValue(b)) != PrepareValue(NoValue)
  {
    assert Strip("") == "";
    assert |PrepareValue(BoolValue(b))| > 0;
  }

  // ---------------------------------------------------------- field lists

  datatype Field = Field(name: string, value: FieldValue)

  /** `history_exclude_fields`. */
  const Excluded: seq<string> := ["updated_at", "created_at"]

  /** Two snapshots of the same class: the same field names in the same order. */
  predicate SameFields(older: seq<Field>, newer: seq<Field>) {
    |older| == |newer|
    && (forall i :: 0 <= i < |older| ==> older[i].name == newer[i].name)
    && (forall i :: 0 <= i < |older| ==> WellFormed(older[i].value) && WellFormed(newer[i].value))
  }

  predicate DistinctNames(fs: seq<Field>) {
    forall i, j :: 0 <= i < j < |fs| ==> fs[i].name != fs[j].name
  }

  function OptDate(d: Option<Date>): FieldValue {
    match d
    case Some(x) => DateValue(x)
    case None => NoValue
  }

  function OptText(s: Option<string>): FieldValue {
    match s
    case Some(x) => TextValue(x)
    case None => NoValue
  }

  function OptBool(b: Option<bool>): FieldValue {
    match b
    case Some(x) => BoolValue(x)
    case None => NoValue
  }

  function OptInt(n: Option<nat>): FieldValue {
    match n
    case Some(x) => IntValue(x)
    case None => NoValue
  }

  /** The dates a row holds are real calendar dates (a `DateField` holds nothing else). */
  predicate OptValid(d: Option<Date>) { d.Some? ==> Valid(d.value) }

  /** The fields of an Employee row in declaration order. */
  function EmployeeFields(e: Employee): (fs: seq<Field>)
    requires OptValid(e.studentEndDate)
    ensures |fs| == 14
    ensures forall i :: 0 <= i < |fs| ==> WellFormed(fs[i].value)
  {
    [ Field("id", IntValue(e.id)),
      Field("first_name", TextValue(e.firstName)),
      Field("last_name", TextValue(e.lastName)),
      Field("age", OptInt(e.age)),
      Field("is_student", OptBool(e.isStudent)),
      Field("pesel", OptText(e.pesel)),
      Field("pesel_urk", OptBool(e.peselUrk)),
      Field("workplace", OptText(e.workplace)),
      Field("pit_2", OptBool(e.pit2)),
      StatusField(e.workingStatus),
      Field("additional_information", OptText(e.additionalInformation)),
      Field("created_at", DateTimeValue(IntToString(e.createdAt))),
      Field("updated_at", DateTimeValue(IntToString(e.updatedAt))),
      Field("student_end_date", OptDate(e.studentEndDate)) ]
  }

  /** The `working_status` field of an Employee row. */
  function StatusField(s: Option<string>): Field { Field("working_status", OptText(s)) }

  /** Reassigning the status changes the status field of the row and no other. */
  lemma EmployeeFieldsStatus(e: Employee, s: Option<string>)
    requires OptValid(e.studentEndDate)
    ensures EmployeeFields(e)[9] == StatusField(e.workingStatus)
    ensures EmployeeFields(e.(workingStatus := s)) == EmployeeFields(e)[9 := StatusField(s)]
  {
  }

  /** The fields of a Document row; `owner` is `str()` of its employee. */
  function DocumentFields(d: Document, owner: string): (fs: seq<Field>)
    requires OptValid(d.validUntil)
    ensures |fs| == 5 && DistinctNames(fs)
    ensures forall i :: 0 <= i < |fs| ==> WellFormed(fs[i].value)
  {
    [ Field("id", IntValue(d.id)),
      Field("employee", RelatedValue(owner)),
      Field("doc_type", OptText(d.docType)),
      Field("number", OptText(d.number)),
      Field("valid_until", OptDate(d.validUntil)) ]
  }

  /** The fields of a WorkPermit row. */
  function PermitFields(p: WorkPermit, owner: string): (fs: seq<Field>)
    requires OptValid(p.endDate)
    ensures |fs| == 4 && DistinctNames(fs)
    ensures forall i :: 0 <= i < |fs| ==> WellFormed(fs[i].value)
  {
    [ Field("id", IntValue(p.id)),
      Field("employee", RelatedValue(owner)),
      Field("doc_type", OptText(p.docType)),
      Field("end_date", OptDate(p.endDate)) ]
  }

  /** The fields of an EmploymentPeriod row. */
  function PeriodFields(p: EmploymentPeriod, owner: string): (fs: seq<Field>)
    requires Valid(p.startDate) && OptValid(p.endDate)
    ensures |fs| == 4 && DistinctNames(fs)
    ensures forall i :: 0 <= i < |fs| ==> WellFormed(fs[i].value)
  {
    [ Field("id", IntValue(p.id)),
      Field("employee", RelatedValue(owner)),
      Field("start_date", DateValue(p.startDate)),
      Field("end_date", OptDate(p.endDate)) ]
  }

  /** The fields of a CardSubmission row. */
  function CardFields(c: CardSubmission, owner: string): (fs: seq<Field>)
    requires OptValid(c.startDate)
    ensures |fs| == 4 && DistinctNames(fs)
    ensures forall i :: 0 <= i < |fs| ==> WellFormed(fs[i].value)
  {
    [ Field("id", IntValue(c.id)),
      Field("employee", RelatedValue(owner)),
      Field("doc_type", OptText(c.docType)),
      Field("start_date", OptDate(c.startDate)) ]
  }

  /** The fields of a Contract row. */
  function ContractFields(c: Contract, owner: string): (fs: seq<Field>)
    ensures |fs| == 3 && DistinctNames(fs)
    ensures forall i :: 0 <= i < |fs| ==> WellFormed(fs[i].value)
  {
    [ Field("id", IntValue(c.id)),
      Field("employee", RelatedValue(owner)),
      Field("contract_type", TextValue(c.contractType)) ]
  }

  /** The fields of a Sanepid row. */
  function SanepidFields(x: Sanepid, owner: string): (fs: seq<Field>)
    requires OptValid(x.endDate)
    ensures |fs| == 5 && DistinctNames(fs)
    ensures forall i :: 0 <= i < |fs| ==> WellFormed(fs[i].value)
  {
    [ Field("id", IntValue(x.id)),
      Field("employee", RelatedValue(owner)),
      Field("status", OptText(x.status)),
      Field("doc_type", OptText(x.docType)),
      Field("end_date", OptDate(x.endDate)) ]
  }

  /** Two Employee rows list the same fields, in the same order. */
  lemma EmployeeFieldsAlign(a: Employee, b: Employee)
    requires OptValid(a.studentEndDate) && OptValid(b.studentEndDate)
    ensures SameFields(EmployeeFields(a), EmployeeFields(b))
  {
  }

  /** Two Document rows list the same fields, in the same order. */
  lemma DocumentFieldsAlign(a: Document, ownerA: string, b: Document, ownerB: string)
    requires OptValid(a.validUntil) && OptValid(b.validUntil)
    ensures SameFields(DocumentFields(a, ownerA), DocumentFields(b, ownerB))
  {
  }

  // ----------------------------------------------------------------- diff

  /** The actor: the explicit `changed_by` when given, else the ambient user. */
  function Actor(changedBy: Option<UserId>, ambient: Option<UserId>): (u: Option<UserId>)
    ensures changedBy.Some? ==> u == changedBy
    ensures changedBy.None? ==> u == ambient
  {
    if changedBy.Some? then changedBy else ambient
  }

  function UpdatedRow(model: ModelKind, pk: Id, older: Field, newer: Field, user: Option<UserId>, now: Timestamp): HistoryEntry
    requires WellFormed(older.value) && WellFormed(newer.value)
  {
    HistoryEntry(model, pk, older.name, Some(PrepareValue(older.value)), Some(PrepareValue(newer.value)),
      Some(Updated), user, now)
  }

  /** Whether the field at this position is logged: not excluded, and its
      normalised value changed. */
  predicate Changed(older: Field, newer: Field)
    requires WellFormed(older.value) && WellFormed(newer.value)
  {
    older.name !in Excluded && PrepareValue(older.value) != PrepareValue(newer.value)
  }

  /** What the loop does at one field: the row it logs, or nothing. */
  function Cell(model: ModelKind, pk: Id, older: Field, newer: Field, user: Option<UserId>, now: Timestamp): Option<HistoryEntry>
    requires WellFormed(older.value) && WellFormed(newer.value)
  {
    if Changed(older, newer) then Some(UpdatedRow(model, pk, older, newer, user, now)) else None
  }

  /** What the loop does at each of the first `k` fields. */
  function Cells(model: ModelKind, pk: Id, older: seq<Field>, newer: seq<Field>, user: Option<UserId>, now: Timestamp, k: nat): (c: seq<Option<HistoryEntry>>)
    requires SameFields(older, newer) && k <= |older|
    ensures |c| == k
    ensures forall i :: 0 <= i < k ==> c[i] == Cell(model, pk, older[i], newer[i], user, now)
  {
    if k == 0 then [] else Cells(model, pk, older, newer, user, now, k - 1) + [Cell(model, pk, older[k - 1], newer[k - 1], user, now)]
  }

  /** The rows one save logs, in field order. */
  function DiffRows(model: ModelKind, pk: Id, older: seq<Field>, newer: seq<Field>, user: Option<UserId>, now: Timestamp): seq<HistoryEntry>
    requires SameFields(older, newer)
  {
    Somes(Cells(model, pk, older, newer, user, now, |older|), |older|)
  }

  /** Every row of a save is the "updated" row of some field that is not
      excluded and whose normalised value changed. */
  lemma DiffSound(model: ModelKind, pk: Id, older: seq<Field>, newer: seq<Field>, user: Option<UserId>, now: Timestamp)
    requires SameFields(older, newer)
    ensures var rows := DiffRows(model, pk, older, newer, user, now);
      |rows| <= |older|
      && forall r :: r in rows ==>
        exists i :: 0 <= i < |older| && Changed(older[i], newer[i]) && r == UpdatedRow(model, pk, older[i], newer[i], user, now)
  {
    var cells := Cells(model, pk, older, newer, user, now, |older|);
    var rows := Somes(cells, |older|);
    SomesSound(cells, |older|);
    forall r | r in rows
      ensures exists i :: 0 <= i < |older| && Changed(older[i], newer[i]) && r == UpdatedRow(model, pk, older[i], newer[i], user, now)
    {
      var i :| 0 <= i < |older| && cells[i] == Some(r);
      assert cells[i] == Cell(model, pk, older[i], newer[i], user, now);
    }
  }

  /** Every field that is not excluded and whose normalised value changed
      gets its row. */
  lemma DiffComplete(model: ModelKind, pk: Id, older: seq<Field>, newer: seq<Field>, user: Option<UserId>, now: Timestamp)
    requires SameFields(older, newer)
    ensures forall i ::
      (0 <= i < |older| && older[i].name !in Excluded && PrepareValue(older[i].value) != PrepareValue(newer[i].value))
      ==> UpdatedRow(model, pk, older[i], newer[i], user, now) in DiffRows(model, pk, older, newer, user, now)
  {
    SomesComplete(Cells(model, pk, older, newer, user, now, |older|), |older|);
  }

  /** With distinct field names no two rows name the same field, so there is
      exactly one row per logged field. */
  lemma DiffOnePerField(model: ModelKind, pk: Id, older: seq<Field>, newer: seq<Field>, user: Option<UserId>, now: Timestamp)
    requires SameFields(older, newer) && DistinctNames(older)
    ensures var rows := DiffRows(model, pk, older, newer, user, now);
      forall a, b :: 0 <= a < b < |rows| ==> rows[a].fieldName != rows[b].fieldName
  {
    var cells := Cells(model, pk, older, newer, user, now, |older|);
    SomesDistinct(cells, |older|, (h: HistoryEntry) => h.fieldName);
  }

  /** Saving a row unchanged writes nothing. */
  lemma DiffUnchanged(model: ModelKind, pk: Id, fs: seq<Field>, user: Option<UserId>, now: Timestamp)
    requires SameFields(fs, fs)
    ensures DiffRows(model, pk, fs, fs, user, now) == []
  {
    SomesEmpty(Cells(model, pk, fs, fs, user, now, |fs|), |fs|);
  }

  /** A save whose fields all agree but one logs at most that one field's row. */
  lemma DiffOnlyAt(model: ModelKind, pk: Id, older: seq<Field>, newer: seq<Field>, user: Option<UserId>, now: Timestamp, j: nat)
    requires SameFields(older, newer) && j < |older|
    requires forall i :: 0 <= i < |older| && i != j ==> older[i] == newer[i]
    ensures DiffRows(model, pk, older, newer, user, now)
      == (if Changed(older[j], newer[j]) then [UpdatedRow(model, pk, older[j], newer[j], user, now)] else [])
  {
    var cells := Cells(model, pk, older, newer, user, now, |older|);
    SomesOnly(cells, |older|, j);
  }

  /** The field loop: one `History.objects.create` per logged field, in field order. */
  method WriteDiff(db: Database, model: ModelKind, pk: Id, older: seq<Field>, newer: seq<Field>, user: Option<UserId>, now: Timestamp)
    requires SameFields(older, newer)
    modifies db`history
    ensures db.history == old(db.history) + DiffRows(model, pk, older, newer, user, now)
  {
    ghost var cells := Cells(model, pk, older, newer, user, now, |older|);
    var i := 0;
    while i < |older|
      invariant 0 <= i <= |older|
      invariant db.history == old(db.history) + Somes(cells, i)
    {
      var cell := Cell(model, pk, older[i], newer[i], user, now);
      assert cells[i] == cell;
      if cell.Some? {
        db.history := db.history + [cell.value];
      }
      i := i + 1;
    }
  }

  /** The rows an Employee save logs. */
  function EmployeeDiff(stored: Employee, instance: Employee, user: Option<UserId>, now: Timestamp): seq<HistoryEntry>
    requires OptValid(stored.studentEndDate) && OptValid(instance.studentEndDate)
  {
    EmployeeFieldsAlign(stored, instance);
    DiffRows(EmployeeModel, instance.id, EmployeeFields(stored), EmployeeFields(instance), user, now)
  }

  /** The rows a Document save logs. */
  function DocumentDiff(stored: Document, storedOwner: string, instance: Document, owner: string, user: Option<UserId>, now: Timestamp): seq<HistoryEntry>
    requires OptValid(stored.validUntil) && OptValid(instance.validUntil)
  {
    DocumentFieldsAlign(stored, storedOwner, instance, owner);
    DiffRows(DocumentModel, instance.id, DocumentFields(stored, storedOwner), DocumentFields(instance, owner), user, now)
  }

  /** The rows a WorkPermit save logs. */
  function PermitDiff(stored: WorkPermit, instance: WorkPermit, owner: string, user: Option<UserId>, now: Timestamp): seq<HistoryEntry>
    requires OptValid(stored.endDate) && OptValid(instance.endDate)
  {
    assert SameFields(PermitFields(stored, owner), PermitFields(instance, owner));
    DiffRows(PermitModel, instance.id, PermitFields(stored, owner), PermitFields(instance, owner), user, now)
  }

  /** The rows an EmploymentPeriod save logs. */
  function PeriodDiff(stored: EmploymentPeriod, instance: EmploymentPeriod, owner: string, user: Option<UserId>, now: Timestamp): seq<HistoryEntry>
    requires Valid(stored.startDate) && OptValid(stored.endDate) && Valid(instance.startDate) && OptValid(instance.endDate)
  {
    assert SameFields(PeriodFields(stored, owner), PeriodFields(instance, owner));
    DiffRows(PeriodModel, instance.id, PeriodFields(stored, owner), PeriodFields(instance, owner), user, now)
  }

  /** The rows a CardSubmission save logs. */
  function CardDiff(stored: CardSubmission, instance: CardSubmission, owner: string, user: Option<UserId>, now: Timestamp): seq<HistoryEntry>
    requires OptValid(stored.startDate) && OptValid(instance.startDate)
  {
    assert SameFields(CardFields(stored, owner), CardFields(instance, owner));
    DiffRows(CardModel, instance.id, CardFields(stored, owner), CardFields(instance, owner), user, now)
  }

  /** The rows a Contract save logs. */
  function ContractDiff(stored: Contract, instance: Contract, owner: string, user: Option<UserId>, now: Timestamp): seq<HistoryEntry>
  {
    assert SameFields(ContractFields(stored, owner), ContractFields(instance, owner));
    DiffRows(ContractModel, instance.id, ContractFields(stored, owner), ContractFields(instance, owner), user, now)
  }

  /** The rows a Sanepid save logs. */
  function SanepidDiff(stored: Sanepid, instance: Sanepid, owner: string, user: Option<UserId>, now: Timestamp): seq<HistoryEntry>
    requires OptValid(stored.endDate) && OptValid(instance.endDate)
  {
    assert SameFields(SanepidFields(stored, owner), SanepidFields(instance, owner));
    DiffRows(SanepidModel, instance.id, SanepidFields(stored, owner), SanepidFields(instance, owner), user, now)
  }

  /** The History part of `HistoryMixin.save`, before the row itself is
      written: the actor is resolved, a first save (no key yet) logs
      nothing, and an update whose stored row is missing raises
      `DoesNotExist` before any row is logged. `stored` is what
      `objects.get(pk=self.pk)` finds. */
  method MixinSave(db: Database, slot: ActorSlot, t: ThreadId, model: ModelKind, pk: Option<Id>,
                   stored: Option<seq<Field>>, newer: seq<Field>, changedBy: Option<UserId>, now: Timestamp)
    returns (r: Result<Option<UserId>, string>)
    requires stored.Some? ==> SameFields(stored.value, newer)
    modifies db`history
    ensures db.Valid() == old(db.Valid())
    ensures pk.None? ==> r == Ok(Actor(changedBy, slot.Get(t))) && db.history == old(db.history)
    ensures pk.Some? && stored.None? ==> r.Err? && db.history == old(db.history)
    ensures pk.Some? && stored.Some? ==>
      (r == Ok(Actor(changedBy, slot.Get(t)))
       && db.history == old(db.history) + DiffRows(model, pk.value, stored.value, newer, Actor(changedBy, slot.Get(t)), now))
  {
    var user := if changedBy.Some? then changedBy else slot.Get(t);
    if pk.None? {
      return Ok(user);
    }
    if stored.None? {
      return Err("DoesNotExist");
    }
    WriteDiff(db, model, pk.value, stored.value, newer, user, now);
    return Ok(user);
  }

  // ---------------------------------------------------------------- delete

  /** The History rows left after purging one object's rows. */
  function Purged(history: seq<HistoryEntry>, model: ModelKind, pk: Id): (r: seq<HistoryEntry>)
    ensures forall h :: h in r <==> h in history && !(h.model == model && h.objectId == pk)
  {
    Filter(history, (h: HistoryEntry) => !(h.model == model && h.objectId == pk))
  }

  /** The purge of `HistoryMixin.delete`, which runs before the row is deleted:
      only when the key is truthy, so a key of 0 purges nothing either. */
  method MixinDelete(db: Database, model: ModelKind, pk: Option<Id>)
    modifies db`history
    ensures db.Valid() == old(db.Valid())
    ensures pk.Some? && pk.value != 0 ==> db.history == Purged(old(db.history), model, pk.value)
    ensures pk.None? || pk.value == 0 ==> db.history == old(db.history)
  {
    if pk.Some? && pk.value != 0 {
      db.history := Purged(db.history, model, pk.value);
    }
  }

  /** Purging twice is purging once. */
  lemma PurgedIdempotent(history: seq<HistoryEntry>, model: ModelKind, pk: Id)
    ensures Purged(Purged(history, model, pk), model, pk) == Purged(history, model, pk)
  {
    FilterAll(Purged(history, model, pk), (h: HistoryEntry) => !(h.model == model && h.objectId == pk));
  }
}
