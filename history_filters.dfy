/** The template filters that render the History ledger
    (apps/main/templatetags/history_filters.py): a readable label for a
    field name and for a model name, the display text of a stored field
    value, and the name of the object a History row is about. The labels
    are gettext strings, held here as constants in the source language. */
module HistoryFilters {

  import opened Outcomes
  import opened Text
  import opened Seqs
  import opened Entities
  import opened Db
  import opened Audit

  // ------------------------------------------------------------ field names

  /** The label table of `field_verbose_name`: `None` for a field name it does
      not know. */
  function FieldLabel(name: string): (r: Option<string>)
    ensures r.Some? ==> |name| > 0 && 'a' <= name[0] <= 'z'
    ensures r.Some? ==> |r.value| > 0 && !('a' <= r.value[0] <= 'z')
  {
    if name == "first_name" then Some("Ім'я")
    else if name == "last_name" then Some("Прізвище")
    else if name == "age" then Some("Вік")
    else if name == "is_student" then Some("Студент")
    else if name == "pesel" then Some("PESEL")
    else if name == "pesel_urk" then Some("PESEL (UKR)")
    else if name == "workplace" then Some("Місце роботи")
    else if name == "pit_2" then Some("PIT-2")
    else if name == "working_status" then Some("Статус роботи")
    else if name == "additional_information" then Some("Додаткова інформація")
    else if name == "created_at" then Some("Дата створення")
    else if name == "updated_at" then Some("Дата оновлення")
    else if name == "student_end_date" then Some("Дійсний до")
    else if name == "employee" then Some("Співробітник")
    else if name == "start_date" then Some("Дата початку")
    else if name == "end_date" then Some("Дата закінчення")
    else if name == "doc_type" then Some("Тип документа")
    else if name == "number" then Some("Номер")
    else if name == "valid_until" then Some("Дійсний до")
    else if name == "contact_type" then Some("Тип контакту")
    else if name == "value" then Some("Значення")
    else if name == "contract_type" then Some("Тип контракту")
    else if name == "status" then Some("Статус")
    else if name == "title" then Some("Назва")
    else if name == "description" then Some("Опис")
    else if name == "priority" then Some("Пріоритет")
    else if name == "assigned_to" then Some("Призначено")
    else if name == "created_by" then Some("Створив")
    else if name == "taken_by" then Some("Взяв в роботу")
    else if name == "taken_at" then Some("Час взяття")
    else if name == "due_date" then Some("Термін виконання")
    else if name == "completed_at" then Some("Завершено")
    else None
  }

  /** `field_verbose_name`: the label of a known field, the name itself
      otherwise. No label coincides with the name it labels, so the name
      comes back unchanged exactly when the table does not know it. */
  function FieldVerboseName(name: string): (r: string)
    ensures FieldLabel(name).Some? ==> r == FieldLabel(name).value
    ensures r == name <==> FieldLabel(name).None?
  {
    FieldLabel(name).GetOr(name)
  }

  /** No label is itself a technical field name, so applying the filter to
      its own output changes nothing. */
  lemma FieldVerboseNameIdempotent(name: string)
    ensures FieldVerboseName(FieldVerboseName(name)) == FieldVerboseName(name)
  {
    if FieldLabel(name).Some? {
      assert FieldLabel(FieldLabel(name).value).None?;
    }
  }

  /** Every field of the Employee audit list but the primary key has a
      label; the key is shown by its name. */
  lemma EmployeeFieldsLabelled(e: Employee, k: nat)
    requires OptValid(e.studentEndDate) && k < |EmployeeFields(e)|
    ensures FieldLabel(EmployeeFields(e)[k].name).Some? <==> k > 0
  {
  }

  // ----------------------------------------------------------- field values

  const Yes: string := "Так"
  const No: string := "Ні"

  /** The label of a working-status code. */
  function StatusLabel(v: string): Option<string> {
    if v == Working then Some("Працевлаштований")
    else if v == Dismissed then Some("Звільнений")
    else if v == EmploymentContract then Some("Трудовий договір")
    else if v == PositionChange then Some("Зміна посади")
    else None
  }

  /** The label of a contract-type code. */
  function ContractLabel(v: string): Option<string> {
    if v == "o_prace" then Some("Трудовий договір")
    else if v == "zlecenia" then Some("Мандатний контракт")
    else None
  }

  /** The label of a contact-type code. */
  function ContactLabel(v: string): Option<string> {
    if v == "phone" then Some("Телефон")
    else if v == "email" then Some("Email")
    else if v == "viber" then Some("Viber")
    else None
  }

  /** A text that reads as a boolean whatever its letter case. */
  predicate IsTrueWord(v: string) { Lower(v) == "true" }
  predicate IsFalseWord(v: string) { Lower(v) == "false" }

  /** A stored value that some table translates. */
  predicate IsCode(v: string) {
    StatusLabel(v).Some? || ContractLabel(v).Some? || ContactLabel(v).Some?
  }

  /** `format_field_value`: null and the empty text show as nothing; a
      boolean word, in any case, shows as yes or no before any table is
      consulted; then the working-status, contract and contact tables are
      tried in that order; anything else is shown as stored. */
  function FormatFieldValue(value: Option<string>): (r: string)
    ensures r == "" <==> value.None? || value == Some("")
    ensures value.Some? && IsTrueWord(value.value) ==> r == Yes
    ensures value.Some? && IsFalseWord(value.value) ==> r == No
  {
    if value.None? || value.value == "" then ""
    else
      var v := value.value;
      if IsTrueWord(v) then Yes
      else if IsFalseWord(v) then No
      else if StatusLabel(v).Some? then StatusLabel(v).value
      else if ContractLabel(v).Some? then ContractLabel(v).value
      else if ContactLabel(v).Some? then ContactLabel(v).value
      else v
  }

  /** The label of a code, whichever table holds it. */
  function CodeLabel(v: string): (r: Option<string>)
    ensures r.Some? <==> IsCode(v)
  {
    if StatusLabel(v).Some? then StatusLabel(v)
    else if ContractLabel(v).Some? then ContractLabel(v)
    else ContactLabel(v)
  }

  /** No code reads as a boolean word, and no two tables share a code: the
      order in which the source consults them decides nothing. */
  lemma TablesDisjoint(v: string)
    ensures IsCode(v) ==> !IsTrueWord(v) && !IsFalseWord(v)
    ensures !(StatusLabel(v).Some? && ContractLabel(v).Some?)
    ensures !(StatusLabel(v).Some? && ContactLabel(v).Some?)
    ensures !(ContractLabel(v).Some? && ContactLabel(v).Some?)
  {
    if IsCode(v) {
      assert |v| != 4 ==> Lower(v) != "true";
      assert |v| != 5 ==> Lower(v) != "false";
      if v == "email" {
        assert Lower(v)[0] == 'e';
      } else if v == "phone" {
        assert Lower(v)[0] == 'p';
      } else if v == "viber" {
        assert Lower(v)[0] == 'v';
      }
    }
  }

  /** Every code shows as its label, and a non-empty value that is neither a
      boolean word nor a code shows exactly as stored. */
  lemma CodesShowTheirLabel(v: string)
    requires v != ""
    ensures IsCode(v) ==> FormatFieldValue(Some(v)) == CodeLabel(v).value
    ensures !IsCode(v) && !IsTrueWord(v) && !IsFalseWord(v) ==> FormatFieldValue(Some(v)) == v
  {
    TablesDisjoint(v);
  }

  /** A shown value is never re-translated: no label is a boolean word or a
      code, so formatting the formatted text gives the same text. */
  lemma {:induction false} FormatIdempotent(value: Option<string>)
    ensures FormatFieldValue(Some(FormatFieldValue(value))) == FormatFieldValue(value)
  {
    var r := FormatFieldValue(value);
    if r != "" && r != value.value {
      assert !IsCode(r);
      assert |r| != 4 ==> Lower(r) != "true";
      assert |r| != 5 ==> Lower(r) != "false";
      if r == "Email" {
        assert Lower(r)[0] == 'e';
      } else if r == "Viber" {
        assert Lower(r)[0] == 'v';
      }
    }
  }

  /** The audit trail stores a boolean as Python's "True"/"False"; the filter
      shows it as yes or no. */
  lemma AuditedBooleanShown(b: bool)
    ensures FormatFieldValue(Some(PrepareValue(BoolValue(b)))) == (if b then Yes else No)
  {
    var s := PrepareValue(BoolValue(b));
    if b {
      assert Lower(s) == "true";
    } else {
      assert Lower(s) == "false";
    }
  }

  // ------------------------------------------------------------ model names

  /** The Django model name (`content_type.model`) of each audited model. */
  function ModelName(m: ModelKind): (s: string)
    ensures s != ""
  {
    match m
    case EmployeeModel => "employee"
    case PeriodModel => "employmentperiod"
    case DocumentModel => "document"
    case PermitModel => "workpermit"
    case CardModel => "cardsubmission"
    case ContractModel => "contract"
    case SanepidModel => "sanepid"
  }

  /** The label table of `model_verbose_name`. */
  function ModelLabel(model: string): Option<string> {
    if model == "employee" then Some("Співробітник")
    else if model == "document" then Some("Документ")
    else if model == "workpermit" then Some("Дозвіл на роботу")
    else if model == "cardsubmission" then Some("Картка")
    else if model == "contract" then Some("Контракт")
    else if model == "sanepid" then Some("Sanepid")
    else if model == "contact" then Some("Контакт")
    else if model == "employmentperiod" then Some("Період роботи")
    else None
  }

  /** `model_verbose_name`: the label of a known model, the raw model name
      otherwise; the raw name comes back exactly for an unknown model. */
  function ModelVerboseName(model: string): (r: string)
    ensures ModelLabel(model).Some? ==> r == ModelLabel(model).value
    ensures r == model <==> ModelLabel(model).None?
  {
    ModelLabel(model).GetOr(model)
  }

  /** Every model that writes History rows has a label, and distinct models
      have distinct labels. */
  lemma AuditedModelsLabelled(m: ModelKind, n: ModelKind)
    ensures ModelLabel(ModelName(m)).Some?
    ensures m != n ==> ModelVerboseName(ModelName(m)) != ModelVerboseName(ModelName(n))
  {
  }

  // --------------------------------------------------------- display names

  const DeletedObject: string := "Видалений об'єкт"

  /** What `history_item.content_object` resolves to: nothing (the row is
      gone), an employee, a row that belongs to an employee, or some other
      object, known by its `str()`. */
  datatype ContentObject =
    | Missing
    | EmployeeObject(employee: Employee)
    | OwnedObject(owner: Employee)
    | OtherObject(text: string)

  /** `get_display_name`: the deleted-object label for a missing object, the
      full name of an employee, the full name of the owner of an owned row,
      the `str()` of anything else. */
  function DisplayName(o: ContentObject): (r: string)
    ensures o.Missing? ==> r == DeletedObject
    ensures o.EmployeeObject? ==> r == FullName(o.employee)
    ensures o.OwnedObject? ==> r == FullName(o.owner)
    ensures o.OtherObject? ==> r == o.text
  {
    match o
    case Missing => DeletedObject
    case EmployeeObject(e) => FullName(e)
    case OwnedObject(e) => FullName(e)
    case OtherObject(text) => text
  }

  /** The employee a sub-record row belongs to, when the row exists. */
  function OwnerKey(db: Database, m: ModelKind, pk: Id): (r: Option<Id>)
    reads db`periods, db`documents, db`permits, db`cards, db`contracts, db`sanepids
    requires !m.EmployeeModel?
    ensures m.PeriodModel? ==> (r.Some? <==> exists p :: p in db.periods && p.id == pk)
    ensures m.DocumentModel? ==> (r.Some? <==> exists d :: d in db.documents && d.id == pk)
    ensures r.Some? ==> (m.PeriodModel? ==> exists p :: p in db.periods && p.id == pk && p.employee == r.value)
    ensures r.Some? ==> (m.DocumentModel? ==> exists d :: d in db.documents && d.id == pk && d.employee == r.value)
  {
    match m
    case PeriodModel => OwnerOf(FindBy(db.periods, PeriodKey, pk), (p: EmploymentPeriod) => p.employee)
    case DocumentModel => OwnerOf(FindBy(db.documents, DocumentKey, pk), (d: Document) => d.employee)
    case PermitModel => OwnerOf(FindBy(db.permits, PermitKey, pk), (p: WorkPermit) => p.employee)
    case CardModel => OwnerOf(FindBy(db.cards, CardKey, pk), (c: CardSubmission) => c.employee)
    case ContractModel => OwnerOf(FindBy(db.contracts, ContractKey, pk), (c: Contract) => c.employee)
    case SanepidModel => OwnerOf(FindBy(db.sanepids, SanepidKey, pk), (s: Sanepid) => s.employee)
  }

  function OwnerOf<T>(row: Option<T>, owner: T -> Id): (r: Option<Id>)
    ensures r.Some? <==> row.Some?
    ensures r.Some? ==> r.value == owner(row.value)
  {
    if row.Some? then Some(owner(row.value)) else None
  }

  /** Every sub-record row names an employee that exists. */
  lemma OwnerExists(db: Database, m: ModelKind, pk: Id)
    requires db.RefsValid() && !m.EmployeeModel? && OwnerKey(db, m, pk).Some?
    ensures db.HasEmployee(OwnerKey(db, m, pk).value)
  {
    match m
    case PeriodModel =>
      assert FindBy(db.periods, PeriodKey, pk).value in db.periods;
    case DocumentModel =>
      assert FindBy(db.documents, DocumentKey, pk).value in db.documents;
    case PermitModel =>
      assert FindBy(db.permits, PermitKey, pk).value in db.permits;
    case CardModel =>
      assert FindBy(db.cards, CardKey, pk).value in db.cards;
    case ContractModel =>
      assert FindBy(db.contracts, ContractKey, pk).value in db.contracts;
    case SanepidModel =>
      assert FindBy(db.sanepids, SanepidKey, pk).value in db.sanepids;
  }

  /** `history_item.content_object` for a History row: every audited model
      is an employee or has an `employee`, whose row the foreign key
      guarantees. */
  function ContentObjectOf(db: Database, h: HistoryEntry): (o: ContentObject)
    reads db`employees, db`periods, db`documents, db`permits, db`cards, db`contracts, db`sanepids, db`notifications
    requires db.RefsValid()
    ensures !o.OtherObject?
    ensures h.model.EmployeeModel? ==> (o.Missing? <==> !db.HasEmployee(h.objectId))
    ensures !h.model.EmployeeModel? ==> (o.Missing? <==> OwnerKey(db, h.model, h.objectId).None?)
    ensures o.EmployeeObject? ==> h.model.EmployeeModel? && o.employee in db.employees && o.employee.id == h.objectId
    ensures o.OwnedObject? ==>
      !h.model.EmployeeModel? && o.owner in db.employees && Some(o.owner.id) == OwnerKey(db, h.model, h.objectId)
  {
    if h.model.EmployeeModel? then
      match db.EmployeeById(h.objectId)
      case None => Missing
      case Some(e) => EmployeeObject(e)
    else
      match OwnerKey(db, h.model, h.objectId)
      case None => Missing
      case Some(owner) =>
        OwnerExists(db, h.model, h.objectId);
        OwnedObject(db.EmployeeById(owner).value)
  }

  /** The name shown beside a History row: the deleted-object label once the
      audited row is gone, otherwise the full name of the employee it is
      about, itself or as the owner of the row. */
  lemma DisplayNameOfRow(db: Database, h: HistoryEntry)
    requires db.RefsValid()
    ensures var name := DisplayName(ContentObjectOf(db, h));
      (h.model.EmployeeModel? && !db.HasEmployee(h.objectId) ==> name == DeletedObject)
      && (h.model.EmployeeModel? && db.HasEmployee(h.objectId) ==> name == FullName(db.EmployeeById(h.objectId).value))
      && (!h.model.EmployeeModel? && OwnerKey(db, h.model, h.objectId).None? ==> name == DeletedObject)
      && (!h.model.EmployeeModel? && OwnerKey(db, h.model, h.objectId).Some? ==>
            name == FullName(db.EmployeeById(OwnerKey(db, h.model, h.objectId).value).value))
  {
  }
}
