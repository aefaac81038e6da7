/** The employee list filters (apps/main/filters.py): the status
    checkboxes, the name search and the ordering. A queryset is the
    sequence of employees it yields; the ordering is modelled as the list
    of sort terms handed to `order_by` together with the comparison the
    database applies. The date annotations `earliest_start_date` and
    `latest_end_date` (SQL `Min`/`Max` over the employment periods) are
    inputs of each row. */
module Filters {

  import opened Outcomes
  import opened Dates
  import opened Text
  import opened Seqs
  import opened Entities

  // ------------------------------------------------------------- by status

  /** `status_mapping`: checkbox code to stored working status. */
  function StatusFor(code: string): Option<string> {
    if code == "pracujący" then Some(Working)
    else if code == "zwolniony" then Some(Dismissed)
    else if code == "umowa_o_prace" then Some(EmploymentContract)
    else if code == "zmiana_stanowiska" then Some(PositionChange)
    else None
  }

  /** A `Q` condition over one employee. */
  datatype Cond =
    | StudentIs                        // Q(is_student=True)
    | PitIs                            // Q(pit_2=True)
    | StatusIs(status: string)         // Q(working_status=...)
    | Or(left: Cond, right: Cond)      // q1 | q2
    | And(left: Cond, right: Cond)     // q1 & q2

  predicate Holds(c: Cond, e: Employee) {
    match c
    case StudentIs => e.isStudent == Some(true)
    case PitIs => e.pit2 == Some(true)
    case StatusIs(s) => e.workingStatus == Some(s)
    case Or(l, r) => Holds(l, e) || Holds(r, e)
    case And(l, r) => Holds(l, e) && Holds(r, e)
  }

  /** Some ticked code among the first `n` is a working status. */
  predicate AnyStatusCode(value: seq<string>, n: nat)
    requires n <= |value|
  {
    exists k :: 0 <= k < n && StatusFor(value[k]).Some?
  }

  /** The employee's status is one ticked among the first `n` codes. */
  predicate InTickedStatus(value: seq<string>, n: nat, e: Employee)
    requires n <= |value|
  {
    exists k :: 0 <= k < n && StatusFor(value[k]).Some? && e.workingStatus == StatusFor(value[k])
  }

  predicate StudentPart(value: seq<string>, e: Employee) {
    "student" in value ==> e.isStudent == Some(true)
  }

  predicate PitPart(value: seq<string>, e: Employee) {
    "pit" in value ==> e.pit2 == Some(true)
  }

  predicate StatusPart(value: seq<string>, e: Employee) {
    AnyStatusCode(value, |value|) ==> InTickedStatus(value, |value|, e)
  }

  /** What the status selection means for one employee: a student if
      "student" is ticked, on PIT-2 if "pit" is ticked, and in one of the
      ticked working statuses if any is ticked; all of these at once. */
  predicate MatchesStatus(value: seq<string>, e: Employee) {
    StudentPart(value, e) && PitPart(value, e) && StatusPart(value, e)
  }

  /** The codes that add a condition. */
  predicate Known(v: string) {
    v == "student" || v == "pit" || StatusFor(v).Some?
  }

  /** Every condition of the list holds. */
  predicate AllHold(filters: seq<Cond>, e: Employee) {
    forall k :: 0 <= k < |filters| ==> Holds(filters[k], e)
  }

  /** The condition `filter_by_status` builds: the student and PIT
      conjuncts, then the status codes OR-ed one by one into a `Q()` that
      starts empty, then every conjunct AND-ed onto the first. None when
      no code adds a condition. */
  method StatusCondition(value: seq<string>) returns (c: Option<Cond>)
    ensures c.None? <==> forall v :: v in value ==> !Known(v)
    ensures c.Some? ==> forall e :: Holds(c.value, e) <==> MatchesStatus(value, e)
  {
    var filters: seq<Cond> := [];
    if "student" in value {
      filters := filters + [StudentIs];
    }
    forall e ensures AllHold(filters, e) <==> StudentPart(value, e) {
      AllHoldAppend([], StudentIs, e);
    }
    ghost var f1 := filters;
    if "pit" in value {
      filters := filters + [PitIs];
    }
    forall e ensures AllHold(filters, e) <==> AllHold(f1, e) && PitPart(value, e) {
      AllHoldAppend(f1, PitIs, e);
    }
    var statusQ: Option<Cond> := None;
    var i := 0;
    while i < |value|
      invariant 0 <= i <= |value|
      invariant statusQ.None? <==> !AnyStatusCode(value, i)
      invariant statusQ.Some? ==> forall e :: Holds(statusQ.value, e) <==> InTickedStatus(value, i, e)
    {
      var code := StatusFor(value[i]);
      if code.Some? {
        var q := StatusIs(code.value);
        // `Q() | q` is `q`: an empty Q drops out of the disjunction
        statusQ := if statusQ.None? then Some(q) else Some(Or(statusQ.value, q));
      }
      i := i + 1;
    }
    ghost var f2 := filters;
    if statusQ.Some? {
      filters := filters + [statusQ.value];
    }
    forall e ensures AllHold(filters, e) <==> AllHold(f2, e) && StatusPart(value, e) {
      if statusQ.Some? {
        AllHoldAppend(f2, statusQ.value, e);
      }
    }
    if filters == [] {
      NoConditionNoCode(value);
      return None;
    }
    var combined := filters[0];
    var j := 1;
    while j < |filters|
      invariant 1 <= j <= |filters|
      invariant forall e :: Holds(combined, e) <==> forall k :: 0 <= k < j ==> Holds(filters[k], e)
    {
      combined := And(combined, filters[j]);
      j := j + 1;
    }
    assert !(forall v :: v in value ==> !Known(v)) by {
      if "student" in value {
        assert Known("student");
      } else if "pit" in value {
        assert Known("pit");
      } else {
        var k :| 0 <= k < |value| && StatusFor(value[k]).Some?;
        assert value[k] in value && Known(value[k]);
      }
    }
    return Some(combined);
  }

  lemma AllHoldAppend(filters: seq<Cond>, c: Cond, e: Employee)
    ensures AllHold(filters + [c], e) <==> AllHold(filters, e) && Holds(c, e)
  {
    assert forall k :: 0 <= k < |filters| ==> (filters + [c])[k] == filters[k];
    assert (filters + [c])[|filters|] == c;
  }

  /** Without a known code there is no condition, and every employee matches. */
  lemma NoConditionNoCode(value: seq<string>)
    requires "student" !in value && "pit" !in value && !AnyStatusCode(value, |value|)
    ensures forall v :: v in value ==> !Known(v)
  {
    forall v | v in value
      ensures !Known(v)
    {
      StatusCodeTicked(value, v);
    }
  }

  lemma StatusCodeTicked(value: seq<string>, v: string)
    requires v in value
    ensures StatusFor(v).Some? ==> AnyStatusCode(value, |value|)
  {
    var k :| 0 <= k < |value| && value[k] == v;
  }

  lemma NoCodeMatchesAll(value: seq<string>, e: Employee)
    requires forall v :: v in value ==> !Known(v)
    ensures MatchesStatus(value, e)
  {
    forall k | 0 <= k < |value|
      ensures StatusFor(value[k]).None?
    {
      assert value[k] in value;
    }
  }

  /** The rows `filter_by_status` yields: all of them for an empty
      selection or one without a known code (`distinct()` removes nothing
      from a join-free query), otherwise those matching the selection. */
  function StatusSelection(es: seq<Employee>, value: seq<string>): (r: seq<Employee>)
    ensures forall e :: e in r <==> e in es && MatchesStatus(value, e)
  {
    Filter(es, (e: Employee) => MatchesStatus(value, e))
  }

  /** `filter_by_status`. */
  method FilterByStatus(es: seq<Employee>, value: seq<string>) returns (r: seq<Employee>)
    ensures r == StatusSelection(es, value)
  {
    if value == [] {
      forall e | e in es ensures MatchesStatus(value, e) { NoCodeMatchesAll(value, e); }
      FilterAll(es, (e: Employee) => MatchesStatus(value, e));
      return es;
    }
    var c := StatusCondition(value);
    if c.None? {
      forall e | e in es ensures MatchesStatus(value, e) { NoCodeMatchesAll(value, e); }
      FilterAll(es, (e: Employee) => MatchesStatus(value, e));
      return es;
    }
    r := Filter(es, (e: Employee) => Holds(c.value, e));
    FilterSame(es, (e: Employee) => Holds(c.value, e), (e: Employee) => MatchesStatus(value, e));
  }

  /** Two conditions that agree select the same rows. */
  lemma {:induction false} FilterSame<T(!new)>(s: seq<T>, p: T -> bool, q: T -> bool)
    requires forall x :: p(x) == q(x)
    ensures Filter(s, p) == Filter(s, q)
    decreases |s|
  {
    if s != [] {
      FilterSame(s[1..], p, q);
    }
  }

  /** An unknown code changes nothing. */
  lemma UnknownCodeIgnored(value: seq<string>, code: string, e: Employee)
    requires !Known(code)
    ensures MatchesStatus(value + [code], e) <==> MatchesStatus(value, e)
  {
    var v := value + [code];
    assert AnyStatusCode(v, |v|) <==> AnyStatusCode(value, |value|) by {
      assert forall k :: 0 <= k < |value| ==> v[k] == value[k];
    }
    assert InTickedStatus(v, |v|, e) <==> InTickedStatus(value, |value|, e) by {
      assert forall k :: 0 <= k < |value| ==> v[k] == value[k];
    }
  }

  /** Ticking "student" and "pracujący" selects exactly the working
      students: the conjuncts are AND-ed, not OR-ed. */
  lemma StudentAndWorking(e: Employee)
    ensures MatchesStatus(["student", "pracujący"], e) <==> e.isStudent == Some(true) && e.workingStatus == Some(Working)
  {
    var v := ["student", "pracujący"];
    assert StatusFor(v[0]).None? && StatusFor(v[1]) == Some(Working);
  }

  /** Ticking two statuses selects the employees in either. */
  lemma TwoStatusesOred(e: Employee)
    ensures MatchesStatus(["zwolniony", "pracujący"], e) <==> e.workingStatus == Some(Dismissed) || e.workingStatus == Some(Working)
  {
    var v := ["zwolniony", "pracujący"];
    assert StatusFor(v[0]) == Some(Dismissed) && StatusFor(v[1]) == Some(Working);
  }

  // --------------------------------------------------------------- by name

  /** `field__icontains=q`. */
  predicate ContainsIgnoringCase(field: string, q: string) {
    Contains(Lower(field), Lower(q))
  }

  /** `filter_by_name`: an empty query keeps every row; otherwise a row
      is kept when its first or last name contains the query, ignoring
      case. */
  function FilterByName(es: seq<Employee>, q: string): (r: seq<Employee>)
    ensures q == "" ==> r == es
    ensures q != "" ==> forall e :: e in r <==> e in es && (ContainsIgnoringCase(e.firstName, q) || ContainsIgnoringCase(e.lastName, q))
  {
    if q == "" then es
    else Filter(es, (e: Employee) => ContainsIgnoringCase(e.firstName, q) || ContainsIgnoringCase(e.lastName, q))
  }

  /** An occurrence survives lower-casing. */
  lemma OccursLowered(s: string, p: string, i: nat)
    requires OccursAt(s, p, i)
    ensures OccursAt(Lower(s), Lower(p), i)
  {
    assert Lower(s)[i..i + |p|] == Lower(p);
  }

  /** Every employee whose name contains the query verbatim is found. */
  lemma VerbatimMatchFound(es: seq<Employee>, q: string, e: Employee)
    requires q != "" && e in es && Contains(e.lastName, q)
    ensures e in FilterByName(es, q)
  {
    OccursLowered(e.lastName, q, Find(e.lastName, q).value);
  }

  /** The search does not depend on the case of the query. */
  lemma SearchIgnoresQueryCase(es: seq<Employee>, q: string)
    ensures FilterByName(es, Lower(q)) == FilterByName(es, q)
  {
    LowerIdempotent(q);
    if q != "" {
      FilterSame(es, (e: Employee) => ContainsIgnoringCase(e.firstName, Lower(q)) || ContainsIgnoringCase(e.lastName, Lower(q)),
                     (e: Employee) => ContainsIgnoringCase(e.firstName, q) || ContainsIgnoringCase(e.lastName, q));
    }
  }

  // -------------------------------------------------------------- ordering

  /** `param_map.get(name, name)`: the request parameter's model field;
      a name the map lacks passes through. */
  function ParamFor(name: string): string {
    if name == "start_date" then "earliest_start_date"
    else if name == "end_date" then "latest_end_date"
    else name
  }

  /** Sentinels that push a missing date to the end. */
  const LatestDate: Date := Date(9999, 12, 31)
  const EarliestDate: Date := Date(1900, 1, 1)

  /** One argument of `order_by`. */
  datatype OrderTerm =
    | ByPriority                                     // 'status_priority'
    | ByField(field: string, desc: bool)             // 'field' / '-field'
    | ByDate(field: string, desc: bool, nullAs: Date) // Coalesce(F(field), nullAs).asc()/.desc()

  /** The first loop's step: the parameter with its leading dashes removed
      is mapped through `param_map` (unknown names pass through), and one
      dash is put back if there was any. */
  function MapParam(v: string): string {
    var name := LStripChar(v, '-');
    var actual := ParamFor(name);
    if StartsWith(v, "-") then "-" + actual else actual
  }

  predicate IsDateField(f: string) {
    f == "earliest_start_date" || f == "latest_end_date"
  }

  /** The second loop's step: a date key sorts missing dates last through
      its sentinel; any other key is passed as it is. */
  function TermFor(field: string): OrderTerm {
    var desc := StartsWith(field, "-");
    var clean := LStripChar(field, '-');
    if IsDateField(clean) then ByDate(clean, desc, if desc then EarliestDate else LatestDate)
    else ByField(clean, desc)
  }

  /** The model fields for the requested parameters, in request order. */
  function MappedParams(value: seq<string>): (ms: seq<string>)
    ensures |ms| == |value|
  {
    MapSeq(value, MapParam)
  }

  /** The terms for the mapped fields, in request order. */
  function TermsFor(fields: seq<string>): (ts: seq<OrderTerm>)
    ensures |ts| == |fields|
  {
    MapSeq(fields, TermFor)
  }

  /** `f` applied to every element, in order. */
  function MapSeq<A, B>(xs: seq<A>, f: A -> B): (ys: seq<B>)
    ensures |ys| == |xs|
    ensures forall i :: 0 <= i < |xs| ==> ys[i] == f(xs[i])
  {
    seq(|xs|, i requires 0 <= i < |xs| => f(xs[i]))
  }

  /** A loop appending `f` of each element to `init`. */
  method AppendMapped<A, B>(init: seq<B>, xs: seq<A>, f: A -> B) returns (out: seq<B>)
    ensures out == init + MapSeq(xs, f)
  {
    out := init;
    for i := 0 to |xs|
      invariant out == init + MapSeq(xs[..i], f)
    {
      assert MapSeq(xs[..i + 1], f) == MapSeq(xs[..i], f) + [f(xs[i])];
      out := out + [f(xs[i])];
    }
    assert xs[..|xs|] == xs;
  }

  function RequestedTerms(value: seq<string>): (ts: seq<OrderTerm>)
    ensures |ts| == |value|
  {
    TermsFor(MappedParams(value))
  }

  /** `filter_ordering`'s `order_by` arguments: none for an empty request
      (the queryset is returned as it is); otherwise the status priority
      first, the requested keys, and the key descending last. */
  function OrderingTerms(value: seq<string>): (r: Option<seq<OrderTerm>>)
    ensures r.None? <==> value == []
    ensures r.Some? ==> |r.value| == |value| + 2 && r.value[0] == ByPriority && r.value[|r.value| - 1] == ByField("id", true)
  {
    if value == [] then None else Some([ByPriority] + RequestedTerms(value) + [ByField("id", true)])
  }

  /** `filter_ordering`: nothing for an empty request (the queryset is
      returned as it is); otherwise the loop mapping each parameter to its
      model field, then the loop appending each field's sort term after
      the status priority, and the key descending last. */
  method FilterOrdering(value: seq<string>) returns (r: Option<seq<OrderTerm>>)
    ensures r == OrderingTerms(value)
  {
    if value == [] {
      return None;
    }
    var mapped := AppendMapped([], value, MapParam);
    assert mapped == MappedParams(value);
    var ordering := AppendMapped([ByPriority], mapped, TermFor);
    assert ordering == [ByPriority] + RequestedTerms(value);
    ordering := ordering + [ByField("id", true)];
    return Some(ordering);
  }

  /** A name without a leading dash is its own stripped form. */
  lemma StripUndashed(name: string)
    requires name != [] && name[0] != '-'
    ensures LStripChar(name, '-') == name && !StartsWith(name, "-")
  {
  }

  /** One leading dash is stripped off a name that has no other. */
  lemma StripDashed(name: string)
    requires name != [] && name[0] != '-'
    ensures LStripChar("-" + name, '-') == name && StartsWith("-" + name, "-")
  {
    assert ("-" + name)[1..] == name;
  }

  /** An ascending date parameter maps to its annotated field and the
      sentinel that sorts missing dates last. */
  lemma AscendingDateParam(v: string, field: string)
    requires (v == "start_date" && field == "earliest_start_date") || (v == "end_date" && field == "latest_end_date")
    ensures MapParam(v) == field
    ensures TermFor(MapParam(v)) == ByDate(field, false, LatestDate)
  {
    StripUndashed(v);
    StripUndashed(field);
  }

  /** A descending date parameter keeps its dash and takes the other
      sentinel, which again sorts missing dates last. */
  lemma DescendingDateParam(v: string, field: string)
    requires (v == "start_date" && field == "earliest_start_date") || (v == "end_date" && field == "latest_end_date")
    ensures MapParam("-" + v) == "-" + field
    ensures TermFor(MapParam("-" + v)) == ByDate(field, true, EarliestDate)
  {
    StripDashed(v);
    StripDashed(field);
  }

  /** The last name sorts by itself, in either direction. */
  lemma LastNameParam()
    ensures TermFor(MapParam("last_name")) == ByField("last_name", false)
    ensures TermFor(MapParam("-last_name")) == ByField("last_name", true)
  {
    StripUndashed("last_name");
    StripDashed("last_name");
  }

  // ------------------------------------------------ how the database sorts

  /** A row of the annotated queryset. */
  datatype Row = Row(employee: Employee, earliestStartDate: Option<Date>, latestEndDate: Option<Date>)

  /** `status_priority`: 1 for a dismissed employee, 0 for any other
      status or none. */
  function Priority(e: Employee): (p: int)
    ensures p == 1 <==> e.workingStatus == Some(Dismissed)
    ensures p == 0 || p == 1
  {
    if e.workingStatus == Some(Dismissed) then 1 else 0
  }

  function IntCmp(a: int, b: int): int {
    if a < b then -1 else if a == b then 0 else 1
  }

  /** Text compared code point by code point, a prefix first. */
  function TextCmp(a: string, b: string): (c: int)
    ensures c == 0 <==> a == b
    ensures -1 <= c <= 1
  {
    if a == [] && b == [] then 0
    else if a == [] then -1
    else if b == [] then 1
    else if a[0] != b[0] then IntCmp(a[0] as int, b[0] as int)
    else
      var c := TextCmp(a[1..], b[1..]);
      assert c == 0 ==> a == [a[0]] + a[1..] == b;
      c
  }

  function DateCmp(a: Date, b: Date): int {
    if Before(a, b) then -1 else if a == b then 0 else 1
  }

  function Directed(c: int, desc: bool): int {
    if desc then -c else c
  }

  function DateOf(r: Row, field: string): Option<Date> {
    if field == "earliest_start_date" then r.earliestStartDate else r.latestEndDate
  }

  /** How one term compares two rows. The fields the ordering parameters
      can name are the last name and the key; any other is not a sort key
      here. */
  function TermCmp(t: OrderTerm, a: Row, b: Row): int {
    match t
    case ByPriority => IntCmp(Priority(a.employee), Priority(b.employee))
    case ByField(f, desc) =>
      if f == "last_name" then Directed(TextCmp(a.employee.lastName, b.employee.lastName), desc)
      else if f == "id" then Directed(IntCmp(a.employee.id, b.employee.id), desc)
      else 0
    case ByDate(f, desc, nullAs) =>
      Directed(DateCmp(DateOf(a, f).GetOr(nullAs), DateOf(b, f).GetOr(nullAs)), desc)
  }

  /** The first term that tells the rows apart decides. */
  function Compare(terms: seq<OrderTerm>, a: Row, b: Row): int {
    if terms == [] then 0
    else if TermCmp(terms[0], a, b) != 0 then TermCmp(terms[0], a, b)
    else Compare(terms[1..], a, b)
  }

  /** Row `a` is listed before row `b`. */
  predicate Precedes(value: seq<string>, a: Row, b: Row)
    requires value != []
  {
    Compare(OrderingTerms(value).value, a, b) < 0
  }

  lemma {:induction false} TextCmpAntisymmetric(a: string, b: string)
    ensures TextCmp(a, b) == -TextCmp(b, a)
  {
    if a != [] && b != [] && a[0] == b[0] {
      TextCmpAntisymmetric(a[1..], b[1..]);
    }
  }

  lemma TermCmpAntisymmetric(t: OrderTerm, a: Row, b: Row)
    ensures TermCmp(t, a, b) == -TermCmp(t, b, a)
  {
    if t.ByField? && t.field == "last_name" {
      TextCmpAntisymmetric(a.employee.lastName, b.employee.lastName);
    }
  }

  /** Swapping the rows swaps the verdict. */
  lemma {:induction false} CompareAntisymmetric(terms: seq<OrderTerm>, a: Row, b: Row)
    ensures Compare(terms, a, b) == -Compare(terms, b, a)
  {
    if terms != [] {
      TermCmpAntisymmetric(terms[0], a, b);
      CompareAntisymmetric(terms[1..], a, b);
    }
  }

  /** A last term that tells the rows apart makes the whole comparison
      decide. */
  lemma {:induction false} LastTermDecides(terms: seq<OrderTerm>, a: Row, b: Row)
    requires terms != [] && TermCmp(terms[|terms| - 1], a, b) != 0
    ensures Compare(terms, a, b) != 0
  {
    if TermCmp(terms[0], a, b) == 0 {
      assert |terms| > 1;
      assert terms[1..][|terms[1..]| - 1] == terms[|terms| - 1];
      LastTermDecides(terms[1..], a, b);
    }
  }

  /** The trailing `-id` makes the order total: of two different
      employees, exactly one is listed first, whatever was requested. */
  lemma OrderTotal(value: seq<string>, a: Row, b: Row)
    requires value != [] && a.employee.id != b.employee.id
    ensures Precedes(value, a, b) != Precedes(value, b, a)
  {
    var terms := OrderingTerms(value).value;
    LastTermDecides(terms, a, b);
    CompareAntisymmetric(terms, a, b);
  }

  /** Dismissed employees come after all others, whatever was requested. */
  lemma DismissedLast(value: seq<string>, a: Row, b: Row)
    requires value != [] && !IsDismissed(a.employee) && IsDismissed(b.employee)
    ensures Precedes(value, a, b)
  {
  }

  /** Sorting by one date key, a row with a date comes before a row of the
      same priority without one, in either direction, unless its date is
      the sentinel itself. */
  lemma NullsLast(v: string, field: string, desc: bool, a: Row, b: Row, x: Date)
    requires (v == "start_date" && field == "earliest_start_date") || (v == "end_date" && field == "latest_end_date")
    requires Priority(a.employee) == Priority(b.employee)
    requires DateOf(a, field) == Some(x) && DateOf(b, field).None?
    requires Before(EarliestDate, x) && Before(x, LatestDate)
    ensures Precedes([if desc then "-" + v else v], a, b)
  {
    var p := if desc then "-" + v else v;
    if desc {
      DescendingDateParam(v, field);
    } else {
      AscendingDateParam(v, field);
    }
    var terms := OrderingTerms([p]).value;
    assert terms[0] == ByPriority && terms[1] == TermFor(MapParam(p));
    assert terms[1..][0] == terms[1];
    assert TermCmp(terms[1], a, b) < 0;
  }
}
