/** What MongoDB does with the query the `employees` resolver builds:
    `countDocuments(query)`, and `find(query).sort(sort).skip(n).limit(k)`,
    over the records of the store. */
module QueryEngine {
  import opened Js
  import opened Strings
  import opened EmployeeRecord

  /** The `_id` condition: none, or equality with a value that may be undefined. */
  datatype IdCondition = AnyId | IdEquals(value: Option<string>)

  /** The query document: `_id`, `name` with `$regex` and `$options: 'i'`,
      `age` and `attendance` with `$gte`/`$lte`, and `role`. */
  datatype Query = Query(
    id: IdCondition,
    nameRegex: Option<string>,
    ageGte: Option<int>,
    ageLte: Option<int>,
    role: Option<string>,
    attendanceGte: Option<real>,
    attendanceLte: Option<real>)

  /** `{}` */
  const EmptyQuery := Query(AnyId, None, None, None, None, None, None)

  /** MongoDB selects a document when every condition present in the query holds. */
  predicate Matches(q: Query, e: Employee) {
    && (q.id.IdEquals? ==> q.id.value == Some(e.id))
    && (q.nameRegex.Some? ==> ContainsIgnoringCase(e.name, q.nameRegex.value))
    && (q.ageGte.Some? ==> e.age >= q.ageGte.value)
    && (q.ageLte.Some? ==> e.age <= q.ageLte.value)
    && (q.role.Some? ==> e.role == q.role.value)
    && (q.attendanceGte.Some? ==> e.attendance >= q.attendanceGte.value)
    && (q.attendanceLte.Some? ==> e.attendance <= q.attendanceLte.value)
  }

  /** `find(q)` in natural order; `countDocuments(q)` is its length. */
  function Select(s: seq<Employee>, q: Query): (r: seq<Employee>)
    ensures |r| <= |s|
    ensures forall e :: e in r <==> e in s && Matches(q, e)
  {
    if s == [] then []
    else (if Matches(q, s[0]) then [s[0]] else []) + Select(s[1..], q)
  }

  /** The value a document has under a sort field, in MongoDB's comparison classes. */
  datatype SortKey = Missing | Number(n: real) | Text(s: string)

  /** The value sorted on for `field`. `id` is a virtual of the model, not a
      stored field, so like any unknown field it is missing from every document. */
  function KeyOf(e: Employee, field: string): SortKey {
    if field == "_id" then Text(e.id)
    else if field == "name" then Text(e.name)
    else if field == "age" then Number(e.age as real)
    else if field == "class" then Text(e.className)
    else if field == "attendance" then Number(e.attendance)
    else if field == "role" then Text(e.role)
    else if field == "avatar" then Text(e.avatar)
    else if field == "date" then Number(e.date as real)
    else if field == "email" then Text(e.email)
    else if field == "password" then Text(e.password)
    else Missing
  }

  /** MongoDB's order: a missing value before numbers, numbers before strings,
      numbers by value, strings by binary comparison. */
  predicate KeyLe(a: SortKey, b: SortKey) {
    match a
    case Missing => true
    case Number(x) => b.Text? || (b.Number? && x <= b.n)
    case Text(x) => b.Text? && LexLe(x, b.s)
  }

  lemma KeyLeTotal(a: SortKey, b: SortKey)
    ensures KeyLe(a, b) || KeyLe(b, a)
  {
    if a.Text? && b.Text? {
      LexLeTotal(a.s, b.s);
    }
  }

  lemma KeyLeTransitive(a: SortKey, b: SortKey, c: SortKey)
    requires KeyLe(a, b) && KeyLe(b, c)
    ensures KeyLe(a, c)
  {
    if a.Text? && b.Text? && c.Text? {
      LexLeTransitive(a.s, b.s, c.s);
    }
  }

  /** A sort document with one key: `{ [field]: 1 }` or `{ [field]: -1 }`. */
  datatype SortSpec = SortSpec(field: string, ascending: bool)

  /** `a` may come before `b` under the sort. */
  predicate Before(spec: SortSpec, a: Employee, b: Employee) {
    var x, y := KeyOf(a, spec.field), KeyOf(b, spec.field);
    if spec.ascending then KeyLe(x, y) else KeyLe(y, x)
  }

  lemma BeforeTotal(spec: SortSpec, a: Employee, b: Employee)
    ensures Before(spec, a, b) || Before(spec, b, a)
  {
    KeyLeTotal(KeyOf(a, spec.field), KeyOf(b, spec.field));
  }

  lemma BeforeTransitive(spec: SortSpec, a: Employee, b: Employee, c: Employee)
    requires Before(spec, a, b) && Before(spec, b, c)
    ensures Before(spec, a, c)
  {
    var x, y, z := KeyOf(a, spec.field), KeyOf(b, spec.field), KeyOf(c, spec.field);
    if spec.ascending {
      KeyLeTransitive(x, y, z);
    } else {
      KeyLeTransitive(z, y, x);
    }
  }

  ghost predicate SortedBy(s: seq<Employee>, spec: SortSpec) {
    forall i, j :: 0 <= i < j < |s| ==> Before(spec, s[i], s[j])
  }

  function Insert(x: Employee, s: seq<Employee>, spec: SortSpec): seq<Employee>
    decreases |s|
  {
    if s == [] || Before(spec, x, s[0]) then [x] + s
    else [s[0]] + Insert(x, s[1..], spec)
  }

  /** `.sort(sort)`: one of the orders MongoDB may return. The order of records
      with equal keys is not promised, and nothing here depends on it. */
  function Sort(s: seq<Employee>, spec: SortSpec): seq<Employee>
    decreases |s|
  {
    if s == [] then [] else Insert(s[0], Sort(s[1..], spec), spec)
  }

  /** A record that may precede every record of a sorted list can head it. */
  lemma ConsSorted(h: Employee, t: seq<Employee>, spec: SortSpec)
    requires SortedBy(t, spec)
    requires forall j :: 0 <= j < |t| ==> Before(spec, h, t[j])
    ensures SortedBy([h] + t, spec)
  {
    var u := [h] + t;
    forall i, j | 0 <= i < j < |u|
      ensures Before(spec, u[i], u[j])
    {
      assert u[j] == t[j - 1];
      if i > 0 {
        assert u[i] == t[i - 1];
      }
    }
  }

  /** Inserting keeps a lower bound that holds for the list and the new record. */
  lemma {:induction false} InsertKeepsLowerBound(b: Employee, x: Employee, s: seq<Employee>, spec: SortSpec)
    requires Before(spec, b, x)
    requires forall j :: 0 <= j < |s| ==> Before(spec, b, s[j])
    ensures forall j :: 0 <= j < |Insert(x, s, spec)| ==> Before(spec, b, Insert(x, s, spec)[j])
    decreases |s|
  {
    if s != [] && !Before(spec, x, s[0]) {
      var t := Insert(x, s[1..], spec);
      InsertKeepsLowerBound(b, x, s[1..], spec);
      forall j | 0 <= j < |[s[0]] + t|
        ensures Before(spec, b, ([s[0]] + t)[j])
      {
        if j > 0 {
          assert ([s[0]] + t)[j] == t[j - 1];
        }
      }
    }
  }

  lemma {:induction false} InsertSorted(x: Employee, s: seq<Employee>, spec: SortSpec)
    requires SortedBy(s, spec)
    ensures SortedBy(Insert(x, s, spec), spec)
    decreases |s|
  {
    if s == [] {
    } else if Before(spec, x, s[0]) {
      forall j | 0 <= j < |s|
        ensures Before(spec, x, s[j])
      {
        if j > 0 {
          BeforeTransitive(spec, x, s[0], s[j]);
        }
      }
      ConsSorted(x, s, spec);
    } else {
      BeforeTotal(spec, x, s[0]);
      InsertSorted(x, s[1..], spec);
      InsertKeepsLowerBound(s[0], x, s[1..], spec);
      ConsSorted(s[0], Insert(x, s[1..], spec), spec);
    }
  }

  lemma {:induction false} InsertPermutes(x: Employee, s: seq<Employee>, spec: SortSpec)
    ensures multiset(Insert(x, s, spec)) == multiset(s) + multiset{x}
    decreases |s|
  {
    if s != [] && !Before(spec, x, s[0]) {
      InsertPermutes(x, s[1..], spec);
      assert s == [s[0]] + s[1..];
    }
  }

  lemma {:induction false} SortSorted(s: seq<Employee>, spec: SortSpec)
    ensures SortedBy(Sort(s, spec), spec)
    decreases |s|
  {
    if s != [] {
      SortSorted(s[1..], spec);
      InsertSorted(s[0], Sort(s[1..], spec), spec);
    }
  }

  lemma {:induction false} SortPermutes(s: seq<Employee>, spec: SortSpec)
    ensures multiset(Sort(s, spec)) == multiset(s)
    decreases |s|
  {
    if s != [] {
      SortPermutes(s[1..], spec);
      InsertPermutes(s[0], Sort(s[1..], spec), spec);
      assert s == [s[0]] + s[1..];
    }
  }

  /** The sorted result is in the requested order and holds exactly the input records. */
  lemma SortCorrect(s: seq<Employee>, spec: SortSpec)
    ensures SortedBy(Sort(s, spec), spec)
    ensures multiset(Sort(s, spec)) == multiset(s)
  {
    SortSorted(s, spec);
    SortPermutes(s, spec);
  }

  /** `.skip(skip).limit(limit)` for a positive `limit` (`.limit(0)` means no limit). */
  function Window(s: seq<Employee>, skip: nat, limit: nat): (r: seq<Employee>)
    requires limit >= 1
    ensures skip >= |s| ==> r == []
    ensures skip < |s| ==> |r| == if skip + limit <= |s| then limit else |s| - skip
    ensures forall i :: 0 <= i < |r| ==> r[i] == s[skip + i]
  {
    if skip >= |s| then [] else s[skip .. if skip + limit <= |s| then skip + limit else |s|]
  }

  /** `Math.ceil(n / d)` for a positive divisor. */
  function CeilDiv(n: nat, d: nat): (q: nat)
    requires d >= 1
    ensures n <= q * d
    ensures q == 0 || (q - 1) * d < n
  {
    var q := (n + d - 1) / d;
    assert n + d - 1 == q * d + (n + d - 1) % d;
    assert q == 0 || (q - 1) * d == q * d - d;
    q
  }

  function Min(a: int, b: int): int {
    if a <= b then a else b
  }

  /** Where page `k + 1` starts, built by repeated addition. */
  function Offset(k: nat, size: nat): nat {
    if k == 0 then 0 else Offset(k - 1, size) + size
  }

  /** Page `k + 1` starts at `k * size`, the skip the resolver passes for it. */
  lemma {:induction false} OffsetIsProduct(k: nat, size: nat)
    ensures Offset(k, size) == k * size
  {
    if k > 0 {
      OffsetIsProduct(k - 1, size);
      NextMultiple(k, size);
    }
  }

  /** Pages 1 to `k` of size `size`, one after the other. */
  function PagesUpTo(s: seq<Employee>, size: nat, k: nat): seq<Employee>
    requires size >= 1
  {
    if k == 0 then [] else PagesUpTo(s, size, k - 1) + Window(s, Offset(k - 1, size), size)
  }

  /** The first `k` pages together are the records before `Offset(k, size)`,
      that is before `k * size`. */
  lemma {:induction false} PagesUpToIsPrefix(s: seq<Employee>, size: nat, k: nat)
    requires size >= 1
    ensures PagesUpTo(s, size, k) == s[..Min(Offset(k, size), |s|)]
  {
    if k > 0 {
      PagesUpToIsPrefix(s, size, k - 1);
      PrefixThenWindow(s, Offset(k - 1, size), size);
    }
  }

  /** The records before position `a`, then the window at `a`, are the records
      before `a + size`. */
  lemma PrefixThenWindow(s: seq<Employee>, a: nat, size: nat)
    requires size >= 1
    ensures s[..Min(a, |s|)] + Window(s, a, size) == s[..Min(a + size, |s|)]
  {
    if a < |s| {
      var m := Min(a + size, |s|);
      assert Window(s, a, size) == s[a..m];
      assert s[..a] + s[a..m] == s[..m];
    }
  }

  /** Reading every page from 1 to `ceil(|s| / size)` gives back every record
      exactly once, in order. */
  lemma AllPagesCoverAll(s: seq<Employee>, size: nat)
    requires size >= 1
    ensures PagesUpTo(s, size, CeilDiv(|s|, size)) == s
  {
    PagesUpToIsPrefix(s, size, CeilDiv(|s|, size));
    OffsetIsProduct(CeilDiv(|s|, size), size);
  }

  /** A page past the last one is empty. */
  lemma PastLastPageEmpty(s: seq<Employee>, size: nat, page: nat)
    requires size >= 1 && page > CeilDiv(|s|, size)
    ensures Window(s, (page - 1) * size, size) == []
  {
    var q := CeilDiv(|s|, size);
    MultipleMonotone(q, page - 1, size);
  }

  lemma NextMultiple(k: nat, size: nat)
    requires k >= 1
    ensures k * size == (k - 1) * size + size
  {
  }

  lemma MultipleMonotone(a: nat, b: nat, size: nat)
    requires a <= b
    ensures a * size <= b * size
  {
    assert b * size == a * size + (b - a) * size;
  }
}
