/** The employee document and the partial update merged into it. */
module EmployeeRecord {
  import opened Js

  /** An employee document as the store holds it. The `class` key is `className` here. An absent `class` or
      `avatar` is held as "", an absent `id` in a payload as "". `date` is the
      creation time in milliseconds; `password` holds the bcrypt hash. */
  datatype Employee = Employee(
    id: string,
    name: string,
    age: int,
    className: string,
    subjects: seq<string>,
    attendance: real,
    role: string,
    avatar: string,
    date: int,
    email: string,
    flagged: bool,
    password: string)

  /** An update object: `Some` for every key the caller supplied, `None` for every key left out. */
  datatype Patch = Patch(
    id: Option<string>,
    name: Option<string>,
    age: Option<int>,
    className: Option<string>,
    subjects: Option<seq<string>>,
    attendance: Option<real>,
    role: Option<string>,
    avatar: Option<string>,
    date: Option<int>,
    email: Option<string>,
    flagged: Option<bool>,
    password: Option<string>)
  {
    /** `Object.keys(patch).length === 0` */
    predicate IsEmpty() {
      && id.None? && name.None? && age.None? && className.None? && subjects.None?
      && attendance.None? && role.None? && avatar.None? && date.None?
      && email.None? && flagged.None? && password.None?
    }
  }

  /** `{}` */
  const NoChanges := Patch(None, None, None, None, None, None, None, None, None, None, None, None)

  /** `{ ...e, ...p }`: a supplied key overwrites, every other key is kept. */
  function Merge(e: Employee, p: Patch): Employee {
    Employee(
      p.id.GetOr(e.id),
      p.name.GetOr(e.name),
      p.age.GetOr(e.age),
      p.className.GetOr(e.className),
      p.subjects.GetOr(e.subjects),
      p.attendance.GetOr(e.attendance),
      p.role.GetOr(e.role),
      p.avatar.GetOr(e.avatar),
      p.date.GetOr(e.date),
      p.email.GetOr(e.email),
      p.flagged.GetOr(e.flagged),
      p.password.GetOr(e.password))
  }

  /** An update with no keys changes nothing. */
  lemma MergeEmpty(e: Employee, p: Patch)
    requires p.IsEmpty()
    ensures Merge(e, p) == e
  {
  }

  /** Applying the same update twice is applying it once. */
  lemma MergeIdempotent(e: Employee, p: Patch)
    ensures Merge(Merge(e, p), p) == Merge(e, p)
  {
  }
}
