/** The resolvers of `src/schema/resolvers.js`: the authorization checks of
    each query and mutation, and the list query built for MongoDB. The
    `Employee` model's calls are made against the repository of `Db`;
    password hashing, hash comparison and token signing are parameters. */
module Resolvers {
  import opened Js
  import opened Strings
  import opened EmployeeRecord
  import opened Tokens
  import opened Db
  import opened QueryEngine

  /** The `filter` argument of `employees`, as the resolver reads it. */
  datatype Filter = Filter(
    name: Option<string>,
    minAge: Option<int>,
    maxAge: Option<int>,
    role: Option<string>,
    attendanceMin: Option<real>,
    attendanceMax: Option<real>)

  /** The `sortBy` argument: a field name and an order string. */
  datatype SortArg = SortArg(field: string, order: Option<string>)

  /** The arguments of `employees`; `page` and `pageSize` default to 1 and 10. */
  datatype ListArgs = ListArgs(
    page: Option<int>, pageSize: Option<int>, filter: Option<Filter>, sortBy: Option<SortArg>)

  /** `{ employees, totalCount, totalPages }` */
  datatype EmployeePage = EmployeePage(employees: seq<Employee>, totalCount: nat, totalPages: nat)

  /** `{ token, user }` returned by `login`. */
  datatype LoginPayload = LoginPayload(token: string, user: Employee)

  datatype GraphQLError =
    | AuthenticationError(message: string)
    | ForbiddenError(message: string)
    | UserInputError(message: string)

  const NotAuthenticated := AuthenticationError("Not authenticated")
  const ViewForbidden := ForbiddenError("Not authorized to view this employee")
  const UpdateForbidden := ForbiddenError("Not authorized to update this employee")
  const NameOnlyForbidden := ForbiddenError("You are only allowed to update your name.")
  const AdminOnly := ForbiddenError("Not authorized")
  const InvalidCredentials := UserInputError("Invalid credentials")

  function PageNumber(args: ListArgs): int {
    args.page.GetOr(1)
  }

  function PageSize(args: ListArgs): int {
    args.pageSize.GetOr(10)
  }

  /** `(page - 1) * pageSize`: how many records come before the requested page. */
  function Skip(args: ListArgs): nat
    requires PageNumber(args) >= 1 && PageSize(args) >= 1
  {
    (PageNumber(args) - 1) * PageSize(args)
  }

  /** `user.role === 'admin'` */
  predicate IsAdmin(user: Claims) {
    Claim(user, "role") == Some("admin")
  }

  /** `user.id === id` */
  predicate IsSelf(user: Claims, id: string) {
    Claim(user, "id") == Some(id)
  }

  /** The rows a caller may list: every row for an admin, otherwise only the caller's own. */
  predicate InScope(user: Claims, e: Employee) {
    IsAdmin(user) || IsSelf(user, e.id)
  }

  /** What the filter promises: each truthy clause is a condition, all of them
      must hold, and a falsy clause adds none. */
  predicate PassesFilter(f: Filter, e: Employee) {
    && (TruthyText(f.name) ==> ContainsIgnoringCase(e.name, f.name.value))
    && (TruthyInt(f.minAge) ==> f.minAge.value <= e.age)
    && (TruthyInt(f.maxAge) ==> e.age <= f.maxAge.value)
    && (TruthyText(f.role) ==> e.role == f.role.value)
    && (TruthyReal(f.attendanceMin) ==> f.attendanceMin.value <= e.attendance)
    && (TruthyReal(f.attendanceMax) ==> e.attendance <= f.attendanceMax.value)
  }

  predicate Listed(user: Claims, filter: Option<Filter>, e: Employee) {
    InScope(user, e) && (filter.Some? ==> PassesFilter(filter.value, e))
  }

  /** The stored records a caller's list query stands for, in store order. */
  function Listing(s: seq<Employee>, user: Claims, filter: Option<Filter>): (r: seq<Employee>)
    ensures |r| <= |s|
    ensures forall e :: e in r <==> e in s && Listed(user, filter, e)
  {
    if s == [] then []
    else (if Listed(user, filter, s[0]) then [s[0]] else []) + Listing(s[1..], user, filter)
  }

  /** The sort document: the one `sortBy` field, ascending only for the order
      `'asc'`; `{ date: -1 }` without `sortBy`. */
  function OrderOf(sortBy: Option<SortArg>): SortSpec {
    if sortBy.Some? then SortSpec(sortBy.value.field, sortBy.value.order == Some("asc"))
    else SortSpec("date", false)
  }

  /** The query MongoDB runs selects exactly the listed records. */
  lemma {:induction false} SelectIsListing(s: seq<Employee>, q: Query, user: Claims, filter: Option<Filter>)
    requires forall e :: Matches(q, e) <==> Listed(user, filter, e)
    ensures Select(s, q) == Listing(s, user, filter)
  {
    if s != [] {
      SelectIsListing(s[1..], q, user, filter);
    }
  }

  /** `Query.employees` */
  method EmployeesQuery(repo: Repository, user: Option<Claims>, args: ListArgs)
    returns (r: Result<EmployeePage, GraphQLError>)
    requires PageNumber(args) >= 1 && PageSize(args) >= 1
    ensures user.None? <==> r == Failure(NotAuthenticated)
    ensures user.Some? ==> r.Success?
    ensures r.Success? ==>
      var listed := Listing(repo.records, user.value, args.filter);
      var size := PageSize(args);
      && r.value.totalCount == |listed|
      && r.value.totalPages == CeilDiv(|listed|, size)
      && r.value.employees == Window(Sort(listed, OrderOf(args.sortBy)), Skip(args), size)
  {
    if user.None? {
      return Failure(NotAuthenticated);
    }
    var u := user.value;
    var query := BuildQuery(u, args.filter);
    SelectIsListing(repo.records, query, u, args.filter);
    var listed := Select(repo.records, query);
    var size := PageSize(args);
    var employees := Window(Sort(listed, OrderOf(args.sortBy)), Skip(args), size);
    r := Success(EmployeePage(employees, |listed|, CeilDiv(|listed|, size)));
  }

  /** The query document of `employees`: `_id` pinned to the caller's id for a
      non-admin, then one condition per truthy filter clause. It selects exactly
      the listed records, and no filter clause can lift the `_id` condition. */
  method BuildQuery(u: Claims, filter: Option<Filter>) returns (query: Query)
    ensures forall e :: Matches(query, e) <==> Listed(u, filter, e)
    ensures !IsAdmin(u) ==> query.id == IdEquals(Claim(u, "id"))
  {
    query := EmptyQuery;
    if !IsAdmin(u) {
      query := query.(id := IdEquals(Claim(u, "id")));
    }
    if filter.Some? {
      var f := filter.value;
      if TruthyText(f.name) {
        query := query.(nameRegex := f.name);
      }
      if TruthyInt(f.minAge) {
        query := query.(ageGte := f.minAge);
      }
      if TruthyInt(f.maxAge) {
        query := query.(ageLte := f.maxAge);
      }
      if TruthyText(f.role) {
        query := query.(role := f.role);
      }
      if TruthyReal(f.attendanceMin) {
        query := query.(attendanceGte := f.attendanceMin);
      }
      if TruthyReal(f.attendanceMax) {
        query := query.(attendanceLte := f.attendanceMax);
      }
    }
  }

  lemma {:induction false} ListingOfUnlisted(s: seq<Employee>, user: Claims, filter: Option<Filter>)
    requires forall e :: e in s ==> !Listed(user, filter, e)
    ensures Listing(s, user, filter) == []
  {
    if s != [] {
      ListingOfUnlisted(s[1..], user, filter);
    }
  }

  /** A non-admin lists at most their own record when ids are unique, whatever the filter says. */
  lemma {:induction false} NonAdminListsAtMostSelf(s: seq<Employee>, user: Claims, filter: Option<Filter>)
    requires !IsAdmin(user) && UniqueIds(s)
    ensures forall e :: e in Listing(s, user, filter) ==> IsSelf(user, e.id)
    ensures |Listing(s, user, filter)| <= 1
  {
    if s != [] {
      NonAdminListsAtMostSelf(s[1..], user, filter);
      if Listed(user, filter, s[0]) {
        forall e | e in s[1..]
          ensures !Listed(user, filter, e)
        {
          var m :| 0 <= m < |s[1..]| && s[1..][m] == e;
          assert s[m + 1] == e;
        }
        ListingOfUnlisted(s[1..], user, filter);
      }
    }
  }

  /** Every record on a returned page is a listed record; for a non-admin, their own. */
  lemma PageRecordsListed(s: seq<Employee>, user: Claims, filter: Option<Filter>, sortBy: Option<SortArg>, skip: nat, size: nat)
    requires size >= 1
    ensures forall e :: e in Window(Sort(Listing(s, user, filter), OrderOf(sortBy)), skip, size) ==>
      e in s && Listed(user, filter, e) && (!IsAdmin(user) ==> IsSelf(user, e.id))
  {
    var listed := Listing(s, user, filter);
    var sorted := Sort(listed, OrderOf(sortBy));
    SortCorrect(listed, OrderOf(sortBy));
    forall e | e in Window(sorted, skip, size)
      ensures e in listed
    {
      var i :| 0 <= i < |Window(sorted, skip, size)| && Window(sorted, skip, size)[i] == e;
      assert sorted[skip + i] == e;
      assert e in multiset(sorted);
    }
  }

  /** A filter whose every clause is falsy (missing, "" or 0) lists what no filter lists. */
  lemma {:induction false} FalsyFilterIgnored(s: seq<Employee>, user: Claims, f: Filter)
    requires !TruthyText(f.name) && !TruthyInt(f.minAge) && !TruthyInt(f.maxAge) && !TruthyText(f.role)
    requires !TruthyReal(f.attendanceMin) && !TruthyReal(f.attendanceMax)
    ensures Listing(s, user, Some(f)) == Listing(s, user, None)
  {
    if s != [] {
      FalsyFilterIgnored(s[1..], user, f);
    }
  }

  /** Bounds are inclusive, and two bounds on the same field combine: with
      non-zero bounds a record in scope is listed exactly when its age and its
      attendance lie within them, ends included. */
  lemma BoundsInclusive(user: Claims, e: Employee, minAge: int, maxAge: int, low: real, high: real)
    requires InScope(user, e)
    requires minAge != 0 && maxAge != 0 && low != 0.0 && high != 0.0
    ensures Listed(user, Some(Filter(None, Some(minAge), Some(maxAge), None, Some(low), Some(high))), e)
            <==> minAge <= e.age <= maxAge && low <= e.attendance <= high
  {
  }

  /** `Query.employee` */
  method EmployeeQuery(repo: Repository, user: Option<Claims>, id: string)
    returns (r: Result<Option<Employee>, GraphQLError>)
    ensures user.None? ==> r == Failure(NotAuthenticated)
    ensures user.Some? && !IsAdmin(user.value) && !IsSelf(user.value, id) ==> r == Failure(ViewForbidden)
    ensures user.Some? && (IsAdmin(user.value) || IsSelf(user.value, id)) ==> r == Success(Find(repo.records, ById(id)))
    ensures r.Success? && r.value.Some? ==> r.value.value in repo.records && r.value.value.id == id
  {
    if user.None? {
      return Failure(NotAuthenticated);
    }
    if !IsAdmin(user.value) && !IsSelf(user.value, id) {
      return Failure(ViewForbidden);
    }
    var found := repo.FindById(id);
    r := Success(found);
  }

  /** `Query.me`: the caller's own record; `findById(undefined)` finds nothing. */
  method MeQuery(repo: Repository, user: Option<Claims>)
    returns (r: Result<Option<Employee>, GraphQLError>)
    ensures user.None? <==> r == Failure(NotAuthenticated)
    ensures user.Some? ==> r.Success?
    ensures r.Success? ==> r.value == (if Claim(user.value, "id").Some? then Find(repo.records, ById(Claim(user.value, "id").value)) else None)
    ensures r.Success? && r.value.Some? ==> IsSelf(user.value, r.value.value.id)
  {
    if user.None? {
      return Failure(NotAuthenticated);
    }
    var id := Claim(user.value, "id");
    if id.None? {
      return Success(None);
    }
    var found := repo.FindById(id.value);
    r := Success(found);
  }

  /** The claims `login` signs: the id and the role, and no name. */
  function IssuedClaims(e: Employee): (c: Claims)
    ensures IsSelf(c, e.id) && (IsAdmin(c) <==> e.role == "admin")
    ensures Claim(c, "name") == None
  {
    map["id" := e.id, "role" := e.role]
  }

  /** `Mutation.login`; `compare` is `bcrypt.compare`, `sign` is `jwt.sign` with the secret and a one-day expiry. */
  method Login(repo: Repository, email: string, password: string,
               compare: (string, string) -> bool, sign: Claims -> string)
    returns (r: Result<LoginPayload, GraphQLError>)
    ensures var found := Find(repo.records, ByEmail(email));
      r.Success? <==> found.Some? && compare(password, found.value.password)
    ensures r.Failure? ==> r == Failure(InvalidCredentials)
    ensures r.Success? ==> var found := Find(repo.records, ByEmail(email));
      r.value == LoginPayload(sign(IssuedClaims(found.value)), found.value)
  {
    var employee := repo.FindByEmail(email);
    if employee.None? {
      return Failure(InvalidCredentials);
    }
    var valid := compare(password, employee.value.password);
    if !valid {
      return Failure(InvalidCredentials);
    }
    var token := sign(IssuedClaims(employee.value));
    r := Success(LoginPayload(token, employee.value));
  }

  /** `Mutation.addEmployee`: admin only; the password is stored hashed. The
      MongoDB model gives every new document a fresh `_id`, so the payload's
      own id is not used, and it stores no `flagged`, a key its schema lacks,
      which reads back as `false`. */
  method AddEmployee(repo: Repository, user: Option<Claims>, args: Employee,
                     hash: string -> string, freshId: string)
    returns (r: Result<Employee, GraphQLError>)
    requires freshId != ""
    requires forall e :: e in repo.records ==> e.id != freshId
    modifies repo
    ensures UniqueIds(old(repo.records)) ==> UniqueIds(repo.records)
    ensures !(user.Some? && IsAdmin(user.value)) ==> r == Failure(AdminOnly) && repo.records == old(repo.records)
    ensures user.Some? && IsAdmin(user.value) ==>
      && r == Success(args.(id := freshId, password := hash(args.password), flagged := false))
      && repo.records == old(repo.records) + [r.value]
  {
    if user.None? || !IsAdmin(user.value) {
      return Failure(AdminOnly);
    }
    var hashedPassword := hash(args.password);
    var created := repo.Create(args.(id := "", password := hashedPassword, flagged := false), freshId);
    if UniqueIds(old(repo.records)) {
      AppendKeepsUnique(old(repo.records), created);
    }
    r := Success(created);
  }

  /** The part of a self-update that is kept: a truthy `name`, nothing else. */
  function SelfUpdate(updates: Patch): Patch {
    if TruthyText(updates.name) then NoChanges.(name := updates.name) else NoChanges
  }

  /** A kept self-update changes the name and nothing else; other keys sent with it are dropped. */
  lemma SelfUpdateOnlyName(e: Employee, updates: Patch)
    ensures Merge(e, SelfUpdate(updates)) == e.(name := if TruthyText(updates.name) then updates.name.value else e.name)
    ensures SelfUpdate(updates).IsEmpty() <==> !TruthyText(updates.name)
  {
  }

  /** The keys of an update the MongoDB model keeps: `flagged` has no path in
      its schema and is dropped. */
  function Stored(updates: Patch): (p: Patch)
    ensures p.flagged == None
    ensures p.(flagged := updates.flagged) == updates
  {
    updates.(flagged := None)
  }

  /** `Mutation.updateEmployee`; `{ id, ...updates }` leaves `id` out of the updates. */
  method UpdateEmployee(repo: Repository, user: Option<Claims>, id: string, updates: Patch)
    returns (r: Result<Option<Employee>, GraphQLError>)
    requires updates.id.None?
    modifies repo
    ensures UniqueIds(old(repo.records)) ==> UniqueIds(repo.records)
    ensures user.None? ==> r == Failure(NotAuthenticated)
    ensures user.Some? && !IsAdmin(user.value) && !IsSelf(user.value, id) ==> r == Failure(UpdateForbidden)
    ensures (user.Some? && !IsAdmin(user.value) && IsSelf(user.value, id)
             && !TruthyText(updates.name) && !updates.IsEmpty()) ==> r == Failure(NameOnlyForbidden)
    ensures r.Success? <==>
      user.Some? && (IsAdmin(user.value) || (IsSelf(user.value, id) && (TruthyText(updates.name) || updates.IsEmpty())))
    ensures r.Failure? ==> repo.records == old(repo.records)
    ensures r.Success? ==>
      var applied := if IsAdmin(user.value) then Stored(updates) else SelfUpdate(updates);
      var k := FirstIndex(old(repo.records), ById(id));
      && repo.records == ApplyUpdate(old(repo.records), id, applied)
      && r.value == (if k == -1 then None else Some(Merge(old(repo.records)[k], applied)))
  {
    if user.None? {
      return Failure(NotAuthenticated);
    }
    var u := user.value;
    if !IsAdmin(u) && !IsSelf(u, id) {
      return Failure(UpdateForbidden);
    }
    var applied := Stored(updates);
    if !IsAdmin(u) {
      var allowed := NoChanges;
      if TruthyText(updates.name) {
        allowed := allowed.(name := updates.name);
      }
      if allowed.IsEmpty() && !updates.IsEmpty() {
        return Failure(NameOnlyForbidden);
      }
      applied := allowed;
    }
    ApplyUpdateKeepsIds(repo.records, id, applied);
    var updated := repo.UpdateById(id, applied);
    r := Success(updated);
  }

  /** `Mutation.deleteEmployee`: admin only; `true` whether or not the id was stored. */
  method DeleteEmployee(repo: Repository, user: Option<Claims>, id: string)
    returns (r: Result<bool, GraphQLError>)
    modifies repo
    ensures UniqueIds(old(repo.records)) ==> UniqueIds(repo.records)
    ensures !(user.Some? && IsAdmin(user.value)) ==> r == Failure(AdminOnly) && repo.records == old(repo.records)
    ensures user.Some? && IsAdmin(user.value) ==> r == Success(true) && repo.records == Without(old(repo.records), id)
  {
    if user.None? || !IsAdmin(user.value) {
      return Failure(AdminOnly);
    }
    if UniqueIds(repo.records) {
      WithoutKeepsUnique(repo.records, id);
    }
    repo.DeleteById(id);
    r := Success(true);
  }
}
