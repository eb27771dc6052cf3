/** The in-memory repository of `src/db.js` (the fallback used when MongoDB
    is not connected) and the `serialize` mapping of stored documents. */
module Db {
  import opened Js
  import opened EmployeeRecord

  /** The callback of a `find`/`findIndex` over the store: `String(d.id) === String(id)` or `d.email === email`. */
  datatype Key = ById(id: string) | ByEmail(email: string)

  predicate HasKey(e: Employee, key: Key) {
    match key
    case ById(id) => e.id == id
    case ByEmail(email) => e.email == email
  }

  /** `findIndex`: the position of the first record with the key, or -1. */
  function FirstIndex(s: seq<Employee>, key: Key): (k: int)
    ensures -1 <= k < |s|
    ensures k != -1 ==> HasKey(s[k], key)
    ensures forall j :: 0 <= j < |s| && (k == -1 || j < k) ==> !HasKey(s[j], key)
  {
    if s == [] then -1
    else if HasKey(s[0], key) then 0
    else
      var k := FirstIndex(s[1..], key);
      if k == -1 then -1 else k + 1
  }

  /** `find(...) || null` */
  function Find(s: seq<Employee>, key: Key): (r: Option<Employee>)
    ensures r.Some? <==> exists e :: e in s && HasKey(e, key)
    ensures r.Some? ==> r.value in s && HasKey(r.value, key)
  {
    var k := FirstIndex(s, key);
    if k == -1 then None else Some(s[k])
  }

  /** No two stored records share an id (what MongoDB's `_id` index guarantees). */
  ghost predicate UniqueIds(s: seq<Employee>) {
    forall i, j :: 0 <= i < j < |s| ==> s[i].id != s[j].id
  }

  /** `filter((d) => String(d.id) !== String(id))`, as `deleteById` reassigns the store. */
  function Without(s: seq<Employee>, id: string): (r: seq<Employee>)
    ensures |r| <= |s|
    ensures forall e :: e in r <==> e in s && e.id != id
  {
    if s == [] then []
    else (if s[0].id == id then [] else [s[0]]) + Without(s[1..], id)
  }

  /** Deleting an id that is not stored leaves the store as it was. */
  lemma {:induction false} WithoutAbsent(s: seq<Employee>, id: string)
    requires forall e :: e in s ==> e.id != id
    ensures Without(s, id) == s
  {
    if s != [] {
      WithoutAbsent(s[1..], id);
    }
  }

  /** Deleting twice is deleting once. */
  lemma WithoutIdempotent(s: seq<Employee>, id: string)
    ensures Without(Without(s, id), id) == Without(s, id)
  {
    WithoutAbsent(Without(s, id), id);
  }

  /** The kept records stay in their original order: deletion distributes over concatenation. */
  lemma {:induction false} WithoutAppend(s: seq<Employee>, t: seq<Employee>, id: string)
    ensures Without(s + t, id) == Without(s, id) + Without(t, id)
  {
    if s != [] {
      assert (s + t)[1..] == s[1..] + t;
      WithoutAppend(s[1..], t, id);
    } else {
      assert s + t == t;
    }
  }

  /** `payload.id || String(Date.now() + Math.random())`, the generated id passed in as `freshId`. */
  function WithId(payload: Employee, freshId: string): Employee {
    payload.(id := if payload.id != "" then payload.id else freshId)
  }

  /** The store after `updateById(id, update)`: the first record with the id is merged with the update. */
  function ApplyUpdate(s: seq<Employee>, id: string, update: Patch): seq<Employee> {
    var k := FirstIndex(s, ById(id));
    if k == -1 then s else s[k := Merge(s[k], update)]
  }

  /** `updateById` changes at most one record, the first with the id, and keeps the length. */
  lemma ApplyUpdateFrame(s: seq<Employee>, id: string, update: Patch)
    ensures |ApplyUpdate(s, id, update)| == |s|
    ensures forall j :: 0 <= j < |s| && !HasKey(s[j], ById(id)) ==> ApplyUpdate(s, id, update)[j] == s[j]
    ensures (forall e :: e in s ==> e.id != id) ==> ApplyUpdate(s, id, update) == s
  {
  }

  /** Appending a record whose id is not yet stored keeps ids unique. */
  lemma AppendKeepsUnique(s: seq<Employee>, e: Employee)
    requires UniqueIds(s)
    requires forall x :: x in s ==> x.id != e.id
    ensures UniqueIds(s + [e])
  {
    var t := s + [e];
    forall i, j | 0 <= i < j < |t|
      ensures t[i].id != t[j].id
    {
      assert t[i] == s[i];
      if j == |s| {
        assert s[i] in s;
      } else {
        assert t[j] == s[j];
      }
    }
  }

  /** Deleting keeps ids unique. */
  lemma {:induction false} WithoutKeepsUnique(s: seq<Employee>, id: string)
    requires UniqueIds(s)
    ensures UniqueIds(Without(s, id))
  {
    if s != [] {
      var rest := Without(s[1..], id);
      WithoutKeepsUnique(s[1..], id);
      if s[0].id != id {
        forall x | x in rest
          ensures x.id != s[0].id
        {
          var j :| 0 <= j < |s[1..]| && s[1..][j] == x;
          assert s[j + 1] == x;
        }
        var t := [s[0]] + rest;
        forall i, j | 0 <= i < j < |t|
          ensures t[i].id != t[j].id
        {
          assert t[j] == rest[j - 1] && rest[j - 1] in rest;
          if i > 0 {
            assert t[i] == rest[i - 1];
          }
        }
      } else {
        assert [] + rest == rest;
      }
    }
  }

  /** An update that sends no `id` keeps every stored id, so ids stay unique. */
  lemma ApplyUpdateKeepsIds(s: seq<Employee>, id: string, update: Patch)
    requires update.id.None?
    ensures |ApplyUpdate(s, id, update)| == |s|
    ensures forall j :: 0 <= j < |s| ==> ApplyUpdate(s, id, update)[j].id == s[j].id
    ensures UniqueIds(s) ==> UniqueIds(ApplyUpdate(s, id, update))
  {
  }

  /** The repository object `getRepository` returns when MongoDB is not
      connected; `records` is the module-level `memoryStore`. */
  class Repository {
    var records: seq<Employee>

    constructor ()
      ensures records == []
    {
      records := [];
    }

    /** `findAll`: a copy of every stored record, in store order. */
    method FindAll() returns (all: seq<Employee>)
      ensures all == records
    {
      all := records;
    }

    /** `findById`: the first record whose id is `id`, or null. */
    method FindById(id: string) returns (r: Option<Employee>)
      ensures r == Find(records, ById(id))
      ensures r.Some? ==> r.value.id == id && r.value in records
      ensures r.None? <==> forall e :: e in records ==> e.id != id
    {
      r := Find(records, ById(id));
    }

    /** `findByEmail`: the first record whose email is `email`, or null. */
    method FindByEmail(email: string) returns (r: Option<Employee>)
      ensures r == Find(records, ByEmail(email))
      ensures r.Some? ==> r.value.email == email && r.value in records
      ensures r.None? <==> forall e :: e in records ==> e.email != email
    {
      r := Find(records, ByEmail(email));
    }

    /** `create`: stores the payload under its own id or a fresh one, at the
        end of the store, and returns a copy of the stored record. No email
        check is made. */
    method Create(payload: Employee, freshId: string) returns (doc: Employee)
      requires freshId != ""
      modifies this
      ensures doc.id != "" && doc == payload.(id := doc.id)
      ensures payload.id != "" ==> doc.id == payload.id
      ensures payload.id == "" ==> doc.id == freshId
      ensures records == old(records) + [doc]
    {
      doc := WithId(payload, freshId);
      records := records + [doc];
    }

    /** `updateById`: merges the update over the first record with the id and
        returns the merged record; null and no change when there is none. */
    method UpdateById(id: string, update: Patch) returns (r: Option<Employee>)
      modifies this
      ensures var k := FirstIndex(old(records), ById(id));
        r == if k == -1 then None else Some(Merge(old(records)[k], update))
      ensures records == ApplyUpdate(old(records), id, update)
      ensures r.Some? ==> r.value in records
    {
      var idx := FirstIndex(records, ById(id));
      if idx >= 0 {
        records := records[idx := Merge(records[idx], update)];
        r := Some(records[idx]);
        return;
      }
      r := None;
    }

    /** `deleteById`: removes every record with the id, keeping the rest in order. */
    method DeleteById(id: string)
      modifies this
      ensures records == Without(old(records), id)
    {
      records := Without(records, id);
    }

    /** `insertMany`: appends every item in input order, each under its own id or the matching fresh one. */
    method InsertMany(items: seq<Employee>, freshIds: seq<string>)
      requires |freshIds| == |items|
      requires forall i :: 0 <= i < |freshIds| ==> freshIds[i] != ""
      modifies this
      ensures |records| == |old(records)| + |items|
      ensures records[..|old(records)|] == old(records)
      ensures forall i :: 0 <= i < |items| ==> records[|old(records)| + i] == WithId(items[i], freshIds[i])
    {
      records := records + seq(|items|, i requires 0 <= i < |items| => WithId(items[i], freshIds[i]));
    }
  }

  /** A `Date` field as MongoDB hands it over: absent, a `Date` object (its
      time in milliseconds), or any other value (held as text). */
  datatype DateValue = NoDate | DateObject(time: int) | Plain(text: string)

  /** A document as read from MongoDB: every key may be missing; `mongoId` is `_id`.
      Here `None` means an absent key; a stored `null`, which `String` would
      turn into "null", is not represented. */
  datatype Doc = Doc(
    mongoId: Option<string>,
    id: Option<string>,
    name: Option<string>,
    age: Option<int>,
    className: Option<string>,
    subjects: Option<seq<string>>,
    attendance: Option<real>,
    role: Option<string>,
    avatar: Option<string>,
    date: DateValue,
    email: Option<string>,
    flagged: Option<bool>,
    passwordHash: Option<string>)

  /** The plain object `serialize` returns. */
  datatype Serialized = Serialized(
    id: string,
    name: Option<string>,
    age: Option<int>,
    className: Option<string>,
    subjects: seq<string>,
    attendance: Option<real>,
    role: Option<string>,
    avatar: Option<string>,
    date: Option<string>,
    email: Option<string>,
    flagged: bool,
    passwordHash: Option<string>)

  /** `String(undefined)` */
  const UndefinedText := "undefined"

  /** `serialize(doc)`; `toIso` is `Date.prototype.toISOString`. */
  function Serialize(doc: Doc, toIso: int -> string): (out: Serialized)
    ensures TruthyText(doc.mongoId) ==> out.id == doc.mongoId.value
    ensures !TruthyText(doc.mongoId) ==> out.id == doc.id.GetOr(UndefinedText)
    ensures doc.subjects.None? ==> out.subjects == []
    ensures doc.subjects.Some? ==> out.subjects == doc.subjects.value
    ensures out.flagged <==> doc.flagged == Some(true)
    ensures out.date == match doc.date
      case NoDate => None
      case DateObject(t) => Some(toIso(t))
      case Plain(text) => Some(text)
    ensures out.name == doc.name && out.age == doc.age && out.className == doc.className
    ensures out.attendance == doc.attendance && out.role == doc.role && out.avatar == doc.avatar
    ensures out.email == doc.email && out.passwordHash == doc.passwordHash
  {
    Serialized(
      if TruthyText(doc.mongoId) then doc.mongoId.value else doc.id.GetOr(UndefinedText),
      doc.name,
      doc.age,
      doc.className,
      doc.subjects.GetOr([]),
      doc.attendance,
      doc.role,
      doc.avatar,
      match doc.date
      case NoDate => None
      case DateObject(t) => Some(toIso(t))
      case Plain(text) => Some(text),
      doc.email,
      doc.flagged == Some(true),
      doc.passwordHash)
  }

  /** A serialized record read back as a plain document (no `_id`, dates as text). */
  function AsDoc(s: Serialized): Doc {
    Doc(None, Some(s.id), s.name, s.age, s.className, Some(s.subjects), s.attendance, s.role,
        s.avatar, if s.date.Some? then Plain(s.date.value) else NoDate, s.email, Some(s.flagged),
        s.passwordHash)
  }

  /** Serializing an already serialized record changes nothing. */
  lemma SerializeIdempotent(doc: Doc, toIso: int -> string)
    ensures Serialize(AsDoc(Serialize(doc, toIso)), toIso) == Serialize(doc, toIso)
  {
  }
}
