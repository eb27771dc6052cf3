/** The `employeeById` batch function of `src/dataloaders/index.js`. */
module Dataloaders {
  import opened Js
  import opened EmployeeRecord
  import opened Db

  /** `new Map(all.map((e) => [String(e.id), e]))`: entries are set in order,
      so a later record with the same id replaces an earlier one. */
  function IndexById(all: seq<Employee>): map<string, Employee>
    decreases |all|
  {
    if all == [] then map[]
    else IndexById(all[..|all| - 1])[all[|all| - 1].id := all[|all| - 1]]
  }

  /** The position of the last record with the id, or -1. */
  function LastIndex(all: seq<Employee>, id: string): (k: int)
    ensures -1 <= k < |all|
    ensures k != -1 ==> all[k].id == id
    ensures forall j :: 0 <= j < |all| && k < j ==> all[j].id != id
    decreases |all|
  {
    if all == [] then -1
    else if all[|all| - 1].id == id then |all| - 1
    else LastIndex(all[..|all| - 1], id)
  }

  /** The map holds an id exactly when some record has it, and maps it to the last such record. */
  lemma {:induction false} IndexByIdIsLastWins(all: seq<Employee>, id: string)
    ensures id in IndexById(all) <==> LastIndex(all, id) != -1
    ensures id in IndexById(all) ==> IndexById(all)[id] == all[LastIndex(all, id)]
    decreases |all|
  {
    if all != [] {
      IndexByIdIsLastWins(all[..|all| - 1], id);
    }
  }

  /** The batch function: one entry per requested id, in request order, the
      last stored record with that id or null. */
  method EmployeeById(repo: Repository, ids: seq<string>) returns (r: seq<Option<Employee>>)
    ensures |r| == |ids|
    ensures forall i :: 0 <= i < |ids| ==>
      var k := LastIndex(repo.records, ids[i]);
      r[i] == if k == -1 then None else Some(repo.records[k])
    ensures forall i :: 0 <= i < |ids| ==> (r[i].None? <==> forall e :: e in repo.records ==> e.id != ids[i])
    ensures forall i, j :: 0 <= i < |ids| && 0 <= j < |ids| && ids[i] == ids[j] ==> r[i] == r[j]
  {
    var all := repo.FindAll();
    var index := IndexById(all);
    r := seq(|ids|, i requires 0 <= i < |ids| => if ids[i] in index then Some(index[ids[i]]) else None);
    forall i | 0 <= i < |ids|
      ensures var k := LastIndex(all, ids[i]); r[i] == if k == -1 then None else Some(all[k])
    {
      IndexByIdIsLastWins(all, ids[i]);
    }
  }
}
