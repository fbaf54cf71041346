/** The stores and services that the sandbox operations call. They fail only for reasons of state. */
module SandboxServices {
  import opened Domain
  import opened SandboxState

  /** `q` lists every element of `s` once, in the order the service happens to return them. */
  ghost predicate IsListing<T(!new)>(q: seq<T>, s: set<T>) {
    && (forall x :: x in q <==> x in s)
    && (forall i, j :: 0 <= i < j < |q| ==> q[i] != q[j])
  }

  method Enumerate<T(==,!new)>(s: set<T>) returns (q: seq<T>)
    ensures IsListing(q, s)
  {
    q := [];
    var rest := s;
    while rest != {}
      invariant rest <= s && IsListing(q, s - rest)
      decreases rest
    {
      var x :| x in rest;
      q := q + [x];
      rest := rest - {x};
    }
  }

  class SandboxAccountStore {
    var table: map<AccountId, AccountRecord>

    constructor ()
      ensures table == map[]
    {
      table := map[];
    }

    /** The schema of the table rejects the statuses Entry and Exit; the call may fail besides. */
    method Put(a: AccountId, record: AccountRecord, fails: bool := false) returns (ok: bool)
      modifies this
      ensures ok <==> record.status != Ou.Entry && record.status != Ou.Exit && !fails
      ensures table == if ok then old(table)[a := record] else old(table)
    {
      ok := StorableStatus(record.status) && !fails;
      if ok {
        table := table[a := record];
      }
    }

    method Get(a: AccountId) returns (record: Option<AccountRecord>)
      ensures record == if a in table then Some(table[a]) else None
    {
      record := if a in table then Some(table[a]) else None;
    }

    method Delete(a: AccountId)
      modifies this
      ensures table == old(table) - {a}
    {
      table := table - {a};
    }

    method FindByStatus(status: Ou) returns (found: seq<AccountId>)
      ensures IsListing(found, set a | a in table && table[a].status == status)
    {
      found := Enumerate(set a | a in table && table[a].status == status);
    }
  }

  class SandboxOuService {
    const accountStore: SandboxAccountStore
    var ou: map<AccountId, Ou>

    constructor (accountStore: SandboxAccountStore, ou: map<AccountId, Ou>)
      ensures this.accountStore == accountStore && this.ou == ou
    {
      this.accountStore := accountStore;
      this.ou := ou;
    }

    /** Organizations rejects the move of an account that is elsewhere, and a move onto the same unit. */
    method PerformAccountMoveAction(a: AccountId, from: Ou, to: Ou, fails: bool := false) returns (ok: bool)
      modifies this
      ensures ok <==> a in old(ou) && old(ou)[a] == from && from != to && !fails
      ensures ou == if ok then old(ou)[a := to] else old(ou)
    {
      ok := a in ou && ou[a] == from && from != to && !fails;
      if ok {
        ou := ou[a := to];
      }
    }

    /** The move, then the record: when the record is not stored the account has been moved all the same. */
    method MoveAccount(a: AccountId, record: AccountRecord, from: Ou, to: Ou, fault: MoveFault := NoFault)
      returns (ok: bool)
      modifies this, accountStore
      ensures var moved := a in old(ou) && old(ou)[a] == from && from != to && !fault.UnitMoveFails?;
              && (ok <==> moved && to != Ou.Entry && to != Ou.Exit && !fault.RecordPutFails?)
              && ou == (if moved then old(ou)[a := to] else old(ou))
              && accountStore.table ==
                   if ok then old(accountStore.table)[a := record.(status := to)] else old(accountStore.table)
    {
      ok := PerformAccountMoveAction(a, from, to, fault.UnitMoveFails?);
      if ok {
        ok := accountStore.Put(a, record.(status := to), fault.RecordPutFails?);
      }
    }

    method ListAllAccountsInOU(unit: Ou) returns (found: seq<AccountId>)
      ensures IsListing(found, set a | a in ou && ou[a] == unit)
    {
      found := Enumerate(set a | a in ou && ou[a] == unit);
    }
  }

  class IdcService {
    var grants: set<(AccountId, Email)>
    var groupGrants: set<(AccountId, Role)>
    var directory: set<Email>

    constructor (directory: set<Email>)
      ensures grants == {} && groupGrants == {} && this.directory == directory
    {
      grants, groupGrants := {}, {};
      this.directory := directory;
    }

    method GrantUserAccess(a: AccountId, user: Email)
      modifies this`grants
      ensures grants == old(grants) + {(a, user)}
    {
      grants := grants + {(a, user)};
    }

    /** Lists the assignments of the account and deletes them one by one. */
    method RevokeAllUserAccess(a: AccountId)
      modifies this`grants
      ensures grants == GrantsWithout(old(grants), a)
      ensures forall b, u :: (b, u) in grants <==> (b, u) in old(grants) && b != a
    {
      var assignments := Enumerate(set g | g in grants && g.0 == a);
      var i := 0;
      while i < |assignments|
        invariant 0 <= i <= |assignments|
        invariant grants == old(grants) - (set g | g in assignments[..i])
      {
        grants := grants - {assignments[i]};
        i := i + 1;
      }
      assert assignments[..i] == assignments;
    }

    method AssignGroupAccess(a: AccountId, role: Role)
      modifies this`groupGrants
      ensures groupGrants == old(groupGrants) + {(a, role)}
    {
      groupGrants := groupGrants + {(a, role)};
    }

    method RevokeGroupAccess(a: AccountId, role: Role)
      modifies this`groupGrants
      ensures groupGrants == old(groupGrants) - {(a, role)}
    {
      groupGrants := groupGrants - {(a, role)};
    }
  }
}
