/** The patient management service over the identity store: lookups guarded by the patient
    role "User", the name search, and the update, delete and role commands. The outcome of each
    identity-store write (`IdentityResult.Succeeded`) is a parameter. */
module PacientManagement {
  import opened Common
  import opened Entities
  import opened Collections
  import opened Text

  /** The role that makes a user a patient. */
  const PacientRole := "User"

  /** PacientModel, the projection the search returns. */
  datatype PacientModel = PacientModel(
    id: string,
    fullName: Option<string>,
    name: Option<string>,
    email: string,
    phone: Option<string>)

  /** The search condition: the full name or the user name contains the term, ignoring case;
      a missing name never matches. */
  predicate MatchesTerm(u: ApplicationUser, term: string)
  {
    || (u.fullName.Some? && ContainsIgnoreCase(u.fullName.value, term))
    || (u.userName.Some? && ContainsIgnoreCase(u.userName.value, term))
  }

  /** The match condition in terms of offsets: the term occurs in one of the names. */
  lemma MatchesTermSpec(u: ApplicationUser, term: string)
    ensures MatchesTerm(u, term) <==>
      || (u.fullName.Some? && exists k :: MatchesAt(u.fullName.value, term, k))
      || (u.userName.Some? && exists k :: MatchesAt(u.userName.value, term, k))
  {
    if u.fullName.Some? { ContainsIgnoreCaseSpec(u.fullName.value, term); }
    if u.userName.Some? { ContainsIgnoreCaseSpec(u.userName.value, term); }
  }

  /** The search projection: Email defaults to "", UserName becomes Name. */
  function ToPacientModel(u: ApplicationUser): PacientModel
  {
    PacientModel(u.id, u.fullName, u.userName, u.email.GetOr(""), u.phoneNumber)
  }

  function ToPacientModels(us: seq<ApplicationUser>): (r: seq<PacientModel>)
    ensures |r| == |us|
    ensures forall i :: 0 <= i < |us| ==> r[i] == ToPacientModel(us[i])
  {
    if us == [] then [] else [ToPacientModel(us[0])] + ToPacientModels(us[1..])
  }

  /** Projecting element by element keeps a subsequence a subsequence. */
  lemma {:induction false} ProjectionKeepsSubsequence(a: seq<ApplicationUser>, b: seq<ApplicationUser>)
    requires IsSubsequence(a, b)
    ensures IsSubsequence(ToPacientModels(a), ToPacientModels(b))
    decreases |b|
  {
    if a != [] && b != [] {
      var pa, pb := ToPacientModels(a), ToPacientModels(b);
      assert pa[1..] == ToPacientModels(a[1..]);
      assert pb[1..] == ToPacientModels(b[1..]);
      if a[0] == b[0] && IsSubsequence(a[1..], b[1..]) {
        ProjectionKeepsSubsequence(a[1..], b[1..]);
      } else {
        ProjectionKeepsSubsequence(a, b[1..]);
      }
    }
  }

  /** `roles` gives user `id` the patient role. */
  predicate InPacientRole(roles: map<string, set<string>>, id: string)
  {
    id in roles && PacientRole in roles[id]
  }

  /** The ids in `order` of users that exist and have the patient role. */
  function PacientIds(order: seq<string>, users: map<string, ApplicationUser>, roles: map<string, set<string>>): (ids: seq<string>)
    ensures forall id :: id in ids <==> id in order && id in users && InPacientRole(roles, id)
  {
    Filter(order, (id: string) => id in users && InPacientRole(roles, id))
  }

  /** The ASP.NET Identity store: users by id, each user's roles, the roles that exist, and
      the order in which the Users table enumerates its rows. */
  class IdentityStore {
    var users: map<string, ApplicationUser>
    var userRoles: map<string, set<string>>
    var roleNames: set<string>
    var order: seq<string>

    ghost predicate Valid()
      reads this
    {
      && NoDup(order)
      && (forall id :: id in order <==> id in users)
      && (forall id :: id in users ==> users[id].id == id)
      && (forall id :: id in userRoles ==> id in users && userRoles[id] <= roleNames)
    }

    constructor ()
      ensures Valid() && users == map[] && userRoles == map[] && roleNames == {} && order == []
    {
      users := map[];
      userRoles := map[];
      roleNames := {};
      order := [];
    }

    /** `IsInRoleAsync(user, "User")`. */
    predicate IsPacient(id: string)
      reads this
    {
      InPacientRole(userRoles, id)
    }

    /** GetPacientByIdAsync: the user, when it exists and has the patient role; otherwise null. */
    function GetPacientById(id: string): (r: Option<ApplicationUser>)
      reads this
      ensures r.None? <==> id !in users || !IsPacient(id)
      ensures r.Some? ==> id in users && r.value == users[id]
    {
      if id in users && IsPacient(id) then Some(users[id]) else None
    }

    /** GetAllPacientsAsync (`GetUsersInRoleAsync("User")`): every patient, in table order. */
    function GetAllPacients(): (r: seq<ApplicationUser>)
      reads this
      requires Valid()
      ensures forall u :: u in r <==> u.id in users && users[u.id] == u && IsPacient(u.id)
      ensures |r| == |PacientIds(order, users, userRoles)|
      ensures forall i :: 0 <= i < |r| ==>
        PacientIds(order, users, userRoles)[i] in users && r[i] == users[PacientIds(order, users, userRoles)[i]]
      ensures NoDup(r)
    {
      var ids := PacientIds(order, users, userRoles);
      PacientIdsNoDup(order, users, userRoles);
      var us := users;
      assert forall i :: 0 <= i < |ids| ==> ids[i] in ids;
      var r := seq(|ids|, i requires 0 <= i < |ids| => us[ids[i]]);
      assert forall u :: u in r <==> u.id in users && users[u.id] == u && IsPacient(u.id) by {
        forall u | u in r ensures u.id in users && users[u.id] == u && IsPacient(u.id) {
          var i :| 0 <= i < |r| && r[i] == u;
          assert ids[i] in users && users[ids[i]].id == ids[i];
        }
        forall u: ApplicationUser | u.id in users && users[u.id] == u && IsPacient(u.id) ensures u in r {
          assert u.id in ids;
          var i :| 0 <= i < |ids| && ids[i] == u.id;
          assert r[i] == u;
        }
      }
      r
    }

    /** The patients that match `term`, in table order. */
    function Matching(term: string): (r: seq<ApplicationUser>)
      reads this
      requires Valid()
      ensures forall u :: u in r <==> u in GetAllPacients() && MatchesTerm(u, term)
      ensures IsSubsequence(r, GetAllPacients())
    {
      var all := GetAllPacients();
      FilterIsSubsequence(all, (u: ApplicationUser) => MatchesTerm(u, term));
      Filter(all, (u: ApplicationUser) => MatchesTerm(u, term))
    }

    /** SearchPacientsByNameAsync: the projections of exactly the patients whose full name or
        user name contains the term, ignoring case, in the order of GetAllPacientsAsync. */
    function SearchPacientsByName(term: string): (r: seq<PacientModel>)
      reads this
      requires Valid()
      ensures forall m :: m in r <==> exists u :: u in GetAllPacients() && MatchesTerm(u, term) && m == ToPacientModel(u)
      ensures IsSubsequence(r, ToPacientModels(GetAllPacients()))
    {
      var matching := Matching(term);
      ProjectionKeepsSubsequence(matching, GetAllPacients());
      var r := ToPacientModels(matching);
      assert forall u :: u in matching ==> exists i :: 0 <= i < |matching| && matching[i] == u;
      assert forall m :: m in r ==> exists i :: 0 <= i < |matching| && m == ToPacientModel(matching[i]);
      assert forall i :: 0 <= i < |matching| ==> matching[i] in matching;
      r
    }

    /** UpdatePacientAsync: false and no change for a missing user or a non-patient; otherwise
        UserName, Email and PhoneNumber are replaced when the store accepts the update. */
    method UpdatePacient(id: string, updatedPacient: ApplicationUser, updateSucceeds: bool) returns (ok: bool)
      requires Valid()
      modifies this
      ensures Valid()
      ensures userRoles == old(userRoles) && roleNames == old(roleNames) && order == old(order)
      ensures ok <==> old(id in users && IsPacient(id)) && updateSucceeds
      ensures ok ==> users == old(users)[id := old(users[id]).(
        userName := updatedPacient.userName, email := updatedPacient.email, phoneNumber := updatedPacient.phoneNumber)]
      ensures !ok ==> users == old(users)
    {
      if id !in users || !IsPacient(id) {
        return false;
      }
      if updateSucceeds {
        var pacient := users[id];
        users := users[id := pacient.(userName := updatedPacient.userName, email := updatedPacient.email,
                                      phoneNumber := updatedPacient.phoneNumber)];
      }
      ok := updateSucceeds;
    }

    /** DeletePacientAsync: false and nothing removed for a missing user or a non-patient;
        otherwise the user and its role memberships are removed when the store accepts it. */
    method DeletePacient(id: string, deleteSucceeds: bool) returns (ok: bool)
      requires Valid()
      modifies this
      ensures Valid()
      ensures roleNames == old(roleNames)
      ensures ok <==> old(id in users && IsPacient(id)) && deleteSucceeds
      ensures ok ==> users == old(users) - {id} && userRoles == old(userRoles) - {id}
      ensures ok ==> order == Filter(old(order), (x: string) => x != id)
      ensures !ok ==> users == old(users) && userRoles == old(userRoles) && order == old(order)
    {
      if id !in users || !IsPacient(id) {
        return false;
      }
      if deleteSucceeds {
        FilterKeepsNoDup(order, (x: string) => x != id);
        users := users - {id};
        userRoles := userRoles - {id};
        order := Filter(order, (x: string) => x != id);
      }
      ok := deleteSucceeds;
    }

    /** AssignPacientRoleAsync: false for a missing user; otherwise the role is created if it
        does not exist, and a user not yet in it is added when the store accepts it; a user
        already in it gives true. */
    method AssignPacientRole(id: string, addSucceeds: bool) returns (ok: bool)
      requires Valid()
      modifies this
      ensures Valid()
      ensures users == old(users) && order == old(order)
      ensures id !in old(users) ==> !ok && userRoles == old(userRoles) && roleNames == old(roleNames)
      ensures id in old(users) ==> roleNames == old(roleNames) + {PacientRole}
      ensures id in old(users) && old(IsPacient(id)) ==> ok && userRoles == old(userRoles)
      ensures id in old(users) && !old(IsPacient(id)) ==> ok == addSucceeds
      ensures id in old(users) && !old(IsPacient(id)) && addSucceeds ==>
        userRoles == old(userRoles)[id := (if id in old(userRoles) then old(userRoles)[id] else {}) + {PacientRole}]
      ensures id in old(users) && !old(IsPacient(id)) && !addSucceeds ==> userRoles == old(userRoles)
      ensures ok ==> IsPacient(id) && PacientRole in roleNames
    {
      if id !in users {
        return false;
      }
      if PacientRole !in roleNames {
        roleNames := roleNames + {PacientRole};
      }
      if !IsPacient(id) {
        if addSucceeds {
          var current := if id in userRoles then userRoles[id] else {};
          userRoles := userRoles[id := current + {PacientRole}];
        }
        return addSucceeds;
      }
      ok := true;
    }

    /** RemovePacientRoleAsync: false for a missing user and for a user not in the role;
        otherwise the membership is removed when the store accepts it. */
    method RemovePacientRole(id: string, removeSucceeds: bool) returns (ok: bool)
      requires Valid()
      modifies this
      ensures Valid()
      ensures users == old(users) && order == old(order) && roleNames == old(roleNames)
      ensures ok <==> id in old(users) && old(IsPacient(id)) && removeSucceeds
      ensures ok ==> userRoles == old(userRoles)[id := old(userRoles)[id] - {PacientRole}] && !IsPacient(id)
      ensures !ok ==> userRoles == old(userRoles)
    {
      if id !in users {
        return false;
      }
      if !IsPacient(id) || !removeSucceeds {
        return false;
      }
      userRoles := userRoles[id := userRoles[id] - {PacientRole}];
      ok := true;
    }
  }

  /** Each patient id occurs once in the enumeration. */
  lemma PacientIdsNoDup(order: seq<string>, users: map<string, ApplicationUser>, roles: map<string, set<string>>)
    requires NoDup(order)
    ensures NoDup(PacientIds(order, users, roles))
  {
    FilterKeepsNoDup(order, (id: string) => id in users && InPacientRole(roles, id));
  }

  /** `Where` never introduces duplicates. */
  lemma FilterKeepsNoDup(s: seq<string>, p: string -> bool)
    requires NoDup(s)
    ensures NoDup(Filter(s, p))
  {
    var key := (x: string) => x;
    assert UniqueKeys(s, key);
    FilterKeepsUniqueKeys(s, p, key);
  }
}
