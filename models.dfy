/**
 * The user record's access rule (models.py).
 *
 * The clock reading that the source takes from datetime.utcnow() is a parameter, `now`, and
 * instants are integers on one time scale.
 */
module Models {
  import opened Wrappers

  datatype UserRole = Admin | User

  /** The fields of a user account that the access rule reads. */
  datatype Account = Account(id: int, role: UserRole, isActive: bool, accessUntil: Option<int>) {

    /** is_admin: the account's role is the administrator role. */
    predicate IsAdmin()
      ensures IsAdmin() <==> role == Admin
    {
      role.Admin?
    }

    /**
     * has_valid_access: administrators always pass; otherwise the account must be active, and
     * an expiry instant, when one is set, must not have passed yet.
     */
    predicate HasValidAccess(now: int)
      ensures IsAdmin() ==> HasValidAccess(now)
      ensures !IsAdmin() && !isActive ==> !HasValidAccess(now)
      ensures !IsAdmin() && isActive && accessUntil.None? ==> HasValidAccess(now)
      ensures !IsAdmin() && isActive && accessUntil.Some? ==>
                (HasValidAccess(now) <==> now <= accessUntil.value)
    {
      if IsAdmin() then true
      else if !isActive then false
      else if accessUntil.None? then true
      else now <= accessUntil.value
    }
  }

  /** Access valid at some instant is valid at every earlier instant. */
  lemma AccessIsMonotone(account: Account, earlier: int, later: int)
    requires earlier <= later
    requires account.HasValidAccess(later)
    ensures account.HasValidAccess(earlier)
  {
  }

  /** The expiry instant itself still grants access, and the next one does not. */
  lemma AccessBoundaryIsInclusive(account: Account)
    requires !account.IsAdmin() && account.isActive && account.accessUntil.Some?
    ensures account.HasValidAccess(account.accessUntil.value)
    ensures !account.HasValidAccess(account.accessUntil.value + 1)
  {
  }
}
