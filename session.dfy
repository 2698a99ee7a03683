/**
 * The session guard: a signed-in flag and its persisted marker. Only the one
 * fixed shopkeeper credential signs in.
 */
module Session {
  import opened Wrappers

  const ShopkeeperEmail: string := "shopkeeper@test.com"
  const ShopkeeperPassword: string := "password"
  /** The value stored under `isAuthenticated` while signed in. */
  const Marker: string := "true"

  class Auth {
    var isAuthenticated: bool
    /** The persisted `isAuthenticated` entry, absent when signed out. */
    var stored: Option<string>

    /** Start-up: signed in exactly when the persisted entry is the marker. */
    constructor (saved: Option<string>)
      ensures stored == saved
      ensures isAuthenticated <==> saved == Some(Marker)
    {
      stored := saved;
      isAuthenticated := saved == Some(Marker);
    }

    /** `login`: succeeds only for the fixed pair; a failed attempt changes nothing. */
    method Login(email: string, password: string) returns (ok: bool)
      modifies this
      ensures ok <==> email == ShopkeeperEmail && password == ShopkeeperPassword
      ensures ok ==> isAuthenticated && stored == Some(Marker)
      ensures !ok ==> unchanged(this)
    {
      if email == ShopkeeperEmail && password == ShopkeeperPassword {
        stored := Some(Marker);
        isAuthenticated := true;
        return true;
      }
      return false;
    }

    /** `logout`: remove the persisted entry and clear the flag. */
    method Logout()
      modifies this
      ensures !isAuthenticated && stored == None
    {
      stored := None;
      isAuthenticated := false;
    }
  }
}
