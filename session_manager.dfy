/** The persisted login session (data/local/SessionManager.kt): a preferences file that holds
    at most one integer entry, the id of the logged-in user, where the value -1 stands for
    "no session". */
module LocalSession {
  import opened Wrappers

  const KEY_USER_ID: string := "user_id"
  const NO_SESSION: int := -1

  class SessionManager {
    /** The integer entries of the preferences file. */
    var prefs: map<string, int>

    ghost predicate Valid()
      reads this
    {
      prefs.Keys <= {KEY_USER_ID}
    }

    /** What `getUserId` reports for the stored entries. */
    ghost function UserId(): Option<int>
      reads this
    {
      if KEY_USER_ID in prefs && prefs[KEY_USER_ID] != NO_SESSION then Some(prefs[KEY_USER_ID]) else None
    }

    /** Opens the preferences file with whatever an earlier run left in it. */
    constructor (stored: map<string, int>)
      requires stored.Keys <= {KEY_USER_ID}
      ensures Valid() && prefs == stored
      ensures UserId() == (if KEY_USER_ID in stored && stored[KEY_USER_ID] != NO_SESSION
                           then Some(stored[KEY_USER_ID]) else None)
    {
      prefs := stored;
    }

    /** `saveSession`: stores the id, replacing any earlier one. */
    method SaveSession(userId: int)
      requires Valid()
      modifies this
      ensures Valid()
      ensures prefs == old(prefs)[KEY_USER_ID := userId]
      ensures UserId() == if userId == NO_SESSION then None else Some(userId)
    {
      prefs := prefs[KEY_USER_ID := userId];
    }

    /** `getUserId`: the stored id, or null when there is none or it is the sentinel -1. */
    method GetUserId() returns (r: Option<int>)
      requires Valid()
      ensures r == UserId()
      ensures r.Some? ==> r.value != NO_SESSION && KEY_USER_ID in prefs && prefs[KEY_USER_ID] == r.value
      ensures r.None? <==> KEY_USER_ID !in prefs || prefs[KEY_USER_ID] == NO_SESSION
    {
      var userId := if KEY_USER_ID in prefs then prefs[KEY_USER_ID] else NO_SESSION;
      r := if userId != NO_SESSION then Some(userId) else None;
    }

    /** `clearSession`: removes the stored id. */
    method ClearSession()
      requires Valid()
      modifies this
      ensures Valid()
      ensures prefs == map[]
      ensures UserId() == None
    {
      prefs := prefs - {KEY_USER_ID};
    }
  }

  /** A later save overwrites an earlier one, and saving the sentinel reads back as no
      session at all, whatever was stored before. */
  method SaveOverwrites(stored: map<string, int>, first: int, second: int) returns (r: Option<int>)
    requires stored.Keys <= {KEY_USER_ID}
    ensures r == if second == NO_SESSION then None else Some(second)
  {
    var sm := new SessionManager(stored);
    sm.SaveSession(first);
    sm.SaveSession(second);
    r := sm.GetUserId();
  }

  /** A session saved and then cleared reads back as no session. */
  method SaveThenClear(stored: map<string, int>, userId: int) returns (r: Option<int>)
    requires stored.Keys <= {KEY_USER_ID}
    ensures r == None
  {
    var sm := new SessionManager(stored);
    sm.SaveSession(userId);
    sm.ClearSession();
    r := sm.GetUserId();
  }
}
