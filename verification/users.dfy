/**
 The user records of app.py and what the application does with them: look
 one up by e-mail address (app.py:118-124), and change the first record with
 a given id from the admin pages (app.py:245-265).

 A record is a JSON object; each field the application reads is an `Option`,
 `None` standing for a missing key.
 */
module Users {
  import opened Optional
  import opened Chars
  import opened Text

  datatype User = User(
    id: Option<int>,
    email: Option<string>,
    password: Option<string>,
    role: Option<string>,
    status: Option<string>,
    fullName: Option<string>)

  // ---------------------------------------------------------------------------
  // First match in a list
  // ---------------------------------------------------------------------------

  /** Index of the first element satisfying `p`, as a `for ... if ...: break` loop finds it. */
  function FirstIndex<T>(s: seq<T>, p: T -> bool): (r: Option<nat>)
    ensures r.Some? ==> r.value < |s| && p(s[r.value])
    ensures r.Some? ==> forall j :: 0 <= j < r.value ==> !p(s[j])
    ensures r.None? <==> forall j :: 0 <= j < |s| ==> !p(s[j])
  {
    if |s| == 0 then None
    else if p(s[0]) then Some(0)
    else match FirstIndex(s[1..], p)
      case None => None
      case Some(i) => Some(i + 1)
  }

  /** Two lists that agree index by index on whether the predicate holds have the same first match. */
  lemma {:induction false} FirstIndexAgrees<T, U>(a: seq<T>, p: T -> bool, b: seq<U>, q: U -> bool)
    requires |a| == |b|
    requires forall i :: 0 <= i < |a| ==> p(a[i]) == q(b[i])
    ensures FirstIndex(a, p) == FirstIndex(b, q)
    decreases |a|
  {
    if |a| > 0 && !p(a[0]) {
      FirstIndexAgrees(a[1..], p, b[1..], q);
    }
  }

  // ---------------------------------------------------------------------------
  // Looking a user up by e-mail address
  // ---------------------------------------------------------------------------

  /**
   `(email or "").strip().lower()`: the form in which addresses are compared,
   the address with the whitespace at both ends cut off and every character lowered.
   */
  function EmailKey(email: string): (k: string)
    ensures Trimmed(k)
    ensures exists i :: LowersTo(email, i, k)
  {
    var t := Strip(email);
    LowerTrimmed(t);
    var i :| StripsTo(email, i, t);
    assert LowersTo(email, i, Lower(t));
    Lower(t)
  }

  /** `k` is `email[i..i + |k|]` lowered, and everything around that slice is whitespace. */
  predicate LowersTo(email: string, i: int, k: string) {
    && 0 <= i <= |email| - |k|
    && AllSpace(email[..i])
    && AllSpace(email[i + |k|..])
    && forall j :: 0 <= j < |k| ==> k[j] == LowerChar(email[i + j])
  }

  /** Normalising an address a second time changes nothing. */
  lemma EmailKeyIdempotent(email: string)
    ensures EmailKey(EmailKey(email)) == EmailKey(email)
  {
    var k := EmailKey(email);
    StripTrimmed(k);
    LowerFixed(k);
  }

  /** `(u.get("email", "") or "").strip().lower()`: a missing address reads as empty. */
  function StoredKey(u: User): string {
    EmailKey(u.email.GetOr(""))
  }

  predicate HasKey(u: User, key: string) {
    StoredKey(u) == key
  }

  /** The first record whose normalised address is `key`, if any. */
  function FindByKey(users: seq<User>, key: string): (r: Option<User>)
    ensures r.None? <==> forall i :: 0 <= i < |users| ==> !HasKey(users[i], key)
    ensures r.Some? ==> exists i :: FirstWithKey(users, i, key) && r.value == users[i]
  {
    match FirstIndex(users, u => HasKey(u, key))
    case None => None
    case Some(i) =>
      assert FirstWithKey(users, i, key);
      Some(users[i])
  }

  /** `find_user_by_email`: the first record whose normalised address equals the normalised query. */
  function FindUserByEmail(users: seq<User>, query: string): (r: Option<User>)
    ensures r.None? <==> forall i :: 0 <= i < |users| ==> !HasKey(users[i], EmailKey(query))
    ensures r.Some? ==> exists i :: FirstWithKey(users, i, EmailKey(query)) && r.value == users[i]
  {
    FindByKey(users, EmailKey(query))
  }

  /** `users[i]` is the first record whose normalised address is `key`. */
  predicate FirstWithKey(users: seq<User>, i: int, key: string) {
    && 0 <= i < |users|
    && HasKey(users[i], key)
    && forall j :: 0 <= j < i ==> !HasKey(users[j], key)
  }

  /** Looking up an address already in normalised form finds the same record as the raw address. */
  lemma FindByKeyAgrees(users: seq<User>, query: string)
    ensures FindUserByEmail(users, EmailKey(query)) == FindUserByEmail(users, query)
  {
    EmailKeyIdempotent(query);
  }

  // ---------------------------------------------------------------------------
  // Admin changes to the first record with an id
  // ---------------------------------------------------------------------------

  /** `int(u.get("id", 0))`: a missing id reads as 0. */
  function IdOf(u: User): int {
    u.id.GetOr(0)
  }

  predicate HasId(u: User, userId: int) {
    IdOf(u) == userId
  }

  /** `users[i]` is the first record whose id is `userId`. */
  predicate FirstWithId(users: seq<User>, i: int, userId: int) {
    && 0 <= i < |users|
    && IdOf(users[i]) == userId
    && forall j :: 0 <= j < i ==> IdOf(users[j]) != userId
  }

  /** When no record is the first with an id, no record has that id. */
  lemma NoFirstNoMatch(users: seq<User>, userId: int)
    requires forall i :: !FirstWithId(users, i, userId)
    ensures forall i :: 0 <= i < |users| ==> IdOf(users[i]) != userId
  {
    match FirstIndex(users, u => HasId(u, userId))
    case None =>
    case Some(i) =>
      assert FirstWithId(users, i, userId);
  }

  /** Apply `change` to the first record with id `userId` and leave every other record alone. */
  function UpdateFirst(users: seq<User>, userId: int, change: User -> User): (r: seq<User>)
    ensures |r| == |users|
    ensures (forall i :: 0 <= i < |users| ==> IdOf(users[i]) != userId) ==> r == users
    ensures forall i :: FirstWithId(users, i, userId) ==> r == users[i := change(users[i])]
  {
    match FirstIndex(users, u => HasId(u, userId))
    case None => users
    case Some(i) =>
      assert forall j :: FirstWithId(users, j, userId) ==> j == i;
      users[i := change(users[i])]
  }

  /** `u.setdefault("status", "active")`: a record with no status counts as active. */
  function StatusOf(u: User): string {
    u.status.GetOr("active")
  }

  /** The status the toggle gives a record. */
  function Flipped(u: User): (r: User)
    ensures r == u.(status := r.status)
    ensures StatusOf(u) == "active" <==> r.status == Some("disabled")
    ensures StatusOf(u) != "active" <==> r.status == Some("active")
  {
    u.(status := Some(if StatusOf(u) == "active" then "disabled" else "active"))
  }

  /**
   `admin_toggle_user`: the first record with the id goes from active (or no
   status) to disabled, and from any other status to active.
   */
  function ToggleUser(users: seq<User>, userId: int): (r: seq<User>)
    ensures |r| == |users|
    ensures (forall i :: 0 <= i < |users| ==> IdOf(users[i]) != userId) ==> r == users
    ensures forall i :: FirstWithId(users, i, userId) ==>
              && (forall j :: 0 <= j < |users| && j != i ==> r[j] == users[j])
              && r[i] == users[i].(status := r[i].status)
              && (StatusOf(users[i]) == "active" <==> r[i].status == Some("disabled"))
              && (StatusOf(users[i]) != "active" <==> r[i].status == Some("active"))
  {
    UpdateFirst(users, userId, Flipped)
  }

  /** Toggling twice gives back the original list when the record's status was explicitly active or disabled. */
  lemma ToggleTwice(users: seq<User>, userId: int)
    requires forall i :: FirstWithId(users, i, userId) ==>
               users[i].status == Some("active") || users[i].status == Some("disabled")
    ensures ToggleUser(ToggleUser(users, userId), userId) == users
  {
    var once := UpdateFirst(users, userId, Flipped);
    if i :| FirstWithId(users, i, userId) {
      assert once == users[i := Flipped(users[i])];
      assert FirstWithId(once, i, userId);
      assert UpdateFirst(once, userId, Flipped) == once[i := Flipped(once[i])];
      assert Flipped(once[i]) == users[i];
    } else {
      NoFirstNoMatch(users, userId);
    }
  }

  /** The role change's new value: the submitted role, or "user" when the form omits it. */
  function WithRole(formRole: Option<string>): User -> User {
    (u: User) => u.(role := Some(formRole.GetOr("user")))
  }

  /** `admin_change_role`: the first record with the id gets the submitted role. */
  function ChangeRole(users: seq<User>, userId: int, formRole: Option<string>): (r: seq<User>)
    ensures |r| == |users|
    ensures (forall i :: 0 <= i < |users| ==> IdOf(users[i]) != userId) ==> r == users
    ensures forall i :: FirstWithId(users, i, userId) ==>
              && (forall j :: 0 <= j < |users| && j != i ==> r[j] == users[j])
              && r[i] == users[i].(role := r[i].role)
              && r[i].role == Some(formRole.GetOr("user"))
  {
    UpdateFirst(users, userId, WithRole(formRole))
  }

  /** Submitting the same role twice is the same as submitting it once. */
  lemma ChangeRoleIdempotent(users: seq<User>, userId: int, formRole: Option<string>)
    ensures ChangeRole(ChangeRole(users, userId, formRole), userId, formRole) == ChangeRole(users, userId, formRole)
  {
    var change := WithRole(formRole);
    var once := UpdateFirst(users, userId, change);
    if i :| FirstWithId(users, i, userId) {
      assert once == users[i := change(users[i])];
      assert FirstWithId(once, i, userId);
      assert UpdateFirst(once, userId, change) == once[i := change(once[i])];
    } else {
      NoFirstNoMatch(users, userId);
    }
  }

  /**
   An admin change that leaves e-mail and password alone leaves every
   lookup finding a record with the same e-mail and password.
   */
  lemma UpdateKeepsLookup(users: seq<User>, userId: int, change: User -> User, key: string)
    requires forall u :: change(u).email == u.email && change(u).password == u.password
    ensures var before := FindByKey(users, key);
            var after := FindByKey(UpdateFirst(users, userId, change), key);
            && before.Some? == after.Some?
            && (before.Some? ==> before.value.email == after.value.email && before.value.password == after.value.password)
  {
    var updated := UpdateFirst(users, userId, change);
    forall i | 0 <= i < |users|
      ensures updated[i].email == users[i].email && updated[i].password == users[i].password
    {
      if j :| FirstWithId(users, j, userId) {
        assert updated == users[j := change(users[j])];
      } else {
        NoFirstNoMatch(users, userId);
      }
    }
    FirstIndexAgrees(users, u => HasKey(u, key), updated, u => HasKey(u, key));
  }
}
