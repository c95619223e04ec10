/**
 * The server's account service: registration, the authority a signed-in
 * account is granted, profile and password changes, and the shelter list.
 */
module UserService {
  import opened Common
  import opened Status
  import opened Store
  import Session

  /** The registration form; absent text fields are Java nulls. */
  datatype Registration = Registration(
    name: string, email: string, password: Option<string>, role: Option<string>, contact: Contact)

  /** An account as the server returns it: everything but the password. */
  datatype UserDto = UserDto(id: nat, name: string, email: string, role: string, contact: Contact)

  /** The profile form: a name and the six contact fields. */
  datatype ProfileUpdate = ProfileUpdate(name: string, contact: Contact)

  /** The account Spring Security works with after `loadUserByUsername`. */
  datatype UserDetails = UserDetails(username: string, password: string, authority: string)

  /** The account's DTO: the role by its enum name, no password. */
  function ToDto(u: User): (d: UserDto)
    ensures d.id == u.id && d.name == u.name && d.email == u.email && d.contact == u.contact
    ensures ParseRole(d.role) == Some(u.role)
  {
    assert Upper(RoleName(u.role)) == RoleName(u.role);
    UserDto(u.id, u.name, u.email, RoleName(u.role), u.contact)
  }

  /** Shelters and admins keep address and contact details; plain users do not. */
  predicate HasContactDetails(role: Role)
  {
    role == ShelterRole || role == AdminRole
  }

  /**
   * The checks of `registerUser`, in order: a password, then a role, then a
   * role that names one of the three, ignoring case. On success the role.
   */
  function RegistrationCheck(form: Registration): (r: Result<Role, ServiceError>)
    ensures r.Ok? <==> (form.password.Some? && form.password.value != ""
      && form.role.Some? && ParseRole(form.role.value).Some?)
    ensures r.Ok? ==> RoleName(r.value) == Upper(form.role.value)
    ensures form.password.None? || form.password == Some("") ==>
      r == Err(IllegalArgument("Password cannot be null or empty"))
  {
    if form.password.None? || form.password.value == "" then
      Err(IllegalArgument("Password cannot be null or empty"))
    else if form.role.None? || form.role.value == "" then
      Err(IllegalArgument("Role cannot be null or empty"))
    else match ParseRole(form.role.value)
      case None => Err(IllegalArgument("Invalid role: " + form.role.value))
      case Some(role) => Ok(role)
  }

  /**
   * The source keeps the contact fields when the role text equals SHELTER
   * or ADMIN ignoring case; that is the same as the parsed role being one
   * of those two.
   */
  lemma ContactKeptForParsedRole(text: string, role: Role)
    requires ParseRole(text) == Some(role)
    ensures (EqualsIgnoreCase(text, "SHELTER") || EqualsIgnoreCase(text, "ADMIN")) <==> HasContactDetails(role)
  {
    EqualsIgnoreCaseUpper(text, "SHELTER");
    EqualsIgnoreCaseUpper(text, "ADMIN");
  }

  /** `loadUserByUsername`: the account under its e-mail, with the authority `ROLE_` + role name. */
  function LoadUserByUsername(users: seq<User>, email: string): (r: Result<UserDetails, ServiceError>)
    ensures r.Err? <==> UserByEmail(users, email).None?
    ensures r.Err? ==> r.error == UsernameNotFound("User not found with email: " + email)
    ensures r.Ok? ==> r.value.username == email && r.value.password == UserByEmail(users, email).value.password
    ensures r.Ok? ==> r.value.authority == "ROLE_" + RoleName(UserByEmail(users, email).value.role)
  {
    match UserByEmail(users, email)
    case None => Err(UsernameNotFound("User not found with email: " + email))
    case Some(u) => Ok(UserDetails(u.email, u.password, "ROLE_" + RoleName(u.role)))
  }

  /**
   * The granted authority is what the client's role flags compare with:
   * each role turns on exactly its own flag.
   */
  lemma AuthorityMatchesClientFlags(users: seq<User>, email: string)
    requires UserByEmail(users, email).Some?
    ensures var role := UserByEmail(users, email).value.role;
      var claim := Some(LoadUserByUsername(users, email).value.authority);
      && (Session.IsAdmin(claim) <==> role == AdminRole)
      && (Session.IsShelter(claim) <==> role == ShelterRole)
      && (Session.IsUser(claim) <==> role == UserRole)
  {
    var role := UserByEmail(users, email).value.role;
    assert "ROLE_" + RoleName(role) == match role
      case AdminRole => "ROLE_ADMIN" case ShelterRole => "ROLE_SHELTER" case UserRole => "ROLE_USER";
  }

  /** `getUserProfile`. */
  function UserProfile(users: seq<User>, email: string): (r: Result<UserDto, ServiceError>)
    ensures r.Err? <==> UserByEmail(users, email).None?
    ensures r.Err? ==> r.error == UsernameNotFound("User not found")
    ensures r.Ok? ==> r.value.email == email
    ensures r.Ok? ==> var u := UserByEmail(users, email).value;
      && r.value.id == u.id && r.value.name == u.name && r.value.contact == u.contact
      && ParseRole(r.value.role) == Some(u.role)
  {
    match UserByEmail(users, email)
    case None => Err(UsernameNotFound("User not found"))
    case Some(u) => Ok(ToDto(u))
  }

  /** The account after a profile update: a new name, new contact details only for shelters and admins. */
  function UpdatedProfile(u: User, form: ProfileUpdate): (u': User)
    ensures u'.id == u.id && u'.email == u.email && u'.role == u.role && u'.password == u.password
    ensures u'.name == form.name
    ensures u'.contact == if HasContactDetails(u.role) then form.contact else u.contact
  {
    var named := u.(name := form.name);
    if HasContactDetails(u.role) then named.(contact := form.contact) else named
  }

  /** The table with every row carrying this account's id replaced by the account. */
  function ReplaceUser(users: seq<User>, u: User): (r: seq<User>)
    ensures |r| == |users|
    ensures forall i :: 0 <= i < |r| ==> r[i] == if users[i].id == u.id then u else users[i]
  {
    seq(|users|, i requires 0 <= i < |users| => if users[i].id == u.id then u else users[i])
  }

  /** `getShelters`: the shelters and the admins, in table order. */
  function Shelters(users: seq<User>): (r: seq<User>)
    ensures forall u :: u in r <==> u in users && HasContactDetails(u.role)
  {
    var p := (u: User) => HasContactDetails(u.role);
    assert forall u :: u in Filter(users, p) <==> u in users && HasContactDetails(u.role) by {
      forall u ensures u in Filter(users, p) <==> u in users && HasContactDetails(u.role) {
        FilterMembership(users, p, u);
      }
    }
    Filter(users, p)
  }

  /**
   * The service over the user table. `encode` and `matches` are the
   * password encoder, left abstract.
   */
  class Service {
    const db: Database
    const encode: string -> string
    const matches: (string, string) -> bool

    constructor (db: Database, encode: string -> string, matches: (string, string) -> bool)
      ensures this.db == db && this.encode == encode && this.matches == matches
    {
      this.db := db;
      this.encode := encode;
      this.matches := matches;
    }

    /** The encoder accepts every password against its own encoding. */
    ghost predicate Sound()
    {
      forall raw :: matches(raw, encode(raw))
    }

    /**
     * `registerUser`: a failed check changes nothing; otherwise the account
     * is saved with the encoded password, the parsed role, and the contact
     * details only for a shelter or an admin.
     */
    method RegisterUser(form: Registration) returns (r: Result<UserDto, ServiceError>)
      requires db.Valid()
      modifies db`users, db`nextUserId
      ensures db.Valid()
      ensures var c := RegistrationCheck(form);
        && (c.Err? ==> (r == Err(c.error) && db.users == old(db.users) && db.nextUserId == old(db.nextUserId)))
        && (c.Ok? ==>
              var u := User(old(db.nextUserId), form.name, form.email, encode(form.password.value), c.value,
                            if HasContactDetails(c.value) then form.contact else NoContact);
              && db.users == old(db.users) + [u]
              && db.nextUserId == old(db.nextUserId) + 1
              && r == Ok(ToDto(u)))
    {
      if form.password.None? || form.password.value == "" {
        return Err(IllegalArgument("Password cannot be null or empty"));
      }
      if form.role.None? || form.role.value == "" {
        return Err(IllegalArgument("Role cannot be null or empty"));
      }
      var text := form.role.value;
      var parsed := ParseRole(text);
      if parsed.None? {
        return Err(IllegalArgument("Invalid role: " + text));
      }
      var contact := NoContact;
      if EqualsIgnoreCase(text, "SHELTER") || EqualsIgnoreCase(text, "ADMIN") {
        contact := form.contact;
      }
      ContactKeptForParsedRole(text, parsed.value);
      var u := User(db.nextUserId, form.name, form.email, encode(form.password.value), parsed.value, contact);
      FreshIdsAppend(db.users, (x: User) => x.id, db.nextUserId, u);
      db.users := db.users + [u];
      db.nextUserId := db.nextUserId + 1;
      r := Ok(ToDto(u));
    }

    /**
     * `updateUserProfile`: the account found by e-mail gets the new name,
     * and new contact details when it is a shelter or an admin; nothing
     * else about any account changes.
     */
    method UpdateUserProfile(email: string, form: ProfileUpdate) returns (r: Result<UserDto, ServiceError>)
      requires db.Valid()
      modifies db`users
      ensures db.Valid()
      ensures var found := UserByEmail(old(db.users), email);
        && (found.None? ==> (r == Err(UsernameNotFound("User not found")) && db.users == old(db.users)))
        && (found.Some? ==>
              && db.users == ReplaceUser(old(db.users), UpdatedProfile(found.value, form))
              && r == Ok(ToDto(UpdatedProfile(found.value, form))))
    {
      var found := UserByEmail(db.users, email);
      if found.None? {
        return Err(UsernameNotFound("User not found"));
      }
      var u := UpdatedProfile(found.value, form);
      var before := db.users;
      db.users := ReplaceUser(before, u);
      FreshIdsSameIds(before, db.users, (x: User) => x.id, db.nextUserId);
      r := Ok(ToDto(u));
    }

    /**
     * `changePassword`: a wrong current password is refused first, a new
     * password under six UTF-16 code units next; otherwise the encoded new
     * password is stored. With a sound encoder the new password is then
     * the one that matches.
     */
    method ChangePassword(email: string, currentPassword: string, newPassword: string)
      returns (r: Option<ServiceError>)
      requires db.Valid()
      modifies db`users
      ensures db.Valid()
      ensures var found := UserByEmail(old(db.users), email);
        && (found.None? ==> (r == Some(UsernameNotFound("User not found")) && db.users == old(db.users)))
        && (found.Some? && !matches(currentPassword, found.value.password) ==>
              (r == Some(IllegalArgument("Current password is incorrect")) && db.users == old(db.users)))
        && (found.Some? && matches(currentPassword, found.value.password) && Utf16Length(newPassword) < 6 ==>
              (r == Some(IllegalArgument("New password must be at least 6 characters long"))
               && db.users == old(db.users)))
        && (found.Some? && matches(currentPassword, found.value.password) && Utf16Length(newPassword) >= 6 ==>
              (r.None? && db.users == ReplaceUser(old(db.users), found.value.(password := encode(newPassword)))))
      ensures r.None? && Sound() ==>
        forall u :: u in db.users && u.id == UserByEmail(old(db.users), email).value.id ==> matches(newPassword, u.password)
    {
      var found := UserByEmail(db.users, email);
      if found.None? {
        return Some(UsernameNotFound("User not found"));
      }
      var user := found.value;
      if !matches(currentPassword, user.password) {
        return Some(IllegalArgument("Current password is incorrect"));
      }
      if Utf16Length(newPassword) < 6 {
        return Some(IllegalArgument("New password must be at least 6 characters long"));
      }
      var before := db.users;
      var u := user.(password := encode(newPassword));
      db.users := ReplaceUser(before, u);
      FreshIdsSameIds(before, db.users, (x: User) => x.id, db.nextUserId);
      r := None;
    }
  }
}
