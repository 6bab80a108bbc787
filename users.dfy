/**
 * The user store (`UserService`): users by id, an index from normalised e-mail address to
 * user id that must always agree with the stored users, and the set of addresses of deleted
 * users, which may not register again. Also the e-mail, name, time-of-day, navigation-app and
 * settings validators.
 */
module Users {
  import opened Wrappers
  import opened Text
  import opened Clock
  import opened OrderedMaps
  import opened Types

  function UserId(n: nat): string { "user-" + NatToString(n) }

  /** `email.toLowerCase().trim()`. */
  function NormalizeEmail(email: string): string { Trim(ToLower(email)) }

  // ---------------------------------------------------------------------------------------
  // Validators

  predicate NoSpaceOrAt(s: string) {
    forall i :: 0 <= i < |s| ==> !IsWhitespace(s[i]) && s[i] != '@'
  }

  /**
   * The pattern /^[^\s@]+@[^\s@]+\.[^\s@]+$/ read literally: a non-empty local part, an '@',
   * then a domain with a dot that has at least one character on each side, and no white space
   * and no further '@' anywhere.
   */
  ghost predicate MatchesEmailPattern(s: string) {
    exists i, j :: 0 < i && i + 1 < j && j + 1 < |s| && s[i] == '@' && s[j] == '.'
                   && NoSpaceOrAt(s[..i]) && NoSpaceOrAt(s[i + 1..])
  }

  predicate HasInnerDot(d: string) {
    exists j :: 0 < j < |d| - 1 && d[j] == '.'
  }

  /** The pattern test as a scan: split at the first '@' and check both sides. */
  predicate EmailFormat(s: string) {
    match IndexOfChar(s, '@')
    case None => false
    case Some(i) => i > 0 && NoSpaceOrAt(s[..i]) && NoSpaceOrAt(s[i + 1..]) && HasInnerDot(s[i + 1..])
  }

  /** The scan accepts exactly the strings the e-mail pattern matches. */
  lemma EmailFormatMatchesPattern(s: string)
    ensures EmailFormat(s) <==> MatchesEmailPattern(s)
  {
    if EmailFormat(s) {
      var i := IndexOfChar(s, '@').value;
      var d := s[i + 1..];
      var j :| 0 < j < |d| - 1 && d[j] == '.';
      assert s[i + 1 + j] == '.';
      assert MatchesEmailPattern(s);
    }
    if MatchesEmailPattern(s) {
      var i, j :| 0 < i && i + 1 < j && j + 1 < |s| && s[i] == '@' && s[j] == '.'
                  && NoSpaceOrAt(s[..i]) && NoSpaceOrAt(s[i + 1..]);
      var k := IndexOfChar(s, '@');
      assert k == Some(i) by {
        assert forall m :: 0 <= m < i ==> s[m] == s[..i][m];
      }
      var d := s[i + 1..];
      assert d[j - i - 1] == '.';
      assert HasInnerDot(d);
    }
  }

  /** `validateEmail(email, true)`: the message it throws, if any. */
  function EmailError(email: string): (r: Option<string>)
  {
    if email == "" then Some("Email is required")
    else if !EmailFormat(Trim(email)) then Some("Invalid email format")
    else None
  }

  /** An address is accepted exactly when it is non-empty and its trimmed form matches the pattern. */
  lemma EmailErrorMeaning(email: string)
    ensures EmailError(email).None? <==> email != "" && MatchesEmailPattern(Trim(email))
    ensures EmailError(email).Some? ==>
              EmailError(email).value == (if email == "" then "Email is required" else "Invalid email format")
  {
    EmailFormatMatchesPattern(Trim(email));
  }

  /** `validateName`: present and not blank. */
  predicate ValidName(name: string) {
    name != "" && !IsBlank(name)
  }

  predicate IsHourText(h: string) {
    || (|h| == 1 && IsDigit(h[0]))
    || (|h| == 2 && (h[0] == '0' || h[0] == '1') && IsDigit(h[1]))
    || (|h| == 2 && h[0] == '2' && '0' <= h[1] <= '3')
  }

  /** `validateTimeFormat`: /^([01]?[0-9]|2[0-3]):[0-5][0-9]$/, so a one-digit hour is accepted. */
  predicate ValidTimeFormat(t: string) {
    var n := |t|;
    n >= 4 && t[n - 3] == ':' && '0' <= t[n - 2] <= '5' && IsDigit(t[n - 1]) && IsHourText(t[..n - 3])
  }

  /** Five-character times pass the check exactly when they are zero-padded valid times. */
  lemma ValidTimeFormatPadded(t: string)
    requires |t| == 5
    ensures ValidTimeFormat(t) <==> IsPaddedTime(t)
  {
    var h := t[..2];
    assert h[0] == t[0] && h[1] == t[1];
  }

  /** A four-character accepted time is a padded time once a leading zero is added. */
  lemma ValidTimeFormatShort(t: string)
    requires |t| == 4 && ValidTimeFormat(t)
    ensures IsPaddedTime("0" + t)
  {
    var p := "0" + t;
    assert p[1] == t[0] && p[2] == t[1] && p[3] == t[2] && p[4] == t[3];
    assert t[..1][0] == t[0];
  }

  /** The accepted times have four or five characters. */
  lemma ValidTimeFormatLength(t: string)
    requires ValidTimeFormat(t)
    ensures |t| == 4 || |t| == 5
  {
  }

  lemma TimeFormatExamples()
    ensures ValidTimeFormat("07:30") && ValidTimeFormat("23:59") && ValidTimeFormat("1:30")
    ensures !ValidTimeFormat("24:00") && !ValidTimeFormat("12:60") && !ValidTimeFormat("")
  {
    assert "07:30"[..2] == "07";
    assert "23:59"[..2] == "23";
    assert "1:30"[..1] == "1";
    assert "24:00"[..2] == "24";
  }

  const NavApps: seq<string> := ["google_maps", "apple_maps", "waze"]

  /** `validateNavApp`. */
  predicate ValidNavApp(app: string) { app in NavApps }

  /** A settings update as callers pass it: each part may be missing. */
  datatype SettingsInput = SettingsInput(defaultNavApp: Option<string>, quietHours: Option<QuietHours>)

  /**
   * `validateSettings`: the message it throws, if any. An empty navigation app or time is not
   * checked. Its third test repeats the first one's condition, so it never fires.
   */
  function SettingsError(s: SettingsInput): (r: Option<string>)
  {
    if Truthy(s.defaultNavApp) && !ValidNavApp(s.defaultNavApp.value) then Some("Invalid navigation app")
    else if s.quietHours.None? then None
    else
      var start := s.quietHours.value.start;
      var end := s.quietHours.value.end;
      if start != "" && !ValidTimeFormat(start) then Some("Invalid time format for quiet hours start")
      else if end != "" && !ValidTimeFormat(end) then Some("Invalid time format for quiet hours end")
      else if start != "" && end != "" && !ValidTimeFormat(start) then Some("Invalid time format")
      else None
  }

  /** `validateSettings` rejects exactly the invalid parts, and its third message never occurs. */
  lemma SettingsErrorMeaning(s: SettingsInput)
    ensures SettingsError(s).None? <==>
              (!Truthy(s.defaultNavApp) || ValidNavApp(s.defaultNavApp.value))
              && (s.quietHours.None? || ((s.quietHours.value.start == "" || ValidTimeFormat(s.quietHours.value.start))
                                         && (s.quietHours.value.end == "" || ValidTimeFormat(s.quietHours.value.end))))
    ensures SettingsError(s) != Some("Invalid time format")
  {
  }

  /** The settings a new user receives: the navigation app defaults to google_maps. */
  function NewSettings(s: Option<SettingsInput>): (r: Settings)
    ensures s.None? ==> r == Settings("google_maps", None)
    ensures s.Some? && Truthy(s.value.defaultNavApp) ==> r.defaultNavApp == s.value.defaultNavApp.value
    ensures s.Some? && !Truthy(s.value.defaultNavApp) ==> r.defaultNavApp == "google_maps"
    ensures s.Some? ==> r.quietHours == s.value.quietHours
  {
    match s
    case None => Settings("google_maps", None)
    case Some(v) => Settings(if Truthy(v.defaultNavApp) then v.defaultNavApp.value else "google_maps", v.quietHours)
  }

  /** `{...current, ...update}`: supplied parts replace the current ones. */
  function MergeSettings(current: Settings, s: SettingsInput): (r: Settings)
    ensures s.defaultNavApp.Some? ==> r.defaultNavApp == s.defaultNavApp.value
    ensures s.defaultNavApp.None? ==> r.defaultNavApp == current.defaultNavApp
    ensures s.quietHours.Some? ==> r.quietHours == s.quietHours
    ensures s.quietHours.None? ==> r.quietHours == current.quietHours
  {
    Settings(s.defaultNavApp.GetOr(current.defaultNavApp), if s.quietHours.Some? then s.quietHours else current.quietHours)
  }

  /**
   * Why `createUser` would throw against the given index and deleted set, in the order it
   * checks: e-mail, name, live duplicate, deleted address, settings.
   */
  function CreateUserError(email: string, name: string, settings: Option<SettingsInput>,
                           index: map<string, string>, deleted: set<string>): (r: Option<string>)
  {
    var normalized := NormalizeEmail(email);
    if EmailError(email).Some? then EmailError(email)
    else if !ValidName(name) then Some("Name is required")
    else if normalized in index then Some("User with this email already exists")
    else if normalized in deleted then Some("Email address was previously used")
    else if settings.Some? then SettingsError(settings.value)
    else None
  }

  /** `createUser` succeeds exactly when every check passes, and reports the first failing one. */
  lemma CreateUserErrorMeaning(email: string, name: string, settings: Option<SettingsInput>,
                               index: map<string, string>, deleted: set<string>)
    ensures CreateUserError(email, name, settings, index, deleted).None? <==>
              EmailError(email).None? && ValidName(name)
              && NormalizeEmail(email) !in index && NormalizeEmail(email) !in deleted
              && (settings.None? || SettingsError(settings.value).None?)
    ensures EmailError(email).Some? ==> CreateUserError(email, name, settings, index, deleted) == EmailError(email)
    ensures EmailError(email).None? && !ValidName(name) ==> CreateUserError(email, name, settings, index, deleted) == Some("Name is required")
    ensures EmailError(email).None? && ValidName(name) && NormalizeEmail(email) in index ==>
              CreateUserError(email, name, settings, index, deleted) == Some("User with this email already exists")
    ensures EmailError(email).None? && ValidName(name) && NormalizeEmail(email) !in index && NormalizeEmail(email) in deleted ==>
              CreateUserError(email, name, settings, index, deleted) == Some("Email address was previously used")
  {
  }

  lemma AcceptedAddressIsFree(email: string, name: string, settings: Option<SettingsInput>,
                              index: map<string, string>, deleted: set<string>)
    requires CreateUserError(email, name, settings, index, deleted).None?
    ensures NormalizeEmail(email) !in index && NormalizeEmail(email) !in deleted
  {
  }

  /**
   * Why `updateUserProfile` would throw for a known user: a blank new name, an invalid new
   * e-mail address, or one indexed to a different user.
   */
  function ProfileError(userId: string, name: Option<string>, email: Option<string>,
                        index: map<string, string>): (r: Option<string>)
  {
    if name.Some? && !ValidName(name.value) then Some("Name is required")
    else if email.None? then None
    else
      var normalized := NormalizeEmail(email.value);
      if EmailError(normalized).Some? then EmailError(normalized)
      else if normalized in index && index[normalized] != "" && index[normalized] != userId then Some("Email already in use")
      else None
  }

  /** `updateUserProfile` accepts exactly a valid name and a valid address that is free or already the user's own. */
  lemma ProfileErrorMeaning(userId: string, name: Option<string>, email: Option<string>, index: map<string, string>)
    ensures ProfileError(userId, name, email, index).None? <==>
              (name.None? || ValidName(name.value))
              && (email.None? || (EmailError(NormalizeEmail(email.value)).None?
                                  && (NormalizeEmail(email.value) in index ==> index[NormalizeEmail(email.value)] in {"", userId})))
    ensures name.Some? && !ValidName(name.value) ==> ProfileError(userId, name, email, index) == Some("Name is required")
    ensures (name.None? || ValidName(name.value)) && email.Some? && EmailError(NormalizeEmail(email.value)).None?
            && NormalizeEmail(email.value) in index && index[NormalizeEmail(email.value)] !in {"", userId} ==>
              ProfileError(userId, name, email, index) == Some("Email already in use")
  {
  }

  lemma AcceptedProfile(userId: string, name: Option<string>, email: Option<string>, index: map<string, string>)
    requires ProfileError(userId, name, email, index).None?
    ensures email.Some? && NormalizeEmail(email.value) in index ==> index[NormalizeEmail(email.value)] in {"", userId}
  {
  }

  /** The profile after an accepted update: the name trimmed, the address normalised. */
  function UpdatedProfile(u: User, name: Option<string>, email: Option<string>): (r: User)
    ensures r.id == u.id && r.createdAt == u.createdAt && r.settings == u.settings
    ensures r.name == (if name.Some? then Trim(name.value) else u.name)
    ensures r.email == (if email.Some? then NormalizeEmail(email.value) else u.email)
  {
    u.(name := if name.Some? then Trim(name.value) else u.name,
       email := if email.Some? then NormalizeEmail(email.value) else u.email)
  }

  /** The three demo accounts. */
  datatype DemoUser = DemoUser(email: string, name: string, settings: SettingsInput)

  const DemoUsers: seq<DemoUser> := [
    DemoUser("alex.kent@sevenoaks-demo.co.uk", "Alex Kent",
             SettingsInput(Some("waze"), Some(QuietHours(true, "22:00", "07:00")))),
    DemoUser("chloe.wells@tunbridge-demo.co.uk", "Chloe Wells",
             SettingsInput(Some("apple_maps"), Some(QuietHours(false, "23:00", "06:00")))),
    DemoUser("james.maidstone@kent-demo.co.uk", "James Maidstone",
             SettingsInput(Some("google_maps"), Some(QuietHours(true, "21:30", "07:30"))))
  ]

  /** The demo data passes every check that does not depend on the store. */
  predicate DemoAcceptable(d: DemoUser) {
    EmailError(d.email).None? && ValidName(d.name) && SettingsError(d.settings).None?
  }

  /**
   * The store's consistency: every stored user is indexed under its address, every index
   * entry names a stored user with that address, ids are non-empty, and no id from `next` on
   * has been handed out.
   */
  ghost predicate ValidStore(users: OrderedMap<string, User>, index: map<string, string>, next: nat) {
    && users.Valid()
    && (forall id :: id in users.entries ==> users.entries[id].id == id && id != "")
    && (forall id :: id in users.entries ==> users.entries[id].email in index && index[users.entries[id].email] == id)
    && (forall e :: e in index ==> index[e] in users.entries && users.entries[index[e]].email == e)
    && (forall n: nat :: n >= next ==> UserId(n) !in users.entries)
  }

  /** The index lookup of `getUserByEmail` for an address already normalised. */
  function LookupKey(users: OrderedMap<string, User>, index: map<string, string>, key: string): Option<User> {
    if key in index && index[key] != "" then users.Get(index[key]) else None
  }

  /** The lookup of `getUserByEmail`, on the store's values. */
  function LookupEmail(users: OrderedMap<string, User>, index: map<string, string>, email: string): Option<User> {
    LookupKey(users, index, NormalizeEmail(email))
  }

  /** In a consistent store the lookup finds exactly the user registered under the normalised address. */
  lemma LookupMeaning(users: OrderedMap<string, User>, index: map<string, string>, next: nat, email: string)
    requires ValidStore(users, index, next)
    ensures LookupEmail(users, index, email).Some? <==>
              exists id :: id in users.entries && users.entries[id].email == NormalizeEmail(email)
    ensures LookupEmail(users, index, email).Some? ==>
              var u := LookupEmail(users, index, email).value;
              u.email == NormalizeEmail(email) && u.id in users.entries && users.entries[u.id] == u
  {
  }

  /** In a consistent store every indexed address finds its user. */
  lemma IndexedIsFound(users: OrderedMap<string, User>, index: map<string, string>, next: nat, email: string)
    requires ValidStore(users, index, next) && NormalizeEmail(email) in index
    ensures LookupEmail(users, index, email).Some?
  {
  }

  /** Storing a user under the next id and an unindexed address keeps the store consistent. */
  lemma StoreNewUser(users: OrderedMap<string, User>, index: map<string, string>, next: nat, u: User)
    requires ValidStore(users, index, next)
    requires u.id == UserId(next) && u.email !in index
    ensures u.id !in users.entries
    ensures ValidStore(users.Put(u.id, u), index[u.email := u.id], next + 1)
  {
    forall n: nat | n >= next + 1
      ensures UserId(n) != u.id
    {
      PrefixedInjective("user-", n, next);
    }
  }

  /** Replacing a user by a record with the same id and address keeps the store consistent. */
  lemma ReplaceUser(users: OrderedMap<string, User>, index: map<string, string>, next: nat, u: User)
    requires ValidStore(users, index, next)
    requires u.id in users.entries && users.entries[u.id].email == u.email
    ensures ValidStore(users.Put(u.id, u), index, next)
  {
  }

  /**
   * Moving a user to an address that is free or already its own, and its index entry with it,
   * keeps the store consistent.
   */
  lemma MoveUserEmail(users: OrderedMap<string, User>, index: map<string, string>, next: nat, u: User)
    requires ValidStore(users, index, next)
    requires u.id in users.entries
    requires u.email in index ==> index[u.email] in {"", u.id}
    ensures ValidStore(users.Put(u.id, u), (index - {users.entries[u.id].email})[u.email := u.id], next)
  {
    var old_ := users.entries[u.id].email;
    var users' := users.Put(u.id, u);
    var index' := (index - {old_})[u.email := u.id];
    forall id | id in users'.entries
      ensures users'.entries[id].email in index' && index'[users'.entries[id].email] == id
    {
      if id != u.id {
        assert users.entries[id].email != old_;
      }
    }
  }

  /** Removing a user and its index entry keeps the store consistent. */
  lemma RemoveUserKeeps(users: OrderedMap<string, User>, index: map<string, string>, next: nat, id: string)
    requires ValidStore(users, index, next)
    requires id in users.entries
    ensures ValidStore(users.Remove(id), index - {users.entries[id].email}, next)
  {
  }

  /** Acceptable demo data with a free, never-deleted address passes every check of `createUser`. */
  lemma DemoCreatable(d: DemoUser, index: map<string, string>, deleted: set<string>)
    requires DemoAcceptable(d) && NormalizeEmail(d.email) !in index && NormalizeEmail(d.email) !in deleted
    ensures CreateUserError(d.email, d.name, Some(d.settings), index, deleted).None?
  {
  }

  /**
   * The users the normalised addresses find, in their order; an address that finds nobody
   * contributes nothing.
   */
  function Found(users: OrderedMap<string, User>, index: map<string, string>, keys: seq<string>): (r: seq<User>)
    ensures |r| <= |keys|
  {
    if keys == [] then []
    else
      var r := Found(users, index, keys[..|keys| - 1]);
      var u := LookupKey(users, index, keys[|keys| - 1]);
      if u.Some? then r + [u.value] else r
  }

  /** The list has an entry for every address exactly when each address finds a user. */
  lemma {:induction false} FoundAll(users: OrderedMap<string, User>, index: map<string, string>, keys: seq<string>)
    ensures |Found(users, index, keys)| == |keys| <==> forall k :: 0 <= k < |keys| ==> LookupKey(users, index, keys[k]).Some?
  {
    if keys != [] {
      var front := keys[..|keys| - 1];
      FoundAll(users, index, front);
      assert forall k :: 0 <= k < |front| ==> front[k] == keys[k];
    }
  }

  /** The normalised addresses of a list of accounts, in order. */
  function EmailKeys(ds: seq<DemoUser>): (r: seq<string>)
    ensures |r| == |ds| && forall k :: 0 <= k < |ds| ==> r[k] == NormalizeEmail(ds[k].email)
  {
    seq(|ds|, k requires 0 <= k < |ds| => NormalizeEmail(ds[k].email))
  }

  /** One more address adds the user it finds, if any, at the end. */
  lemma FoundSnoc(users: OrderedMap<string, User>, index: map<string, string>, keys: seq<string>, key: string)
    ensures LookupKey(users, index, key).Some? ==>
              Found(users, index, keys + [key]) == Found(users, index, keys) + [LookupKey(users, index, key).value]
    ensures LookupKey(users, index, key).None? ==> Found(users, index, keys + [key]) == Found(users, index, keys)
  {
    assert (keys + [key])[..|keys|] == keys;
  }

  /**
   * A step that changes the lookup of address i at most extends the users the first i
   * addresses find by what address i finds now, when the earlier addresses differ from it.
   */
  lemma FoundStep(users: OrderedMap<string, User>, index: map<string, string>,
                  users': OrderedMap<string, User>, index': map<string, string>, keys: seq<string>, i: nat)
    requires i < |keys|
    requires forall k :: 0 <= k < i ==> keys[k] != keys[i]
    requires forall k :: k != keys[i] ==> LookupKey(users', index', k) == LookupKey(users, index, k)
    ensures LookupKey(users', index', keys[i]).Some? ==>
              Found(users', index', keys[..i + 1]) == Found(users, index, keys[..i]) + [LookupKey(users', index', keys[i]).value]
    ensures LookupKey(users', index', keys[i]).None? ==>
              Found(users', index', keys[..i + 1]) == Found(users, index, keys[..i])
  {
    var front := keys[..i];
    forall k | 0 <= k < |front|
      ensures LookupKey(users', index', front[k]) == LookupKey(users, index, front[k])
    {
      assert front[k] == keys[k] != keys[i];
    }
    FoundAgree(users, index, users', index', front);
    assert keys[..i + 1] == front + [keys[i]];
    FoundSnoc(users', index', front, keys[i]);
  }

  /** Two stores whose lookups agree on every address find the same users. */
  lemma {:induction false} FoundAgree(users: OrderedMap<string, User>, index: map<string, string>,
                                      users': OrderedMap<string, User>, index': map<string, string>, keys: seq<string>)
    requires forall k :: 0 <= k < |keys| ==> LookupKey(users', index', keys[k]) == LookupKey(users, index, keys[k])
    ensures Found(users', index', keys) == Found(users, index, keys)
  {
    if keys != [] {
      var front := keys[..|keys| - 1];
      assert forall k :: 0 <= k < |front| ==> front[k] == keys[k];
      FoundAgree(users, index, users', index', front);
    }
  }

  /** A string with no white space at either end is its own trim. */
  lemma TrimUntouched(s: string)
    requires s != [] && !IsWhitespace(s[0]) && !IsWhitespace(s[|s| - 1])
    ensures Trim(s) == s
  {
  }

  /** An address that starts and ends with a lower-case letter keeps its first letter when normalised. */
  lemma NormalizedFirst(e: string)
    requires e != [] && 'a' <= e[0] <= 'z' && 'a' <= e[|e| - 1] <= 'z'
    ensures NormalizeEmail(e) != [] && NormalizeEmail(e)[0] == e[0]
  {
    var l := ToLower(e);
    assert l[0] == e[0] && l[|l| - 1] == e[|e| - 1];
    TrimUntouched(l);
  }

  /** The three demo accounts have distinct normalised addresses. */
  lemma DemoKeysDistinct()
    ensures forall j, k :: 0 <= j < k < |DemoUsers| ==> EmailKeys(DemoUsers)[j] != EmailKeys(DemoUsers)[k]
  {
    var keys := EmailKeys(DemoUsers);
    NormalizedFirst(DemoUsers[0].email);
    NormalizedFirst(DemoUsers[1].email);
    NormalizedFirst(DemoUsers[2].email);
    assert keys[0][0] == 'a' && keys[1][0] == 'c' && keys[2][0] == 'j';
  }

  class UserService {
    var users: OrderedMap<string, User>
    /** Normalised e-mail address to user id. */
    var emailIndex: map<string, string>
    var deletedEmails: set<string>
    var nextUser: nat

    ghost predicate Valid()
      reads this
    {
      ValidStore(users, emailIndex, nextUser)
    }

    constructor ()
      ensures Valid() && users.keys == [] && emailIndex == map[] && deletedEmails == {}
    {
      users := Empty();
      emailIndex := map[];
      deletedEmails := {};
      nextUser := 0;
    }

    /** `getUserById`. */
    function GetUserById(id: string): (r: Option<User>)
      reads this
      ensures r.None? <==> id !in users.entries
      ensures r.Some? ==> r.value == users.entries[id]
    {
      users.Get(id)
    }

    /** `getUserByEmail`: the address is normalised before the index lookup. */
    function GetUserByEmail(email: string): (r: Option<User>)
      reads this
      ensures Valid() ==>
                (r.Some? <==> exists id :: id in users.entries && users.entries[id].email == NormalizeEmail(email))
      ensures Valid() && r.Some? ==> r.value.email == NormalizeEmail(email) && r.value.id in users.entries
                                     && users.entries[r.value.id] == r.value
    {
      LookupEmail(users, emailIndex, email)
    }

    /** `getAllUsers`, in insertion order. */
    function GetAllUsers(): (r: seq<User>)
      reads this
      requires Valid()
      ensures |r| == |users.keys|
      ensures forall i :: 0 <= i < |r| ==> r[i] == users.entries[users.keys[i]]
    {
      users.Values()
    }

    /** `getUsers(offset, limit)`: `slice(offset, offset + limit)` of the users in insertion order. */
    function GetUsers(offset: nat, limit: nat): (r: seq<User>)
      reads this
      requires Valid()
      ensures offset >= |users.keys| ==> r == []
      ensures offset < |users.keys| ==> |r| == (if offset + limit <= |users.keys| then limit else |users.keys| - offset)
      ensures forall i :: 0 <= i < |r| ==> offset + i < |users.keys| && r[i] == users.entries[users.keys[offset + i]]
    {
      var all := users.Values();
      if offset >= |all| then []
      else if offset + limit <= |all| then all[offset..offset + limit]
      else all[offset..]
    }

    /**
     * `createUser`: validates, rejects live and deleted addresses, then stores a user with the
     * normalised address, trimmed name and defaulted settings; a rejection stores nothing.
     */
    method CreateUser(email: string, name: string, settings: Option<SettingsInput>, now: int)
      returns (r: Result<User>)
      requires Valid()
      modifies this
      ensures Valid()
      ensures deletedEmails == old(deletedEmails)
      ensures r.Err? <==> CreateUserError(email, name, settings, old(emailIndex), old(deletedEmails)).Some?
      ensures r.Err? ==> r.msg == CreateUserError(email, name, settings, old(emailIndex), old(deletedEmails)).value
                         && users == old(users) && emailIndex == old(emailIndex) && nextUser == old(nextUser)
      ensures r.Ok? ==> r.value.id !in old(users.entries)
                        && r.value == User(r.value.id, NormalizeEmail(email), Trim(name), now, NewSettings(settings))
                        && users == old(users).Put(r.value.id, r.value)
                        && emailIndex == old(emailIndex)[NormalizeEmail(email) := r.value.id]
    {
      var error := CreateUserError(email, name, settings, emailIndex, deletedEmails);
      if error.Some? {
        return Err(error.value);
      }
      AcceptedAddressIsFree(email, name, settings, emailIndex, deletedEmails);
      var user := User(UserId(nextUser), NormalizeEmail(email), Trim(name), now, NewSettings(settings));
      StoreUser(user);
      return Ok(user);
    }

    /** Stores a user under the next id and its address. */
    method StoreUser(user: User)
      requires Valid() && user.id == UserId(nextUser) && user.email !in emailIndex
      modifies this
      ensures Valid()
      ensures user.id !in old(users.entries)
      ensures users == old(users).Put(user.id, user) && emailIndex == old(emailIndex)[user.email := user.id]
      ensures nextUser == old(nextUser) + 1 && deletedEmails == old(deletedEmails)
    {
      StoreNewUser(users, emailIndex, nextUser, user);
      users, emailIndex, nextUser := users.Put(user.id, user), emailIndex[user.email := user.id], nextUser + 1;
    }

    /** `updateUserSettings`: null for an unknown user, a rejection for invalid settings, else the merge. */
    method UpdateUserSettings(userId: string, s: SettingsInput) returns (r: Result<Option<User>>)
      requires Valid()
      modifies this
      ensures Valid()
      ensures emailIndex == old(emailIndex) && deletedEmails == old(deletedEmails) && nextUser == old(nextUser)
      ensures r == Ok(None) <==> userId !in old(users.entries)
      ensures r.Err? <==> userId in old(users.entries) && SettingsError(s).Some?
      ensures r.Err? ==> r.msg == SettingsError(s).value
      ensures !(r.Ok? && r.value.Some?) ==> users == old(users)
      ensures r.Ok? && r.value.Some? ==>
                var u := old(users.entries[userId]);
                r.value.value == u.(settings := MergeSettings(u.settings, s))
                && users == old(users).Put(userId, r.value.value)
    {
      var user := users.Get(userId);
      if user.None? {
        return Ok(None);
      }
      var error := SettingsError(s);
      if error.Some? {
        return Err(error.value);
      }
      var updated := user.value.(settings := MergeSettings(user.value.settings, s));
      ReplaceUser(users, emailIndex, nextUser, updated);
      users := users.Put(userId, updated);
      return Ok(Some(updated));
    }

    /**
     * `updateUserProfile`: null for an unknown user; otherwise validation happens before any
     * change, and an accepted new address moves the user's index entry.
     */
    method UpdateUserProfile(userId: string, name: Option<string>, email: Option<string>)
      returns (r: Result<Option<User>>)
      requires Valid()
      modifies this
      ensures Valid()
      ensures deletedEmails == old(deletedEmails) && nextUser == old(nextUser)
      ensures r == Ok(None) <==> userId !in old(users.entries)
      ensures r.Err? <==> userId in old(users.entries) && ProfileError(userId, name, email, old(emailIndex)).Some?
      ensures r.Err? ==> r.msg == ProfileError(userId, name, email, old(emailIndex)).value
      ensures !(r.Ok? && r.value.Some?) ==> users == old(users) && emailIndex == old(emailIndex)
      ensures r.Ok? && r.value.Some? ==>
                var u := old(users.entries[userId]);
                r.value.value == UpdatedProfile(u, name, email)
                && users == old(users).Put(userId, r.value.value)
                && emailIndex == (if email.Some? then (old(emailIndex) - {u.email})[NormalizeEmail(email.value) := userId]
                                  else old(emailIndex))
    {
      var user := users.Get(userId);
      if user.None? {
        return Ok(None);
      }
      var error := ProfileError(userId, name, email, emailIndex);
      if error.Some? {
        return Err(error.value);
      }
      var updated := UpdatedProfile(user.value, name, email);
      AcceptedProfile(userId, name, email, emailIndex);
      if email.Some? {
        MoveUser(updated);
      } else {
        ReplaceUser(users, emailIndex, nextUser, updated);
        users := users.Put(userId, updated);
      }
      return Ok(Some(updated));
    }

    /** Stores a user's new record under its id and moves its index entry to its new address. */
    method MoveUser(u: User)
      requires Valid() && u.id in users.entries
      requires u.email in emailIndex ==> emailIndex[u.email] in {"", u.id}
      modifies this
      ensures Valid()
      ensures users == old(users).Put(u.id, u)
      ensures emailIndex == (old(emailIndex) - {old(users.entries[u.id]).email})[u.email := u.id]
      ensures nextUser == old(nextUser) && deletedEmails == old(deletedEmails)
    {
      MoveUserEmail(users, emailIndex, nextUser, u);
      users, emailIndex := users.Put(u.id, u), (emailIndex - {users.entries[u.id].email})[u.email := u.id];
    }

    /** `deleteUser`: false for an unknown id; otherwise the user and its index entry go and the address is retired. */
    method DeleteUser(userId: string) returns (deleted: bool)
      requires Valid()
      modifies this
      ensures Valid()
      ensures nextUser == old(nextUser)
      ensures deleted <==> userId in old(users.entries)
      ensures !deleted ==> users == old(users) && emailIndex == old(emailIndex) && deletedEmails == old(deletedEmails)
      ensures deleted ==>
                var email := old(users.entries[userId]).email;
                users == old(users).Remove(userId)
                && emailIndex == old(emailIndex) - {email}
                && deletedEmails == old(deletedEmails) + {email}
    {
      var user := users.Get(userId);
      if user.None? {
        return false;
      }
      var email := user.value.email;
      assert email == users.entries[userId].email;
      RemoveUserKeeps(users, emailIndex, nextUser, userId);
      users, emailIndex, deletedEmails := users.Remove(userId), emailIndex - {email}, deletedEmails + {email};
      return true;
    }

    /**
     * `createDemoUsers`: for each demo account, the existing user with that address, else a
     * newly created one, else (creation failed) whatever the address now finds. The result is
     * the users the three addresses find once the call is done. When all three are already
     * registered the call changes nothing, so a second call returns what the first returned.
     */
    method CreateDemoUsers(now: int) returns (r: seq<User>)
      requires Valid()
      modifies this
      ensures Valid()
      ensures deletedEmails == old(deletedEmails)
      ensures forall u :: u in r ==> u.id in users.entries && users.entries[u.id] == u
      ensures forall i :: 0 <= i < |DemoUsers| && DemoAcceptable(DemoUsers[i])
                          && NormalizeEmail(DemoUsers[i].email) !in deletedEmails ==>
                GetUserByEmail(DemoUsers[i].email).Some?
      ensures old(forall i :: 0 <= i < |DemoUsers| ==> GetUserByEmail(DemoUsers[i].email).Some?) ==>
                users == old(users) && emailIndex == old(emailIndex) && nextUser == old(nextUser)
                && |r| == |DemoUsers| && forall k :: 0 <= k < |r| ==> GetUserByEmail(DemoUsers[k].email) == Some(r[k])
      ensures r == Found(users, emailIndex, EmailKeys(DemoUsers))
    {
      DemoKeysDistinct();
      r := CreateAccounts(DemoUsers, now);
    }

    /** `createDemoUsers` for any list of accounts with distinct normalised addresses. */
    method CreateAccounts(ds: seq<DemoUser>, now: int) returns (r: seq<User>)
      requires Valid()
      requires forall j, k :: 0 <= j < k < |ds| ==> EmailKeys(ds)[j] != EmailKeys(ds)[k]
      modifies this
      ensures Valid()
      ensures deletedEmails == old(deletedEmails)
      ensures forall u :: u in r ==> u.id in users.entries && users.entries[u.id] == u
      ensures forall i :: 0 <= i < |ds| && DemoAcceptable(ds[i])
                          && NormalizeEmail(ds[i].email) !in deletedEmails ==>
                GetUserByEmail(ds[i].email).Some?
      ensures old(forall i :: 0 <= i < |ds| ==> GetUserByEmail(ds[i].email).Some?) ==>
                users == old(users) && emailIndex == old(emailIndex) && nextUser == old(nextUser)
                && |r| == |ds| && forall k :: 0 <= k < |r| ==> GetUserByEmail(ds[k].email) == Some(r[k])
      ensures r == Found(users, emailIndex, EmailKeys(ds))
    {
      ghost var keys := EmailKeys(ds);
      ghost var deleted := deletedEmails;
      ghost var ok := seq(|ds|, k requires 0 <= k < |ds| => DemoAcceptable(ds[k]) && keys[k] !in deleted);
      r := AddDemoUsers(ds, now, keys, ok);
      forall i | 0 <= i < |ds| && DemoAcceptable(ds[i]) && NormalizeEmail(ds[i].email) !in deletedEmails
        ensures GetUserByEmail(ds[i].email).Some?
      {
        assert ok[i];
        IndexedIsFound(users, emailIndex, nextUser, ds[i].email);
      }
    }

    /**
     * The loop of `createDemoUsers` over any list of accounts, given each account's normalised
     * address and whether it is acceptable and not retired.
     */
    method AddDemoUsers(ds: seq<DemoUser>, now: int, ghost keys: seq<string>, ghost ok: seq<bool>) returns (r: seq<User>)
      requires Valid()
      requires |keys| == |ds| && |ok| == |ds|
      requires forall k {:trigger ds[k]} :: 0 <= k < |ds| ==> keys[k] == NormalizeEmail(ds[k].email)
      requires forall k {:trigger ds[k]} :: 0 <= k < |ds| && ok[k] ==> DemoAcceptable(ds[k]) && keys[k] !in deletedEmails
      requires forall j, k :: 0 <= j < k < |ds| ==> keys[j] != keys[k]
      modifies this
      ensures Valid()
      ensures deletedEmails == old(deletedEmails)
      ensures forall u :: u in r ==> u.id in users.entries && users.entries[u.id] == u
      ensures forall k :: 0 <= k < |ds| && ok[k] ==> keys[k] in emailIndex
      ensures old(forall k :: 0 <= k < |ds| ==> LookupKey(users, emailIndex, keys[k]).Some?) ==>
                users == old(users) && emailIndex == old(emailIndex) && nextUser == old(nextUser)
                && |r| == |ds| && forall k :: 0 <= k < |r| ==> LookupKey(users, emailIndex, keys[k]) == Some(r[k])
      ensures r == Found(users, emailIndex, keys)
    {
      ghost var allFound := forall k :: 0 <= k < |ds| ==> LookupKey(users, emailIndex, keys[k]).Some?;
      ghost var users0, index0, next0 := users, emailIndex, nextUser;
      r := [];
      var i := 0;
      assert keys[..0] == [];
      while i < |ds|
        invariant 0 <= i <= |ds|
        invariant Valid()
        invariant deletedEmails == old(deletedEmails)
        invariant DemoProgress(ds, keys, ok, r, i, allFound, users0, index0, next0)
      {
        assert forall k :: 0 <= k < i ==> keys[k] != keys[i];
        r := AddDemoStep(ds, now, keys, ok, r, i, allFound, users0, index0, next0);
        i := i + 1;
      }
      assert keys[..i] == keys;
    }

    /** What `createDemoUsers` has achieved after the first i accounts. */
    ghost predicate DemoProgress(ds: seq<DemoUser>, keys: seq<string>, ok: seq<bool>, r: seq<User>, i: nat,
                                 allFound: bool, users0: OrderedMap<string, User>, index0: map<string, string>, next0: nat)
      reads this
      requires i <= |ds| && |keys| == |ds| && |ok| == |ds|
    {
      && r == Found(users, emailIndex, keys[..i])
      && (forall u :: u in r ==> u.id in users.entries && users.entries[u.id] == u)
      && (forall k :: 0 <= k < i && ok[k] ==> keys[k] in emailIndex)
      && (allFound ==> users == users0 && emailIndex == index0 && nextUser == next0
                       && |r| == i && forall k :: 0 <= k < i ==> LookupKey(users, emailIndex, keys[k]) == Some(r[k]))
    }

    /** One turn of the `createDemoUsers` loop. */
    method AddDemoStep(ds: seq<DemoUser>, now: int, ghost keys: seq<string>, ghost ok: seq<bool>, r: seq<User>, i: nat,
                       ghost allFound: bool, ghost users0: OrderedMap<string, User>, ghost index0: map<string, string>, ghost next0: nat)
        returns (r': seq<User>)
      requires Valid()
      requires i < |ds| && |keys| == |ds| && |ok| == |ds|
      requires keys[i] == NormalizeEmail(ds[i].email)
      requires ok[i] ==> DemoAcceptable(ds[i]) && keys[i] !in deletedEmails
      requires allFound ==> LookupKey(users0, index0, keys[i]).Some?
      requires forall k :: 0 <= k < i ==> keys[k] != keys[i]
      requires DemoProgress(ds, keys, ok, r, i, allFound, users0, index0, next0)
      modifies this
      ensures Valid()
      ensures deletedEmails == old(deletedEmails)
      ensures DemoProgress(ds, keys, ok, r', i + 1, allFound, users0, index0, next0)
    {
      ghost var users1, index1 := users, emailIndex;
      var found := AddDemoUser(ds[i], now, keys[i], ok[i]);
      r' := r;
      if found.Some? {
        r' := r + [found.value];
      }
      FoundStep(users1, index1, users, emailIndex, keys, i);
      assert r' == Found(users, emailIndex, keys[..i + 1]);
      if allFound {
        forall k | 0 <= k < i + 1
          ensures LookupKey(users, emailIndex, keys[k]) == Some(r'[k])
        {
          if k < i {
            assert r'[k] == r[k];
          }
        }
      }
    }

    /**
     * One demo account: the user its address finds, else a newly created one, else (creation
     * failed) whatever the address finds now. Existing users and index entries are kept.
     */
    method AddDemoUser(d: DemoUser, now: int, ghost key: string, ghost ok: bool) returns (found: Option<User>)
      requires Valid()
      requires key == NormalizeEmail(d.email)
      requires ok ==> DemoAcceptable(d) && key !in deletedEmails
      modifies this
      ensures Valid()
      ensures deletedEmails == old(deletedEmails)
      ensures found.Some? ==> found.value.id in users.entries && users.entries[found.value.id] == found.value
      ensures forall id :: id in old(users.entries) ==> id in users.entries && users.entries[id] == old(users.entries[id])
      ensures forall e :: e in old(emailIndex) ==> e in emailIndex && emailIndex[e] == old(emailIndex[e])
      ensures ok ==> key in emailIndex
      ensures found == LookupKey(users, emailIndex, key)
      ensures forall k :: k != key ==> LookupKey(users, emailIndex, k) == old(LookupKey(users, emailIndex, k))
      ensures old(LookupKey(users, emailIndex, key)).Some? ==>
                users == old(users) && emailIndex == old(emailIndex) && nextUser == old(nextUser)
                && found == old(LookupKey(users, emailIndex, key))
    {
      found := GetUserByEmail(d.email);
      if found.Some? {
        return;
      }
      var created := CreateUser(d.email, d.name, Some(d.settings), now);
      if created.Ok? {
        found := Some(created.value);
      } else {
        found := GetUserByEmail(d.email);
        if ok {
          DemoCreatable(d, emailIndex, deletedEmails);
        }
      }
    }
  }
}
