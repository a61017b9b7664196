/**
 * The user helpers of the website: `getUserNameFromId` (website/src/hooks/useUsers.ts)
 * looks a user id up in the store's user list, and `getUserEmail`,
 * `getUserCountryCode` and `parseRoles` (website/src/hooks/useUsersApi.ts) read a
 * Cognito user's attribute list and role list. All of them only read their input.
 */
module Users {
  import opened Wrappers
  import opened KeyedList

  datatype User = User(sub: string, username: string)

  function Sub(u: User): string { u.sub }

  /**
   * `getUserNameFromId(userId)`: `undefined` for a missing id, the `Username` of the
   * first user whose `sub` is the id, and the id itself when no user has it.
   */
  function GetUserNameFromId(users: seq<User>, userId: Option<string>): (r: Option<string>)
    ensures r.None? <==> userId.None?
    ensures userId.Some? ==>
      (exists i :: 0 <= i < |users| && users[i].sub == userId.value && r.value == users[i].username
        && forall j :: 0 <= j < i ==> users[j].sub != userId.value)
      || ((forall j :: 0 <= j < |users| ==> users[j].sub != userId.value) && r.value == userId.value)
  {
    match userId
    case None => None
    case Some(id) =>
      var i := FindIndex(users, Sub, id);
      if i == -1 then Some(id) else Some(users[i].username)
  }

  /** Whatever the lookup returns is some user's name or the id that was asked for. */
  lemma UserNameIsNameOrId(users: seq<User>, userId: string)
    ensures var r := GetUserNameFromId(users, Some(userId)).value;
      r == userId || exists u :: u in users && u.username == r
  {
    var i := FindIndex(users, Sub, userId);
    if i != -1 {
      assert users[i] in users;
    }
  }

  /** In a list whose `sub`s are unique, the name found is the name of the user with that id. */
  lemma UserNameOfKnownUser(users: seq<User>, u: User)
    requires KeysUnique(users, Sub)
    requires u in users
    ensures GetUserNameFromId(users, Some(u.sub)) == Some(u.username)
  {
    var k :| 0 <= k < |users| && users[k] == u;
    var i := FindIndex(users, Sub, u.sub);
    assert i != -1;
    assert i == k;
  }

  // ----- Cognito users -----

  datatype Attribute = Attribute(name: string, value: string)

  /** The fields of a Cognito user the helpers read; a missing or null `Roles` is `None`. */
  datatype CognitoUser = CognitoUser(attributes: seq<Attribute>, roles: Option<seq<string>>)

  /** Position `i` holds the first attribute called `name`. */
  predicate FirstNamedAt(attributes: seq<Attribute>, name: string, i: int) {
    0 <= i < |attributes| && attributes[i].name == name
    && forall j :: 0 <= j < i ==> attributes[j].name != name
  }

  /** `Attributes.filter((obj) => obj.Name === name)`, keeping the values. */
  function ValuesNamed(attributes: seq<Attribute>, name: string): (r: seq<string>)
    ensures |r| <= |attributes|
  {
    if attributes == [] then []
    else (if attributes[0].name == name then [attributes[0].value] else []) + ValuesNamed(attributes[1..], name)
  }

  /** The first attribute called `name`, as the head of the filtered list. */
  lemma {:induction false} FirstValueNamed(attributes: seq<Attribute>, name: string)
    ensures var r := ValuesNamed(attributes, name);
      && (r == [] <==> forall j :: 0 <= j < |attributes| ==> attributes[j].name != name)
      && (r != [] ==> exists i :: FirstNamedAt(attributes, name, i) && attributes[i].value == r[0])
  {
    if attributes != [] {
      FirstValueNamed(attributes[1..], name);
      var r := ValuesNamed(attributes, name);
      if attributes[0].name != name {
        var r' := ValuesNamed(attributes[1..], name);
        assert r == r';
        if r' != [] {
          var i :| FirstNamedAt(attributes[1..], name, i) && attributes[1..][i].value == r'[0];
          assert FirstNamedAt(attributes, name, i + 1);
        }
      }
    }
  }

  /** `getUserEmail(item)`: the value of the first `email` attribute, or `undefined`. */
  function GetUserEmail(item: CognitoUser): (r: Option<string>)
    ensures r.None? <==> forall j :: 0 <= j < |item.attributes| ==> item.attributes[j].name != "email"
    ensures r.Some? ==> exists i :: FirstNamedAt(item.attributes, "email", i) && item.attributes[i].value == r.value
  {
    var email := ValuesNamed(item.attributes, "email");
    FirstValueNamed(item.attributes, "email");
    if |email| > 0 then Some(email[0]) else None
  }

  /** `getUserCountryCode(item)`: the value of the first `custom:countryCode` attribute, or ''. */
  function GetUserCountryCode(item: CognitoUser): (r: string)
    ensures (forall j :: 0 <= j < |item.attributes| ==> item.attributes[j].name != "custom:countryCode") ==> r == ""
    ensures (exists j :: 0 <= j < |item.attributes| && item.attributes[j].name == "custom:countryCode") ==>
      exists i :: FirstNamedAt(item.attributes, "custom:countryCode", i) && item.attributes[i].value == r
  {
    var countryCode := ValuesNamed(item.attributes, "custom:countryCode");
    FirstValueNamed(item.attributes, "custom:countryCode");
    if |countryCode| > 0 then countryCode[0] else ""
  }

  /** `array.join(sep)`: the elements with `sep` between each two. */
  function Join(parts: seq<string>, sep: char): string {
    if parts == [] then ""
    else if |parts| == 1 then parts[0]
    else parts[0] + [sep] + Join(parts[1..], sep)
  }

  /** `str.split(sep)`: the pieces between the separators. */
  function Split(s: string, sep: char): (r: seq<string>)
    ensures |r| >= 1
  {
    if s == [] then [""]
    else
      var rest := Split(s[1..], sep);
      if s[0] == sep then [""] + rest
      else [[s[0]] + rest[0]] + rest[1..]
  }

  /** `parseRoles(user)`: null without roles, otherwise the roles joined with commas. */
  function ParseRoles(user: CognitoUser): (r: Option<string>)
    ensures r.None? <==> user.roles.None?
    ensures user.roles == Some([]) ==> r == Some("")
  {
    match user.roles
    case None => None
    case Some(roles) => Some(Join(roles, ','))
  }

  /** A role text without a comma is a single piece. */
  lemma {:induction false} SplitWithoutSeparator(s: string, sep: char)
    requires sep !in s
    ensures Split(s, sep) == [s]
  {
    if s != [] {
      SplitWithoutSeparator(s[1..], sep);
      assert [s[0]] + s[1..] == s;
    }
  }

  /** Splitting `a + sep + b` where `a` has no separator gives `a` and then the pieces of `b`. */
  lemma {:induction false} SplitAfterPiece(a: string, b: string, sep: char)
    requires sep !in a
    ensures Split(a + [sep] + b, sep) == [a] + Split(b, sep)
  {
    if a == [] {
      assert a + [sep] + b == [sep] + b;
      assert ([sep] + b)[1..] == b;
    } else {
      SplitAfterPiece(a[1..], b, sep);
      assert (a + [sep] + b)[1..] == a[1..] + [sep] + b;
      assert [a[0]] + a[1..] == a;
    }
  }

  /**
   * The joined roles read back with `split(',')` as the role list, as long as there is
   * at least one role and no role contains a comma.
   */
  lemma {:induction false} RolesRoundTrip(roles: seq<string>)
    requires |roles| >= 1
    requires forall i :: 0 <= i < |roles| ==> ',' !in roles[i]
    ensures Split(Join(roles, ','), ',') == roles
  {
    if |roles| == 1 {
      SplitWithoutSeparator(roles[0], ',');
    } else {
      RolesRoundTrip(roles[1..]);
      SplitAfterPiece(roles[0], Join(roles[1..], ','), ',');
      assert [roles[0]] + roles[1..] == roles;
    }
  }
}
