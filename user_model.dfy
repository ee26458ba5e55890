/** The user document: a unique, trimmed username of at least three characters,
    a unique, trimmed, lower-cased email matching `^\S+@\S+\.\S+$`, a password of
    at least eight characters, and a JSON form that never carries the password. */
module UserModel {
  import opened Common
  import opened Text

  datatype User = User(username: string, email: string, password: string,
                       createdAt: Millis, updatedAt: Millis)

  const UsernameMin: nat := 3
  const PasswordMin: nat := 8

  /** No character of `s` is matched by `\s`. */
  predicate NoSpace(s: string) {
    forall k :: 0 <= k < |s| ==> !IsSpace(s[k])
  }

  /** `/^\S+@\S+\.\S+$/.test(s)`: no white space anywhere, an '@' with at least one
      character before it, and a later '.' with at least one character between the
      two and at least one after the '.'. */
  predicate MatchesEmailPattern(s: string) {
    NoSpace(s) &&
    exists i, j :: 1 <= i && i + 2 <= j && j + 2 <= |s| && s[i] == '@' && s[j] == '.'
  }

  /** A matching address splits as `a@b.c` into three non-empty parts without white
      space — the three `\S+` groups of the pattern. */
  lemma EmailParts(s: string) returns (a: string, b: string, c: string)
    requires MatchesEmailPattern(s)
    ensures s == a + "@" + b + "." + c
    ensures a != "" && b != "" && c != ""
    ensures NoSpace(a) && NoSpace(b) && NoSpace(c)
  {
    var i, j :| 1 <= i && i + 2 <= j && j + 2 <= |s| && s[i] == '@' && s[j] == '.';
    a, b, c := s[..i], s[i + 1..j], s[j + 1..];
    assert s == s[..i] + [s[i]] + s[i + 1..j] + [s[j]] + s[j + 1..];
    assert forall k :: 0 <= k < |b| ==> b[k] == s[i + 1 + k];
    assert forall k :: 0 <= k < |c| ==> c[k] == s[j + 1 + k];
  }

  /** Conversely every `a@b.c` built from non-empty parts without white space matches. */
  lemma EmailFromParts(a: string, b: string, c: string)
    requires a != "" && b != "" && c != ""
    requires NoSpace(a) && NoSpace(b) && NoSpace(c)
    ensures MatchesEmailPattern(a + "@" + b + "." + c)
  {
    var s := a + "@" + b + "." + c;
    var i, j := |a|, |a| + 1 + |b|;
    assert s[i] == '@' && s[j] == '.';
    forall k | 0 <= k < |s| ensures !IsSpace(s[k]) {
      if k < i { assert s[k] == a[k]; }
      else if i < k < j { assert s[k] == b[k - i - 1]; }
      else if k > j { assert s[k] == c[k - j - 1]; }
    }
  }

  /** `username`: trimmed, required, at least three UTF-16 code units. */
  function CreateUsername(raw: Option<string>): (r: Result<string, ValidationError>)
    ensures r.Ok? <==> raw.Some? && Utf16Length(Trim(raw.value)) >= UsernameMin
    ensures r.Ok? ==> r.value == Trim(raw.value) && Utf16Length(r.value) >= UsernameMin
  {
    if raw.None? || Trim(raw.value) == "" then Err(Required("username"))
    else if Utf16Length(Trim(raw.value)) < UsernameMin then Err(TooShort("username"))
    else Ok(Trim(raw.value))
  }

  /** `email`: trimmed, lower-cased, required and matching the pattern. */
  function CreateEmail(raw: Option<string>): (r: Result<string, ValidationError>)
    ensures r.Ok? <==> raw.Some? && MatchesEmailPattern(Lower(Trim(raw.value)))
    ensures r.Ok? ==> r.value == Lower(Trim(raw.value)) && MatchesEmailPattern(r.value)
  {
    if raw.None? || Lower(Trim(raw.value)) == "" then Err(Required("email"))
    else if !MatchesEmailPattern(Lower(Trim(raw.value))) then Err(NoMatch("email"))
    else Ok(Lower(Trim(raw.value)))
  }

  /** `password`: required and at least eight UTF-16 code units; it is not trimmed. */
  function CreatePassword(raw: Option<string>): (r: Result<string, ValidationError>)
    ensures r.Ok? <==> raw.Some? && Utf16Length(raw.value) >= PasswordMin
    ensures r.Ok? ==> r.value == raw.value
  {
    if raw.None? || raw.value == "" then Err(Required("password"))
    else if Utf16Length(raw.value) < PasswordMin then Err(TooShort("password"))
    else Ok(raw.value)
  }

  /** Lengths are code units: two characters above U+FFFF make a four-unit
      username and four of them an eight-unit password, and both are accepted. */
  lemma WideCredentialsLongEnough()
    ensures CreateUsername(Some(seq(2, _ => '\U{1F600}'))).Ok?
    ensures CreatePassword(Some(seq(4, _ => '\U{1F600}'))).Ok?
  {
    var u := seq(2, _ => '\U{1F600}');
    TrimNoEdges(u);
    Utf16LengthWide(u);
    Utf16LengthWide(seq(4, _ => '\U{1F600}'));
  }

  predicate ValidUser(u: User) {
    Utf16Length(u.username) >= UsernameMin && Trim(u.username) == u.username &&
    MatchesEmailPattern(u.email) && Lower(u.email) == u.email &&
    Utf16Length(u.password) >= PasswordMin
  }

  /** Validation of a new user document at time `now`. */
  function CreateUser(username: Option<string>, email: Option<string>, password: Option<string>,
                      now: Millis): (r: Result<User, ValidationError>)
    ensures r.Ok? <==> CreateUsername(username).Ok? && CreateEmail(email).Ok? && CreatePassword(password).Ok?
    ensures r.Ok? ==> ValidUser(r.value)
    ensures r.Ok? ==>
      && r.value.username == Trim(username.value)
      && r.value.email == Lower(Trim(email.value))
      && r.value.password == password.value
      && r.value.createdAt == now && r.value.updatedAt == now
  {
    match CreateUsername(username)
    case Err(e) => Err(e)
    case Ok(name) =>
      match CreateEmail(email)
      case Err(e) => Err(e)
      case Ok(mail) =>
        match CreatePassword(password)
        case Err(e) => Err(e)
        case Ok(pw) =>
          TrimIdempotent(username.value);
          LowerIdempotent(Trim(email.value));
          Ok(User(name, mail, pw, now, now))
  }

  /** Usernames and emails are unique across the collection (the two unique indexes). */
  predicate UniqueAccounts(users: map<UserId, User>) {
    forall a, b :: a in users && b in users && a != b ==>
      users[a].username != users[b].username && users[a].email != users[b].email
  }

  datatype JsonValue = JId(id: UserId) | JString(text: string) | JTime(at: Millis)

  /** `toObject()`: every stored path of the document. */
  function ToObject(id: UserId, u: User): map<string, JsonValue> {
    map["_id" := JId(id), "username" := JString(u.username), "email" := JString(u.email),
        "password" := JString(u.password), "createdAt" := JTime(u.createdAt),
        "updatedAt" := JTime(u.updatedAt)]
  }

  /** `toJSON()`: a copy of the document with the password deleted. */
  function ToJson(id: UserId, u: User): (r: map<string, JsonValue>)
    ensures "password" !in r
    ensures r.Keys == {"_id", "username", "email", "createdAt", "updatedAt"}
    ensures forall k :: k in r ==> r[k] == ToObject(id, u)[k]
  {
    ToObject(id, u) - {"password"}
  }
}
